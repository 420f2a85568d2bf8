/** Handlers of the task dialogs: ticking a subtask off (or on again) from the task
    overview, and saving the edit dialog. */
module BoardAssistance {
  import opened Common
  import opened Entities
  import opened Storage
  import opened Board
  import opened BoardSupply

  // ---------------------------------------------------------------- subtask toggle

  /** The subtask list with the flag at index `i` negated and nothing else touched. */
  function FlipAt(subs: seq<Subtask>, i: nat): (r: seq<Subtask>)
    requires i < |subs|
    ensures |r| == |subs|
    ensures r[i].name == subs[i].name && r[i].completed == !subs[i].completed
    ensures forall j :: 0 <= j < |subs| && j != i ==> r[j] == subs[j]
  {
    subs[i := subs[i].(completed := !subs[i].completed)]
  }

  /** Ticking the same subtask twice restores the list. */
  lemma FlipTwice(subs: seq<Subtask>, i: nat)
    requires i < |subs|
    ensures FlipAt(FlipAt(subs, i), i) == subs
  {
    var r := FlipAt(FlipAt(subs, i), i);
    assert r[i] == subs[i];
  }

  /** A flip moves the completed count by exactly one, up or down. */
  lemma {:induction false} FlipCount(subs: seq<Subtask>, i: nat)
    requires i < |subs|
    ensures CompletedCount(FlipAt(subs, i)) == CompletedCount(subs) + (if subs[i].completed then -1 else 1)
  {
    if i == 0 {
      assert FlipAt(subs, i)[1..] == subs[1..];
    } else {
      assert FlipAt(subs, i)[1..] == FlipAt(subs[1..], i - 1);
      FlipCount(subs[1..], i - 1);
    }
  }

  /** Whether `task.subtasks[i].completed` can be read: the list exists and the index is
      inside it; anything else throws a `TypeError`. */
  predicate CanToggle(t: Task, i: int)
  {
    t.subtasks.Some? && 0 <= i < |t.subtasks.value|
  }

  function Toggled(t: Task, i: int): (r: Task)
    requires CanToggle(t, i)
    ensures r.id == t.id && r.status == t.status && r.subtasks.Some?
    ensures r.subtasks.value == FlipAt(t.subtasks.value, i)
    ensures r == t.(subtasks := r.subtasks)
  {
    t.(subtasks := Some(FlipAt(t.subtasks.value, i)))
  }

  /** `tasks.map(t => t.id === id ? task : t)`. */
  function ReplaceById(tasks: seq<Task>, id: string, task: Task): (r: seq<Task>)
    ensures |r| == |tasks|
    ensures forall j :: 0 <= j < |tasks| ==> r[j] == (if tasks[j].id == id then task else tasks[j])
  {
    seq(|tasks|, j requires 0 <= j < |tasks| => if tasks[j].id == id then task else tasks[j])
  }

  /** When only one task has the id and it is already the one put back, the replace
      changes nothing. */
  lemma ReplaceUniqueIsNoop(tasks: seq<Task>, k: nat, id: string)
    requires k < |tasks| && tasks[k].id == id
    requires forall j :: 0 <= j < |tasks| && j != k ==> tasks[j].id != id
    ensures ReplaceById(tasks, id, tasks[k]) == tasks
  {
    var r := ReplaceById(tasks, id, tasks[k]);
    assert forall j :: 0 <= j < |tasks| ==> r[j] == tasks[j];
  }

  /** `toggleSubtask`. The users are refetched and the owner resolved; a signed-in user
      nobody matches throws before any change. An unknown task returns at once, leaving even
      the board as it was. A task whose list or index does not exist throws. Otherwise the
      flag is flipped in place and the task is PUT; only when that succeeds are the progress
      counts computed and every task with the id replaced by the flipped one. Apart from the
      unknown-task case the board is redrawn at the end. */
  method ToggleSubtask(store: Store, view: BoardView, subtaskIndex: int, taskId: string,
                       ls: LocalStorage, server: Server, codec: Codec, putOk: bool)
    returns (progress: Option<(nat, nat)>)
    requires view.Valid()
    modifies store`users, store`tasks, store`writes, view`columns, view`noResults, view`openMenus
    ensures view.Valid()
    ensures store.users == Keyed(server.users, UserWithId)
    ensures var owner := ResolveUserId(store.users, ls.items, codec);
            var found := FindTask(old(store.tasks), taskId);
            owner.Some? && found.None? ==>
              store.tasks == old(store.tasks) && store.writes == old(store.writes) && progress.None?
              && view.Shown() == old(view.Shown())
    ensures var owner := ResolveUserId(store.users, ls.items, codec);
            var found := FindTask(old(store.tasks), taskId);
            (owner.None? || (found.Some? && !CanToggle(old(store.tasks)[found.value], subtaskIndex))) ==>
              store.tasks == old(store.tasks) && store.writes == old(store.writes) && progress.None?
              && view.Shown() == Redrawn(old(view.Shown()), store.tasks)
    ensures var owner := ResolveUserId(store.users, ls.items, codec);
            var found := FindTask(old(store.tasks), taskId);
            owner.Some? && found.Some? && CanToggle(old(store.tasks)[found.value], subtaskIndex) ==>
              var k := found.value;
              var flipped := Toggled(old(store.tasks)[k], subtaskIndex);
              store.writes == old(store.writes) + [Write(Put, TaskPath(owner, taskId), TaskBody(flipped))]
              && (putOk ==> store.tasks == ReplaceById(old(store.tasks)[k := flipped], taskId, flipped)
                            && progress == Some((CompletedCount(flipped.subtasks.value), |flipped.subtasks.value|)))
              && (!putOk ==> store.tasks == old(store.tasks)[k := flipped] && progress.None?)
              && view.Shown() == Redrawn(old(view.Shown()), store.tasks)
  {
    progress := None;
    store.RefreshUsers(server);
    var owner := ResolveUserId(store.users, ls.items, codec);
    if owner.None? {
      var _ := view.UpdateBoardHtml(store.tasks);
      return;
    }
    var found := FindTask(store.tasks, taskId);
    if found.None? {
      return;
    }
    var k := found.value;
    if !CanToggle(store.tasks[k], subtaskIndex) {
      var _ := view.UpdateBoardHtml(store.tasks);
      return;
    }
    var flipped := Toggled(store.tasks[k], subtaskIndex);
    store.tasks := store.tasks[k := flipped];
    store.writes := store.writes + [Write(Put, TaskPath(owner, taskId), TaskBody(flipped))];
    if putOk {
      progress := Some((CompletedCount(flipped.subtasks.value), |flipped.subtasks.value|));
      store.tasks := ReplaceById(store.tasks, taskId, flipped);
    }
    var _ := view.UpdateBoardHtml(store.tasks);
  }

  // ---------------------------------------------------------------- saving the edit dialog

  /** The subtasks `saveEditTask` sends: the task's own list, each keeping its flag, with
      its name taken from its edit input where one is present (`inputs[i]`), else its old
      name. */
  function MergeNames(subs: seq<Subtask>, inputs: seq<Option<string>>): (r: seq<Subtask>)
    ensures |r| == |subs|
    ensures forall i :: 0 <= i < |subs| ==> r[i].completed == subs[i].completed
    ensures forall i :: 0 <= i < |subs| ==>
              r[i].name == (if i < |inputs| && inputs[i].Some? then inputs[i].value else subs[i].name)
  {
    seq(|subs|, i requires 0 <= i < |subs| =>
          subs[i].(name := if i < |inputs| && inputs[i].Some? then inputs[i].value else subs[i].name))
  }

  /** Renaming does not change how many subtasks are done. */
  lemma MergeKeepsProgress(subs: seq<Subtask>, inputs: seq<Option<string>>)
    ensures CompletedCount(MergeNames(subs, inputs)) == CompletedCount(subs)
  {
    var r := MergeNames(subs, inputs);
    CountSame(r, (s: Subtask) => s.completed, subs, (s: Subtask) => s.completed);
  }

  /** With no edit input on the page the list is sent back unchanged. */
  lemma MergeWithoutInputs(subs: seq<Subtask>, inputs: seq<Option<string>>)
    requires forall i :: 0 <= i < |inputs| ==> inputs[i].None?
    ensures MergeNames(subs, inputs) == subs
  {
    var r := MergeNames(subs, inputs);
    assert forall i :: 0 <= i < |subs| ==> r[i] == subs[i];
  }

  /** The record `saveEditTask` PUTs (it carries no id field): the collected values, and
      the merged subtask list when the task had one. The staged texts the collected data
      also holds are not part of it. */
  function EditedTaskBody(fd: EditFormData, current: Task, inputs: seq<Option<string>>): (t: Task)
    ensures t.id == "" && t.title == fd.title && t.description == fd.description && t.date == fd.date
    ensures t.prio == fd.priority && t.category == fd.category && t.status == fd.status
    ensures t.assignedTo == fd.assignedTo
    ensures current.subtasks.None? ==> t.subtasks.None?
    ensures current.subtasks.Some? ==> t.subtasks == Some(MergeNames(current.subtasks.value, inputs))
  {
    Task("", fd.title, fd.description, fd.date, fd.priority, fd.category, fd.status, fd.assignedTo,
         match current.subtasks
         case None => None
         case Some(subs) => Some(MergeNames(subs, inputs)))
  }

  /** The second half of `saveEditTask`: resolve the user, and unless there is none (or
      its id is empty), PUT the record and, when that succeeds, refetch the tasks and redraw
      the board. Nothing on the board changes otherwise. */
  method SendEditedTask(store: Store, view: BoardView, taskId: string, body: Task,
                        ls: LocalStorage, server: Server, codec: Codec, putOk: bool)
    returns (saved: bool)
    requires view.Valid()
    modifies store`users, store`tasks, store`writes, view`columns, view`noResults, view`openMenus
    ensures view.Valid()
    ensures store.users == Keyed(server.users, UserWithId)
    ensures var owner := ResolveUserId(store.users, ls.items, codec);
            (!Truthy(owner) ==>
               !saved && store.tasks == old(store.tasks) && store.writes == old(store.writes)
               && view.Shown() == old(view.Shown()))
            && (Truthy(owner) ==>
                  saved == putOk
                  && store.writes == old(store.writes) + [Write(Put, TaskPath(owner, taskId), TaskBody(body))]
                  && (putOk ==> store.tasks == Keyed(Entries(server.tasks, owner.value), TaskWithId)
                                && view.Shown() == Reloaded(old(view.Shown()), store.tasks))
                  && (!putOk ==> store.tasks == old(store.tasks) && view.Shown() == old(view.Shown())))
  {
    var userId := store.GetUserId(ls, server, codec);
    if !Truthy(userId) {
      return false;
    }
    store.writes := store.writes + [Write(Put, TaskPath(userId, taskId), TaskBody(body))];
    if putOk {
      var _ := view.DisplayTaskCard(store, ls, server, codec);
    }
    saved := putOk;
  }

  /** `saveEditTask`. An unknown task returns before anything happens. Otherwise the
      dialog is collected (which rebuilds the selection), the user is resolved, and with no
      user the error is caught and nothing is sent. Else the task is PUT; only when that
      succeeds are the tasks refetched and the board redrawn. `saved` tells whether it
      did. */
  method SaveEditTask(store: Store, view: BoardView, taskId: string, v: EditValues, boxes: seq<Checkbox>,
                      inputs: seq<Option<string>>, ls: LocalStorage, server: Server, codec: Codec, putOk: bool)
    returns (saved: bool)
    requires view.Valid()
    modifies store`selectedAssigned, store`users, store`tasks, store`writes
    modifies view`columns, view`noResults, view`openMenus
    ensures view.Valid()
    ensures FindTask(old(store.tasks), taskId).None? ==>
              !saved && store.selectedAssigned == old(store.selectedAssigned) && store.users == old(store.users)
              && store.tasks == old(store.tasks) && store.writes == old(store.writes)
              && view.Shown() == old(view.Shown())
    ensures var found := FindTask(old(store.tasks), taskId);
            found.Some? ==>
              var current := old(store.tasks)[found.value];
              var picked := CheckedById(store.contacts, boxes);
              var body := EditedTaskBody(EditFormDataOf(current, v, store.subtasks, picked), current, inputs);
              var owner := ResolveUserId(store.users, ls.items, codec);
              store.selectedAssigned == Present(picked)
              && store.users == Keyed(server.users, UserWithId)
              && (!Truthy(owner) ==>
                    !saved && store.tasks == old(store.tasks) && store.writes == old(store.writes)
                    && view.Shown() == old(view.Shown()))
              && (Truthy(owner) ==>
                    saved == putOk
                    && store.writes == old(store.writes) + [Write(Put, TaskPath(owner, taskId), TaskBody(body))]
                    && (putOk ==> store.tasks == Keyed(Entries(server.tasks, owner.value), TaskWithId)
                                  && view.Shown() == Reloaded(old(view.Shown()), store.tasks))
                    && (!putOk ==> store.tasks == old(store.tasks) && view.Shown() == old(view.Shown())))
  {
    var found := FindTask(store.tasks, taskId);
    if found.None? {
      return false;
    }
    var current := store.tasks[found.value];
    var fd, _ := GetEditFormData(store, current, v, boxes);
    assert store.tasks == old(store.tasks) && store.writes == old(store.writes);
    assert view.Shown() == old(view.Shown());
    saved := SendEditedTask(store, view, taskId, EditedTaskBody(fd, current, inputs), ls, server, codec, putOk);
  }
}
