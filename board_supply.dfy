/** Board helpers around a single task: the search box, removing and adding subtasks in the
    edit dialog, the assignee selection of that dialog, and collecting the dialog's values
    into the record that is saved. */
module BoardSupply {
  import opened Common
  import opened Entities
  import opened Storage
  import opened Board

  // ---------------------------------------------------------------- search

  /** A task matches when its lower-cased title or description contains the lower-cased
      query. */
  predicate Matches(t: Task, query: string)
  {
    Includes(Lower(t.title), Lower(query)) || Includes(Lower(t.description), Lower(query))
  }

  /** The tasks a search shows, in task-array order. */
  function SearchHits(tasks: seq<Task>, query: string): (r: seq<Task>)
    ensures |r| <= |tasks|
    ensures forall t :: t in r <==> t in tasks && Matches(t, query)
  {
    if tasks == [] then []
    else (if Matches(tasks[0], query) then [tasks[0]] else []) + SearchHits(tasks[1..], query)
  }

  /** An empty search shows every task. */
  lemma {:induction false} EmptySearchShowsAll(tasks: seq<Task>)
    ensures SearchHits(tasks, "") == tasks
  {
    if tasks != [] {
      EmptyIsIncluded(Lower(tasks[0].title));
      assert Lower("") == "";
      EmptySearchShowsAll(tasks[1..]);
    }
  }

  /** `searchForTasks`: the containers are emptied, each matching task is drawn in the
      column of its status until a card throws, and only when none does the empty-column
      rules apply; `drawn` says whether every hit was drawn. */
  method SearchForTasks(view: BoardView, store: Store, query: string) returns (drawn: bool)
    requires view.Valid()
    modifies view`columns, view`noResults, view`openMenus
    ensures view.Valid()
    ensures drawn <==> Drawn(SearchHits(store.tasks, query)) == SearchHits(store.tasks, query)
    ensures view.Shown() == Reloaded(old(view.Shown()), SearchHits(store.tasks, query))
  {
    var hits := SearchHits(store.tasks, query);
    drawn := view.DrawTasks(hits);
  }

  // ---------------------------------------------------------------- removing a subtask

  /** Where `splice(i, 1)` starts on an array of length `len`: a negative index counts
      from the end, and the result is clamped to `0..len`. */
  function SpliceStart(len: nat, i: int): (k: nat)
    ensures k <= len
    ensures 0 <= i <= len ==> k == i
    ensures -(len as int) <= i < 0 ==> k as int == len as int + i
  {
    if i < 0 then (if len + i < 0 then 0 else len + i)
    else if i > len then len
    else i
  }

  /** `s.splice(i, 1)`: removes the one element at the start position if there is one;
      the elements before it keep their index and those after it move down by one. */
  function SpliceOne<T>(s: seq<T>, i: int): (r: seq<T>)
    ensures SpliceStart(|s|, i) == |s| ==> r == s
    ensures SpliceStart(|s|, i) < |s| ==>
              |r| == |s| - 1
              && (forall j :: 0 <= j < SpliceStart(|s|, i) ==> r[j] == s[j])
              && (forall j :: SpliceStart(|s|, i) <= j < |r| ==> r[j] == s[j + 1])
  {
    var k := SpliceStart(|s|, i);
    if k < |s| then s[..k] + s[k + 1..] else s
  }

  /** Removing the element just inserted at index `k` gives the array back. */
  lemma SpliceOneUndoesInsert<T>(s: seq<T>, k: nat, x: T)
    requires k <= |s|
    ensures SpliceOne(s[..k] + [x] + s[k..], k) == s
  {
    var t := s[..k] + [x] + s[k..];
    var r := SpliceOne(t, k);
    assert SpliceStart(|t|, k) == k;
    forall j | 0 <= j < |s| ensures r[j] == s[j] {
      if j < k { assert t[j] == s[j]; } else { assert t[j + 1] == s[j]; }
    }
  }

  /** `deleteSubtask`: if the task exists, its subtask list loses the element at the
      index; a task without a list throws and nothing changes. */
  method DeleteSubtask(store: Store, taskId: string, subtaskIndex: int)
    modifies store`tasks
    ensures var found := FindTask(old(store.tasks), taskId);
            match found
            case None => store.tasks == old(store.tasks)
            case Some(k) =>
              match old(store.tasks)[k].subtasks
              case None => store.tasks == old(store.tasks)
              case Some(subs) =>
                store.tasks == old(store.tasks)[k := old(store.tasks)[k].(subtasks := Some(SpliceOne(subs, subtaskIndex)))]
  {
    var found := FindTask(store.tasks, taskId);
    if found.Some? {
      var k := found.value;
      if store.tasks[k].subtasks.Some? {
        var subs := store.tasks[k].subtasks.value;
        store.tasks := store.tasks[k := store.tasks[k].(subtasks := Some(SpliceOne(subs, subtaskIndex)))];
      }
    }
  }

  // ---------------------------------------------------------------- adding a subtask

  /** `addEditSubtask`: a found task without a list gets an empty one first; then a
      non-blank input is trimmed and appended as an open subtask and the input is cleared.
      A blank input leaves the list (and the input) as they are. Returns the input's new
      value. */
  method AddEditSubtask(store: Store, taskId: string, input: string) returns (inputAfter: string)
    modifies store`tasks
    ensures var found := FindTask(old(store.tasks), taskId);
            found.None? ==> store.tasks == old(store.tasks) && inputAfter == input
    ensures var found := FindTask(old(store.tasks), taskId);
            found.Some? ==>
              var k := found.value;
              var before := match old(store.tasks)[k].subtasks case Some(subs) => subs case None => [];
              var name := Trim(input);
              (name == "" ==> store.tasks == old(store.tasks)[k := old(store.tasks)[k].(subtasks := Some(before))]
                              && inputAfter == input)
              && (name != "" ==> store.tasks == old(store.tasks)[k := old(store.tasks)[k].(subtasks := Some(before + [Subtask(name, false)]))]
                                 && inputAfter == "")
  {
    var found := FindTask(store.tasks, taskId);
    if found.None? {
      return input;
    }
    var k := found.value;
    if store.tasks[k].subtasks.None? {
      store.tasks := store.tasks[k := store.tasks[k].(subtasks := Some([]))];
    }
    var subs := store.tasks[k].subtasks.value;
    var name := Trim(input);
    if name == "" {
      return input;
    }
    store.tasks := store.tasks[k := store.tasks[k].(subtasks := Some(subs + [Subtask(name, false)]))];
    inputAfter := "";
  }

  // ---------------------------------------------------------------- assignees of the dialog

  /** The contacts behind the ticked boxes of the edit dialog, in box order: a box whose id
      names no contact adds nothing. */
  function CheckedById(contacts: seq<Contact>, boxes: seq<Checkbox>): (r: seq<Contact>)
    ensures |r| <= |boxes|
    ensures forall c :: c in r ==> c in contacts
    ensures forall i :: 0 <= i < |boxes| && boxes[i].checked && FindContactById(contacts, boxes[i].value).Some? ==>
              FindContactById(contacts, boxes[i].value).value in r
    ensures forall c :: c in r ==> exists i :: 0 <= i < |boxes| && boxes[i].checked && boxes[i].value == c.id
  {
    if boxes == [] then []
    else
      var last := boxes[|boxes| - 1];
      var rest := CheckedById(contacts, boxes[..|boxes| - 1]);
      assert forall i :: 0 <= i < |boxes| - 1 ==> boxes[..|boxes| - 1][i] == boxes[i];
      rest + (if last.checked && FindContactById(contacts, last.value).Some?
              then [FindContactById(contacts, last.value).value] else [])
  }

  /** With no box ticked nobody is assigned. */
  lemma {:induction false} NoneChecked(contacts: seq<Contact>, boxes: seq<Checkbox>)
    requires forall i :: 0 <= i < |boxes| ==> !boxes[i].checked
    ensures CheckedById(contacts, boxes) == []
  {
    if boxes != [] {
      NoneChecked(contacts, boxes[..|boxes| - 1]);
    }
  }

  /** One more box adds its contact, if it is ticked and names one. */
  lemma CheckedStep(contacts: seq<Contact>, boxes: seq<Checkbox>, i: nat)
    requires i < |boxes|
    ensures boxes[i].checked && FindContactById(contacts, boxes[i].value).Some? ==>
              CheckedById(contacts, boxes[..i + 1])
              == CheckedById(contacts, boxes[..i]) + [FindContactById(contacts, boxes[i].value).value]
    ensures !(boxes[i].checked && FindContactById(contacts, boxes[i].value).Some?) ==>
              CheckedById(contacts, boxes[..i + 1]) == CheckedById(contacts, boxes[..i])
  {
    assert boxes[..i + 1][..i] == boxes[..i];
  }

  lemma PresentSnoc(cs: seq<Contact>, c: Contact)
    ensures Present(cs + [c]) == Present(cs) + [Some(c)]
  {
  }

  /** `updateSelectedAssignedAndInputField`: the selection is rebuilt from empty, box by
      box; the returned assignedText is what the assignee input then shows. */
  method UpdateSelectedAssignedAndInputField(store: Store, boxes: seq<Checkbox>) returns (assignedText: string)
    modifies store`selectedAssigned
    ensures store.selectedAssigned == Present(CheckedById(store.contacts, boxes))
    ensures assignedText == AssignedLabel(CheckedById(store.contacts, boxes))
  {
    var contacts := store.contacts;
    var picked: seq<Contact> := [];
    store.selectedAssigned := [];
    for i := 0 to |boxes|
      invariant picked == CheckedById(contacts, boxes[..i])
      invariant store.selectedAssigned == Present(picked)
    {
      CheckedStep(contacts, boxes, i);
      if boxes[i].checked {
        var contact := FindContactById(contacts, boxes[i].value);
        if contact.Some? {
          PresentSnoc(picked, contact.value);
          picked := picked + [contact.value];
          store.selectedAssigned := store.selectedAssigned + [Some(contact.value)];
        }
      }
    }
    assert boxes[..|boxes|] == boxes;
    assignedText := AssignedLabel(picked);
  }

  /** `fillSelectedAssigned`: the selection becomes the task's assignees, but only when
      the task exists and the selection's first entry is a contact (an empty selection
      reads `undefined` there and is left as it is). */
  method FillSelectedAssigned(store: Store, taskId: string)
    modifies store`selectedAssigned
    ensures var found := FindTask(store.tasks, taskId);
            if found.Some? && |old(store.selectedAssigned)| > 0 && old(store.selectedAssigned)[0].Some?
            then store.selectedAssigned == store.tasks[found.value].assignedTo
            else store.selectedAssigned == old(store.selectedAssigned)
  {
    var found := FindTask(store.tasks, taskId);
    if found.Some? && |store.selectedAssigned| > 0 && store.selectedAssigned[0].Some? {
      store.selectedAssigned := store.tasks[found.value].assignedTo;
    }
  }

  // ---------------------------------------------------------------- the dialog's values

  /** The values the edit dialog holds when saved: its text inputs and the priority its
      checked radio gives. */
  datatype EditValues = EditValues(title: string, description: string, date: string, priority: Option<Prio>)

  datatype EditFormData = EditFormData(title: string, description: string, date: string,
                                       priority: Option<Prio>, category: string,
                                       subtasks: Option<seq<Subtask>>,
                                       assignedTo: seq<Option<Contact>>, status: string)

  /** The subtasks an edit collects: the task's own subtasks with their names and flags,
      followed by the staged texts as open subtasks. */
  function EditSubtasks(current: seq<Subtask>, staged: seq<string>): (r: seq<Subtask>)
    ensures |r| == |current| + |staged|
    ensures r[..|current|] == current
    ensures Names(r[|current|..]) == staged && CompletedCount(r[|current|..]) == 0
  {
    var r := current + AsIncomplete(staged);
    assert r[|current|..] == AsIncomplete(staged);
    AsIncompleteNames(staged);
    r
  }

  /** `getEditFormData` once the assignees are collected: category and status come from
      the task itself, and a task without subtasks yields a record without them. */
  function EditFormDataOf(current: Task, v: EditValues, staged: seq<string>, picked: seq<Contact>): (fd: EditFormData)
    ensures fd.title == v.title && fd.description == v.description && fd.date == v.date
    ensures fd.priority == v.priority
    ensures fd.category == current.category && fd.status == current.status
    ensures current.subtasks.None? <==> fd.subtasks.None?
    ensures current.subtasks.Some? ==> fd.subtasks == Some(EditSubtasks(current.subtasks.value, staged))
    ensures fd.assignedTo == Present(picked)
  {
    EditFormData(v.title, v.description, v.date, v.priority, current.category,
                 match current.subtasks
                 case None => None
                 case Some(subs) => Some(EditSubtasks(subs, staged)),
                 Present(picked), current.status)
  }

  /** `getEditFormData`: collects the dialog, rebuilding the selection from the ticked
      boxes on the way. */
  method GetEditFormData(store: Store, current: Task, v: EditValues, boxes: seq<Checkbox>)
    returns (fd: EditFormData, assignedText: string)
    modifies store`selectedAssigned
    ensures store.selectedAssigned == Present(CheckedById(store.contacts, boxes))
    ensures assignedText == AssignedLabel(CheckedById(store.contacts, boxes))
    ensures fd == EditFormDataOf(current, v, store.subtasks, CheckedById(store.contacts, boxes))
  {
    assignedText := UpdateSelectedAssignedAndInputField(store, boxes);
    fd := EditFormDataOf(current, v, store.subtasks, CheckedById(store.contacts, boxes));
  }
}
