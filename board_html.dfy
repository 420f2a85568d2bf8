/** The decisions inside the board's markup builders: which category colour a card gets,
    which assignees are drawn, the subtask progress figures, which boxes and radios of the
    edit dialog start checked, and the move-to menu's targets. The markup itself is left
    out; each builder is modelled by the values it decides. */
module BoardHtml {
  import opened Common
  import opened Entities
  import opened Storage
  import opened AddTask
  import opened BoardSupply
  import opened BoardAssistance

  const TECHNICAL_TASK := "Technical Task"
  const TECHNICAL_COLOR := "#1FD7C1"
  const STORY_COLOR := "#0038FF"

  /** `taskCardCategoryHTML` / `overviewTaskCardCategoryHTML`: no badge for an empty
      category; otherwise teal for "Technical Task" and blue for anything else. */
  function CategoryColor(category: string): (r: Option<string>)
    ensures r.None? <==> category == ""
    ensures r.Some? ==> (r.value == TECHNICAL_COLOR <==> category == TECHNICAL_TASK)
    ensures r.Some? ==> r.value in {TECHNICAL_COLOR, STORY_COLOR}
  {
    if category == "" then None
    else if category == TECHNICAL_TASK then Some(TECHNICAL_COLOR)
    else Some(STORY_COLOR)
  }

  /** The assignees `assingedProfileIconHtml` and `overviewTaskCardAssignedHtml` draw, in
      order: every entry that is not `null`. */
  function Drawn(assignees: seq<Option<Contact>>): (r: seq<Contact>)
    ensures |r| <= |assignees|
    ensures forall c :: c in r <==> Some(c) in assignees
  {
    if assignees == [] then []
    else
      var rest := Drawn(assignees[1..]);
      assert forall x :: x in assignees <==> x == assignees[0] || x in assignees[1..];
      (if assignees[0].Some? then [assignees[0].value] else []) + rest
  }

  /** An assignment without `null` entries is drawn entry for entry. */
  lemma {:induction false} DrawnPresent(cs: seq<Contact>)
    ensures Drawn(Present(cs)) == cs
  {
    if cs != [] {
      DrawnPresent(cs[1..]);
      assert Present(cs)[1..] == Present(cs[1..]);
    }
  }

  /** Drawing skips exactly the `null` entries: as many are drawn as there are contacts. */
  lemma {:induction false} DrawnCount(assignees: seq<Option<Contact>>)
    ensures |Drawn(assignees)| == Count(assignees, (a: Option<Contact>) => a.Some?)
  {
    if assignees != [] {
      DrawnCount(assignees[1..]);
    }
  }

  /** `displayAssignedProfileIcons` in the edit dialog has no `null` guard: `None` when an
      entry is `null` (reading its colour throws), else every entry. */
  function EditIcons(assignees: seq<Option<Contact>>): (r: Option<seq<Contact>>)
    ensures r.None? <==> exists i :: 0 <= i < |assignees| && assignees[i].None?
    ensures r.Some? ==> |r.value| == |assignees| && Present(r.value) == assignees
  {
    if exists i :: 0 <= i < |assignees| && assignees[i].None? then None
    else
      var cs := seq(|assignees|, i requires 0 <= i < |assignees| => assignees[i].value);
      assert Present(cs) == assignees;
      Some(cs)
  }

  /** Where the edit dialog draws anything, it draws what the card draws. */
  lemma EditIconsAgreeWithCard(assignees: seq<Option<Contact>>)
    requires EditIcons(assignees).Some?
    ensures EditIcons(assignees).value == Drawn(assignees)
  {
    DrawnPresent(EditIcons(assignees).value);
  }

  /** `subtaskProgressbarHTML`: nothing without subtasks; otherwise the completed count
      and the total, as "k/n". */
  function Progress(t: Task): (r: Option<(nat, nat)>)
    ensures r.None? <==> t.subtasks.None? || t.subtasks.value == []
    ensures r.Some? ==> r.value.1 == |t.subtasks.value| && r.value.0 <= r.value.1
    ensures r.Some? ==> (r.value.0 == r.value.1 <==> forall i :: 0 <= i < |t.subtasks.value| ==> t.subtasks.value[i].completed)
  {
    match t.subtasks
    case None => None
    case Some(subs) =>
      if subs == [] then None
      else Some((CompletedCount(subs), |subs|))
  }

  /** One row of `overviewTaskCardSubtaskHtml`: the index the click handler passes, the
      box state and the label. */
  datatype SubtaskRow = SubtaskRow(index: nat, checked: bool, name: string)

  /** The overview's subtask rows, one per subtask in order, ticked iff completed. */
  function OverviewRows(t: Task): (r: seq<SubtaskRow>)
    ensures t.subtasks.None? ==> r == []
    ensures t.subtasks.Some? ==> |r| == |t.subtasks.value|
    ensures t.subtasks.Some? ==> forall i :: 0 <= i < |r| ==>
              r[i].index == i && r[i].checked == t.subtasks.value[i].completed && r[i].name == t.subtasks.value[i].name
  {
    match t.subtasks
    case None => []
    case Some(subs) => seq(|subs|, i requires 0 <= i < |subs| => SubtaskRow(i, subs[i].completed, subs[i].name))
  }

  /** The overview ticks as many rows as the card's progress bar counts done. */
  lemma OverviewAgreesWithProgress(t: Task)
    requires Progress(t).Some?
    ensures Count(OverviewRows(t), (row: SubtaskRow) => row.checked) == Progress(t).value.0
  {
    var rows := OverviewRows(t);
    CountSame(rows, (row: SubtaskRow) => row.checked, t.subtasks.value, (s: Subtask) => s.completed);
  }

  /** `displaySubtasksHTML`: the edit dialog's subtask inputs start with the names. */
  function EditSubtaskInputs(t: Task): (r: seq<string>)
    ensures t.subtasks.None? ==> r == []
    ensures t.subtasks.Some? ==> r == Names(t.subtasks.value)
  {
    match t.subtasks
    case None => []
    case Some(subs) => Names(subs)
  }

  /** Saving the edit dialog with its subtask inputs untouched sends the subtasks back as
      they were. */
  lemma UntouchedInputsKeepSubtasks(subs: seq<Subtask>)
    ensures MergeNames(subs, seq(|subs|, i requires 0 <= i < |subs| => Some(Names(subs)[i]))) == subs
  {
    var inputs := seq(|subs|, i requires 0 <= i < |subs| => Some(Names(subs)[i]));
    var r := MergeNames(subs, inputs);
    forall i | 0 <= i < |subs| ensures r[i] == subs[i] {
      assert |inputs| == |subs| && inputs[i] == Some(Names(subs)[i]);
      assert r[i].name == subs[i].name && r[i].completed == subs[i].completed;
    }
  }

  /** The ids `task.assigned.map(contact => contact.id)` collects; `None` when an entry is
      `null`. */
  function AssignedIds(assignees: seq<Option<Contact>>): (r: Option<seq<string>>)
    ensures r.None? <==> exists i :: 0 <= i < |assignees| && assignees[i].None?
    ensures r.Some? ==> |r.value| == |assignees|
                        && forall i :: 0 <= i < |assignees| ==> r.value[i] == assignees[i].value.id
  {
    match EditIcons(assignees)
    case None => None
    case Some(cs) =>
      assert forall i :: 0 <= i < |assignees| ==> assignees[i] == Present(cs)[i];
      Some(seq(|cs|, i requires 0 <= i < |cs| => cs[i].id))
  }

  /** `displayAssignedDropdown`: one box per contact, in contact order, carrying the
      contact id and ticked iff the id is among the ids of the task's assignees. */
  function AssignDropdown(assignees: seq<Option<Contact>>, contacts: seq<Contact>): (r: Option<seq<Checkbox>>)
    ensures r.None? <==> AssignedIds(assignees).None?
    ensures r.Some? ==> |r.value| == |contacts|
    ensures r.Some? ==> forall i :: 0 <= i < |contacts| ==>
              r.value[i].value == contacts[i].id
              && (r.value[i].checked <==> exists j :: 0 <= j < |assignees| && assignees[j].value.id == contacts[i].id)
  {
    match AssignedIds(assignees)
    case None => None
    case Some(ids) =>
      Some(seq(|contacts|, i requires 0 <= i < |contacts| => Checkbox(contacts[i].id, contacts[i].id in ids)))
  }

  /** Reading the dropdown back without changes selects every assigned contact that is
      still in the contact list (as the first contact with its id). */
  lemma DropdownRoundTrip(assignees: seq<Option<Contact>>, contacts: seq<Contact>, j: nat)
    requires AssignDropdown(assignees, contacts).Some?
    requires j < |assignees| && FindContactById(contacts, assignees[j].value.id).Some?
    ensures FindContactById(contacts, assignees[j].value.id).value in CheckedById(contacts, AssignDropdown(assignees, contacts).value)
  {
    var boxes := AssignDropdown(assignees, contacts).value;
    var id := assignees[j].value.id;
    var c := FindContactById(contacts, id).value;
    var i :| 0 <= i < |contacts| && contacts[i] == c;
    assert boxes[i].checked && boxes[i].value == id;
  }

  /** The assignee text `taskCardEditHTML` shows: "An: " and the names; `None` when an
      entry is `null`. Unlike the add form it shows "An: " for nobody. */
  function EditAssignedText(assignees: seq<Option<Contact>>): (r: Option<string>)
    ensures r.None? <==> exists i :: 0 <= i < |assignees| && assignees[i].None?
    ensures r.Some? ==> StartsWith(r.value, "An: ")
  {
    match EditIcons(assignees)
    case None => None
    case Some(cs) => Some("An: " + Join(ContactNames(cs), ", "))
  }

  /** For a non-empty assignment the dialog's text is the add form's label; for nobody it
      is "An: " where the label is empty. */
  lemma EditTextMatchesLabel(cs: seq<Contact>)
    ensures cs != [] ==> EditAssignedText(Present(cs)) == Some(AssignedLabel(cs))
    ensures cs == [] ==> EditAssignedText(Present(cs)) == Some("An: ") && AssignedLabel(cs) == ""
  {
    var e := EditIcons(Present(cs));
    assert e.Some? by {
      forall i | 0 <= i < |Present(cs)| ensures Present(cs)[i].Some? { }
    }
    assert Present(e.value) == Present(cs);
    PresentInjective(e.value, cs);
    if cs == [] {
      assert ContactNames(e.value) == [];
      assert "An: " + Join([], ", ") == "An: ";
    }
  }

  lemma PresentInjective(a: seq<Contact>, b: seq<Contact>)
    requires Present(a) == Present(b)
    ensures a == b
  {
    assert |a| == |Present(a)|;
    forall i | 0 <= i < |a| ensures a[i] == b[i] {
      assert Present(a)[i] == Some(a[i]) && Present(b)[i] == Some(b[i]);
    }
  }

  const URGENT_ICON := "./img/Mobile/AddTask/urgentIconAddTask.png"
  const MEDIUM_ICON := "./img/Mobile/AddTask/mediumIconAddTask.png"
  const LOW_ICON := "./img/Mobile/AddTask/lowIconAddTask.png"

  /** The edit dialog's three priority radios, Urgent, Medium and Low, each checked iff the
      task's priority value is its value; `None` when the task has no priority. */
  function EditRadios(t: Task): (r: Option<seq<Radio>>)
    ensures r.None? <==> t.prio.None?
    ensures r.Some? ==> |r.value| == 3
    ensures r.Some? ==> forall i :: 0 <= i < 3 ==> (r.value[i].checked <==> r.value[i].value == t.prio.value.value)
  {
    match t.prio
    case None => None
    case Some(p) =>
      Some([Radio("urgent" + t.id, URGENT, URGENT_ICON, p.value == URGENT),
            Radio("medium" + t.id, MEDIUM, MEDIUM_ICON, p.value == MEDIUM),
            Radio("low" + t.id, LOW, LOW_ICON, p.value == LOW)])
  }

  /** Opening the edit dialog and reading the priority back gives the task's priority
      value when it is one of the three, and no priority otherwise. */
  lemma EditRadiosRoundTrip(t: Task)
    requires t.prio.Some?
    ensures t.prio.value.value in {URGENT, MEDIUM, LOW} ==>
              SelectedPriority(EditRadios(t).value).Some?
              && SelectedPriority(EditRadios(t).value).value.value == t.prio.value.value
    ensures t.prio.value.value !in {URGENT, MEDIUM, LOW} ==> SelectedPriority(EditRadios(t).value).None?
  {
    var rs := EditRadios(t).value;
    if t.prio.value.value in {URGENT, MEDIUM, LOW} {
      var k := if t.prio.value.value == URGENT then 0 else if t.prio.value.value == MEDIUM then 1 else 2;
      assert rs[k].checked;
    }
  }

  /** A target of the move-to menu: the status passed to `moveToClick` and its caption. */
  datatype MoveTarget = MoveTarget(status: string, caption: string)

  /** `menuMoveToHtml`: exactly the four board statuses, in board order. */
  function MoveTargets(): (r: seq<MoveTarget>)
    ensures |r| == |STATUSES|
    ensures forall k :: 0 <= k < |r| ==> r[k].status == STATUSES[k]
  {
    [MoveTarget(OPEN, "To do"), MoveTarget(IN_PROGRESS, "In progress"),
     MoveTarget(AWAIT_FEEDBACK, "Await feedback"), MoveTarget(DONE, "Done")]
  }
}
