/** The add-task form: its two dropdowns, the assignee checkboxes and the selection they
    build, the priority radios, and the required-field checks on title and due date. */
module AddTask {
  import opened Common
  import opened Entities
  import opened Storage

  /** A priority radio: its element id, its value, the image of its label, and whether it
      is checked. The radios of one form form a single group. */
  datatype Radio = Radio(id: string, value: string, imgSrc: string, checked: bool)

  /** `getSelectedPriority` (the same logic serves the add form, the edit dialog and the
      board's overlay form): the first checked radio's value and image, or `null`. */
  function SelectedPriority(radios: seq<Radio>): (r: Option<Prio>)
    ensures r.None? <==> forall i :: 0 <= i < |radios| ==> !radios[i].checked
    ensures r.Some? ==> exists k :: 0 <= k < |radios| && radios[k].checked
                          && (forall j :: 0 <= j < k ==> !radios[j].checked)
                          && r.value == Prio(radios[k].value, radios[k].imgSrc)
  {
    match FindFirst(radios, (x: Radio) => x.checked)
    case None => None
    case Some(k) => Some(Prio(radios[k].value, radios[k].imgSrc))
  }

  /** Setting `checked` on the first radio with the id: it becomes the group's only checked
      radio. With no such radio the group is left as it is. */
  function CheckRadio(radios: seq<Radio>, id: string): (r: seq<Radio>)
    ensures |r| == |radios|
    ensures forall i :: 0 <= i < |radios| ==> r[i] == radios[i].(checked := r[i].checked)
    ensures (forall i :: 0 <= i < |radios| ==> radios[i].id != id) ==> r == radios
    ensures forall k :: 0 <= k < |radios| && radios[k].id == id && (forall j :: 0 <= j < k ==> radios[j].id != id) ==>
              forall i :: 0 <= i < |radios| ==> (r[i].checked <==> i == k)
  {
    match FindFirst(radios, (x: Radio) => x.id == id)
    case None => radios
    case Some(k) => seq(|radios|, i requires 0 <= i < |radios| => radios[i].(checked := i == k))
  }

  /** Once the first radio with the id is checked, that radio's priority is the one read. */
  lemma CheckedRadioIsSelected(radios: seq<Radio>, id: string, k: nat)
    requires k < |radios| && radios[k].id == id
    requires forall j :: 0 <= j < k ==> radios[j].id != id
    ensures SelectedPriority(CheckRadio(radios, id)) == Some(Prio(radios[k].value, radios[k].imgSrc))
  {
    var r := CheckRadio(radios, id);
    assert FindFirst(radios, (x: Radio) => x.id == id) == Some(k);
    assert r[k].checked;
    assert forall j :: 0 <= j < |r| && j != k ==> !r[j].checked;
  }

  /** `selectedAssigned.some(contact => contact.name === name)`: `Some` of the answer, or
      `None` when a `null` entry is reached before a match (reading its name throws). */
  function NamedIn(selected: seq<Option<Contact>>, name: string): (r: Option<bool>)
    ensures (forall i :: 0 <= i < |selected| ==> selected[i].Some?) ==>
              r == Some(exists i :: 0 <= i < |selected| && selected[i].value.name == name)
    ensures r == Some(false) ==> forall i :: 0 <= i < |selected| ==> selected[i].Some? && selected[i].value.name != name
  {
    if selected == [] then Some(false)
    else match selected[0]
      case None => None
      case Some(c) =>
        if c.name == name then Some(true)
        else
          var rest := NamedIn(selected[1..], name);
          assert forall i :: 1 <= i < |selected| ==> selected[i] == selected[1..][i - 1];
          rest
  }

  /** `displayAssignedTo`: one unticked box per contact, in contact order, carrying the
      contact's name. */
  function BoxesFor(contacts: seq<Contact>): (r: seq<Checkbox>)
    ensures |r| == |contacts|
    ensures forall i :: 0 <= i < |contacts| ==> r[i] == Checkbox(contacts[i].name, false)
  {
    seq(|contacts|, i requires 0 <= i < |contacts| => Checkbox(contacts[i].name, false))
  }

  /** `setCheckedAssigned`: each box, in order, is ticked exactly when some selected
      contact has its name; at a box where the lookup throws, that box and those after it
      keep their state. */
  function MarkBoxes(boxes: seq<Checkbox>, selected: seq<Option<Contact>>): (r: seq<Checkbox>)
    ensures |r| == |boxes|
    ensures forall i :: 0 <= i < |boxes| ==> r[i].value == boxes[i].value
  {
    if boxes == [] then []
    else match NamedIn(selected, boxes[0].value)
      case None => boxes
      case Some(b) => [boxes[0].(checked := b)] + MarkBoxes(boxes[1..], selected)
  }

  /** With a selection free of `null`, every box ends up ticked exactly when a selected
      contact carries its name. */
  lemma {:induction false} MarkBoxesMatchSelection(boxes: seq<Checkbox>, selected: seq<Option<Contact>>)
    requires forall i :: 0 <= i < |selected| ==> selected[i].Some?
    ensures forall i :: 0 <= i < |boxes| ==>
              (MarkBoxes(boxes, selected)[i].checked
               <==> exists j :: 0 <= j < |selected| && selected[j].value.name == boxes[i].value)
  {
    if boxes != [] {
      MarkBoxesMatchSelection(boxes[1..], selected);
      var r := MarkBoxes(boxes, selected);
      assert r[1..] == MarkBoxes(boxes[1..], selected);
      forall i | 1 <= i < |boxes|
        ensures r[i].checked <==> exists j :: 0 <= j < |selected| && selected[j].value.name == boxes[i].value
      {
        assert r[i] == MarkBoxes(boxes[1..], selected)[i - 1] && boxes[i] == boxes[1..][i - 1];
      }
    }
  }

  /** The contacts behind the ticked boxes of the add form, in box order: each box adds
      the first contact with its name, and a name no contact has adds nothing. */
  function CheckedByName(contacts: seq<Contact>, boxes: seq<Checkbox>): (r: seq<Contact>)
    ensures |r| <= |boxes|
    ensures forall c :: c in r ==> c in contacts
    ensures forall c :: c in r ==> exists i :: 0 <= i < |boxes| && boxes[i].checked && boxes[i].value == c.name
  {
    if boxes == [] then []
    else
      var last := boxes[|boxes| - 1];
      var rest := CheckedByName(contacts, boxes[..|boxes| - 1]);
      assert forall i :: 0 <= i < |boxes| - 1 ==> boxes[..|boxes| - 1][i] == boxes[i];
      rest + (match FindContactByName(contacts, last.value)
              case Some(c) => if last.checked then [c] else []
              case None => [])
  }

  /** A ticked box whose name some contact has always contributes the first such contact. */
  lemma {:induction false} CheckedNamePicked(contacts: seq<Contact>, boxes: seq<Checkbox>, i: nat)
    requires i < |boxes| && boxes[i].checked && FindContactByName(contacts, boxes[i].value).Some?
    ensures FindContactByName(contacts, boxes[i].value).value in CheckedByName(contacts, boxes)
  {
    var init := boxes[..|boxes| - 1];
    if i < |boxes| - 1 {
      assert init[i] == boxes[i];
      CheckedNamePicked(contacts, init, i);
    }
  }

  /** The add-task form as the scripts see it. */
  class AddTaskForm {
    var title: string
    var date: string
    var description: string
    var category: string
    var subtaskInput: string
    /** The assignee input: "An: …" or nothing. */
    var assignedInput: string
    var radios: seq<Radio>
    /** The assignee dropdown's boxes; `value` is the contact name. */
    var boxes: seq<Checkbox>
    /** Whether each dropdown is shown (`display: flex`). */
    var assignedOpen: bool
    var categoryOpen: bool
    /** Whether each required-field error is shown. */
    var titleError: bool
    var dateError: bool
    /** The staged subtask items drawn under the subtask input, as their input values. */
    var subtaskItems: seq<string>

    constructor(radios: seq<Radio>)
      ensures this.radios == radios && boxes == [] && subtaskItems == []
      ensures title == "" && date == "" && description == "" && category == ""
      ensures subtaskInput == "" && assignedInput == ""
      ensures !assignedOpen && !categoryOpen && !titleError && !dateError
    {
      this.radios := radios;
      title, date, description, category := "", "", "", "";
      subtaskInput, assignedInput := "", "";
      boxes, subtaskItems := [], [];
      assignedOpen, categoryOpen, titleError, dateError := false, false, false, false;
    }

    /** `titlequery`: false exactly for an empty title, and the error shows then. */
    method TitleQuery() returns (ok: bool)
      modifies this`titleError
      ensures ok <==> title != ""
      ensures titleError == !ok
    {
      ok := title != "";
      titleError := !ok;
    }

    /** `datequery`: the same check on the due date. */
    method DateQuery() returns (ok: bool)
      modifies this`dateError
      ensures ok <==> date != ""
      ensures dateError == !ok
    {
      ok := date != "";
      dateError := !ok;
    }

    method ToggleCategoryDropdown()
      modifies this`categoryOpen
      ensures categoryOpen == !old(categoryOpen)
    {
      categoryOpen := !categoryOpen;
    }

    /** The loop of `setCheckedAssigned`, stopping where a lookup throws. */
    method SetCheckedAssigned(selected: seq<Option<Contact>>)
      modifies this`boxes
      ensures boxes == MarkBoxes(old(boxes), selected)
    {
      var original := boxes;
      var rest := original;
      var marked: seq<Checkbox> := [];
      var stopped := false;
      while rest != [] && !stopped
        invariant !stopped ==> MarkBoxes(original, selected) == marked + MarkBoxes(rest, selected)
        invariant stopped ==> marked == MarkBoxes(original, selected)
        decreases |rest|, if stopped then 0 else 1
      {
        var named := NamedIn(selected, rest[0].value);
        if named.None? {
          assert MarkBoxes(rest, selected) == rest;
          marked := marked + rest;
          stopped := true;
        } else {
          var b := named.value;
          assert MarkBoxes(rest, selected) == [rest[0].(checked := b)] + MarkBoxes(rest[1..], selected);
          assert marked + MarkBoxes(rest, selected) == (marked + [rest[0].(checked := b)]) + MarkBoxes(rest[1..], selected);
          marked := marked + [rest[0].(checked := b)];
          rest := rest[1..];
        }
      }
      if !stopped {
        assert marked + MarkBoxes([], selected) == marked;
      }
      boxes := marked;
    }

    /** `toggleAssignedDropdown`: opens or closes the dropdown, redraws one unticked box per
        contact, then ticks the boxes of the selected contacts. */
    method ToggleAssignedDropdown(store: Store)
      modifies this`assignedOpen, this`boxes
      ensures assignedOpen == !old(assignedOpen)
      ensures boxes == MarkBoxes(BoxesFor(store.contacts), store.selectedAssigned)
    {
      assignedOpen := !assignedOpen;
      boxes := BoxesFor(store.contacts);
      SetCheckedAssigned(store.selectedAssigned);
    }

    /** `selectAssigned`: rebuilds the selection from empty, box by box, and shows it in the
        assignee input. */
    method SelectAssigned(store: Store)
      modifies store`selectedAssigned, this`assignedInput
      ensures store.selectedAssigned == Present(CheckedByName(store.contacts, boxes))
      ensures assignedInput == AssignedLabel(CheckedByName(store.contacts, boxes))
    {
      var picked: seq<Contact> := [];
      store.selectedAssigned := [];
      for i := 0 to |boxes|
        invariant picked == CheckedByName(store.contacts, boxes[..i])
        invariant store.selectedAssigned == Present(picked)
      {
        assert boxes[..i + 1][..i] == boxes[..i];
        if boxes[i].checked {
          var contact := FindContactByName(store.contacts, boxes[i].value);
          if contact.Some? {
            picked := picked + [contact.value];
            store.selectedAssigned := store.selectedAssigned + [Some(contact.value)];
          }
        }
      }
      assert boxes[..|boxes|] == boxes;
      assignedInput := AssignedLabel(picked);
    }

    /** The values `getFormData` reads from this form. */
    function Values(): (v: FormValues)
      reads this
      ensures v.title == title && v.date == date && v.description == description
      ensures v.category == category && v.prio == SelectedPriority(radios)
    {
      FormValues(title, date, description, SelectedPriority(radios), category)
    }
  }
}
