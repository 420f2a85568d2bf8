/** The subtasks staged in the add-task form before the task is saved, the items drawn for
    them, and the reset of the whole form. The staged list is the store's `subtasks`. */
module AddTaskSubTask {
  import opened Common
  import opened Entities
  import opened Storage
  import opened AddTask

  /** The staged list without any entry equal to the value (the `!==` filter). */
  function Without(s: seq<string>, v: string): (r: seq<string>)
    ensures v !in r
    ensures forall x :: x in r <==> x in s && x != v
  {
    Filter(s, (x: string) => x != v)
  }

  /** Dropping a value keeps every other value as often as it occurred and removes the
      value entirely. */
  lemma {:induction false} WithoutCounts(s: seq<string>, v: string)
    ensures multiset(Without(s, v))[v] == 0
    ensures forall x :: x != v ==> multiset(Without(s, v))[x] == multiset(s)[x]
  {
    if s != [] {
      WithoutCounts(s[1..], v);
      assert s == [s[0]] + s[1..];
      FilterAppend([s[0]], s[1..], (x: string) => x != v);
    }
  }

  /** What `editSubtaskItem` leaves: the edited value first and the other entries after it
      in their old order. */
  function MovedFirst(s: seq<string>, v: string): (r: seq<string>)
    ensures |r| >= 1 && r[0] == v && r[1..] == Without(s, v)
  {
    [v] + Without(s, v)
  }

  /** The edited value is present exactly once afterwards, and no other value gains or
      loses an occurrence. */
  lemma EditedOnce(s: seq<string>, v: string)
    ensures multiset(MovedFirst(s, v))[v] == 1
    ensures forall x :: x != v ==> multiset(MovedFirst(s, v))[x] == multiset(s)[x]
  {
    WithoutCounts(s, v);
    assert MovedFirst(s, v) == [v] + Without(s, v);
  }

  /** The write `saveSubtaskItem` makes as written: the lookup compares the `id` of a plain
      string with the item's missing `data-id`, both `undefined`, so it hits the first entry
      of any non-empty list. */
  function OverwriteFirst(s: seq<string>, w: string): (r: seq<string>)
    ensures |r| == |s|
    ensures s != [] ==> r[0] == w && r[1..] == s[1..]
    ensures s == [] ==> r == []
  {
    if s == [] then [] else [w] + s[1..]
  }

  /** The evidently intended save: the entries of the item being edited take the new text,
      and every other entry stays where it is. */
  function Renamed(s: seq<string>, from: string, to: string): (r: seq<string>)
    ensures |r| == |s|
    ensures forall i :: 0 <= i < |s| ==> r[i] == (if s[i] == from then to else s[i])
  {
    if s == [] then []
    else
      var rest := Renamed(s[1..], from, to);
      assert forall i :: 1 <= i < |s| ==> s[i] == s[1..][i - 1];
      [if s[0] == from then to else s[0]] + rest
  }

  /** After a single edit the item being saved is the first entry, so the write as written
      lands on the right entry and agrees with the intended save. */
  lemma EditThenSave(s: seq<string>, v: string, w: string)
    ensures OverwriteFirst(MovedFirst(s, v), w) == Renamed(MovedFirst(s, v), v, w)
    ensures OverwriteFirst(MovedFirst(s, v), w) == [w] + Without(s, v)
  {
    var m := MovedFirst(s, v);
    assert forall i :: 1 <= i < |m| ==> m[i] != v by {
      forall i | 1 <= i < |m| ensures m[i] != v { assert m[i] == Without(s, v)[i - 1]; }
    }
  }

  /** Two edits before a save: staged ["a", "b"], edit "b", then edit "a", then save the
      "b" item as "B". The write as written replaces "a" and leaves "b"; the intended save
      replaces "b". */
  lemma SaveAfterTwoEditsHitsWrongEntry()
    ensures OverwriteFirst(MovedFirst(MovedFirst(["a", "b"], "b"), "a"), "B") == ["B", "b"]
    ensures Renamed(MovedFirst(MovedFirst(["a", "b"], "b"), "a"), "b", "B") == ["a", "B"]
  {
    WithoutOfPair("a", "b");
    WithoutOfPair("b", "a");
    assert MovedFirst(["a", "b"], "b") == ["b", "a"];
    assert MovedFirst(["b", "a"], "a") == ["a", "b"];
  }

  lemma WithoutOfPair(p: string, q: string)
    requires p != q
    ensures Without([p, q], q) == [p]
  {
    assert [p, q] == [p] + [q];
    FilterAppend([p], [q], (x: string) => x != q);
  }

  /** The intended save keeps the order and touches only the entries holding the old text:
      the old text disappears, its occurrences become the new text, and every other text
      occurs as often as before. */
  lemma {:induction false} RenamedCounts(s: seq<string>, from: string, to: string, x: string)
    requires from != to
    ensures x == from ==> multiset(Renamed(s, from, to))[x] == 0
    ensures x == to ==> multiset(Renamed(s, from, to))[x] == multiset(s)[to] + multiset(s)[from]
    ensures x != from && x != to ==> multiset(Renamed(s, from, to))[x] == multiset(s)[x]
  {
    if s != [] {
      RenamedCounts(s[1..], from, to, x);
      RenamedStep(s, from, to, x);
      SplitCount(s, x);
      SplitCount(s, from);
    }
  }

  /** One step of the intended save: the first entry, then the rest renamed. */
  lemma RenamedStep(s: seq<string>, from: string, to: string, x: string)
    requires s != []
    ensures multiset(Renamed(s, from, to))[x]
            == (if (if s[0] == from then to else s[0]) == x then 1 else 0) + multiset(Renamed(s[1..], from, to))[x]
  {
    var head := if s[0] == from then to else s[0];
    assert Renamed(s, from, to) == [head] + Renamed(s[1..], from, to);
    ConsCount(head, Renamed(s[1..], from, to), x);
  }

  lemma SplitCount(s: seq<string>, x: string)
    requires s != []
    ensures multiset(s)[x] == (if s[0] == x then 1 else 0) + multiset(s[1..])[x]
  {
    assert s == [s[0]] + s[1..];
    ConsCount(s[0], s[1..], x);
  }

  lemma ConsCount(h: string, t: seq<string>, x: string)
    ensures multiset([h] + t)[x] == (if h == x then 1 else 0) + multiset(t)[x]
  {
    assert multiset([h] + t) == multiset{h} + multiset(t);
  }

  /** `addSubtaskItem`: an empty input changes nothing; otherwise the raw text is staged
      last, the items are redrawn from the staged list and the input is cleared. */
  method AddSubtaskItem(store: Store, form: AddTaskForm)
    modifies store`subtasks, form`subtaskItems, form`subtaskInput
    ensures old(form.subtaskInput) == "" ==>
              store.subtasks == old(store.subtasks) && form.subtaskItems == old(form.subtaskItems)
              && form.subtaskInput == ""
    ensures old(form.subtaskInput) != "" ==>
              store.subtasks == old(store.subtasks) + [old(form.subtaskInput)]
              && form.subtaskItems == store.subtasks && form.subtaskInput == ""
  {
    if form.subtaskInput == "" {
      return;
    }
    store.subtasks := store.subtasks + [form.subtaskInput];
    form.subtaskItems := [];
    for i := 0 to |store.subtasks|
      invariant form.subtaskItems == store.subtasks[..i]
      modifies form`subtaskItems
    {
      form.subtaskItems := form.subtaskItems + [store.subtasks[i]];
    }
    form.subtaskInput := "";
  }

  /** `deleteSubtaskItem`: every staged entry equal to the text the item's input holds now
      goes, but only the clicked item is removed from the list drawn. `current` is that
      text: once the item was opened for editing the user may have typed over the text it
      was drawn with. */
  method DeleteSubtaskItem(store: Store, form: AddTaskForm, item: nat, current: string)
    requires item < |form.subtaskItems|
    modifies store`subtasks, form`subtaskItems
    ensures store.subtasks == Without(old(store.subtasks), current)
    ensures form.subtaskItems == old(form.subtaskItems)[..item] + old(form.subtaskItems)[item + 1..]
  {
    store.subtasks := Without(store.subtasks, current);
    form.subtaskItems := form.subtaskItems[..item] + form.subtaskItems[item + 1..];
  }

  /** `editSubtaskItem`: the item's text moves to the front of the staged list, once. */
  method EditSubtaskItem(store: Store, form: AddTaskForm, item: nat)
    requires item < |form.subtaskItems|
    modifies store`subtasks
    ensures store.subtasks == MovedFirst(old(store.subtasks), form.subtaskItems[item])
  {
    var value := form.subtaskItems[item];
    store.subtasks := Without(store.subtasks, value);
    store.subtasks := [value] + store.subtasks;
  }

  /** `saveSubtaskItem` as written: the item shows the typed text and the first staged
      entry, whatever it holds, takes it. */
  method SaveSubtaskItem(store: Store, form: AddTaskForm, item: nat, typed: string)
    requires item < |form.subtaskItems|
    modifies store`subtasks, form`subtaskItems
    ensures form.subtaskItems == old(form.subtaskItems)[item := typed]
    ensures store.subtasks == OverwriteFirst(old(store.subtasks), typed)
  {
    form.subtaskItems := form.subtaskItems[item := typed];
    if |store.subtasks| > 0 {
      store.subtasks := store.subtasks[0 := typed];
    }
  }

  /** `clearForm`: every input and the assignee selection empty, nothing staged, nothing
      drawn, and the Medium radio checked. */
  method ClearForm(store: Store, form: AddTaskForm)
    modifies store`selectedAssigned, store`subtasks
    modifies form`title, form`date, form`description, form`category, form`subtaskInput
    modifies form`assignedInput, form`subtaskItems, form`radios
    ensures store.selectedAssigned == [] && store.subtasks == [] && form.subtaskItems == []
    ensures form.title == "" && form.date == "" && form.description == "" && form.category == ""
    ensures form.subtaskInput == "" && form.assignedInput == ""
    ensures form.radios == CheckRadio(old(form.radios), "medium")
  {
    form.assignedInput := "";
    store.selectedAssigned := [];
    form.title, form.date, form.description, form.category := "", "", "", "";
    form.subtaskInput := "";
    store.subtasks := [];
    form.subtaskItems := [];
    form.radios := CheckRadio(form.radios, "medium");
  }

  /** After a reset the priority read is the Medium radio's, whenever the form has one. */
  lemma ClearedPriorityIsMedium(radios: seq<Radio>, k: nat)
    requires k < |radios| && radios[k].id == "medium"
    requires forall j :: 0 <= j < k ==> radios[j].id != "medium"
    ensures SelectedPriority(CheckRadio(radios, "medium")) == Some(Prio(radios[k].value, radios[k].imgSrc))
  {
    CheckedRadioIsSelected(radios, "medium", k);
  }
}
