/** The records the client keeps in memory and sends to the remote store: users, contacts
    and tasks, each identified by the key the server assigned. */
module Entities {
  import opened Common

  /** The fixed account id every guest session works under. */
  const GUEST_ID := "-O-Mr5g8976g5-yCxVK8"

  /** The four board columns, in display order. */
  const OPEN := "open"
  const IN_PROGRESS := "inProgress"
  const AWAIT_FEEDBACK := "awaitFeedback"
  const DONE := "done"
  const STATUSES: seq<string> := [OPEN, IN_PROGRESS, AWAIT_FEEDBACK, DONE]

  const URGENT := "Urgent"
  const MEDIUM := "Medium"
  const LOW := "Low"

  datatype User = User(id: string, name: string, email: string, password: string, initials: string)

  datatype Contact = Contact(id: string, name: string, email: string, phone: string,
                             initials: string, profileColor: string)

  datatype Subtask = Subtask(name: string, completed: bool)

  datatype Prio = Prio(value: string, imgSrc: string)

  /** A task as stored. `assignedTo` is the record's `assigned` array (`assigned` is a
      reserved word here); an entry is `None` where that array holds `null`. `prio` is
      `None` when no priority radio was checked; `subtasks` is `None` when the record has
      no subtask list at all (the server drops empty arrays). A missing category is the
      empty string. */
  datatype Task = Task(id: string, title: string, description: string, date: string,
                       prio: Option<Prio>, category: string, status: string,
                       assignedTo: seq<Option<Contact>>, subtasks: Option<seq<Subtask>>)

  /** `tasks.find(t => t.id === id)`, as the index found. */
  function FindTask(tasks: seq<Task>, id: string): (r: Option<nat>)
    ensures r.Some? ==> r.value < |tasks| && tasks[r.value].id == id
    ensures r.Some? ==> forall j :: 0 <= j < r.value ==> tasks[j].id != id
    ensures r.None? <==> forall j :: 0 <= j < |tasks| ==> tasks[j].id != id
  {
    FindFirst(tasks, (t: Task) => t.id == id)
  }

  /** `users.find(user => user.email === email)`. */
  function FindUserByEmail(users: seq<User>, email: string): (r: Option<User>)
    ensures r.Some? ==> r.value in users && r.value.email == email
    ensures r.None? <==> forall u :: u in users ==> u.email != email
  {
    match FindFirst(users, (u: User) => u.email == email)
    case Some(k) => Some(users[k])
    case None => None
  }

  /** `contacts.find(c => c.id === id)`. */
  function FindContactById(contacts: seq<Contact>, id: string): (r: Option<Contact>)
    ensures r.Some? ==> r.value in contacts && r.value.id == id
    ensures r.None? <==> forall c :: c in contacts ==> c.id != id
  {
    match FindFirst(contacts, (c: Contact) => c.id == id)
    case Some(k) => Some(contacts[k])
    case None => None
  }

  /** `contacts.find(c => c.name === name)`: the first contact with that name. */
  function FindContactByName(contacts: seq<Contact>, name: string): (r: Option<Contact>)
    ensures r.Some? ==> r.value.name == name
    ensures r.Some? ==> exists k :: 0 <= k < |contacts| && contacts[k] == r.value
                          && forall j :: 0 <= j < k ==> contacts[j].name != name
    ensures r.None? <==> forall c :: c in contacts ==> c.name != name
  {
    match FindFirst(contacts, (c: Contact) => c.name == name)
    case Some(k) => Some(contacts[k])
    case None => None
  }

  /** A checkbox of an assignee dropdown: its `data-value` (a contact id in the edit dialog,
      a contact name in the add-task form) and whether it is ticked. */
  datatype Checkbox = Checkbox(value: string, checked: bool)

  /** Contacts as entries of an assignee array, which may also hold `null`. */
  function Present(cs: seq<Contact>): (r: seq<Option<Contact>>)
    ensures |r| == |cs|
    ensures forall i :: 0 <= i < |cs| ==> r[i] == Some(cs[i])
  {
    seq(|cs|, i requires 0 <= i < |cs| => Some(cs[i]))
  }

  function ContactNames(cs: seq<Contact>): (r: seq<string>)
    ensures |r| == |cs|
    ensures forall i :: 0 <= i < |cs| ==> r[i] == cs[i].name
  {
    seq(|cs|, i requires 0 <= i < |cs| => cs[i].name)
  }

  /** Reference definition of the text of the assignee input: "An: " and the names in
      selection order separated by ", ", or nothing at all for an empty selection. The
      handlers that write the input are proved against it. */
  function AssignedLabel(selected: seq<Contact>): (r: string)
    ensures selected == [] <==> r == ""
    ensures selected != [] ==> r == "An: " + Join(ContactNames(selected), ", ")
  {
    if |selected| > 0 then "An: " + Join(ContactNames(selected), ", ") else ""
  }

  /** With one contact picked the label names just that contact. */
  lemma AssignedLabelSingle(c: Contact)
    ensures AssignedLabel([c]) == "An: " + c.name
  {
    assert ContactNames([c]) == [c.name];
  }
}
