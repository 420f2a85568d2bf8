/** The client's shared state and its link to the remote JSON store: the global arrays
    `users`, `contacts`, `tasks`, `selectedAssigned` and `subtasks`, the browser's
    `localStorage`, the cache rebuilds that refill the arrays from a fetched object, the
    resolution of the signed-in user's id, and the saving of a new task. */
module Storage {
  import opened Common
  import opened Entities

  // ---------------------------------------------------------------- the remote store

  /** What the remote store answers to a read: the fetched JSON object as its key/record
      pairs in key order. A path with no data answers `null`, which a `for…in` loop walks
      as no entries at all. */
  datatype Server = Server(users: seq<(string, User)>,
                           contacts: map<string, seq<(string, Contact)>>,
                           tasks: map<string, seq<(string, Task)>>)

  function Entries<T>(m: map<string, seq<(string, T)>>, userId: string): (r: seq<(string, T)>)
    ensures userId !in m ==> r == []
  {
    if userId in m then m[userId] else []
  }

  datatype Verb = Put | Post
  datatype Body = TaskBody(task: Task) | ContactBody(contact: Contact) | UserBody(user: User)

  /** One request that changes the remote store. A POSTed record carries the id "" since
      the store assigns the key. */
  datatype Write = Write(verb: Verb, path: string, body: Body)

  function TasksPath(userId: Option<string>): string
  {
    "/users/" + JsText(userId) + "/tasks"
  }

  function TaskPath(userId: Option<string>, taskId: string): string
  {
    TasksPath(userId) + "/" + taskId
  }

  // ---------------------------------------------------------------- key rebuild

  function UserWithId(u: User, key: string): User { u.(id := key) }
  function ContactWithId(c: Contact, key: string): Contact { c.(id := key) }
  function TaskWithId(t: Task, key: string): Task { t.(id := key) }

  /** Reference definition of the array a `for (const key in obj) { v = obj[key];
      v.id = key; arr.push(v) }` loop builds from an empty start: one entry per key, in key
      order, whose id is its key. The refresh loops of `Store` are proved against it. */
  function Keyed<T>(entries: seq<(string, T)>, withId: (T, string) -> T): (r: seq<T>)
    ensures |r| == |entries|
    ensures forall i :: 0 <= i < |entries| ==> r[i] == withId(entries[i].1, entries[i].0)
  {
    seq(|entries|, i requires 0 <= i < |entries| => withId(entries[i].1, entries[i].0))
  }

  lemma KeyedExtend<T>(entries: seq<(string, T)>, i: nat, withId: (T, string) -> T)
    requires i < |entries|
    ensures Keyed(entries[..i + 1], withId) == Keyed(entries[..i], withId) + [withId(entries[i].1, entries[i].0)]
  {
    var a := Keyed(entries[..i + 1], withId);
    var b := Keyed(entries[..i], withId) + [withId(entries[i].1, entries[i].0)];
    assert |a| == |b|;
    forall j | 0 <= j < |a| ensures a[j] == b[j] {
      assert entries[..i + 1][j] == entries[j];
      if j < i { assert entries[..i][j] == entries[j]; }
    }
  }

  predicate DistinctKeys<T>(entries: seq<(string, T)>)
  {
    forall i, j :: 0 <= i < j < |entries| ==> entries[i].0 != entries[j].0
  }

  /** The keys of a fetched object are distinct, so after a rebuild looking a task up by
      its key finds exactly the record stored under that key. */
  lemma FindKeyedTask(entries: seq<(string, Task)>, i: nat)
    requires DistinctKeys(entries) && i < |entries|
    ensures FindTask(Keyed(entries, TaskWithId), entries[i].0) == Some(i)
    ensures Keyed(entries, TaskWithId)[i] == entries[i].1.(id := entries[i].0)
  {
    var ts := Keyed(entries, TaskWithId);
    assert ts[i].id == entries[i].0;
    assert forall j :: 0 <= j < |ts| && j != i ==> ts[j].id != entries[i].0;
  }

  // ---------------------------------------------------------------- signed-in user

  /** What `getUserId` resolves: the guest account whenever `guestLoggedIn` is "true";
      otherwise the id of the first user whose email is the decoded `emailToken` (a missing
      token is decoded as the text "null"), or `None` when no user has it. */
  function ResolveUserId(users: seq<User>, items: map<string, string>, codec: Codec): (r: Option<string>)
    ensures Lookup(items, "guestLoggedIn") == Some("true") ==> r == Some(GUEST_ID)
    ensures Lookup(items, "guestLoggedIn") != Some("true") ==>
              var email := codec.decode(JsText(Lookup(items, "emailToken")));
              (r.None? <==> forall u :: u in users ==> u.email != email)
              && (r.Some? ==> exists k :: 0 <= k < |users| && users[k].email == email && users[k].id == r.value
                                && forall j :: 0 <= j < k ==> users[j].email != email)
  {
    if Lookup(items, "guestLoggedIn") == Some("true") then Some(GUEST_ID)
    else
      var email := codec.decode(JsText(Lookup(items, "emailToken")));
      match FindFirst(users, (u: User) => u.email == email)
      case Some(k) => Some(users[k].id)
      case None => None
  }

  // ---------------------------------------------------------------- the task form

  /** The values the add-task form holds when it is read: its text inputs and the priority
      the checked radio gives. */
  datatype FormValues = FormValues(title: string, date: string, description: string,
                                   prio: Option<Prio>, category: string)

  datatype FormData = FormData(title: string, date: string, description: string,
                               prio: Option<Prio>, category: string,
                               assignedTo: seq<Option<Contact>>, subtasks: seq<Subtask>)

  /** Staged subtask texts as stored records: same texts in the same order, none done. */
  function AsIncomplete(staged: seq<string>): (r: seq<Subtask>)
    ensures |r| == |staged|
    ensures forall i :: 0 <= i < |r| ==> r[i].name == staged[i] && !r[i].completed
  {
    if staged == [] then [] else [Subtask(staged[0], false)] + AsIncomplete(staged[1..])
  }

  function Names(subs: seq<Subtask>): (r: seq<string>)
    ensures |r| == |subs|
    ensures forall i :: 0 <= i < |r| ==> r[i] == subs[i].name
  {
    if subs == [] then [] else [subs[0].name] + Names(subs[1..])
  }

  function CompletedCount(subs: seq<Subtask>): (n: nat)
    ensures n <= |subs|
  {
    Count(subs, (s: Subtask) => s.completed)
  }

  /** Turning the staged texts into records loses nothing: their names give the texts
      back, and none of them counts as completed. */
  lemma {:induction false} AsIncompleteNames(staged: seq<string>)
    ensures Names(AsIncomplete(staged)) == staged
    ensures CompletedCount(AsIncomplete(staged)) == 0
  {
    if staged != [] {
      AsIncompleteNames(staged[1..]);
      assert AsIncomplete(staged)[1..] == AsIncomplete(staged[1..]);
    }
  }

  function GetFormData(v: FormValues, selectedAssigned: seq<Option<Contact>>, staged: seq<string>): (r: FormData)
    ensures r.title == v.title && r.date == v.date && r.description == v.description
    ensures r.prio == v.prio && r.category == v.category
    ensures r.assignedTo == selectedAssigned
    ensures Names(r.subtasks) == staged && CompletedCount(r.subtasks) == 0
  {
    AsIncompleteNames(staged);
    FormData(v.title, v.date, v.description, v.prio, v.category, selectedAssigned, AsIncomplete(staged))
  }

  /** A task may be saved only with a title and a due date. */
  function ValidateFormData(fd: FormData): (ok: bool)
    ensures ok <==> fd.title != "" && fd.date != ""
  {
    !(fd.title == "" || fd.date == "")
  }

  /** The status a new task is stored with: the two middle columns when asked for, the
      first column for anything else. */
  function NormalizeStatus(requested: string): (r: string)
    ensures r == OPEN || r == IN_PROGRESS || r == AWAIT_FEEDBACK
    ensures r == IN_PROGRESS <==> requested == IN_PROGRESS
    ensures r == AWAIT_FEEDBACK <==> requested == AWAIT_FEEDBACK
  {
    if requested == IN_PROGRESS then IN_PROGRESS
    else if requested == AWAIT_FEEDBACK then AWAIT_FEEDBACK
    else OPEN
  }

  function NewTaskBody(fd: FormData, status: string): (t: Task)
    ensures t.id == "" && t.status == status && t.title == fd.title && t.date == fd.date
    ensures t.description == fd.description && t.prio == fd.prio && t.category == fd.category
    ensures t.subtasks == Some(fd.subtasks) && t.assignedTo == fd.assignedTo
  {
    Task("", fd.title, fd.description, fd.date, fd.prio, fd.category, status, fd.assignedTo, Some(fd.subtasks))
  }

  // ---------------------------------------------------------------- browser storage

  class LocalStorage {
    var items: map<string, string>

    constructor()
      ensures items == map[]
    {
      items := map[];
    }

    function GetItem(key: string): (r: Option<string>)
      reads this
      ensures r.Some? <==> key in items
      ensures r.Some? ==> r.value == items[key]
    {
      Lookup(items, key)
    }

    method SetItem(key: string, value: string)
      modifies this
      ensures items == old(items)[key := value]
    {
      items := items[key := value];
    }

    method RemoveItem(key: string)
      modifies this
      ensures items == old(items) - {key}
    {
      items := items - {key};
    }

    method Clear()
      modifies this
      ensures items == map[]
    {
      items := map[];
    }
  }

  // ---------------------------------------------------------------- the global arrays

  class Store {
    var users: seq<User>
    var contacts: seq<Contact>
    var tasks: seq<Task>
    /** Contacts picked in the open task form; `None` where a `null` got in. */
    var selectedAssigned: seq<Option<Contact>>
    /** Subtask texts staged in the open task form. */
    var subtasks: seq<string>
    /** Every request sent to the remote store, oldest first. */
    var writes: seq<Write>

    constructor()
      ensures users == [] && contacts == [] && tasks == []
      ensures selectedAssigned == [] && subtasks == [] && writes == []
    {
      users, contacts, tasks := [], [], [];
      selectedAssigned, subtasks, writes := [], [], [];
    }

    /** `getUser`: the old array is dropped and rebuilt from the fetched users. */
    method RefreshUsers(server: Server)
      modifies this`users
      ensures users == Keyed(server.users, UserWithId)
    {
      var fetched := server.users;
      users := [];
      for i := 0 to |fetched|
        invariant users == Keyed(fetched[..i], UserWithId)
      {
        KeyedExtend(fetched, i, UserWithId);
        users := users + [UserWithId(fetched[i].1, fetched[i].0)];
      }
      assert fetched[..|fetched|] == fetched;
    }

    /** `getUserId`: refetches the users, then resolves the signed-in account. */
    method GetUserId(ls: LocalStorage, server: Server, codec: Codec) returns (userId: Option<string>)
      modifies this`users
      ensures users == Keyed(server.users, UserWithId)
      ensures userId == ResolveUserId(users, ls.items, codec)
    {
      RefreshUsers(server);
      userId := ResolveUserId(users, ls.items, codec);
    }

    /** `getContacts`: for a signed-in user nobody matches, reading `.id` of `undefined`
        throws and the contact array is left as it was (`ok` is false). */
    method RefreshContacts(ls: LocalStorage, server: Server, codec: Codec) returns (ok: bool)
      modifies this`users, this`contacts
      ensures users == Keyed(server.users, UserWithId)
      ensures var owner := ResolveUserId(users, ls.items, codec);
              (ok <==> owner.Some?)
              && (ok ==> contacts == Keyed(Entries(server.contacts, owner.value), ContactWithId))
              && (!ok ==> contacts == old(contacts))
    {
      RefreshUsers(server);
      var owner := ResolveUserId(users, ls.items, codec);
      if owner.None? {
        return false;
      }
      var fetched := Entries(server.contacts, owner.value);
      contacts := [];
      for i := 0 to |fetched|
        invariant contacts == Keyed(fetched[..i], ContactWithId)
        invariant users == Keyed(server.users, UserWithId)
      {
        KeyedExtend(fetched, i, ContactWithId);
        contacts := contacts + [ContactWithId(fetched[i].1, fetched[i].0)];
      }
      assert fetched[..|fetched|] == fetched;
      ok := true;
    }

    /** `getTask`: the tasks under the resolved user; with no user the path reads
        `/users/null/tasks`, which holds nothing. */
    method RefreshTasks(ls: LocalStorage, server: Server, codec: Codec)
      modifies this`users, this`tasks
      ensures users == Keyed(server.users, UserWithId)
      ensures tasks == Keyed(Entries(server.tasks, JsText(ResolveUserId(users, ls.items, codec))), TaskWithId)
    {
      var userId := GetUserId(ls, server, codec);
      var fetched := Entries(server.tasks, JsText(userId));
      tasks := [];
      for i := 0 to |fetched|
        invariant tasks == Keyed(fetched[..i], TaskWithId)
        invariant users == Keyed(server.users, UserWithId)
      {
        KeyedExtend(fetched, i, TaskWithId);
        tasks := tasks + [TaskWithId(fetched[i].1, fetched[i].0)];
      }
      assert fetched[..|fetched|] == fetched;
    }

    /** `saveTask`: reads the form, gives up on a missing title or date before any request,
        and otherwise posts the new task under the signed-in user with its status
        normalised. With no user id found (or an empty one) the error is caught and nothing is posted. */
    method SaveTask(requested: string, form: FormValues, ls: LocalStorage, server: Server, codec: Codec)
      returns (posted: bool)
      modifies this`users, this`writes
      ensures var fd := GetFormData(form, selectedAssigned, subtasks);
              !ValidateFormData(fd) ==> !posted && users == old(users) && writes == old(writes)
      ensures var fd := GetFormData(form, selectedAssigned, subtasks);
              ValidateFormData(fd) ==>
                users == Keyed(server.users, UserWithId)
                && var userId := ResolveUserId(users, ls.items, codec);
                   (posted <==> Truthy(userId))
                   && (posted ==> writes == old(writes) + [Write(Post, TasksPath(userId), TaskBody(NewTaskBody(fd, NormalizeStatus(requested))))])
                   && (!posted ==> writes == old(writes))
    {
      var fd := GetFormData(form, selectedAssigned, subtasks);
      if !ValidateFormData(fd) {
        return false;
      }
      var userId := GetUserId(ls, server, codec);
      if !Truthy(userId) {
        return false;
      }
      writes := writes + [Write(Post, TasksPath(userId), TaskBody(NewTaskBody(fd, NormalizeStatus(requested))))];
      posted := true;
    }
  }
}
