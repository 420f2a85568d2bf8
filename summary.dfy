/** The summary page: task counts per status, the urgent count, the greeting for the hour
    of day, and the earliest urgent deadline. */
module Summary {
  import opened Common
  import opened Entities
  import opened Storage
  import opened Board

  /** `countOpenTasks` and its three siblings: the tasks whose status is exactly the one
      given. */
  function StatusCount(tasks: seq<Task>, status: string): (n: nat)
    ensures n <= |tasks|
  {
    Count(tasks, (t: Task) => t.status == status)
  }

  /** A status count is the size of the board column of that status. */
  lemma {:induction false} StatusCountIsColumnSize(tasks: seq<Task>, status: string)
    ensures StatusCount(tasks, status) == |Column(tasks, status)|
  {
    if tasks != [] {
      StatusCountIsColumnSize(tasks[1..], status);
    }
  }

  /** The four status counts never exceed the total; they fall short by exactly the tasks
      whose status is none of the four. */
  lemma StatusCountsWithinTotal(tasks: seq<Task>)
    ensures StatusCount(tasks, OPEN) + StatusCount(tasks, IN_PROGRESS)
            + StatusCount(tasks, AWAIT_FEEDBACK) + StatusCount(tasks, DONE)
            == |tasks| - |Unplaced(tasks)|
  {
    StatusCountIsColumnSize(tasks, OPEN);
    StatusCountIsColumnSize(tasks, IN_PROGRESS);
    StatusCountIsColumnSize(tasks, AWAIT_FEEDBACK);
    StatusCountIsColumnSize(tasks, DONE);
    ColumnsCoverTasks(tasks);
  }

  predicate IsUrgent(t: Task)
  {
    t.prio.Some? && t.prio.value.value == URGENT
  }

  /** `countUrgentTasks`: the tasks whose priority value is "Urgent"; `None` when a task has
      no priority, where reading `prio.value` throws. */
  function UrgentCount(tasks: seq<Task>): (r: Option<nat>)
    ensures r.None? <==> exists i :: 0 <= i < |tasks| && tasks[i].prio.None?
    ensures r.Some? ==> r.value <= |tasks|
    ensures r.Some? ==> (r.value == 0 <==> forall i :: 0 <= i < |tasks| ==> !IsUrgent(tasks[i]))
    ensures r.Some? ==> (r.value == |tasks| <==> forall i :: 0 <= i < |tasks| ==> IsUrgent(tasks[i]))
  {
    if exists i :: 0 <= i < |tasks| && tasks[i].prio.None? then None
    else Some(Count(tasks, IsUrgent))
  }

  /** `countTasks`. */
  function TotalCount(tasks: seq<Task>): (n: nat)
    ensures n == |tasks|
    ensures forall s :: StatusCount(tasks, s) <= n
  {
    |tasks|
  }

  /** `greeting`: by the hour from the clock, morning before 10, noon before 18, evening
      from 18 on; a guest gets "!" and everybody else ",". A negative hour gets nothing. */
  function Greeting(hour: int, guestFlag: Option<string>): (r: string)
    ensures r == [] <==> hour < 0
    ensures r != [] ==> r[|r| - 1] == (if guestFlag == Some("true") then '!' else ',')
    ensures StartsWith(r, "Good morning") <==> 0 <= hour < 10
    ensures StartsWith(r, "Good noon") <==> 10 <= hour < 18
    ensures StartsWith(r, "Good evening") <==> 18 <= hour
  {
    var guest := guestFlag == Some("true");
    var ending := if guest then "!" else ",";
    assert "Good morning"[5] == 'm' && "Good noon"[5] == 'n' && "Good evening"[5] == 'e';
    if 0 <= hour < 10 then "Good morning" + ending
    else if 10 <= hour < 18 then "Good noon" + ending
    else if 18 <= hour then "Good evening" + ending
    else ""
  }

  /** The name `greetingSummary` shows: empty for a guest; otherwise the non-empty name of
      the first user with a non-empty email equal to the decoded email token, or empty. */
  function GreetingName(users: seq<User>, items: map<string, string>, codec: Codec): (r: string)
    ensures Lookup(items, "guestLoggedIn") == Some("true") ==> r == ""
    ensures r != "" ==> exists u :: u in users && u.name == r && u.email != ""
                          && u.email == codec.decode(JsText(Lookup(items, "emailToken")))
  {
    var email := codec.decode(JsText(Lookup(items, "emailToken")));
    match FindFirst(users, (u: User) => u.email != "" && u.email == email)
    case None => ""
    case Some(k) =>
      if users[k].name != "" && Lookup(items, "guestLoggedIn") != Some("true") then users[k].name
      else ""
  }

  /** For a signed-in user whose decoded token is a non-empty email, the greeted name
      belongs to the very user whose id `getUserId` resolves. */
  lemma GreetingNameIsResolvedUser(users: seq<User>, items: map<string, string>, codec: Codec)
    requires Lookup(items, "guestLoggedIn") != Some("true")
    requires codec.decode(JsText(Lookup(items, "emailToken"))) != ""
    requires GreetingName(users, items, codec) != ""
    ensures exists k :: 0 <= k < |users| && users[k].name == GreetingName(users, items, codec)
                        && Some(users[k].id) == ResolveUserId(users, items, codec)
  {
    var email := codec.decode(JsText(Lookup(items, "emailToken")));
    var k := FindFirst(users, (u: User) => u.email != "" && u.email == email).value;
    assert FindFirst(users, (u: User) => u.email == email) == Some(k) by {
      FindFirstSame(users, (u: User) => u.email != "" && u.email == email, (u: User) => u.email == email);
    }
  }

  /** Two tests that agree on every element find the same first index. */
  lemma {:induction false} FindFirstSame<T>(s: seq<T>, p: T -> bool, q: T -> bool)
    requires forall i :: 0 <= i < |s| ==> p(s[i]) == q(s[i])
    ensures FindFirst(s, p) == FindFirst(s, q)
  {
    if s != [] {
      assert forall i :: 0 <= i < |s| - 1 ==> s[1..][i] == s[i + 1];
      FindFirstSame(s[1..], p, q);
    }
  }

  /** The first of the dates with the smallest day number: what a stable ascending sort
      puts first. */
  function Earliest(dates: seq<string>, day: string -> int): (r: string)
    requires dates != []
    ensures exists k :: 0 <= k < |dates| && dates[k] == r
                        && forall j :: 0 <= j < k ==> day(dates[j]) > day(r)
    ensures forall j :: 0 <= j < |dates| ==> day(r) <= day(dates[j])
  {
    if |dates| == 1 then dates[0]
    else
      var rest := Earliest(dates[1..], day);
      assert forall j :: 1 <= j < |dates| ==> dates[j] == dates[1..][j - 1];
      if day(dates[0]) <= day(rest) then dates[0] else rest
  }

  /** The due dates of the urgent tasks, in task order. */
  function UrgentDates(tasks: seq<Task>): (r: seq<string>)
    ensures |r| <= |tasks|
    ensures forall i :: 0 <= i < |tasks| && IsUrgent(tasks[i]) ==> tasks[i].date in r
    ensures forall d :: d in r ==> exists i :: 0 <= i < |tasks| && IsUrgent(tasks[i]) && tasks[i].date == d
  {
    if tasks == [] then []
    else
      var rest := UrgentDates(tasks[1..]);
      assert forall i :: 1 <= i < |tasks| ==> tasks[i] == tasks[1..][i - 1];
      (if IsUrgent(tasks[0]) then [tasks[0].date] else []) + rest
  }

  /** `displayDeadline`: `None` when a task without priority makes the filter throw;
      otherwise `Some(None)` (the empty text) when no task is urgent, and else the date of
      an urgent task no other urgent task is due before. `day` stands for the date parser. */
  function Deadline(tasks: seq<Task>, day: string -> int): (r: Option<Option<string>>)
    ensures r.None? <==> exists i :: 0 <= i < |tasks| && tasks[i].prio.None?
    ensures r == Some(None) <==> UrgentCount(tasks) == Some(0)
    ensures r.Some? && r.value.Some? ==>
              (exists i :: 0 <= i < |tasks| && IsUrgent(tasks[i]) && tasks[i].date == r.value.value)
              && forall i :: 0 <= i < |tasks| && IsUrgent(tasks[i]) ==> day(r.value.value) <= day(tasks[i].date)
  {
    if UrgentCount(tasks).None? then None
    else
      var dates := UrgentDates(tasks);
      if dates == [] then
        Some(None)
      else
        var e := Earliest(dates, day);
        assert UrgentCount(tasks).value != 0 by {
          assert dates[0] in dates;
        }
        var k :| 0 <= k < |dates| && dates[k] == e && forall j :: 0 <= j < k ==> day(dates[j]) > day(e);
        assert e in dates;
        Some(Some(e))
  }
}
