/** The kanban board: four columns filled from the task array by status, the placeholder
    and "no results" rules for empty columns, the per-card move menu, and moving a task to
    another column by drag and drop or through that menu. */
module Board {
  import opened Common
  import opened Entities
  import opened Storage

  /** What a column container holds: the cards of some tasks (no cards is the empty
      markup), or the "no tasks" placeholder. */
  datatype Container = Cards(tasks: seq<Task>) | NoTasks

  /** The tasks of one column, in task-array order. */
  function Column(tasks: seq<Task>, status: string): (r: seq<Task>)
    ensures |r| <= |tasks|
    ensures forall t :: t in r <==> t in tasks && t.status == status
  {
    if tasks == [] then []
    else (if tasks[0].status == status then [tasks[0]] else []) + Column(tasks[1..], status)
  }

  lemma {:induction false} ColumnAppend(a: seq<Task>, b: seq<Task>, status: string)
    ensures Column(a + b, status) == Column(a, status) + Column(b, status)
  {
    if a == [] {
      assert a + b == b;
    } else {
      assert (a + b)[1..] == a[1..] + b;
      ColumnAppend(a[1..], b, status);
    }
  }

  /** Appending one task to the array extends exactly the column of its status. */
  lemma ColumnSnoc(prefix: seq<Task>, task: Task, status: string)
    ensures Column(prefix + [task], status)
            == Column(prefix, status) + (if task.status == status then [task] else [])
  {
    ColumnAppend(prefix, [task], status);
    assert [task][1..] == [];
  }

  /** The tasks no column shows: those whose status is none of the four. */
  function Unplaced(tasks: seq<Task>): (r: seq<Task>)
    ensures forall t :: t in r <==> t in tasks && t.status !in STATUSES
  {
    if tasks == [] then []
    else (if tasks[0].status !in STATUSES then [tasks[0]] else []) + Unplaced(tasks[1..])
  }

  /** Every task lands in exactly one column, or in none when its status is unknown: the
      column sizes and the unplaced tasks add up to the whole array. */
  lemma {:induction false} ColumnsCoverTasks(tasks: seq<Task>)
    ensures |Column(tasks, OPEN)| + |Column(tasks, IN_PROGRESS)| + |Column(tasks, AWAIT_FEEDBACK)|
            + |Column(tasks, DONE)| + |Unplaced(tasks)| == |tasks|
  {
    if tasks != [] {
      ColumnsCoverTasks(tasks[1..]);
    }
  }

  /** Replacing one task changes a column's size only by that task leaving or entering it. */
  lemma ColumnAfterUpdate(tasks: seq<Task>, k: nat, t: Task, status: string)
    requires k < |tasks|
    ensures |Column(tasks[k := t], status)|
            == |Column(tasks, status)| - (if tasks[k].status == status then 1 else 0)
               + (if t.status == status then 1 else 0)
  {
    var pre, post := tasks[..k], tasks[k + 1..];
    assert tasks == pre + [tasks[k]] + post;
    assert tasks[k := t] == pre + [t] + post;
    ColumnAround(pre, tasks[k], post, status);
    ColumnAround(pre, t, post, status);
  }

  /** The size of a column over a sequence cut around one task. */
  lemma ColumnAround(pre: seq<Task>, x: Task, post: seq<Task>, status: string)
    ensures |Column(pre + [x] + post, status)|
            == |Column(pre, status)| + (if x.status == status then 1 else 0) + |Column(post, status)|
  {
    ColumnAppend(pre + [x], post, status);
    ColumnAppend(pre, [x], status);
    assert Column([x], status) == (if x.status == status then [x] else []) + Column([], status);
  }

  // ----------------------------------------------------------------- drawing cards

  /** `taskCardHTML` reads `task.prio.imgSrc`, so drawing the card of a task without a
      priority throws a TypeError instead of producing markup. */
  predicate Drawable(t: Task)
  {
    t.prio.Some?
  }

  predicate AllDrawable(tasks: seq<Task>)
  {
    forall i :: 0 <= i < |tasks| ==> Drawable(tasks[i])
  }

  /** How many containers `updateBoardHtml` rewrites: it builds them in status order, and
      the first column holding a card that throws stops it before that container is
      written. */
  function DrawnColumns(tasks: seq<Task>): (n: nat)
    ensures n <= |STATUSES|
    ensures forall k :: 0 <= k < n ==> AllDrawable(Column(tasks, STATUSES[k]))
    ensures n < |STATUSES| ==> !AllDrawable(Column(tasks, STATUSES[n]))
  {
    if !AllDrawable(Column(tasks, OPEN)) then 0
    else if !AllDrawable(Column(tasks, IN_PROGRESS)) then 1
    else if !AllDrawable(Column(tasks, AWAIT_FEEDBACK)) then 2
    else if !AllDrawable(Column(tasks, DONE)) then 3
    else 4
  }

  /** One of the four statuses, tested the way the drawing loops test it. */
  predicate Placed(t: Task)
  {
    t.status == OPEN || t.status == IN_PROGRESS || t.status == AWAIT_FEEDBACK || t.status == DONE
  }

  /** The tasks drawing them one by one, as `displayTaskCard` and a search do, gets through:
      those before the first task with one of the four statuses and no priority, whose
      card throws. A task with any other status is skipped, so it never throws. */
  function Drawn(tasks: seq<Task>): (r: seq<Task>)
    ensures |r| <= |tasks|
    ensures forall i :: 0 <= i < |r| ==> r[i] == tasks[i]
    ensures forall i :: 0 <= i < |r| && Placed(r[i]) ==> Drawable(r[i])
    ensures |r| < |tasks| ==> Placed(tasks[|r|]) && !Drawable(tasks[|r|])
  {
    if tasks == [] then []
    else if Placed(tasks[0]) && !Drawable(tasks[0]) then []
    else [tasks[0]] + Drawn(tasks[1..])
  }

  /** A column of tasks whose every task with that status has a priority draws. */
  lemma ColumnDrawable(tasks: seq<Task>, status: string)
    requires forall i :: 0 <= i < |tasks| && tasks[i].status == status ==> Drawable(tasks[i])
    ensures AllDrawable(Column(tasks, status))
  {
    var col := Column(tasks, status);
    forall i | 0 <= i < |col| ensures Drawable(col[i]) {
      assert col[i] in col;
      var j :| 0 <= j < |tasks| && tasks[j] == col[i];
    }
  }

  /** A task of that status without a priority makes its column throw. */
  lemma ColumnUndrawable(tasks: seq<Task>, status: string, i: nat)
    requires i < |tasks| && tasks[i].status == status && !Drawable(tasks[i])
    ensures !AllDrawable(Column(tasks, status))
  {
    var col := Column(tasks, status);
    assert tasks[i] in col;
    var j :| 0 <= j < |col| && col[j] == tasks[i];
  }

  /** Drawing column by column and drawing task by task fail on the same task arrays:
      exactly those where a task with one of the four statuses has no priority. */
  lemma DrawnIff(tasks: seq<Task>)
    ensures DrawnColumns(tasks) == |STATUSES| <==> Drawn(tasks) == tasks
  {
    var r := Drawn(tasks);
    if |r| == |tasks| {
      assert r == tasks;
      forall k | 0 <= k < |STATUSES| ensures AllDrawable(Column(tasks, STATUSES[k])) {
        ColumnDrawable(tasks, STATUSES[k]);
      }
    } else {
      var t := tasks[|r|];
      assert STATUSES[0] == OPEN && STATUSES[1] == IN_PROGRESS;
      assert STATUSES[2] == AWAIT_FEEDBACK && STATUSES[3] == DONE;
      var k :| 0 <= k < |STATUSES| && STATUSES[k] == t.status;
      ColumnUndrawable(tasks, STATUSES[k], |r|);
    }
  }

  /** The task at `i` does not throw, so drawing gets past it. */
  lemma DrawnLater(tasks: seq<Task>, i: nat)
    requires i <= |Drawn(tasks)| && i < |tasks|
    requires Placed(tasks[i]) ==> Drawable(tasks[i])
    ensures i + 1 <= |Drawn(tasks)|
  {
  }

  /** The task at `i` throws, so drawing stops there. */
  lemma DrawnHere(tasks: seq<Task>, i: nat)
    requires i <= |Drawn(tasks)| && i < |tasks|
    requires Placed(tasks[i]) && !Drawable(tasks[i])
    ensures i == |Drawn(tasks)|
  {
  }

  /** Drawing got through the first `i` tasks and no further. */
  lemma DrawnUpTo(tasks: seq<Task>, i: nat)
    requires i == |Drawn(tasks)|
    ensures tasks[..i] == Drawn(tasks)
  {
  }

  /** One more task of the array extends the four columns by it, at most once. */
  lemma ColumnsStep(tasks: seq<Task>, i: nat)
    requires i < |tasks|
    ensures Column(tasks[..i + 1], OPEN) == Column(tasks[..i], OPEN) + (if tasks[i].status == OPEN then [tasks[i]] else [])
    ensures Column(tasks[..i + 1], IN_PROGRESS)
            == Column(tasks[..i], IN_PROGRESS) + (if tasks[i].status == IN_PROGRESS then [tasks[i]] else [])
    ensures Column(tasks[..i + 1], AWAIT_FEEDBACK)
            == Column(tasks[..i], AWAIT_FEEDBACK) + (if tasks[i].status == AWAIT_FEEDBACK then [tasks[i]] else [])
    ensures Column(tasks[..i + 1], DONE) == Column(tasks[..i], DONE) + (if tasks[i].status == DONE then [tasks[i]] else [])
  {
    assert tasks[..i + 1] == tasks[..i] + [tasks[i]];
    ColumnSnoc(tasks[..i], tasks[i], OPEN);
    ColumnSnoc(tasks[..i], tasks[i], IN_PROGRESS);
    ColumnSnoc(tasks[..i], tasks[i], AWAIT_FEEDBACK);
    ColumnSnoc(tasks[..i], tasks[i], DONE);
  }

  /** The column-filling loop of `displayTaskCard`: each task goes to the column its status
      names, the first test that matches wins, a task with any other status is skipped, and
      the card of a task without a priority throws, ending the loop. `n` is how many tasks
      were handled before that. */
  method Partition(tasks: seq<Task>) returns (toDo: seq<Task>, inProgress: seq<Task>, awaitFeedback: seq<Task>, done: seq<Task>, n: nat)
    ensures n == |Drawn(tasks)|
    ensures toDo == Column(Drawn(tasks), OPEN) && inProgress == Column(Drawn(tasks), IN_PROGRESS)
    ensures awaitFeedback == Column(Drawn(tasks), AWAIT_FEEDBACK) && done == Column(Drawn(tasks), DONE)
  {
    toDo, inProgress, awaitFeedback, done := [], [], [], [];
    var i := 0;
    // the card of the task at `i` throws when it is placed and has no priority
    while i < |tasks| && !(Placed(tasks[i]) && !Drawable(tasks[i]))
      invariant 0 <= i <= |Drawn(tasks)|
      invariant toDo == Column(tasks[..i], OPEN)
      invariant inProgress == Column(tasks[..i], IN_PROGRESS)
      invariant awaitFeedback == Column(tasks[..i], AWAIT_FEEDBACK)
      invariant done == Column(tasks[..i], DONE)
    {
      var task := tasks[i];
      DrawnLater(tasks, i);
      ColumnsStep(tasks, i);
      if task.status == OPEN {
        toDo := toDo + [task];
      } else if task.status == IN_PROGRESS {
        inProgress := inProgress + [task];
      } else if task.status == AWAIT_FEEDBACK {
        awaitFeedback := awaitFeedback + [task];
      } else if task.status == DONE {
        done := done + [task];
      }
      i := i + 1;
    }
    if i < |tasks| {
      DrawnHere(tasks, i);
    }
    DrawnUpTo(tasks, i);
    n := i;
  }

  /** Reference definition: what the four containers hold once they are drawn from
      `tasks` and the empty-column rule has run. */
  function Rendered(tasks: seq<Task>): (r: seq<Container>)
    ensures |r| == |STATUSES|
    ensures forall k :: 0 <= k < |STATUSES| ==>
              r[k] == (if Column(tasks, STATUSES[k]) == [] then NoTasks else Cards(Column(tasks, STATUSES[k])))
  {
    seq(|STATUSES|, k requires 0 <= k < |STATUSES| =>
          if Column(tasks, STATUSES[k]) == [] then NoTasks else Cards(Column(tasks, STATUSES[k])))
  }

  /** The four containers filled from `tasks`, before the empty-column rules. */
  function Filled(tasks: seq<Task>): (r: seq<Container>)
    ensures |r| == |STATUSES|
    ensures forall k :: 0 <= k < |STATUSES| ==> r[k] == Cards(Column(tasks, STATUSES[k]))
  {
    [Cards(Column(tasks, OPEN)), Cards(Column(tasks, IN_PROGRESS)),
     Cards(Column(tasks, AWAIT_FEEDBACK)), Cards(Column(tasks, DONE))]
  }

  /** Each empty container gets the placeholder; a filled one keeps its cards. */
  function Placeholders(cols: seq<Container>): (r: seq<Container>)
    ensures |r| == |cols|
    ensures forall k :: 0 <= k < |cols| ==> r[k] == (if cols[k] == Cards([]) then NoTasks else cols[k])
  {
    seq(|cols|, k requires 0 <= k < |cols| => if cols[k] == Cards([]) then NoTasks else cols[k])
  }

  /** Every container is empty (the test of `showEmptyWarning`). */
  predicate AllEmpty(cols: seq<Container>)
  {
    forall k :: 0 <= k < |cols| ==> cols[k] == Cards([])
  }

  /** Filling the containers from the tasks and then applying the empty-column rules shows
      what rendering the tasks gives, and all four were empty exactly when all four columns
      are. */
  lemma FilledRendered(tasks: seq<Task>)
    ensures Placeholders(Filled(tasks)) == Rendered(tasks)
    ensures AllEmpty(Filled(tasks)) <==> forall k :: 0 <= k < |STATUSES| ==> Column(tasks, STATUSES[k]) == []
  {
    assert Placeholders(Filled(tasks)) == Rendered(tasks);
  }

  /** The "no results" warning shows exactly when no task carries one of the four statuses. */
  lemma {:induction false} NothingPlaced(tasks: seq<Task>)
    ensures (forall k :: 0 <= k < |STATUSES| ==> Column(tasks, STATUSES[k]) == [])
            <==> |Unplaced(tasks)| == |tasks|
  {
    ColumnsCoverTasks(tasks);
    assert |STATUSES| == 4;
    assert STATUSES[0] == OPEN && STATUSES[1] == IN_PROGRESS;
    assert STATUSES[2] == AWAIT_FEEDBACK && STATUSES[3] == DONE;
    if |Unplaced(tasks)| == |tasks| {
      forall k | 0 <= k < |STATUSES| ensures Column(tasks, STATUSES[k]) == [] {
        assert k == 0 || k == 1 || k == 2 || k == 3;
        assert |Column(tasks, STATUSES[k])| == 0;
      }
    } else {
      assert Column(tasks, OPEN) != [] || Column(tasks, IN_PROGRESS) != []
             || Column(tasks, AWAIT_FEEDBACK) != [] || Column(tasks, DONE) != [];
    }
  }

  // ------------------------------------------------------------------- the screen

  /** What the board page shows: the four containers, whether the "no results" warning is
      on, and the ids of the cards whose move menu is open. */
  datatype Screen = Screen(columns: seq<Container>, noResults: bool, openMenus: set<string>)

  /** The ids of the cards a container holds. */
  function Ids(c: Container): set<string>
  {
    if c.Cards? then set t | t in c.tasks :: t.id else {}
  }

  /** The ids of the cards some containers hold. */
  function CardIds(columns: seq<Container>): set<string>
  {
    if columns == [] then {} else Ids(columns[0]) + CardIds(columns[1..])
  }

  lemma {:induction false} CardIdsAppend(a: seq<Container>, b: seq<Container>)
    ensures CardIds(a + b) == CardIds(a) + CardIds(b)
  {
    if a == [] {
      assert a + b == b;
    } else {
      assert (a + b)[1..] == a[1..] + b;
      CardIdsAppend(a[1..], b);
    }
  }

  /** One container more of the same sequence adds its ids. */
  lemma CardIdsTake(a: seq<Container>, k: nat)
    requires k < |a|
    ensures CardIds(a[..k + 1]) == CardIds(a[..k]) + Ids(a[k])
  {
    assert a[..k + 1] == a[..k] + [a[k]];
    CardIdsAppend(a[..k], [a[k]]);
    assert CardIds([a[k]]) == Ids(a[k]) + CardIds([]);
  }

  /** Containers holding the same cards, one by one, hold the same ids. */
  lemma {:induction false} CardIdsPointwise(a: seq<Container>, b: seq<Container>)
    requires |a| == |b|
    requires forall k :: 0 <= k < |a| ==> Ids(a[k]) == Ids(b[k])
    ensures CardIds(a) == CardIds(b)
  {
    if a != [] {
      CardIdsPointwise(a[1..], b[1..]);
    }
  }

  /** Rewriting the first `k` containers drops the menus open on their old cards; every
      menu still open sits on a card of a container that was kept. */
  lemma MenusAfterRewrite(before: seq<Container>, after: seq<Container>, menus: set<string>, k: nat)
    requires k <= |before| == |after|
    requires menus <= CardIds(before)
    requires forall j :: k <= j < |before| ==> after[j] == before[j]
    ensures menus - CardIds(before[..k]) <= CardIds(after)
  {
    assert after[k..] == before[k..];
    assert before == before[..k] + before[k..];
    assert after == after[..k] + after[k..];
    CardIdsAppend(before[..k], before[k..]);
    CardIdsAppend(after[..k], after[k..]);
  }

  /** Rewriting every container drops every menu that was open on one of its cards. */
  lemma MenusAllRewritten(before: seq<Container>, menus: set<string>)
    requires menus <= CardIds(before)
    ensures menus - CardIds(before[..|before|]) == {}
  {
    assert before[..|before|] == before;
  }

  /** The screen once the containers hold the columns of `tasks` and the empty-column
      rules have run. Every container was rewritten, so no menu is open. */
  function FullyDrawn(tasks: seq<Task>): Screen
  {
    Screen(Placeholders(Filled(tasks)), AllEmpty(Filled(tasks)), {})
  }

  /** A fully drawn board shows the rendering of the tasks, and the "no results" warning
      exactly when no task has one of the four statuses. */
  lemma FullyDrawnRendered(tasks: seq<Task>)
    ensures FullyDrawn(tasks).columns == Rendered(tasks) && FullyDrawn(tasks).openMenus == {}
    ensures FullyDrawn(tasks).noResults <==> |Unplaced(tasks)| == |tasks|
  {
    FilledRendered(tasks);
    NothingPlaced(tasks);
  }

  /** `updateBoardHtml` on screen `s`: the containers are rewritten in status order until a
      card throws. When all four are rewritten the empty-column rules run; otherwise the
      warning is not touched, the later containers keep what they showed, and only the
      menus on the cards of the rewritten containers are gone. */
  function Redrawn(s: Screen, tasks: seq<Task>): (r: Screen)
    requires |s.columns| == |STATUSES|
    ensures |r.columns| == |STATUSES|
    ensures DrawnColumns(tasks) == |STATUSES| ==> r == FullyDrawn(tasks)
    ensures var n := DrawnColumns(tasks);
            n < |STATUSES| ==>
              r.noResults == s.noResults && r.openMenus == s.openMenus - CardIds(s.columns[..n])
              && (forall k :: 0 <= k < n ==> r.columns[k] == Cards(Column(tasks, STATUSES[k])))
              && (forall k :: n <= k < |STATUSES| ==> r.columns[k] == s.columns[k])
  {
    var n := DrawnColumns(tasks);
    if n == |STATUSES| then FullyDrawn(tasks)
    else
      Screen(seq(|STATUSES|, k requires 0 <= k < |STATUSES| =>
                   if k < n then Cards(Column(tasks, STATUSES[k])) else s.columns[k]),
             s.noResults, s.openMenus - CardIds(s.columns[..n]))
  }

  /** A redraw, whether it completes or throws, leaves every open menu on a card that is
      shown. */
  lemma RedrawKeepsMenusOnCards(s: Screen, tasks: seq<Task>)
    requires |s.columns| == |STATUSES| && s.openMenus <= CardIds(s.columns)
    ensures Redrawn(s, tasks).openMenus <= CardIds(Redrawn(s, tasks).columns)
  {
    var n := DrawnColumns(tasks);
    if n < |STATUSES| {
      var r := Redrawn(s, tasks);
      MenusAfterRewrite(s.columns, r.columns, s.openMenus, n);
    }
  }

  /** `displayTaskCard`, and a search over its hits: all four containers are cleared, which
      closes every menu, and the tasks are drawn one by one into the column of their status
      until a card throws. Only when none does do the empty-column rules run; otherwise the
      containers keep the cards drawn so far and the warning is not touched. */
  function Reloaded(s: Screen, tasks: seq<Task>): (r: Screen)
    ensures |r.columns| == |STATUSES| && r.openMenus == {}
    ensures Drawn(tasks) == tasks ==> r == FullyDrawn(tasks)
    ensures Drawn(tasks) != tasks ==>
              r.noResults == s.noResults
              && forall k :: 0 <= k < |STATUSES| ==> r.columns[k] == Cards(Column(Drawn(tasks), STATUSES[k]))
  {
    if Drawn(tasks) == tasks then FullyDrawn(tasks) else Screen(Filled(Drawn(tasks)), s.noResults, {})
  }

  /** Reloading the tasks and redrawing them show the same board whenever either succeeds,
      whatever either started from. */
  lemma ReloadAgreesWithRedraw(s: Screen, s': Screen, tasks: seq<Task>)
    requires |s'.columns| == |STATUSES|
    requires Drawn(tasks) == tasks || DrawnColumns(tasks) == |STATUSES|
    ensures Reloaded(s, tasks) == Redrawn(s', tasks)
  {
    DrawnIff(tasks);
  }

  /** The screen a redraw leaves when the card of column `n` throws, taken apart. */
  lemma RedrawnCut(s: Screen, tasks: seq<Task>, cols: seq<Container>)
    requires |s.columns| == |cols| == |STATUSES| && DrawnColumns(tasks) < |STATUSES|
    requires forall k :: 0 <= k < DrawnColumns(tasks) ==> cols[k] == Cards(Column(tasks, STATUSES[k]))
    requires forall k :: DrawnColumns(tasks) <= k < |STATUSES| ==> cols[k] == s.columns[k]
    ensures Screen(cols, s.noResults, s.openMenus - CardIds(s.columns[..DrawnColumns(tasks)])) == Redrawn(s, tasks)
  {
    assert cols == Redrawn(s, tasks).columns;
  }

  /** The part of the board page the scripts change. */
  class BoardView {
    /** The four column containers, in the order of `STATUSES`. */
    var columns: seq<Container>
    /** Whether the "no results" warning is shown. */
    var noResults: bool
    /** Ids of the cards whose move menu is open. */
    var openMenus: set<string>
    /** `currentDraggedElement`: the id of the card being dragged, `null` at first. */
    var currentDragged: Option<string>

    /** Four containers, and a move menu only inside a card that is shown. */
    ghost predicate Valid()
      reads this
    {
      |columns| == |STATUSES| && openMenus <= CardIds(columns)
    }

    function Shown(): Screen
      reads this
    {
      Screen(columns, noResults, openMenus)
    }

    constructor()
      ensures Valid() && noResults == false && openMenus == {} && currentDragged == None
      ensures forall k :: 0 <= k < |STATUSES| ==> columns[k] == Cards([])
    {
      columns := [Cards([]), Cards([]), Cards([]), Cards([])];
      noResults := false;
      openMenus := {};
      currentDragged := None;
    }

    /** `showEmptyWarning`: the warning is on exactly when all four containers are empty. */
    method ShowEmptyWarning()
      requires Valid()
      modifies this`noResults
      ensures noResults <==> AllEmpty(columns)
    {
      noResults := columns[0] == Cards([]) && columns[1] == Cards([])
                   && columns[2] == Cards([]) && columns[3] == Cards([]);
      assert |STATUSES| == 4;
      if !noResults {
        assert columns[0] != Cards([]) || columns[1] != Cards([]) || columns[2] != Cards([]) || columns[3] != Cards([]);
      }
    }

    /** `displayNoTasks`: the warning is decided first, then each empty container gets its
        placeholder and a filled one keeps its cards (and the menus open on them). */
    method DisplayNoTasks()
      requires Valid()
      modifies this`columns, this`noResults
      ensures Valid()
      ensures noResults <==> AllEmpty(old(columns))
      ensures columns == Placeholders(old(columns))
    {
      ShowEmptyWarning();
      for k := 0 to |STATUSES|
        modifies this`columns
        invariant |columns| == |STATUSES|
        invariant forall j :: 0 <= j < k ==>
                    columns[j] == (if old(columns)[j] == Cards([]) then NoTasks else old(columns)[j])
        invariant forall j :: k <= j < |STATUSES| ==> columns[j] == old(columns)[j]
      {
        if columns[k] == Cards([]) {
          columns := columns[k := NoTasks];
        }
      }
      assert columns == Placeholders(old(columns));
      assert Ids(Cards([])) == {};
      CardIdsPointwise(old(columns), columns);
    }

    /** The loop of `updateBoardHtml`: the containers are rewritten in status order, each
        from the cards of its column, which removes the menus open on the cards it held,
        until a column holds a card that throws. `k` is how many were rewritten. */
    method RewriteColumns(tasks: seq<Task>) returns (k: nat)
      requires Valid()
      modifies this`columns, this`openMenus
      ensures k == DrawnColumns(tasks) && |columns| == |STATUSES|
      ensures forall j :: 0 <= j < k ==> columns[j] == Cards(Column(tasks, STATUSES[j]))
      ensures forall j :: k <= j < |STATUSES| ==> columns[j] == old(columns)[j]
      ensures openMenus == old(openMenus) - CardIds(old(columns)[..k])
    {
      k := 0;
      while k < |STATUSES|
        invariant 0 <= k <= DrawnColumns(tasks)
        invariant |columns| == |STATUSES|
        invariant forall j :: 0 <= j < k ==> columns[j] == Cards(Column(tasks, STATUSES[j]))
        invariant forall j :: k <= j < |STATUSES| ==> columns[j] == old(columns)[j]
        invariant openMenus == old(openMenus) - CardIds(old(columns)[..k])
      {
        var column := Column(tasks, STATUSES[k]);
        if !AllDrawable(column) {
          break;
        }
        CardIdsTake(old(columns), k);
        openMenus := openMenus - Ids(columns[k]);
        columns := columns[k := Cards(column)];
        k := k + 1;
      }
    }

    /** `updateBoardHtml`: the containers are rewritten in status order, each from the
        cards of its column; a card that throws stops the handler before its container is
        written and before the empty-column rules. `drawn` says whether all four were
        rewritten. */
    method UpdateBoardHtml(tasks: seq<Task>) returns (drawn: bool)
      requires Valid()
      modifies this`columns, this`noResults, this`openMenus
      ensures Valid()
      ensures drawn <==> DrawnColumns(tasks) == |STATUSES|
      ensures Shown() == Redrawn(old(Shown()), tasks)
    {
      var k := RewriteColumns(tasks);
      if k < |STATUSES| {
        // the card that threw leaves the later containers and the warning as they were
        MenusAfterRewrite(old(columns), columns, old(openMenus), k);
        RedrawnCut(old(Shown()), tasks, columns);
        return false;
      }
      MenusAllRewritten(old(columns), old(openMenus));
      assert columns == Filled(tasks);
      DisplayNoTasks();
      drawn := true;
    }

    /** The drawing shared by `displayTaskCard` and `searchForTasks`: the four containers
        are cleared, the tasks are drawn one by one into the column of their status until a
        card throws, and only when none does the empty-column rules run. */
    method DrawTasks(tasks: seq<Task>) returns (drawn: bool)
      requires Valid()
      modifies this`columns, this`noResults, this`openMenus
      ensures Valid()
      ensures drawn <==> Drawn(tasks) == tasks
      ensures Shown() == Reloaded(old(Shown()), tasks)
    {
      columns := [Cards([]), Cards([]), Cards([]), Cards([])];
      openMenus := {};
      var toDo, inProgress, awaitFeedback, done, n := Partition(tasks);
      columns := [Cards(toDo), Cards(inProgress), Cards(awaitFeedback), Cards(done)];
      if n < |tasks| {
        // a card threw: the empty-column rules do not run
        return false;
      }
      assert Drawn(tasks) == tasks;
      DisplayNoTasks();
      drawn := true;
    }

    /** `displayTaskCard`: refetches the tasks and draws them. (The containers are cleared
        before the fetch there; the fetch reads nothing they hold.) */
    method DisplayTaskCard(store: Store, ls: LocalStorage, server: Server, codec: Codec) returns (drawn: bool)
      requires Valid()
      modifies this`columns, this`noResults, this`openMenus, store`users, store`tasks
      ensures Valid()
      ensures store.users == Keyed(server.users, UserWithId)
      ensures store.tasks == Keyed(Entries(server.tasks, JsText(ResolveUserId(store.users, ls.items, codec))), TaskWithId)
      ensures drawn <==> Drawn(store.tasks) == store.tasks
      ensures Shown() == Reloaded(old(Shown()), store.tasks)
    {
      store.RefreshTasks(ls, server, codec);
      drawn := DrawTasks(store.tasks);
    }

    /** `displayMoveToMenu`: a second click on the same card closes the menu it opened.
        The menu is added inside the card, so for a card that is not shown the handler
        throws and nothing changes. */
    method DisplayMoveToMenu(taskId: string)
      requires Valid()
      modifies this`openMenus
      ensures Valid()
      ensures taskId in old(openMenus) ==> openMenus == old(openMenus) - {taskId}
      ensures taskId !in old(openMenus) && taskId in CardIds(columns) ==> openMenus == old(openMenus) + {taskId}
      ensures taskId !in old(openMenus) && taskId !in CardIds(columns) ==> openMenus == old(openMenus)
    {
      if taskId in openMenus {
        openMenus := openMenus - {taskId};
      } else if taskId in CardIds(columns) {
        openMenus := openMenus + {taskId};
      }
    }

    method CloseMoveToMenu(taskId: string)
      requires Valid()
      modifies this`openMenus
      ensures Valid()
      ensures openMenus == old(openMenus) - {taskId}
    {
      openMenus := openMenus - {taskId};
    }

    method StartDragging(taskId: string)
      modifies this`currentDragged
      ensures currentDragged == Some(taskId)
    {
      currentDragged := Some(taskId);
    }

    /** The body shared by `moveTo` and `moveToClick`. The user id is resolved (with the
        guest account forced once more when `guestLoggedIn` is "true"); if a task has the
        id, it takes the new status and the board is redrawn; only when the redraw does not
        throw is the task PUT under that user. The local change stays either way. With no
        such task nothing but the user cache changes. */
    method Move(store: Store, status: string, taskId: Option<string>, ls: LocalStorage, server: Server, codec: Codec)
      requires Valid()
      modifies this`columns, this`noResults, this`openMenus, store`users, store`tasks, store`writes
      ensures Valid()
      ensures store.users == Keyed(server.users, UserWithId)
      ensures var found := if taskId.Some? then FindTask(old(store.tasks), taskId.value) else None;
              var userId := ResolveUserId(store.users, ls.items, codec);
              match found
              case None =>
                store.tasks == old(store.tasks) && store.writes == old(store.writes) && Shown() == old(Shown())
              case Some(k) =>
                store.tasks == old(store.tasks)[k := old(store.tasks)[k].(status := status)]
                && Shown() == Redrawn(old(Shown()), store.tasks)
                && store.writes == old(store.writes)
                     + (if DrawnColumns(store.tasks) == |STATUSES|
                        then [Write(Put, TaskPath(userId, taskId.value), TaskBody(store.tasks[k]))]
                        else [])
    {
      var userId := store.GetUserId(ls, server, codec);
      if ls.GetItem("guestLoggedIn") == Some("true") {
        userId := Some(GUEST_ID);
      }
      var found := if taskId.Some? then FindTask(store.tasks, taskId.value) else None;
      if found.Some? {
        var k := found.value;
        store.tasks := store.tasks[k := store.tasks[k].(status := status)];
        var drawn := UpdateBoardHtml(store.tasks);
        if drawn {
          store.writes := store.writes + [Write(Put, TaskPath(userId, taskId.value), TaskBody(store.tasks[k]))];
        }
      }
    }

    /** `moveTo`: drops the card being dragged into the column of `status`. */
    method MoveTo(store: Store, status: string, ls: LocalStorage, server: Server, codec: Codec)
      requires Valid()
      modifies this`columns, this`noResults, this`openMenus, store`users, store`tasks, store`writes
      ensures Valid()
      ensures store.users == Keyed(server.users, UserWithId)
      ensures var found := if currentDragged.Some? then FindTask(old(store.tasks), currentDragged.value) else None;
              found.None? ==>
                store.tasks == old(store.tasks) && store.writes == old(store.writes) && Shown() == old(Shown())
      ensures var found := if currentDragged.Some? then FindTask(old(store.tasks), currentDragged.value) else None;
              found.Some? ==>
                store.tasks == old(store.tasks)[found.value := old(store.tasks)[found.value].(status := status)]
                && Shown() == Redrawn(old(Shown()), store.tasks)
                && store.writes == old(store.writes)
                     + (if DrawnColumns(store.tasks) == |STATUSES|
                        then [Write(Put, TaskPath(ResolveUserId(store.users, ls.items, codec), currentDragged.value), TaskBody(store.tasks[found.value]))]
                        else [])
    {
      Move(store, status, currentDragged, ls, server, codec);
    }

    /** `moveToClick`: the same move, chosen from a card's move menu; the throw of a card
        is caught there, with the same effect. */
    method MoveToClick(store: Store, status: string, taskId: string, ls: LocalStorage, server: Server, codec: Codec)
      requires Valid()
      modifies this`columns, this`noResults, this`openMenus, store`users, store`tasks, store`writes
      ensures Valid()
      ensures store.users == Keyed(server.users, UserWithId)
      ensures FindTask(old(store.tasks), taskId).None? ==>
                store.tasks == old(store.tasks) && store.writes == old(store.writes) && Shown() == old(Shown())
      ensures var found := FindTask(old(store.tasks), taskId);
              found.Some? ==>
                store.tasks == old(store.tasks)[found.value := old(store.tasks)[found.value].(status := status)]
                && Shown() == Redrawn(old(Shown()), store.tasks)
                && store.writes == old(store.writes)
                     + (if DrawnColumns(store.tasks) == |STATUSES|
                        then [Write(Put, TaskPath(ResolveUserId(store.users, ls.items, codec), taskId), TaskBody(store.tasks[found.value]))]
                        else [])
    {
      Move(store, status, Some(taskId), ls, server, codec);
    }
  }

  /** Forcing the guest account after `getUserId` adds nothing: the id it resolves is
      already the guest's whenever the guest flag is set. */
  lemma GuestOverrideRedundant(users: seq<User>, items: map<string, string>, codec: Codec)
    ensures (if Lookup(items, "guestLoggedIn") == Some("true") then Some(GUEST_ID) else ResolveUserId(users, items, codec))
            == ResolveUserId(users, items, codec)
  {
  }
}
