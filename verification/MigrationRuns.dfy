/** What any run of migrations and rollbacks keeps, however they fail. */
module MigrationRuns {
  import opened Migrations

  // ---------------------------------------------------------------- downward closed

  /** A registry as sorted() gives it: distinct positive numbers, ascending, every Up function set. */
  predicate Sound(ms: seq<Migration>) {
    Ascending(ms) && forall i :: 0 <= i < |ms| ==> ms[i].num > 0 && ms[i].up
  }

  /** Only registered migrations are recorded, and with each also all before it. */
  predicate Closed(ms: seq<Migration>, recorded: set<int>) {
    && recorded <= Nums(ms)
    && forall i, j :: 0 <= i < j < |ms| && ms[j].num in recorded ==> ms[i].num in recorded
  }

  /** The first k migrations are recorded. */
  ghost predicate FirstRecorded(ms: seq<Migration>, recorded: set<int>, k: nat) {
    k <= |ms| && recorded == Nums(ms[..k])
  }

  lemma InNums(ms: seq<Migration>, k: nat, i: nat)
    requires Ascending(ms) && k <= |ms| && i < |ms|
    ensures ms[i].num in Nums(ms[..k]) <==> i < k
  {
    if i < k {
      assert ms[..k][i].num == ms[i].num;
    }
    if ms[i].num in Nums(ms[..k]) {
      var j :| 0 <= j < k && ms[..k][j].num == ms[i].num;
      assert j == i;
    }
  }

  lemma FirstIsClosed(ms: seq<Migration>, recorded: set<int>, k: nat)
    requires Ascending(ms) && FirstRecorded(ms, recorded, k)
    ensures Closed(ms, recorded)
  {
    forall x | x in recorded ensures x in Nums(ms) {
      var i :| 0 <= i < k && ms[..k][i].num == x;
      assert ms[i].num == x;
    }
    forall i, j | 0 <= i < j < |ms| && ms[j].num in recorded ensures ms[i].num in recorded {
      InNums(ms, k, j);
      InNums(ms, k, i);
    }
  }

  /** Downward closed means: the first k, for some k. */
  lemma ClosedIsFirst(ms: seq<Migration>, recorded: set<int>) returns (k: nat)
    requires Ascending(ms) && Closed(ms, recorded)
    ensures FirstRecorded(ms, recorded, k)
  {
    k := 0;
    while k < |ms| && ms[k].num in recorded
      invariant k <= |ms| && forall i :: 0 <= i < k ==> ms[i].num in recorded
    {
      k := k + 1;
    }
    forall x ensures x in recorded <==> x in Nums(ms[..k]) {
      if x in recorded {
        var i :| 0 <= i < |ms| && ms[i].num == x;
        assert i < k;
        InNums(ms, k, i);
      }
      if x in Nums(ms[..k]) {
        var i :| 0 <= i < k && ms[..k][i].num == x;
        assert ms[i].num in recorded;
      }
    }
  }

  lemma CurrentOfFirst(ms: seq<Migration>, recorded: set<int>, k: nat)
    requires Ascending(ms) && FirstRecorded(ms, recorded, k)
    ensures k == 0 ==> recorded == {} && Current(recorded) == 0
    ensures k > 0 ==> recorded != {} && Current(recorded) == ms[k - 1].num
  {
    if k == 0 {
      assert ms[..0] == [];
    } else {
      InNums(ms, k, k - 1);
      assert IsLast(recorded, ms[k - 1].num) by {
        forall x | x in recorded ensures x <= ms[k - 1].num {
          var i :| 0 <= i < k && ms[..k][i].num == x;
          assert ms[i].num == x;
        }
      }
    }
  }

  // ---------------------------------------------------------------- one run

  /** The first migration from k on that fails. */
  function Stop(ms: seq<Migration>, failing: set<int>, k: nat): (j: nat)
    requires k <= |ms|
    ensures k <= j <= |ms|
    decreases |ms| - k
  {
    if k == |ms| || ms[k].num in failing then k else Stop(ms, failing, k + 1)
  }

  function Ups(ms: seq<Migration>, k: nat, j: nat): seq<Action>
    requires k <= j <= |ms|
    decreases j - k
  {
    if k == j then [] else [Up(ms[k].num)] + Ups(ms, k + 1, j)
  }

  lemma {:induction false} SkipRecorded(ms: seq<Migration>, i: nat, k: nat, failing: set<int>, d: Database)
    requires Ascending(ms) && i <= k <= |ms| && k > 0
    ensures RunFrom(ms[i..], ms[k - 1].num, failing, d) == RunFrom(ms[k..], ms[k - 1].num, failing, d)
    decreases k - i
  {
    if i < k {
      assert ms[i..][1..] == ms[i + 1..];
      SkipRecorded(ms, i + 1, k, failing, d);
    }
  }

  lemma {:induction false} RunRest(ms: seq<Migration>, k: nat, current: int, failing: set<int>, d: Database)
    requires Sound(ms) && k <= |ms| && FirstRecorded(ms, d.recorded, k)
    requires forall i :: k <= i < |ms| ==> ms[i].num > current
    ensures var j := Stop(ms, failing, k);
      RunFrom(ms[k..], current, failing, d) == (Database(Nums(ms[..j]), d.actions + Ups(ms, k, j)), j == |ms|)
    decreases |ms| - k
  {
    if k == |ms| || ms[k].num in failing {
      assert d.actions + [] == d.actions;
    } else {
      assert ms[k..][1..] == ms[k + 1..];
      NumsGrow(ms, k);
      var d1 := Database(d.recorded + {ms[k].num}, d.actions + [Up(ms[k].num)]);
      RunRest(ms, k + 1, current, failing, d1);
      var j := Stop(ms, failing, k);
      assert d1.actions + Ups(ms, k + 1, j) == d.actions + Ups(ms, k, j);
    }
  }

  /** A run on a table that is not empty applies what comes next, in order, up to the first that fails. */
  lemma RunApplies(ms: seq<Migration>, k: nat, failing: set<int>, bootOk: bool, d: Database)
    requires Sound(ms) && 0 < k <= |ms| && FirstRecorded(ms, d.recorded, k)
    ensures var j := Stop(ms, failing, k);
      Migrated(ms, failing, bootOk, d) == (Database(Nums(ms[..j]), d.actions + Ups(ms, k, j)), j == |ms|)
  {
    CurrentOfFirst(ms, d.recorded, k);
    assert ms[0..] == ms;
    SkipRecorded(ms, 0, k, failing, d);
    RunRest(ms, k, ms[k - 1].num, failing, d);
  }

  lemma RollbackRemoves(ms: seq<Migration>, k: nat, downOk: bool, d: Database)
    requires Sound(ms) && 0 < k <= |ms| && FirstRecorded(ms, d.recorded, k)
    ensures RolledBack(ms, downOk, d) ==
            if ms[k - 1].down && downOk then (Database(Nums(ms[..k - 1]), d.actions + [Down(ms[k - 1].num)]), true)
            else (d, false)
  {
    CurrentOfFirst(ms, d.recorded, k);
    NumsGrow(ms, k - 1);
    InNums(ms, k - 1, k - 1);
    assert Nums(ms[..k]) - {ms[k - 1].num} == Nums(ms[..k - 1]);
    assert HasDown(ms, ms[k - 1].num) <==> ms[k - 1].down;
  }

  // ---------------------------------------------------------------- any history

  /** One call of the runner: which migrations fail, whether the bootstrap or the Down succeeds. */
  datatype Op = Migrate(failing: set<int>, bootOk: bool) | Rollback(downOk: bool)

  function AfterOp(ms: seq<Migration>, d: Database, op: Op): Database {
    match op
    case Migrate(failing, bootOk) => Migrated(ms, failing, bootOk, d).0
    case Rollback(downOk) => RolledBack(ms, downOk, d).0
  }

  function AfterOps(ms: seq<Migration>, d: Database, ops: seq<Op>): Database
    decreases |ops|
  {
    if ops == [] then d else AfterOps(ms, AfterOp(ms, d, ops[0]), ops[1..])
  }

  lemma OpKeepsClosed(ms: seq<Migration>, d: Database, op: Op)
    requires Sound(ms) && Closed(ms, d.recorded)
    ensures Closed(ms, AfterOp(ms, d, op).recorded)
  {
    var k := ClosedIsFirst(ms, d.recorded);
    CurrentOfFirst(ms, d.recorded, k);
    match op {
      case Migrate(failing, bootOk) =>
        if k > 0 {
          RunApplies(ms, k, failing, bootOk, d);
          FirstIsClosed(ms, AfterOp(ms, d, op).recorded, Stop(ms, failing, k));
        }
      case Rollback(downOk) =>
        if k > 0 {
          RollbackRemoves(ms, k, downOk, d);
          FirstIsClosed(ms, Nums(ms[..k - 1]), k - 1);
        }
    }
  }

  /** Whatever fails in between, the recorded migrations stay downward closed. */
  lemma {:induction false} HistoryKeepsClosed(ms: seq<Migration>, d: Database, ops: seq<Op>)
    requires Sound(ms) && Closed(ms, d.recorded)
    ensures Closed(ms, AfterOps(ms, d, ops).recorded)
    decreases |ops|
  {
    if ops != [] {
      OpKeepsClosed(ms, d, ops[0]);
      HistoryKeepsClosed(ms, AfterOp(ms, d, ops[0]), ops[1..]);
    }
  }

  // ---------------------------------------------------------------- what has been done explains what is recorded

  /**
   An action fits the recorded migrations: the schema is created on an empty table, Up is the next
   one, Down the last.
   */
  predicate Legal(ms: seq<Migration>, recorded: set<int>, a: Action) {
    match a
    case Created => recorded == {}
    case Up(num) =>
      && num in Nums(ms) && num !in recorded
      && forall i :: 0 <= i < |ms| && ms[i].num < num ==> ms[i].num in recorded
    case Down(num) => IsLast(recorded, num)
  }

  function Done(ms: seq<Migration>, recorded: set<int>, a: Action): set<int> {
    match a
    case Created => Nums(ms)
    case Up(num) => recorded + {num}
    case Down(num) => recorded - {num}
  }

  predicate AllLegal(ms: seq<Migration>, recorded: set<int>, actions: seq<Action>)
    decreases |actions|
  {
    actions != [] ==> Legal(ms, recorded, actions[0]) && AllLegal(ms, Done(ms, recorded, actions[0]), actions[1..])
  }

  function AllDone(ms: seq<Migration>, recorded: set<int>, actions: seq<Action>): set<int>
    decreases |actions|
  {
    if actions == [] then recorded else AllDone(ms, Done(ms, recorded, actions[0]), actions[1..])
  }

  lemma {:induction false} LegalAppend(ms: seq<Migration>, recorded: set<int>, a: seq<Action>, b: seq<Action>)
    requires AllLegal(ms, recorded, a) && AllLegal(ms, AllDone(ms, recorded, a), b)
    ensures AllLegal(ms, recorded, a + b) && AllDone(ms, recorded, a + b) == AllDone(ms, AllDone(ms, recorded, a), b)
    decreases |a|
  {
    if a == [] {
      assert a + b == b;
    } else {
      LegalAppend(ms, Done(ms, recorded, a[0]), a[1..], b);
      assert (a + b)[1..] == a[1..] + b;
    }
  }

  lemma {:induction false} UpsAreLegal(ms: seq<Migration>, k: nat, j: nat)
    requires Ascending(ms) && k <= j <= |ms|
    ensures AllLegal(ms, Nums(ms[..k]), Ups(ms, k, j)) && AllDone(ms, Nums(ms[..k]), Ups(ms, k, j)) == Nums(ms[..j])
    decreases j - k
  {
    if k < j {
      NextUpIsLegal(ms, k);
      NumsGrow(ms, k);
      UpsAreLegal(ms, k + 1, j);
      assert Ups(ms, k, j)[1..] == Ups(ms, k + 1, j);
    }
  }

  lemma NextUpIsLegal(ms: seq<Migration>, k: nat)
    requires Ascending(ms) && k < |ms|
    ensures Legal(ms, Nums(ms[..k]), Up(ms[k].num))
  {
    InNums(ms, k, k);
    forall i | 0 <= i < |ms| && ms[i].num < ms[k].num ensures ms[i].num in Nums(ms[..k]) {
      InNums(ms, k, i);
    }
  }

  /** What one call adds to the actions done. */
  lemma OpIsLegal(ms: seq<Migration>, d: Database, op: Op) returns (added: seq<Action>)
    requires Sound(ms) && Closed(ms, d.recorded)
    ensures var n := AfterOp(ms, d, op);
      n.actions == d.actions + added && AllLegal(ms, d.recorded, added) && n.recorded == AllDone(ms, d.recorded, added)
  {
    var k := ClosedIsFirst(ms, d.recorded);
    CurrentOfFirst(ms, d.recorded, k);
    var n := AfterOp(ms, d, op);
    added := [];
    match op {
      case Migrate(failing, bootOk) =>
        if k > 0 {
          RunApplies(ms, k, failing, bootOk, d);
          added := Ups(ms, k, Stop(ms, failing, k));
          UpsAreLegal(ms, k, Stop(ms, failing, k));
        } else if bootOk {
          added := [Created];
          assert added[1..] == [];
        }
      case Rollback(downOk) =>
        if k > 0 {
          RollbackRemoves(ms, k, downOk, d);
          if ms[k - 1].down && downOk {
            added := [Down(ms[k - 1].num)];
            assert added[1..] == [];
            LastOfFirst(ms, d.recorded, k);
            NumsGrow(ms, k - 1);
            InNums(ms, k - 1, k - 1);
            assert n.recorded == d.recorded - {ms[k - 1].num};
          }
        }
    }
    assert d.actions + [] == d.actions;
  }

  lemma LastOfFirst(ms: seq<Migration>, recorded: set<int>, k: nat)
    requires Ascending(ms) && 0 < k && FirstRecorded(ms, recorded, k)
    ensures IsLast(recorded, ms[k - 1].num)
  {
    InNums(ms, k, k - 1);
    forall x | x in recorded ensures x <= ms[k - 1].num {
      var i :| 0 <= i < k && ms[..k][i].num == x;
      assert ms[i].num == x;
    }
  }

  /**
   Over any history the actions done fit each other and add up to what is recorded: every Up is
   committed on a migration that is not recorded, with all before it recorded.
   */
  lemma {:induction false} HistoryIsLegal(ms: seq<Migration>, d: Database, ops: seq<Op>) returns (added: seq<Action>)
    requires Sound(ms) && Closed(ms, d.recorded)
    ensures var n := AfterOps(ms, d, ops);
      n.actions == d.actions + added && AllLegal(ms, d.recorded, added) && n.recorded == AllDone(ms, d.recorded, added)
    decreases |ops|
  {
    added := [];
    if ops == [] {
      assert d.actions + [] == d.actions;
    } else {
      var first := OpIsLegal(ms, d, ops[0]);
      OpKeepsClosed(ms, d, ops[0]);
      var d1 := AfterOp(ms, d, ops[0]);
      var rest := HistoryIsLegal(ms, d1, ops[1..]);
      LegalAppend(ms, d.recorded, first, rest);
      added := first + rest;
      assert d.actions + added == d.actions + first + rest;
    }
  }

  lemma {:induction false} StaysRecorded(ms: seq<Migration>, recorded: set<int>, actions: seq<Action>, num: int, j: nat)
    requires AllLegal(ms, recorded, actions) && num in recorded && j < |actions| && actions[j] == Up(num)
    ensures exists i :: 0 <= i < j && actions[i] == Down(num)
    decreases |actions|
  {
    assert j > 0;
    if actions[0] != Down(num) {
      StaysRecorded(ms, Done(ms, recorded, actions[0]), actions[1..], num, j - 1);
      var i :| 0 <= i < j - 1 && actions[1..][i] == Down(num);
      assert actions[i + 1] == Down(num);
    }
  }

  /** Between two commits of the same Up lies its Down: once per cycle, and never on top of the bootstrap. */
  lemma {:induction false} UpOncePerCycle(ms: seq<Migration>, recorded: set<int>, actions: seq<Action>,
                                          i: nat, j: nat, num: int)
    requires AllLegal(ms, recorded, actions) && i < j < |actions|
    requires actions[i] == Up(num) && actions[j] == Up(num)
    ensures exists m :: i < m < j && actions[m] == Down(num)
    decreases |actions|
  {
    var rest := actions[1..];
    var next := Done(ms, recorded, actions[0]);
    if i == 0 {
      StaysRecorded(ms, next, rest, num, j - 1);
      var m :| 0 <= m < j - 1 && rest[m] == Down(num);
      assert actions[m + 1] == Down(num);
    } else {
      UpOncePerCycle(ms, next, rest, i - 1, j - 1, num);
      var m :| i - 1 < m < j - 1 && rest[m] == Down(num);
      assert actions[m + 1] == Down(num);
    }
  }

  // ---------------------------------------------------------------- resuming

  lemma {:induction false} NothingStops(ms: seq<Migration>, k: nat)
    requires k <= |ms|
    ensures Stop(ms, {}, k) == |ms|
    decreases |ms| - k
  {
    if k < |ms| {
      NothingStops(ms, k + 1);
    }
  }

  lemma {:induction false} UpsJoin(ms: seq<Migration>, k: nat, j: nat)
    requires k <= j <= |ms|
    ensures Ups(ms, k, j) + Ups(ms, j, |ms|) == Ups(ms, k, |ms|)
    decreases j - k
  {
    if k < j {
      UpsJoin(ms, k + 1, j);
      var one, first, rest := [Up(ms[k].num)], Ups(ms, k + 1, j), Ups(ms, j, |ms|);
      assert (one + first) + rest == one + (first + rest);
    } else {
      assert [] + Ups(ms, k, |ms|) == Ups(ms, k, |ms|);
    }
  }

  lemma UpsFollow(ms: seq<Migration>, actions: seq<Action>, k: nat, j: nat)
    requires k <= j <= |ms|
    ensures (actions + Ups(ms, k, j)) + Ups(ms, j, |ms|) == actions + Ups(ms, k, |ms|)
  {
    UpsJoin(ms, k, j);
    var first, rest := Ups(ms, k, j), Ups(ms, j, |ms|);
    assert (actions + first) + rest == actions + (first + rest);
  }

  /** A run without failures applies all that is left. */
  lemma CleanRun(ms: seq<Migration>, d: Database, k: nat)
    requires Sound(ms) && 0 < k && FirstRecorded(ms, d.recorded, k)
    ensures Migrated(ms, {}, true, d) == (Database(Nums(ms), d.actions + Ups(ms, k, |ms|)), true)
  {
    RunApplies(ms, k, {}, true, d);
    NothingStops(ms, k);
    assert ms[..|ms|] == ms;
  }

  lemma ResumesFrom(ms: seq<Migration>, failing: set<int>, bootOk: bool, d: Database, k: nat)
    requires Sound(ms) && 0 < k && FirstRecorded(ms, d.recorded, k)
    ensures Migrated(ms, {}, true, Migrated(ms, failing, bootOk, d).0) == Migrated(ms, {}, true, d)
  {
    var j := Stop(ms, failing, k);
    RunApplies(ms, k, failing, bootOk, d);
    var d1 := Migrated(ms, failing, bootOk, d).0;
    CleanRun(ms, d1, j);
    CleanRun(ms, d, k);
    UpsFollow(ms, d.actions, k, j);
  }

  /** A run that was interrupted and a second one without failures do together what one run without failures does. */
  lemma RunResumes(ms: seq<Migration>, failing: set<int>, bootOk: bool, d: Database)
    requires Sound(ms) && ms != [] && Closed(ms, d.recorded)
    ensures Migrated(ms, {}, true, Migrated(ms, failing, bootOk, d).0) == Migrated(ms, {}, true, d)
  {
    var k := ClosedIsFirst(ms, d.recorded);
    CurrentOfFirst(ms, d.recorded, k);
    if k > 0 {
      ResumesFrom(ms, failing, bootOk, d, k);
    } else if bootOk {
      var d1 := Migrated(ms, failing, bootOk, d).0;
      assert ms[..|ms|] == ms;
      RunApplies(ms, |ms|, {}, true, d1);
      CurrentOfFirst(ms, d1.recorded, |ms|);
      assert d1.actions + [] == d1.actions;
    }
  }

  // ---------------------------------------------------------------- the check

  lemma UpToDateWhenAll(ms: seq<Migration>, d: Database, k: nat)
    requires Sound(ms) && FirstRecorded(ms, d.recorded, k)
    ensures UpToDate(ms, d) <==> k == |ms|
  {
    CurrentOfFirst(ms, d.recorded, k);
    if k < |ms| {
      assert ms[k].num > Current(d.recorded);
    }
  }

  /** The check passes exactly when a run would do nothing; for a registry that is not empty. */
  lemma CheckPassesWhenNothingToDo(ms: seq<Migration>, d: Database)
    requires Sound(ms) && ms != [] && Closed(ms, d.recorded)
    ensures UpToDate(ms, d) <==> Migrated(ms, {}, true, d).0 == d
  {
    var k := ClosedIsFirst(ms, d.recorded);
    UpToDateWhenAll(ms, d, k);
    CurrentOfFirst(ms, d.recorded, k);
    if k > 0 {
      RunApplies(ms, k, {}, true, d);
      NothingStops(ms, k);
      if k < |ms| {
        assert Ups(ms, k, |ms|) != [];
      } else {
        assert Ups(ms, k, k) == [] && d.actions + [] == d.actions;
      }
    } else {
      assert |d.actions + [Created]| > |d.actions|;
    }
  }

  /** A run that reports success leaves a schema that the check passes. */
  lemma SuccessPassesCheck(ms: seq<Migration>, failing: set<int>, bootOk: bool, d: Database)
    requires Sound(ms) && Closed(ms, d.recorded) && Migrated(ms, failing, bootOk, d).1
    ensures UpToDate(ms, Migrated(ms, failing, bootOk, d).0)
  {
    var k := ClosedIsFirst(ms, d.recorded);
    CurrentOfFirst(ms, d.recorded, k);
    assert ms[..|ms|] == ms;
    if k > 0 {
      RunApplies(ms, k, failing, bootOk, d);
    }
    UpToDateWhenAll(ms, Migrated(ms, failing, bootOk, d).0, |ms|);
  }

  // ---------------------------------------------------------------- nothing is recorded without being run

  /** Every migration that the run records has had its Up function run. */
  predicate RanWhatItRecorded(d: Database, n: Database) {
    && d.actions <= n.actions
    && forall num :: num in n.recorded && num !in d.recorded ==> Up(num) in n.actions[|d.actions|..]
  }

  lemma {:induction false} UpsHold(ms: seq<Migration>, k: nat, j: nat, i: nat)
    requires k <= i < j <= |ms|
    ensures Up(ms[i].num) in Ups(ms, k, j)
    decreases j - k
  {
    if k < i {
      UpsHold(ms, k + 1, j, i);
      assert Ups(ms, k, j) == [Up(ms[k].num)] + Ups(ms, k + 1, j);
    }
  }

  /**
   A run runs what it records, but for the first: that one creates the whole schema and records every
   migration for it.
   */
  lemma RunsUnlessFirst(ms: seq<Migration>, d: Database)
    requires Sound(ms) && ms != [] && Closed(ms, d.recorded)
    ensures RanWhatItRecorded(d, Migrated(ms, {}, true, d).0) <==> d.recorded != {}
  {
    var k := ClosedIsFirst(ms, d.recorded);
    CurrentOfFirst(ms, d.recorded, k);
    var n := Migrated(ms, {}, true, d).0;
    if k > 0 {
      RunApplies(ms, k, {}, true, d);
      NothingStops(ms, k);
      assert n.actions[|d.actions|..] == Ups(ms, k, |ms|);
      forall num | num in n.recorded && num !in d.recorded ensures Up(num) in n.actions[|d.actions|..] {
        var i :| 0 <= i < |ms| && ms[..|ms|][i].num == num;
        InNums(ms, k, i);
        UpsHold(ms, k, |ms|, i);
      }
    } else {
      assert ms[0].num in n.recorded;
      assert n.actions[|d.actions|..] == [Created];
    }
  }

  /** The first migration has no Down function, as that of the initial schema has none. */
  predicate FirstStays(ms: seq<Migration>) {
    ms != [] && !ms[0].down
  }

  lemma FirstNotEmpty(ms: seq<Migration>, recorded: set<int>, k: nat)
    requires Ascending(ms) && FirstRecorded(ms, recorded, k) && k > 0
    ensures recorded != {}
  {
    InNums(ms, k, 0);
  }

  lemma OpKeepsSome(ms: seq<Migration>, d: Database, op: Op)
    requires Sound(ms) && FirstStays(ms) && Closed(ms, d.recorded) && d.recorded != {}
    ensures AfterOp(ms, d, op).recorded != {}
  {
    var k := ClosedIsFirst(ms, d.recorded);
    CurrentOfFirst(ms, d.recorded, k);
    var n := AfterOp(ms, d, op);
    match op {
      case Migrate(failing, bootOk) =>
        RunApplies(ms, k, failing, bootOk, d);
        FirstNotEmpty(ms, n.recorded, Stop(ms, failing, k));
      case Rollback(downOk) =>
        RollbackRemoves(ms, k, downOk, d);
        if k > 1 && ms[k - 1].down && downOk {
          FirstNotEmpty(ms, n.recorded, k - 1);
        }
    }
  }

  /** Once a migration has been recorded, no history empties the table again. */
  lemma {:induction false} NeverEmptied(ms: seq<Migration>, d: Database, ops: seq<Op>)
    requires Sound(ms) && FirstStays(ms) && Closed(ms, d.recorded) && d.recorded != {}
    ensures AfterOps(ms, d, ops).recorded != {}
    decreases |ops|
  {
    if ops != [] {
      OpKeepsClosed(ms, d, ops[0]);
      OpKeepsSome(ms, d, ops[0]);
      NeverEmptied(ms, AfterOp(ms, d, ops[0]), ops[1..]);
    }
  }

  lemma {:induction false} WithoutBootstrap(ms: seq<Migration>, recorded: set<int>, actions: seq<Action>, num: int)
    requires AllLegal(ms, recorded, actions) && Created !in actions
    requires num in AllDone(ms, recorded, actions) && num !in recorded
    ensures Up(num) in actions
    decreases |actions|
  {
    if actions != [] && actions[0] != Up(num) {
      WithoutBootstrap(ms, Done(ms, recorded, actions[0]), actions[1..], num);
    }
  }

  lemma {:induction false} UpsOnly(ms: seq<Migration>, k: nat, j: nat)
    requires k <= j <= |ms|
    ensures Created !in Ups(ms, k, j)
    decreases j - k
  {
    if k < j {
      UpsOnly(ms, k + 1, j);
    }
  }

  lemma OpAddsNoBootstrap(ms: seq<Migration>, d: Database, op: Op, added: seq<Action>)
    requires Sound(ms) && Closed(ms, d.recorded) && d.recorded != {}
    requires AfterOp(ms, d, op).actions == d.actions + added
    ensures Created !in added
  {
    var k := ClosedIsFirst(ms, d.recorded);
    CurrentOfFirst(ms, d.recorded, k);
    assert AfterOp(ms, d, op).actions[|d.actions|..] == added;
    match op {
      case Migrate(failing, bootOk) =>
        RunApplies(ms, k, failing, bootOk, d);
        UpsOnly(ms, k, Stop(ms, failing, k));
        assert (d.actions + Ups(ms, k, Stop(ms, failing, k)))[|d.actions|..] == Ups(ms, k, Stop(ms, failing, k));
      case Rollback(downOk) =>
        RollbackRemoves(ms, k, downOk, d);
    }
  }

  lemma InTurn(before: seq<Action>, first: seq<Action>, rest: seq<Action>)
    ensures before + (first + rest) == (before + first) + rest
    ensures Created !in first && Created !in rest ==> Created !in first + rest
  {
  }

  lemma {:induction false} HistoryAddsNoBootstrap(ms: seq<Migration>, d: Database, ops: seq<Op>)
    returns (added: seq<Action>)
    requires Sound(ms) && FirstStays(ms) && Closed(ms, d.recorded) && d.recorded != {}
    ensures var n := AfterOps(ms, d, ops);
      n.actions == d.actions + added && AllLegal(ms, d.recorded, added) && n.recorded == AllDone(ms, d.recorded, added)
    ensures Created !in added
    decreases |ops|
  {
    added := [];
    if ops == [] {
      assert d.actions + [] == d.actions;
    } else {
      var first := OpIsLegal(ms, d, ops[0]);
      OpAddsNoBootstrap(ms, d, ops[0], first);
      OpKeepsClosed(ms, d, ops[0]);
      OpKeepsSome(ms, d, ops[0]);
      var d1 := AfterOp(ms, d, ops[0]);
      var rest := HistoryAddsNoBootstrap(ms, d1, ops[1..]);
      LegalAppend(ms, d.recorded, first, rest);
      added := first + rest;
      InTurn(d.actions, first, rest);
    }
  }

  /** Hence everything that is recorded after the first bootstrap has been run, whatever fails and is rolled back. */
  lemma HistoryRunsWhatItRecords(ms: seq<Migration>, d: Database, ops: seq<Op>)
    requires Sound(ms) && FirstStays(ms) && Closed(ms, d.recorded) && d.recorded != {}
    ensures RanWhatItRecorded(d, AfterOps(ms, d, ops))
  {
    var added := HistoryAddsNoBootstrap(ms, d, ops);
    var n := AfterOps(ms, d, ops);
    assert n.actions[|d.actions|..] == added;
    forall num | num in n.recorded && num !in d.recorded ensures Up(num) in added {
      WithoutBootstrap(ms, d.recorded, added, num);
    }
  }

  /** Rolling back and running again restores what was recorded, and runs the Up of what was rolled back. */
  lemma RunUndoesRollback(ms: seq<Migration>, d: Database)
    requires Sound(ms) && d.recorded == Nums(ms) && |ms| >= 2 && ms[|ms| - 1].down
    ensures var last := ms[|ms| - 1].num;
      Migrated(ms, {}, true, RolledBack(ms, true, d).0).0 == Database(d.recorded, d.actions + [Down(last), Up(last)])
  {
    var k := |ms|;
    assert ms[..k] == ms;
    RollbackRemoves(ms, k, true, d);
    var d1 := RolledBack(ms, true, d).0;
    RunApplies(ms, k - 1, {}, true, d1);
    NothingStops(ms, k - 1);
    assert Ups(ms, k - 1, k) == [Up(ms[k - 1].num)] + Ups(ms, k, k);
    var last := ms[k - 1].num;
    assert d.actions + [Down(last)] + [Up(last)] == d.actions + [Down(last), Up(last)];
  }
}
