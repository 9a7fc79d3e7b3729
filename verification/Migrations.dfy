/**
 The migration runner of pkg/db/migrations/migrations.go: the registry, the table schema_migrations
 and the steps that change both, each in a transaction of its own.
 */
module Migrations {
  import opened FiniteSets

  /** A registered migration; up and down say which of its functions are not nil. */
  datatype Migration = Migration(num: int, up: bool, down: bool)

  /** What a committed transaction has done to the schema. */
  datatype Action = Created | Up(num: int) | Down(num: int)

  /** The numbers in schema_migrations, and what has been done so far. */
  datatype Database = Database(recorded: set<int>, actions: seq<Action>)

  function Nums(ms: seq<Migration>): set<int> {
    set i | 0 <= i < |ms| :: ms[i].num
  }

  predicate Ascending(ms: seq<Migration>) {
    forall i, j :: 0 <= i < j < |ms| ==> ms[i].num < ms[j].num
  }

  // ---------------------------------------------------------------- the registry

  predicate Registered(ms: seq<Migration>, num: int) {
    exists i :: 0 <= i < |ms| && ms[i].num == num
  }

  predicate DistinctNums(ms: seq<Migration>) {
    forall i, j :: 0 <= i < j < |ms| ==> ms[i].num != ms[j].num
  }

  /** Puts a migration in its place. */
  function Insert(m: Migration, ms: seq<Migration>): seq<Migration> {
    if ms == [] || m.num <= ms[0].num then [m] + ms else [ms[0]] + Insert(m, ms[1..])
  }

  /** sort.Slice by number. */
  function Sort(ms: seq<Migration>): seq<Migration> {
    if ms == [] then [] else Insert(ms[0], Sort(ms[1..]))
  }

  lemma {:induction false} InsertAdds(m: Migration, ms: seq<Migration>)
    ensures multiset(Insert(m, ms)) == multiset(ms) + multiset{m}
  {
    if !(ms == [] || m.num <= ms[0].num) {
      InsertAdds(m, ms[1..]);
      assert ms == [ms[0]] + ms[1..];
    }
  }

  lemma {:induction false} SortPermutes(ms: seq<Migration>)
    ensures multiset(Sort(ms)) == multiset(ms)
  {
    if ms != [] {
      SortPermutes(ms[1..]);
      InsertAdds(ms[0], Sort(ms[1..]));
      assert ms == [ms[0]] + ms[1..];
    }
  }

  lemma {:induction false} InsertKeepsOrder(m: Migration, ms: seq<Migration>)
    requires Ascending(ms) && (forall i :: 0 <= i < |ms| ==> ms[i].num != m.num)
    ensures Ascending(Insert(m, ms))
  {
    if ms != [] && m.num > ms[0].num {
      var rest := Insert(m, ms[1..]);
      InsertKeepsOrder(m, ms[1..]);
      InsertAdds(m, ms[1..]);
      forall i | 0 <= i < |rest| ensures ms[0].num < rest[i].num {
        assert rest[i] in multiset(rest);
        assert rest[i] == m || rest[i] in ms[1..];
      }
    }
  }

  /** A registry of distinct numbers is put in strictly ascending order, nothing lost. */
  lemma {:induction false} SortedIsAscending(ms: seq<Migration>)
    requires DistinctNums(ms)
    ensures Ascending(Sort(ms))
  {
    if ms != [] {
      SortedIsAscending(ms[1..]);
      SortPermutes(ms[1..]);
      var rest := Sort(ms[1..]);
      forall i | 0 <= i < |rest| ensures rest[i].num != ms[0].num {
        assert rest[i] in multiset(rest);
        assert rest[i] in ms[1..];
      }
      InsertKeepsOrder(ms[0], rest);
    }
  }

  // ---------------------------------------------------------------- the steps, as functions

  predicate IsLast(recorded: set<int>, num: int) {
    num in recorded && forall x :: x in recorded ==> x <= num
  }

  lemma HasLast(recorded: set<int>)
    requires recorded != {}
    ensures exists num :: IsLast(recorded, num)
  {
    var num := HasMaximum(recorded, (x: int) => x);
    assert IsLast(recorded, num);
  }

  /** COALESCE(MAX(num), 0) */
  function Current(recorded: set<int>): int {
    if recorded == {} then 0
    else
      HasLast(recorded);
      var num :| IsLast(recorded, num);
      num
  }

  /** The loop of RunMigrations over the sorted migrations; the transactions of the failing ones do not commit. */
  function RunFrom(ms: seq<Migration>, current: int, failing: set<int>, d: Database): (Database, bool)
    decreases |ms|
  {
    if ms == [] then (d, true)
    else if ms[0].num <= current || !ms[0].up then RunFrom(ms[1..], current, failing, d)
    else if ms[0].num in failing then (d, false)
    else RunFrom(ms[1..], current, failing, Database(d.recorded + {ms[0].num}, d.actions + [Up(ms[0].num)]))
  }

  /**
   Without any record the whole schema is created as it is after the last migration, and every
   migration is recorded with it. bootOk says whether that succeeds; where tables of the schema are
   there already it does not.
   */
  function Migrated(ms: seq<Migration>, failing: set<int>, bootOk: bool, d: Database): (Database, bool) {
    if d.recorded == {} then
      if bootOk then (Database(Nums(ms), d.actions + [Created]), true) else (d, false)
    else RunFrom(ms, Current(d.recorded), failing, d)
  }

  predicate HasDown(ms: seq<Migration>, num: int) {
    exists i :: 0 <= i < |ms| && ms[i].num == num && ms[i].down
  }

  function RolledBack(ms: seq<Migration>, downOk: bool, d: Database): (Database, bool) {
    var current := Current(d.recorded);
    if current != 0 && HasDown(ms, current) && downOk then
      (Database(d.recorded - {current}, d.actions + [Down(current)]), true)
    else (d, false)
  }

  predicate UpToDate(ms: seq<Migration>, d: Database) {
    forall i :: 0 <= i < |ms| ==> ms[i].num <= Current(d.recorded)
  }

  // ---------------------------------------------------------------- the steps, in place

  class Migrator {
    var registered: seq<Migration>
    var recorded: set<int>
    var actions: seq<Action>

    ghost function Contents(): Database
      reads this
    {
      Database(recorded, actions)
    }

    constructor ()
      ensures registered == [] && Contents() == Database({}, [])
    {
      registered, recorded, actions := [], {}, [];
    }

    /** Registers a migration under a new number; a number taken already is a panic. */
    method Register(num: int, up: bool, down: bool) returns (ok: bool)
      modifies this`registered
      ensures ok <==> !Registered(old(registered), num)
      ensures registered == if ok then old(registered) + [Migration(num, up, down)] else old(registered)
      ensures DistinctNums(old(registered)) ==> DistinctNums(registered)
    {
      for i := 0 to |registered|
        invariant forall j :: 0 <= j < i ==> registered[j].num != num
      {
        if registered[i].num == num {
          return false;
        }
      }
      registered := registered + [Migration(num, up, down)];
      return true;
    }

    /** Creates the schema and records every migration, all in one transaction. */
    method Bootstrap(bootOk: bool) returns (ok: bool)
      requires recorded == {}
      modifies this`recorded, this`actions
      ensures (Contents(), ok) == Migrated(Sort(registered), {}, bootOk, old(Contents()))
    {
      var saved := recorded;
      var ms := Sort(registered);
      for i := 0 to |ms|
        invariant recorded == Nums(ms[..i]) && actions == old(actions)
      {
        recorded := recorded + {ms[i].num};
        NumsGrow(ms, i);
      }
      assert ms[..|ms|] == ms;
      if !bootOk {
        recorded := saved;
        return false;
      }
      actions := actions + [Created];
      return true;
    }

    method RunMigrations(failing: set<int>, bootOk: bool) returns (ok: bool)
      modifies this`recorded, this`actions
      ensures (Contents(), ok) == Migrated(Sort(registered), failing, bootOk, old(Contents()))
    {
      if recorded == {} {
        ok := Bootstrap(bootOk);
        return;
      }
      var current := Current(recorded);
      var ms := Sort(registered);
      for i := 0 to |ms|
        invariant RunFrom(ms[i..], current, failing, Contents()) == RunFrom(ms, current, failing, old(Contents()))
      {
        assert ms[i..][1..] == ms[i + 1..];
        if ms[i].num <= current {
          continue;
        }
        if !ms[i].up {
          continue;
        }
        if ms[i].num in failing {
          return false;
        }
        recorded := recorded + {ms[i].num};
        actions := actions + [Up(ms[i].num)];
      }
      return true;
    }

    method Rollback(downOk: bool) returns (ok: bool)
      requires DistinctNums(registered)
      modifies this`recorded, this`actions
      ensures (Contents(), ok) == RolledBack(Sort(registered), downOk, old(Contents()))
    {
      var current := Current(recorded);
      if current == 0 {
        return false;
      }
      var ms := Sort(registered);
      SortedIsAscending(registered);
      var i := 0;
      while i < |ms| && ms[i].num != current
        invariant 0 <= i <= |ms|
        invariant forall j :: 0 <= j < i ==> ms[j].num != current
      {
        i := i + 1;
      }
      if i == |ms| || !ms[i].down || !downOk {
        return false;
      }
      recorded := recorded - {current};
      actions := actions + [Down(current)];
      return true;
    }

    method CheckSchemaVersion() returns (ok: bool, pending: nat)
      ensures ok == (pending == 0) == UpToDate(Sort(registered), Contents())
    {
      var current := Current(recorded);
      var ms := Sort(registered);
      pending := 0;
      for i := 0 to |ms|
        invariant pending == 0 <==> forall j :: 0 <= j < i ==> ms[j].num <= current
      {
        if ms[i].num > current {
          pending := pending + 1;
        }
      }
      ok := pending == 0;
    }
  }

  lemma NumsGrow(ms: seq<Migration>, i: nat)
    requires i < |ms|
    ensures Nums(ms[..i + 1]) == Nums(ms[..i]) + {ms[i].num}
  {
    forall x ensures x in Nums(ms[..i + 1]) <==> x in Nums(ms[..i]) + {ms[i].num} {
      if x in Nums(ms[..i]) {
        var j :| 0 <= j < i && ms[..i][j].num == x;
        assert ms[..i + 1][j].num == x;
      }
      if x == ms[i].num {
        assert ms[..i + 1][i].num == x;
      }
    }
  }
}
