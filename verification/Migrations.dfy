/**
 The migration runner as a transactional state machine: runs over a fixed directory, cut off by failures
 and crashes at any point, and interleaved with one another.
 */
module Migrations {
  import opened Basics
  import opened NameOrder

  // ---------------------------------------------------------------------------------- discovery

  predicate EndsWith(s: string, suffix: string) {
    |suffix| <= |s| && s[|s| - |suffix|..] == suffix
  }

  predicate IsMigration(name: string) {
    EndsWith(name, ".sql") && !EndsWith(name, ".rollback.sql")
  }

  /** The migration files of a directory listing, in name order. */
  function Discover(listing: seq<string>): seq<string> {
    if listing == [] then []
    else if IsMigration(listing[0]) then InsertName(listing[0], Discover(listing[1..]))
    else Discover(listing[1..])
  }

  /** The name ends in .sql, but not in .rollback.sql. */
  lemma IsMigrationMeans(name: string)
    ensures IsMigration(name) <==>
              && |name| >= 4 && name[|name| - 4..] == ".sql"
              && !(|name| >= 13 && name[|name| - 13..] == ".rollback.sql")
  {
  }

  /**
   A directory lists each name once; what is discovered is its names that end in .sql but not in .rollback.sql,
   each once, in alphabetical order.
   */
  lemma DiscoveryIsOrdered(listing: seq<string>)
    requires Distinct(listing)
    ensures Ordered(Discover(listing)) && Distinct(Discover(listing))
    ensures var found := Discover(listing);
            && (forall i, j :: 0 <= i < j < |found| ==> Alphabetical(found[i], found[j]))
            && (forall n :: n in found <==>
                && n in listing && |n| >= 4 && n[|n| - 4..] == ".sql"
                && !(|n| >= 13 && n[|n| - 13..] == ".rollback.sql"))
  {
    var found := Discover(listing);
    DiscoveryInOrder(listing);
    forall i, j | 0 <= i < j < |found| ensures Alphabetical(found[i], found[j]) {
      NameOrderIsAlphabetical(found[i], found[j]);
    }
    forall n ensures IsMigration(n) <==>
        && |n| >= 4 && n[|n| - 4..] == ".sql" && !(|n| >= 13 && n[|n| - 13..] == ".rollback.sql")
    {
      IsMigrationMeans(n);
    }
  }

  lemma {:induction false} DiscoveryInOrder(listing: seq<string>)
    requires Distinct(listing)
    ensures Ordered(Discover(listing)) && Distinct(Discover(listing))
    ensures forall n :: n in Discover(listing) <==> n in listing && IsMigration(n)
  {
    if listing != [] {
      DiscoveryInOrder(listing[1..]);
      forall k | 0 <= k < |listing[1..]| ensures listing[1..][k] != listing[0] {}
      if IsMigration(listing[0]) {
        InsertNameMembers(listing[0], Discover(listing[1..]));
        InsertNameOrders(listing[0], Discover(listing[1..]));
      }
      assert forall n :: n in listing <==> n == listing[0] || n in listing[1..];
    }
  }

  function Pending(files: seq<string>, recorded: set<string>): seq<string> {
    if files == [] then []
    else (if files[0] in recorded then [] else [files[0]]) + Pending(files[1..], recorded)
  }

  function Names(files: seq<string>): set<string> {
    set f <- files
  }

  lemma {:induction false} PendingMembers(files: seq<string>, recorded: set<string>)
    ensures forall n :: n in Pending(files, recorded) <==> n in files && n !in recorded
  {
    if files != [] {
      PendingMembers(files[1..], recorded);
      assert forall n :: n in files <==> n == files[0] || n in files[1..];
    }
  }

  /** What is pending stands in the same order as the files, each name once. */
  lemma {:induction false} PendingKeepsOrder(files: seq<string>, recorded: set<string>)
    ensures Distinct(files) ==> Distinct(Pending(files, recorded))
    ensures Ordered(files) ==> Ordered(Pending(files, recorded))
  {
    if files != [] {
      var rest := Pending(files[1..], recorded);
      PendingKeepsOrder(files[1..], recorded);
      PendingMembers(files[1..], recorded);
      forall j | 0 <= j < |rest| ensures exists k :: 0 < k < |files| && files[k] == rest[j] {
        assert rest[j] in rest;
        var k :| 0 <= k < |files[1..]| && files[1..][k] == rest[j];
        assert files[k + 1] == rest[j];
      }
    }
  }

  lemma PendingIsWhatIsLeft(files: seq<string>, recorded: set<string>)
    ensures Distinct(files) ==> Distinct(Pending(files, recorded))
    ensures Ordered(files) ==> Ordered(Pending(files, recorded))
    ensures forall n :: n in Pending(files, recorded) <==> n in files && n !in recorded
  {
    PendingKeepsOrder(files, recorded);
    PendingMembers(files, recorded);
  }

  lemma NamesConcat(a: seq<string>, b: seq<string>)
    ensures Names(a + b) == Names(a) + Names(b)
  {
  }

  lemma NamesSnoc(files: seq<string>, i: nat)
    requires i < |files|
    ensures Names(files[..i + 1]) == Names(files[..i]) + {files[i]} && files[..i + 1] == files[..i] + [files[i]]
  {
    assert files[..i + 1] == files[..i] + [files[i]];
  }

  /** Recording more names removes them from what is pending. */
  lemma {:induction false} PendingAfter(files: seq<string>, recorded: set<string>, more: set<string>)
    ensures Pending(files, recorded + more) == Pending(Pending(files, recorded), more)
  {
    if files != [] {
      PendingAfter(files[1..], recorded, more);
      var rest := Pending(files[1..], recorded);
      if files[0] in recorded {
        assert Pending(files, recorded) == rest;
      } else {
        assert Pending(files, recorded) == [files[0]] + rest && ([files[0]] + rest)[1..] == rest;
      }
    }
  }

  lemma {:induction false} NothingRecordedIsAllPending(files: seq<string>, recorded: set<string>)
    requires forall f <- files :: f !in recorded
    ensures Pending(files, recorded) == files
  {
    if files != [] {
      NothingRecordedIsAllPending(files[1..], recorded);
    }
  }

  /** With the first k pending files recorded, the remaining ones are pending, in the same order. */
  lemma {:induction false} PendingAfterPrefix(files: seq<string>, k: nat)
    requires Distinct(files) && k <= |files|
    ensures Pending(files, Names(files[..k])) == files[k..]
    decreases |files|
  {
    if k == 0 {
      NothingRecordedIsAllPending(files, Names(files[..0]));
    } else {
      forall i, j | 0 <= i < j < |files[1..]| ensures files[1..][i] != files[1..][j] {}
      PendingAfterPrefix(files[1..], k - 1);
      assert files[0] in files[..k];
      assert Names(files[..k]) == Names(files[1..][..k - 1]) + {files[0]} by {
        assert files[..k] == [files[0]] + files[1..][..k - 1];
      }
      PendingAfter(files[1..], Names(files[1..][..k - 1]), {files[0]});
      forall f <- files[k..] ensures f != files[0] {}
      NothingRecordedIsAllPending(files[k..], {files[0]});
      assert files[1..][k - 1..] == files[k..];
    }
  }

  // -------------------------------------------------------------------------------------- one run

  /** What happens to the transaction of one file. */
  datatype Fate = Commits | Fails | CrashesBeforeCommit | CrashesAfterCommit

  datatype Exit = UpToDate | Applied | RaisedError | Crashed

  /** The committed state: the files whose SQL took effect, in order, and the names recorded as applied. */
  class Database {
    var executed: seq<string>
    var recorded: set<string>

    constructor (executed: seq<string>, recorded: set<string>)
      ensures this.executed == executed && this.recorded == recorded
    {
      this.executed, this.recorded := executed, recorded;
    }

    /** Records every pending name in one transaction, executing none. */
    method RunBaseline(pending: seq<string>, fate: Fate) returns (exit: Exit, ghost applied: nat)
      modifies this`recorded
      ensures applied in {0, |pending|} && recorded == old(recorded) + Names(pending[..applied])
      ensures exit in {Applied, RaisedError, Crashed} && (exit == Applied ==> applied == |pending|)
    {
      var staged := recorded;
      for i := 0 to |pending|
        invariant staged == recorded + Names(pending[..i])
      {
        assert pending[..i + 1] == pending[..i] + [pending[i]];
        staged := staged + {pending[i]};
      }
      assert pending[..|pending|] == pending && pending[..0] == [];
      match fate {
        case Commits => recorded := staged; return Applied, |pending|;
        case CrashesAfterCommit => recorded := staged; return Crashed, |pending|;
        case Fails => return RaisedError, 0;
        case CrashesBeforeCommit => return Crashed, 0;
      }
    }

    /** Applies the files in turn, each in a transaction of its own. */
    method ApplyEach(pending: seq<string>, fates: nat -> Fate) returns (exit: Exit, ghost applied: nat)
      modifies this
      ensures applied <= |pending| && exit != UpToDate && (exit == Applied ==> applied == |pending|)
      ensures recorded == old(recorded) + Names(pending[..applied]) && executed == old(executed) + pending[..applied]
    {
      applied := 0;
      for i := 0 to |pending|
        invariant applied == i
        invariant recorded == old(recorded) + Names(pending[..i]) && executed == old(executed) + pending[..i]
      {
        var p := pending[i];
        NamesSnoc(pending, i);
        var stagedExecuted, stagedRecorded := executed + [p], recorded + {p};
        match fates(i) {
          case Fails => return RaisedError, i;
          case CrashesBeforeCommit => return Crashed, i;
          case CrashesAfterCommit =>
            executed, recorded := stagedExecuted, stagedRecorded;
            return Crashed, i + 1;
          case Commits =>
            executed, recorded := stagedExecuted, stagedRecorded;
        }
        applied := i + 1;
      }
      exit := Applied;
    }

    /**
     One run over `files`. A transaction's effects reach the committed state only when it commits; a
     failing or crashing one leaves no trace. In baseline mode the names are recorded in one transaction.
     */
    method Run(files: seq<string>, baseline: bool, fates: nat -> Fate) returns (exit: Exit, ghost applied: nat)
      modifies this
      ensures var pending := old(Pending(files, recorded));
              && applied <= |pending|
              && recorded == old(recorded) + Names(pending[..applied])
              && executed == old(executed) + (if baseline then [] else pending[..applied])
              && (exit in {UpToDate, Applied} ==> applied == |pending|)
              && (exit == UpToDate <==> pending == [])
              && (baseline ==> applied in {0, |pending|})
    {
      var pending := Pending(files, recorded);
      if pending == [] {
        return UpToDate, 0;
      }
      if baseline {
        exit, applied := RunBaseline(pending, fates(0));
      } else {
        exit, applied := ApplyEach(pending, fates);
      }
    }
  }

  // ---------------------------------------------------------------------- runs, interleaved freely

  /** A runner holds the list it computed when it started, and works it off. */
  datatype Runner = Idle | Working(todo: seq<string>, baseline: bool) | Done

  datatype World = World(executed: seq<string>, recorded: set<string>, baselined: bool, runners: map<nat, Runner>)

  /**
   The atomic steps. Beginning reads the recorded names; committing makes one file's effects and its record
   visible together, and is refused when the name is already recorded, because it is a primary key; a
   runner can stop at any point, by failure or crash, leaving nothing behind.
   */
  datatype Step = Begin(r: nat, baseline: bool) | Commit(r: nat) | Stop(r: nat)

  function Take(files: seq<string>, w: World, step: Step): World {
    match step
    case Begin(r, baseline) => w.(runners := w.runners[r := Working(Pending(files, w.recorded), baseline)])
    case Stop(r) => w.(runners := w.runners[r := Idle])
    case Commit(r) =>
      if r !in w.runners || !w.runners[r].Working? then w
      else
        var todo := w.runners[r].todo;
        if todo == [] then w.(runners := w.runners[r := Done])
        else if w.runners[r].baseline then
          if Names(todo) * w.recorded != {} then w.(runners := w.runners[r := Idle])
          else w.(recorded := w.recorded + Names(todo), baselined := true, runners := w.runners[r := Done])
        else if todo[0] in w.recorded then w.(runners := w.runners[r := Idle])
        else World(w.executed + [todo[0]], w.recorded + {todo[0]}, w.baselined,
            w.runners[r := Working(todo[1..], false)])
  }

  function History(files: seq<string>, w: World, steps: seq<Step>): World {
    if steps == [] then w else Take(files, History(files, w, steps[..|steps| - 1]), steps[|steps| - 1])
  }

  function StartOf(executed: seq<string>, recorded: set<string>): World {
    World(executed, recorded, false, map[])
  }

  ghost predicate SuffixAt(pending: seq<string>, todo: seq<string>, j: nat) {
    j <= |pending| && todo == pending[j..]
  }

  /** The first k pending files are recorded; every runner's list starts at or before the k-th. */
  ghost predicate AtPrefix(pending: seq<string>, executed0: seq<string>, recorded0: set<string>, w: World, k: nat) {
    && k <= |pending|
    && w.recorded == recorded0 + Names(pending[..k])
    && (!w.baselined ==> w.executed == executed0 + pending[..k])
    && (w.baselined ==> k == |pending| && exists m :: 0 <= m <= k && w.executed == executed0 + pending[..m])
    && (forall r <- w.runners :: match w.runners[r]
          case Idle => true
          case Working(todo, _) => exists j :: 0 <= j <= k && SuffixAt(pending, todo, j)
          case Done => k == |pending|)
  }

  lemma BeginKeepsPrefix(files: seq<string>, executed0: seq<string>, recorded0: set<string>, w: World, k: nat, r: nat,
                         baseline: bool)
    requires Distinct(files) && AtPrefix(Pending(files, recorded0), executed0, recorded0, w, k)
    ensures AtPrefix(Pending(files, recorded0), executed0, recorded0, Take(files, w, Begin(r, baseline)), k)
  {
    var pending := Pending(files, recorded0);
    PendingIsWhatIsLeft(files, recorded0);
    PendingAfter(files, recorded0, Names(pending[..k]));
    PendingAfterPrefix(pending, k);
    assert SuffixAt(pending, Pending(files, w.recorded), k);
  }

  lemma RecordedNames(pending: seq<string>, recorded0: set<string>, k: nat, j: nat)
    requires Distinct(pending) && (forall f <- pending :: f !in recorded0) && j < |pending| && k <= |pending|
    ensures pending[j] in recorded0 + Names(pending[..k]) <==> j < k
  {
    assert j < k ==> pending[..k][j] == pending[j];
    if pending[j] in pending[..k] {
      var i :| 0 <= i < k && pending[..k][i] == pending[j];
    }
  }

  /** A runner's list that meets no recorded name starts exactly where the record ends. */
  lemma FreshListStartsAtTheEnd(pending: seq<string>, executed0: seq<string>, recorded0: set<string>, w: World, k: nat,
                                r: nat) returns (j: nat)
    requires Distinct(pending) && (forall f <- pending :: f !in recorded0)
             && AtPrefix(pending, executed0, recorded0, w, k)
    requires r in w.runners && w.runners[r].Working? && w.runners[r].todo != []
    ensures j <= k && SuffixAt(pending, w.runners[r].todo, j)
    ensures w.runners[r].todo[0] in w.recorded <==> j < k
  {
    j :| 0 <= j <= k && SuffixAt(pending, w.runners[r].todo, j);
    RecordedNames(pending, recorded0, k, j);
    assert w.runners[r].todo[0] == pending[j];
  }

  /** A baseline run that meets no recorded name holds exactly the files that are left. */
  lemma BaselineHoldsTheRest(pending: seq<string>, executed0: seq<string>, recorded0: set<string>, w: World, k: nat,
                             r: nat)
    requires Distinct(pending) && (forall f <- pending :: f !in recorded0)
             && AtPrefix(pending, executed0, recorded0, w, k)
    requires r in w.runners && w.runners[r].Working? && w.runners[r].todo != []
    requires Names(w.runners[r].todo) * w.recorded == {}
    ensures w.runners[r].todo == pending[k..] && !w.baselined
    ensures w.recorded + Names(w.runners[r].todo) == recorded0 + Names(pending)
  {
    var todo := w.runners[r].todo;
    var j := FreshListStartsAtTheEnd(pending, executed0, recorded0, w, k, r);
    assert todo[0] in Names(todo) && todo[0] !in Names(todo) * w.recorded;
    NamesConcat(pending[..k], todo);
    assert pending == pending[..k] + todo;
  }

  lemma BaselineCommitKeepsPrefix(pending: seq<string>, executed0: seq<string>, recorded0: set<string>,
                                  files: seq<string>, w: World, k: nat, r: nat)
    requires Distinct(pending) && (forall f <- pending :: f !in recorded0)
             && AtPrefix(pending, executed0, recorded0, w, k)
    requires r in w.runners && w.runners[r].Working? && w.runners[r].baseline && w.runners[r].todo != []
    ensures AtPrefix(pending, executed0, recorded0, Take(files, w, Commit(r)),
                     if Names(w.runners[r].todo) * w.recorded == {} then |pending| else k)
  {
    if Names(w.runners[r].todo) * w.recorded == {} {
      BaselineHoldsTheRest(pending, executed0, recorded0, w, k, r);
      assert pending[..|pending|] == pending;
    }
  }

  lemma FileCommitKeepsPrefix(pending: seq<string>, executed0: seq<string>, recorded0: set<string>, files: seq<string>,
                              w: World, k: nat, r: nat)
    requires Distinct(pending) && (forall f <- pending :: f !in recorded0)
             && AtPrefix(pending, executed0, recorded0, w, k)
    requires r in w.runners && w.runners[r].Working? && !w.runners[r].baseline && w.runners[r].todo != []
    ensures AtPrefix(pending, executed0, recorded0, Take(files, w, Commit(r)), k)
         || (k < |pending| && AtPrefix(pending, executed0, recorded0, Take(files, w, Commit(r)), k + 1))
  {
    var todo := w.runners[r].todo;
    var j := FreshListStartsAtTheEnd(pending, executed0, recorded0, w, k, r);
    if todo[0] !in w.recorded {
      assert j == k && todo[0] == pending[k];
      assert pending[..k + 1] == pending[..k] + [pending[k]];
      assert SuffixAt(pending, todo[1..], k + 1);
      var w' := Take(files, w, Commit(r));
      forall q <- w'.runners | w'.runners[q].Working?
        ensures exists i :: 0 <= i <= k + 1 && SuffixAt(pending, w'.runners[q].todo, i)
      {
        if q != r {
          var i :| 0 <= i <= k && SuffixAt(pending, w.runners[q].todo, i);
        }
      }
    }
  }

  /**
   Crash refinement: after any interleaving of any number of runs, each cut off anywhere, the files that took
   effect are a prefix of the pending ones in name order, each applied once, and exactly those are recorded,
   unless a baseline run recorded all the rest.
   */
  lemma {:induction false} EveryHistoryIsAtAPrefix(files: seq<string>, executed0: seq<string>, recorded0: set<string>,
                                                   steps: seq<Step>) returns (k: nat)
    requires Distinct(files)
    ensures AtPrefix(Pending(files, recorded0), executed0, recorded0,
            History(files, StartOf(executed0, recorded0), steps), k)
  {
    var pending := Pending(files, recorded0);
    PendingIsWhatIsLeft(files, recorded0);
    if steps == [] {
      k := 0;
    } else {
      k := EveryHistoryIsAtAPrefix(files, executed0, recorded0, steps[..|steps| - 1]);
      var w := History(files, StartOf(executed0, recorded0), steps[..|steps| - 1]);
      var w' := History(files, StartOf(executed0, recorded0), steps);
      match steps[|steps| - 1]
      case Begin(r, baseline) => BeginKeepsPrefix(files, executed0, recorded0, w, k, r, baseline);
      case Stop(r) =>
      case Commit(r) =>
        if r in w.runners && w.runners[r].Working? && w.runners[r].todo != [] {
          if w.runners[r].baseline {
            BaselineCommitKeepsPrefix(pending, executed0, recorded0, files, w, k, r);
            k := if Names(w.runners[r].todo) * w.recorded == {} then |pending| else k;
          } else {
            FileCommitKeepsPrefix(pending, executed0, recorded0, files, w, k, r);
            k := if AtPrefix(pending, executed0, recorded0, w', k) then k else k + 1;
          }
        }
    }
  }

  /**
   Once any run has completed, the committed state is that of one uninterrupted run, whatever was cut off
   before; nothing is pending, and every later history leaves the state as it is.
   */
  lemma CompletionIsFinal(files: seq<string>, executed0: seq<string>, recorded0: set<string>, steps: seq<Step>,
                          later: seq<Step>, r: nat)
    requires Distinct(files)
    requires var w := History(files, StartOf(executed0, recorded0), steps); r in w.runners && w.runners[r] == Done
    ensures var w := History(files, StartOf(executed0, recorded0), steps);
            && Pending(files, w.recorded) == []
            && w.recorded == recorded0 + Names(Pending(files, recorded0))
            && (!w.baselined ==> w.executed == executed0 + Pending(files, recorded0))
            && History(files, StartOf(executed0, recorded0), steps + later).recorded == w.recorded
            && History(files, StartOf(executed0, recorded0), steps + later).executed == w.executed
  {
    var start := StartOf(executed0, recorded0);
    var pending := Pending(files, recorded0);
    var w := History(files, start, steps);
    var k := EveryHistoryIsAtAPrefix(files, executed0, recorded0, steps);
    PendingIsWhatIsLeft(files, recorded0);
    assert pending[..|pending|] == pending;
    PendingAfter(files, recorded0, Names(pending));
    PendingAfterPrefix(pending, |pending|);
    FullyRecordedStays(files, executed0, recorded0, steps, later);
  }

  /** With every pending file recorded, a step can only move runners about. */
  lemma FullyRecordedStep(files: seq<string>, executed0: seq<string>, recorded0: set<string>, w: World, k: nat,
                          step: Step)
    requires AtPrefix(Pending(files, recorded0), executed0, recorded0, w, k)
             && w.recorded == recorded0 + Names(Pending(files, recorded0))
    ensures Take(files, w, step).recorded == w.recorded && Take(files, w, step).executed == w.executed
  {
    if step.Commit? && step.r in w.runners {
      ListsAreRecorded(Pending(files, recorded0), executed0, recorded0, w, k, step.r);
    }
  }

  lemma {:induction false} FullyRecordedStays(files: seq<string>, executed0: seq<string>, recorded0: set<string>,
                                              steps: seq<Step>, later: seq<Step>)
    requires Distinct(files)
    requires History(files, StartOf(executed0, recorded0), steps).recorded
             == recorded0 + Names(Pending(files, recorded0))
    ensures History(files, StartOf(executed0, recorded0), steps + later).recorded
            == recorded0 + Names(Pending(files, recorded0))
    ensures History(files, StartOf(executed0, recorded0), steps + later).executed
            == History(files, StartOf(executed0, recorded0), steps).executed
  {
    if later == [] {
      assert steps + later == steps;
    } else {
      var n := |later| - 1;
      FullyRecordedStays(files, executed0, recorded0, steps, later[..n]);
      var k := EveryHistoryIsAtAPrefix(files, executed0, recorded0, steps + later[..n]);
      FullyRecordedStep(files, executed0, recorded0, History(files, StartOf(executed0, recorded0), steps + later[..n]),
          k, later[n]);
      HistorySnoc(files, StartOf(executed0, recorded0), steps + later[..n], later[n]);
      assert steps + later[..n] + [later[n]] == steps + later;
    }
  }

  /** When every pending file is recorded, every name a runner still holds is recorded. */
  lemma ListsAreRecorded(pending: seq<string>, executed0: seq<string>, recorded0: set<string>, w: World, k: nat, r: nat)
    requires AtPrefix(pending, executed0, recorded0, w, k) && w.recorded == recorded0 + Names(pending) && r in w.runners
    ensures w.runners[r].Working? ==> Names(w.runners[r].todo) <= w.recorded
    ensures w.runners[r].Working? && w.runners[r].todo != [] ==>
              w.runners[r].todo[0] in w.recorded && Names(w.runners[r].todo) * w.recorded != {}
  {
    if w.runners[r].Working? {
      var todo := w.runners[r].todo;
      var j :| 0 <= j <= k && SuffixAt(pending, todo, j);
      forall f <- todo ensures f in Names(pending) {}
      if todo != [] {
        assert todo[0] in Names(todo) * w.recorded;
      }
    }
  }

  lemma HistorySnoc(files: seq<string>, w: World, steps: seq<Step>, step: Step)
    ensures History(files, w, steps + [step]) == Take(files, History(files, w, steps), step)
  {
    assert (steps + [step])[..|steps|] == steps;
  }

  /** The world of one run that has committed n of its files. */
  ghost function SoloWorld(pending: seq<string>, executed0: seq<string>, recorded0: set<string>, n: nat): World
    requires n <= |pending|
  {
    World(executed0 + pending[..n], recorded0 + Names(pending[..n]), false, map[0 := Working(pending[n..], false)])
  }

  lemma SoloCommit(files: seq<string>, pending: seq<string>, executed0: seq<string>, recorded0: set<string>, n: nat)
    requires Distinct(pending) && (forall f <- pending :: f !in recorded0) && n < |pending|
    ensures Take(files, SoloWorld(pending, executed0, recorded0, n), Commit(0))
            == SoloWorld(pending, executed0, recorded0, n + 1)
  {
    RecordedNames(pending, recorded0, n, n);
    assert pending[..n + 1] == pending[..n] + [pending[n]];
    assert pending[n..][0] == pending[n] && pending[n..][1..] == pending[n + 1..];
  }

  lemma SoloBegin(files: seq<string>, executed0: seq<string>, recorded0: set<string>)
    ensures History(files, StartOf(executed0, recorded0), [Begin(0, false)])
            == SoloWorld(Pending(files, recorded0), executed0, recorded0, 0)
  {
    HistorySnoc(files, StartOf(executed0, recorded0), [], Begin(0, false));
    assert [] + [Begin(0, false)] == [Begin(0, false)];
    assert Names(Pending(files, recorded0)[..0]) == {};
  }

  function SoloSteps(n: nat): seq<Step> {
    if n == 0 then [Begin(0, false)] else SoloSteps(n - 1) + [Commit(0)]
  }

  /** A run left alone for n commits has applied the first n pending files, as `Database.Run` does. */
  lemma {:induction false} SoloRun(files: seq<string>, executed0: seq<string>, recorded0: set<string>, n: nat)
    requires n <= |Pending(files, recorded0)| && Distinct(files)
    ensures History(files, StartOf(executed0, recorded0), SoloSteps(n))
            == SoloWorld(Pending(files, recorded0), executed0, recorded0, n)
  {
    if n == 0 {
      SoloBegin(files, executed0, recorded0);
    } else {
      PendingIsWhatIsLeft(files, recorded0);
      SoloRun(files, executed0, recorded0, n - 1);
      HistorySnoc(files, StartOf(executed0, recorded0), SoloSteps(n - 1), Commit(0));
      SoloCommit(files, Pending(files, recorded0), executed0, recorded0, n - 1);
    }
  }
}
