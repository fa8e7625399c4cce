/**
 The store of remembered verdicts. Every method holds one lock for its whole body, so a run of the
 worker threads is some sequence of whole calls; the theorems hold for every such sequence.
 */
module VerdictMemory {
  import opened Basics

  /** A question: the document, the agent asked, and the digest of everything its prompt renders. */
  datatype Key = Key(document: int, agent: string, digest: string)

  type Verdict = map<string, string>

  /** A stored row as it is read back: no key when a field is missing or malformed, no verdict when it is no object. */
  datatype Row = Row(key: Option<Key>, verdict: Option<Verdict>)

  datatype Record = Record(key: Key, verdict: Verdict, model: string)

  datatype Memory = Memory(enabled: bool, known: map<Key, Verdict>, pending: seq<Record>, hits: nat, misses: nat)

  datatype Call =
    | Get(key: Key)
    | Put(key: Key, verdict: Option<Verdict>, model: string)

  const VALID_AGENTS: set<string> := {"amount", "date", "final"}

  function Load(rows: seq<Row>): map<Key, Verdict> {
    if rows == [] then map[]
    else
      var before, row := Load(rows[..|rows| - 1]), rows[|rows| - 1];
      if row.key.Some? && row.verdict.Some? then before[row.key.value := row.verdict.value] else before
  }

  /** Row `i` gives the verdict on `key`, and no later usable row does. */
  ghost predicate LastOn(rows: seq<Row>, i: nat, key: Key)
    requires i < |rows|
  {
    && rows[i].key == Some(key) && rows[i].verdict.Some?
    && forall j :: i < j < |rows| ==> rows[j].key != Some(key) || rows[j].verdict.None?
  }

  ghost predicate IsLoaded(rows: seq<Row>, known: map<Key, Verdict>) {
    && (forall i :: 0 <= i < |rows| && rows[i].key.Some? && rows[i].verdict.Some? ==> rows[i].key.value in known)
    && (forall key <- known :: exists i :: 0 <= i < |rows| && LastOn(rows, i, key)
                                           && known[key] == rows[i].verdict.value)
  }

  lemma {:induction false} LoadMeans(rows: seq<Row>)
    ensures IsLoaded(rows, Load(rows))
  {
    if rows != [] {
      var n := |rows| - 1;
      var known, before := Load(rows), Load(rows[..n]);
      LoadMeans(rows[..n]);
      forall i | 0 <= i < |rows| && rows[i].key.Some? && rows[i].verdict.Some? ensures rows[i].key.value in known {
        assert i < n ==> rows[..n][i] == rows[i];
      }
      forall key <- known
        ensures exists i :: 0 <= i < |rows| && LastOn(rows, i, key) && known[key] == rows[i].verdict.value
      {
        if rows[n].key == Some(key) && rows[n].verdict.Some? {
          assert LastOn(rows, n, key);
        } else {
          var i :| 0 <= i < n && LastOn(rows[..n], i, key) && before[key] == rows[..n][i].verdict.value;
          forall j | i < j < |rows| ensures rows[j].key != Some(key) || rows[j].verdict.None? {
            assert j < n ==> rows[..n][j] == rows[j];
          }
          assert LastOn(rows, i, key);
        }
      }
    }
  }

  predicate Storable(m: Memory, c: Call) {
    c.Put? && m.enabled && c.key.agent in VALID_AGENTS && c.verdict.Some? && c.key !in m.known
  }

  function Apply(m: Memory, c: Call): Memory {
    match c
    case Get(key) =>
      if !m.enabled then m
      else if key in m.known then m.(hits := m.hits + 1)
      else m.(misses := m.misses + 1)
    case Put(key, verdict, model) =>
      if Storable(m, c)
      then m.(known := m.known[key := verdict.value], pending := m.pending + [Record(key, verdict.value, model)])
      else m
  }

  function Run(m: Memory, calls: seq<Call>): Memory {
    if calls == [] then m else Apply(Run(m, calls[..|calls| - 1]), calls[|calls| - 1])
  }

  function Opened(rows: seq<Row>, enabled: bool): Memory {
    Memory(enabled, Load(rows), [], 0, 0)
  }

  class AdjudicationMemory {
    const enabled: bool
    var known: map<Key, Verdict>
    var pendingRecords: seq<Record>
    var hits: nat
    var misses: nat

    ghost function Contents(): Memory
      reads this
    {
      Memory(enabled, known, pendingRecords, hits, misses)
    }

    constructor (rows: seq<Row>, enabled: bool)
      ensures Contents() == Opened(rows, enabled)
      // a question is known when a usable row names it, and the last such row gives its verdict
      ensures IsLoaded(rows, known) && pendingRecords == [] && hits == 0 && misses == 0
    {
      this.enabled, known, pendingRecords, hits, misses := enabled, map[], [], 0, 0;
      new;
      for i := 0 to |rows|
        invariant this.enabled == enabled && pendingRecords == [] && hits == 0 && misses == 0
        invariant known == Load(rows[..i])
      {
        assert rows[..i + 1][..i] == rows[..i];
        if rows[i].key.Some? && rows[i].verdict.Some? {
          known := known[rows[i].key.value := rows[i].verdict.value];
        }
      }
      assert rows[..|rows|] == rows;
      LoadMeans(rows);
    }

    method Get(key: Key) returns (verdict: Option<Verdict>)
      modifies this`hits, this`misses
      ensures Contents() == Apply(old(Contents()), Call.Get(key))
      ensures verdict == if enabled && key in known then Some(known[key]) else None
      ensures hits == old(hits) + if enabled && key in known then 1 else 0
      ensures misses == old(misses) + if enabled && key !in known then 1 else 0
    {
      if !enabled {
        return None;
      }
      if key !in known {
        misses := misses + 1;
        return None;
      }
      hits := hits + 1;
      verdict := Some(known[key]);
    }

    method Put(key: Key, verdict: Option<Verdict>, model: string)
      modifies this`known, this`pendingRecords
      ensures Contents() == Apply(old(Contents()), Call.Put(key, verdict, model))
      // only a verdict on a new question of a known agent is stored
      ensures if enabled && key.agent in {"amount", "date", "final"} && verdict.Some? && key !in old(known)
              then known == old(known)[key := verdict.value]
                   && pendingRecords == old(pendingRecords) + [Record(key, verdict.value, model)]
              else known == old(known) && pendingRecords == old(pendingRecords)
    {
      if !enabled || key.agent !in VALID_AGENTS || verdict.None? {
        return;
      }
      if key in known {
        return;
      }
      known := known[key := verdict.value];
      pendingRecords := pendingRecords + [Record(key, verdict.value, model)];
    }

    method Pending() returns (records: seq<Record>)
      ensures records == Contents().pending
    {
      records := pendingRecords;
    }
  }

  // ---------------------------------------------------------------------- over every interleaving

  function PendingKeys(m: Memory): seq<Key> {
    seq(|m.pending|, i requires 0 <= i < |m.pending| => m.pending[i].key)
  }

  /** The first verdict formed for a question is never replaced. */
  lemma {:induction false} FirstVerdictStays(m: Memory, calls: seq<Call>, key: Key)
    requires key in m.known
    ensures key in Run(m, calls).known && Run(m, calls).known[key] == m.known[key]
  {
    if calls != [] {
      FirstVerdictStays(m, calls[..|calls| - 1], key);
    }
  }

  /** What the pending list is, relative to the keys known when the memory was opened. */
  ghost predicate PendingIsExact(m: Memory, initial: map<Key, Verdict>) {
    && (forall i, j :: 0 <= i < j < |m.pending| ==> m.pending[i].key != m.pending[j].key)
    && (forall r <- m.pending :: r.key in m.known && m.known[r.key] == r.verdict && r.key !in initial)
    && (forall k <- m.known :: k in initial || k in PendingKeys(m))
    && (forall k <- initial :: k in m.known && m.known[k] == initial[k])
  }

  lemma ApplyKeepsPendingExact(m: Memory, initial: map<Key, Verdict>, c: Call)
    requires PendingIsExact(m, initial)
    ensures PendingIsExact(Apply(m, c), initial)
  {
    var m' := Apply(m, c);
    if Storable(m, c) {
      assert PendingKeys(m') == PendingKeys(m) + [c.key];
      forall i | 0 <= i < |m.pending| ensures m.pending[i].key != c.key {
        assert m.pending[i] in m.pending;
      }
      forall k <- m'.known ensures k in initial || k in PendingKeys(m') {
        if k == c.key {
          assert PendingKeys(m')[|m.pending|] == k;
        } else {
          assert k in initial || k in PendingKeys(m);
        }
      }
    } else {
      assert PendingKeys(m') == PendingKeys(m);
    }
  }

  /**
   After any sequence of calls the pending list holds exactly the keys added since the memory was opened,
   once each, with the verdicts the memory answers with.
   */
  lemma {:induction false} PendingListsExactlyTheNewKeys(rows: seq<Row>, enabled: bool, calls: seq<Call>)
    ensures PendingIsExact(Run(Opened(rows, enabled), calls), Load(rows))
  {
    if calls != [] {
      PendingListsExactlyTheNewKeys(rows, enabled, calls[..|calls| - 1]);
      ApplyKeepsPendingExact(Run(Opened(rows, enabled), calls[..|calls| - 1]), Load(rows), calls[|calls| - 1]);
    }
  }

  function Gets(calls: seq<Call>): nat {
    if calls == [] then 0 else Gets(calls[..|calls| - 1]) + if calls[|calls| - 1].Get? then 1 else 0
  }

  /**
   Every lookup of an enabled memory is counted once, as a hit or as a miss; a disabled one counts and stores
   nothing.
   */
  lemma {:induction false} EveryLookupIsCounted(m: Memory, calls: seq<Call>)
    ensures var r := Run(m, calls);
            && r.enabled == m.enabled
            && r.hits + r.misses == m.hits + m.misses + (if m.enabled then Gets(calls) else 0)
            && (!m.enabled ==> r == m)
  {
    if calls != [] {
      EveryLookupIsCounted(m, calls[..|calls| - 1]);
    }
  }

  function AsRow(r: Record): Row {
    Row(Some(r.key), Some(r.verdict))
  }

  function AsRows(records: seq<Record>): seq<Row> {
    seq(|records|, i requires 0 <= i < |records| => AsRow(records[i]))
  }

  lemma LoadOneMore(rows: seq<Row>, records: seq<Record>, r: Record)
    ensures Load(rows + AsRows(records + [r])) == Load(rows + AsRows(records))[r.key := r.verdict]
  {
    var all := rows + AsRows(records + [r]);
    assert all[..|all| - 1] == rows + AsRows(records) && all[|all| - 1] == AsRow(r);
  }

  /** Reloading the rows that were there, followed by what was pending, rebuilds the same memory. */
  lemma {:induction false} ReloadingRebuildsTheMemory(rows: seq<Row>, enabled: bool, calls: seq<Call>)
    ensures var m := Run(Opened(rows, enabled), calls);
            Load(rows + AsRows(m.pending)) == m.known
  {
    if calls == [] {
      assert rows + AsRows([]) == rows;
    } else {
      var m, c := Run(Opened(rows, enabled), calls[..|calls| - 1]), calls[|calls| - 1];
      ReloadingRebuildsTheMemory(rows, enabled, calls[..|calls| - 1]);
      if Storable(m, c) {
        LoadOneMore(rows, m.pending, Record(c.key, c.verdict.value, c.model));
      }
    }
  }

  predicate WellFormed(c: Call) {
    c.Put? && c.key.agent in VALID_AGENTS && c.verdict.Some?
  }

  /** The places of the lookups that find their question known, from the start or by an earlier call. */
  ghost function Hits(m: Memory, calls: seq<Call>): set<nat> {
    set i: nat | i < |calls| && FindsKnown(m, calls, i)
  }

  ghost predicate FindsKnown(m: Memory, calls: seq<Call>, i: nat)
    requires i < |calls|
  {
    calls[i].Get? && (calls[i].key in m.known || StoredBefore(calls, i, calls[i].key))
  }

  /** An earlier call brought a verdict of a known agent on the question. */
  ghost predicate StoredBefore(calls: seq<Call>, i: nat, key: Key)
    requires i <= |calls|
  {
    exists j :: 0 <= j < i && calls[j].Put? && calls[j].key == key
                && key.agent in {"amount", "date", "final"} && calls[j].verdict.Some?
  }

  lemma KnownMeans(m: Memory, calls: seq<Call>, key: Key)
    requires m.enabled
    ensures key in Run(m, calls).known <==> key in m.known || StoredBefore(calls, |calls|, key)
  {
    AnsweredQuestionsDoNotDependOnOrder(m, calls);
    if c :| c in calls && WellFormed(c) && c.key == key {
      var j :| 0 <= j < |calls| && calls[j] == c;
    }
  }

  lemma HitsGrow(m: Memory, calls: seq<Call>, n: nat)
    requires |calls| == n + 1
    ensures Hits(m, calls) == Hits(m, calls[..n]) + if FindsKnown(m, calls, n) then {n} else {}
  {
    forall i: nat | i < n ensures FindsKnown(m, calls[..n], i) <==> FindsKnown(m, calls, i) {
      assert forall j :: 0 <= j < n ==> calls[..n][j] == calls[j];
    }
  }

  /** A lookup of an enabled memory is a hit exactly when its question was known at the start or stored since. */
  lemma {:induction false} HitsAreExact(m: Memory, calls: seq<Call>)
    requires m.enabled
    ensures Run(m, calls).hits == m.hits + |Hits(m, calls)|
  {
    if calls == [] {
      assert Hits(m, calls) == {};
    } else {
      var n := |calls| - 1;
      HitsAreExact(m, calls[..n]);
      EveryLookupIsCounted(m, calls[..n]);
      HitsGrow(m, calls, n);
      KnownMeans(m, calls[..n], calls[n].key);
      assert StoredBefore(calls[..n], n, calls[n].key) <==> StoredBefore(calls, n, calls[n].key) by {
        assert forall j :: 0 <= j < n ==> calls[..n][j] == calls[j];
      }
    }
  }

  /** Which questions end up answered does not depend on how the calls were interleaved. */
  lemma {:induction false} AnsweredQuestionsDoNotDependOnOrder(m: Memory, calls: seq<Call>)
    requires m.enabled
    ensures forall k :: k in Run(m, calls).known <==> k in m.known || exists c <- calls :: WellFormed(c) && c.key == k
  {
    EveryLookupIsCounted(m, calls);
    if calls != [] {
      var n := |calls| - 1;
      EveryLookupIsCounted(m, calls[..n]);
      AnsweredQuestionsDoNotDependOnOrder(m, calls[..n]);
      assert calls == calls[..n] + [calls[n]];
      assert calls[n] in calls && forall c :: c in calls <==> c in calls[..n] || c == calls[n];
    }
  }
}
