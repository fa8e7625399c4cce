/** The last stage of the reasonableness check: dismissed flags out, the rest ranked, capped and summed up in a band. */
module ReasonablenessBand {
  import opened Basics
  import opened NameOrder

  datatype Severity = Info | Elevated | StandsOut

  datatype Flag = Flag(key: string, weight: real, severity: Severity)

  datatype Band = Typical | AFew | Several

  /** How many flags are shown, and how many make "several". */
  datatype Limits = Limits(shown: int, standsOut: int, total: int)

  const DEFAULTS := Limits(5, 2, 4)

  // ------------------------------------------------------------------------------------ counting

  function Number(flags: seq<Flag>, p: Flag -> bool): nat {
    if flags == [] then 0 else (if p(flags[0]) then 1 else 0) + Number(flags[1..], p)
  }

  lemma {:induction false} NumberConcat(a: seq<Flag>, b: seq<Flag>, p: Flag -> bool)
    ensures Number(a + b, p) == Number(a, p) + Number(b, p)
  {
    if a == [] {
      assert a + b == b;
    } else {
      assert (a + b)[1..] == a[1..] + b;
      NumberConcat(a[1..], b, p);
    }
  }

  lemma NumberSnoc(flags: seq<Flag>, f: Flag, p: Flag -> bool)
    ensures Number(flags + [f], p) == Number(flags, p) + if p(f) then 1 else 0
  {
    NumberConcat(flags, [f], p);
  }

  function Concern(f: Flag): bool {
    f.severity != Info
  }

  function IsInfo(f: Flag): bool {
    f.severity == Info
  }

  function Loud(f: Flag): bool {
    f.severity == StandsOut
  }

  function BandOf(flags: seq<Flag>, lim: Limits): Band {
    if Number(flags, Concern) == 0 then Typical
    else if Number(flags, Loud) >= lim.standsOut || Number(flags, Concern) >= lim.total then Several
    else AFew
  }

  method AggregateBand(flags: seq<Flag>, lim: Limits) returns (band: Band)
    ensures band == BandOf(flags, lim)
  {
    var concerns, loud := 0, 0;
    for i := 0 to |flags|
      invariant concerns == Number(flags[..i], Concern) && loud == Number(flags[..i], Loud)
    {
      assert flags[..i + 1] == flags[..i] + [flags[i]];
      NumberSnoc(flags[..i], flags[i], Concern);
      NumberSnoc(flags[..i], flags[i], Loud);
      if flags[i].severity != Info {
        concerns := concerns + 1;
        if flags[i].severity == StandsOut {
          loud := loud + 1;
        }
      }
    }
    assert flags[..|flags|] == flags;
    if concerns == 0 {
      return Typical;
    }
    band := if loud >= lim.standsOut || concerns >= lim.total then Several else AFew;
  }

  // ------------------------------------------------------------------------- ranking and capping

  /** Heavier first; equal weights by key. */
  predicate Before(f: Flag, g: Flag) {
    f.weight > g.weight || (f.weight == g.weight && NameLeq(f.key, g.key))
  }

  ghost predicate Ranked(flags: seq<Flag>) {
    forall i, j :: 0 <= i < j < |flags| ==> Before(flags[i], flags[j])
  }

  function Insert(f: Flag, flags: seq<Flag>): seq<Flag> {
    if flags == [] || Before(f, flags[0]) then [f] + flags else [flags[0]] + Insert(f, flags[1..])
  }

  function Rank(flags: seq<Flag>): seq<Flag> {
    if flags == [] then [] else Insert(flags[0], Rank(flags[1..]))
  }

  lemma BeforeItself(f: Flag)
    ensures Before(f, f)
  {
    NameLeqIsTotal(f.key, f.key);
  }

  lemma BeforeIsTransitive(f: Flag, g: Flag, h: Flag)
    requires Before(f, g) && Before(g, h)
    ensures Before(f, h)
  {
    if f.weight == g.weight == h.weight {
      NameLeqIsTransitive(f.key, g.key, h.key);
    }
  }

  lemma {:induction false} InsertElements(f: Flag, flags: seq<Flag>)
    ensures multiset(Insert(f, flags)) == multiset(flags) + multiset{f}
  {
    if flags != [] && !Before(f, flags[0]) {
      InsertElements(f, flags[1..]);
      assert flags == [flags[0]] + flags[1..];
    }
  }

  lemma {:induction false} InsertRanks(f: Flag, flags: seq<Flag>)
    requires Ranked(flags)
    ensures Ranked(Insert(f, flags))
  {
    if flags == [] {
    } else if Before(f, flags[0]) {
      forall j | 0 <= j < |flags| ensures Before(f, flags[j]) {
        if j > 0 {
          BeforeIsTransitive(f, flags[0], flags[j]);
        }
      }
    } else {
      var rest := Insert(f, flags[1..]);
      InsertRanks(f, flags[1..]);
      InsertElements(f, flags[1..]);
      NameLeqIsTotal(f.key, flags[0].key);
      forall j | 0 <= j < |rest| ensures Before(flags[0], rest[j]) {
        assert rest[j] in multiset(rest);
        assert rest[j] == f || rest[j] in flags[1..];
      }
    }
  }

  /** Ranking loses nothing, adds nothing and puts the heaviest first. */
  lemma {:induction false} RankIsARanking(flags: seq<Flag>)
    ensures multiset(Rank(flags)) == multiset(flags) && Ranked(Rank(flags))
  {
    if flags != [] {
      RankIsARanking(flags[1..]);
      InsertElements(flags[0], Rank(flags[1..]));
      InsertRanks(flags[0], Rank(flags[1..]));
      assert flags == [flags[0]] + flags[1..];
    }
  }

  /** The first `n` flags; a negative `n` leaves off that many from the end. */
  function Take(flags: seq<Flag>, n: int): seq<Flag> {
    if n >= |flags| then flags else if n >= 0 then flags[..n] else if |flags| + n >= 0 then flags[..|flags| + n] else []
  }

  function Kept(flags: seq<Flag>, dismissed: set<string>): seq<Flag> {
    if flags == [] then []
    else
      var before, last := Kept(flags[..|flags| - 1], dismissed), flags[|flags| - 1];
      if last.key in dismissed then before else before + [last]
  }

  // ------------------------------------------------- the verdict, said of the flags themselves

  lemma {:induction false} NumberIsCount(flags: seq<Flag>, p: Flag -> bool)
    ensures Number(flags, p) == Count(flags, p)
  {
    if flags != [] {
      NumberIsCount(flags[1..], p);
    }
  }

  lemma {:induction false} CountsAgree(flags: seq<Flag>, p: Flag -> bool, q: Flag -> bool)
    requires forall f <- flags :: p(f) == q(f)
    ensures Count(flags, p) == Count(flags, q)
  {
    if flags != [] {
      assert flags[0] in flags && forall f <- flags[1..] :: f in flags;
      CountsAgree(flags[1..], p, q);
    }
  }

  /** Several: at least one real flag, and enough that stand out or enough real ones at all; typical: no real flag. */
  ghost predicate IsBand(band: Band, flags: seq<Flag>, lim: Limits) {
    var concerns, loud := Count(flags, (f: Flag) => f.severity in {Elevated, StandsOut}),
      Count(flags, (f: Flag) => f.severity == StandsOut);
    && (band == Typical <==> concerns == 0)
    && (band == Several <==> concerns > 0 && (loud >= lim.standsOut || concerns >= lim.total))
  }

  lemma BandMeans(flags: seq<Flag>, lim: Limits)
    ensures IsBand(BandOf(flags, lim), flags, lim)
  {
    NumberIsCount(flags, Concern);
    NumberIsCount(flags, Loud);
    CountsAgree(flags, Concern, (f: Flag) => f.severity in {Elevated, StandsOut});
    CountsAgree(flags, Loud, (f: Flag) => f.severity == StandsOut);
  }

  lemma {:induction false} KeptIsSelected(flags: seq<Flag>, dismissed: set<string>)
    ensures Kept(flags, dismissed) == Select(flags, (f: Flag) => f.key !in dismissed)
  {
    if flags != [] {
      var n := |flags| - 1;
      KeptIsSelected(flags[..n], dismissed);
      LastApart(flags);
      SelectSnoc(flags[..n], flags[n], (f: Flag) => f.key !in dismissed);
    }
  }

  function Ties(flags: seq<Flag>, weight: real, key: string): seq<Flag> {
    Select(flags, (f: Flag) => f.weight == weight && f.key == key)
  }

  /** The same flags, heaviest first, equal weights in alphabetical order of their keys, and else as they stood. */
  ghost predicate IsRankingOf(ranked: seq<Flag>, flags: seq<Flag>) {
    && multiset(ranked) == multiset(flags)
    && (forall i, j :: 0 <= i < j < |ranked| ==>
          || ranked[i].weight > ranked[j].weight
          || (ranked[i].weight == ranked[j].weight && Alphabetical(ranked[i].key, ranked[j].key)))
    && (forall weight, key :: Ties(ranked, weight, key) == Ties(flags, weight, key))
  }

  lemma {:induction false} InsertTies(f: Flag, flags: seq<Flag>, weight: real, key: string)
    ensures Ties(Insert(f, flags), weight, key) == Ties([f] + flags, weight, key)
  {
    if flags != [] && !Before(f, flags[0]) {
      var out := Insert(f, flags);
      InsertTies(f, flags[1..], weight, key);
      assert out[1..] == Insert(f, flags[1..]) && out[0] == flags[0];
      assert ([f] + flags)[1..] == flags && ([f] + flags[1..])[1..] == flags[1..];
      BeforeItself(f);
      var tie := (g: Flag) => g.weight == weight && g.key == key;
      assert !(tie(f) && tie(flags[0]));
      var rest := Ties(flags[1..], weight, key);
      assert Ties([f] + flags[1..], weight, key) == (if tie(f) then [f] else []) + rest;
      assert Ties([f] + flags, weight, key) == (if tie(f) then [f] else []) + Ties(flags, weight, key);
    }
  }

  lemma {:induction false} RankTies(flags: seq<Flag>, weight: real, key: string)
    ensures Ties(Rank(flags), weight, key) == Ties(flags, weight, key)
  {
    if flags != [] {
      RankTies(flags[1..], weight, key);
      InsertTies(flags[0], Rank(flags[1..]), weight, key);
      assert ([flags[0]] + Rank(flags[1..]))[1..] == Rank(flags[1..]);
    }
  }

  lemma RankMeans(flags: seq<Flag>)
    ensures IsRankingOf(Rank(flags), flags)
  {
    var ranked := Rank(flags);
    RankIsARanking(flags);
    forall i, j | 0 <= i < j < |ranked|
      ensures ranked[i].weight > ranked[j].weight
              || (ranked[i].weight == ranked[j].weight && Alphabetical(ranked[i].key, ranked[j].key))
    {
      assert Before(ranked[i], ranked[j]);
      NameOrderIsAlphabetical(ranked[i].key, ranked[j].key);
    }
    forall weight, key ensures Ties(ranked, weight, key) == Ties(flags, weight, key) {
      RankTies(flags, weight, key);
    }
  }

  /** The first `n` of the ranked flags; with a negative `n` all but the last of that number. */
  ghost predicate AreShown(shown: seq<Flag>, kept: seq<Flag>, n: int) {
    exists ranked :: IsRankingOf(ranked, kept) && shown <= ranked
      && |shown| == if n >= 0 then (if |ranked| < n then |ranked| else n) else if |ranked| < -n then 0 else |ranked| + n
  }

  lemma TakenAreShown(kept: seq<Flag>, n: int)
    ensures AreShown(Take(Rank(kept), n), kept, n)
  {
    RankMeans(kept);
  }

  method Finish(flags: seq<Flag>, dismissed: set<string>, lim: Limits)
    returns (shown: seq<Flag>, beforeCap: nat, band: Band)
    ensures shown == Take(Rank(Kept(flags, dismissed)), lim.shown)
    ensures beforeCap == |Kept(flags, dismissed)| && band == BandOf(shown, lim)
    // said of the flags themselves
    ensures var kept := Select(flags, (f: Flag) => f.key !in dismissed);
            beforeCap == |kept| && AreShown(shown, kept, lim.shown) && IsBand(band, shown, lim)
  {
    var kept: seq<Flag> := [];
    for i := 0 to |flags|
      invariant kept == Kept(flags[..i], dismissed)
    {
      assert flags[..i + 1][..i] == flags[..i];
      if flags[i].key !in dismissed {
        kept := kept + [flags[i]];
      }
    }
    assert flags[..|flags|] == flags;
    beforeCap := |kept|;
    shown := Take(Rank(kept), lim.shown);
    band := AggregateBand(shown, lim);
    KeptIsSelected(flags, dismissed);
    TakenAreShown(kept, lim.shown);
    BandMeans(shown, lim);
  }

  // ----------------------------------------------------------------------- capping keeps the verdict

  lemma {:induction false} InsertCounts(f: Flag, flags: seq<Flag>, p: Flag -> bool)
    ensures Number(Insert(f, flags), p) == Number(flags, p) + if p(f) then 1 else 0
  {
    if flags == [] || Before(f, flags[0]) {
      assert ([f] + flags)[1..] == flags;
    } else {
      InsertCounts(f, flags[1..], p);
      assert ([flags[0]] + Insert(f, flags[1..]))[1..] == Insert(f, flags[1..]);
    }
  }

  lemma {:induction false} RankCounts(flags: seq<Flag>, p: Flag -> bool)
    ensures Number(Rank(flags), p) == Number(flags, p)
  {
    if flags != [] {
      RankCounts(flags[1..], p);
      InsertCounts(flags[0], Rank(flags[1..]), p);
    }
  }

  lemma {:induction false} ConcernsAndInfos(flags: seq<Flag>)
    ensures Number(flags, Concern) + Number(flags, IsInfo) == |flags| && Number(flags, Loud) <= Number(flags, Concern)
  {
    if flags != [] {
      ConcernsAndInfos(flags[1..]);
    }
  }

  /** The band looks at numbers only, so ranking does not move it. */
  lemma RankKeepsBand(flags: seq<Flag>, lim: Limits)
    ensures BandOf(Rank(flags), lim) == BandOf(flags, lim) && Number(Rank(flags), IsInfo) == Number(flags, IsInfo)
    ensures |Rank(flags)| == |flags|
  {
    RankCounts(flags, Concern);
    RankCounts(flags, Loud);
    RankCounts(flags, IsInfo);
    ConcernsAndInfos(Rank(flags));
    ConcernsAndInfos(flags);
  }

  /** With room for every info flag and for "several" real ones, what is cut off cannot matter. */
  lemma CapKeepsBand(flags: seq<Flag>, lim: Limits)
    requires lim.total >= 1 && lim.total + Number(flags, IsInfo) <= lim.shown
    ensures BandOf(Take(Rank(flags), lim.shown), lim) == BandOf(flags, lim)
  {
    var ranked := Rank(flags);
    RankKeepsBand(flags, lim);
    if |ranked| > lim.shown {
      var head, tail := ranked[..lim.shown], ranked[lim.shown..];
      assert ranked == head + tail;
      NumberConcat(head, tail, IsInfo);
      NumberConcat(head, tail, Concern);
      ConcernsAndInfos(head);
      assert Number(ranked, Concern) >= Number(head, Concern) >= lim.total;
    }
  }

  function Copies(f: Flag, n: nat): seq<Flag> {
    if n == 0 then [] else [f] + Copies(f, n - 1)
  }

  lemma {:induction false} CopiesCount(f: Flag, n: nat, p: Flag -> bool)
    ensures |Copies(f, n)| == n && (forall i :: 0 <= i < n ==> Copies(f, n)[i] == f)
    ensures Number(Copies(f, n), p) == if p(f) then n else 0
  {
    if n > 0 {
      CopiesCount(f, n - 1, p);
      assert Copies(f, n)[1..] == Copies(f, n - 1);
    }
  }

  lemma {:induction false} RankOfRanked(flags: seq<Flag>)
    requires Ranked(flags)
    ensures Rank(flags) == flags
  {
    if flags != [] {
      RankOfRanked(flags[1..]);
      if |flags| > 1 {
        assert Before(flags[0], flags[1]);
      }
    }
  }

  const NOTE := Flag("note", 1.0, Info)
  const MILD := Flag("mild", 0.0, Elevated)

  /** Some heavy notes, then some light real flags. */
  lemma NotesThenMild(notes: nat, mild: nat)
    ensures var flags := Copies(NOTE, notes) + Copies(MILD, mild);
            && Rank(flags) == flags && |flags| == notes + mild && Number(flags, IsInfo) == notes
            && Number(flags, Concern) == mild && Number(flags, Loud) == 0
  {
    var flags := Copies(NOTE, notes) + Copies(MILD, mild);
    CopiesCount(NOTE, notes, IsInfo);
    CopiesCount(NOTE, notes, Loud);
    CopiesCount(MILD, mild, IsInfo);
    CopiesCount(MILD, mild, Loud);
    NumberConcat(Copies(NOTE, notes), Copies(MILD, mild), IsInfo);
    NumberConcat(Copies(NOTE, notes), Copies(MILD, mild), Loud);
    ConcernsAndInfos(flags);
    forall i, j | 0 <= i < j < |flags| ensures Before(flags[i], flags[j]) {
      assert flags[i] == NOTE || (flags[i] == MILD && flags[j] == MILD);
      BeforeItself(flags[i]);
    }
    RankOfRanked(flags);
  }

  /** With less room than that, some list of flags is judged differently once capped. */
  lemma SmallCapCanChangeBand(infos: nat, lim: Limits) returns (flags: seq<Flag>)
    requires lim.total >= 1 && lim.standsOut >= 1 && lim.shown < lim.total + infos
    ensures Number(flags, IsInfo) <= infos && BandOf(Take(Rank(flags), lim.shown), lim) != BandOf(flags, lim)
  {
    var notes := if lim.shown < 0 then 0 else if lim.shown < infos then lim.shown else infos;
    var mild := if lim.shown < 0 then 1 else lim.total;
    flags := Copies(NOTE, notes) + Copies(MILD, mild);
    NotesThenMild(notes, mild);
    if lim.shown < 0 {
      assert Take(flags, lim.shown) == [];
    } else {
      var left := lim.shown - notes;
      NotesThenMild(notes, left);
      CopiesCount(MILD, mild, IsInfo);
      CopiesCount(MILD, left, IsInfo);
      assert Take(flags, lim.shown) == Copies(NOTE, notes) + Copies(MILD, left);
    }
  }

  ghost predicate CapIsSafe(infos: nat, lim: Limits) {
    forall flags :: Number(flags, IsInfo) <= infos ==> BandOf(Take(Rank(flags), lim.shown), lim) == BandOf(flags, lim)
  }

  /** The cap never changes the verdict exactly when it leaves room for "several" real flags beside every info flag. */
  lemma CapIsSafeExactly(infos: nat, lim: Limits)
    requires lim.total >= 1 && lim.standsOut >= 1
    ensures CapIsSafe(infos, lim) <==> lim.total + infos <= lim.shown
  {
    if lim.total + infos <= lim.shown {
      forall flags | Number(flags, IsInfo) <= infos
        ensures BandOf(Take(Rank(flags), lim.shown), lim) == BandOf(flags, lim)
      {
        CapKeepsBand(flags, lim);
      }
    } else {
      var flags := SmallCapCanChangeBand(infos, lim);
    }
  }

  /** With the shipped limits, and one info flag at most, as the check emits. */
  lemma DefaultCapIsSafe()
    ensures CapIsSafe(1, DEFAULTS) && !CapIsSafe(2, DEFAULTS)
  {
    CapIsSafeExactly(1, DEFAULTS);
    CapIsSafeExactly(2, DEFAULTS);
  }

  // -------------------------------------------------------------------------- dismissing flags

  function Level(b: Band): nat {
    match b case Typical => 0 case AFew => 1 case Several => 2
  }

  lemma {:induction false} DismissingRemoves(flags: seq<Flag>, some: set<string>, more: set<string>, p: Flag -> bool)
    requires some <= more
    ensures Number(Kept(flags, more), p) <= Number(Kept(flags, some), p)
  {
    if flags != [] {
      DismissingRemoves(flags[..|flags| - 1], some, more, p);
      NumberSnoc(Kept(flags[..|flags| - 1], some), flags[|flags| - 1], p);
      NumberSnoc(Kept(flags[..|flags| - 1], more), flags[|flags| - 1], p);
    }
  }

  /** Dismissing more flags never makes the verdict worse, cap or no cap, while the cap is safe. */
  lemma DismissingNeverWorsens(flags: seq<Flag>, some: set<string>, more: set<string>, lim: Limits)
    requires some <= more && lim.total >= 1 && lim.total + Number(Kept(flags, some), IsInfo) <= lim.shown
    ensures Level(BandOf(Take(Rank(Kept(flags, more)), lim.shown), lim))
            <= Level(BandOf(Take(Rank(Kept(flags, some)), lim.shown), lim))
  {
    DismissingRemoves(flags, some, more, IsInfo);
    DismissingRemoves(flags, some, more, Concern);
    DismissingRemoves(flags, some, more, Loud);
    CapKeepsBand(Kept(flags, some), lim);
    CapKeepsBand(Kept(flags, more), lim);
  }
}
