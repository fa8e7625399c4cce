/** What one batch answer of a long receipt says, and how the claims on the grand total are ranked. */
module ReceiptClaims {
  import opened Basics

  /**
   A value of a model reply. `figure` is the number the text parses to (0 when it parses to none), `whole`
   its value as an integer, `yes` whether it spells true or yes, `zero` whether it spells a bare zero.
   */
  datatype Value =
    | Blank
    | Flag(on: bool)
    | Rows(count: nat)
    | Text(figure: real, whole: Option<int>, yes: bool, zero: bool)

  /**
   One answer: its fields, whether it was marked low confidence, and the resolution of the page images
   it was read from. The program does not carry that last number; the model does, to say what is true.
   */
  datatype Reply = Reply(fields: map<string, Value>, low: bool, pixels: nat)

  function Field(r: Reply, name: string): Value {
    if name in r.fields then r.fields[name] else Blank
  }

  function Figure(v: Value): real {
    match v case Text(figure, _, _, _) => figure case _ => 0.0
  }

  // ------------------------------------------------------------------------------- read nothing

  const NON_CONTENT_KEYS: set<string> := {"continuation", "currency", "currency_marker"}

  predicate IsContent(key: string, v: Value) {
    && !(key != "" && key[0] == '_')
    && key !in NON_CONTENT_KEYS
    && match v
       case Blank => false
       case Flag(_) => false
       case Rows(count) => count > 0
       case Text(_, _, _, _) => true
  }

  /** Nothing in the answer could only come from reading the page. */
  predicate ReadNothing(r: Reply) {
    forall key <- r.fields :: !IsContent(key, r.fields[key])
  }

  /** One field more keeps an answer empty when it is a flag, a blank, an empty list, or kept by the program. */
  lemma OneFieldMore(r: Reply, key: string, v: Value)
    requires key !in r.fields
    ensures ReadNothing(r.(fields := r.fields[key := v])) <==>
              ReadNothing(r)
              && (v in {Blank, Flag(true), Flag(false), Rows(0)} || "_" <= key
                  || key in {"continuation", "currency", "currency_marker"})
  {
    var more := r.(fields := r.fields[key := v]);
    assert more.fields[key] == v && forall k <- r.fields :: k in more.fields && more.fields[k] == r.fields[k];
    assert "_" <= key <==> key != "" && key[0] == '_';
  }

  lemma EmptyReplyReadsNothing(r: Reply)
    requires r.fields == map[]
    ensures ReadNothing(r)
  {
  }

  // -------------------------------------------------------------------------- grand-total claims

  const PAGE_KEYS: seq<string> := ["grand_total_page", "grand_total_on_page", "total_page"]
  const FLAG_KEYS: seq<string> := ["has_grand_total", "shows_grand_total"]

  function NamedPage(r: Reply, keys: seq<string>): Option<nat> {
    if keys == [] then None
    else
      match Field(r, keys[0])
      case Text(_, Some(page), _, _) => if page > 0 then Some(page) else NamedPage(r, keys[1..])
      case _ => NamedPage(r, keys[1..])
  }

  predicate SaysYes(r: Reply, keys: seq<string>) {
    if keys == [] then false
    else
      match Field(r, keys[0])
      case Flag(on) => on || SaysYes(r, keys[1..])
      case Text(_, _, yes, _) => yes || SaysYes(r, keys[1..])
      case _ => SaysYes(r, keys[1..])
  }

  /** The page said to carry the grand total; 0 when it is claimed without a page. */
  function ClaimedPage(r: Reply): Option<nat> {
    var page := NamedPage(r, PAGE_KEYS);
    if page.Some? then page else if SaysYes(r, FLAG_KEYS) then Some(0) else None
  }

  function TotalField(r: Reply): Value {
    if Field(r, "total").Blank? then Field(r, "amount") else Field(r, "total")
  }

  /** A batch with the answer accepted for it. */
  datatype Reading = Reading(index: nat, lastPage: nat, dpi: nat, reply: Reply)

  datatype Claim = Claim(page: nat, index: nat, dpi: nat, reply: Reply, amount: real)

  function ClaimOf(r: Reading): Option<Claim> {
    var page, amount := ClaimedPage(r.reply), Figure(TotalField(r.reply));
    if page.None? || amount == 0.0 then None
    else Some(Claim(if page.value == 0 then r.lastPage else page.value, r.index, r.dpi, r.reply, amount))
  }

  // -------------------------------------------------------- claims, read off the fields of the answer

  predicate Filled(r: Reply, name: string) {
    name in r.fields && !r.fields[name].Blank?
  }

  /** The total an answer gives: its own field "total"; only when that is blank its field "amount". */
  ghost predicate IsTotalOf(v: Value, r: Reply) {
    && (Filled(r, "total") ==> v == r.fields["total"])
    && (!Filled(r, "total") && Filled(r, "amount") ==> v == r.fields["amount"])
    && (!Filled(r, "total") && !Filled(r, "amount") ==> v == Blank)
  }

  ghost predicate IsFigureOf(figure: real, r: Reply) {
    exists v :: IsTotalOf(v, r) && figure == if v.Text? then v.figure else 0.0
  }

  /** The field names a page: it reads as a positive whole number. */
  ghost predicate NamesPage(r: Reply, key: string, page: nat) {
    key in r.fields && page > 0 && r.fields[key].Text? && r.fields[key].whole == Some(page)
  }

  ghost predicate NamesNoPage(r: Reply, key: string) {
    forall page :: !NamesPage(r, key, page)
  }

  ghost predicate SaysYesIn(r: Reply, key: string) {
    key in r.fields && (r.fields[key] == Flag(true) || (r.fields[key].Text? && r.fields[key].yes))
  }

  /** The page a reading claims the grand total for: the first page named, else its last page if it just says yes. */
  ghost predicate IsPageOf(page: nat, r: Reading) {
    || NamesPage(r.reply, "grand_total_page", page)
    || (NamesNoPage(r.reply, "grand_total_page") && NamesPage(r.reply, "grand_total_on_page", page))
    || (NamesNoPage(r.reply, "grand_total_page") && NamesNoPage(r.reply, "grand_total_on_page")
        && NamesPage(r.reply, "total_page", page))
    || (NamesNoPage(r.reply, "grand_total_page") && NamesNoPage(r.reply, "grand_total_on_page")
        && NamesNoPage(r.reply, "total_page") && page == r.lastPage
        && (SaysYesIn(r.reply, "has_grand_total") || SaysYesIn(r.reply, "shows_grand_total")))
  }

  /** The claim a reading makes: a page and a figure that is not zero, both read off its answer. */
  ghost predicate IsClaimOf(c: Claim, r: Reading) {
    && c.index == r.index && c.dpi == r.dpi && c.reply == r.reply
    && IsPageOf(c.page, r)
    && IsFigureOf(c.amount, r.reply) && c.amount != 0.0
  }

  lemma TotalMeans(r: Reply)
    ensures IsTotalOf(TotalField(r), r) && IsFigureOf(Figure(TotalField(r)), r)
    ensures forall v :: IsTotalOf(v, r) ==> v == TotalField(r)
    ensures forall figure :: IsFigureOf(figure, r) ==> figure == Figure(TotalField(r))
  {
    assert IsTotalOf(TotalField(r), r);
  }

  lemma FirstKeyFirst(r: Reply, keys: seq<string>)
    requires keys != []
    ensures forall page: nat :: NamesPage(r, keys[0], page) ==> NamedPage(r, keys) == Some(page)
    ensures NamesNoPage(r, keys[0]) ==> NamedPage(r, keys) == NamedPage(r, keys[1..])
  {
    match Field(r, keys[0])
    case Text(_, Some(page), _, _) =>
      if page > 0 {
        assert NamesPage(r, keys[0], page);
      }
    case _ =>
  }

  lemma NamedPageMeans(r: Reply)
    ensures var named := NamedPage(r, PAGE_KEYS);
            forall page: nat :: named == Some(page) <==>
              || NamesPage(r, "grand_total_page", page)
              || (NamesNoPage(r, "grand_total_page") && NamesPage(r, "grand_total_on_page", page))
              || (NamesNoPage(r, "grand_total_page") && NamesNoPage(r, "grand_total_on_page")
                  && NamesPage(r, "total_page", page))
  {
    var named := NamedPage(r, PAGE_KEYS);
    FirstKeyFirst(r, PAGE_KEYS);
    FirstKeyFirst(r, PAGE_KEYS[1..]);
    FirstKeyFirst(r, PAGE_KEYS[2..]);
    assert PAGE_KEYS[1..][1..] == PAGE_KEYS[2..] && PAGE_KEYS[2..][1..] == [];
    assert NamedPage(r, []) == None;
    if NamesNoPage(r, "grand_total_page") && NamesNoPage(r, "grand_total_on_page") && NamesNoPage(r, "total_page") {
      assert named == None;
    }
  }

  lemma SaysYesMeans(r: Reply)
    ensures SaysYes(r, FLAG_KEYS) <==> SaysYesIn(r, "has_grand_total") || SaysYesIn(r, "shows_grand_total")
  {
    assert FLAG_KEYS[1..] == ["shows_grand_total"] && FLAG_KEYS[1..][1..] == [];
    assert SaysYes(r, FLAG_KEYS[1..]) <==> SaysYesIn(r, "shows_grand_total");
  }

  /** The claims of the program are those read off the fields, and each reading makes at most one. */
  lemma ClaimMeans(r: Reading, c: Claim)
    ensures ClaimOf(r) == Some(c) <==> IsClaimOf(c, r)
  {
    TotalMeans(r.reply);
    NamedPageMeans(r.reply);
    SaysYesMeans(r.reply);
  }

  lemma ReadNothingClaimsNothing(r: Reading)
    requires ReadNothing(r.reply)
    ensures ClaimOf(r).None? && forall c :: !IsClaimOf(c, r)
  {
    forall c ensures ClaimOf(r) == Some(c) <==> IsClaimOf(c, r) {
      ClaimMeans(r, c);
    }
    assert TotalField(r.reply).Text? ==>
        IsContent("total", Field(r.reply, "total")) || IsContent("amount", Field(r.reply, "amount"));
  }

  predicate NotAfter(a: Claim, b: Claim) {
    a.page < b.page || (a.page == b.page && a.index <= b.index)
  }

  function InsertClaim(c: Claim, cs: seq<Claim>): seq<Claim> {
    if cs == [] || NotAfter(c, cs[0]) then [c] + cs else [cs[0]] + InsertClaim(c, cs[1..])
  }

  /** The claims in page order, ties in batch order: the last one is the one the merge accepts. */
  function Claims(rs: seq<Reading>): seq<Claim> {
    if rs == [] then []
    else
      var rest, c := Claims(rs[1..]), ClaimOf(rs[0]);
      if c.Some? then InsertClaim(c.value, rest) else rest
  }

  ghost predicate InPageOrder(cs: seq<Claim>) {
    forall i, j :: 0 <= i < j < |cs| ==> NotAfter(cs[i], cs[j])
  }

  ghost predicate OnePerBatch(cs: seq<Claim>) {
    forall i, j :: 0 <= i < j < |cs| ==> cs[i].index != cs[j].index
  }

  lemma {:induction false} InsertClaimMembers(c: Claim, cs: seq<Claim>)
    ensures forall d :: d in InsertClaim(c, cs) <==> d == c || d in cs
    ensures |InsertClaim(c, cs)| == |cs| + 1
  {
    if cs == [] || NotAfter(c, cs[0]) {
    } else {
      InsertClaimMembers(c, cs[1..]);
      assert forall d :: d in cs <==> d == cs[0] || d in cs[1..];
    }
  }

  lemma {:induction false} InsertClaimOrders(c: Claim, cs: seq<Claim>)
    requires InPageOrder(cs) && OnePerBatch(cs) && forall d <- cs :: d.index != c.index
    ensures InPageOrder(InsertClaim(c, cs)) && OnePerBatch(InsertClaim(c, cs))
  {
    if cs == [] || NotAfter(c, cs[0]) {
    } else {
      InsertClaimOrders(c, cs[1..]);
      InsertClaimMembers(c, cs[1..]);
      var rest := InsertClaim(c, cs[1..]);
      forall j | 0 <= j < |rest| ensures NotAfter(cs[0], rest[j]) && cs[0].index != rest[j].index {
        assert rest[j] in rest;
        if rest[j] != c {
          var k :| 0 <= k < |cs[1..]| && cs[1..][k] == rest[j];
          assert NotAfter(cs[0], cs[k + 1]) && cs[0].index != cs[k + 1].index;
        }
      }
    }
  }

  ghost predicate OwnIndex(rs: seq<Reading>) {
    forall i, j :: 0 <= i < j < |rs| ==> rs[i].index != rs[j].index
  }

  lemma {:induction false} ClaimsAreRanked(rs: seq<Reading>)
    requires OwnIndex(rs)
    ensures InPageOrder(Claims(rs)) && OnePerBatch(Claims(rs))
    ensures forall c :: c in Claims(rs) <==> exists r <- rs :: ClaimOf(r) == Some(c)
  {
    if rs != [] {
      var rest, c := Claims(rs[1..]), ClaimOf(rs[0]);
      ClaimsAreRanked(rs[1..]);
      forall d <- rest ensures d.index != rs[0].index {
        var r :| r in rs[1..] && ClaimOf(r) == Some(d);
        var k :| 1 <= k < |rs| && rs[k] == r;
      }
      if c.Some? {
        InsertClaimMembers(c.value, rest);
        InsertClaimOrders(c.value, rest);
      }
      forall d ensures d in Claims(rs) <==> exists r <- rs :: ClaimOf(r) == Some(d) {
        assert rs[0] in rs;
        if d in rest {
          var r :| r in rs[1..] && ClaimOf(r) == Some(d);
          assert r in rs;
        }
        if r :| r in rs && ClaimOf(r) == Some(d) {
          assert r == rs[0] || r in rs[1..];
        }
      }
    }
  }

  /** The claims are exactly those the readings make, by page and then by batch. */
  lemma ClaimsAreRead(rs: seq<Reading>)
    requires OwnIndex(rs)
    ensures forall c :: c in Claims(rs) <==> exists r <- rs :: IsClaimOf(c, r)
    ensures forall i, j :: 0 <= i < j < |Claims(rs)| ==>
              var a, b := Claims(rs)[i], Claims(rs)[j];
              a.page < b.page || (a.page == b.page && a.index < b.index)
  {
    ClaimsAreRanked(rs);
    forall r, c ensures ClaimOf(r) == Some(c) <==> IsClaimOf(c, r) {
      ClaimMeans(r, c);
    }
    forall c ensures c in Claims(rs) <==> exists r <- rs :: IsClaimOf(c, r) {
      if r :| r in rs && IsClaimOf(c, r) {
        assert ClaimOf(r) == Some(c);
      }
      if c in Claims(rs) {
        var r :| r in rs && ClaimOf(r) == Some(c);
        assert IsClaimOf(c, r);
      }
    }
    forall i, j | 0 <= i < j < |Claims(rs)|
      ensures var a, b := Claims(rs)[i], Claims(rs)[j];
              a.page < b.page || (a.page == b.page && a.index < b.index)
    {
      assert NotAfter(Claims(rs)[i], Claims(rs)[j]);
    }
  }

  /** The reading makes this claim, and every other claim names an earlier page, or that page in an earlier batch. */
  ghost predicate IsAccepted(c: Claim, r: Reading, rs: seq<Reading>) {
    && IsClaimOf(c, r)
    && forall s <- rs, d ::
         IsClaimOf(d, s) ==> d == c || d.page < c.page || (d.page == c.page && d.index < c.index)
  }

  /** The claim the merge accepts is the one of the latest page, and among equal pages of the latest batch. */
  lemma AcceptedClaimIsLatest(rs: seq<Reading>) returns (k: nat)
    requires OwnIndex(rs) && Claims(rs) != []
    ensures k < |rs| && IsAccepted(Claims(rs)[|Claims(rs)| - 1], rs[k], rs)
  {
    ClaimsAreRead(rs);
    var last := Claims(rs)[|Claims(rs)| - 1];
    assert last in Claims(rs);
    k :| 0 <= k < |rs| && IsClaimOf(last, rs[k]);
    forall s <- rs, d | IsClaimOf(d, s)
      ensures d == last || d.page < last.page || (d.page == last.page && d.index < last.index)
    {
      assert d in Claims(rs);
      var i :| 0 <= i < |Claims(rs)| && Claims(rs)[i] == d;
    }
  }

  // ------------------------------------------------------------------------------- disagreement

  const TOTAL_AGREEMENT_TOLERANCE: real := 0.02

  predicate Agrees(amount: real, seen: seq<real>) {
    exists s <- seen :: Abs(amount - s) <= TOTAL_AGREEMENT_TOLERANCE
  }

  function DistinctTotals(cs: seq<Claim>): seq<real> {
    if cs == [] then []
    else
      var before := DistinctTotals(cs[..|cs| - 1]);
      if Agrees(cs[|cs| - 1].amount, before) then before else before + [cs[|cs| - 1].amount]
  }

  method CollectDistinct(cs: seq<Claim>) returns (distinct: seq<real>)
    ensures distinct == DistinctTotals(cs)
  {
    distinct := [];
    for i := 0 to |cs|
      invariant distinct == DistinctTotals(cs[..i])
    {
      assert cs[..i + 1][..i] == cs[..i];
      if !Agrees(cs[i].amount, distinct) {
        distinct := distinct + [cs[i].amount];
      }
    }
    assert cs[..|cs|] == cs;
  }

  predicate AllNearFirst(cs: seq<Claim>) {
    forall i :: 0 <= i < |cs| ==> Abs(cs[i].amount - cs[0].amount) <= TOTAL_AGREEMENT_TOLERANCE
  }

  /** Nobody disputes the total: whatever two readings claim is within two cents of what the earliest of them claims. */
  ghost predicate Undisputed(rs: seq<Reading>) {
    forall first, c, r <- rs, s <- rs ::
      IsClaimOf(first, r) && IsClaimOf(c, s) && IsEarliest(first, rs)
      ==> -0.02 <= c.amount - first.amount <= 0.02
  }

  ghost predicate IsEarliest(c: Claim, rs: seq<Reading>) {
    forall s <- rs, d ::
      IsClaimOf(d, s) ==> d == c || c.page < d.page || (c.page == d.page && c.index < d.index)
  }

  lemma FirstClaimIsEarliest(rs: seq<Reading>)
    requires OwnIndex(rs) && Claims(rs) != []
    ensures IsEarliest(Claims(rs)[0], rs) && exists r <- rs :: IsClaimOf(Claims(rs)[0], r)
    ensures forall c, r <- rs :: IsClaimOf(c, r) && IsEarliest(c, rs) ==> c == Claims(rs)[0]
  {
    var cs := Claims(rs);
    ClaimsAreRead(rs);
    assert cs[0] in cs;
    forall s <- rs, d | IsClaimOf(d, s)
      ensures d == cs[0] || cs[0].page < d.page || (cs[0].page == d.page && cs[0].index < d.index)
    {
      assert d in cs;
      var i :| 0 <= i < |cs| && cs[i] == d;
    }
    forall c, r <- rs | IsClaimOf(c, r) && IsEarliest(c, rs) ensures c == cs[0] {
      assert c in cs;
    }
  }

  lemma NearFirstIsUndisputed(rs: seq<Reading>)
    requires OwnIndex(rs) && AllNearFirst(Claims(rs))
    ensures Undisputed(rs)
  {
    var cs := Claims(rs);
    ClaimsAreRead(rs);
    forall first, c, r <- rs, s <- rs | IsClaimOf(first, r) && IsClaimOf(c, s) && IsEarliest(first, rs)
      ensures -0.02 <= c.amount - first.amount <= 0.02
    {
      assert c in cs;
      var i :| 0 <= i < |cs| && cs[i] == c;
      FirstClaimIsEarliest(rs);
    }
  }

  lemma UndisputedIsNearFirst(rs: seq<Reading>, c: Claim)
    requires OwnIndex(rs) && Undisputed(rs) && c in Claims(rs)
    ensures -0.02 <= c.amount - Claims(rs)[0].amount <= 0.02
  {
    ClaimsAreRead(rs);
    FirstClaimIsEarliest(rs);
    var r :| r in rs && IsClaimOf(Claims(rs)[0], r);
    var s :| s in rs && IsClaimOf(c, s);
  }

  lemma NearFirstMeansUndisputed(rs: seq<Reading>)
    requires OwnIndex(rs)
    ensures AllNearFirst(Claims(rs)) <==> Undisputed(rs)
  {
    var cs := Claims(rs);
    if AllNearFirst(cs) {
      NearFirstIsUndisputed(rs);
    }
    if Undisputed(rs) {
      forall i | 0 <= i < |cs| ensures Abs(cs[i].amount - cs[0].amount) <= TOTAL_AGREEMENT_TOLERANCE {
        assert cs[i] in cs;
        UndisputedIsNearFirst(rs, cs[i]);
      }
    }
  }

  /** "No disagreement" means exactly that every claim is within two cents of the first. */
  lemma {:induction false} OneDistinctTotalMeansAgreement(cs: seq<Claim>)
    ensures cs != [] ==> DistinctTotals(cs) != [] && DistinctTotals(cs)[0] == cs[0].amount
    ensures |DistinctTotals(cs)| <= 1 <==> AllNearFirst(cs)
  {
    if cs != [] {
      var n := |cs| - 1;
      OneDistinctTotalMeansAgreement(cs[..n]);
      if n > 0 {
        var before := DistinctTotals(cs[..n]);
        var near := Abs(cs[n].amount - cs[0].amount) <= TOTAL_AGREEMENT_TOLERANCE;
        assert AllNearFirst(cs) <==> AllNearFirst(cs[..n]) && near by {
          if AllNearFirst(cs[..n]) && near {
            forall i | 0 <= i < n + 1 ensures Abs(cs[i].amount - cs[0].amount) <= TOTAL_AGREEMENT_TOLERANCE {
              assert i < n ==> cs[..n][i] == cs[i];
            }
          }
        }
        if |before| == 1 {
          assert before == [cs[..n][0].amount] && before[0] in before;
          assert Agrees(cs[n].amount, before) <==> near;
        }
      }
    }
  }
}
