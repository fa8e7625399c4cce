/** Grouping links into chains: the connected components found by a queue-driven search. */
module LinkChains {
  import opened Basics
  import opened Transfers
  import opened GreedyAssignment

  datatype Chain = Chain(id: nat, members: seq<nat>, confidence: real)

  // ------------------------------------------------------------------------------ connectedness

  predicate Joins(c: Candidate, a: int, b: int) {
    (c.source == a && c.target == b) || (c.source == b && c.target == a)
  }

  ghost predicate Adjacent(cs: seq<Candidate>, a: int, b: int) {
    exists c <- cs :: Joins(c, a, b)
  }

  ghost predicate IsPath(cs: seq<Candidate>, path: seq<int>) {
    path != [] && forall j, k :: 0 <= j < |path| - 1 && k == j + 1 ==> Adjacent(cs, path[j], path[k])
  }

  ghost predicate PathBetween(cs: seq<Candidate>, path: seq<int>, a: int, b: int) {
    IsPath(cs, path) && path[0] == a && path[|path| - 1] == b
  }

  /** Some walk along links leads from row `a` to row `b`. */
  ghost predicate Connected(cs: seq<Candidate>, a: int, b: int) {
    exists path :: PathBetween(cs, path, a, b)
  }

  lemma ConnectedToItself(cs: seq<Candidate>, a: int)
    ensures Connected(cs, a, a)
  {
    assert PathBetween(cs, [a], a, a);
  }

  lemma AdjacentIsConnected(cs: seq<Candidate>, a: int, b: int)
    requires Adjacent(cs, a, b)
    ensures Connected(cs, a, b)
  {
    assert PathBetween(cs, [a, b], a, b);
  }

  lemma ConnectedIsTransitive(cs: seq<Candidate>, a: int, b: int, c: int)
    requires Connected(cs, a, b) && Connected(cs, b, c)
    ensures Connected(cs, a, c)
  {
    var p :| PathBetween(cs, p, a, b);
    var q :| PathBetween(cs, q, b, c);
    var r := p + q[1..];
    forall j, k | 0 <= j < |r| - 1 && k == j + 1 ensures Adjacent(cs, r[j], r[k]) {
      if k < |p| {
        assert Adjacent(cs, p[j], p[k]);
      } else {
        var m := j - |p| + 1;
        assert r[j] == q[m] && r[k] == q[m + 1];
      }
    }
    assert PathBetween(cs, r, a, c);
  }

  lemma {:induction false} PathsReverse(cs: seq<Candidate>, path: seq<int>)
    requires IsPath(cs, path)
    ensures Connected(cs, path[|path| - 1], path[0])
    decreases |path|
  {
    ConnectedToItself(cs, path[0]);
    if |path| > 1 {
      var front := path[..|path| - 1];
      PathsReverse(cs, front);
      assert Adjacent(cs, path[|path| - 2], path[|path| - 1]);
      var c :| c in cs && Joins(c, path[|path| - 2], path[|path| - 1]);
      assert Joins(c, path[|path| - 1], path[|path| - 2]);
      AdjacentIsConnected(cs, path[|path| - 1], path[|path| - 2]);
      ConnectedIsTransitive(cs, path[|path| - 1], path[|path| - 2], path[0]);
    }
  }

  lemma ConnectedIsSymmetric(cs: seq<Candidate>, a: int, b: int)
    requires Connected(cs, a, b)
    ensures Connected(cs, b, a)
  {
    var p :| PathBetween(cs, p, a, b);
    PathsReverse(cs, p);
  }

  ghost predicate Closed(cs: seq<Candidate>, rows: set<int>) {
    forall c <- cs :: c.source in rows <==> c.target in rows
  }

  /** No walk leaves a closed set of rows. */
  lemma {:induction false} ClosedSetsHoldPaths(cs: seq<Candidate>, rows: set<int>, path: seq<int>)
    requires Closed(cs, rows) && IsPath(cs, path) && path[0] in rows
    ensures path[|path| - 1] in rows
    decreases |path|
  {
    if |path| > 1 {
      assert Adjacent(cs, path[0], path[1]);
      ClosedSetsHoldPaths(cs, rows, path[1..]);
    }
  }

  // ---------------------------------------------------------------------------------- the search

  predicate ListsTouching(cs: seq<Candidate>, t: int, indices: seq<nat>) {
    forall i <- indices :: i < |cs| && Touches(cs[i], t)
  }

  /** `adjacency` lists, for every row some link touches, the links touching it. */
  ghost predicate IsAdjacency(cs: seq<Candidate>, adjacency: map<int, seq<nat>>) {
    && (forall t <- adjacency :: ListsTouching(cs, t, adjacency[t]))
    && (forall i :: 0 <= i < |cs| ==>
          && cs[i].source in adjacency && i in adjacency[cs[i].source]
          && cs[i].target in adjacency && i in adjacency[cs[i].target])
  }

  function Touching(adjacency: map<int, seq<nat>>, t: int): seq<nat> {
    if t in adjacency then adjacency[t] else []
  }

  lemma AdjacencyGrows(cs: seq<Candidate>, c: Candidate, adjacency: map<int, seq<nat>>, grown: map<int, seq<nat>>)
    requires IsAdjacency(cs, adjacency)
    requires var once := adjacency[c.source := Touching(adjacency, c.source) + [|cs|]];
             grown == once[c.target := Touching(once, c.target) + [|cs|]]
    ensures IsAdjacency(cs + [c], grown)
  {
    var all := cs + [c];
    forall t <- grown ensures ListsTouching(all, t, grown[t]) {
      assert ListsTouching(cs, t, Touching(adjacency, t));
      forall i <- grown[t] ensures i < |all| && Touches(all[i], t) {
        assert i == |cs| || i in Touching(adjacency, t);
      }
    }
    forall i | 0 <= i < |cs|
      ensures i in Touching(grown, cs[i].source) && i in Touching(grown, cs[i].target)
    {
      assert i in adjacency[cs[i].source] && i in adjacency[cs[i].target];
    }
  }

  method BuildAdjacency(links: seq<Link>) returns (adjacency: map<int, seq<nat>>)
    ensures IsAdjacency(Pairs(links), adjacency)
  {
    adjacency := map[];
    for i := 0 to |links|
      invariant IsAdjacency(Pairs(links)[..i], adjacency)
    {
      ghost var before := adjacency;
      var c := links[i].candidate;
      adjacency := adjacency[c.source := Touching(adjacency, c.source) + [i]];
      adjacency := adjacency[c.target := Touching(adjacency, c.target) + [i]];
      AdjacencyGrows(Pairs(links)[..i], c, before, adjacency);
      assert Pairs(links)[..i + 1] == Pairs(links)[..i] + [c];
    }
    assert Pairs(links)[..|links|] == Pairs(links);
  }

  /** The named links are pairwise different as records. */
  ghost predicate NoneEqual(links: seq<Link>, members: seq<nat>) {
    forall a, b :: 0 <= a < b < |members| ==>
      members[a] < |links| && members[b] < |links| && links[members[a]] != links[members[b]]
  }

  /** `members` names each distinct link among `rows` once, and no other link. */
  ghost predicate Represents(links: seq<Link>, members: seq<nat>, rows: set<int>) {
    && (forall m <- members :: m < |links| && links[m].candidate.source in rows)
    && NoneEqual(links, members)
    && (forall i {:trigger HasEqual(links, members, i)} ::
          0 <= i < |links| && links[i].candidate.source in rows ==> HasEqual(links, members, i))
  }

  ghost predicate HasEqual(links: seq<Link>, members: seq<nat>, i: nat)
    requires i < |links|
  {
    exists m <- members :: m < |links| && links[m] == links[i]
  }

  function OppositeEnd(c: Candidate, t: int): int {
    if c.source == t then c.target else c.source
  }

  /** One row's links are recorded, and its neighbours are known or queued. */
  ghost predicate Expanded(links: seq<Link>, members: seq<nat>, i: nat, t: int, known: set<int>, queue: seq<int>)
    requires i < |links|
  {
    HasEqual(links, members, i) && (OppositeEnd(links[i].candidate, t) in known
        || OppositeEnd(links[i].candidate, t) in queue)
  }

  ghost predicate Reached(cs: seq<Candidate>, start: int, known: set<int>, queue: seq<int>) {
    (forall t <- known :: Connected(cs, start, t)) && (forall t <- queue :: Connected(cs, start, t))
  }

  ghost predicate GoodMembers(links: seq<Link>, members: seq<nat>, known: set<int>) {
    && (forall m <- members :: m < |links| && (exists t <- known :: Touches(links[m].candidate, t)))
    && NoneEqual(links, members)
  }

  lemma ExpandedGrows(links: seq<Link>, members: seq<nat>, more: seq<nat>, i: nat, t: int, known: set<int>,
                      queue: seq<int>, longer: seq<int>)
    requires i < |links| && Expanded(links, members, i, t, known, queue) && members <= more && queue <= longer
    ensures Expanded(links, more, i, t, known, longer)
  {
    var m :| m in members && m < |links| && links[m] == links[i];
    assert m in more;
  }

  /** Records a link unless an equal one is recorded already. */
  method Record(links: seq<Link>, members: seq<nat>, i: nat, ghost t: int, ghost known: set<int>)
    returns (more: seq<nat>)
    requires GoodMembers(links, members, known) && i < |links| && t in known && Touches(links[i].candidate, t)
    ensures GoodMembers(links, more, known) && members <= more && HasEqual(links, more, i)
  {
    more := members;
    if forall m <- members :: links[m] != links[i] {
      more := members + [i];
      assert more[|members|] == i;
      assert forall a :: 0 <= a < |members| ==> members[a] in members;
    }
  }

  /** The row at the other end of a link is connected too. */
  lemma NeighbourIsConnected(cs: seq<Candidate>, start: int, t: int, i: nat)
    requires i < |cs| && Touches(cs[i], t) && Connected(cs, start, t)
    ensures Connected(cs, start, OppositeEnd(cs[i], t))
  {
    assert cs[i] in cs && Joins(cs[i], t, OppositeEnd(cs[i], t));
    AdjacentIsConnected(cs, t, OppositeEnd(cs[i], t));
    ConnectedIsTransitive(cs, start, t, OppositeEnd(cs[i], t));
  }

  method Visit(links: seq<Link>, adjacency: map<int, seq<nat>>, start: int, t: int,
               members0: seq<nat>, known: set<int>, queue0: seq<int>)
    returns (members: seq<nat>, queue: seq<int>)
    requires IsAdjacency(Pairs(links), adjacency)
    requires t in known && Reached(Pairs(links), start, known, queue0) && GoodMembers(links, members0, known)
    ensures Reached(Pairs(links), start, known, queue) && GoodMembers(links, members, known)
    ensures members0 <= members && queue0 <= queue
    ensures forall q <- queue :: q in queue0 || q in adjacency
    ensures forall i ::
            0 <= i < |links| && Touches(links[i].candidate, t)
            ==> Expanded(links, members, i, t, known, queue)
  {
    ghost var cs := Pairs(links);
    members, queue := members0, queue0;
    var adjacent := Touching(adjacency, t);
    for k := 0 to |adjacent|
      invariant Reached(cs, start, known, queue) && GoodMembers(links, members, known)
      invariant members0 <= members && queue0 <= queue
      invariant forall q <- queue :: q in queue0 || q in adjacency
      invariant forall i <- adjacent[..k] :: i < |links| && Expanded(links, members, i, t, known, queue)
    {
      var i := adjacent[k];
      assert i < |cs| && cs[i] == links[i].candidate && Touches(cs[i], t);
      ghost var before, queueBefore := members, queue;
      members := Record(links, members, i, t, known);
      var other := OppositeEnd(links[i].candidate, t);
      if other !in known {
        NeighbourIsConnected(cs, start, t, i);
        queue := queue + [other];
      }
      assert adjacent[..k + 1] == adjacent[..k] + [i];
      forall j <- adjacent[..k] ensures Expanded(links, members, j, t, known, queue) {
        ExpandedGrows(links, before, members, j, t, known, queueBefore, queue);
      }
    }
    assert adjacent[..|adjacent|] == adjacent;
    forall i | 0 <= i < |links| && Touches(links[i].candidate, t)
      ensures Expanded(links, members, i, t, known, queue)
    {
      assert cs[i] == links[i].candidate;
    }
  }

  ghost predicate AllExpanded(links: seq<Link>, members: seq<nat>, rows: set<int>, queue: seq<int>) {
    forall t <- rows, i :: 0 <= i < |links| && Touches(links[i].candidate, t)
        ==> Expanded(links, members, i, t, rows, queue)
  }

  lemma QueueHeadKnown(links: seq<Link>, members: seq<nat>, rows: set<int>, queue: seq<int>)
    requires AllExpanded(links, members, rows, queue) && queue != [] && queue[0] in rows
    ensures AllExpanded(links, members, rows, queue[1..])
  {
    forall t <- rows, i | 0 <= i < |links| && Touches(links[i].candidate, t)
      ensures Expanded(links, members, i, t, rows, queue[1..])
    {
      assert Expanded(links, members, i, t, rows, queue);
    }
  }

  lemma QueueHeadExpanded(links: seq<Link>, members: seq<nat>, rows: set<int>, queue: seq<int>, more: seq<nat>,
                          longer: seq<int>)
    requires AllExpanded(links, members, rows, queue) && queue != []
    requires members <= more && queue[1..] <= longer
    requires forall i :: 0 <= i < |links| && Touches(links[i].candidate, queue[0]) ==>
               Expanded(links, more, i, queue[0], rows + {queue[0]}, longer)
    ensures AllExpanded(links, more, rows + {queue[0]}, longer)
  {
    forall t <- rows + {queue[0]}, i | 0 <= i < |links| && Touches(links[i].candidate, t)
      ensures Expanded(links, more, i, t, rows + {queue[0]}, longer)
    {
      if t != queue[0] {
        assert Expanded(links, members, i, t, rows, queue);
        var m :| m in members && m < |links| && links[m] == links[i];
        assert m in more;
        var other := OppositeEnd(links[i].candidate, t);
        if other !in rows && other != queue[0] {
          assert other in queue[1..] && other in longer;
        }
      }
    }
  }

  /** When the queue is empty the known rows are exactly the component, and its links are represented. */
  lemma SearchIsComplete(links: seq<Link>, members: seq<nat>, start: int, rows: set<int>)
    requires AllExpanded(links, members, rows, []) && start in rows
    requires Reached(Pairs(links), start, rows, []) && GoodMembers(links, members, rows)
    ensures forall t :: t in rows <==> Connected(Pairs(links), start, t)
    ensures Represents(links, members, rows)
  {
    var cs := Pairs(links);
    forall i | 0 <= i < |cs| ensures cs[i].source in rows <==> cs[i].target in rows {
      if cs[i].source in rows { assert Expanded(links, members, i, cs[i].source, rows, []); }
      if cs[i].target in rows { assert Expanded(links, members, i, cs[i].target, rows, []); }
    }
    forall t | Connected(cs, start, t) ensures t in rows {
      var path :| PathBetween(cs, path, start, t);
      ClosedSetsHoldPaths(cs, rows, path);
    }
    forall m <- members ensures m < |links| && links[m].candidate.source in rows {
      assert cs[m] == links[m].candidate;
    }
    forall i | 0 <= i < |links| && links[i].candidate.source in rows ensures HasEqual(links, members, i) {
      assert Expanded(links, members, i, links[i].candidate.source, rows, []);
    }
  }

  /** Collects the links and rows connected to `start`. */
  method Explore(links: seq<Link>, adjacency: map<int, seq<nat>>, start: int)
    returns (members: seq<nat>, rows: set<int>)
    requires IsAdjacency(Pairs(links), adjacency) && start in adjacency
    ensures forall t :: t in rows <==> Connected(Pairs(links), start, t)
    ensures Represents(links, members, rows)
  {
    var queue := [start];
    members, rows := [], {};
    ConnectedToItself(Pairs(links), start);
    while queue != []
      invariant Reached(Pairs(links), start, rows, queue) && GoodMembers(links, members, rows)
      invariant start in rows || start in queue
      invariant rows <= adjacency.Keys && forall q <- queue :: q in adjacency
      invariant AllExpanded(links, members, rows, queue)
      decreases |adjacency.Keys - rows|, |queue|
    {
      var t := queue[0];
      ghost var queueBefore, rowsBefore, membersBefore := queue, rows, members;
      queue := queue[1..];
      assert forall q <- queueBefore :: q == t || q in queue;
      if t in rows {
        QueueHeadKnown(links, members, rows, queueBefore);
      } else {
        rows := rows + {t};
        LessToVisit(adjacency.Keys, rowsBefore, t);
        members, queue := Visit(links, adjacency, start, t, members, rows, queue);
        QueueHeadExpanded(links, membersBefore, rowsBefore, queueBefore, members, queue);
      }
    }
    SearchIsComplete(links, members, start, rows);
  }

  lemma LessToVisit(all: set<int>, rows: set<int>, t: int)
    requires t in all && t !in rows
    ensures |all - (rows + {t})| < |all - rows|
  {
    assert all - rows == (all - (rows + {t})) + {t};
  }

  // ---------------------------------------------------------------------------------- labelling

  predicate InRange(links: seq<Link>, members: seq<nat>) {
    forall k :: 0 <= k < |members| ==> members[k] < |links|
  }

  /** The chain id of the first member that already carries one. */
  function FirstChain(links: seq<Link>, members: seq<nat>): Option<nat>
    requires InRange(links, members)
  {
    if members == [] then None
    else if links[members[0]].chain.Some? then links[members[0]].chain
    else FirstChain(links, members[1..])
  }

  /** Rows reachable from the chain's first link. */
  ghost predicate InComponent(links: seq<Link>, chain: Chain, t: int)
    requires chain.members != [] && chain.members[0] < |links|
  {
    Connected(Pairs(links), links[chain.members[0]].candidate.source, t)
  }

  /** The chain holds two or more distinct links, and exactly those of one connected component. */
  ghost predicate IsComponent(links: seq<Link>, chain: Chain) {
    && |chain.members| >= 2
    && InRange(links, chain.members)
    && NoneEqual(links, chain.members)
    && (forall m <- chain.members :: InComponent(links, chain, links[m].candidate.source))
    && (forall i {:trigger HasEqual(links, chain.members, i)} ::
          0 <= i < |links| && InComponent(links, chain, links[i].candidate.source)
          ==> HasEqual(links, chain.members, i))
  }

  function Stamped(link: Link, id: nat, renumber: bool, k: nat): Link {
    link.(chain := Some(id), position := if renumber then k else link.position)
  }

  /** Its members carry its id; they are renumbered only when no member had an id before. */
  ghost predicate IsLabelled(links: seq<Link>, out: seq<Link>, chain: Chain, minted: nat)
    requires |out| == |links| && InRange(links, chain.members)
  {
    var existing := FirstChain(links, chain.members);
    && (if existing.Some? then chain.id == existing.value else chain.id >= minted)
    && (forall k :: 0 <= k < |chain.members| ==>
          var m := chain.members[k];
          out[m] == Stamped(links[m], chain.id, existing == None, k))
    && chain.confidence == Average(ScoreTotal(links, chain.members), |chain.members|)
  }

  function Average(total: real, n: nat): real {
    if n == 0 then 0.0 else total / n as real
  }

  function ScoreTotal(links: seq<Link>, members: seq<nat>): real
    requires InRange(links, members)
  {
    if members == [] then 0.0
    else ScoreTotal(links, members[..|members| - 1]) + links[members[|members| - 1]].candidate.score
  }

  method Label(links: seq<Link>, members: seq<nat>, next: nat)
    returns (out: seq<Link>, chain: Chain, after: nat)
    requires |members| >= 2 && NoneEqual(links, members) && InRange(links, members)
    ensures |out| == |links| && Pairs(out) == Pairs(links) && chain.members == members
    ensures IsLabelled(links, out, chain, next)
    ensures forall i :: 0 <= i < |links| && i !in members ==> out[i] == links[i]
    ensures next <= after && (FirstChain(links, members).None? ==> next == chain.id < after)
  {
    var existing := None;
    var k := 0;
    while k < |members| && existing == None
      invariant 0 <= k <= |members|
      invariant FirstChain(links, members) == if existing.Some? then existing else FirstChain(links, members[k..])
    {
      existing := links[members[k]].chain;
      k := k + 1;
    }
    var id;
    if existing.Some? {
      id, after := existing.value, next;
    } else {
      id, after := next, next + 1;
    }
    var total;
    out, total := Stamp(links, members, id, existing == None);
    chain := Chain(id, members, Average(total, |members|));
  }

  lemma NotYetStamped(links: seq<Link>, members: seq<nat>, i: nat)
    requires NoneEqual(links, members) && InRange(links, members) && i < |members|
    ensures members[i] !in members[..i]
  {
    forall k | 0 <= k < i ensures members[k] != members[i] {
      assert links[members[k]] != links[members[i]];
    }
  }

  lemma PairsOfStamped(links: seq<Link>, m: nat, stamped: Link)
    requires m < |links| && stamped.candidate == links[m].candidate
    ensures Pairs(links[m := stamped]) == Pairs(links)
  {
  }

  /** The first `i` members carry the chain's id and their positions; no other link has changed. */
  ghost predicate StampedUpTo(links: seq<Link>, members: seq<nat>, id: nat, renumber: bool, out: seq<Link>, i: nat)
    requires InRange(links, members) && i <= |members|
  {
    && |out| == |links| && Pairs(out) == Pairs(links)
    && (forall j :: 0 <= j < |links| && j !in members[..i] ==> out[j] == links[j])
    && (forall k :: 0 <= k < i ==> out[members[k]] == Stamped(links[members[k]], id, renumber, k))
  }

  lemma StampOne(links: seq<Link>, members: seq<nat>, id: nat, renumber: bool, out: seq<Link>, i: nat)
    requires NoneEqual(links, members) && InRange(links, members) && i < |members|
    requires StampedUpTo(links, members, id, renumber, out, i)
    ensures out[members[i]] == links[members[i]]
    ensures StampedUpTo(links, members, id, renumber, out[members[i] := Stamped(links[members[i]], id, renumber, i)],
            i + 1)
  {
    NotYetStamped(links, members, i);
    PairsOfStamped(out, members[i], Stamped(links[members[i]], id, renumber, i));
    assert members[..i + 1] == members[..i] + [members[i]];
    assert forall k :: 0 <= k < i ==> members[k] in members[..i];
  }

  method Stamp(links: seq<Link>, members: seq<nat>, id: nat, renumber: bool) returns (out: seq<Link>, total: real)
    requires NoneEqual(links, members) && InRange(links, members)
    ensures |out| == |links| && Pairs(out) == Pairs(links)
    ensures forall i :: 0 <= i < |links| && i !in members ==> out[i] == links[i]
    ensures forall k :: 0 <= k < |members| ==> out[members[k]] == Stamped(links[members[k]], id, renumber, k)
    ensures total == ScoreTotal(links, members)
  {
    out, total := links, 0.0;
    for i := 0 to |members|
      invariant StampedUpTo(links, members, id, renumber, out, i)
      invariant total == ScoreTotal(links, members[..i])
    {
      var m := members[i];
      assert members[..i + 1][..i] == members[..i];
      StampOne(links, members, id, renumber, out, i);
      out := out[m := Stamped(out[m], id, renumber, i)];
      total := total + out[m].candidate.score;
    }
    assert members[..|members|] == members;
  }

  ghost predicate InSomeChain(chains: seq<Chain>, i: nat) {
    exists chain <- chains :: i in chain.members
  }

  ghost predicate Apart(links: seq<Link>, a: Chain, b: Chain)
    requires IsComponent(links, a) && IsComponent(links, b)
  {
    !InComponent(links, a, links[b.members[0]].candidate.source)
  }

  ghost predicate LinksConnected(links: seq<Link>, i: nat, j: nat)
    requires i < |links| && j < |links|
  {
    Connected(Pairs(links), links[i].candidate.source, links[j].candidate.source)
  }

  ghost predicate HasCompanion(links: seq<Link>, i: nat)
    requires i < |links|
  {
    exists j :: 0 <= j < |links| && links[j] != links[i] && LinksConnected(links, i, j)
  }

  /** Some chain spans the component of link `i`. */
  ghost predicate Spanned(links: seq<Link>, chains: seq<Chain>, i: nat)
    requires i < |links|
  {
    exists chain <- chains :: IsComponent(links, chain) && InComponent(links, chain, links[i].candidate.source)
  }

  ghost predicate Stands(links: seq<Link>, minted: nat, out: seq<Link>, chain: Chain)
    requires |out| == |links|
  {
    IsComponent(links, chain) && IsLabelled(links, out, chain, minted)
  }

  ghost predicate AllStand(links: seq<Link>, minted: nat, out: seq<Link>, chains: seq<Chain>)
    requires |out| == |links|
  {
    forall k :: 0 <= k < |chains| ==> Stands(links, minted, out, chains[k])
  }

  ghost predicate AllApart(links: seq<Link>, chains: seq<Chain>)
    requires forall k :: 0 <= k < |chains| ==> IsComponent(links, chains[k])
  {
    forall a, b :: 0 <= a < b < |chains| ==> Apart(links, chains[a], chains[b])
  }

  ghost predicate OthersUntouched(links: seq<Link>, out: seq<Link>, chains: seq<Chain>)
    requires |out| == |links|
  {
    forall i :: 0 <= i < |links| && !InSomeChain(chains, i) ==> out[i] == links[i]
  }

  ghost predicate GoodChains(links: seq<Link>, minted: nat, out: seq<Link>, chains: seq<Chain>)
    requires |out| == |links|
  {
    && AllStand(links, minted, out, chains)
    && AllApart(links, chains)
    && OthersUntouched(links, out, chains)
  }

  /** What the chain pass leaves behind, for any list of links. */
  ghost predicate Chained(links: seq<Link>, minted: nat, out: seq<Link>, chains: seq<Chain>) {
    && |out| == |links|
    && GoodChains(links, minted, out, chains)
    && (forall i {:trigger HasCompanion(links, i)} {:trigger Spanned(links, chains, i)} ::
          0 <= i < |links| && HasCompanion(links, i) ==> Spanned(links, chains, i))
    && FreshIdsDiffer(links, chains)
  }

  /** Chains that had to mint an id minted different ones. */
  ghost predicate FreshIdsDiffer(links: seq<Link>, chains: seq<Chain>)
    requires forall k :: 0 <= k < |chains| ==> InRange(links, chains[k].members)
  {
    forall a, b :: 0 <= a < b < |chains|
      && FirstChain(links, chains[a].members).None? && FirstChain(links, chains[b].members).None?
      ==> chains[a].id != chains[b].id
  }

  ghost predicate IdsBelow(links: seq<Link>, chains: seq<Chain>, next: nat)
    requires forall k :: 0 <= k < |chains| ==> InRange(links, chains[k].members)
  {
    forall k :: 0 <= k < |chains| && FirstChain(links, chains[k].members).None? ==> chains[k].id < next
  }

  ghost predicate ClosedUnder(cs: seq<Candidate>, visited: set<int>) {
    forall t, u :: t in visited && Connected(cs, t, u) ==> u in visited
  }

  ghost predicate ChainsWithin(links: seq<Link>, chains: seq<Chain>, visited: set<int>) {
    forall k :: 0 <= k < |chains| ==>
      forall m <- chains[k].members :: m < |links| && links[m].candidate.source in visited
  }

  ghost predicate SpannedWithin(links: seq<Link>, chains: seq<Chain>, visited: set<int>) {
    forall i {:trigger HasCompanion(links, i)} {:trigger Spanned(links, chains, i)} ::
      0 <= i < |links| && links[i].candidate.source in visited && HasCompanion(links, i) ==> Spanned(links, chains, i)
  }

  /** A newly explored component is disjoint from everything visited, and closed. */
  lemma NewComponent(cs: seq<Candidate>, visited: set<int>, start: int, rows: set<int>)
    requires ClosedUnder(cs, visited)
    requires start !in visited && forall t :: t in rows <==> Connected(cs, start, t)
    ensures rows !! visited && start in rows
    ensures ClosedUnder(cs, rows) && ClosedUnder(cs, visited + rows)
    ensures forall t <- rows, u <- rows :: Connected(cs, t, u)
  {
    ConnectedToItself(cs, start);
    forall t <- rows ensures Connected(cs, t, start) {
      ConnectedIsSymmetric(cs, start, t);
    }
    assert forall t <- rows :: t !in visited;
    forall t, u | t in rows && Connected(cs, t, u) ensures u in rows {
      ConnectedIsTransitive(cs, start, t, u);
    }
    forall t <- rows, u <- rows ensures Connected(cs, t, u) {
      ConnectedIsTransitive(cs, t, start, u);
    }
  }

  /** A component with one representative has no companions to span. */
  lemma LoneComponent(links: seq<Link>, members: seq<nat>, rows: set<int>, i: nat)
    requires Represents(links, members, rows) && |members| < 2
    requires ClosedUnder(Pairs(links), rows)
    requires i < |links| && links[i].candidate.source in rows
    ensures !HasCompanion(links, i)
  {
    forall j | 0 <= j < |links| && LinksConnected(links, i, j) ensures links[j] == links[i] {
      assert HasEqual(links, members, i) && HasEqual(links, members, j);
    }
  }

  lemma SpannedStaysSpanned(links: seq<Link>, chains: seq<Chain>, chain: Chain, i: nat)
    requires i < |links| && Spanned(links, chains, i)
    ensures Spanned(links, chains + [chain], i)
  {
    var c :| c in chains && IsComponent(links, c) && InComponent(links, c, links[i].candidate.source);
    assert c in chains + [chain];
  }

  lemma FullComponent(links: seq<Link>, chain: Chain, rows: set<int>)
    requires Represents(links, chain.members, rows) && |chain.members| >= 2
    requires ClosedUnder(Pairs(links), rows) && forall t <- rows, u <- rows :: Connected(Pairs(links), t, u)
    ensures IsComponent(links, chain)
  {
    assert chain.members[0] in chain.members && chain.members[1] in chain.members;
    forall k | 0 <= k < |chain.members| ensures chain.members[k] < |links| {
      assert chain.members[k] in chain.members;
    }
  }

  lemma OlderChainStands(links: seq<Link>, minted: nat, before: seq<Link>, out: seq<Link>, older: Chain,
                         members: seq<nat>)
    requires |before| == |out| == |links| && Stands(links, minted, before, older)
    requires forall m <- older.members :: m !in members
    requires forall i :: 0 <= i < |links| && i !in members ==> out[i] == before[i]
    ensures Stands(links, minted, out, older)
  {
    forall j | 0 <= j < |older.members| ensures out[older.members[j]] == before[older.members[j]] {
      assert older.members[j] in older.members;
    }
  }

  lemma OlderChainApart(links: seq<Link>, older: Chain, chain: Chain, visited: set<int>)
    requires IsComponent(links, older) && IsComponent(links, chain)
    requires ClosedUnder(Pairs(links), visited)
    requires links[older.members[0]].candidate.source in visited
    requires links[chain.members[0]].candidate.source !in visited
    ensures Apart(links, older, chain)
  {
  }

  lemma ChainsStillStand(links: seq<Link>, minted: nat, before: seq<Link>, out: seq<Link>, chains: seq<Chain>,
                         chain: Chain, visited: set<int>)
    requires |before| == |out| == |links| && AllStand(links, minted, before, chains)
    requires ChainsWithin(links, chains, visited)
    requires Stands(links, minted, out, chain)
    requires forall m <- chain.members :: m < |links| && links[m].candidate.source !in visited
    requires forall i :: 0 <= i < |links| && i !in chain.members ==> out[i] == before[i]
    ensures AllStand(links, minted, out, chains + [chain])
  {
    forall k | 0 <= k < |chains| ensures Stands(links, minted, out, chains[k]) {
      assert Stands(links, minted, before, chains[k]);
      OlderChainStands(links, minted, before, out, chains[k], chain.members);
    }
  }

  lemma ChainsStayApart(links: seq<Link>, minted: nat, before: seq<Link>, chains: seq<Chain>, chain: Chain,
                        visited: set<int>)
    requires |before| == |links| && AllStand(links, minted, before, chains) && AllApart(links, chains)
    requires ClosedUnder(Pairs(links), visited) && ChainsWithin(links, chains, visited)
    requires IsComponent(links, chain) && links[chain.members[0]].candidate.source !in visited
    ensures forall k :: 0 <= k < |chains + [chain]| ==> IsComponent(links, (chains + [chain])[k])
    ensures AllApart(links, chains + [chain])
  {
    forall k | 0 <= k < |chains| ensures IsComponent(links, chains[k]) && Apart(links, chains[k], chain) {
      assert Stands(links, minted, before, chains[k]);
      assert chains[k].members[0] in chains[k].members;
      OlderChainApart(links, chains[k], chain, visited);
    }
  }

  lemma OthersStayUntouched(links: seq<Link>, before: seq<Link>, out: seq<Link>, chains: seq<Chain>, chain: Chain)
    requires |before| == |out| == |links| && OthersUntouched(links, before, chains)
    requires forall i :: 0 <= i < |links| && i !in chain.members ==> out[i] == before[i]
    ensures OthersUntouched(links, out, chains + [chain])
  {
    var more := chains + [chain];
    forall i | 0 <= i < |links| && !InSomeChain(more, i) ensures out[i] == links[i] {
      assert chain in more;
      forall c <- chains ensures c in more {}
    }
  }

  lemma UntouchedSoFar(links: seq<Link>, out: seq<Link>, chains: seq<Chain>, visited: set<int>, rows: set<int>)
    requires |out| == |links| && OthersUntouched(links, out, chains)
    requires ChainsWithin(links, chains, visited) && rows !! visited
    ensures forall j :: 0 <= j < |links| && links[j].candidate.source in rows ==> out[j] == links[j]
  {
    forall j | 0 <= j < |links| && links[j].candidate.source in rows ensures !InSomeChain(chains, j) {
      forall chain <- chains ensures j !in chain.members {
        var k :| 0 <= k < |chains| && chains[k] == chain;
      }
    }
  }

  lemma SameRepresentatives(links: seq<Link>, out: seq<Link>, members: seq<nat>, rows: set<int>)
    requires |out| == |links| && Pairs(out) == Pairs(links)
    requires forall j :: 0 <= j < |links| && links[j].candidate.source in rows ==> out[j] == links[j]
    requires Represents(out, members, rows)
    ensures Represents(links, members, rows)
  {
    forall j | 0 <= j < |links| ensures out[j].candidate == links[j].candidate {
      assert Pairs(out)[j] == Pairs(links)[j];
    }
    forall k | 0 <= k < |members|
      ensures members[k] < |links| && out[members[k]] == links[members[k]]
    {
      assert members[k] in members;
    }
    forall i | 0 <= i < |links| && links[i].candidate.source in rows ensures HasEqual(links, members, i) {
      assert HasEqual(out, members, i);
    }
  }

  lemma {:induction false} SameFirstChain(links: seq<Link>, out: seq<Link>, members: seq<nat>)
    requires InRange(links, members) && |out| == |links|
    requires forall k :: 0 <= k < |members| ==> out[members[k]] == links[members[k]]
    ensures FirstChain(links, members) == FirstChain(out, members)
    ensures ScoreTotal(links, members) == ScoreTotal(out, members)
  {
    SameTotal(links, out, members);
    if members != [] {
      SameFirstChain(links, out, members[1..]);
    }
  }

  lemma {:induction false} SameTotal(links: seq<Link>, out: seq<Link>, members: seq<nat>)
    requires InRange(links, members) && |out| == |links|
    requires forall k :: 0 <= k < |members| ==> out[members[k]] == links[members[k]]
    ensures ScoreTotal(links, members) == ScoreTotal(out, members)
  {
    if members != [] {
      SameTotal(links, out, members[..|members| - 1]);
    }
  }

  lemma MembersUnchanged(links: seq<Link>, before: seq<Link>, members: seq<nat>, rows: set<int>)
    requires |before| == |links| && Represents(links, members, rows)
    requires forall j :: 0 <= j < |links| && links[j].candidate.source in rows ==> before[j] == links[j]
    ensures InRange(links, members) && NoneEqual(before, members)
    ensures forall k :: 0 <= k < |members| ==> before[members[k]] == links[members[k]]
    ensures FirstChain(links, members) == FirstChain(before, members)
    ensures ScoreTotal(links, members) == ScoreTotal(before, members)
  {
    forall k | 0 <= k < |members| ensures members[k] < |links| && before[members[k]] == links[members[k]] {
      assert members[k] in members;
    }
    SameFirstChain(links, before, members);
  }

  lemma NowSpanned(links: seq<Link>, chains: seq<Chain>, chain: Chain, visited: set<int>, rows: set<int>)
    requires SpannedWithin(links, chains, visited) && IsComponent(links, chain)
    requires links[chain.members[0]].candidate.source in rows
    requires forall t <- rows, u <- rows :: Connected(Pairs(links), t, u)
    ensures SpannedWithin(links, chains + [chain], visited + rows)
  {
    var more := chains + [chain];
    forall i | 0 <= i < |links| && links[i].candidate.source in visited + rows && HasCompanion(links, i)
      ensures Spanned(links, more, i)
    {
      if links[i].candidate.source in visited {
        SpannedStaysSpanned(links, chains, chain, i);
      } else {
        assert chain in more;
      }
    }
  }

  /** A label computed from the current links is the label the original links ask for. */
  lemma LabelledFromOriginal(links: seq<Link>, before: seq<Link>, out: seq<Link>, chain: Chain, minted: nat, next: nat)
    requires |before| == |out| == |links| && minted <= next
    requires InRange(links, chain.members) && IsLabelled(before, out, chain, next)
    requires forall k :: 0 <= k < |chain.members| ==> before[chain.members[k]] == links[chain.members[k]]
    ensures IsLabelled(links, out, chain, minted)
  {
    SameFirstChain(links, before, chain.members);
  }

  /** Adding a freshly labelled component re-establishes everything the outer loop knows. */
  lemma ChainAdded(links: seq<Link>, minted: nat, before: seq<Link>, out: seq<Link>, chains: seq<Chain>, chain: Chain,
                   visited: set<int>, rows: set<int>, next: nat)
    requires |before| == |out| == |links| && GoodChains(links, minted, before, chains) && minted <= next
    requires ClosedUnder(Pairs(links), visited) && rows !! visited && ClosedUnder(Pairs(links), rows)
    requires forall t <- rows, u <- rows :: Connected(Pairs(links), t, u)
    requires ChainsWithin(links, chains, visited) && SpannedWithin(links, chains, visited)
    requires Represents(links, chain.members, rows) && |chain.members| >= 2
    requires InRange(links, chain.members) && IsLabelled(before, out, chain, next)
    requires forall k :: 0 <= k < |chain.members| ==> before[chain.members[k]] == links[chain.members[k]]
    requires forall i :: 0 <= i < |links| && i !in chain.members ==> out[i] == before[i]
    ensures GoodChains(links, minted, out, chains + [chain])
    ensures ChainsWithin(links, chains + [chain], visited + rows)
    ensures SpannedWithin(links, chains + [chain], visited + rows)
  {
    LabelledFromOriginal(links, before, out, chain, minted, next);
    FullComponent(links, chain, rows);
    assert chain.members[0] in chain.members;
    assert SpannedWithin(links, chains + [chain], visited + rows) by {
      NowSpanned(links, chains, chain, visited, rows);
    }
    assert GoodChains(links, minted, out, chains + [chain]) by {
      ChainsStillStand(links, minted, before, out, chains, chain, visited);
      ChainsStayApart(links, minted, before, chains, chain, visited);
      OthersStayUntouched(links, before, out, chains, chain);
    }
  }

  lemma FreshIdAdded(links: seq<Link>, chains: seq<Chain>, chain: Chain, next: nat, after: nat)
    requires forall k :: 0 <= k < |chains| ==> InRange(links, chains[k].members)
    requires InRange(links, chain.members)
    requires FreshIdsDiffer(links, chains) && IdsBelow(links, chains, next)
    requires next <= after && (FirstChain(links, chain.members).None? ==> next == chain.id < after)
    ensures FreshIdsDiffer(links, chains + [chain]) && IdsBelow(links, chains + [chain], after)
  {
  }

  lemma ComponentSkipped(links: seq<Link>, chains: seq<Chain>, members: seq<nat>, visited: set<int>, rows: set<int>)
    requires Represents(links, members, rows) && |members| < 2 && ClosedUnder(Pairs(links), rows)
    requires SpannedWithin(links, chains, visited)
    ensures SpannedWithin(links, chains, visited + rows)
  {
    forall i | 0 <= i < |links| && links[i].candidate.source in visited + rows && HasCompanion(links, i)
      ensures Spanned(links, chains, i)
    {
      if links[i].candidate.source in rows {
        LoneComponent(links, members, rows, i);
      }
    }
  }

  /** What a finished search tells the outer loop, with `out` still equal to `links` on the new rows. */
  lemma ComponentFound(links: seq<Link>, out: seq<Link>, chains: seq<Chain>, visited: set<int>, start: int,
                       members: seq<nat>, rows: set<int>)
    requires |out| == |links| && Pairs(out) == Pairs(links) && OthersUntouched(links, out, chains)
    requires ClosedUnder(Pairs(links), visited) && ChainsWithin(links, chains, visited)
    requires start !in visited && forall t :: t in rows <==> Connected(Pairs(links), start, t)
    requires Represents(out, members, rows)
    ensures rows !! visited && start in rows
    ensures ClosedUnder(Pairs(links), rows) && ClosedUnder(Pairs(links), visited + rows)
    ensures forall t <- rows, u <- rows :: Connected(Pairs(links), t, u)
    ensures Represents(links, members, rows) && InRange(links, members) && NoneEqual(out, members)
    ensures forall k :: 0 <= k < |members| ==> out[members[k]] == links[members[k]]
    ensures FirstChain(links, members) == FirstChain(out, members)
  {
    NewComponent(Pairs(links), visited, start, rows);
    UntouchedSoFar(links, out, chains, visited, rows);
    SameRepresentatives(links, out, members, rows);
    MembersUnchanged(links, out, members, rows);
  }

  /** What holds between two searches: the components visited are labelled, and nothing else is touched. */
  ghost predicate InPass(links: seq<Link>, minted: nat, out: seq<Link>, chains: seq<Chain>, next: nat,
                         visited: set<int>)
  {
    && |out| == |links| && Pairs(out) == Pairs(links) && next >= minted
    && GoodChains(links, minted, out, chains)
    && FreshIdsDiffer(links, chains) && IdsBelow(links, chains, next)
    && ClosedUnder(Pairs(links), visited)
    && ChainsWithin(links, chains, visited) && SpannedWithin(links, chains, visited)
  }

  /** Searches the component of a row not visited yet, and labels its links when there are several. */
  method LabelComponent(links: seq<Link>, ghost minted: nat, out0: seq<Link>, chains0: seq<Chain>, next0: nat,
                        ghost visited: set<int>, adjacency: map<int, seq<nat>>, i: nat)
    returns (out: seq<Link>, chains: seq<Chain>, next: nat, rows: set<int>)
    requires InPass(links, minted, out0, chains0, next0, visited) && IsAdjacency(Pairs(links), adjacency)
    requires i < |links| && links[i].candidate.source !in visited
    ensures InPass(links, minted, out, chains, next, visited + rows) && links[i].candidate.source in rows
  {
    out, chains, next := out0, chains0, next0;
    var start := links[i].candidate.source;
    assert Pairs(links)[i].source == start;
    var members;
    members, rows := Explore(out, adjacency, start);
    ComponentFound(links, out, chains, visited, start, members, rows);
    if |members| >= 2 {
      var chain;
      out, chain, next := Label(out, members, next);
      ChainAdded(links, minted, out0, out, chains, chain, visited, rows, next0);
      FreshIdAdded(links, chains, chain, next0, next);
      chains := chains + [chain];
    } else {
      ComponentSkipped(links, chains, members, visited, rows);
    }
  }

  /** The chain pass: for every link list it ends, and leaves the connected components labelled. */
  method BuildChains(links: seq<Link>, minted: nat) returns (out: seq<Link>, chains: seq<Chain>, next: nat)
    ensures Chained(links, minted, out, chains)
    ensures next >= minted
  {
    out, chains, next := links, [], minted;
    var adjacency := BuildAdjacency(links);
    var visited := {};
    for i := 0 to |links|
      invariant InPass(links, minted, out, chains, next, visited)
      invariant forall j :: 0 <= j < i ==> links[j].candidate.source in visited
    {
      if links[i].candidate.source !in visited {
        var rows;
        out, chains, next, rows := LabelComponent(links, minted, out, chains, next, visited, adjacency, i);
        visited := visited + rows;
      }
    }
  }

  // --------------------------------------------------------------------------- what chains mean

  ghost predicate AllDifferent(links: seq<Link>) {
    forall i, j :: 0 <= i < j < |links| ==> links[i] != links[j]
  }

  ghost predicate ShareChain(chains: seq<Chain>, i: nat, j: nat) {
    exists chain <- chains :: i in chain.members && j in chain.members
  }

  /** With pairwise different links, a chain's members are exactly the links of its component. */
  lemma MembersAreTheComponent(links: seq<Link>, chain: Chain, i: nat)
    requires IsComponent(links, chain) && AllDifferent(links) && i < |links|
    ensures i in chain.members <==> InComponent(links, chain, links[i].candidate.source)
  {
    if InComponent(links, chain, links[i].candidate.source) {
      assert HasEqual(links, chain.members, i);
      var m :| m in chain.members && m < |links| && links[m] == links[i];
    }
  }

  lemma ComponentsAreConnected(links: seq<Link>, chain: Chain, a: int, b: int)
    requires IsComponent(links, chain) && InComponent(links, chain, a)
    ensures InComponent(links, chain, b) <==> Connected(Pairs(links), a, b)
  {
    var cs, first := Pairs(links), links[chain.members[0]].candidate.source;
    ConnectedIsSymmetric(cs, first, a);
    if InComponent(links, chain, b) {
      ConnectedIsTransitive(cs, a, first, b);
    }
    if Connected(cs, a, b) {
      ConnectedIsTransitive(cs, first, a, b);
    }
  }

  lemma CompanionsAreSpanned(links: seq<Link>, minted: nat, out: seq<Link>, chains: seq<Chain>, i: nat, j: nat)
    returns (chain: Chain)
    requires Chained(links, minted, out, chains) && AllDifferent(links)
    requires i < |links| && j < |links| && i != j && LinksConnected(links, i, j)
    ensures chain in chains && IsComponent(links, chain) && InComponent(links, chain, links[i].candidate.source)
  {
    assert links[i] != links[j];
    assert HasCompanion(links, i);
    assert Spanned(links, chains, i);
    chain :| chain in chains && IsComponent(links, chain) && InComponent(links, chain, links[i].candidate.source);
  }

  lemma ChainStands(links: seq<Link>, minted: nat, out: seq<Link>, chains: seq<Chain>, chain: Chain)
    requires Chained(links, minted, out, chains) && chain in chains
    ensures Stands(links, minted, out, chain)
  {
    var k :| 0 <= k < |chains| && chains[k] == chain;
    assert Stands(links, minted, out, chains[k]);
  }

  function ScoreAt(links: seq<Link>): nat -> real {
    (m: nat) => if m < |links| then links[m].candidate.score else 0.0
  }

  lemma {:induction false} ScoreTotalIsSum(links: seq<Link>, members: seq<nat>)
    requires InRange(links, members)
    ensures ScoreTotal(links, members) == Sum(members, ScoreAt(links))
  {
    if members != [] {
      var n := |members| - 1;
      ScoreTotalIsSum(links, members[..n]);
      LastApart(members);
      SumSnoc(members[..n], members[n], ScoreAt(links));
    }
  }

  lemma {:induction false} FirstChainMeans(links: seq<Link>, members: seq<nat>)
    requires InRange(links, members)
    ensures FirstChain(links, members).None? ==> forall k :: 0 <= k < |members| ==> links[members[k]].chain.None?
    ensures FirstChain(links, members).Some? ==>
              exists k :: 0 <= k < |members| && links[members[k]].chain == FirstChain(links, members)
                          && forall j :: 0 <= j < k ==> links[members[j]].chain.None?
  {
    if members != [] && links[members[0]].chain.None? {
      FirstChainMeans(links, members[1..]);
      if FirstChain(links, members).Some? {
        var k :| 0 <= k < |members[1..]| && links[members[1..][k]].chain == FirstChain(links, members)
                 && forall j :: 0 <= j < k ==> links[members[1..][j]].chain.None?;
        assert members[k + 1] == members[1..][k];
        forall j | 0 <= j < k + 1 ensures links[members[j]].chain.None? {
          assert j > 0 ==> members[j] == members[1..][j - 1];
        }
      } else {
        forall j | 0 <= j < |members| ensures links[members[j]].chain.None? {
          assert j > 0 ==> members[j] == members[1..][j - 1];
        }
      }
    }
  }

  /** The `k`-th link of a chain is the first that carried an id before. */
  ghost predicate FirstToCarry(links: seq<Link>, members: seq<nat>, k: nat)
    requires InRange(links, members) && k < |members|
  {
    links[members[k]].chain.Some? && forall j :: 0 <= j < k ==> links[members[j]].chain.None?
  }

  ghost predicate NoneCarries(links: seq<Link>, members: seq<nat>)
    requires InRange(links, members)
  {
    forall k :: 0 <= k < |members| ==> links[members[k]].chain.None?
  }

  lemma LabelledMembers(links: seq<Link>, out: seq<Link>, chain: Chain, minted: nat)
    requires |out| == |links| && InRange(links, chain.members) && IsLabelled(links, out, chain, minted)
    ensures forall k :: 0 <= k < |chain.members| ==>
              && out[chain.members[k]].chain == Some(chain.id)
              && out[chain.members[k]].candidate == links[chain.members[k]].candidate
              && out[chain.members[k]].position ==
                 if NoneCarries(links, chain.members) then k else links[chain.members[k]].position
  {
    FirstChainMeans(links, chain.members);
    if FirstChain(links, chain.members).Some? {
      var k :| 0 <= k < |chain.members| && links[chain.members[k]].chain == FirstChain(links, chain.members);
    }
  }

  lemma LabelledId(links: seq<Link>, out: seq<Link>, chain: Chain, minted: nat)
    requires |out| == |links| && InRange(links, chain.members) && IsLabelled(links, out, chain, minted)
    ensures if NoneCarries(links, chain.members) then chain.id >= minted
            else exists k :: 0 <= k < |chain.members| && FirstToCarry(links, chain.members, k)
                             && links[chain.members[k]].chain == Some(chain.id)
  {
    FirstChainMeans(links, chain.members);
    if FirstChain(links, chain.members).Some? {
      var k :| 0 <= k < |chain.members| && links[chain.members[k]].chain == FirstChain(links, chain.members)
               && forall j :: 0 <= j < k ==> links[chain.members[j]].chain.None?;
      assert FirstToCarry(links, chain.members, k);
    }
  }

  /**
   What a chain does to its links: each carries its id and keeps its pair. The id is that of the first link that had
   one, and positions stay; when none had one it is fresh, and positions count from zero.
   */
  lemma ChainSays(links: seq<Link>, minted: nat, out: seq<Link>, chains: seq<Chain>, chain: Chain)
    requires Chained(links, minted, out, chains) && chain in chains
    ensures InRange(links, chain.members) && |chain.members| >= 2
    ensures forall k :: 0 <= k < |chain.members| ==>
              && out[chain.members[k]].chain == Some(chain.id)
              && out[chain.members[k]].candidate == links[chain.members[k]].candidate
              && out[chain.members[k]].position ==
                 if NoneCarries(links, chain.members) then k else links[chain.members[k]].position
    ensures if NoneCarries(links, chain.members) then chain.id >= minted
            else exists k :: 0 <= k < |chain.members| && FirstToCarry(links, chain.members, k)
                             && links[chain.members[k]].chain == Some(chain.id)
  {
    ChainStands(links, minted, out, chains, chain);
    LabelledMembers(links, out, chain, minted);
    LabelledId(links, out, chain, minted);
  }

  lemma AverageTimes(total: real, n: nat)
    requires n > 0
    ensures Average(total, n) * n as real == total
  {
  }

  lemma LabelledConfidence(links: seq<Link>, out: seq<Link>, chain: Chain, minted: nat)
    requires |out| == |links| && InRange(links, chain.members) && chain.members != []
    requires IsLabelled(links, out, chain, minted)
    ensures chain.confidence * |chain.members| as real == Sum(chain.members, ScoreAt(links))
  {
    var total := ScoreTotal(links, chain.members);
    ScoreTotalIsSum(links, chain.members);
    assert chain.confidence == Average(total, |chain.members|);
    AverageTimes(total, |chain.members|);
  }

  /** A chain's confidence is the mean of its links' scores. */
  lemma ConfidenceIsTheMean(links: seq<Link>, minted: nat, out: seq<Link>, chains: seq<Chain>, chain: Chain)
    requires Chained(links, minted, out, chains) && chain in chains
    ensures chain.confidence * |chain.members| as real == Sum(chain.members, ScoreAt(links))
  {
    ChainStands(links, minted, out, chains, chain);
    LabelledConfidence(links, out, chain, minted);
  }

  /** On links that are pairwise different, two links share a chain exactly when they are connected. */
  lemma ChainsAreComponents(links: seq<Link>, minted: nat, out: seq<Link>, chains: seq<Chain>, i: nat, j: nat)
    requires Chained(links, minted, out, chains) && AllDifferent(links)
    requires i < |links| && j < |links| && i != j
    ensures ShareChain(chains, i, j) <==> LinksConnected(links, i, j)
  {
    var a, b := links[i].candidate.source, links[j].candidate.source;
    if ShareChain(chains, i, j) {
      var chain :| chain in chains && i in chain.members && j in chain.members;
      ChainStands(links, minted, out, chains, chain);
      MembersAreTheComponent(links, chain, i);
      MembersAreTheComponent(links, chain, j);
      ComponentsAreConnected(links, chain, a, b);
    } else if LinksConnected(links, i, j) {
      var chain := CompanionsAreSpanned(links, minted, out, chains, i, j);
      ComponentsAreConnected(links, chain, a, b);
      MembersAreTheComponent(links, chain, i);
      MembersAreTheComponent(links, chain, j);
      assert false;
    }
  }

  /** Equal links of any list are connected, and the pass records only one of them: they share no chain. */
  lemma EqualLinksShareNoChain(links: seq<Link>, minted: nat, out: seq<Link>, chains: seq<Chain>, i: nat, j: nat)
    requires Chained(links, minted, out, chains)
    requires i < j < |links| && links[i] == links[j]
    ensures LinksConnected(links, i, j) && !ShareChain(chains, i, j)
  {
    ConnectedToItself(Pairs(links), links[i].candidate.source);
    forall chain <- chains ensures !(i in chain.members && j in chain.members) {
      ChainStands(links, minted, out, chains, chain);
    }
  }

  /** Sharing a chain is being connected, for every two links of the list. */
  ghost predicate ChainsTellConnection(links: seq<Link>, chains: seq<Chain>) {
    forall i, j :: 0 <= i < j < |links| ==> (ShareChain(chains, i, j) <==> LinksConnected(links, i, j))
  }

  /** So chains characterise connection exactly when the list names no link twice. */
  lemma ChainsTellConnectionExactly(links: seq<Link>, minted: nat, out: seq<Link>, chains: seq<Chain>)
    requires Chained(links, minted, out, chains)
    ensures ChainsTellConnection(links, chains) <==> AllDifferent(links)
  {
    if AllDifferent(links) {
      forall i, j | 0 <= i < j < |links| ensures ShareChain(chains, i, j) <==> LinksConnected(links, i, j) {
        ChainsAreComponents(links, minted, out, chains, i, j);
      }
    } else {
      var i, j :| 0 <= i < j < |links| && links[i] == links[j];
      EqualLinksShareNoChain(links, minted, out, chains, i, j);
    }
  }

  // ------------------------------------------------------------------- chains of greedy assignments

  /** The source of the link that takes `t` as its target, or `t` itself. */
  ghost function Hub(links: seq<Link>, t: int): int {
    if exists l <- links :: l.candidate.target == t
    then var l :| l in links && l.candidate.target == t; l.candidate.source
    else t
  }

  lemma NeighboursShareHub(links: seq<Link>, a: int, b: int)
    requires Exclusive(links) && Adjacent(Pairs(links), a, b)
    ensures Hub(links, a) == Hub(links, b)
  {
    var c :| c in Pairs(links) && Joins(c, a, b);
    var i :| 0 <= i < |links| && links[i].candidate == c;
    assert links[i] in links;
    assert Hub(links, c.source) == c.source;
    assert Hub(links, c.target) == c.source;
  }

  lemma {:induction false} PathsShareHub(links: seq<Link>, path: seq<int>)
    requires Exclusive(links) && IsPath(Pairs(links), path)
    ensures Hub(links, path[0]) == Hub(links, path[|path| - 1])
    decreases |path|
  {
    if |path| > 1 {
      var front := path[..|path| - 1];
      PathsShareHub(links, front);
      NeighboursShareHub(links, path[|path| - 2], path[|path| - 1]);
    }
  }

  /** In an exclusive assignment links are connected only through a common source. */
  lemma ConnectedMeansSameSource(links: seq<Link>, i: nat, j: nat)
    requires Exclusive(links) && i < |links| && j < |links|
    ensures LinksConnected(links, i, j) <==> links[i].candidate.source == links[j].candidate.source
  {
    var a, b := links[i].candidate.source, links[j].candidate.source;
    ConnectedToItself(Pairs(links), a);
    assert Hub(links, a) == a && Hub(links, b) == b;
    if LinksConnected(links, i, j) {
      var path :| PathBetween(Pairs(links), path, a, b);
      PathsShareHub(links, path);
    }
  }

  lemma ExclusiveLinksDiffer(links: seq<Link>)
    requires Exclusive(links)
    ensures AllDifferent(links)
  {
    forall i, j | 0 <= i < j < |links| ensures links[i] != links[j] {
      assert links[i].candidate.target != links[j].candidate.target;
    }
  }

  /** Every chain found on a greedy assignment is one anchor's refund group, under its own id. */
  lemma GreedyChainIsAGroup(s: State, cap: Option<Ledger>, out: seq<Link>, chain: Chain)
    requires Sound(s, cap) && |out| == |s.links| && Stands(s.links, s.minted, out, chain)
    ensures forall m <- chain.members :: m < |s.links| && out[m] == s.links[m]
    ensures var anchor := s.links[chain.members[0]].candidate.source;
            && anchor in s.anchorChain && chain.id == s.anchorChain[anchor]
            && (forall i :: 0 <= i < |s.links| ==> (i in chain.members <==> s.links[i].candidate.source == anchor))
  {
    var first, second := chain.members[0], chain.members[1];
    var anchor := s.links[first].candidate.source;
    ExclusiveLinksDiffer(s.links);
    forall i | 0 <= i < |s.links| ensures i in chain.members <==> s.links[i].candidate.source == anchor {
      ConnectedMeansSameSource(s.links, first, i);
      if s.links[i].candidate.source == anchor {
        assert HasEqual(s.links, chain.members, i);
      }
    }
    assert first in chain.members && second in chain.members;
    assert s.links[first] != s.links[second];
    assert FansOut(s.links[first].candidate.kind) && Placed(s.links, first, s.anchorChain);
    forall m <- chain.members ensures out[m] == s.links[m] {
      var k :| 0 <= k < |chain.members| && chain.members[k] == m;
      assert FansOut(s.links[m].candidate.kind) && Placed(s.links, m, s.anchorChain);
    }
  }

  lemma SameSourceSharesGroup(s: State, cap: Option<Ledger>, i: nat, j: nat)
    requires Sound(s, cap) && i < j < |s.links| && s.links[i].candidate.source == s.links[j].candidate.source
    ensures FansOut(s.links[i].candidate.kind) && FansOut(s.links[j].candidate.kind)
    ensures s.links[i].chain == s.links[j].chain && s.links[i].position < s.links[j].position
  {
    assert Placed(s.links, i, s.anchorChain) && Placed(s.links, j, s.anchorChain);
    CountSourceGrows(s.links, i, j);
  }

  /** The chain pass rewrites no greedy link: each leg already carries its group's id and rank. */
  lemma GreedyChainsRewriteNothing(s: State, cap: Option<Ledger>, out: seq<Link>, chains: seq<Chain>)
    requires Sound(s, cap) && Chained(s.links, s.minted, out, chains)
    ensures out == s.links
  {
    forall i | 0 <= i < |s.links| ensures out[i] == s.links[i] {
      if InSomeChain(chains, i) {
        var chain :| chain in chains && i in chain.members;
        ChainStands(s.links, s.minted, out, chains, chain);
        GreedyChainIsAGroup(s, cap, out, chain);
      }
    }
  }

  /** On links the greedy pass made, the chains are exactly the refund groups with two or more legs. */
  lemma GreedyChainsAreRefundGroups(s: State, cap: Option<Ledger>, out: seq<Link>, chains: seq<Chain>, i: nat, j: nat)
    requires Sound(s, cap) && Chained(s.links, s.minted, out, chains) && i < j < |s.links|
    ensures ShareChain(chains, i, j) <==> s.links[i].candidate.source == s.links[j].candidate.source
    ensures ShareChain(chains, i, j) ==>
              && FansOut(s.links[i].candidate.kind) && FansOut(s.links[j].candidate.kind)
              && s.links[i].chain == s.links[j].chain && s.links[i].position < s.links[j].position
  {
    ExclusiveLinksDiffer(s.links);
    ChainsAreComponents(s.links, s.minted, out, chains, i, j);
    ConnectedMeansSameSource(s.links, i, j);
    if ShareChain(chains, i, j) {
      SameSourceSharesGroup(s, cap, i, j);
    }
  }

  lemma {:induction false} CountSourceGrows(links: seq<Link>, i: nat, j: nat)
    requires i < j <= |links|
    ensures CountSource(links[..i], links[i].candidate.source) < CountSource(links[..j], links[i].candidate.source)
    decreases j
  {
    assert links[..j][..j - 1] == links[..j - 1];
    if i < j - 1 {
      CountSourceGrows(links, i, j - 1);
    }
  }
}
