/** Small vocabulary shared by every component: options, magnitudes, sums over sequences, stripped strings. */
module Basics {

  datatype Option<+T> = None | Some(value: T)

  function Abs(x: real): real {
    if x < 0.0 then -x else x
  }

  function Max(x: real, y: real): real {
    if x < y then y else x
  }

  function Min(x: real, y: real): real {
    if y < x then y else x
  }

  /** The sum of `weight` over `xs`, read from the front. */
  function Sum<T>(xs: seq<T>, weight: T -> real): real {
    if xs == [] then 0.0 else weight(xs[0]) + Sum(xs[1..], weight)
  }

  lemma {:induction false} SumConcat<T>(xs: seq<T>, ys: seq<T>, weight: T -> real)
    ensures Sum(xs + ys, weight) == Sum(xs, weight) + Sum(ys, weight)
  {
    if xs == [] {
      assert xs + ys == ys;
    } else {
      assert (xs + ys)[1..] == xs[1..] + ys;
      SumConcat(xs[1..], ys, weight);
    }
  }

  lemma SumSnoc<T>(xs: seq<T>, x: T, weight: T -> real)
    ensures Sum(xs + [x], weight) == Sum(xs, weight) + weight(x)
  {
    SumConcat(xs, [x], weight);
  }

  lemma SumCons<T>(x: T, xs: seq<T>, weight: T -> real)
    ensures Sum([x] + xs, weight) == weight(x) + Sum(xs, weight)
  {
    assert ([x] + xs)[1..] == xs;
  }

  lemma SumAround<T>(front: seq<T>, x: T, back: seq<T>, weight: T -> real)
    ensures Sum(front + ([x] + back), weight) == weight(x) + Sum(front + back, weight)
  {
    SumConcat(front, [x] + back, weight);
    SumCons(x, back, weight);
    SumConcat(front, back, weight);
  }

  /** Taking one element out of a sequence lowers its sum by that element's weight. */
  lemma SumWithout<T>(xs: seq<T>, i: nat, weight: T -> real)
    requires i < |xs|
    ensures Sum(xs, weight) == weight(xs[i]) + Sum(xs[..i] + xs[i + 1..], weight)
  {
    SumAround(xs[..i], xs[i], xs[i + 1..], weight);
    assert xs[i..] == [xs[i]] + xs[i + 1..];
    assert xs == xs[..i] + xs[i..];
  }

  lemma {:induction false} SumNonNegative<T>(xs: seq<T>, weight: T -> real)
    requires forall x <- xs :: weight(x) >= 0.0
    ensures Sum(xs, weight) >= 0.0
  {
    if xs != [] {
      SumNonNegative(xs[1..], weight);
    }
  }

  /** The elements that satisfy `keep`, in order. */
  function Select<T>(xs: seq<T>, keep: T -> bool): seq<T> {
    if xs == [] then [] else (if keep(xs[0]) then [xs[0]] else []) + Select(xs[1..], keep)
  }

  lemma {:induction false} SelectSnoc<T>(xs: seq<T>, x: T, keep: T -> bool)
    ensures Select(xs + [x], keep) == if keep(x) then Select(xs, keep) + [x] else Select(xs, keep)
  {
    if xs == [] {
      assert [] + [x] == [x] && [x][1..] == [];
    } else {
      var front, rest := if keep(xs[0]) then [xs[0]] else [], Select(xs[1..], keep);
      assert (xs + [x])[1..] == xs[1..] + [x] && (xs + [x])[0] == xs[0];
      SelectSnoc(xs[1..], x, keep);
      assert front + (rest + [x]) == front + rest + [x];
    }
  }

  lemma {:induction false} SelectMembers<T>(xs: seq<T>, keep: T -> bool)
    ensures forall x :: x in Select(xs, keep) <==> x in xs && keep(x)
  {
    if xs != [] {
      SelectMembers(xs[1..], keep);
    }
  }

  /** How many elements satisfy `keep`. */
  function Count<T>(xs: seq<T>, keep: T -> bool): nat {
    |Select(xs, keep)|
  }

  /** The last element, and what stands before it. */
  lemma LastApart<T>(xs: seq<T>)
    requires xs != []
    ensures xs == xs[..|xs| - 1] + [xs[|xs| - 1]]
  {
  }

  function StripStart(s: string, drop: set<char>): string {
    if s != "" && s[0] in drop then StripStart(s[1..], drop) else s
  }

  function StripEnd(s: string, drop: set<char>): string {
    if s != "" && s[|s| - 1] in drop then StripEnd(s[..|s| - 1], drop) else s
  }

  predicate AllIn(s: string, some: set<char>) {
    forall i :: 0 <= i < |s| ==> s[i] in some
  }

  /** Only characters of `drop` are gone from the start, and what is left starts with none of them. */
  lemma {:induction false} StripsTheStart(s: string, drop: set<char>) returns (front: string)
    ensures front + StripStart(s, drop) == s && AllIn(front, drop)
    ensures StripStart(s, drop) == "" || StripStart(s, drop)[0] !in drop
  {
    if s != "" && s[0] in drop {
      front := StripsTheStart(s[1..], drop);
      front := [s[0]] + front;
    } else {
      front := "";
    }
  }

  /** Only characters of `drop` are gone from the end, and what is left ends with none of them. */
  lemma {:induction false} StripsTheEnd(s: string, drop: set<char>) returns (back: string)
    ensures StripEnd(s, drop) + back == s && AllIn(back, drop)
    ensures StripEnd(s, drop) == "" || StripEnd(s, drop)[|StripEnd(s, drop)| - 1] !in drop
  {
    if s != "" && s[|s| - 1] in drop {
      var n := |s| - 1;
      back := StripsTheEnd(s[..n], drop);
      assert StripEnd(s, drop) + (back + [s[n]]) == StripEnd(s[..n], drop) + back + [s[n]];
      back := back + [s[n]];
    } else {
      back := "";
    }
  }

  /** `s` is `inner` with characters of `drop` around it, and none of them at either end of `inner`. */
  ghost predicate Padded(s: string, drop: set<char>, front: string, inner: string, back: string) {
    && s == front + inner + back && AllIn(front, drop) && AllIn(back, drop)
    && (inner != "" ==> inner[0] !in drop && inner[|inner| - 1] !in drop)
  }

  lemma StripsBothEnds(s: string, drop: set<char>) returns (front: string, back: string)
    ensures Padded(s, drop, front, StripEnd(StripStart(s, drop), drop), back)
  {
    var late := StripStart(s, drop);
    front := StripsTheStart(s, drop);
    back := StripsTheEnd(late, drop);
    assert front + (StripEnd(late, drop) + back) == front + StripEnd(late, drop) + back;
    assert StripEnd(late, drop) != "" ==> StripEnd(late, drop)[0] == late[0];
  }

  lemma {:induction false} StripsAway(s: string, drop: set<char>)
    requires AllIn(s, drop)
    ensures StripStart(s, drop) == ""
  {
    if s != "" {
      StripsAway(s[1..], drop);
    }
  }
}
