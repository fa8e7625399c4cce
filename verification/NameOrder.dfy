/** Names in alphabetical order: file names in a directory, account keys in a ledger. */
module NameOrder {

  /** Alphabetical order, character by character. */
  predicate NameLeq(a: string, b: string) {
    a == [] || (b != [] && (a[0] < b[0] || (a[0] == b[0] && NameLeq(a[1..], b[1..]))))
  }

  /** One is a beginning of the other, or the first character in which they differ is smaller. */
  ghost predicate Alphabetical(a: string, b: string) {
    a <= b || exists k :: 0 <= k < |a| && k < |b| && a[..k] == b[..k] && a[k] < b[k]
  }

  lemma {:induction false} NameOrderIsAlphabetical(a: string, b: string)
    ensures NameLeq(a, b) <==> Alphabetical(a, b)
  {
    if a != [] && b != [] && a[0] == b[0] {
      NameOrderIsAlphabetical(a[1..], b[1..]);
      assert a == [a[0]] + a[1..] && b == [b[0]] + b[1..];
      if k :| 0 <= k < |a| && k < |b| && a[..k] == b[..k] && a[k] < b[k] {
        assert k > 0 && a[1..][..k - 1] == a[..k][1..] && b[1..][..k - 1] == b[..k][1..];
        assert a[1..][k - 1] < b[1..][k - 1];
      }
      if k :| 0 <= k < |a[1..]| && k < |b[1..]| && a[1..][..k] == b[1..][..k] && a[1..][k] < b[1..][k] {
        assert a[..k + 1] == [a[0]] + a[1..][..k] && b[..k + 1] == [b[0]] + b[1..][..k];
        assert a[k + 1] < b[k + 1];
      }
    } else if a != [] && b != [] && a[0] < b[0] {
      assert a[..0] == b[..0];
    }
  }

  lemma {:induction false} NameLeqIsTotal(a: string, b: string)
    ensures NameLeq(a, b) || NameLeq(b, a)
    ensures NameLeq(a, b) && NameLeq(b, a) ==> a == b
  {
    if a != [] && b != [] && a[0] == b[0] {
      NameLeqIsTotal(a[1..], b[1..]);
      assert a == [a[0]] + a[1..] && b == [b[0]] + b[1..];
    }
  }

  lemma {:induction false} NameLeqIsTransitive(a: string, b: string, c: string)
    requires NameLeq(a, b) && NameLeq(b, c)
    ensures NameLeq(a, c)
  {
    if a != [] && a[0] == b[0] == c[0] {
      NameLeqIsTransitive(a[1..], b[1..], c[1..]);
    }
  }

  ghost predicate Ordered(names: seq<string>) {
    forall i, j :: 0 <= i < j < |names| ==> NameLeq(names[i], names[j])
  }

  ghost predicate Distinct(names: seq<string>) {
    forall i, j :: 0 <= i < j < |names| ==> names[i] != names[j]
  }

  function InsertName(x: string, names: seq<string>): seq<string> {
    if names == [] || NameLeq(x, names[0]) then [x] + names else [names[0]] + InsertName(x, names[1..])
  }

  lemma {:induction false} InsertNameMembers(x: string, names: seq<string>)
    ensures forall n :: n in InsertName(x, names) <==> n == x || n in names
  {
    if names != [] && !NameLeq(x, names[0]) {
      InsertNameMembers(x, names[1..]);
      assert forall n :: n in names <==> n == names[0] || n in names[1..];
    }
  }

  lemma {:induction false} InsertNameOrders(x: string, names: seq<string>)
    requires Ordered(names) && Distinct(names) && x !in names
    ensures Ordered(InsertName(x, names)) && Distinct(InsertName(x, names))
  {
    if names != [] {
      NameLeqIsTotal(x, names[0]);
      if NameLeq(x, names[0]) {
        forall j | 0 <= j < |names| ensures NameLeq(x, names[j]) {
          if j > 0 {
            NameLeqIsTransitive(x, names[0], names[j]);
          }
        }
      } else {
        var rest := InsertName(x, names[1..]);
        InsertNameOrders(x, names[1..]);
        InsertNameMembers(x, names[1..]);
        forall j | 0 <= j < |rest| ensures NameLeq(names[0], rest[j]) && names[0] != rest[j] {
          assert rest[j] in rest;
          if rest[j] != x {
            var k :| 0 <= k < |names[1..]| && names[1..][k] == rest[j];
            assert names[k + 1] == rest[j];
          }
        }
      }
    }
  }
}
