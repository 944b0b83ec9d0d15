/** Python's order on strings, and `sorted(set(...))` as a function of the set. */
module Text {

  /** Code-point lexicographic order, the order `sorted` and `min` use on `str`. */
  predicate Leq(a: string, b: string)
  {
    a == [] || (b != [] && (a[0] < b[0] || (a[0] == b[0] && Leq(a[1..], b[1..]))))
  }

  lemma SamePrefix(a: string, b: string, k: nat)
    requires k < |a| && k < |b|
    ensures k > 0 && a[..k] == b[..k] ==> a[0] == b[0]
  {
    if k > 0 { assert a[..k][0] == a[0] && b[..k][0] == b[0]; }
  }

  /** A prefix, or smaller at the first difference. */
  lemma {:induction false} LeqMeans(a: string, b: string)
    ensures Leq(a, b) <==>
        a <= b || exists k: nat :: k < |a| && k < |b| && a[..k] == b[..k] && a[k] < b[k]
  {
    if a != [] && b != [] && a[0] == b[0] {
      LeqMeans(a[1..], b[1..]);
      if k: nat :| k < |a| - 1 && k < |b| - 1 && a[1..][..k] == b[1..][..k] && a[1..][k] < b[1..][k] {
        assert a[..k + 1] == [a[0]] + a[1..][..k] && b[..k + 1] == [b[0]] + b[1..][..k];
        assert a[k + 1] < b[k + 1];
      }
      if k: nat :| k < |a| && k < |b| && a[..k] == b[..k] && a[k] < b[k] {
        assert k > 0;
        assert a[1..][..k - 1] == a[..k][1..] && b[1..][..k - 1] == b[..k][1..];
        assert a[1..][k - 1] < b[1..][k - 1];
      }
      assert a <= b <==> a[1..] <= b[1..] by {
        assert a == [a[0]] + a[1..] && b == [b[0]] + b[1..];
      }
    } else if a != [] && b != [] {
      if a[0] < b[0] { assert a[..0] == b[..0]; }
      forall k: nat | k < |a| && k < |b| ensures k > 0 && a[..k] == b[..k] ==> a[0] == b[0] { SamePrefix(a, b, k); }
    }
  }

  lemma {:induction false} LeqReflexive(a: string)
    ensures Leq(a, a)
  {
    if a != [] { LeqReflexive(a[1..]); }
  }

  lemma {:induction false} LeqTotal(a: string, b: string)
    ensures Leq(a, b) || Leq(b, a)
  {
    if a != [] && b != [] { LeqTotal(a[1..], b[1..]); }
  }

  lemma {:induction false} LeqAntisymmetric(a: string, b: string)
    requires Leq(a, b) && Leq(b, a)
    ensures a == b
  {
    if a != [] {
      LeqAntisymmetric(a[1..], b[1..]);
      assert a == [a[0]] + a[1..] && b == [b[0]] + b[1..];
    }
  }

  lemma {:induction false} LeqTransitive(a: string, b: string, c: string)
    requires Leq(a, b) && Leq(b, c)
    ensures Leq(a, c)
  {
    if a != [] && a[0] == b[0] == c[0] { LeqTransitive(a[1..], b[1..], c[1..]); }
  }

  /** A file or record name. Names are compared as their texts. */
  datatype Name = Name(text: string)

  predicate IsLeast(m: Name, s: set<Name>)
  {
    m in s && forall x | x in s :: Leq(m.text, x.text)
  }

  lemma {:induction false} LeastExists(s: set<Name>)
    requires s != {}
    ensures exists m :: IsLeast(m, s)
    decreases |s|
  {
    var x :| x in s;
    LeqReflexive(x.text);
    if s == {x} {
      assert IsLeast(x, s);
    } else {
      var rest := s - {x};
      LeastExists(rest);
      var m :| IsLeast(m, rest);
      LeqTotal(x.text, m.text);
      LeqReflexive(m.text);
      var best := if Leq(x.text, m.text) then x else m;
      forall y | y in s ensures Leq(best.text, y.text) {
        if y != x && best == x { LeqTransitive(x.text, m.text, y.text); }
      }
      assert IsLeast(best, s);
    }
  }

  lemma LeastUnique(s: set<Name>)
    ensures forall m, n | IsLeast(m, s) && IsLeast(n, s) :: m == n
  {
    forall m, n | IsLeast(m, s) && IsLeast(n, s) ensures m == n { LeqAntisymmetric(m.text, n.text); }
  }

  function Least(s: set<Name>): (m: Name)
    requires s != {}
    ensures IsLeast(m, s)
  {
    LeastExists(s); LeastUnique(s);
    var m :| m in s && IsLeast(m, s);
    m
  }

  ghost predicate Ascending(s: seq<Name>)
  {
    forall i, j | 0 <= i < j < |s| :: Leq(s[i].text, s[j].text) && s[i] != s[j]
  }

  /** `sorted(set(...))`: see `SortedElements`. */
  function Sorted(s: set<Name>): seq<Name>
    decreases |s|
  {
    if s == {} then [] else
      var m := Least(s);
      [m] + Sorted(s - {m})
  }

  /** Every element once, in ascending order. */
  lemma {:induction false} SortedElements(s: set<Name>)
    ensures forall x :: x in Sorted(s) <==> x in s
    ensures Ascending(Sorted(s)) && |Sorted(s)| == |s|
    decreases |s|
  {
    if s != {} {
      var m := Least(s);
      SortedElements(s - {m});
      assert forall x :: x in [m] + Sorted(s - {m}) <==> x == m || x in Sorted(s - {m});
    }
  }
}
