/**
  Names in the order that sorted listings use: by character, a proper prefix
  first. Reports of extra columns, constraints, indexes and tables, and the
  statements that drop them, stand in this order.
 */
module SortedNames {

  /** Lexicographic order by character, a proper prefix first. */
  predicate Less(a: string, b: string) {
    if b == [] then false
    else if a == [] then true
    else a[0] < b[0] || (a[0] == b[0] && Less(a[1..], b[1..]))
  }

  lemma {:induction false} LessTrichotomy(a: string, b: string)
    ensures !(Less(a, b) && Less(b, a))
    ensures Less(a, b) || a == b || Less(b, a)
    ensures !Less(a, a)
    decreases |a|
  {
    if a != [] {
      LessTrichotomy(a[1..], a[1..]);
      if b != [] {
        LessTrichotomy(a[1..], b[1..]);
        if a[0] == b[0] && a[1..] == b[1..] { assert a == [a[0]] + a[1..] == b; }
      }
    }
  }

  lemma {:induction false} LessTransitive(a: string, b: string, c: string)
    requires Less(a, b) && Less(b, c)
    ensures Less(a, c)
    decreases |a|
  {
    if a != [] && a[0] == b[0] && b[0] == c[0] {
      LessTransitive(a[1..], b[1..], c[1..]);
    }
  }

  predicate IsLeast(x: string, s: set<string>) {
    x in s && forall y :: y in s ==> !Less(y, x)
  }

  lemma {:induction false} LeastExists(s: set<string>) returns (x: string)
    requires s != {}
    ensures IsLeast(x, s)
    decreases s
  {
    var y :| y in s;
    if s == {y} {
      x := y;
      LessTrichotomy(y, y);
    } else {
      var rest := LeastExists(s - {y});
      x := if Less(y, rest) then y else rest;
      forall z | z in s ensures !Less(z, x) {
        LessTrichotomy(y, rest);
        LessTrichotomy(y, y);
        if z != y && x == y && Less(z, y) { LessTransitive(z, y, rest); }
      }
    }
  }

  function Least(s: set<string>): (x: string)
    requires s != {}
    ensures IsLeast(x, s)
  {
    assert exists x :: IsLeast(x, s) by { var x := LeastExists(s); }
    assert forall x, y :: IsLeast(x, s) && IsLeast(y, s) ==> x == y by {
      forall x, y | IsLeast(x, s) && IsLeast(y, s) ensures x == y { LessTrichotomy(x, y); }
    }
    var x :| IsLeast(x, s);
    x
  }

  lemma LeastIsBelow(x: string, s: set<string>)
    requires IsLeast(x, s)
    ensures forall y :: y in s - {x} ==> Less(x, y)
  {
    forall y | y in s - {x} ensures Less(x, y) { LessTrichotomy(x, y); }
  }

  ghost predicate IsSorted(r: seq<string>, s: set<string>) {
    && (forall x :: x in r <==> x in s) && |r| == |s|
    && forall i, j :: 0 <= i < j < |r| ==> Less(r[i], r[j])
  }

  lemma OneInFront(x: string, rest: seq<string>, s: set<string>)
    requires x in s && IsSorted(rest, s - {x}) && forall y :: y in s - {x} ==> Less(x, y)
    ensures IsSorted([x] + rest, s)
  {
    var r := [x] + rest;
    forall y ensures y in r <==> y in s { InFront(x, rest, y); }
    forall y | y in rest ensures Less(x, y) { assert y in s - {x}; }
    StaysOrdered(x, rest);
  }

  lemma StaysOrdered(x: string, rest: seq<string>)
    requires forall y :: y in rest ==> Less(x, y)
    requires forall i, j :: 0 <= i < j < |rest| ==> Less(rest[i], rest[j])
    ensures forall i, j :: 0 <= i < j < |[x] + rest| ==> Less(([x] + rest)[i], ([x] + rest)[j])
  {
  }

  lemma InFront(x: string, rest: seq<string>, y: string)
    ensures y in [x] + rest <==> y == x || y in rest
  {
  }

  /** The names of a set, in order. */
  function Sorted(s: set<string>): (r: seq<string>)
    ensures IsSorted(r, s)
    decreases s
  {
    if s == {} then []
    else
      var x := Least(s);
      LeastIsBelow(x, s);
      OneInFront(x, Sorted(s - {x}), s);
      [x] + Sorted(s - {x})
  }
}
