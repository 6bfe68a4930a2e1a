/** Identifiers.  Trace ids, span ids, message ids, field paths and type names are strings that the
    code only compares and sorts, so an identifier is its place in the string order.  */
module Ids {
  datatype Id = Id(order: int)

  predicate Ascending(s: seq<Id>)
  {
    forall i, j :: 0 <= i < j < |s| ==> s[i].order < s[j].order
  }

  function Elems<T>(s: seq<T>): set<T>
  {
    set x | x in s
  }

  lemma {:induction false} Least(s: set<Id>) returns (m: Id)
    requires s != {}
    ensures m in s && forall y :: y in s ==> m.order <= y.order
  {
    m :| m in s;
    if s != {m} {
      var rest := Least(s - {m});
      m := if m.order <= rest.order then m else rest;
      forall y | y in s ensures m.order <= y.order { if y !in {m} { assert y in s; } }
    }
  }

  /** r lists s in ascending order; there is one such list, `sorted(s)`. */
  ghost predicate Lists(r: seq<Id>, s: set<Id>)
  {
    Ascending(r) && Elems(r) == s
  }

  lemma {:induction false} SortedExists(s: set<Id>) returns (r: seq<Id>)
    ensures Lists(r, s)
  {
    if s == {} {
      r := [];
    } else {
      var m := Least(s);
      var rest := SortedExists(s - {m});
      r := [m] + rest;
      forall k | 0 <= k < |rest| ensures m.order < rest[k].order {
        assert rest[k] in Elems(rest);
      }
      forall x ensures x in r <==> x in s {
        assert x in Elems(rest) <==> x in rest;
      }
    }
  }

  ghost function Sorted(s: set<Id>): (r: seq<Id>)
    ensures Lists(r, s)
  {
    assert exists r :: Lists(r, s) by { var r := SortedExists(s); }
    var r :| Lists(r, s);
    r
  }

  lemma ElemsNonEmpty(r: seq<Id>)
    requires r != []
    ensures Elems(r) != {}
  {
    assert r[0] in Elems(r);
  }

  /** Two ascending lists of the same members are the same list. */
  lemma {:induction false} ListUnique(a: seq<Id>, b: seq<Id>, s: set<Id>)
    requires Lists(a, s) && Lists(b, s)
    ensures a == b
  {
    if s == {} {
      if a != [] { ElemsNonEmpty(a); }
      if b != [] { ElemsNonEmpty(b); }
    } else {
      assert exists x :: x in s by { var x := Least(s); }
      assert a != [] && b != [];
      assert a[0] in Elems(a) && b[0] in Elems(b);
      assert a[0] in b && b[0] in a;
      assert a[0] == b[0];
      ListTail(a, s);
      ListTail(b, s);
      ListUnique(a[1..], b[1..], s - {a[0]});
      assert a == [a[0]] + a[1..] && b == [b[0]] + b[1..];
    }
  }

  lemma ListTail(a: seq<Id>, s: set<Id>)
    requires Lists(a, s) && a != []
    ensures Lists(a[1..], s - {a[0]})
  {
  }

  /** `sorted(keys)` as a list the code can walk: the smallest key first. */
  method SortIds(s: set<Id>) returns (r: seq<Id>)
    ensures Lists(r, s)
  {
    r := [];
    var rest := s;
    while rest != {}
      invariant Lists(r, s - rest) && rest <= s && AllBelow(r, rest)
      decreases |rest|
    {
      ghost var least := Least(rest);
      var m :| m in rest && forall y :: y in rest ==> m.order <= y.order;
      MoveLeast(r, s, rest, m);
      r := r + [m];
      rest := rest - {m};
    }
    assert s - {} == s;
  }

  predicate AllBelow(r: seq<Id>, s: set<Id>)
  {
    forall x, y :: x in r && y in s ==> x.order < y.order
  }

  /** Moving the least remaining element to the end of the list. */
  lemma MoveLeast(r: seq<Id>, s: set<Id>, rest: set<Id>, m: Id)
    requires Lists(r, s - rest) && rest <= s && AllBelow(r, rest)
    requires m in rest && forall y :: y in rest ==> m.order <= y.order
    ensures Lists(r + [m], s - (rest - {m})) && AllBelow(r + [m], rest - {m})
  {
    ListsAppend(r, s - rest, m);
    assert s - (rest - {m}) == (s - rest) + {m};
    forall x, y | x in r + [m] && y in rest - {m} ensures x.order < y.order { assert x in r || x == m; }
  }

  lemma ListsAppend(r: seq<Id>, s: set<Id>, m: Id)
    requires Lists(r, s) && forall x :: x in r ==> x.order < m.order
    ensures Lists(r + [m], s + {m})
  {
  }
}
