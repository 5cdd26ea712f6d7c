/** The order of Rust strings, which for UTF-8 is the order of their code points, and sorting by name. */
module Ordering {

  predicate Less(a: string, b: string) {
    if b == "" then false
    else if a == "" then true
    else a[0] < b[0] || (a[0] == b[0] && Less(a[1..], b[1..]))
  }

  lemma {:induction false} LessIsTransitive(a: string, b: string, c: string)
    requires Less(a, b) && Less(b, c)
    ensures Less(a, c)
  {
    if a != "" && a[0] == b[0] && b[0] == c[0] {
      LessIsTransitive(a[1..], b[1..], c[1..]);
    }
  }

  lemma {:induction false} LessIsAsymmetric(a: string, b: string)
    requires Less(a, b)
    ensures !Less(b, a) && a != b
  {
    if a != "" && a[0] == b[0] {
      LessIsAsymmetric(a[1..], b[1..]);
    }
  }

  lemma {:induction false} LessIsTotal(a: string, b: string)
    ensures a == b || Less(a, b) || Less(b, a)
  {
    if a != "" && b != "" && a[0] == b[0] {
      LessIsTotal(a[1..], b[1..]);
    }
  }

  ghost predicate Sorted<T>(xs: seq<T>, name: T -> string) {
    forall i, j :: 0 <= i < j < |xs| ==> Less(name(xs[i]), name(xs[j]))
  }

  ghost predicate DistinctNames<T>(xs: seq<T>, name: T -> string) {
    forall i, j :: 0 <= i < j < |xs| ==> name(xs[i]) != name(xs[j])
  }

  function Insert<T>(x: T, xs: seq<T>, name: T -> string): (r: seq<T>)
    ensures multiset(r) == multiset{x} + multiset(xs)
  {
    if xs == [] || Less(name(x), name(xs[0])) then [x] + xs
    else
      assert xs == [xs[0]] + xs[1..];
      [xs[0]] + Insert(x, xs[1..], name)
  }

  // `sort_by` on the name; items with distinct names are in strict order afterwards.
  function Sort<T>(xs: seq<T>, name: T -> string): (r: seq<T>)
    ensures multiset(r) == multiset(xs)
  {
    if xs == [] then []
    else
      assert xs == [xs[0]] + xs[1..];
      Insert(xs[0], Sort(xs[1..], name), name)
  }

  lemma SameElements<T>(xs: seq<T>, ys: seq<T>)
    requires multiset(xs) == multiset(ys)
    ensures forall x :: x in xs <==> x in ys
  {
    forall x
      ensures x in xs <==> x in ys
    {
      assert x in xs <==> x in multiset(xs);
      assert x in ys <==> x in multiset(ys);
    }
  }

  lemma {:induction false} InsertSorts<T>(x: T, xs: seq<T>, name: T -> string)
    requires Sorted(xs, name) && forall y :: y in xs ==> name(y) != name(x)
    ensures Sorted(Insert(x, xs, name), name)
  {
    if xs != [] {
      if Less(name(x), name(xs[0])) {
        forall j | 0 < j < |xs|
          ensures Less(name(x), name(xs[j]))
        {
          LessIsTransitive(name(x), name(xs[0]), name(xs[j]));
        }
      } else {
        var rest := Insert(x, xs[1..], name);
        InsertSorts(x, xs[1..], name);
        LessIsTotal(name(x), name(xs[0]));
        forall y | y in rest
          ensures Less(name(xs[0]), name(y))
        {
          assert y in multiset(rest);
          if y != x {
            assert y in multiset(xs[1..]);
            var j :| 0 <= j < |xs| - 1 && xs[1..][j] == y;
            assert xs[j + 1] == y;
          }
        }
      }
    }
  }

  lemma {:induction false} SortSorts<T>(xs: seq<T>, name: T -> string)
    requires DistinctNames(xs, name)
    ensures Sorted(Sort(xs, name), name)
  {
    if xs != [] {
      SortSorts(xs[1..], name);
      forall y | y in Sort(xs[1..], name)
        ensures name(y) != name(xs[0])
      {
        assert y in multiset(Sort(xs[1..], name)) && y in multiset(xs[1..]);
        var j :| 0 <= j < |xs| - 1 && xs[1..][j] == y;
        assert xs[j + 1] == y;
      }
      InsertSorts(xs[0], Sort(xs[1..], name), name);
    }
  }

  // There is only one way to put a collection in strict order.
  lemma {:induction false} SortedIsUnique<T>(xs: seq<T>, ys: seq<T>, name: T -> string)
    requires Sorted(xs, name) && Sorted(ys, name) && forall x :: x in xs <==> x in ys
    ensures xs == ys
  {
    assert ys == [] || ys[0] in ys;
    if xs == [] {
    } else {
      assert xs[0] in ys;
      var i :| 0 <= i < |ys| && ys[i] == xs[0];
      assert ys[0] in xs;
      var j :| 0 <= j < |xs| && xs[j] == ys[0];
      if i > 0 && j > 0 {
        LessIsAsymmetric(name(xs[0]), name(ys[0]));
      }
      assert xs[0] == ys[0];
      RestHasRest(xs, ys, name);
      RestHasRest(ys, xs, name);
      SortedIsUnique(xs[1..], ys[1..], name);
    }
  }

  lemma RestHasRest<T>(xs: seq<T>, ys: seq<T>, name: T -> string)
    requires Sorted(xs, name) && forall x :: x in xs <==> x in ys
    requires xs != [] && ys != [] && xs[0] == ys[0]
    ensures forall x :: x in xs[1..] ==> x in ys[1..]
  {
    forall x | x in xs[1..]
      ensures x in ys[1..]
    {
      var i :| 0 < i < |xs| && xs[i] == x;
      LessIsAsymmetric(name(xs[0]), name(xs[i]));
      assert x in ys;
      var j :| 0 <= j < |ys| && ys[j] == x;
      assert ys[1..][j - 1] == x;
    }
  }
}
