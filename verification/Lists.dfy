/** Mapping and flattening lists, and what a permutation of the list does to the result. */
module Lists {
  import opened Strings

  function Map<T, U>(s: seq<T>, f: T -> U): (r: seq<U>)
    ensures |r| == |s| && forall i :: 0 <= i < |s| ==> r[i] == f(s[i])
  {
    seq(|s|, i requires 0 <= i < |s| => f(s[i]))
  }

  function FlatMap<T, U>(s: seq<T>, f: T -> seq<U>): seq<U> {
    if s == [] then [] else FlatMap(s[..|s| - 1], f) + f(s[|s| - 1])
  }

  function Filter<T>(s: seq<T>, p: T -> bool): seq<T> {
    if s == [] then []
    else Filter(s[..|s| - 1], p) + (if p(s[|s| - 1]) then [s[|s| - 1]] else [])
  }

  lemma {:induction false} FlatMapSnoc<T, U>(s: seq<T>, x: T, f: T -> seq<U>)
    ensures FlatMap(s + [x], f) == FlatMap(s, f) + f(x)
  {
    assert (s + [x])[..|s|] == s;
  }

  lemma {:induction false} FilterSnoc<T>(s: seq<T>, x: T, p: T -> bool)
    ensures Filter(s + [x], p) == Filter(s, p) + (if p(x) then [x] else [])
  {
    assert (s + [x])[..|s|] == s;
  }

  lemma {:induction false} FilterMembers<T>(s: seq<T>, p: T -> bool, x: T)
    ensures x in Filter(s, p) <==> x in s && p(x)
  {
    if s != [] {
      FilterMembers(s[..|s| - 1], p, x);
      assert x in s <==> x in s[..|s| - 1] || x == s[|s| - 1];
    }
  }

  lemma {:induction false} FlatMapMembers<T, U>(s: seq<T>, f: T -> seq<U>, y: U)
    ensures y in FlatMap(s, f) <==> exists x :: x in s && y in f(x)
  {
    if s != [] {
      FlatMapMembers(s[..|s| - 1], f, y);
      assert forall x :: x in s <==> x in s[..|s| - 1] || x == s[|s| - 1];
    }
  }

  lemma {:induction false} FlatMapConcat<T, U>(a: seq<T>, b: seq<T>, f: T -> seq<U>)
    ensures FlatMap(a + b, f) == FlatMap(a, f) + FlatMap(b, f)
  {
    if b == [] {
      assert a + b == a;
    } else {
      var front, x := b[..|b| - 1], b[|b| - 1];
      assert a + b == (a + front) + [x];
      FlatMapSnoc(a + front, x, f);
      FlatMapConcat(a, front, f);
      Associative(FlatMap(a, f), FlatMap(front, f), f(x));
    }
  }

  // Reordering the input reorders the output.
  lemma {:induction false} FlatMapPermuted<T, U>(a: seq<T>, b: seq<T>, f: T -> seq<U>)
    requires multiset(a) == multiset(b)
    ensures multiset(FlatMap(a, f)) == multiset(FlatMap(b, f))
  {
    if a == [] {
      assert |multiset(b)| == 0;
    } else {
      var front, x := a[..|a| - 1], a[|a| - 1];
      assert a == front + [x];
      assert x in multiset(b);
      var l, r := TakeOut(b, x);
      FlatMapPermuted(front, l + r, f);
      FlatMapConcat(l, r, f);
      FlatMapConcat(l + [x], r, f);
      FlatMapSnoc(l, x, f);
    }
  }

  lemma {:induction false} TakeOut<T>(s: seq<T>, x: T) returns (l: seq<T>, r: seq<T>)
    requires x in s
    ensures s == l + [x] + r && multiset(l + r) == multiset(s) - multiset{x}
  {
    var i :| 0 <= i < |s| && s[i] == x;
    l, r := s[..i], s[i + 1..];
    assert s == l + [x] + r;
  }

  lemma {:induction false} MembersPermuted<T>(a: seq<T>, b: seq<T>)
    requires multiset(a) == multiset(b)
    ensures forall x :: x in a <==> x in b
  {
    forall x ensures x in a <==> x in b {
      assert x in a <==> x in multiset(a);
      assert x in b <==> x in multiset(b);
    }
  }

  // The multiset of images of a list.
  function Image<T, U>(s: seq<T>, f: T -> U): multiset<U> {
    if s == [] then multiset{} else Image(s[..|s| - 1], f) + multiset{f(s[|s| - 1])}
  }

  lemma {:induction false} ImageMembers<T, U>(s: seq<T>, f: T -> U, y: U)
    ensures y in Image(s, f) <==> exists x :: x in s && f(x) == y
  {
    if s != [] {
      ImageMembers(s[..|s| - 1], f, y);
      assert forall x :: x in s <==> x in s[..|s| - 1] || x == s[|s| - 1];
    }
  }

  lemma {:induction false} ImageOrigin<T, U>(s: seq<T>, f: T -> U, y: U) returns (x: T)
    requires y in Image(s, f)
    ensures x in s && f(x) == y
  {
    ImageMembers(s, f, y);
    x :| x in s && f(x) == y;
  }

  lemma {:induction false} ImageConcat<T, U>(a: seq<T>, b: seq<T>, f: T -> U)
    ensures Image(a + b, f) == Image(a, f) + Image(b, f)
  {
    if b == [] {
      assert a + b == a;
    } else {
      assert (a + b)[..|a + b| - 1] == a + b[..|b| - 1];
      ImageConcat(a, b[..|b| - 1], f);
    }
  }

  lemma {:induction false} ImageTakenOut<T, U>(l: seq<T>, x: T, r: seq<T>, f: T -> U)
    ensures Image(l + [x] + r, f) == Image(l + r, f) + multiset{f(x)}
  {
    ImageConcat(l + [x], r, f);
    ImageConcat(l, [x], f);
    ImageConcat(l, r, f);
    assert [x][..0] == [];
  }

  lemma {:induction false} ImagePermuted<T, U>(a: seq<T>, b: seq<T>, f: T -> U)
    requires multiset(a) == multiset(b)
    ensures Image(a, f) == Image(b, f)
  {
    if a == [] {
      assert |multiset(b)| == 0;
    } else {
      var front, x := a[..|a| - 1], a[|a| - 1];
      assert a == front + [x];
      assert x in multiset(b);
      var l, r := TakeOut(b, x);
      ImagePermuted(front, l + r, f);
      ImageTakenOut(l, x, r, f);
    }
  }

  lemma {:induction false} ImageSize<T, U>(s: seq<T>, f: T -> U)
    ensures |Image(s, f)| == |s|
  {
    if s != [] {
      ImageSize(s[..|s| - 1], f);
    }
  }

  lemma {:induction false} Cancel<U>(a: multiset<U>, b: multiset<U>, y: U)
    requires a + multiset{y} == b + multiset{y}
    ensures a == b
  {
    assert a == (a + multiset{y}) - multiset{y};
    assert b == (b + multiset{y}) - multiset{y};
  }

  // When f does not identify elements of the two lists, equal images mean equal multisets.
  lemma {:induction false} ImageInjective<T, U>(a: seq<T>, b: seq<T>, f: T -> U)
    requires Image(a, f) == Image(b, f)
    requires forall x, y :: x in a && y in b && f(x) == f(y) ==> x == y
    ensures multiset(a) == multiset(b)
  {
    if a == [] {
      ImageSize(b, f);
    } else {
      var front, x := a[..|a| - 1], a[|a| - 1];
      assert a == front + [x];
      var y := ImageOrigin(b, f, f(x));
      assert y == x;
      var l, r := TakeOut(b, x);
      ImageTakenOut(l, x, r, f);
      var rest := l + r;
      Cancel(Image(front, f), Image(rest, f), f(x));
      forall p, q | p in front && q in rest && f(p) == f(q) ensures p == q {
        assert p in a && q in b;
      }
      ImageInjective(front, rest, f);
    }
  }

  ghost predicate Distinct<T>(s: seq<T>) {
    forall i, j :: 0 <= i < j < |s| ==> s[i] != s[j]
  }

  lemma {:induction false} DistinctConcat<T>(a: seq<T>, b: seq<T>)
    requires Distinct(a) && Distinct(b) && forall x :: x in a ==> x !in b
    ensures Distinct(a + b)
  {
    forall i, j | 0 <= i < j < |a + b| ensures (a + b)[i] != (a + b)[j] {
      if i < |a| <= j {
        assert a[i] in a && b[j - |a|] in b;
      }
    }
  }

  lemma {:induction false} DistinctCount<T>(s: seq<T>, x: T)
    requires Distinct(s)
    ensures multiset(s)[x] <= 1
  {
    if s != [] {
      var front := s[..|s| - 1];
      assert s == front + [s[|s| - 1]];
      DistinctCount(front, x);
      if x in front {
        var i :| 0 <= i < |front| && front[i] == x;
        assert s[i] != s[|front|];
      }
    }
  }

  lemma {:induction false} DistinctPermuted<T>(a: seq<T>, b: seq<T>)
    requires Distinct(a) && multiset(a) == multiset(b)
    ensures Distinct(b)
  {
    forall i, j | 0 <= i < j < |b| ensures b[i] != b[j] {
      DistinctCount(a, b[i]);
      assert b == b[..j] + [b[j]] + b[j + 1..];
      assert b[i] in b[..j];
      assert multiset(b)[b[j]] == multiset(b[..j])[b[j]] + 1 + multiset(b[j + 1..])[b[j]];
    }
  }

  // Lists without repetitions and with the same members are permutations of each other.
  lemma {:induction false} DistinctSameMembers<T>(a: seq<T>, b: seq<T>)
    requires Distinct(a) && Distinct(b) && forall x :: x in a <==> x in b
    ensures multiset(a) == multiset(b)
  {
    forall x ensures multiset(a)[x] == multiset(b)[x] {
      DistinctCount(a, x);
      DistinctCount(b, x);
      assert x in a <==> x in multiset(a);
      assert x in b <==> x in multiset(b);
    }
  }

  lemma {:induction false} ImageRelated<T, U, V>(a: seq<T>, b: seq<U>, f: T -> V, g: U -> V)
    requires |a| == |b| && forall i :: 0 <= i < |a| ==> f(a[i]) == g(b[i])
    ensures Image(a, f) == Image(b, g)
  {
    if a != [] {
      ImageRelated(a[..|a| - 1], b[..|b| - 1], f, g);
    }
  }

  // The same, from the end.
  predicate NoRepeats<T(==)>(s: seq<T>) {
    s == [] || (NoRepeats(s[..|s| - 1]) && s[|s| - 1] !in s[..|s| - 1])
  }

  lemma {:induction false} DistinctNoRepeats<T>(s: seq<T>)
    requires Distinct(s)
    ensures NoRepeats(s)
  {
    if s != [] {
      var front := s[..|s| - 1];
      DistinctNoRepeats(front);
      forall i | 0 <= i < |front| ensures front[i] != s[|s| - 1] {
        assert s[i] != s[|s| - 1];
      }
    }
  }
}
