/** `a` is obtained from `b` by leaving elements out, keeping the order. */
module Subsequences {
  predicate Subseq<T(==)>(a: seq<T>, b: seq<T>)
    decreases |b|
  {
    || a == []
    || (&& b != []
        && (|| Subseq(a, b[..|b| - 1])
            || (a[|a| - 1] == b[|b| - 1] && Subseq(a[..|a| - 1], b[..|b| - 1]))))
  }

  lemma SubseqSkip<T>(a: seq<T>, b: seq<T>, x: T)
    requires Subseq(a, b)
    ensures Subseq(a, b + [x])
  {
    assert (b + [x])[..|b|] == b;
  }

  lemma SubseqKeep<T>(a: seq<T>, b: seq<T>, x: T)
    requires Subseq(a, b)
    ensures Subseq(a + [x], b + [x])
  {
    assert (b + [x])[..|b|] == b && (a + [x])[..|a|] == a;
  }

  lemma {:induction false} SubseqRefl<T>(a: seq<T>)
    ensures Subseq(a, a)
  {
    if a != [] {
      SubseqRefl(a[..|a| - 1]);
    }
  }

  /** Leaving out one more element. */
  lemma {:induction false} SubseqOmit<T>(a1: seq<T>, x: T, a2: seq<T>, b: seq<T>)
    requires Subseq(a1 + [x] + a2, b)
    ensures Subseq(a1 + a2, b)
    decreases |b|
  {
    var a, init := a1 + [x] + a2, b[..|b| - 1];
    if Subseq(a, init) {
      SubseqOmit(a1, x, a2, init);
      SubseqSkip(a1 + a2, init, b[|b| - 1]);
      assert init + [b[|b| - 1]] == b;
    } else if a2 == [] {
      assert a[..|a| - 1] == a1;
      SubseqSkip(a1, init, b[|b| - 1]);
      assert init + [b[|b| - 1]] == b && a1 + a2 == a1;
    } else {
      var a2' := a2[..|a2| - 1];
      assert a[..|a| - 1] == a1 + [x] + a2';
      SubseqOmit(a1, x, a2', init);
      SubseqKeep(a1 + a2', init, b[|b| - 1]);
      assert init + [b[|b| - 1]] == b && a1 + a2' + [b[|b| - 1]] == a1 + a2;
    }
  }

  lemma {:induction false} SubseqTrans<T>(a: seq<T>, b: seq<T>, c: seq<T>)
    requires Subseq(a, b) && Subseq(b, c)
    ensures Subseq(a, c)
    decreases |b| + |c|
  {
    if a != [] {
      var c' := c[..|c| - 1];
      if Subseq(b, c') {
        SubseqTrans(a, b, c');
      } else {
        var b' := b[..|b| - 1];
        if Subseq(a, b') {
          SubseqTrans(a, b', c');
        } else {
          SubseqTrans(a[..|a| - 1], b', c');
        }
      }
    }
  }

  function Filter<T>(a: seq<T>, p: T -> bool): seq<T> {
    if a == [] then []
    else
      var init := Filter(a[..|a| - 1], p);
      if p(a[|a| - 1]) then init + [a[|a| - 1]] else init
  }

  lemma FilterAppend<T>(a: seq<T>, x: T, p: T -> bool)
    ensures Filter(a + [x], p) == if p(x) then Filter(a, p) + [x] else Filter(a, p)
  {
    assert (a + [x])[..|a|] == a;
  }

  lemma {:induction false} SubseqFilter<T>(a: seq<T>, b: seq<T>, p: T -> bool)
    requires Subseq(a, b)
    ensures Subseq(Filter(a, p), Filter(b, p))
    decreases |b|
  {
    if a != [] {
      var b', x := b[..|b| - 1], b[|b| - 1];
      if Subseq(a, b') {
        SubseqFilter(a, b', p);
        SubseqSkip(Filter(a, p), Filter(b', p), x);
      } else {
        SubseqFilter(a[..|a| - 1], b', p);
        SubseqKeep(Filter(a[..|a| - 1], p), Filter(b', p), x);
      }
    }
  }

  lemma {:induction false} FilterFilter<T>(a: seq<T>, p: T -> bool, q: T -> bool)
    requires forall x :: x in a && q(x) ==> p(x)
    ensures Filter(Filter(a, p), q) == Filter(a, q)
  {
    if a != [] {
      var init, x := a[..|a| - 1], a[|a| - 1];
      FilterFilter(init, p, q);
      if p(x) {
        FilterAppend(Filter(init, p), x, q);
      }
    }
  }
}
