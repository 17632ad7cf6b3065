/** Building a list by visiting a sequence in order and appending what each
    element yields, if anything: the shape of a Go `for ... range` loop that
    conditionally `append`s. */
module Seqs {
  import opened Wrappers

  function Collect<T, U>(xs: seq<T>, f: T -> Option<U>): (ys: seq<U>)
    decreases |xs|
  {
    if xs == [] then []
    else Collect(xs[..|xs| - 1], f) + f(xs[|xs| - 1]).ToSeq()
  }

  /** Visiting one more element appends what it yields to a list that had
      the earlier elements' results appended. */
  lemma CollectSnoc<T, U>(head: seq<U>, xs: seq<T>, f: T -> Option<U>, i: int, ys: seq<U>)
    requires 0 <= i < |xs|
    requires ys == head + Collect(xs[..i], f) + f(xs[i]).ToSeq()
    ensures ys == head + Collect(xs[..i + 1], f)
  {
    var prefix := xs[..i + 1];
    assert prefix[..i] == xs[..i];
    assert prefix[i] == xs[i];
  }

  /** The results of a concatenation are the concatenated results. */
  lemma {:induction false} CollectAppend<T, U>(a: seq<T>, b: seq<T>, f: T -> Option<U>)
    ensures Collect(a + b, f) == Collect(a, f) + Collect(b, f)
    decreases |b|
  {
    if b == [] {
      assert a + b == a;
    } else {
      var b' := b[..|b| - 1];
      assert (a + b)[..|a + b| - 1] == a + b';
      assert (a + b)[|a + b| - 1] == b[|b| - 1];
      CollectAppend(a, b', f);
    }
  }

  /** What any element yields is among the results. */
  lemma {:induction false} CollectHas<T, U>(xs: seq<T>, f: T -> Option<U>, y: U, i: int)
    requires 0 <= i < |xs| && f(xs[i]) == Some(y)
    ensures y in Collect(xs, f)
    decreases |xs|
  {
    var n := |xs| - 1;
    var xs' := xs[..n];
    if i < n {
      assert xs'[i] == xs[i];
      CollectHas(xs', f, y, i);
    } else {
      assert i == n;
      assert f(xs[n]).ToSeq() == [y];
    }
  }

  /** A value is among the results exactly when some element yields it. */
  lemma {:induction false} CollectMember<T, U>(xs: seq<T>, f: T -> Option<U>, y: U)
    ensures y in Collect(xs, f) <==> exists i :: 0 <= i < |xs| && f(xs[i]) == Some(y)
    decreases |xs|
  {
    forall i | 0 <= i < |xs| && f(xs[i]) == Some(y)
      ensures y in Collect(xs, f)
    {
      CollectHas(xs, f, y, i);
    }
    if y in Collect(xs, f) {
      var n := |xs| - 1;
      var xs' := xs[..n];
      if y in Collect(xs', f) {
        CollectMember(xs', f, y);
        var i :| 0 <= i < |xs'| && f(xs'[i]) == Some(y);
        assert xs[i] == xs'[i];
      } else {
        assert f(xs[n]) == Some(y);
      }
    }
  }

  /** At most one result per element. */
  lemma {:induction false} CollectLength<T, U>(xs: seq<T>, f: T -> Option<U>)
    ensures |Collect(xs, f)| <= |xs|
    decreases |xs|
  {
    if xs != [] {
      CollectLength(xs[..|xs| - 1], f);
    }
  }
}
