/** The last element of a list for which a function gives something. */
module LastOf {
  import opened Wrappers

  function LastSome<T, U>(xs: seq<T>, f: T -> Option<U>): Option<U> {
    if xs == [] then None
    else if f(xs[|xs| - 1]).Some? then f(xs[|xs| - 1])
    else LastSome(xs[..|xs| - 1], f)
  }

  ghost predicate AnySome<T, U>(xs: seq<T>, f: T -> Option<U>) {
    exists i | 0 <= i < |xs| :: f(xs[i]).Some?
  }

  /** The walk from the right. */
  method FindLast<T, U>(xs: seq<T>, f: T -> Option<U>) returns (r: Option<U>)
    ensures r == LastSome(xs, f)
  {
    var i := |xs| - 1;
    assert xs[..i + 1] == xs;
    while i >= 0
      invariant -1 <= i < |xs|
      invariant LastSome(xs, f) == LastSome(xs[..i + 1], f)
    {
      assert xs[..i + 1][..i] == xs[..i];
      if f(xs[i]).Some? {
        return f(xs[i]);
      }
      i := i - 1;
    }
    return None;
  }

  lemma {:induction false} LastSomeIff<T, U>(xs: seq<T>, f: T -> Option<U>)
    ensures LastSome(xs, f).Some? <==> AnySome(xs, f)
    ensures LastSome(xs, f).Some? ==>
      exists i | 0 <= i < |xs| ::
        f(xs[i]).Some? && LastSome(xs, f) == f(xs[i]) && forall j | i < j < |xs| :: f(xs[j]).None?
  {
    if xs != [] && f(xs[|xs| - 1]).None? {
      LastSomeIff(xs[..|xs| - 1], f);
    }
  }

  /** What stands in front matters only if nothing behind gives anything. */
  lemma {:induction false} FrontUnreachable<T, U>(front: seq<T>, back: seq<T>, f: T -> Option<U>)
    ensures LastSome(front + back, f) == if AnySome(back, f) then LastSome(back, f) else LastSome(front, f)
    decreases |back|
  {
    LastSomeIff(back, f);
    if back == [] {
      assert front + back == front;
    } else {
      var n := |back| - 1;
      assert (front + back)[..|front + back| - 1] == front + back[..n];
      FrontUnreachable(front, back[..n], f);
      LastSomeIff(back[..n], f);
    }
  }
}
