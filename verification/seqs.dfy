/**
 * Walking a sequence and keeping what a partial map makes of each element:
 * the list-comprehension shape `[g(x) for x in xs if p(x)]` the application
 * uses to build display lines and dropdown entries.
 */
module Seqs {
  import opened Wrappers

  /** The values `f` produces, in the order of `xs`; elements mapped to `None` are skipped. */
  function FilterMap<T, U>(xs: seq<T>, f: T -> Option<U>): (r: seq<U>)
    ensures |r| <= |xs|
  {
    if |xs| == 0 then []
    else FilterMap(xs[..|xs| - 1], f) + Kept(f(xs[|xs| - 1]))
  }

  function Kept<U>(o: Option<U>): seq<U> {
    match o case Some(u) => [u] case None => []
  }

  /** Nothing is kept exactly when every element maps to `None`. */
  lemma {:induction false} FilterMapEmpty<T, U>(xs: seq<T>, f: T -> Option<U>)
    ensures FilterMap(xs, f) == [] <==> forall i :: 0 <= i < |xs| ==> f(xs[i]).None?
  {
    if |xs| > 0 {
      var p := xs[..|xs| - 1];
      FilterMapEmpty(p, f);
      assert forall i :: 0 <= i < |p| ==> p[i] == xs[i];
    }
  }

  /** Every kept value comes from some element. */
  lemma {:induction false} FilterMapOrigin<T, U>(xs: seq<T>, f: T -> Option<U>, u: U) returns (i: nat)
    requires u in FilterMap(xs, f)
    ensures i < |xs| && f(xs[i]) == Some(u)
  {
    var p := xs[..|xs| - 1];
    if u in FilterMap(p, f) {
      i := FilterMapOrigin(p, f, u);
      assert p[i] == xs[i];
    } else {
      i := |xs| - 1;
    }
  }

  /** Every value an element maps to is kept. */
  lemma {:induction false} FilterMapKept<T, U>(xs: seq<T>, f: T -> Option<U>, i: nat)
    requires i < |xs| && f(xs[i]).Some?
    ensures f(xs[i]).value in FilterMap(xs, f)
  {
    var p := xs[..|xs| - 1];
    if i < |p| {
      assert p[i] == xs[i];
      FilterMapKept(p, f, i);
    }
  }

  /** The kept values are exactly the values the elements map to. */
  lemma FilterMapMembers<T, U>(xs: seq<T>, f: T -> Option<U>)
    ensures forall u :: u in FilterMap(xs, f) <==> exists i :: 0 <= i < |xs| && f(xs[i]) == Some(u)
  {
    forall u | u in FilterMap(xs, f)
      ensures exists i :: 0 <= i < |xs| && f(xs[i]) == Some(u)
    {
      var i := FilterMapOrigin(xs, f, u);
    }
    forall i | 0 <= i < |xs| && f(xs[i]).Some?
      ensures f(xs[i]).value in FilterMap(xs, f)
    {
      FilterMapKept(xs, f, i);
    }
  }
}
