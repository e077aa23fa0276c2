/**
 * Map-then-drop: apply a partial conversion to every element of a sequence and
 * keep only the defined results, in their original order. Both filtering steps
 * of the application (dropping rows whose date or time did not parse, then
 * rows whose time has no meal category) have this shape.
 */
module SeqFilter {
  import opened Wrappers

  /** The indices of the elements `f` keeps, in increasing order. */
  function KeptIndices<A, B>(f: A -> Option<B>, s: seq<A>): (idx: seq<nat>)
    ensures forall k :: 0 <= k < |idx| ==> idx[k] < |s|
    ensures forall k, l :: 0 <= k < l < |idx| ==> idx[k] < idx[l]
    ensures forall i :: 0 <= i < |s| ==> (i in idx <==> f(s[i]).Some?)
  {
    if |s| == 0 then []
    else
      var front := KeptIndices(f, s[..|s| - 1]);
      assert forall i :: 0 <= i < |s| - 1 ==> s[..|s| - 1][i] == s[i];
      if f(s[|s| - 1]).Some? then front + [|s| - 1] else front
  }

  /** The defined results of `f` over `s`, in the order of `s`. */
  function FilterMap<A, B>(f: A -> Option<B>, s: seq<A>): (r: seq<B>)
    ensures |r| == |KeptIndices(f, s)| <= |s|
    ensures forall k :: 0 <= k < |r| ==> f(s[KeptIndices(f, s)[k]]) == Some(r[k])
  {
    if |s| == 0 then []
    else
      var front := FilterMap(f, s[..|s| - 1]);
      var idx := KeptIndices(f, s[..|s| - 1]);
      assert forall k :: 0 <= k < |idx| ==> s[..|s| - 1][idx[k]] == s[idx[k]];
      CountBound(f, s);
      match f(s[|s| - 1])
      case Some(b) => front + [b]
      case None => front
  }

  /** Appending one element appends its converted value, if it has one. */
  lemma FilterMapSnoc<A, B>(f: A -> Option<B>, s: seq<A>, x: A)
    ensures FilterMap(f, s + [x]) == FilterMap(f, s) + (match f(x) case Some(b) => [b] case None => [])
  {
    assert (s + [x])[..|s|] == s;
  }

  /** No more indices are kept than there are elements. */
  lemma {:induction false} CountBound<A, B>(f: A -> Option<B>, s: seq<A>)
    ensures |KeptIndices(f, s)| <= |s|
  {
    if |s| > 0 {
      CountBound(f, s[..|s| - 1]);
    }
  }

  /** Running `g` over the output of `f`, dropping as it goes. */
  function Then<A, B, C>(f: A -> Option<B>, g: B -> Option<C>): A -> Option<C> {
    a => match f(a) case Some(b) => g(b) case None => None
  }

  /** Two drops in a row are one drop by the composed conversion. */
  lemma {:induction false} FilterMapThen<A, B, C>(f: A -> Option<B>, g: B -> Option<C>, s: seq<A>)
    ensures FilterMap(g, FilterMap(f, s)) == FilterMap(Then(f, g), s)
  {
    if |s| > 0 {
      var front := s[..|s| - 1];
      var x := s[|s| - 1];
      var h := Then(f, g);
      FilterMapThen(f, g, front);
      assert h(x) == match f(x) case Some(b) => g(b) case None => None;
      var mid := FilterMap(f, front);
      match f(x)
      case None =>
        assert FilterMap(f, s) == mid;
        assert h(x).None?;
        assert FilterMap(h, s) == FilterMap(h, front);
      case Some(b) =>
        assert FilterMap(f, s) == mid + [b];
        var ext := mid + [b];
        assert ext[..|ext| - 1] == mid && ext[|ext| - 1] == b;
        assert h(x) == g(b);
    }
  }

  /** Conversions that agree on every element drop and keep the same things. */
  lemma {:induction false} FilterMapPointwise<A, B>(f: A -> Option<B>, g: A -> Option<B>, s: seq<A>)
    requires forall i :: 0 <= i < |s| ==> f(s[i]) == g(s[i])
    ensures FilterMap(f, s) == FilterMap(g, s)
  {
    if |s| > 0 {
      var front := s[..|s| - 1];
      assert forall i :: 0 <= i < |front| ==> front[i] == s[i];
      FilterMapPointwise(f, g, front);
    }
  }
}
