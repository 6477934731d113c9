/**
 * Filter-map over a sequence: what both the directory scan (keep the entries
 * that become tasks) and the error list (keep the messages of the failed
 * outcomes) compute, with the positions of the kept elements.
 */
module Filtering {
  import opened Optional

  /** The values `f` gives for the elements it keeps, in the elements' order. */
  function FilterMap<A, B>(s: seq<A>, f: A -> Option<B>): (r: seq<B>)
    ensures |r| <= |s|
  {
    if s == [] then []
    else
      FilterMap(s[..|s| - 1], f) +
      match f(s[|s| - 1])
      case None => []
      case Some(b) => [b]
  }

  /** The positions of the elements `f` keeps, in increasing order. */
  function Kept<A, B>(s: seq<A>, f: A -> Option<B>): (ix: seq<nat>)
    ensures forall k :: 0 <= k < |ix| ==> ix[k] < |s|
  {
    if s == [] then []
    else Kept(s[..|s| - 1], f) + if f(s[|s| - 1]).Some? then [|s| - 1] else []
  }

  predicate Increasing(ix: seq<nat>)
  {
    forall i, j :: 0 <= i < j < |ix| ==> ix[i] < ix[j]
  }

  /** One kept position per value, in increasing order. */
  lemma {:induction false} KeptIncreasing<A, B>(s: seq<A>, f: A -> Option<B>)
    ensures |FilterMap(s, f)| == |Kept(s, f)|
    ensures Increasing(Kept(s, f))
  {
    if s != [] {
      KeptIncreasing(s[..|s| - 1], f);
    }
  }

  /** Exactly the positions whose elements `f` maps to a value are kept. */
  lemma {:induction false} KeptExactly<A, B>(s: seq<A>, f: A -> Option<B>)
    ensures forall i :: 0 <= i < |s| ==> (i in Kept(s, f) <==> f(s[i]).Some?)
  {
    if s != [] {
      var init := s[..|s| - 1];
      KeptExactly(init, f);
      assert forall i :: 0 <= i < |init| ==> s[i] == init[i];
    }
  }

  /** The k-th value is what `f` gives for the element at the k-th kept position. */
  lemma {:induction false} KeptValues<A, B>(s: seq<A>, f: A -> Option<B>)
    ensures |FilterMap(s, f)| == |Kept(s, f)|
    ensures forall k :: 0 <= k < |Kept(s, f)| ==> f(s[Kept(s, f)[k]]) == Some(FilterMap(s, f)[k])
  {
    KeptIncreasing(s, f);
    if s != [] {
      var init := s[..|s| - 1];
      KeptValues(init, f);
      var r, ix := FilterMap(s, f), Kept(s, f);
      assert forall k :: 0 <= k < |Kept(init, f)| ==> s[Kept(init, f)[k]] == init[Kept(init, f)[k]];
      assert r[..|FilterMap(init, f)|] == FilterMap(init, f);
      assert ix[..|Kept(init, f)|] == Kept(init, f);
    }
  }

  /**
   * FilterMap keeps exactly the elements `f` maps to a value, and no other,
   * in their original order: its k-th value is what `f` gives for the k-th
   * kept position.
   */
  lemma FilterMapKeeps<A, B>(s: seq<A>, f: A -> Option<B>)
    ensures |FilterMap(s, f)| == |Kept(s, f)|
    ensures Increasing(Kept(s, f))
    ensures forall k :: 0 <= k < |Kept(s, f)| ==> f(s[Kept(s, f)[k]]) == Some(FilterMap(s, f)[k])
    ensures forall i :: 0 <= i < |s| ==> (i in Kept(s, f) <==> f(s[i]).Some?)
  {
    KeptIncreasing(s, f);
    KeptExactly(s, f);
    KeptValues(s, f);
  }

  /** Extending the input by one element extends the output by what `f` gives for it. */
  lemma FilterMapSnoc<A, B>(s: seq<A>, x: A, f: A -> Option<B>)
    ensures FilterMap(s + [x], f) == FilterMap(s, f) + match f(x) case None => [] case Some(b) => [b]
  {
    assert (s + [x])[..|s|] == s;
  }
}
