/** Order-preserving filtering: the shape of every `filter` and every push-on-success loop modelled here. */
module Seqs {
  import opened Outcomes

  function Keep<B>(o: Option<B>): seq<B>
  {
    match o
    case Some(b) => [b]
    case None => []
  }

  /** The results `f` produces, in the order of `s`, skipping the elements it rejects. */
  function Filter<A, B>(s: seq<A>, f: A -> Option<B>): (r: seq<B>)
    ensures |r| <= |s|
    decreases |s|
  {
    if s == [] then [] else Filter(s[..|s| - 1], f) + Keep(f(s[|s| - 1]))
  }

  /** The positions of `s` that `f` accepts, ascending. */
  ghost function Kept<A, B>(s: seq<A>, f: A -> Option<B>): seq<nat>
    decreases |s|
  {
    if s == [] then [] else Kept(s[..|s| - 1], f) + (if f(s[|s| - 1]).Some? then [|s| - 1] else [])
  }

  /** One kept position per result, each below |s|. */
  lemma {:induction false} KeptLength<A, B>(s: seq<A>, f: A -> Option<B>)
    ensures |Kept(s, f)| == |Filter(s, f)|
    ensures forall k :: 0 <= k < |Kept(s, f)| ==> Kept(s, f)[k] < |s|
    decreases |s|
  {
    if s != [] {
      KeptLength(s[..|s| - 1], f);
    }
  }

  /** The kept positions ascend strictly, and are exactly the accepted ones. */
  lemma {:induction false} KeptExactly<A, B>(s: seq<A>, f: A -> Option<B>)
    ensures forall k, l :: 0 <= k < l < |Kept(s, f)| ==> Kept(s, f)[k] < Kept(s, f)[l]
    ensures forall i :: 0 <= i < |s| ==> (f(s[i]).Some? <==> i in Kept(s, f))
    decreases |s|
  {
    if s != [] {
      var n := |s| - 1;
      var p := s[..n];
      KeptExactly(p, f);
      KeptLength(p, f);
      assert forall i :: 0 <= i < n ==> p[i] == s[i];
      assert n !in Kept(p, f);
    }
  }

  /** Each result is what `f` gives at its kept position. */
  lemma {:induction false} FilterAtKept<A, B>(s: seq<A>, f: A -> Option<B>)
    ensures |Kept(s, f)| == |Filter(s, f)|
    ensures forall k :: 0 <= k < |Kept(s, f)| ==> Kept(s, f)[k] < |s| && f(s[Kept(s, f)[k]]) == Some(Filter(s, f)[k])
    decreases |s|
  {
    KeptLength(s, f);
    if s != [] {
      var n := |s| - 1;
      var p := s[..n];
      FilterAtKept(p, f);
      assert forall i :: 0 <= i < n ==> p[i] == s[i];
      if f(s[n]).Some? {
        assert Kept(s, f) == Kept(p, f) + [n];
        assert Filter(s, f) == Filter(p, f) + [f(s[n]).value];
      }
    }
  }

  /** Filter keeps exactly the accepted positions, in order, each mapped by `f`. */
  lemma FilterSpec<A, B>(s: seq<A>, f: A -> Option<B>)
    ensures |Kept(s, f)| == |Filter(s, f)|
    ensures forall k :: 0 <= k < |Kept(s, f)| ==> Kept(s, f)[k] < |s| && f(s[Kept(s, f)[k]]) == Some(Filter(s, f)[k])
    ensures forall k, l :: 0 <= k < l < |Kept(s, f)| ==> Kept(s, f)[k] < Kept(s, f)[l]
    ensures forall i :: 0 <= i < |s| ==> (f(s[i]).Some? <==> i in Kept(s, f))
  {
    FilterAtKept(s, f);
    KeptExactly(s, f);
  }
}
