/**
 * The filter-then-map shape shared by the plugin's `foreach` loops that
 * append the entries they keep to a result list.
 */
module Lists {

  /** The images under `f` of the elements of `xs` that satisfy `keep`, in
      the order of `xs`. Defined on the last element, the way a loop that
      appends builds it. */
  function FilterMap<T, U>(xs: seq<T>, keep: T -> bool, f: T -> U): (r: seq<U>)
    ensures |r| <= |xs|
  {
    if xs == [] then []
    else
      var last := xs[|xs| - 1];
      FilterMap(xs[..|xs| - 1], keep, f) + (if keep(last) then [f(last)] else [])
  }

  /** One more loop iteration: the result for a longer prefix. */
  lemma FilterMapStep<T, U>(xs: seq<T>, i: nat, keep: T -> bool, f: T -> U)
    requires i < |xs|
    ensures FilterMap(xs[..i + 1], keep, f)
      == FilterMap(xs[..i], keep, f) + (if keep(xs[i]) then [f(xs[i])] else [])
  {
    assert xs[..i + 1][..i] == xs[..i];
  }

  /** The positions of the elements of `xs` that satisfy `keep`, in
      increasing order. */
  function Kept<T>(xs: seq<T>, keep: T -> bool): (pos: seq<nat>)
    ensures forall k :: 0 <= k < |pos| ==> pos[k] < |xs| && keep(xs[pos[k]])
    ensures forall k, l :: 0 <= k < l < |pos| ==> pos[k] < pos[l]
    ensures forall i :: 0 <= i < |xs| && keep(xs[i]) ==> i in pos
  {
    if xs == [] then []
    else
      var n := |xs| - 1;
      var init := Kept(xs[..n], keep);
      assert forall k :: 0 <= k < |init| ==> init[k] < n && xs[..n][init[k]] == xs[init[k]];
      assert forall i :: 0 <= i < n && keep(xs[i]) ==> keep(xs[..n][i]);
      if keep(xs[n]) then init + [n] else init
  }

  /** The images of the kept positions are the result of `FilterMap`. */
  lemma {:induction false} KeptImages<T, U>(xs: seq<T>, keep: T -> bool, f: T -> U)
    ensures |Kept(xs, keep)| == |FilterMap(xs, keep, f)|
    ensures forall k :: 0 <= k < |Kept(xs, keep)| ==> FilterMap(xs, keep, f)[k] == f(xs[Kept(xs, keep)[k]])
  {
    if xs != [] {
      var n := |xs| - 1;
      var init := xs[..n];
      KeptImages(init, keep, f);
      var p := Kept(init, keep);
      var r0 := FilterMap(init, keep, f);
      assert FilterMap(xs, keep, f) == r0 + (if keep(xs[n]) then [f(xs[n])] else []);
      assert Kept(xs, keep) == p + (if keep(xs[n]) then [n] else []);
      forall k | 0 <= k < |p| ensures FilterMap(xs, keep, f)[k] == f(xs[Kept(xs, keep)[k]]) {
        assert FilterMap(xs, keep, f)[k] == r0[k] == f(init[p[k]]);
        assert init[p[k]] == xs[p[k]];
      }
    }
  }

  /** The result keeps exactly the elements that satisfy `keep`, each once,
      in their order in `xs`: there is a strictly increasing list of
      positions of `xs`, covering every kept element, whose images are the
      result. */
  lemma FilterMapPositions<T, U>(xs: seq<T>, keep: T -> bool, f: T -> U)
    returns (pos: seq<nat>)
    ensures |pos| == |FilterMap(xs, keep, f)|
    ensures forall k :: 0 <= k < |pos| ==>
      pos[k] < |xs| && keep(xs[pos[k]]) && FilterMap(xs, keep, f)[k] == f(xs[pos[k]])
    ensures forall k, l :: 0 <= k < l < |pos| ==> pos[k] < pos[l]
    ensures forall i :: 0 <= i < |xs| && keep(xs[i]) ==> i in pos
  {
    pos := Kept(xs, keep);
    KeptImages(xs, keep, f);
  }

  /** Membership in the result, in both directions. */
  lemma FilterMapMembership<T, U>(xs: seq<T>, keep: T -> bool, f: T -> U, y: U)
    ensures y in FilterMap(xs, keep, f) <==> exists i :: 0 <= i < |xs| && keep(xs[i]) && f(xs[i]) == y
  {
    var pos := FilterMapPositions(xs, keep, f);
    var r := FilterMap(xs, keep, f);
    if y in r {
      var k :| 0 <= k < |r| && r[k] == y;
      assert keep(xs[pos[k]]) && f(xs[pos[k]]) == y;
    }
    if exists i :: 0 <= i < |xs| && keep(xs[i]) && f(xs[i]) == y {
      var i :| 0 <= i < |xs| && keep(xs[i]) && f(xs[i]) == y;
      assert i in pos;
      var k :| 0 <= k < |pos| && pos[k] == i;
      assert r[k] == y;
    }
  }

  /** When every element is kept, the result is the image of the whole
      sequence. */
  lemma {:induction false} FilterMapKeepsAll<T, U>(xs: seq<T>, keep: T -> bool, f: T -> U)
    requires forall i :: 0 <= i < |xs| ==> keep(xs[i])
    ensures |FilterMap(xs, keep, f)| == |xs|
    ensures forall i :: 0 <= i < |xs| ==> FilterMap(xs, keep, f)[i] == f(xs[i])
  {
    if xs != [] {
      var init := xs[..|xs| - 1];
      assert forall i :: 0 <= i < |init| ==> init[i] == xs[i];
      FilterMapKeepsAll(init, keep, f);
    }
  }
}
