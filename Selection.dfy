/** Order-preserving selection: which positions of a sequence a filtering loop
    keeps, listed in increasing order. */
module Selection {

  /** `idx` lists, in increasing order, exactly the positions of `src` whose
      element satisfies `keep`. */
  ghost predicate Picks<T>(src: seq<T>, keep: T -> bool, idx: seq<int>) {
    && (forall k :: 0 <= k < |idx| ==> 0 <= idx[k] < |src| && keep(src[idx[k]]))
    && (forall k, l :: 0 <= k < l < |idx| ==> idx[k] < idx[l])
    && (forall i :: 0 <= i < |src| && keep(src[i]) ==> i in idx)
  }

  /** Nothing is picked from nothing. */
  lemma PicksEmpty<T>(keep: T -> bool)
    ensures Picks([], keep, [])
  {
  }

  /** Appending one element extends the picked positions by its own position
      exactly when it is kept. */
  lemma PicksExtend<T>(src: seq<T>, keep: T -> bool, idx: seq<int>, x: T)
    requires Picks(src, keep, idx)
    ensures Picks(src + [x], keep, idx + (if keep(x) then [|src|] else []))
  {
    var s := src + [x];
    var idx' := idx + (if keep(x) then [|src|] else []);
    assert forall k :: 0 <= k < |idx| ==> s[idx[k]] == src[idx[k]];
    forall i | 0 <= i < |s| && keep(s[i]) ensures i in idx' {
      if i < |src| {
        assert s[i] == src[i];
        assert i in idx;
      }
    }
  }

  /** `out` lists the elements of `src` at the picked positions `idx`: it is
      `src` filtered by `keep`, in order. */
  ghost predicate Selects<T>(src: seq<T>, keep: T -> bool, idx: seq<int>, out: seq<T>) {
    && Picks(src, keep, idx)
    && |idx| == |out|
    && (forall k :: 0 <= k < |idx| ==> out[k] == src[idx[k]])
  }

  /** Nothing is selected from nothing. */
  lemma SelectsEmpty<T>(keep: T -> bool)
    ensures Selects([], keep, [], [])
  {
    PicksEmpty(keep);
  }

  /** Appending one element to the source appends it to the selection exactly
      when it is kept. */
  lemma SelectsExtend<T>(src: seq<T>, keep: T -> bool, idx: seq<int>, out: seq<T>, x: T)
    requires Selects(src, keep, idx, out)
    ensures Selects(src + [x], keep, idx + (if keep(x) then [|src|] else []), out + (if keep(x) then [x] else []))
  {
    PicksExtend(src, keep, idx, x);
    var s := src + [x];
    assert forall k :: 0 <= k < |idx| ==> s[idx[k]] == src[idx[k]];
  }
}
