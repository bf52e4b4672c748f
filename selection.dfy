/** The shape shared by the two list normalisers: walk the fetched records
    in order, skip some, turn each other one into exactly one output record,
    and append it. */
module Selection {
  import opened Wrappers

  /** Keep `f(x)` for every `x` of `xs` where it is `Some`, in order. */
  function FilterMap<A, B>(f: A -> Option<B>, xs: seq<A>): (r: seq<B>)
    ensures |r| <= |xs|
  {
    if xs == [] then []
    else
      var r := FilterMap(f, xs[..|xs| - 1]);
      match f(xs[|xs| - 1])
      case None => r
      case Some(y) => r + [y]
  }

  /** Extending the input by one record extends the output by at most that
      record's image: the step a loop over `xs` takes. */
  lemma FilterMapStep<A, B>(f: A -> Option<B>, xs: seq<A>, i: nat)
    requires i < |xs|
    ensures FilterMap(f, xs[..i + 1]) ==
      match f(xs[i]) case None => FilterMap(f, xs[..i]) case Some(y) => FilterMap(f, xs[..i]) + [y]
  {
    assert xs[..i + 1][..i] == xs[..i];
  }

  /** `idx` says where each output record came from: output `k` is the image
      of input `idx[k]`, the indices increase, and every input not named in
      `idx` was skipped. */
  ghost predicate Selects<A, B>(f: A -> Option<B>, xs: seq<A>, ys: seq<B>, idx: seq<nat>)
  {
    && |idx| == |ys|
    && (forall k :: 0 <= k < |idx| ==> idx[k] < |xs| && f(xs[idx[k]]) == Some(ys[k]))
    && (forall k, l :: 0 <= k < l < |idx| ==> idx[k] < idx[l])
    && (forall j :: 0 <= j < |xs| && j !in idx ==> f(xs[j]).None?)
  }

  /** FilterMap keeps input order, gives at most one output per input, and
      drops exactly the inputs whose image is `None`. */
  lemma {:induction false} FilterMapSelects<A, B>(f: A -> Option<B>, xs: seq<A>) returns (idx: seq<nat>)
    ensures Selects(f, xs, FilterMap(f, xs), idx)
  {
    if xs == [] {
      idx := [];
    } else {
      var n := |xs| - 1;
      var front := xs[..n];
      var idx' := FilterMapSelects(f, front);
      if f(xs[n]).None? {
        assert FilterMap(f, xs) == FilterMap(f, front);
        SelectsSkip(f, xs, FilterMap(f, front), idx');
        idx := idx';
      } else {
        assert FilterMap(f, xs) == FilterMap(f, front) + [f(xs[n]).value];
        SelectsAppend(f, xs, FilterMap(f, front), idx');
        idx := idx' + [n];
      }
    }
  }

  /** The last record is skipped: a selection of the others stands. */
  lemma SelectsSkip<A, B>(f: A -> Option<B>, xs: seq<A>, ys: seq<B>, idx: seq<nat>)
    requires |xs| > 0 && f(xs[|xs| - 1]).None?
    requires Selects(f, xs[..|xs| - 1], ys, idx)
    ensures Selects(f, xs, ys, idx)
  {
    var front := xs[..|xs| - 1];
    assert forall k :: 0 <= k < |idx| ==> xs[idx[k]] == front[idx[k]];
    forall j | 0 <= j < |xs| - 1 && j !in idx ensures f(xs[j]).None? {
      assert xs[j] == front[j];
    }
  }

  /** The last record is kept: its index, and its image, are appended to a
      selection of the others. */
  lemma SelectsAppend<A, B>(f: A -> Option<B>, xs: seq<A>, ys: seq<B>, idx: seq<nat>)
    requires |xs| > 0 && f(xs[|xs| - 1]).Some?
    requires Selects(f, xs[..|xs| - 1], ys, idx)
    ensures Selects(f, xs, ys + [f(xs[|xs| - 1]).value], idx + [|xs| - 1])
  {
    var n := |xs| - 1;
    var front := xs[..n];
    var idx' := idx + [n];
    var ys' := ys + [f(xs[n]).value];
    forall k | 0 <= k < |idx'| ensures idx'[k] < |xs| && f(xs[idx'[k]]) == Some(ys'[k]) {
      if k < |idx| {
        assert idx'[k] == idx[k] && xs[idx[k]] == front[idx[k]] && ys'[k] == ys[k];
      }
    }
    forall k, l | 0 <= k < l < |idx'| ensures idx'[k] < idx'[l] {
      assert idx'[k] == idx[k];
    }
    forall j | 0 <= j < |xs| && j !in idx' ensures f(xs[j]).None? {
      assert j != n && j !in idx && xs[j] == front[j];
    }
  }

  /** Every output record is the image of some input record. */
  lemma FilterMapFrom<A, B>(f: A -> Option<B>, xs: seq<A>, k: nat)
    requires k < |FilterMap(f, xs)|
    ensures exists j :: 0 <= j < |xs| && f(xs[j]) == Some(FilterMap(f, xs)[k])
  {
    var idx := FilterMapSelects(f, xs);
    assert f(xs[idx[k]]) == Some(FilterMap(f, xs)[k]);
  }
}
