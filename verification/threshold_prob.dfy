/** `threshold_prob`: keep the points whose probability exceeds a threshold, either into
    the existing `threshold_prob` layer or into a new `ThresholdPoints` layer paired with
    the source. */
module ThresholdProb {
  import opened Wrappers
  import opened Seqs
  import opened Points
  import opened ThresholdPoints

  /** The points layer the widget is given: coordinates, its `probability` property if it
      has one, its selection and its hovered point. */
  datatype PointsInput = PointsInput(coords: seq<Coord>, probability: Option<seq<real>>,
                                     selected: set<nat>, hovered: Option<nat>)
  {
    predicate Valid() {
      && (probability.Some? ==> |probability.value| == |coords|)
      && (forall i :: i in selected ==> i < |coords|)
      && (hovered.Some? ==> hovered.value < |coords|)
    }
  }

  /** What one call of the widget does. */
  datatype Outcome =
    | NoProbability       // the layer has no `probability` property: nothing happens
    | Updated(rows: Rows) // a `threshold_prob` layer exists and is given these rows
    | Created(pair: Pair) // a new `ThresholdPoints` layer, paired with the input layer
    | Failed              // `ids[-1]` on a layer without points raises IndexError

  /** The positions whose probability is strictly above the threshold, in order. */
  function KeptIndices(probs: seq<real>, threshold: real): (r: seq<nat>)
    ensures StrictlyIncreasing(r)
    ensures forall k :: 0 <= k < |r| ==> r[k] < |probs| && probs[r[k]] > threshold
    ensures forall i :: 0 <= i < |probs| && probs[i] > threshold ==> i in r
  {
    if |probs| == 0 then []
    else
      var r := KeptIndices(probs[..|probs| - 1], threshold);
      if probs[|probs| - 1] > threshold then r + [|probs| - 1] else r
  }

  /** `r` holds exactly the rows of `coords` and `probs` whose probability is above the
      threshold, in their original order, each with its original position as its id. */
  ghost predicate KeptAbove(r: Rows, coords: seq<Coord>, probs: seq<real>, threshold: real)
    requires |probs| == |coords|
  {
    && r.Aligned()
    && StrictlyIncreasing(r.ids)
    && (forall k :: 0 <= k < |r.ids| ==>
          && 0 <= r.ids[k] < |coords|
          && r.coords[k] == coords[r.ids[k]]
          && r.probs[k] == probs[r.ids[k]]
          && r.probs[k] > threshold)
    && (forall i :: 0 <= i < |coords| && probs[i] > threshold ==> i in r.ids)
  }

  /** The rows selected by the mask `prob > threshold`, each with its position as its id. */
  function Filtered(coords: seq<Coord>, probs: seq<real>, threshold: real): (r: Rows)
    requires |probs| == |coords|
    ensures KeptAbove(r, coords, probs, threshold)
  {
    var keep := KeptIndices(probs, threshold);
    var r := Rows(seq(|keep|, k requires 0 <= k < |keep| => coords[keep[k]]),
                  seq(|keep|, k requires 0 <= k < |keep| => keep[k] as int),
                  seq(|keep|, k requires 0 <= k < |keep| => probs[keep[k]]));
    assert forall i :: 0 <= i < |coords| && probs[i] > threshold ==> i in r.ids by {
      forall i | 0 <= i < |coords| && probs[i] > threshold ensures i in r.ids {
        var k :| 0 <= k < |keep| && keep[k] == i;
        assert r.ids[k] == i;
      }
    }
    r
  }

  /** The widget on a points layer. `layerExists` says whether the viewer already holds a
      layer named `threshold_prob`. */
  function Threshold(input: PointsInput, threshold: real, layerExists: bool): (r: Outcome)
    requires input.Valid()
    ensures input.probability.None? ==> r == NoProbability
    ensures input.probability.Some? && layerExists ==>
      r == Updated(Filtered(input.coords, input.probability.value, threshold))
    ensures input.probability.Some? && !layerExists && |input.coords| == 0 ==> r == Failed
    ensures input.probability.Some? && !layerExists && |input.coords| > 0 ==>
      var n := |input.coords|;
      var probs := input.probability.value;
      r == Created(Pair(Layer(Filtered(input.coords, probs, threshold), {}, None),
                        Layer(Rows(input.coords, Range(n), probs), input.selected, input.hovered),
                        n - 1))
  {
    match input.probability
    case None => NoProbability
    case Some(probs) =>
      var kept := Filtered(input.coords, probs, threshold);
      if layerExists then Updated(kept)
      else if |probs| == 0 then Failed
      else
        var n := |probs|;
        Created(Pair(Layer(kept, {}, None),
                     Layer(Rows(input.coords, Range(n), probs), input.selected, input.hovered),
                     n - 1))
  }

  /** A newly created pair starts synced, so `add` and `remove_selected` keep it synced. */
  lemma CreatedIsSynced(input: PointsInput, threshold: real)
    requires input.Valid()
    requires Threshold(input, threshold, false).Created?
    ensures Synced(Threshold(input, threshold, false).pair)
  {
    var p := Threshold(input, threshold, false).pair;
    var d, s := p.derived.rows, p.source.rows;
    assert KeptAbove(d, input.coords, input.probability.value, threshold);
    forall k: nat | k < |d.ids| ensures Mirrored(d, k, s) {
      var x := d.ids[k];
      assert s.ids[x] == x;
      IndexOfIncreasing(s.ids, x);
    }
  }

  /** When every probability is above the threshold, every position is kept. */
  lemma {:induction false} KeptAll(probs: seq<real>, threshold: real)
    requires forall i :: 0 <= i < |probs| ==> probs[i] > threshold
    ensures KeptIndices(probs, threshold) == seq(|probs|, i => i)
  {
    if |probs| > 0 {
      var n := |probs|;
      KeptAll(probs[..n - 1], threshold);
      assert seq(n - 1, i => i) + [n - 1] == seq(n, i => i);
    }
  }

  /** When every point passes the threshold, the filtered rows are the input rows numbered
      by position, whatever ids the input layer carried. */
  lemma FilteredAll(coords: seq<Coord>, probs: seq<real>, threshold: real)
    requires |probs| == |coords|
    requires forall i :: 0 <= i < |probs| ==> probs[i] > threshold
    ensures Filtered(coords, probs, threshold) == Rows(coords, Range(|coords|), probs)
  {
    KeptAll(probs, threshold);
    var r := Filtered(coords, probs, threshold);
    assert r.ids == Range(|coords|);
    assert r.coords == coords;
    assert r.probs == probs;
  }

  /** A refresh numbers the kept points by position in the input layer, not by the ids the
      source already carries. A source that lost id 1 in an earlier removal, refreshed and
      then asked to remove the point now numbered 1, reaches the `ValueError` state. */
  lemma RefreshMissesSourceIds()
    ensures var source := Layer(Rows([[0.0], [2.0]], [0, 2], [0.9, 0.9]), {}, None);
      var input := PointsInput(source.rows.coords, Some(source.rows.probs), {}, None);
      var t := Threshold(input, 0.5, true);
      && t.Updated?
      && t.rows.ids == [0, 1]
      && RemoveSelected(Pair(Layer(t.rows, {1}, None), source, 2)).LookupFailed?
  {
    var source := Layer(Rows([[0.0], [2.0]], [0, 2], [0.9, 0.9]), {}, None);
    FilteredAll(source.rows.coords, source.rows.probs, 0.5);
    assert Range(2) == [0, 1];
    var kept := Filtered(source.rows.coords, source.rows.probs, 0.5);
    var p := Pair(Layer(kept, {1}, None), source, 2);
    assert p.derived.Valid() && p.source.Valid();
    assert 1 in p.derived.selected && p.derived.rows.ids[1] == 1 && 1 !in p.source.rows.ids;
    assert !SourceHasSelectedIds(p);
  }

  /** A refreshed id can name a different source point than the one it is shown with. A
      source that lost id 0 in an earlier removal holds ids 1 and 2. After a refresh the point
      at [2.0] is shown with id 1, so removing it selects the source row at [1.0], and the
      point at [2.0] stays in the source. */
  lemma RefreshRemovesOtherPoint()
    ensures var source := Layer(Rows([[1.0], [2.0]], [1, 2], [0.9, 0.9]), {}, None);
      var input := PointsInput(source.rows.coords, Some(source.rows.probs), {}, None);
      var t := Threshold(input, 0.5, true);
      && t.Updated?
      && t.rows.coords[1] == [2.0] && t.rows.ids[1] == 1
      && var p := Pair(Layer(t.rows, {1}, None), source, 2);
         && RemoveSelected(p).Removed?
         && 0 in SourceSelection(p) && 1 !in SourceSelection(p)
         && source.rows.coords[0] != t.rows.coords[1]
  {
    var source := Layer(Rows([[1.0], [2.0]], [1, 2], [0.9, 0.9]), {}, None);
    FilteredAll(source.rows.coords, source.rows.probs, 0.5);
    assert Range(2) == [0, 1];
    var kept := Filtered(source.rows.coords, source.rows.probs, 0.5);
    var p := Pair(Layer(kept, {1}, None), source, 2);
    assert p.derived.Valid() && p.source.Valid();
    assert p.derived.rows.ids[1] == 1 && IndexOf(p.source.rows.ids, 1) == 0;
    assert SourceHasSelectedIds(p);
    assert p.source.rows.ids[1] !in RemovedIds(p);
  }
}
