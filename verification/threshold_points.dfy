/** `ThresholdPoints`: a points layer derived from a source layer by thresholding, whose
    `add` and `remove_selected` are mirrored onto the source by matching `id` values. */
module ThresholdPoints {
  import opened Seqs
  import opened Points

  /** The derived layer, its `source_points` layer and its `_id_offset`. */
  datatype Pair = Pair(derived: Layer, source: Layer, idOffset: int)

  /** Row `k` of `d` names by its id a row of `s` with the same coordinates and probability. */
  ghost predicate Mirrored(d: Rows, k: nat, s: Rows)
    requires d.Aligned() && s.Aligned() && k < |d.ids|
  {
    && d.ids[k] in s.ids
    && var j := IndexOf(s.ids, d.ids[k]);
       s.coords[j] == d.coords[k] && s.probs[j] == d.probs[k]
  }

  /** The pairing the two overrides rely on: ids increase along both layers, every derived
      point is the source point with its id, and every source id above `_id_offset` is
      still shown in the derived layer. */
  ghost predicate Synced(p: Pair) {
    && p.derived.Valid()
    && p.source.Valid()
    && StrictlyIncreasing(p.derived.rows.ids)
    && StrictlyIncreasing(p.source.rows.ids)
    && (forall k: nat :: k < |p.derived.rows.ids| ==> Mirrored(p.derived.rows, k, p.source.rows))
    && (forall j :: 0 <= j < |p.source.rows.ids| ==>
          p.source.rows.ids[j] <= p.idOffset || p.source.rows.ids[j] in p.derived.rows.ids)
  }

  /** The id `add` gives a new point: one more than the larger of `_id_offset` and the
      id of the derived layer's last point. */
  function NextId(p: Pair): (r: int)
    requires |p.derived.rows.ids| > 0
    ensures r > p.idOffset && r > Last(p.derived.rows.ids)
    ensures r - 1 == p.idOffset || r - 1 == Last(p.derived.rows.ids)
  {
    Max(p.idOffset, Last(p.derived.rows.ids)) + 1
  }

  /** `rows` with one more point at `coord`, carrying `id` and probability 1.0. */
  function AppendRow(rows: Rows, coord: Coord, id: int): (r: Rows) {
    Rows(rows.coords + [coord], rows.ids + [id], rows.probs + [1.0])
  }

  /** `ThresholdPoints.add`: append the point to both layers with a new id and probability 1.0. */
  function Add(p: Pair, coord: Coord): (r: Pair)
    requires p.derived.Valid() && p.source.Valid()
    requires |p.derived.rows.coords| > 0
    ensures r.derived.Valid() && r.source.Valid()
    ensures r.idOffset == p.idOffset
    ensures r.derived.rows.coords == p.derived.rows.coords + [coord]
    ensures r.source.rows.coords == p.source.rows.coords + [coord]
    ensures var id := Last(r.derived.rows.ids);
      && id > p.idOffset
      && id > Last(p.derived.rows.ids)
      && id == Max(p.idOffset, Last(p.derived.rows.ids)) + 1
      && r.derived.rows.ids == p.derived.rows.ids + [id]
      && r.source.rows.ids == p.source.rows.ids + [id]
    ensures r.derived.rows.probs == p.derived.rows.probs + [1.0]
    ensures r.source.rows.probs == p.source.rows.probs + [1.0]
    ensures r.derived.selected == p.derived.selected && r.derived.hovered == p.derived.hovered
    ensures r.source.selected == p.source.selected && r.source.hovered == p.source.hovered
  {
    var id := NextId(p);
    Pair(p.derived.(rows := AppendRow(p.derived.rows, coord, id)),
         p.source.(rows := AppendRow(p.source.rows, coord, id)),
         p.idOffset)
  }

  /** In a synced pair the id `add` hands out is used by no point of either layer. */
  lemma AddIdFresh(p: Pair)
    requires Synced(p) && |p.derived.rows.ids| > 0
    ensures NextId(p) !in p.derived.rows.ids
    ensures NextId(p) !in p.source.rows.ids
  {
  }

  /** `add` keeps a synced pair synced. */
  lemma AddPreservesSynced(p: Pair, coord: Coord)
    requires Synced(p) && |p.derived.rows.ids| > 0
    ensures Synced(Add(p, coord))
  {
    var r := Add(p, coord);
    var id := NextId(p);
    var d, s := p.derived.rows, p.source.rows;
    var d', s' := r.derived.rows, r.source.rows;
    AddIdFresh(p);
    forall k | 0 <= k < |d.ids| ensures d.ids[k] < id {
      assert d.ids[k] in d.ids;
    }
    forall j | 0 <= j < |s.ids| ensures s.ids[j] < id {
      assert s.ids[j] in s.ids;
    }
    AppendIncreasing(d.ids, id);
    AppendIncreasing(s.ids, id);
    forall k: nat | k < |d'.ids| ensures Mirrored(d', k, s') {
      if k < |d.ids| {
        assert Mirrored(d, k, s);
        var j := IndexOf(s.ids, d.ids[k]);
        assert s'.ids[j] == d.ids[k];
        IndexOfIncreasing(s'.ids, j);
      } else {
        IndexOfIncreasing(s'.ids, |s.ids|);
      }
    }
    forall j | 0 <= j < |s'.ids| ensures s'.ids[j] <= r.idOffset || s'.ids[j] in d'.ids {
      if j < |s.ids| && s.ids[j] > p.idOffset {
        var k := IndexOf(d.ids, s.ids[j]);
        assert d'.ids[k] == s.ids[j];
      } else if j == |s.ids| {
        assert d'.ids[|d.ids|] == id;
      }
    }
  }

  /** The ids of the selected derived points. */
  function RemovedIds(p: Pair): (r: set<int>)
    requires p.derived.Valid()
  {
    set i | i in p.derived.selected :: p.derived.rows.ids[i]
  }

  /** Every selected derived point's id occurs in the source, as `list.index` demands. */
  predicate SourceHasSelectedIds(p: Pair)
    requires p.derived.Valid()
  {
    forall i :: i in p.derived.selected ==> p.derived.rows.ids[i] in p.source.rows.ids
  }

  /** The source positions selected by the override: where each removed id first occurs. */
  function SourceSelection(p: Pair): (r: set<nat>)
    requires p.derived.Valid() && p.source.Valid()
    requires SourceHasSelectedIds(p)
    ensures forall j :: j in r ==> j < |p.source.rows.ids| && p.source.rows.ids[j] in RemovedIds(p)
    ensures forall i :: i in p.derived.selected ==> IndexOf(p.source.rows.ids, p.derived.rows.ids[i]) in r
    ensures forall j :: j in r ==> IndexOf(p.source.rows.ids, p.source.rows.ids[j]) == j
  {
    set i | i in p.derived.selected :: IndexOf(p.source.rows.ids, p.derived.rows.ids[i])
  }

  /** What `remove_selected` leaves behind. `LookupFailed` is the state in which `list.index`
      raises `ValueError` for a removed id the source lacks: the derived layer has already
      lost its selected rows and its selection, and the source is untouched. */
  datatype Removal = Removed(pair: Pair) | LookupFailed(partial: Pair)

  /** `ThresholdPoints.remove_selected`: nothing happens without a selection; otherwise the
      selected rows leave the derived layer and the rows with their ids leave the source,
      unless one of those ids is missing from the source. */
  function RemoveSelected(p: Pair): (r: Removal)
    requires p.derived.Valid() && p.source.Valid()
    ensures r.LookupFailed? <==> p.derived.selected != {} && !SourceHasSelectedIds(p)
    ensures r.LookupFailed? ==> r.partial == Pair(RemoveSelectedPoints(p.derived), p.source, p.idOffset)
    ensures p.derived.selected == {} ==> r == Removed(p)
    ensures p.derived.selected != {} && SourceHasSelectedIds(p) ==>
      r == Removed(Pair(RemoveSelectedPoints(p.derived),
                        RemoveSelectedPoints(p.source.(selected := SourceSelection(p))),
                        p.idOffset))
  {
    if p.derived.selected == {} then Removed(p)
    else if !SourceHasSelectedIds(p) then
      LookupFailed(Pair(RemoveSelectedPoints(p.derived), p.source, p.idOffset))
    else
      Removed(Pair(RemoveSelectedPoints(p.derived),
                   RemoveSelectedPoints(p.source.(selected := SourceSelection(p))),
                   p.idOffset))
  }

  /** In a synced pair, a source row is selected for removal exactly when its id is removed. */
  lemma SourceSelectionExact(p: Pair, j: nat)
    requires Synced(p) && SourceHasSelectedIds(p) && j < |p.source.rows.ids|
    ensures j in SourceSelection(p) <==> p.source.rows.ids[j] in RemovedIds(p)
  {
  }

  /** In a synced pair, a derived row is selected exactly when its id is removed. */
  lemma DerivedSelectionExact(p: Pair, i: nat)
    requires Synced(p) && i < |p.derived.rows.ids|
    ensures i in p.derived.selected <==> p.derived.rows.ids[i] in RemovedIds(p)
  {
  }

  /** A synced pair meets `remove_selected`'s precondition. */
  lemma SyncedHasSelectedIds(p: Pair)
    requires Synced(p)
    ensures SourceHasSelectedIds(p)
  {
    forall i | i in p.derived.selected ensures p.derived.rows.ids[i] in p.source.rows.ids {
      assert Mirrored(p.derived.rows, i, p.source.rows);
    }
  }

  /** `remove_selected` on a synced pair removes exactly the selected ids from both layers. */
  lemma RemoveSelectedById(p: Pair)
    requires Synced(p)
    ensures SourceHasSelectedIds(p) && RemoveSelected(p).Removed?
    ensures var r := RemoveSelected(p).pair;
      && (forall x :: x in r.derived.rows.ids <==> x in p.derived.rows.ids && x !in RemovedIds(p))
      && (forall x :: x in r.source.rows.ids <==> x in p.source.rows.ids && x !in RemovedIds(p))
  {
    SyncedHasSelectedIds(p);
    if p.derived.selected != {} {
      var gone := RemovedIds(p);
      var r := RemoveSelected(p).pair;
      assert r.derived.rows.ids == Delete(p.derived.rows.ids, p.derived.selected);
      assert r.source.rows.ids == Delete(p.source.rows.ids, SourceSelection(p));
      forall i | 0 <= i < |p.derived.rows.ids|
        ensures i in p.derived.selected <==> p.derived.rows.ids[i] in gone
      {
        DerivedSelectionExact(p, i);
      }
      forall j | 0 <= j < |p.source.rows.ids|
        ensures j in SourceSelection(p) <==> p.source.rows.ids[j] in gone
      {
        SourceSelectionExact(p, j);
      }
      forall x ensures x in Delete(p.derived.rows.ids, p.derived.selected) <==> x in p.derived.rows.ids && x !in gone {
        DeleteById(p.derived.rows.ids, p.derived.selected, gone, x);
      }
      forall x ensures x in Delete(p.source.rows.ids, SourceSelection(p)) <==> x in p.source.rows.ids && x !in gone {
        DeleteById(p.source.rows.ids, SourceSelection(p), gone, x);
      }
    }
  }

  /** After `remove_selected`, each remaining derived point still names its source point. */
  lemma RemoveSelectedMirrors(p: Pair, k: nat)
    requires Synced(p) && SourceHasSelectedIds(p) && p.derived.selected != {}
    requires k < |DeleteRows(p.derived.rows, p.derived.selected).ids|
    ensures var sel, ssel := p.derived.selected, SourceSelection(p);
      var d', s' := DeleteRows(p.derived.rows, sel), DeleteRows(p.source.rows, ssel);
      d'.Aligned() && s'.Aligned() && Mirrored(d', k, s')
  {
    var d, s := p.derived.rows, p.source.rows;
    var sel, ssel := p.derived.selected, SourceSelection(p);
    var d', s' := DeleteRows(d, sel), DeleteRows(s, ssel);
    var i := Survivors(|d.ids|, sel)[k];
    var x := d.ids[i];
    assert d'.ids[k] == x && d'.coords[k] == d.coords[i] && d'.probs[k] == d.probs[i];
    DerivedSelectionExact(p, i);
    assert Mirrored(d, i, s);
    var j := IndexOf(s.ids, x);
    SourceSelectionExact(p, j);
    DeletePosition(s.ids, ssel, j);
    DeletePosition(s.coords, ssel, j);
    DeletePosition(s.probs, ssel, j);
    DeleteIncreasing(s.ids, ssel);
    IndexOfIncreasing(s'.ids, j - CountBelow(ssel, j));
  }

  /** After `remove_selected`, a source id above `_id_offset` is still in the derived layer. */
  lemma RemoveSelectedKeepsAdded(p: Pair, m: nat)
    requires Synced(p) && SourceHasSelectedIds(p)
    requires m < |RemoveSelected(p).pair.source.rows.ids|
    ensures var r := RemoveSelected(p).pair;
      r.source.rows.ids[m] <= p.idOffset || r.source.rows.ids[m] in r.derived.rows.ids
  {
    RemoveSelectedById(p);
    if p.derived.selected != {} {
      var j := Survivors(|p.source.rows.ids|, SourceSelection(p))[m];
      SourceSelectionExact(p, j);
    }
  }

  /** `remove_selected` keeps a synced pair synced. */
  lemma RemoveSelectedPreservesSynced(p: Pair)
    requires Synced(p)
    ensures SourceHasSelectedIds(p) && RemoveSelected(p).Removed?
    ensures Synced(RemoveSelected(p).pair)
  {
    SyncedHasSelectedIds(p);
    if p.derived.selected != {} {
      var sel, ssel := p.derived.selected, SourceSelection(p);
      var derived := RemoveSelectedPoints(p.derived);
      var source := RemoveSelectedPoints(p.source.(selected := ssel));
      var d', s' := derived.rows, source.rows;
      assert d' == DeleteRows(p.derived.rows, sel) && s' == DeleteRows(p.source.rows, ssel);
      DeleteIncreasing(p.derived.rows.ids, sel);
      DeleteIncreasing(p.source.rows.ids, ssel);
      forall k: nat | k < |d'.ids| ensures Mirrored(d', k, s') {
        RemoveSelectedMirrors(p, k);
      }
      forall m | 0 <= m < |s'.ids| ensures s'.ids[m] <= p.idOffset || s'.ids[m] in d'.ids {
        RemoveSelectedKeepsAdded(p, m);
      }
      assert Synced(Pair(derived, source, p.idOffset));
    }
  }
}
