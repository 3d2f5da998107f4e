/** A napari points layer as the plugin sees it: parallel rows of coordinates, `id` and
    `probability` properties, the selection, and the hovered point. Deleting the selected
    rows is the part of `remove_selected` shared by every points layer. */
module Points {
  import opened Wrappers
  import opened Seqs

  /** One point's position, one number per axis. */
  type Coord = seq<real>

  /** The layer's data rows and the two properties the plugin reads, index-aligned. */
  datatype Rows = Rows(coords: seq<Coord>, ids: seq<int>, probs: seq<real>) {
    predicate Aligned() {
      |ids| == |coords| && |probs| == |coords|
    }
  }

  /** A points layer: rows, `selected_data`, and the hovered index (napari's `_value`). */
  datatype Layer = Layer(rows: Rows, selected: set<nat>, hovered: Option<nat>) {
    predicate Valid() {
      && rows.Aligned()
      && (forall i :: i in selected ==> i < |rows.coords|)
      && (hovered.Some? ==> hovered.value < |rows.coords|)
    }
  }

  /** How many members of `sel` lie below `n`. */
  function CountBelow(sel: set<nat>, n: nat): (r: nat)
    ensures r <= n
    ensures r == 0 <==> forall i :: 0 <= i < n ==> i !in sel
  {
    if n == 0 then 0 else CountBelow(sel, n - 1) + (if n - 1 in sel then 1 else 0)
  }

  /** Two selections that agree below `n` count the same below `n`. */
  lemma {:induction false} CountBelowAgree(a: set<nat>, b: set<nat>, n: nat)
    requires forall i :: 0 <= i < n ==> (i in a <==> i in b)
    ensures CountBelow(a, n) == CountBelow(b, n)
  {
    if n > 0 {
      CountBelowAgree(a, b, n - 1);
    }
  }

  /** When every selected index is below `n`, the count below `n` is the selection's size:
      the rows removed are exactly as many as the points selected. */
  lemma {:induction false} CountBelowIsSize(sel: set<nat>, n: nat)
    requires forall i :: i in sel ==> i < n
    ensures CountBelow(sel, n) == |sel|
  {
    if n > 0 {
      var rest := sel - {n - 1};
      CountBelowAgree(sel, rest, n - 1);
      CountBelowIsSize(rest, n - 1);
      if n - 1 in sel {
        assert sel == rest + {n - 1};
      } else {
        assert sel == rest;
      }
    }
  }

  /** The indices below `n` that are not selected, in increasing order; an unselected index
      `i` sits at position `i - CountBelow(sel, i)`. */
  function Survivors(n: nat, sel: set<nat>): (r: seq<nat>)
    ensures |r| == n - CountBelow(sel, n)
    ensures StrictlyIncreasing(r)
    ensures forall k :: 0 <= k < |r| ==> r[k] < n && r[k] !in sel
  {
    if n == 0 then []
    else
      var r := Survivors(n - 1, sel);
      if n - 1 in sel then r else r + [n - 1]
  }

  lemma {:induction false} SurvivorPosition(n: nat, sel: set<nat>, i: nat)
    requires i < n && i !in sel
    ensures i - CountBelow(sel, i) < |Survivors(n, sel)|
    ensures Survivors(n, sel)[i - CountBelow(sel, i)] == i
  {
    var r := Survivors(n - 1, sel);
    if i < n - 1 {
      SurvivorPosition(n - 1, sel, i);
      assert Survivors(n, sel)[..|r|] == r;
    }
  }

  /** numpy's `delete(s, sel, axis=0)`: the rows whose positions are not selected. */
  function Delete<T>(s: seq<T>, sel: set<nat>): (r: seq<T>)
    ensures |r| == |s| - CountBelow(sel, |s|)
    ensures forall k :: 0 <= k < |r| ==> r[k] == s[Survivors(|s|, sel)[k]]
  {
    var keep := Survivors(|s|, sel);
    seq(|keep|, k requires 0 <= k < |keep| => s[keep[k]])
  }

  /** An unselected row moves down by the number of selected rows before it. */
  lemma DeletePosition<T>(s: seq<T>, sel: set<nat>, i: nat)
    requires i < |s| && i !in sel
    ensures i - CountBelow(sel, i) < |Delete(s, sel)|
    ensures Delete(s, sel)[i - CountBelow(sel, i)] == s[i]
  {
    SurvivorPosition(|s|, sel, i);
  }

  /** A value survives the deletion exactly when some unselected row holds it. */
  lemma DeleteMembership<T>(s: seq<T>, sel: set<nat>, x: T)
    ensures x in Delete(s, sel) <==> exists i :: 0 <= i < |s| && i !in sel && s[i] == x
  {
    var r := Delete(s, sel);
    if x in r {
      var k :| 0 <= k < |r| && r[k] == x;
      var i := Survivors(|s|, sel)[k];
      assert 0 <= i < |s| && i !in sel && s[i] == x;
    }
    if exists i :: 0 <= i < |s| && i !in sel && s[i] == x {
      var i :| 0 <= i < |s| && i !in sel && s[i] == x;
      DeletePosition(s, sel, i);
    }
  }

  /** When the selected rows of an increasing id column are exactly those whose ids are in
      `gone`, deleting them leaves exactly the ids outside `gone`. */
  lemma DeleteById(ids: seq<int>, sel: set<nat>, gone: set<int>, x: int)
    requires StrictlyIncreasing(ids)
    requires forall i :: 0 <= i < |ids| ==> (i in sel <==> ids[i] in gone)
    ensures x in Delete(ids, sel) <==> x in ids && x !in gone
  {
    DeleteMembership(ids, sel, x);
    if x in ids && x !in gone {
      var i := IndexOf(ids, x);
      assert 0 <= i < |ids| && i !in sel && ids[i] == x;
    }
  }

  /** Deleting rows keeps an increasing sequence increasing. */
  lemma DeleteIncreasing(s: seq<int>, sel: set<nat>)
    requires StrictlyIncreasing(s)
    ensures StrictlyIncreasing(Delete(s, sel))
  {
  }

  /** Every property of a layer loses the same rows, so the columns stay aligned and keep
      one row per survivor. */
  function DeleteRows(rows: Rows, sel: set<nat>): (r: Rows)
    ensures rows.Aligned() ==> r.Aligned() && |r.coords| == |Survivors(|rows.coords|, sel)|
  {
    Rows(Delete(rows.coords, sel), Delete(rows.ids, sel), Delete(rows.probs, sel))
  }

  /** The hovered index after deleting `sel`: gone if it was deleted, else shifted down by
      the number of deleted indices below it. */
  function HoverAfterDelete(hovered: Option<nat>, sel: set<nat>): (r: Option<nat>)
    ensures r.Some? <==> hovered.Some? && hovered.value !in sel
    ensures r.Some? ==> r.value <= hovered.value
    ensures r.Some? ==> (r.value == hovered.value <==> forall i :: 0 <= i < hovered.value ==> i !in sel)
  {
    match hovered
    case None => None
    case Some(h) => if h in sel then None else Some(h - CountBelow(sel, h))
  }

  /** A hovered point that is not deleted is still the hovered point afterwards. */
  lemma HoverFollowsPoint(l: Layer)
    requires l.Valid()
    ensures var h' := HoverAfterDelete(l.hovered, l.selected);
      h'.Some? ==>
        var h := l.hovered.value;
        var rows := DeleteRows(l.rows, l.selected);
        && h' == Some(h - CountBelow(l.selected, h))
        && h'.value < |rows.coords|
        && rows.coords[h'.value] == l.rows.coords[h]
        && rows.ids[h'.value] == l.rows.ids[h]
        && rows.probs[h'.value] == l.rows.probs[h]
  {
    if l.hovered.Some? && l.hovered.value !in l.selected {
      var h := l.hovered.value;
      DeletePosition(l.rows.coords, l.selected, h);
      DeletePosition(l.rows.ids, l.selected, h);
      DeletePosition(l.rows.probs, l.selected, h);
    }
  }

  /** napari's `Points.remove_selected`: with a non-empty selection, delete those rows from
      every property, clear the selection and keep the hovered point pointing at the same point. */
  function RemoveSelectedPoints(l: Layer): (r: Layer)
    requires l.Valid()
    ensures r.Valid()
    ensures l.selected == {} ==> r == l
    ensures l.selected != {} ==> r.selected == {} && r.rows == DeleteRows(l.rows, l.selected)
    ensures |r.rows.coords| == |l.rows.coords| - |l.selected|
    ensures r.hovered.Some? <==> l.hovered.Some? && l.hovered.value !in l.selected
    ensures r.hovered.Some? && l.selected != {} ==>
      r.hovered.value == l.hovered.value - CountBelow(l.selected, l.hovered.value)
    ensures r.hovered.Some? ==>
      var h := l.hovered.value;
      var h' := r.hovered.value;
      && r.rows.coords[h'] == l.rows.coords[h]
      && r.rows.ids[h'] == l.rows.ids[h]
      && r.rows.probs[h'] == l.rows.probs[h]
  {
    var n := |l.rows.coords|;
    CountBelowIsSize(l.selected, n);
    if l.selected == {} then l
    else
      HoverFollowsPoint(l);
      Layer(DeleteRows(l.rows, l.selected), {}, HoverAfterDelete(l.hovered, l.selected))
  }
}
