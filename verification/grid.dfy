/** `widget_grid`: a shapes layer of grid lines over an image, with text anchors for
    column letters and row numbers. Coordinates are exact reals. */
module Grid {
  import opened Wrappers
  import ConvertRgb

  /** A vertex in napari's (y, x) order. */
  datatype Point = Point(y: real, x: real)

  /** A line shape from `start` to `end`. */
  datatype Segment = Segment(start: Point, end: Point)

  /** An entry of the `number` feature: '' for a grid line, a letter, or an integer. */
  datatype Label = Blank | Letter(letter: char) | Number(number: nat)

  /** The layer data tuple the widget returns: line shapes, their labels, the layer name. */
  datatype GridShapes = GridShapes(segments: seq<Segment>, labels: seq<Label>, name: string)

  const XLabels: string := "ABCDEFGHIJ"

  /** (width, height) of the image plane: the two axes before a trailing size-3 channel
      axis, or the last two axes. None where Python's negative indexing raises. */
  function Dimensions(shape: seq<nat>): (r: Option<(nat, nat)>)
    ensures r.Some? <==> |shape| >= 3 || (|shape| == 2 && shape[1] != 3)
    ensures r.Some? && shape[|shape| - 1] == 3 ==> r.value == (shape[|shape| - 2], shape[|shape| - 3])
    ensures r.Some? && shape[|shape| - 1] != 3 ==> r.value == (shape[|shape| - 1], shape[|shape| - 2])
  {
    var n := |shape|;
    if n == 0 then None
    else if shape[n - 1] == 3 then (if n < 3 then None else Some((shape[n - 2], shape[n - 3])))
    else if n < 2 then None
    else Some((shape[n - 1], shape[n - 2]))
  }

  /** The grid of a converted RGB image has the dimensions of the image before conversion. */
  lemma DimensionsAfterConvert(shape: seq<nat>, name: string)
    requires ConvertRgb.Convert(shape, name).Some?
    ensures Dimensions(ConvertRgb.Convert(shape, name).value.shape) == Dimensions(shape)
  {
  }

  /** numpy's `linspace(start, stop, num, endpoint=True)` on exact reals. */
  function Linspace(start: real, stop: real, num: nat): (r: seq<real>)
    ensures |r| == num
    ensures num >= 1 ==> r[0] == start
    ensures num >= 2 ==> r[num - 1] == stop
    ensures num >= 2 ==> forall i :: 0 <= i < num - 1 ==> r[i + 1] - r[i] == (stop - start) / (num - 1) as real
  {
    if num <= 1 then seq(num, _ => start)
    else
      var step := (stop - start) / (num - 1) as real;
      seq(num, i => start + i as real * step)
  }

  /** Arithmetic step of `LinspaceOrdered`: scaling ordered non-negative reals by a
      non-negative step keeps them ordered and between 0 and `c * step`. */
  lemma ScaledInOrder(ri: real, rj: real, a: real, b: real, c: real, step: real)
    requires 0.0 <= a <= b <= c && step >= 0.0
    requires ri == a * step && rj == b * step
    ensures 0.0 <= ri <= rj <= c * step
  {
  }

  /** Evenly spaced points from 0 to a non-negative extent stay inside [0, extent], in order. */
  lemma LinspaceOrdered(stop: real, num: nat)
    requires stop >= 0.0
    ensures var r := Linspace(0.0, stop, num);
      forall i, j :: 0 <= i <= j < num ==> 0.0 <= r[i] <= r[j] <= stop
  {
    var r := Linspace(0.0, stop, num);
    if num >= 2 {
      var step := stop / (num - 1) as real;
      assert (num - 1) as real * step == stop;
      forall i, j | 0 <= i <= j < num ensures 0.0 <= r[i] <= r[j] <= stop {
        ScaledInOrder(r[i], r[j], i as real, j as real, (num - 1) as real, step);
      }
    }
  }

  /** The consecutive pairs of `s`, like the widget's `pairwise` helper. */
  function Pairwise(s: seq<real>): (r: seq<(real, real)>)
    ensures |r| == if |s| == 0 then 0 else |s| - 1
    ensures forall i :: 0 <= i < |r| ==> r[i] == (s[i], s[i + 1])
  {
    if |s| < 2 then [] else [(s[0], s[1])] + Pairwise(s[1..])
  }

  /** One full-height vertical line per x edge, then one full-width horizontal line per y edge. */
  function GridLines(xs: seq<real>, ys: seq<real>, width: real, height: real): (r: seq<Segment>)
    ensures |r| == |xs| + |ys|
    ensures forall i :: 0 <= i < |xs| ==> r[i] == Segment(Point(0.0, xs[i]), Point(height, xs[i]))
    ensures forall j :: 0 <= j < |ys| ==> r[|xs| + j] == Segment(Point(ys[j], 0.0), Point(ys[j], width))
  {
    seq(|xs|, i requires 0 <= i < |xs| => Segment(Point(0.0, xs[i]), Point(height, xs[i])))
    + seq(|ys|, j requires 0 <= j < |ys| => Segment(Point(ys[j], 0.0), Point(ys[j], width)))
  }

  /** Invisible anchors for the text: one per x bin just above the image, one per y bin
      just left of it, 5% of the image's extent away. */
  function LabelAnchors(xs: seq<real>, ys: seq<real>, width: real, height: real): (r: seq<Segment>)
    requires |xs| >= 1 && |ys| >= 1
    ensures |r| == |xs| + |ys| - 2
    ensures forall i :: 0 <= i < |xs| - 1 ==>
      r[i] == Segment(Point(-height / 20.0, xs[i]), Point(-height / 20.0, xs[i + 1]))
    ensures forall j :: 0 <= j < |ys| - 1 ==>
      r[|xs| - 1 + j] == Segment(Point(ys[j], -width / 20.0), Point(ys[j + 1], -width / 20.0))
  {
    var yoffset := -height * 0.05;
    var xoffset := -width * 0.05;
    var px := Pairwise(xs);
    var py := Pairwise(ys);
    seq(|px|, i requires 0 <= i < |px| => Segment(Point(yoffset, px[i].0), Point(yoffset, px[i].1)))
    + seq(|py|, j requires 0 <= j < |py| => Segment(Point(py[j].0, xoffset), Point(py[j].1, xoffset)))
  }

  /** Which label each segment carries: blanks for the grid lines, letters for the
      columns, numbers for the rows. */
  ghost predicate LabelLayout(labels: seq<Label>, xbins: nat, ybins: nat)
    requires xbins <= |XLabels|
  {
    && |labels| == 2 * (xbins + ybins) + 2
    && (forall k :: 0 <= k < xbins + ybins + 2 ==> labels[k] == Blank)
    && (forall i :: 0 <= i < xbins ==> labels[xbins + ybins + 2 + i] == Letter(XLabels[i]))
    && (forall j :: 0 <= j < ybins ==> labels[2 * xbins + ybins + 2 + j] == Number(j))
  }

  /** The `number` feature. */
  function GridLabels(xbins: nat, ybins: nat): (r: seq<Label>)
    requires xbins <= |XLabels|
    ensures LabelLayout(r, xbins, ybins)
  {
    seq(xbins + ybins + 2, _ => Blank)
    + seq(xbins, i requires 0 <= i < xbins => Letter(XLabels[i]))
    + seq(ybins, j requires 0 <= j < ybins => Number(j))
  }

  /** Where every segment lies, given the x edges `xs` and y edges `ys`: vertical lines,
      horizontal lines, column anchors, row anchors. */
  ghost predicate SegmentLayout(segs: seq<Segment>, xs: seq<real>, ys: seq<real>, width: real, height: real)
    requires |xs| >= 1 && |ys| >= 1
  {
    var xbins, ybins := |xs| - 1, |ys| - 1;
    && |segs| == 2 * (xbins + ybins) + 2
    && (forall i :: 0 <= i <= xbins ==>
          segs[i] == Segment(Point(0.0, xs[i]), Point(height, xs[i])))
    && (forall j :: 0 <= j <= ybins ==>
          segs[xbins + 1 + j] == Segment(Point(ys[j], 0.0), Point(ys[j], width)))
    && (forall i :: 0 <= i < xbins ==>
          segs[xbins + ybins + 2 + i] == Segment(Point(-height / 20.0, xs[i]), Point(-height / 20.0, xs[i + 1])))
    && (forall j :: 0 <= j < ybins ==>
          segs[2 * xbins + ybins + 2 + j] == Segment(Point(ys[j], -width / 20.0), Point(ys[j + 1], -width / 20.0)))
  }

  /** The whole grid over a width-by-height plane with the given bins: segments at their
      places, equally many labels, each segment with its label. */
  ghost predicate Layout(segs: seq<Segment>, labels: seq<Label>, xbins: nat, ybins: nat, width: real, height: real)
    requires xbins <= |XLabels|
  {
    && SegmentLayout(segs, Linspace(0.0, width, xbins + 1), Linspace(0.0, height, ybins + 1), width, height)
    && LabelLayout(labels, xbins, ybins)
  }

  /** The grid lines followed by the anchors put every segment in its place. */
  lemma {:induction false} SegmentsInPlace(xs: seq<real>, ys: seq<real>, width: real, height: real)
    requires |xs| >= 1 && |ys| >= 1
    ensures SegmentLayout(GridLines(xs, ys, width, height) + LabelAnchors(xs, ys, width, height),
                          xs, ys, width, height)
  {
    var xbins, ybins := |xs| - 1, |ys| - 1;
    var lines := GridLines(xs, ys, width, height);
    var anchors := LabelAnchors(xs, ys, width, height);
    var segs := lines + anchors;
    forall i | 0 <= i <= xbins
      ensures segs[i] == Segment(Point(0.0, xs[i]), Point(height, xs[i]))
    {
      assert segs[i] == lines[i];
    }
    forall j | 0 <= j <= ybins
      ensures segs[xbins + 1 + j] == Segment(Point(ys[j], 0.0), Point(ys[j], width))
    {
      assert segs[xbins + 1 + j] == lines[xbins + 1 + j];
    }
    forall i | 0 <= i < xbins
      ensures segs[xbins + ybins + 2 + i] == Segment(Point(-height / 20.0, xs[i]), Point(-height / 20.0, xs[i + 1]))
    {
      assert segs[xbins + ybins + 2 + i] == anchors[i];
    }
    forall j | 0 <= j < ybins
      ensures segs[2 * xbins + ybins + 2 + j] == Segment(Point(ys[j], -width / 20.0), Point(ys[j + 1], -width / 20.0))
    {
      assert segs[2 * xbins + ybins + 2 + j] == anchors[xbins + j];
    }
  }

  lemma GridLayout(xbins: nat, ybins: nat, width: real, height: real)
    requires xbins <= |XLabels|
    ensures var xs := Linspace(0.0, width, xbins + 1);
      var ys := Linspace(0.0, height, ybins + 1);
      Layout(GridLines(xs, ys, width, height) + LabelAnchors(xs, ys, width, height),
             GridLabels(xbins, ybins), xbins, ybins, width, height)
  {
    SegmentsInPlace(Linspace(0.0, width, xbins + 1), Linspace(0.0, height, ybins + 1), width, height);
  }

  /** The widget on an image of the given shape and name. None where the Python code
      raises: a shape too short to index, or more x bins than there are letters. */
  function MakeGrid(shape: seq<nat>, name: string, xbins: nat, ybins: nat): (r: Option<GridShapes>)
    ensures r.Some? <==> Dimensions(shape).Some? && xbins <= |XLabels|
    ensures r.Some? ==> r.value.name == "grid(" + name + ")"
    ensures r.Some? ==> Layout(r.value.segments, r.value.labels, xbins, ybins,
                               Dimensions(shape).value.0 as real, Dimensions(shape).value.1 as real)
  {
    match Dimensions(shape)
    case None => None
    case Some(dims) =>
      if xbins > |XLabels| then None
      else
        var width := dims.0 as real;
        var height := dims.1 as real;
        var xs := Linspace(0.0, width, xbins + 1);
        var ys := Linspace(0.0, height, ybins + 1);
        GridLayout(xbins, ybins, width, height);
        Some(GridShapes(GridLines(xs, ys, width, height) + LabelAnchors(xs, ys, width, height),
                        GridLabels(xbins, ybins),
                        "grid(" + name + ")"))
  }

  /** A segment carries a visible label exactly when it is a text anchor rather than a grid line. */
  lemma LabelsMarkAnchors(shape: seq<nat>, name: string, xbins: nat, ybins: nat, k: nat)
    requires MakeGrid(shape, name, xbins, ybins).Some?
    requires k < |MakeGrid(shape, name, xbins, ybins).value.segments|
    ensures MakeGrid(shape, name, xbins, ybins).value.labels[k] != Blank <==> k >= xbins + ybins + 2
  {
    var g := MakeGrid(shape, name, xbins, ybins).value;
    if k >= 2 * xbins + ybins + 2 {
      assert g.labels[2 * xbins + ybins + 2 + (k - 2 * xbins - ybins - 2)] == Number(k - 2 * xbins - ybins - 2);
    } else if k >= xbins + ybins + 2 {
      assert g.labels[xbins + ybins + 2 + (k - xbins - ybins - 2)] == Letter(XLabels[k - xbins - ybins - 2]);
    }
  }
}
