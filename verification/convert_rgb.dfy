/** `widget_cvtRGB`: move the size-3 channel axis of a 4-D image to the end. */
module ConvertRgb {
  import opened Wrappers
  import opened Transpose

  /** The layer the widget hands back: the transpose it applied, the shape of the
      transposed data and the new layer's name. */
  datatype RgbImage = RgbImage(perm: seq<nat>, shape: seq<nat>, name: string)

  /** (z, c, y, x) to (z, y, x, c). */
  const ChannelSecond: seq<nat> := [0, 2, 3, 1]

  /** (c, z, y, x) to (z, y, x, c). */
  const ChannelFirst: seq<nat> := [1, 2, 3, 0]

  /** Reference definition: axis `c` moved to the end, the other axes in their order. */
  function MoveAxisLast(shape: seq<nat>, c: nat): (r: seq<nat>)
    requires c < |shape|
    ensures |r| == |shape| && r[|r| - 1] == shape[c]
  {
    shape[..c] + shape[c + 1..] + [shape[c]]
  }

  /** Both transposes the widget applies are permutations of the four axes. */
  lemma ChannelPermutations()
    ensures IsPermutation(ChannelSecond) && IsPermutation(ChannelFirst)
  {
  }

  /** The layer returned for one of the two channel transposes. */
  function Transposed(shape: seq<nat>, perm: seq<nat>, name: string): (r: RgbImage)
    requires |shape| == 4 && (perm == ChannelSecond || perm == ChannelFirst)
    ensures r.shape == MoveAxisLast(shape, if perm == ChannelSecond then 1 else 0)
  {
    RgbImage(perm, Permute(shape, perm), name + "_rgb")
  }

  /** The widget on an image of the given shape and name; None when it returns nothing. */
  function Convert(shape: seq<nat>, name: string): (r: Option<RgbImage>)
    ensures r.Some? <==> |shape| == 4 && shape[3] != 3 && (shape[1] == 3 || shape[0] == 3)
    ensures r.Some? ==> r.value.name == name + "_rgb"
    ensures r.Some? ==> r.value.perm == (if shape[1] == 3 then ChannelSecond else ChannelFirst)
    ensures r.Some? ==> IsPermutation(r.value.perm) && r.value.shape == Permute(shape, r.value.perm)
    ensures r.Some? ==> r.value.shape == MoveAxisLast(shape, if shape[1] == 3 then 1 else 0)
    ensures r.Some? ==> |r.value.shape| == 4 && r.value.shape[3] == 3
  {
    ChannelPermutations();
    if |shape| != 4 then None
    else if shape[3] == 3 then None
    else if shape[1] == 3 then Some(Transposed(shape, ChannelSecond, name))
    else if shape[0] == 3 then Some(Transposed(shape, ChannelFirst, name))
    else None
  }

  /** Converting an already converted image does nothing: its last axis is the channel. */
  lemma ConvertIdempotent(shape: seq<nat>, name: string, name': string)
    requires Convert(shape, name).Some?
    ensures Convert(Convert(shape, name).value.shape, name').None?
  {
  }

  /** The converted image has the same elements: its indices and the original's correspond
      one to one through the transpose. */
  lemma ConvertKeepsElements(shape: seq<nat>, name: string, out: seq<nat>)
    requires Convert(shape, name).Some?
    requires |out| == 4
    ensures var img := Convert(shape, name).value;
      && (InBounds(out, img.shape) <==> InBounds(SourceIndex(out, img.perm), shape))
      && Permute(SourceIndex(out, img.perm), img.perm) == out
  {
    var img := Convert(shape, name).value;
    SourceIndexInBounds(shape, img.perm, out);
  }
}
