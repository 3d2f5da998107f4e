# napari-proofread-brainbow: the array logic of the widget module, in Dafny

The plugin adds a panel of widgets to the napari viewer for proofreading Brainbow
images. Most of `_widget.py` wires callbacks into napari and magicgui. This project
models the four parts that do their own data manipulation, as pure functions over
immutable values, and proves what they promise:

* **`widget_cvtRGB`** (module `ConvertRgb`, using `Transpose`). It takes the shape of a
  4-D image and either returns nothing or moves the size-3 channel axis to the end with
  `transpose(0, 2, 3, 1)` or `transpose(1, 2, 3, 0)`. The new layer is named with an
  `_rgb` suffix. The model returns the permutation, the new shape and the name. It also
  proves that the transpose pairs each output index with exactly one input index.
* **`widget_grid`** (module `Grid`). From the image shape and the x and y bin counts it
  builds the grid-line segments, the text-anchor segments and the parallel `number`
  labels. Coordinates are exact reals, and `numpy.linspace` is modelled exactly,
  including `num = 1`.
* **`threshold_prob`** (module `ThresholdProb`). It keeps the points whose probability is
  strictly above the threshold, in order, with each point's original position as its id.
  It then either refreshes the existing `threshold_prob` layer or creates a
  `ThresholdPoints` layer paired with its source.
* **`ThresholdPoints.add` / `remove_selected`** (modules `ThresholdPoints` and `Points`).
  A points layer is a record of index-aligned rows (coordinates, `id`, `probability`)
  plus its selection and hovered index. `add` appends a point with a new id to both
  layers. `remove_selected` deletes the selected rows and the source rows with the same
  ids, and keeps the hovered index on the same point.

The main result is the invariant `ThresholdPoints.Synced`. It holds for a newly created
pair and survives both `add` and `remove_selected`. It says three things:

* ids increase along both layers;
* every derived point is the source point that carries its id;
* every source id above `_id_offset` is still shown in the derived layer.

It is what makes the ids that `add` hands out fresh, and what makes `remove_selected`
delete exactly the selected points from the source.

Most failures of the Python code appear in the model as results of their own:

* `shape[-3]` on a short shape and `XLABELS[i]` with more than ten x bins give `None`;
* `ids[-1]` on an empty layer gives `Failed`;
* `list.index` raising `ValueError` in `remove_selected` gives `LookupFailed`, which holds
  the half-updated pair.

The one exception is `add`'s `ids[-2]` on an empty derived layer, which is a precondition
(see "Left out").

## Model

| member | source | states |
|---|---|---|
| `ConvertRgb.Convert` | src/napari_proofread_brainbow/_widget.py:30-59 | There is output exactly for a 4-D shape whose last axis is not 3 and whose axis 1 or axis 0 is 3. Axis 1 is tested first. The result is the shape with that channel axis moved to the end and the other axes kept in order. The last axis is then 3, the permutation is a true permutation, and the name gets `_rgb` appended. |
| `ConvertRgb.ConvertIdempotent` | src/napari_proofread_brainbow/_widget.py:38-41 | Running the widget again on its own output produces nothing, because the channel axis is already last. |
| `ConvertRgb.ConvertKeepsElements` | src/napari_proofread_brainbow/_widget.py:42-57 | An index is in bounds of the converted image exactly when the original index it reads is in bounds of the original image. Mapping that original index back gives the output index again. |
| `Transpose.Permute` | src/napari_proofread_brainbow/_widget.py:49 | The transposed shape has one entry per axis, and for a permutation every input axis's size appears at the output position that names it. |
| `Transpose.SourceIndex` | src/napari_proofread_brainbow/_widget.py:57 | The input index read at an output index: permuting it again gives back the output index. |
| `Transpose.SourceIndexInverse` | src/napari_proofread_brainbow/_widget.py:49 | For any permutation, reading through the transpose and permuting back are mutually inverse maps on indices. |
| `Transpose.SourceIndexInBounds` | src/napari_proofread_brainbow/_widget.py:57 | For any permutation, an output index is in bounds of the transposed shape exactly when its source index is in bounds of the original shape. |
| `Grid.Dimensions` | src/napari_proofread_brainbow/_widget.py:268-270 | Width and height are the two axes before a trailing size-3 axis, or else the last two axes. There is no result exactly when Python's negative indexing would fail. |
| `Grid.DimensionsAfterConvert` | src/napari_proofread_brainbow/_widget.py:268-270 | The grid of an image converted to RGB has the same width and height as the grid of the image before conversion. |
| `Grid.Linspace` | src/napari_proofread_brainbow/_widget.py:271-272 | `num` edges. The first is the start and, when there are at least two, the last is the stop. Consecutive edges differ by exactly (stop - start) / (num - 1). |
| `Grid.LinspaceOrdered` | src/napari_proofread_brainbow/_widget.py:271-272 | Bin edges from 0 to a non-negative extent are non-decreasing and lie inside [0, extent]. |
| `Grid.Pairwise` | src/napari_proofread_brainbow/_widget.py:263-266 | One pair fewer than elements (none for an empty input), and pair i is (s[i], s[i+1]). |
| `Grid.GridLines` | src/napari_proofread_brainbow/_widget.py:273-280 | One full-height vertical segment at each x edge, followed by one full-width horizontal segment at each y edge. |
| `Grid.LabelAnchors` | src/napari_proofread_brainbow/_widget.py:284-292 | One anchor per consecutive x-edge pair at y = -height/20, then one per consecutive y-edge pair at x = -width/20. |
| `Grid.GridLabels` | src/napari_proofread_brainbow/_widget.py:301-307 | 2(xbins+ybins)+2 labels: xbins+ybins+2 blanks, then letters `A`.. for the x bins, then 0..ybins-1. |
| `Grid.GridLayout` | src/napari_proofread_brainbow/_widget.py:271-307 | The full segment list has 2(xbins+ybins)+2 entries, the same number as the labels. Every segment is at its stated place and carries its stated label. |
| `Grid.MakeGrid` | src/napari_proofread_brainbow/_widget.py:258-315 | There is output exactly when the shape can be indexed and xbins is at most 10. The layer is named `grid(<name>)` and its segments and labels follow the layout above. |
| `Grid.LabelsMarkAnchors` | src/napari_proofread_brainbow/_widget.py:284-306 | A segment has a non-empty label exactly when it is a text anchor and not a grid line. |
| `Seqs.IndexOf` | src/napari_proofread_brainbow/_widget.py:441-442 | Python's `list.index`: defined only when the value occurs, and gives the position of its first occurrence. |
| `Seqs.Range` | src/napari_proofread_brainbow/_widget.py:466 | numpy's `arange(n)`: n values, value i at position i, strictly increasing. |
| `Points.CountBelow` | src/napari_proofread_brainbow/_widget.py:432-433 | The count of selected indices below the hovered one is at most that index. It is zero exactly when none lies below. |
| `Points.CountBelowIsSize` | src/napari_proofread_brainbow/_widget.py:411-437 | When every selected index is a valid row, the number below the row count is the size of the selection. |
| `Points.Survivors` | src/napari_proofread_brainbow/_widget.py:437 | The rows kept by the deletion are increasing, in range and unselected. There are as many as rows minus selected rows below the end. |
| `Points.SurvivorPosition` | src/napari_proofread_brainbow/_widget.py:432-437 | An unselected row i is the (i - selected rows below i)-th survivor. |
| `Points.Delete` | src/napari_proofread_brainbow/_widget.py:437 | The deletion keeps the unselected rows in order, one per survivor. |
| `Points.DeletePosition` | src/napari_proofread_brainbow/_widget.py:432-437 | An unselected row moves down by the number of selected rows before it, and its value is unchanged. |
| `Points.DeleteMembership` | src/napari_proofread_brainbow/_widget.py:437 | A value is still present after the deletion exactly when some unselected row held it. |
| `Points.DeleteById` | src/napari_proofread_brainbow/_widget.py:437-444 | When the selected rows of an increasing id column are exactly the rows whose ids are to go, the ids left are exactly the others. |
| `Points.DeleteIncreasing` | src/napari_proofread_brainbow/_widget.py:437 | Deleting rows keeps increasing ids increasing. |
| `Points.DeleteRows` | src/napari_proofread_brainbow/_widget.py:424-437 | The coordinate, `id` and `probability` columns lose the same rows, so they stay aligned and keep one row per survivor. |
| `Points.HoverAfterDelete` | src/napari_proofread_brainbow/_widget.py:426-435 | The hovered index is dropped exactly when its row is deleted. Otherwise it never grows, and it stays put exactly when no deleted row lies below it. |
| `Points.HoverFollowsPoint` | src/napari_proofread_brainbow/_widget.py:426-435 | A hovered row that is not deleted moves down by the deleted rows below it. Its new index is valid and points at the same coordinates, id and probability. |
| `Points.RemoveSelectedPoints` | src/napari_proofread_brainbow/_widget.py:411-438 | An empty selection changes nothing. Otherwise the selected rows leave every property, the row count drops by the selection's size and the selection is cleared. The hovered index disappears exactly when its row was deleted. Otherwise it moves down by the number of deleted rows below it and still shows the same point. |
| `ThresholdPoints.NextId` | src/napari_proofread_brainbow/_widget.py:397 | The least integer above both `_id_offset` and the derived layer's last id. |
| `ThresholdPoints.Add` | src/napari_proofread_brainbow/_widget.py:395-403 | The coordinate is appended to both layers. Its id is `max(_id_offset, previous last id) + 1`, and both layers store that id with probability 1.0. Earlier rows and `_id_offset` are unchanged. |
| `ThresholdPoints.AddIdFresh` | src/napari_proofread_brainbow/_widget.py:397 | In a synced pair the new id occurs in neither layer. |
| `ThresholdPoints.AddPreservesSynced` | src/napari_proofread_brainbow/_widget.py:395-403 | `add` keeps a synced pair synced. |
| `ThresholdPoints.SourceSelection` | src/napari_proofread_brainbow/_widget.py:440-443 | The source positions selected for removal are valid rows whose ids are among the removed ids. For every removed id, its first position in the source is selected, and only first positions are selected, so a later duplicate of an id is never chosen. |
| `ThresholdPoints.RemoveSelected` | src/napari_proofread_brainbow/_widget.py:411-445 | An empty selection changes nothing. If some removed id is missing from the source, the result is the `ValueError` state: the derived layer has lost its selected rows and selection, and the source is untouched. Otherwise the derived layer loses its selected rows and the source loses the rows found by id lookup, each with the hover and selection handling above. `_id_offset` is unchanged. |
| `ThresholdPoints.SourceSelectionExact` | src/napari_proofread_brainbow/_widget.py:440-444 | In a synced pair a source row is removed exactly when its id is one of the removed ids. |
| `ThresholdPoints.DerivedSelectionExact` | src/napari_proofread_brainbow/_widget.py:415 | In a synced pair a derived row is selected exactly when its id is one of the removed ids. |
| `ThresholdPoints.SyncedHasSelectedIds` | src/napari_proofread_brainbow/_widget.py:441-442 | In a synced pair, `list.index` finds every selected id in the source, so it never raises. |
| `ThresholdPoints.RemoveSelectedById` | src/napari_proofread_brainbow/_widget.py:411-445 | In a synced pair the removal succeeds, and the ids left in each layer are exactly its former ids minus the ids of the selected points. |
| `ThresholdPoints.RemoveSelectedMirrors` | src/napari_proofread_brainbow/_widget.py:437-444 | After a removal, each remaining derived point still names, by id, the source point with its coordinates and probability. |
| `ThresholdPoints.RemoveSelectedKeepsAdded` | src/napari_proofread_brainbow/_widget.py:437-444 | After a removal, each source id above `_id_offset` is still shown in the derived layer. |
| `ThresholdPoints.RemoveSelectedPreservesSynced` | src/napari_proofread_brainbow/_widget.py:411-445 | On a synced pair `remove_selected` succeeds and leaves the pair synced. |
| `ThresholdProb.KeptIndices` | src/napari_proofread_brainbow/_widget.py:466-467 | Exactly the positions whose probability is strictly above the threshold, in strictly increasing order. |
| `ThresholdProb.Filtered` | src/napari_proofread_brainbow/_widget.py:464-477 | The kept rows are exactly those with probability above the threshold, in their original order. Each is tagged with its original position as id, and coordinates and probabilities stay aligned with it. |
| `ThresholdProb.Threshold` | src/napari_proofread_brainbow/_widget.py:459-493 | No `probability` property means no effect. An existing `threshold_prob` layer receives the filtered rows. Otherwise a new pair is created: the derived layer has the filtered rows with no selection or hover, the source gets ids 0..n-1, and `_id_offset` is n-1. An empty layer fails at `ids[-1]`. |
| `ThresholdProb.CreatedIsSynced` | src/napari_proofread_brainbow/_widget.py:481-492 | A newly created pair is synced, so every later `add` and `remove_selected` keeps it synced. |
| `ThresholdProb.KeptAll` | src/napari_proofread_brainbow/_widget.py:466-467 | When every probability is above the threshold, the mask keeps every position, in order. |
| `ThresholdProb.FilteredAll` | src/napari_proofread_brainbow/_widget.py:464-477 | When every point passes the threshold, the filtered rows are the input rows with ids 0..n-1, whatever ids the input layer carried. |
| `ThresholdProb.RefreshMissesSourceIds` | src/napari_proofread_brainbow/_widget.py:464-477 | A refresh numbers the kept points by position in the input layer. Example: a source whose ids are 0 and 2 is refreshed to ids 0 and 1, and removing the point with id 1 then reaches the `ValueError` state. |
| `ThresholdProb.RefreshRemovesOtherPoint` | src/napari_proofread_brainbow/_widget.py:464-477 | Example: a source holding ids 1 and 2 is refreshed to ids 0 and 1. Removing the point shown at [2.0] with id 1 then selects the source row at [1.0], so a different point leaves the source. |

## Left out

- `widget_norm`: its value is a `numpy.percentile` over floating-point pixel data, a library computation with nothing of the plugin's own to verify.
- `widget_contrast_limits_all`, `widget_scale` with its three reset callbacks, and `widget_points`: they only assign attributes of host layers. The slider values go through Python's float `round`.
- `MainWidget` and the test file: they only assemble the UI and check its labels.
- magicgui configuration (slider ranges, tooltips, button text). The model accepts any bin counts, while the widget's sliders limit both to 2..10.
- Viewer side effects: `widget_cvtRGB` popping the original layer, the layer-list lookup by name in `threshold_prob` (a boolean parameter here), and adding the returned layers.
- Pixel data: `ConvertRgb` models the array's shape and its index map, not the pixel values.
- Floating point: coordinates, probabilities and the threshold are exact reals. The 5% label offset is exactly 1/20, where Python's `0.05` is a binary approximation.
- Grid text styling (`size`, `color`, `shape_type='line'`).
- ThresholdPoints.Add: requires a non-empty derived layer. On an empty layer the Python code has already appended the point when `ids[-2]` raises `IndexError`, and the model does not represent that half-done state.
- ThresholdPoints.Add: the selection and hover changes that napari's `data` setter may make on a grown layer belong to napari and are left as they were. The green edge colour is not modelled.
- ThresholdPoints.RemoveSelected: napari internals that the override deletes at the same indices (`_shown`, `_size`, `_edge_width`, edge and face colours, the feature table, text) and `_value_stored` are not modelled. Only the coordinate, `id` and `probability` rows and the hovered index are.
- The source layer's own `remove_selected` and `add` are napari's `Points` methods, which are not part of this model. The model gives them the same row deletion as the override and a plain append.
- ThresholdProb.Threshold: in the branch that refreshes an existing `threshold_prob` layer, the new ids are positions in the current input layer. The source's ids, `source_points` and `_id_offset` are left untouched. `Synced` is therefore proved only for newly created pairs, not after a refresh. `RefreshMissesSourceIds` shows a refreshed pair reaching the `ValueError` state. `RefreshRemovesOtherPoint` shows a refreshed id matching a different source point than the one shown, which `remove_selected` then removes from the source.
