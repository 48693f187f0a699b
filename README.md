# Rice-grain counting and neighbourhood filters, modelled in Dafny

This project models the image-processing core of a small Python coursework
repository.

`count_rice.py` counts rice grains in a grey image in four steps:

1. It thresholds the image: a pixel strictly brighter than the threshold
   becomes 255, every other pixel 0.
2. It labels the 4-connected foreground components in two raster passes over
   a union-find forest of provisional labels.
3. It drops the components whose area lies outside `[min_area, max_area]` and
   renumbers the rest densely.
4. It colours each label from a fixed palette and computes one bounding box
   per label.

`main.py` holds five neighbourhood filters on RGB images. Each looks at the
in-bounds 4-neighbours of every pixel and sets each channel with its own rule:

- `filter_batas` clamps the value into the neighbours' `[min, max]`;
- `filter_batas_min` only raises it to the minimum;
- `filter_batas_max` only lowers it to the maximum;
- `filter_mean` replaces it by the floor of the neighbours' mean;
- `filter_median` replaces it by the element at index `n // 2` of the sorted
  neighbour values.

A pixel with no in-bounds neighbour keeps its colour.

Modules:

- `UnionFind` (union_find.dfy): the `parent` list with `make_set`, `find`
  with path compression, and `union` linking the larger root under the
  smaller. It is modelled as a class whose `seq<int>` field the methods
  reassign.
- `Connectivity` (connectivity.dfy): grids as lists of rows, 4-adjacency,
  paths through the foreground, and 4-connectivity.
- `Labeling` (labeling.dfy): `threshold_image` and the two passes of
  `connected_components`. The main result is that two foreground pixels
  share a final label exactly when they are 4-connected. Labels are dense
  `1..count` and are handed out in the order the scan first meets a
  component.
- `AreaFilter` (area_filter.dfy): `filter_by_area`, specified by a function
  on the label map. Lemmas cover the area preserved for each kept component,
  order-preserving renumbering, and idempotence.
- `Rendering` (rendering.dfy): `color_for_label` and the bounding-box loop.
  A colour is black exactly for labels divisible by 256, so label 256 renders
  like the background. Two non-zero labels share a colour exactly when they
  are congruent modulo 256. Each box is the least box around its label's
  pixels.
- `Builtins` (builtins.dfy): Python's `min`, `max`, `sum` and `sorted` on
  integer lists.
- `NeighborhoodFilters` (neighborhood.dfy): `check_neighbor` and the five
  filters of `main.py`, each proved to fill a fresh canvas with the
  pixel-wise specification `FilterPixel`.

Indexing conventions:

- PIL images are modelled as `array2`.
- count_rice.py reads its images as `px[x, y]` but builds its lists as
  `labels[y][x]`. The model indexes its arrays `img[y, x]` (rows first) so
  that arrays and lists agree.
- main.py only ever uses `px[x, y]`, so its arrays are indexed `img[x, y]`
  (first dimension = width).

Channel and grey values are unbounded integers. Only `FilterKeepsChannelRange`
and its per-channel step `ChannelInRange` assume the 0..255 range, and they
prove the filters keep it.

## Model

`Sum`, `CountIn` and `Area` are specification functions without contracts of their own. Their meaning is stated by the rows `Builtins.SumSnoc`, `AreaFilter.CountInOccurrences` and `AreaFilter.AreaOccurrences`.

| member | source | states |
|---|---|---|
| UnionFind.DisjointSet.constructor | count_rice.py:103 | the forest starts as the single sentinel entry 0 |
| UnionFind.DisjointSet.MakeSet | count_rice.py:105-107 | the new label is the old length, is its own root, and no existing label changes root |
| UnionFind.DisjointSet.Find | count_rice.py:109-117 | returns the root of `x`'s set; afterwards exactly the entries on the path walked from `x` (the root excluded) point straight at the root and every other entry is unchanged (path compression), while the length and every label's root stay the same |
| UnionFind.DisjointSet.Union | count_rice.py:119-127 | exactly the sets of `a` and `b` are merged, rooted at the smaller of their two roots; every other label keeps its root |
| UnionFind.Root | count_rice.py:110-112 | the root of `i` is a fixed point of `parent` no larger than `i` |
| UnionFind.Path | count_rice.py:113-116 | the walked path from `i` holds `i` unless it is a root, and only non-root elements no larger than `i` |
| UnionFind.PathInSet | count_rice.py:113-116 | every element on the walked path from `i` lies in `i`'s set |
| UnionFind.CompressKeepsRoots | count_rice.py:113-116 | pointing an entry straight at its root keeps a forest and changes no label's root |
| UnionFind.LinkRootAt | count_rice.py:124-127 | linking root `b` under the smaller root `a` moves exactly `b`'s set to `a` |
| UnionFind.AppendKeepsRootAt | count_rice.py:106 | appending a fresh singleton changes no existing root |
| UnionFind.MergedAllStart | count_rice.py:146-148 | before any union, the sets of the single label `lab` are trivially merged and nothing else moves |
| UnionFind.MergedAllRepeat | count_rice.py:149 | skipping a neighbour equal to `lab` keeps the merge of the labels so far exact |
| UnionFind.MergedAllStep | count_rice.py:148-150 | one more union of a neighbour with `lab` extends the exact merge to that neighbour's set, still rooted at the least old root |
| UnionFind.MergedAllJoins | count_rice.py:148-150 | after merging the sets of a list of labels, all of them share one root and no two labels were separated |
| Connectivity.ConnectedRefl | count_rice.py:90-167 | a foreground pixel is connected to itself |
| Connectivity.ConnectedStep | count_rice.py:136-140 | 4-adjacent foreground pixels are connected |
| Connectivity.ConnectedTrans | count_rice.py:90-167 | connectivity is transitive (joining two paths) |
| Connectivity.ConnectedSym | count_rice.py:90-167 | connectivity is symmetric (reversing a path) |
| Connectivity.ConnectedSameLabel | count_rice.py:152-167 | a labelling on which adjacent foreground pixels agree gives every connected pair one label |
| Connectivity.Zeros | count_rice.py:191 | an h-by-w grid that is 0 at every pixel |
| Labeling.ThresholdImage | count_rice.py:78-87 | output has the input's size and is 255 exactly where the input is strictly above the threshold, else 0 |
| Labeling.MaskOf | count_rice.py:99 | the mask has the image's shape and is true exactly at nonzero pixels |
| Labeling.EarlierNeighbour | count_rice.py:135-140 | the only 4-neighbours already scanned are the upper and the left one |
| Labeling.NeighbourList | count_rice.py:134-140 | the collected list has at most two entries and holds exactly the positive labels of the upper and left neighbours |
| Labeling.JoinAll | count_rice.py:148-150 | the union loop merges exactly the sets of `lab` and of the neighbour labels into one set rooted at the least of their old roots; every other label keeps its root |
| Labeling.JoinNext | count_rice.py:149-150 | one iteration of the union loop extends that exact merge, rooted at the least old root, by one neighbour label |
| Labeling.MergedAllKeepsReps | count_rice.py:148-150 | merging sets whose creating pixels are all connected to one pixel keeps every set's creating pixels connected |
| Labeling.JoinNeighbours | count_rice.py:148-150 | exactly the sets of `lab` and the neighbour labels are merged under the least of their old roots while every other label keeps its root (so every label's root after the loop is determined), every neighbour label ends in `lab`'s set, the partition only coarsens, and each set's creating pixels stay connected |
| Labeling.VisitPixel | count_rice.py:131-150 | one pixel of the first pass keeps its invariant; a background pixel changes nothing; a pixel with no labelled neighbour appends exactly one singleton to the forest and takes its label; otherwise the pixel takes the least neighbour label and exactly the sets of that label and of the collected neighbours are merged under the least of their old roots |
| Labeling.OpenSet | count_rice.py:142-144 | a pixel with no labelled neighbour appends exactly one singleton (its own index) to the forest and takes its label, keeping the invariant |
| Labeling.JoinLabels | count_rice.py:145-150 | a pixel with labelled neighbours takes the least of their labels, creates no set, merges exactly the sets of those labels under the least of their old roots, and keeps the invariant |
| Labeling.FirstPass | count_rice.py:129-150 | every foreground pixel gets a provisional label, and adjacent foreground pixels end in the same set |
| Labeling.FirstPassRow | count_rice.py:130-150 | scanning one row carries the first-pass invariant from the start of the row to the start of the next |
| Labeling.RelabelPixel | count_rice.py:157-165 | one pixel of the second pass takes its root's number, giving a root met for the first time the next number |
| Labeling.SecondPass | count_rice.py:152-167 | every provisional label is replaced by its root's number, roots numbered 1, 2, ... in scan order, and the forest keeps its roots |
| Labeling.SecondPassRow | count_rice.py:155-165 | relabelling one row carries the second-pass invariant from the start of the row to the start of the next |
| Labeling.FinalBackground | count_rice.py:132-133 | a final label is 0 exactly at background pixels |
| Labeling.FinalDense | count_rice.py:162-167 | final labels lie in `0..count`, each of `1..count` is used, and each `k >= 2` first appears after `k - 1` |
| Labeling.FinalAdjacentAgree | count_rice.py:148-165 | adjacent foreground pixels get the same final label |
| Labeling.FinalSameLabelIffConnected | count_rice.py:90-167 | two foreground pixels share a final label if and only if they are 4-connected |
| Labeling.SinglePixelLabel | count_rice.py:142-167 | a one-pixel foreground image yields one component with label 1 |
| Labeling.ConnectedComponents | count_rice.py:90-167 | labels form an h-by-w grid; 0 exactly on background; labels dense in `1..count` and numbered in scan order; same label if and only if 4-connected |
| AreaFilter.AreaPositiveIffOccurs | count_rice.py:176-184 | a label has positive area exactly when it occurs in the map |
| AreaFilter.CountInOccurrences | count_rice.py:178-184 | the count for a label in one row is its number of occurrences in that row |
| AreaFilter.AreaOccurrences | count_rice.py:176-184 | the area of a label is its number of occurrences among all pixels in scan order |
| AreaFilter.AreaTransfer | count_rice.py:197-201 | relabelling one label bijectively onto another keeps its pixel count |
| AreaFilter.KeptSet | count_rice.py:187-188 | the kept labels are exactly the non-background labels whose area lies in `[min_area, max_area]` |
| AreaFilter.SortedElems | count_rice.py:193 | the ascending listing of a set holds exactly its elements, strictly increasing |
| AreaFilter.AscendingListingUnique | count_rice.py:193 | a set has only one strictly increasing listing |
| AreaFilter.AreaFiltered | count_rice.py:170-203 | the filtered map has the input's shape and holds at each pixel the new number of its old label |
| AreaFilter.NewLabel | count_rice.py:193-195 | a label's new number is 0 exactly when it is dropped, and lies in `1..count` when it is kept |
| AreaFilter.KeptExactly | count_rice.py:187-201 | a pixel stays foreground exactly when its component's area is within bounds, and its label is at most the kept count |
| AreaFilter.NewLabelMonotone | count_rice.py:193-195 | renumbering preserves the order of kept labels and maps distinct labels to distinct numbers |
| AreaFilter.FilteredDense | count_rice.py:193-203 | the result uses exactly the labels `1..count` |
| AreaFilter.NewComponentIsOld | count_rice.py:197-201 | each kept component keeps exactly its pixels and therefore its area |
| AreaFilter.FilteredKeptSet | count_rice.py:170-203 | every component of the result passes the same area bounds again |
| AreaFilter.RenumberingOfRange | count_rice.py:193-195 | if the kept labels are already `1..n`, the renumbering is the identity |
| AreaFilter.FilterIdempotent | count_rice.py:170-203 | filtering a filtered map with the same bounds changes nothing and keeps the count |
| AreaFilter.CountAreas | count_rice.py:176-184 | the counts map has exactly the occurring non-zero labels as keys, each mapped to its pixel count |
| AreaFilter.MinOf | count_rice.py:193 | returns the least element of a non-empty set |
| AreaFilter.NumberKept | count_rice.py:189-195 | each valid label gets its 1-based rank in ascending order, and the count is the number of valid labels |
| AreaFilter.ApplyNumbering | count_rice.py:191-201 | a pixel gets the number of its label if it has one, else 0 |
| AreaFilter.FilterByArea | count_rice.py:170-203 | result equals the specification `AreaFiltered` and the count is the number of kept components |
| Rendering.ColorForLabel | count_rice.py:215-221 | background is black and every channel lies in 0..255 |
| Rendering.BlackIffMultipleOf256 | count_rice.py:215-221 | a label is coloured black exactly when it is a multiple of 256 |
| Rendering.PalettePeriod | count_rice.py:218-221 | two non-zero labels share a colour exactly when they are congruent modulo 256 |
| Rendering.OddFactorCancels | count_rice.py:218 | 97 is invertible modulo 256, so the red channel alone fixes the label modulo 256 |
| Rendering.Widen | count_rice.py:296-304 | the widened box holds the old box and the new pixel, and lies within every box that holds both |
| Rendering.WidenSides | count_rice.py:296-304 | each side of the widened box is the old side or passes through the new pixel |
| Rendering.TakeIn | count_rice.py:290-304 | the box map after one pixel is the specified one: unchanged for background, a one-pixel box for a new label, the widened box otherwise |
| Rendering.BoxStep | count_rice.py:290-304 | taking in one pixel keeps the box invariant: keys are the labels seen, seen pixels are inside their box, and every box edge is touched by a pixel |
| Rendering.ScanRow | count_rice.py:289-304 | scanning one row keeps the box invariant from the start of the row to the start of the next |
| Rendering.ComponentBoxes | count_rice.py:284-304 | the boxes are keyed by exactly the occurring non-zero labels, every labelled pixel lies in its box, and every box edge is touched by a pixel of that label |
| Rendering.BoxIsLeast | count_rice.py:284-304 | any box holding all pixels of a label contains the computed box |
| Rendering.RectangleBox | count_rice.py:284-304 | a label filling exactly a rectangle gets that rectangle as its box |
| Builtins.Min | main.py:47-49 | `min` returns an element no element undercuts |
| Builtins.Max | main.py:50-52 | `max` returns an element no element exceeds |
| Builtins.SumBounds | main.py:179-181 | a sum of values within `[lo, hi]` lies within `n * lo` and `n * hi` |
| Builtins.SumSnoc | main.py:179 | `sum` adds the entries from left to right: the sum is the sum of all but the last entry plus the last |
| Builtins.Insert | main.py:222-224 | inserting into a sorted list keeps it sorted and adds exactly one element |
| Builtins.Sorted | main.py:222-224 | `sorted` returns a sorted permutation of its input |
| NeighborhoodFilters.CheckNeighbor | main.py:6-8 | four distinct positions, exactly the orthogonal neighbours of `(x, y)` |
| NeighborhoodFilters.InBoundsOf | main.py:35-36 | keeps exactly the listed positions that lie inside the image |
| NeighborhoodFilters.Pixels | main.py:23 | the pixel access object as a value: same width and height, same colour at every position |
| NeighborhoodFilters.PixelsAt | main.py:37 | reading the listed positions gives their colours, in order |
| NeighborhoodFilters.SamplesAreNeighbours | main.py:30-40 | the sampled positions are distinct in-bounds orthogonal neighbours, and every such neighbour is sampled |
| NeighborhoodFilters.NoNeighboursIffSinglePixel | main.py:42-45 | a pixel has no in-bounds neighbour exactly when the image is 1 by 1 |
| NeighborhoodFilters.CollectNeighbours | main.py:30-40 | the three lists hold the red, green and blue values of the in-bounds neighbours in neighbour order |
| NeighborhoodFilters.FilterAt | main.py:30-62 | the colour computed for one pixel is the specified filtered colour |
| NeighborhoodFilters.FilteredImage | main.py:25-64 | a filtered image of the input's shape, given pixel by pixel by `FilterPixel`, exists |
| NeighborhoodFilters.FilterColumn | main.py:29-62 | the inner loop fills column `x` with the filtered colours and leaves the other columns unchanged |
| NeighborhoodFilters.ApplyFilter | main.py:25-64 | a fresh canvas of the input's size, each pixel being `FilterPixel` of the input |
| NeighborhoodFilters.FilterBatas | main.py:21-64 | the canvas holds the clamp filter of the input |
| NeighborhoodFilters.FilterBatasMin | main.py:67-107 | the canvas holds the raise-to-minimum filter of the input |
| NeighborhoodFilters.FilterBatasMax | main.py:110-150 | the canvas holds the lower-to-maximum filter of the input |
| NeighborhoodFilters.FilterMean | main.py:153-193 | the canvas holds the mean filter of the input |
| NeighborhoodFilters.FilterMedian | main.py:196-236 | the canvas holds the median filter of the input |
| NeighborhoodFilters.SinglePixelCopied | main.py:42-45 | in a 1-by-1 image every filter copies the pixel |
| NeighborhoodFilters.ClampIntoRange | main.py:57-60 | the clamped value lies in `[min, max]`, equals the input exactly when the input is in range, and is the nearest point of the range |
| NeighborhoodFilters.RaiseToMin | main.py:100-103 | the result is at least the minimum and is the input when the input already is |
| NeighborhoodFilters.LowerToMax | main.py:143-146 | the result is at most the maximum and is the input when the input already is |
| NeighborhoodFilters.ClampIsMinThenMax | main.py:57-60 | clamping equals raising to the minimum and then lowering to the maximum |
| NeighborhoodFilters.MeanIsFloorMean | main.py:179-181 | the mean value is the floor of the true mean and lies between the neighbours' minimum and maximum |
| NeighborhoodFilters.SortedCounts | main.py:222-224 | sorting keeps how many values lie below and above any threshold |
| NeighborhoodFilters.MedianSplitsValues | main.py:222-224 | the median is one of the values, at most `n // 2` values are smaller, and at most `n - n // 2 - 1` are larger |
| NeighborhoodFilters.MedianIsValue | main.py:222-224 | the middle element of the sorted values is one of the values, between their minimum and maximum |
| NeighborhoodFilters.MedianCounts | main.py:222-224 | at most `n // 2` values lie below the middle sorted element and at most `n - n // 2 - 1` above it |
| NeighborhoodFilters.NewValueBetween | main.py:57-60 | under every rule the new value lies between `min(v, min)` and `max(v, max)` |
| NeighborhoodFilters.NewValue | main.py:57-60 | the five channel rules (also main.py:100-103, 143-146, 179-181, 222-224): every rule but the mean keeps the centre value or picks a neighbour's value |
| NeighborhoodFilters.FilterPixel | main.py:42-62 | the colour written at (x, y): a copy of the pixel when no neighbour is in bounds, and under every rule but the mean each channel is the centre's or a neighbour's value |
| NeighborhoodFilters.FilterKeepsChannelRange | main.py:28-62 | if every input channel is in 0..255, every filtered channel is too |
| NeighborhoodFilters.ChannelInRange | main.py:30-62 | one channel of a pixel with neighbours stays in 0..255 when every input channel does |

## Left out

- `sobel_edge_detection` and `rgb_to_grayscale` (count_rice.py) compute in floating point and are not modelled.
- `apply_kernel` is called in the repository but defined nowhere, so it is not part of this model.
- `load_image`, `Image.open`, `Image.new` and PIL's pixel-access objects are file and library I/O. Images are given to the model as `array2` values, and a fresh canvas is a fresh array.
- Drawing the boxes and centres on the overlay, the matplotlib figures (count_rice.py:238-338 apart from the box loop) and `show_images_matplotlib` (main.py:239-265) are output only.
- The per-pixel loop of `labels_to_color_image` (count_rice.py:223-225) is not modelled; only the palette function it applies is.
- `count_rice_grains` chains the steps above with default parameters. It is not modelled as one operation; each step is.
- `threshold_image` and `filter_by_area` have Python default arguments (`threshold=50`, `min_area=50`, `max_area=5000`). The model always takes them explicitly, as the only call sites do (count_rice.py:245, 252-253).
- The `__main__` blocks and generate_input_images.py are not modelled.
- Labeling.ThresholdImage, Labeling.ConnectedComponents: grey and binary images are unbounded integer arrays, not 8-bit PIL "L" images.
- AreaFilter.FilterByArea requires a rectangular label map, because the source takes the width from the first row.
- Rendering.ComponentBoxes requires a rectangular label map, for the same reason.
- AreaFilter.NumberKept: Python's `sorted` on a set is modelled by repeatedly taking the least remaining label.
- Builtins.Sorted: Python's `sorted` on a list is modelled by insertion sort. The model states only its result (sorted, same multiset), not the algorithm.
- NeighborhoodFilters.ApplyFilter: each filter is one method parameterised by its channel rule; the five source functions repeat the same loop.
- NeighborhoodFilters.FilterPixel: values are unbounded integers; PIL's clipping of out-of-range channel values on write is not modelled.
