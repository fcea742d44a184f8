# MVTec AD dataset index, modelled in Dafny

This project models the indexing logic of `MVTecADDataset`, a PyTorch dataset
over an MVTec AD style image tree:

    root/<category>/{train,test}/<label>/<file><ext>
    root/<category>/ground_truth/<label>/<file>_mask<ext>

At construction the dataset checks that the category exists. It then picks
the `train` or `test` split and lists the split's defect classes with "good"
moved to the front, so that "good" gets class 0. It maps each class name to
its position, and enumerates the images one directory below the split. For
each image it derives the label (the parent directory) and the mask path (the
`ground_truth` sibling tree, with `_mask` inserted before the extension).
A sample lookup opens the image and loads its mask. If the mask file is
missing, a blank grayscale mask of the image's size is made for a "good"
sample; for any other label this is an error. Finally it looks up the
integer class.

Modules:

- `Errors` (errors.dfy): the exceptions raised (`FileNotFoundError`,
  `ValueError`, `IndexError`, `KeyError`, and the generic exception for a
  missing mask). Also a `Result` type that stands for "returns or raises".
- `Paths` (paths.dfy): `str.split(os.sep)`, `os.sep.join` and
  `str.split(ext)[0]` on strings. The separator is fixed to `/`.
- `Labels` (labels.dfy): `list.index`, `_get_labels` (written as a method
  that pops "good" out of the list and puts it in front) and the
  `dict(zip(labels, range(len(labels))))` map.
- `Dataset` (dataset.dfy): `_get_label_from_path`, `_get_mask_path`, and
  the class `MVTecADDataset`. Its fields are `const`, because `__init__`
  assigns each field once and nothing changes them afterwards. Python's
  `__init__` can raise, so it is the static method `Open`, which returns
  `Err` or a freshly constructed dataset.

The filesystem is passed in as parameters:

- `listdir` stands for `os.listdir`. It takes a path given as a sequence of
  segments. It returns `None` when the directory does not exist, which makes
  `os.listdir` raise `FileNotFoundError`.
- `glob` stands for `glob.glob`, applied to the same pattern string the
  source builds.
- `files` maps each existing file to the size of the image it decodes to.
  It stands for both `os.path.exists` and `Image.open(...).size`.

Some behaviour of the code is easy to misread; the model follows the code:

- A split listing without "good" raises `ValueError`, from `list.index`. It
  does not raise a not-found error.
- The mask path overwrites segment -3 of the image path, whatever that
  segment is. It does not rebuild the path from the known root. The two
  agree for the expected layout (`MaskPathOfLayout`).
- The mask file name keeps the text before the FIRST occurrence of the
  extension, not before a trailing one.
- Nothing at construction checks that a sample's label has a class. A
  missing key surfaces as `KeyError` when the sample is looked up
  (`GetItem`). `GlobbedLabelIsKnown` shows that this cannot happen when the
  images come from the split's own directories.

## Model

| member | source | states |
|---|---|---|
| `Paths.Split` | mvtecad_pytorch/dataset.py:79 | splitting on the separator gives at least one piece, exactly one when there is no separator, and no piece contains a separator |
| `Paths.SplitCount` | mvtecad_pytorch/dataset.py:79 | splitting gives one more piece than there are separators |
| `Paths.JoinSplit` | mvtecad_pytorch/dataset.py:83-87 | joining the pieces of a split with the separator gives back the original path |
| `Paths.SplitJoin` | mvtecad_pytorch/dataset.py:83-87 | splitting the join of separator-free segments gives back exactly those segments |
| `Paths.BeforeFirst` | mvtecad_pytorch/dataset.py:85 | `name.split(ext)[0]` is a prefix of the name; the extension does not start anywhere before its end; if it is shorter than the name, the extension starts right after it |
| `Paths.BeforeFirstWhole` | mvtecad_pytorch/dataset.py:85 | `name.split(ext)[0]` is the whole name exactly when the extension does not occur in it |
| `Paths.BeforeFirstStem` | mvtecad_pytorch/dataset.py:85 | when the extension first occurs at the end of `stem + ext`, the part before it is the stem |
| `Labels.IndexOf` | mvtecad_pytorch/dataset.py:74 | `list.index` succeeds exactly when the item is listed; then it gives the first position holding it; otherwise it raises ValueError |
| `Labels.GetLabels` | mvtecad_pytorch/dataset.py:71-76 | raises ValueError exactly when "good" is missing; otherwise the result has the listing's length, "good" at position 0, and putting "good" back at its first listed position restores the listing |
| `Labels.GoodFirstIsPermutation` | mvtecad_pytorch/dataset.py:74-75 | the reordered labels are a permutation of the listing |
| `Labels.GoodFirstRemovesFirstGood` | mvtecad_pytorch/dataset.py:74-75 | after "good", the labels are the listing with its first "good" removed, every other name in its original relative order |
| `Labels.GoodFirstUnique` | mvtecad_pytorch/dataset.py:71-76 | the listing determines the reordered labels uniquely |
| `Labels.GoodFirstDistinct` | mvtecad_pytorch/dataset.py:72-75 | a listing without repeated names gives labels without repeated names |
| `Labels.LabelNumMap` | mvtecad_pytorch/dataset.py:24-25 | the map's keys are exactly the labels; each maps to a position holding it, and to the last such position, because later pairs overwrite earlier ones |
| `Labels.LabelNumMapAt` | mvtecad_pytorch/dataset.py:24-25 | the label at position k maps to k exactly when it is not repeated later |
| `Labels.LabelNumMapOfListing` | mvtecad_pytorch/dataset.py:23-25 | for a listing without repeated names, every label maps to its own position and "good" maps to 0 |
| `Labels.GoodIsZero` | mvtecad_pytorch/dataset.py:73-75 | "good" gets class 0 exactly when the listing names it once |
| `Dataset.LabelFromPath` | mvtecad_pytorch/dataset.py:78-80 | the label exists exactly when the path has a separator (IndexError otherwise), and it holds no separator |
| `Dataset.LabelOfJoin` | mvtecad_pytorch/dataset.py:78-80 | the label of a path built from separator-free segments is its second-to-last segment |
| `Dataset.MaskPath` | mvtecad_pytorch/dataset.py:82-87 | succeeds exactly when the path has at least three segments and the extension is not empty; otherwise raises IndexError for a short path (checked first) or ValueError for an empty extension |
| `Dataset.GetMaskPath` | mvtecad_pytorch/dataset.py:82-87 | the in-place overwrite of the split list computes the mask path, errors included |
| `Dataset.MaskPathSegments` | mvtecad_pytorch/dataset.py:83-86 | for an extension without a separator, the mask path has as many segments as the image path; segment -3 is "ground_truth"; the segments before it and segment -2 are unchanged; the last one is the text before the extension, then `_mask`, then the extension |
| `Dataset.MaskPathKeepsLabel` | mvtecad_pytorch/dataset.py:83-87 | the label derived from the mask path equals the label derived from the image path |
| `Dataset.MaskPathOfLayout` | mvtecad_pytorch/dataset.py:82-87 | the mask of `root/<category>/<split>/<label>/<stem><ext>` is `root/<category>/ground_truth/<label>/<stem>_mask<ext>`, provided the extension occurs in the file name only at the end |
| `Dataset.GlobbedLabelIsKnown` | mvtecad_pytorch/dataset.py:27-30 | an image found one directory below the split root, in a directory the split listing names, gets that directory as its label, and the label is a key of the class map |
| `Dataset.GetLabelList` | mvtecad_pytorch/dataset.py:29-30 | the label list is built exactly when every path has a separator, else IndexError; it runs parallel to the paths, each entry the label of its path |
| `Dataset.GetMaskPathList` | mvtecad_pytorch/dataset.py:31-32 | the mask-path list is built exactly when every path has a mask path, and runs parallel to the paths; on failure the error is IndexError exactly when the extension is non-empty or the first path has fewer than three segments, else ValueError |
| `Dataset.MVTecADDataset.Init` | mvtecad_pytorch/dataset.py:9-12 | the constructor stores each field as given; fields derived as `__init__` derives them make a valid dataset ("good" first, the positional class map, parallel per-sample lists) |
| `Dataset.MVTecADDataset.Open` | mvtecad_pytorch/dataset.py:8-32 | FileNotFoundError for a missing root, a missing category or a missing split directory; ValueError when the split lists no "good"; otherwise it succeeds exactly when every globbed path has a mask path. When a globbed path fails, the error is IndexError exactly when the extension is non-empty, some path has no separator, or the first path has fewer than three segments; otherwise it is ValueError, because an empty extension stops the first path. The `train` flag picks the listing and glob under `<category>/train` or `<category>/test`. On success the labels are the listing with "good" moved to the front, the class map is their positional map, the image list is the glob result, and the label and mask lists run parallel to it, derived path by path |
| `Dataset.MVTecADDataset.Length` | mvtecad_pytorch/dataset.py:65-66 | the sample count is the length of each of the three per-sample lists |
| `Dataset.MVTecADDataset.LoadMask` | mvtecad_pytorch/dataset.py:50-63 | an existing mask file is opened; a missing one gives a blank 'L' mask of the image's size for a "good" sample and a not-found error for any other label |
| `Dataset.MVTecADDataset.GetItem` | mvtecad_pytorch/dataset.py:34-45 | succeeds exactly when the image exists, the mask exists or the label is "good", and the label has a class; a missing image raises FileNotFoundError; then a missing mask for a label other than "good" raises the missing-mask error; then a label without a class raises KeyError; the mask is the one `LoadMask` loads (the mask file, or a blank 'L' mask of the image's size); the class is the map's entry for the sample's label and indexes the sample's label in the label list; a synthesised mask has the image's size; a "good" sample listed once gets class 0 |

## Left out

- Image decoding and creation (`Image.open`, `Image.new`, lines 48, 57, 61) belong to PIL. An image is a value with its source and its size. A `Blank` image stands for the all-zero canvas. Decoding errors on unreadable files are not modelled.
- The user-supplied `transforms` and `mask_transforms` (lines 10-11, 39-43) are opaque functions. `GetItem` returns the untransformed image and mask.
- The `VisionDataset` base class (lines 1, 7) contributes nothing to the indexing.
- Filesystem access (`os.listdir`, `glob.glob`, `os.path.exists`, lines 27-28, 54, 69, 72) comes in as parameters. Their enumeration order is whatever the parameters give and is platform-dependent. Which names glob's wildcards match is not modelled.
- `os.sep` is fixed to `/`. The model treats `root` as a sequence of segments. `os.path.join` normalisation (absolute components, trailing separators) is not modelled.
- `GetItem` and `LoadMask`: take a `nat` index below `Length()`. Python's `__getitem__` and `_load_mask` (lines 48, 51-52) also accept negative indices, counted from the end, which the model does not cover, and raise IndexError past either end.
- Exception messages are not modelled beyond the path, key or name each error carries.
