/** `MVTecADDataset`: one split ("train" or "test") of one category of an
    MVTec AD style image tree,

      root/<category>/{train,test}/<label>/<file><ext>
      root/<category>/ground_truth/<label>/<file>_mask<ext>

    indexed once at construction into three parallel per-sample lists (image
    path, label, mask path) and a map from label to integer class. The
    filesystem is a snapshot passed in: `listdir` for `os.listdir` (None for a
    missing directory), `glob` for `glob.glob`, and `files` for the files that
    exist together with the size of the image each one decodes to. */
module Dataset {
  import opened Errors
  import opened Paths
  import opened Labels

  const GroundTruth: string := "ground_truth"
  const MaskSuffix: string := "_mask"
  /** PIL's mode for a single-channel, 8-bit grayscale image. */
  const MaskMode: string := "L"

  datatype Size = Size(width: nat, height: nat)

  /** An image as far as the indexing code sees one: where it came from and
      how large it is. Pixels are not modelled; a `Blank` image is all zero. */
  datatype Image =
    | Opened(path: string, size: Size)  // Image.open(path)
    | Blank(mode: string, size: Size)   // Image.new(mode, size)

  /** What `__getitem__` returns: image, mask and integer label. */
  datatype Sample = Sample(image: Image, mask: Image, labelNum: nat)

  /** `os.path.join(root, target, "train" if train else "test")`. */
  function TargetRoot(root: seq<string>, target: string, train: bool): seq<string>
  {
    root + [target, if train then "train" else "test"]
  }

  // os.path.join(target_root, f"*/*{img_ext}")
  function GlobPattern(targetRoot: seq<string>, imgExt: string): string
  {
    Join(targetRoot + ["*/*" + imgExt])
  }

  /** `_get_label_from_path`: the second-to-last segment of the path, the
      directory the image sits in; an IndexError for a path with no
      separator. */
  function LabelFromPath(imgPath: string): (r: Result<string>)
    ensures r.Ok? <==> Sep in imgPath
    ensures r.Err? ==> r.error == IndexError
    ensures r.Ok? ==> Sep !in r.value
  {
    var elems := Split(imgPath);
    if |elems| < 2 then Err(IndexError) else Ok(elems[|elems| - 2])
  }

  /** The label of a path built from separator-free segments is the segment
      before the file name. */
  lemma LabelOfJoin(parts: seq<string>)
    requires |parts| >= 2 && Segments(parts)
    ensures LabelFromPath(Join(parts)) == Ok(parts[|parts| - 2])
  {
    SplitJoin(parts);
    LabelOfSplit(Join(parts), parts);
  }

  /** The label read off the pieces of a path. */
  lemma LabelOfSplit(imgPath: string, parts: seq<string>)
    requires Split(imgPath) == parts && |parts| >= 2
    ensures LabelFromPath(imgPath) == Ok(parts[|parts| - 2])
  {
  }

  /** The mask's file name: `name.split(img_ext)[0] + "_mask" + img_ext`. */
  function MaskFileName(name: string, imgExt: string): string
    requires imgExt != []
  {
    BeforeFirst(name, imgExt) + MaskSuffix + imgExt
  }

  /** `_get_mask_path`, as a value: segment -3 becomes "ground_truth" and the
      file name becomes the mask's file name. An IndexError when the path
      has fewer than three segments (assigning to index -3 comes first); a
      ValueError for an empty extension (`str.split("")`). */
  function MaskPath(imgPath: string, imgExt: string): (r: Result<string>)
    ensures r.Ok? <==> |Split(imgPath)| >= 3 && imgExt != []
    ensures r.Err? ==> (r.error == IndexError <==> |Split(imgPath)| < 3)
    ensures r.Err? ==> r.error.IndexError? || r.error.ValueError?
  {
    var elems := Split(imgPath);
    if |elems| < 3 then Err(IndexError)
    else if imgExt == [] then Err(ValueError("empty separator"))
    else Ok(Join(MaskParts(elems, imgExt)))
  }

  /** The segments of the mask path: segment -3 replaced by "ground_truth",
      the file name by the mask's. */
  function MaskParts(elems: seq<string>, imgExt: string): seq<string>
    requires |elems| >= 3 && imgExt != []
  {
    var n := |elems|;
    elems[..n - 3] + [GroundTruth, elems[n - 2], MaskFileName(elems[n - 1], imgExt)]
  }

  /** The mask path read off the pieces of the image path. */
  lemma MaskPathOfSplit(imgPath: string, elems: seq<string>, imgExt: string)
    requires Split(imgPath) == elems && |elems| >= 3 && imgExt != []
    ensures MaskPath(imgPath, imgExt) == Ok(Join(MaskParts(elems, imgExt)))
  {
  }

  /** `_get_mask_path` as the source runs it: split the path into a list,
      overwrite two of its elements in place, join it again. */
  method GetMaskPath(imgPath: string, imgExt: string) returns (r: Result<string>)
    ensures r == MaskPath(imgPath, imgExt)
  {
    var elems := Split(imgPath);
    var n := |elems|;
    if n < 3 {
      return Err(IndexError);
    }
    ghost var original := elems;
    elems := elems[n - 3 := GroundTruth];
    if imgExt == [] {
      return Err(ValueError("empty separator"));
    }
    elems := elems[n - 1 := BeforeFirst(elems[n - 1], imgExt)];
    elems := elems[n - 1 := elems[n - 1] + MaskSuffix + imgExt];
    assert elems == MaskParts(original, imgExt);
    return Ok(Join(elems));
  }

  /** The mask's file name holds no separator when the extension holds none. */
  lemma MaskFileNameSegment(name: string, imgExt: string)
    requires imgExt != [] && Sep !in name && Sep !in imgExt
    ensures Sep !in MaskFileName(name, imgExt)
  {
    var stem := BeforeFirst(name, imgExt);
    assert name == stem + name[|stem|..];
    assert Sep !in MaskSuffix;
  }

  /** Segment by segment, the mask path is the image path with segment -3
      replaced by "ground_truth" and the file name replaced by the mask's;
      every other segment is unchanged. This needs an extension without a
      separator: otherwise the new file name splits into several segments. */
  lemma MaskPathSegments(imgPath: string, imgExt: string)
    requires |Split(imgPath)| >= 3 && imgExt != [] && Sep !in imgExt
    ensures MaskPath(imgPath, imgExt).Ok?
    ensures var s := Split(imgPath);
            var m := Split(MaskPath(imgPath, imgExt).value);
            var n := |s|;
            && |m| == n
            && m[..n - 3] == s[..n - 3]
            && m[n - 3] == GroundTruth
            && m[n - 2] == s[n - 2]
            && m[n - 1] == MaskFileName(s[n - 1], imgExt)
  {
    var s := Split(imgPath);
    var n := |s|;
    var parts := MaskParts(s, imgExt);
    MaskPathOfSplit(imgPath, s, imgExt);
    MaskFileNameSegment(s[n - 1], imgExt);
    assert Sep !in GroundTruth;
    assert Segments(parts) by {
      forall i | 0 <= i < |parts|
        ensures Sep !in parts[i]
      {
        if i < n - 3 {
          assert parts[i] == s[i];
        }
      }
    }
    SplitJoin(parts);
    assert parts[..n - 3] == s[..n - 3];
  }

  /** The label derived from the mask path is the label derived from the
      image path. */
  lemma MaskPathKeepsLabel(imgPath: string, imgExt: string)
    requires |Split(imgPath)| >= 3 && imgExt != [] && Sep !in imgExt
    ensures MaskPath(imgPath, imgExt).Ok?
    ensures LabelFromPath(MaskPath(imgPath, imgExt).value) == LabelFromPath(imgPath)
  {
    MaskPathSegments(imgPath, imgExt);
  }

  /** The mask path of a path built from separator-free segments. */
  lemma MaskPathOfJoin(parts: seq<string>, imgExt: string)
    requires |parts| >= 3 && Segments(parts) && imgExt != []
    ensures MaskPath(Join(parts), imgExt) == Ok(Join(MaskParts(parts, imgExt)))
  {
    SplitJoin(parts);
    MaskPathOfSplit(Join(parts), parts, imgExt);
  }

  /** The segments of the mask path in the expected layout. */
  lemma MaskPartsOfLayout(root: seq<string>, target: string, split: string, defect: string,
                          stem: string, imgExt: string)
    requires imgExt != []
    requires forall i :: 0 <= i < |stem| ==> !OccursAt(stem + imgExt, imgExt, i)
    ensures MaskParts(root + [target, split, defect, stem + imgExt], imgExt)
         == root + [target, GroundTruth, defect, stem + MaskSuffix + imgExt]
  {
    var parts := root + [target, split, defect, stem + imgExt];
    var n := |parts|;
    BeforeFirstStem(stem, imgExt);
    assert parts[..n - 3] == root + [target];
  }

  /** For an image in the expected layout, whose extension occurs in its file
      name only at the end, the mask path is the sibling `ground_truth` tree
      with `_mask` inserted before the extension. */
  lemma MaskPathOfLayout(root: seq<string>, target: string, split: string, defect: string,
                         stem: string, imgExt: string)
    requires Segments(root + [target, split, defect, stem]) && Sep !in imgExt
    requires imgExt != []
    requires forall i :: 0 <= i < |stem| ==> !OccursAt(stem + imgExt, imgExt, i)
    ensures MaskPath(Join(root + [target, split, defect, stem + imgExt]), imgExt)
         == Ok(Join(root + [target, GroundTruth, defect, stem + MaskSuffix + imgExt]))
  {
    var dirs := root + [target, split, defect, stem];
    var parts := root + [target, split, defect, stem + imgExt];
    assert Segments(parts) by {
      forall i | 0 <= i < |parts|
        ensures Sep !in parts[i]
      {
        assert i < |parts| - 1 ==> parts[i] == dirs[i];
        assert i == |parts| - 1 ==> parts[i] == dirs[i] + imgExt;
      }
    }
    MaskPathOfJoin(parts, imgExt);
    MaskPartsOfLayout(root, target, split, defect, stem, imgExt);
  }

  /** `[self._get_label_from_path(path) for path in paths]`: the label of
      each path in order, or the IndexError of the first path without a
      separator. */
  method GetLabelList(paths: seq<string>) returns (r: Result<seq<string>>)
    ensures r.Ok? <==> forall p :: p in paths ==> Sep in p
    ensures r.Err? ==> r.error == IndexError
    ensures r.Ok? ==>
              && |r.value| == |paths|
              && forall j :: 0 <= j < |paths| ==> LabelFromPath(paths[j]) == Ok(r.value[j])
  {
    var labelList: seq<string> := [];
    var k := 0;
    while k < |paths|
      invariant k <= |paths| && |labelList| == k
      invariant forall j :: 0 <= j < k ==> LabelFromPath(paths[j]) == Ok(labelList[j])
    {
      var name :- LabelFromPath(paths[k]);
      labelList := labelList + [name];
      k := k + 1;
    }
    assert forall p :: p in paths ==> LabelFromPath(p).Ok?;
    return Ok(labelList);
  }

  /** `[self._get_mask_path(path, img_ext) for path in paths]`: the mask path
      of each path in order, or the error of the first path that has none.
      An empty extension already stops the first path, so the error is
      ValueError only when the first path is long enough and the extension
      is empty. */
  method GetMaskPathList(paths: seq<string>, imgExt: string) returns (r: Result<seq<string>>)
    ensures r.Ok? <==> forall p :: p in paths ==> MaskPath(p, imgExt).Ok?
    ensures r.Err? ==>
              && |paths| > 0
              && (r.error == IndexError <==> imgExt != [] || |Split(paths[0])| < 3)
              && (r.error != IndexError ==> r.error.ValueError?)
    ensures r.Ok? ==>
              && |r.value| == |paths|
              && forall j :: 0 <= j < |paths| ==> MaskPath(paths[j], imgExt) == Ok(r.value[j])
  {
    var maskPathList: seq<string> := [];
    var k := 0;
    while k < |paths|
      invariant k <= |paths| && |maskPathList| == k
      invariant forall j :: 0 <= j < k ==> MaskPath(paths[j], imgExt) == Ok(maskPathList[j])
    {
      assert k > 0 ==> imgExt != [] by {
        if k > 0 {
          assert MaskPath(paths[0], imgExt).Ok?;
        }
      }
      var maskPath :- GetMaskPath(paths[k], imgExt);
      maskPathList := maskPathList + [maskPath];
      k := k + 1;
    }
    assert forall p :: p in paths ==> MaskPath(p, imgExt).Ok?;
    return Ok(maskPathList);
  }

  /** An image that `glob` found one directory below the split root, in a
      directory that the split's listing names, has a label with an integer
      class. */
  lemma GlobbedLabelIsKnown(listing: seq<string>, labels: seq<string>, targetRoot: seq<string>,
                            dir: string, name: string)
    requires GoodFirst(listing, labels) && dir in listing
    requires Segments(targetRoot + [dir, name])
    ensures LabelFromPath(Join(targetRoot + [dir, name])) == Ok(dir)
    ensures dir in LabelNumMap(labels)
  {
    LabelOfJoin(targetRoot + [dir, name]);
    GoodFirstIsPermutation(listing, labels);
    assert dir in multiset(labels);
  }

  class MVTecADDataset {
    const root: seq<string>
    const target: string
    const labels: seq<string>
    const labelNumMap: map<string, nat>
    const imgPathList: seq<string>
    const labelList: seq<string>
    const maskPathList: seq<string>

    /** "good" has class 0's place, the map is the positional map of the
        labels, and the three per-sample lists run in parallel. */
    ghost predicate Valid()
    {
      && |labels| >= 1 && labels[0] == Good
      && labelNumMap == LabelNumMap(labels)
      && |labelList| == |imgPathList|
      && |maskPathList| == |imgPathList|
      && forall k :: 0 <= k < |imgPathList| ==> LabelFromPath(imgPathList[k]) == Ok(labelList[k])
    }

    /** Stores the fields, each once, as `__init__` does, given fields that
        `__init__` has derived consistently. */
    constructor Init(root: seq<string>, target: string, labels: seq<string>, labelNumMap: map<string, nat>,
                     imgPathList: seq<string>, labelList: seq<string>, maskPathList: seq<string>)
      requires |labels| >= 1 && labels[0] == Good
      requires labelNumMap == LabelNumMap(labels)
      requires |labelList| == |imgPathList| && |maskPathList| == |imgPathList|
      requires forall k :: 0 <= k < |imgPathList| ==> LabelFromPath(imgPathList[k]) == Ok(labelList[k])
      ensures Valid()
      ensures this.root == root && this.target == target && this.labels == labels
      ensures this.labelNumMap == labelNumMap && this.imgPathList == imgPathList
      ensures this.labelList == labelList && this.maskPathList == maskPathList
    {
      this.root := root;
      this.target := target;
      this.labels := labels;
      this.labelNumMap := labelNumMap;
      this.imgPathList := imgPathList;
      this.labelList := labelList;
      this.maskPathList := maskPathList;
    }

    /** `__init__`: check the category, pick the split, order the labels,
        enumerate the images, and derive each one's label and mask path. */
    static method Open(root: seq<string>, target: string, train: bool,
                       listdir: seq<string> -> Option<seq<string>>, glob: string -> seq<string>,
                       imgExt: string := ".png")
      returns (r: Result<MVTecADDataset>)
      ensures listdir(root).None? ==> r == Err(FileNotFoundError(Join(root)))
      ensures listdir(root).Some? && target !in listdir(root).value ==>
                r == Err(FileNotFoundError(Join(root + [target])))
      ensures var targetRoot := TargetRoot(root, target, train);
              listdir(root).Some? && target in listdir(root).value && listdir(targetRoot).None? ==>
                r == Err(FileNotFoundError(Join(targetRoot)))
      ensures var targetRoot := TargetRoot(root, target, train);
              listdir(root).Some? && target in listdir(root).value &&
              listdir(targetRoot).Some? && Good !in listdir(targetRoot).value ==>
                r.Err? && r.error.ValueError?
      ensures var targetRoot := TargetRoot(root, target, train);
              r.Ok? <==>
                && listdir(root).Some? && target in listdir(root).value
                && listdir(targetRoot).Some? && Good in listdir(targetRoot).value
                && forall p :: p in glob(GlobPattern(targetRoot, imgExt)) ==> MaskPath(p, imgExt).Ok?
      // A globbed path that fails: IndexError from the label of a path
      // without a separator, or from segment -3 of a short path; ValueError
      // from an empty extension, which already stops the first path.
      ensures var targetRoot := TargetRoot(root, target, train);
              var paths := glob(GlobPattern(targetRoot, imgExt));
              && listdir(root).Some? && target in listdir(root).value
              && listdir(targetRoot).Some? && Good in listdir(targetRoot).value
              && (exists p :: p in paths && MaskPath(p, imgExt).Err?) ==>
                && r.Err? && |paths| > 0
                && (r.error == IndexError <==>
                      imgExt != [] || (exists p :: p in paths && Sep !in p) || |Split(paths[0])| < 3)
                && (r.error != IndexError ==> r.error.ValueError?)
      ensures r.Ok? ==>
                var d := r.value;
                var targetRoot := TargetRoot(root, target, train);
                && d.Valid()
                && d.root == root && d.target == target
                && GoodFirst(listdir(targetRoot).value, d.labels)
                && d.imgPathList == glob(GlobPattern(targetRoot, imgExt))
                && forall k :: 0 <= k < |d.imgPathList| ==> MaskPath(d.imgPathList[k], imgExt) == Ok(d.maskPathList[k])
    {
      // _get_target_list
      var targetList := listdir(root);
      if targetList.None? {
        return Err(FileNotFoundError(Join(root)));
      }
      if target !in targetList.value {
        return Err(FileNotFoundError(Join(root + [target])));
      }
      var targetRoot := TargetRoot(root, target, train);

      // _get_labels
      var listing := listdir(targetRoot);
      if listing.None? {
        return Err(FileNotFoundError(Join(targetRoot)));
      }
      var labels :- GetLabels(listing.value);
      var labelNumMap := LabelNumMap(labels);

      var imgPathList := glob(GlobPattern(targetRoot, imgExt));

      var labelList :- GetLabelList(imgPathList);
      var maskPathList :- GetMaskPathList(imgPathList, imgExt);

      var d := new MVTecADDataset.Init(root, target, labels, labelNumMap, imgPathList, labelList, maskPathList);
      return Ok(d);
    }

    /** `__len__`: the number of samples, which every per-sample list has. */
    function Length(): (n: nat)
      requires Valid()
      ensures n == |labelList| == |maskPathList|
    {
      |imgPathList|
    }

    /** `_load_mask`: the mask file when it exists; otherwise a blank 'L'
        mask the size of the image for a "good" sample, and an error for any
        other label. */
    function LoadMask(idx: nat, img: Image, files: map<string, Size>): (r: Result<Image>)
      requires Valid() && idx < Length()
      ensures r.Ok? <==> maskPathList[idx] in files || labelList[idx] == Good
      ensures r.Err? ==> r.error == MaskNotFound(maskPathList[idx])
      ensures r.Ok? && r.value.Opened? ==>
                maskPathList[idx] in files && r.value.path == maskPathList[idx] && r.value.size == files[maskPathList[idx]]
      ensures r.Ok? && r.value.Blank? ==>
                && maskPathList[idx] !in files && labelList[idx] == Good
                && r.value.mode == MaskMode && r.value.size == img.size
      ensures maskPathList[idx] in files ==> r.Ok? && r.value.Opened?
    {
      var path := maskPathList[idx];
      var name := labelList[idx];
      if path !in files then
        if name == Good then Ok(Blank(MaskMode, img.size))
        else Err(MaskNotFound(path))
      else
        Ok(Opened(path, files[path]))
    }

    /** `__getitem__` without the user transforms: open the image, load its
        mask, and look up the integer class of its label. */
    function GetItem(idx: nat, files: map<string, Size>): (r: Result<Sample>)
      requires Valid() && idx < Length()
      ensures r.Ok? <==>
                && imgPathList[idx] in files
                && (maskPathList[idx] in files || labelList[idx] == Good)
                && labelList[idx] in labelNumMap
      ensures imgPathList[idx] !in files ==> r == Err(FileNotFoundError(imgPathList[idx]))
      ensures imgPathList[idx] in files && maskPathList[idx] !in files && labelList[idx] != Good ==>
                r == Err(MaskNotFound(maskPathList[idx]))
      ensures imgPathList[idx] in files && (maskPathList[idx] in files || labelList[idx] == Good) &&
              labelList[idx] !in labelNumMap ==>
                r == Err(KeyError(labelList[idx]))
      ensures r.Ok? ==> r.value.image == Opened(imgPathList[idx], files[imgPathList[idx]])
      ensures r.Ok? ==> r.value.mask == LoadMask(idx, r.value.image, files).value
      ensures r.Ok? && maskPathList[idx] in files ==>
                r.value.mask == Opened(maskPathList[idx], files[maskPathList[idx]])
      ensures r.Ok? && maskPathList[idx] !in files ==> r.value.mask == Blank(MaskMode, r.value.image.size)
      ensures r.Ok? ==> r.value.labelNum == labelNumMap[labelList[idx]]
      ensures r.Ok? ==> r.value.labelNum < |labels| && labels[r.value.labelNum] == labelList[idx]
      ensures r.Ok? && r.value.mask.Blank? ==> r.value.mask.size == r.value.image.size
      ensures r.Ok? && labelList[idx] == Good && Good !in labels[1..] ==> r.value.labelNum == 0
    {
      var imgPath := imgPathList[idx];
      if imgPath !in files then Err(FileNotFoundError(imgPath))
      else
        var img := Opened(imgPath, files[imgPath]);
        match LoadMask(idx, img, files)
        case Err(e) => Err(e)
        case Ok(mask) =>
          var name := labelList[idx];
          if name !in labelNumMap then Err(KeyError(name))
          else
            LabelNumMapAt(labels, 0);
            Ok(Sample(img, mask, labelNumMap[name]))
    }
  }
}
