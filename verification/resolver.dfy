/**
  The converter's `find_image_file`: try `stem + ext` for each image extension
  in order, then fall back to the first listing entry that is a file with the
  same stem and an image extension in any letter case.
 */
module Resolver {
  import opened Wrappers
  import opened Text
  import opened Voc

  /** Whether a path of that name exists in the image directory: some entry, file or directory, has the name. */
  predicate NameExists(listing: seq<DirEntry>, name: string) {
    exists k :: 0 <= k < |listing| && Name(listing[k]) == name
  }

  /** The fallback scan's test for one entry. */
  predicate ScanMatch(e: DirEntry, stem: string) {
    e.isFile && e.stem == stem && IsImageSuffix(e.suffix)
  }

  /** The first extension index at or after `from` whose `stem + ext` exists, or `|ImageExts|`. */
  function FirstExistingExt(listing: seq<DirEntry>, stem: string, from: nat): (i: nat)
    requires from <= |ImageExts|
    ensures from <= i <= |ImageExts|
    ensures i < |ImageExts| ==> NameExists(listing, stem + ImageExts[i])
    ensures forall j :: from <= j < i ==> !NameExists(listing, stem + ImageExts[j])
    decreases |ImageExts| - from
  {
    if from == |ImageExts| then from
    else if NameExists(listing, stem + ImageExts[from]) then from
    else FirstExistingExt(listing, stem, from + 1)
  }

  /** The first listing index at or after `from` that the fallback scan accepts, or `|listing|`. */
  function FirstScanMatch(listing: seq<DirEntry>, stem: string, from: nat): (k: nat)
    requires from <= |listing|
    ensures from <= k <= |listing|
    ensures k < |listing| ==> ScanMatch(listing[k], stem)
    ensures forall j :: from <= j < k ==> !ScanMatch(listing[j], stem)
    decreases |listing| - from
  {
    if from == |listing| then from
    else if ScanMatch(listing[from], stem) then from
    else FirstScanMatch(listing, stem, from + 1)
  }

  /**
    `find_image_file(images_dir, stem)`, returning the found file's name.
    The answer is the first existing `stem + ext` in extension order; failing
    that, the name of the first entry the scan accepts; failing both, `None`.
   */
  function FindImageFile(listing: seq<DirEntry>, stem: string): (r: Option<string>)
    ensures r.Some? ==> NameExists(listing, r.value)
    ensures (exists i :: 0 <= i < |ImageExts| && NameExists(listing, stem + ImageExts[i])) ==>
              exists i :: 0 <= i < |ImageExts| && r == Some(stem + ImageExts[i])
                && forall j :: 0 <= j < i ==> !NameExists(listing, stem + ImageExts[j])
    ensures r.None? <==>
              (forall i :: 0 <= i < |ImageExts| ==> !NameExists(listing, stem + ImageExts[i]))
              && (forall k :: 0 <= k < |listing| ==> !ScanMatch(listing[k], stem))
  {
    var i := FirstExistingExt(listing, stem, 0);
    if i < |ImageExts| then Some(stem + ImageExts[i])
    else
      var k := FirstScanMatch(listing, stem, 0);
      if k < |listing| then Some(Name(listing[k])) else None
  }

  /**
    When no lower-case `stem + ext` exists, an image file whose extension
    differs only in letter case is still found, and it is the first such entry.
   */
  lemma MixedCaseExtensionFound(listing: seq<DirEntry>, stem: string, k: nat)
    requires k < |listing| && ScanMatch(listing[k], stem)
    requires forall j :: 0 <= j < k ==> !ScanMatch(listing[j], stem)
    requires forall i :: 0 <= i < |ImageExts| ==> !NameExists(listing, stem + ImageExts[i])
    ensures FindImageFile(listing, stem) == Some(Name(listing[k]))
  {
    var i := FirstExistingExt(listing, stem, 0);
    var m := FirstScanMatch(listing, stem, 0);
    assert i == |ImageExts|;
    assert m == k;
  }
}
