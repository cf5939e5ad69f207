/**
  The pair checker: the stems of the image files and of the annotation files,
  the two set differences and the paired count it reports, its exit verdict,
  and `format_examples`, which lists a sorted, truncated preview of a set.
 */
module Pairs {
  import opened Text
  import opened Lex
  import opened Voc

  /** A regular file whose suffix, lower-cased, is one of the image extensions. */
  predicate IsImageFile(e: DirEntry) {
    e.isFile && IsImageSuffix(e.suffix)
  }

  /** A regular file whose suffix, lower-cased, is ".xml". */
  predicate IsXmlFile(e: DirEntry) {
    e.isFile && IsXmlSuffix(e.suffix)
  }

  /**
    The stems of the listing's entries that `keep` accepts: a stem is in the
    set exactly when some accepted entry has it.
   */
  function StemsWhere(listing: seq<DirEntry>, keep: DirEntry -> bool): (stems: set<string>)
    ensures forall s :: s in stems <==> exists k :: 0 <= k < |listing| && keep(listing[k]) && listing[k].stem == s
    decreases |listing|
  {
    if |listing| == 0 then {}
    else
      var rest := StemsWhere(listing[1..], keep);
      var here: set<string> := if keep(listing[0]) then {listing[0].stem} else {};
      assert forall s :: s in rest <==> exists k :: 1 <= k < |listing| && keep(listing[k]) && listing[k].stem == s by {
        forall s | s in rest
          ensures exists k :: 1 <= k < |listing| && keep(listing[k]) && listing[k].stem == s
        {
          var j :| 0 <= j < |listing[1..]| && keep(listing[1..][j]) && listing[1..][j].stem == s;
          assert listing[j + 1] == listing[1..][j];
        }
        forall s | exists k :: 1 <= k < |listing| && keep(listing[k]) && listing[k].stem == s
          ensures s in rest
        {
          var k :| 1 <= k < |listing| && keep(listing[k]) && listing[k].stem == s;
          assert listing[1..][k - 1] == listing[k];
        }
      }
      here + rest
  }

  /** The stems of the image files in the image directory: a stem is listed exactly when some image file has it. */
  function ImageStems(listing: seq<DirEntry>): (stems: set<string>)
    ensures forall s :: s in stems <==>
              exists k :: 0 <= k < |listing| && listing[k].isFile && IsImageSuffix(listing[k].suffix) && listing[k].stem == s
  {
    StemsWhere(listing, IsImageFile)
  }

  /** The stems of the annotation files: a stem is listed exactly when some ".xml" file has it, in any letter case. */
  function XmlStems(listing: seq<DirEntry>): (stems: set<string>)
    ensures forall s :: s in stems <==>
              exists k :: 0 <= k < |listing| && listing[k].isFile && IsXmlSuffix(listing[k].suffix) && listing[k].stem == s
  {
    StemsWhere(listing, IsXmlFile)
  }

  /**
    Changing the letter case of one entry's suffix changes neither stem set:
    membership depends on the lower-cased suffix only.
   */
  lemma SuffixCaseIsIgnored(listing: seq<DirEntry>, k: nat, suffix: string)
    requires k < |listing|
    requires Lower(suffix) == Lower(listing[k].suffix)
    ensures ImageStems(listing[k := listing[k].(suffix := suffix)]) == ImageStems(listing)
    ensures XmlStems(listing[k := listing[k].(suffix := suffix)]) == XmlStems(listing)
  {
    var changed := listing[k := listing[k].(suffix := suffix)];
    assert forall j :: 0 <= j < |listing| ==>
             IsImageFile(changed[j]) == IsImageFile(listing[j]) && IsXmlFile(changed[j]) == IsXmlFile(listing[j])
             && changed[j].stem == listing[j].stem;
  }

  /** An image file contributes its stem; a non-file or any other suffix contributes nothing by itself. */
  lemma ImageStemMembership(listing: seq<DirEntry>, k: nat)
    requires k < |listing|
    ensures IsImageFile(listing[k]) ==> listing[k].stem in ImageStems(listing)
    ensures IsXmlFile(listing[k]) ==> listing[k].stem in XmlStems(listing)
  {
  }

  /** What the pair checker prints: the three counts and the two sets of unmatched stems. */
  datatype Report = Report(
    imageCount: nat,
    xmlCount: nat,
    pairedCount: nat,
    missingXml: set<string>,
    missingImg: set<string>)

  /** For disjoint sets the size of the union is the sum of the sizes. */
  lemma {:induction false} DisjointUnionSize(a: set<string>, b: set<string>)
    requires a !! b
    ensures |a + b| == |a| + |b|
    decreases |a|
  {
    if a != {} {
      var x :| x in a;
      DisjointUnionSize(a - {x}, b);
      assert (a - {x}) + b == (a + b) - {x};
    } else {
      assert a + b == b;
    }
  }

  /**
    The two differences are disjoint, neither meets the paired
    stems, and each side's count is the paired count plus its unmatched stems.
   */
  function CheckStems(imageStems: set<string>, xmlStems: set<string>): (r: Report)
    ensures r.missingXml == imageStems - xmlStems && r.missingImg == xmlStems - imageStems
    ensures r.missingXml !! r.missingImg
    ensures r.missingXml !! (imageStems * xmlStems) && r.missingImg !! (imageStems * xmlStems)
    ensures r.imageCount == r.pairedCount + |r.missingXml|
    ensures r.xmlCount == r.pairedCount + |r.missingImg|
    ensures r.pairedCount == |imageStems * xmlStems|
  {
    var paired := imageStems * xmlStems;
    var missingXml := imageStems - xmlStems;
    var missingImg := xmlStems - imageStems;
    assert imageStems == paired + missingXml;
    assert xmlStems == paired + missingImg;
    DisjointUnionSize(paired, missingXml);
    DisjointUnionSize(paired, missingImg);
    Report(|imageStems|, |xmlStems|, |paired|, missingXml, missingImg)
  }

  /** The exit status: 0 when nothing is unmatched, 1 otherwise. */
  function Verdict(r: Report): (code: int)
    ensures code == 0 || code == 1
    ensures code == 1 <==> exists s :: s in r.missingXml || s in r.missingImg
  {
    if r.missingXml == {} && r.missingImg == {} then 0 else 1
  }

  lemma NoDifferencesMeansEqual(a: set<string>, b: set<string>)
    ensures (a - b == {} && b - a == {}) <==> a == b
  {
    if a - b == {} && b - a == {} {
      assert forall x :: x in a ==> x in b by {
        forall x | x in a ensures x in b {
          assert x !in a - b;
        }
      }
      assert forall x :: x in b ==> x in a by {
        forall x | x in b ensures x in a {
          assert x !in b - a;
        }
      }
    }
  }

  /** `main` once both directories exist. */
  function CheckPairs(images: seq<DirEntry>, annotations: seq<DirEntry>): (code: int)
    ensures code == 0 <==> ImageStems(images) == XmlStems(annotations)
    ensures code == 1 <==> ImageStems(images) != XmlStems(annotations)
  {
    var r := CheckStems(ImageStems(images), XmlStems(annotations));
    NoDifferencesMeansEqual(ImageStems(images), XmlStems(annotations));
    Verdict(r)
  }

  /** Every image file has an annotation file with its stem, and the other way round. */
  predicate AllMatched(images: seq<DirEntry>, annotations: seq<DirEntry>) {
    && (forall i :: 0 <= i < |images| && IsImageFile(images[i]) ==> images[i].stem in XmlStems(annotations))
    && (forall j :: 0 <= j < |annotations| && IsXmlFile(annotations[j]) ==> annotations[j].stem in ImageStems(images))
  }

  lemma SameStemsMatched(images: seq<DirEntry>, annotations: seq<DirEntry>)
    requires ImageStems(images) == XmlStems(annotations)
    ensures AllMatched(images, annotations)
  {
    forall i | 0 <= i < |images| && IsImageFile(images[i])
      ensures images[i].stem in XmlStems(annotations)
    {
      assert images[i].stem in ImageStems(images);
    }
    forall j | 0 <= j < |annotations| && IsXmlFile(annotations[j])
      ensures annotations[j].stem in ImageStems(images)
    {
      assert annotations[j].stem in XmlStems(annotations);
    }
  }

  lemma MatchedSameStems(images: seq<DirEntry>, annotations: seq<DirEntry>)
    requires AllMatched(images, annotations)
    ensures ImageStems(images) == XmlStems(annotations)
  {
    forall s | s in ImageStems(images)
      ensures s in XmlStems(annotations)
    {
      var i :| 0 <= i < |images| && IsImageFile(images[i]) && images[i].stem == s;
    }
    forall s | s in XmlStems(annotations)
      ensures s in ImageStems(images)
    {
      var j :| 0 <= j < |annotations| && IsXmlFile(annotations[j]) && annotations[j].stem == s;
    }
  }

  /**
    The verdict is 0 exactly when every image file has an annotation file
    with the same stem and every annotation file an image file.
   */
  lemma CheckPairsMeansMatched(images: seq<DirEntry>, annotations: seq<DirEntry>)
    ensures CheckPairs(images, annotations) == 0 <==> AllMatched(images, annotations)
  {
    if CheckPairs(images, annotations) == 0 {
      SameStemsMatched(images, annotations);
    }
    if AllMatched(images, annotations) {
      MatchedSameStems(images, annotations);
    }
  }

  /** Where Python's `items[:m]` ends on a list of length `n`, a negative `m` counting from the end. */
  function SliceEnd(n: nat, m: int): (e: nat)
    ensures e <= n
    ensures 0 <= m <= n ==> e == m
    ensures m > n ==> e == n
    ensures m < 0 ==> e == if n + m > 0 then n + m else 0
  {
    if m >= 0 then (if m <= n then m else n)
    else if n + m > 0 then n + m else 0
  }

  /**
    The items `format_examples` shows. They are in ascending order,
    drawn from `items`, and no item left out is below any item shown.
   */
  function Shown(items: seq<string>, maxItems: int): (shown: seq<string>)
    ensures |shown| == SliceEnd(|items|, maxItems)
    ensures Sorted(shown)
    ensures multiset(shown) <= multiset(items)
    ensures forall x, i :: x in multiset(items) - multiset(shown) && 0 <= i < |shown| ==> Le(shown[i], x)
  {
    var sorted := Sort(items);
    var n := SliceEnd(|items|, maxItems);
    PrefixBoundsRest(sorted, n);
    sorted[..n]
  }

  /** A prefix of a sorted list is sorted, and each of its items is below every item left out. */
  lemma PrefixBoundsRest(sorted: seq<string>, n: nat)
    requires Sorted(sorted) && n <= |sorted|
    ensures Sorted(sorted[..n])
    ensures multiset(sorted[..n]) <= multiset(sorted)
    ensures forall x, i :: x in multiset(sorted) - multiset(sorted[..n]) && 0 <= i < n ==> Le(sorted[..n][i], x)
  {
    assert sorted == sorted[..n] + sorted[n..];
    forall x, i | x in multiset(sorted) - multiset(sorted[..n]) && 0 <= i < n
      ensures Le(sorted[..n][i], x)
    {
      assert x in multiset(sorted[n..]);
      var j :| 0 <= j < |sorted[n..]| && sorted[n..][j] == x;
      assert sorted[n + j] == x;
    }
  }

  /** The tail that reports how many items were left out. */
  function MoreSuffix(hidden: int): string {
    " ... (+" + IntToDecimal(hidden) + " more)"
  }

  /**
    `format_examples`: "(none)" for no items; otherwise the shown items joined by
    ", ", followed by the count of the items left out when there are any.
   */
  function FormatExamples(items: seq<string>, maxItems: int): (r: string)
    ensures |items| == 0 ==> r == "(none)"
    ensures 0 < |items| <= maxItems ==> r == Join(", ", Sort(items))
    ensures |items| > 0 && |items| > maxItems ==>
              r == Join(", ", Shown(items, maxItems)) + MoreSuffix(|items| - maxItems)
  {
    if |items| == 0 then "(none)"
    else if |items| <= maxItems then
      ShownAll(items, maxItems);
      Join(", ", Shown(items, maxItems))
    else Join(", ", Shown(items, maxItems)) + MoreSuffix(|items| - maxItems)
  }

  /** When nothing is cut off, every item is shown, in sorted order. */
  lemma ShownAll(items: seq<string>, maxItems: int)
    requires |items| <= maxItems
    ensures Shown(items, maxItems) == Sort(items)
  {
    assert Sort(items)[..|items|] == Sort(items);
  }

  /** The preview depends only on which items there are, not on their order. */
  lemma FormatDependsOnlyOnContents(a: seq<string>, b: seq<string>, maxItems: int)
    requires multiset(a) == multiset(b)
    ensures FormatExamples(a, maxItems) == FormatExamples(b, maxItems)
  {
    SortDependsOnlyOnContents(a, b);
    SameContentsSameLength(a, b);
    ShownOfSameSort(a, b, maxItems);
    FormatOfSameShown(a, b, maxItems);
  }

  lemma SameContentsSameLength(a: seq<string>, b: seq<string>)
    requires multiset(a) == multiset(b)
    ensures |a| == |b|
  {
    assert |a| == |multiset(a)|;
  }

  /** Lists with the same length and the same sorted order show the same items. */
  lemma ShownOfSameSort(a: seq<string>, b: seq<string>, maxItems: int)
    requires |a| == |b| && Sort(a) == Sort(b)
    ensures Shown(a, maxItems) == Shown(b, maxItems)
  {
  }

  /** The preview is fixed by the number of items and the items shown. */
  lemma FormatOfSameShown(a: seq<string>, b: seq<string>, maxItems: int)
    requires |a| == |b| && Shown(a, maxItems) == Shown(b, maxItems)
    ensures FormatExamples(a, maxItems) == FormatExamples(b, maxItems)
  {
    if |a| > 0 {
      var more := if |a| <= maxItems then "" else MoreSuffix(|a| - maxItems);
      FormatOfShown(a, maxItems);
      FormatOfShown(b, maxItems);
      SamePieces(FormatExamples(a, maxItems), FormatExamples(b, maxItems), Shown(a, maxItems), Shown(b, maxItems), more);
    }
  }

  lemma SamePieces(fa: string, fb: string, sa: seq<string>, sb: seq<string>, more: string)
    requires fa == Join(", ", sa) + more && fb == Join(", ", sb) + more && sa == sb
    ensures fa == fb
  {
  }

  /** A non-empty preview is the shown items joined, with the count of the rest when there is one. */
  lemma FormatOfShown(items: seq<string>, maxItems: int)
    requires |items| > 0
    ensures FormatExamples(items, maxItems)
            == Join(", ", Shown(items, maxItems)) + (if |items| <= maxItems then "" else MoreSuffix(|items| - maxItems))
  {
    var shown := Shown(items, maxItems);
    if |items| <= maxItems {
      assert Join(", ", shown) + "" == Join(", ", shown);
    }
  }

  /** A sequence without repeats holds each of its elements exactly once. */
  lemma {:induction false} DistinctMultiplicity(a: seq<string>, x: string)
    requires forall i, j :: 0 <= i < j < |a| ==> a[i] != a[j]
    ensures multiset(a)[x] == if x in a then 1 else 0
    decreases |a|
  {
    if |a| > 0 {
      DistinctMultiplicity(a[1..], x);
      assert a == [a[0]] + a[1..];
      assert a[0] !in a[1..];
    }
  }

  /**
    `format_examples` is called on a set, which Python enumerates in an
    order of its own choosing: every enumeration gives the same text.
   */
  lemma FormatOfSetIsDeterministic(a: seq<string>, b: seq<string>, maxItems: int)
    requires forall i, j :: 0 <= i < j < |a| ==> a[i] != a[j]
    requires forall i, j :: 0 <= i < j < |b| ==> b[i] != b[j]
    requires forall x :: x in a <==> x in b
    ensures FormatExamples(a, maxItems) == FormatExamples(b, maxItems)
  {
    forall x
      ensures multiset(a)[x] == multiset(b)[x]
    {
      DistinctMultiplicity(a, x);
      DistinctMultiplicity(b, x);
    }
    assert multiset(a) == multiset(b);
    FormatDependsOnlyOnContents(a, b, maxItems);
  }

  /** With the default of ten, at most the ten smallest items are shown. */
  lemma DefaultShowsAtMostTen(items: seq<string>)
    ensures |Shown(items, 10)| <= 10
    ensures |items| >= 10 ==> |Shown(items, 10)| == 10
  {
  }
}
