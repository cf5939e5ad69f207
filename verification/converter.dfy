/**
  The body of the converter's `main`: a fold over the sorted annotation files
  that threads the image and annotation id counters, the skip counters, and
  the image and annotation lists of the COCO document.
 */
module Converter {
  import opened Wrappers
  import opened Text
  import opened Voc
  import opened Labels
  import opened Geometry
  import opened Resolver

  /** What stops a conversion run: the handled parse error, or an exception nothing catches. */
  datatype ConvError =
    | ParseFailed(file: string)
    | MissingField(field: string)
    | BadNumber(text: string)
    | NoImageSize(file: string)
    | UnknownLabel(rawName: string, file: string)

  /** Pixel dimensions of an image file, as the PIL fallback reads them. */
  datatype Dims = Dims(width: int, height: int)

  /** An entry of the output's `images` list. */
  datatype Image = Image(id: int, fileName: string, width: int, height: int)

  /** An entry of the output's `annotations` list; `area` is `w * h`. */
  datatype Annotation = Annotation(id: int, imageId: int, categoryId: int, bbox: Box, area: int, iscrowd: int)

  /**
    The run's inputs besides the annotation files: the image directory's
    listing, the sizes PIL can read (a missing name is a PIL failure), and
    the `--allow-unknown` flag.
   */
  datatype Env = Env(images: seq<DirEntry>, pixelSizes: map<string, Dims>, allowUnknown: bool)

  /** The variables `main` threads through its loop. */
  datatype ConvState = ConvState(
    imgId: int,
    annId: int,
    skippedUnknown: nat,
    missingImages: nat,
    images: seq<Image>,
    annotations: seq<Annotation>)

  /** The values `main` starts from. */
  const Start: ConvState := ConvState(1, 1, 0, 0, [], [])

  /** The output document with the two summary counters the run reports. */
  datatype Coco = Coco(
    images: seq<Image>,
    annotations: seq<Annotation>,
    categories: seq<Category>,
    skippedUnknown: nat,
    missingImages: nat)

  /** The four coordinates read from `<bndbox>`. */
  datatype Coords = Coords(xmin: int, ymin: int, xmax: int, ymax: int)

  /** What happens to one `<object>`. */
  datatype ObjectOutcome =
    | Emit(categoryId: int, bbox: Box, iscrowd: int)
    | SkipUnknown
    | SkipNoBox
    | SkipDegenerate
    | Fatal(error: ConvError)

  /**
    `parse_int(text, field)`: a missing text raises, so does text that
    `float()` rejects; otherwise the value truncated toward zero.
   */
  function ParseIntField(text: Option<string>, field: string): (r: Result<int, ConvError>)
    ensures text.None? ==> r == Failure(MissingField(field))
    ensures text.Some? && ParseFloatTrunc(text.value).None? ==> r == Failure(BadNumber(text.value))
    ensures text.Some? && ParseFloatTrunc(text.value).Some? ==> r == Success(ParseFloatTrunc(text.value).value)
    ensures r.Failure? ==> r.error.MissingField? || r.error.BadNumber?
  {
    match text
    case None => Failure(MissingField(field))
    case Some(t) =>
      match ParseFloatTrunc(t)
      case None => Failure(BadNumber(t))
      case Some(v) => Success(v)
  }

  /** One integer field of an element: its child's stripped text read by `parse_int`. */
  function ReadField(e: Option<Elem>, field: string): (r: Result<int, ConvError>)
    ensures e.None? || e.value.text.None? ==> r.Failure? && r.error == MissingField(field)
    ensures r.Failure? ==> r.error.MissingField? || r.error.BadNumber?
  {
    ParseIntField(GetText(e, None), field)
  }

  /**
    The four coordinates of a `<bndbox>`, read in the order xmin, ymin, xmax,
    ymax: the box reads exactly when all four do, its coordinates are the four
    values, and the first field that fails gives the error.
   */
  function ReadCoords(b: BndBox): (r: Result<Coords, ConvError>)
    ensures r.Success? <==>
              && ReadField(b.xmin, "bndbox/xmin").Success? && ReadField(b.ymin, "bndbox/ymin").Success?
              && ReadField(b.xmax, "bndbox/xmax").Success? && ReadField(b.ymax, "bndbox/ymax").Success?
    ensures r.Success? ==>
              r.value == Coords(ReadField(b.xmin, "bndbox/xmin").value, ReadField(b.ymin, "bndbox/ymin").value,
                                ReadField(b.xmax, "bndbox/xmax").value, ReadField(b.ymax, "bndbox/ymax").value)
    ensures ReadField(b.xmin, "bndbox/xmin").Failure? ==>
              r.Failure? && r.error == ReadField(b.xmin, "bndbox/xmin").error
    ensures ReadField(b.xmin, "bndbox/xmin").Success? && ReadField(b.ymin, "bndbox/ymin").Failure? ==>
              r.Failure? && r.error == ReadField(b.ymin, "bndbox/ymin").error
    ensures ReadField(b.xmin, "bndbox/xmin").Success? && ReadField(b.ymin, "bndbox/ymin").Success?
            && ReadField(b.xmax, "bndbox/xmax").Failure? ==>
              r.Failure? && r.error == ReadField(b.xmax, "bndbox/xmax").error
    ensures r.Failure? ==> r.error.MissingField? || r.error.BadNumber?
  {
    var xmin :- ReadField(b.xmin, "bndbox/xmin");
    var ymin :- ReadField(b.ymin, "bndbox/ymin");
    var xmax :- ReadField(b.xmax, "bndbox/xmax");
    var ymax :- ReadField(b.ymax, "bndbox/ymax");
    Success(Coords(xmin, ymin, xmax, ymax))
  }

  /**
    `iscrowd` is 1 exactly when `<difficult>` is present with
    text that strips to "1"; a missing element reads as "0".
   */
  function CrowdFlag(difficult: Option<Elem>): (r: int)
    ensures r == 0 || r == 1
    ensures r == 1 <==> difficult.Some? && difficult.value.text.Some? && Strip(difficult.value.text.value) == "1"
  {
    var d := GetText(difficult, Some("0")).value;
    assert Strip(d) == "1" <==>
           difficult.Some? && difficult.value.text.Some? && Strip(difficult.value.text.value) == "1" by {
      if difficult.Some? && difficult.value.text.Some? {
        StripIdempotent(difficult.value.text.value);
      } else {
        StripOfPadded("", "0", "");
        assert "" + "0" + "" == "0";
      }
    }
    if Strip(d) == "1" then 1 else 0
  }

  /**
    The object loop's body for one object: unknown label (fatal unless allowed), then
    a missing `<bndbox>` (skipped), then the coordinates (a bad one is fatal),
    then a degenerate box (skipped); otherwise an annotation to emit.
   */
  function ConvertObject(obj: VocObject, file: string, width: int, height: int, allowUnknown: bool): (o: ObjectOutcome)
    ensures CategoryOf(obj.name).None? ==>
              o == (if allowUnknown then SkipUnknown else Fatal(UnknownLabel(RawLabel(obj.name), file)))
    ensures o.SkipUnknown? ==> CategoryOf(obj.name).None? && allowUnknown
    ensures o.Fatal? ==> !o.error.ParseFailed?
    ensures CategoryOf(obj.name).Some? && obj.bndbox.None? ==> o == SkipNoBox
    ensures CategoryOf(obj.name).Some? && obj.bndbox.Some? && ReadCoords(obj.bndbox.value).Failure? ==>
              o == Fatal(ReadCoords(obj.bndbox.value).error)
    ensures o.SkipDegenerate? ==>
              obj.bndbox.Some? && ReadCoords(obj.bndbox.value).Success?
              && var c := ReadCoords(obj.bndbox.value).value;
                 NormalizeBox(c.xmin, c.ymin, c.xmax, c.ymax, width, height).None?
    ensures o.Emit? ==>
              && CategoryOf(obj.name) == Some(o.categoryId)
              && InsideImage(o.bbox, width, height)
              && o.iscrowd == CrowdFlag(obj.difficult)
              && obj.bndbox.Some? && ReadCoords(obj.bndbox.value).Success?
              && var c := ReadCoords(obj.bndbox.value).value;
                 NormalizeBox(c.xmin, c.ymin, c.xmax, c.ymax, width, height) == Some(o.bbox)
    ensures o.Emit? <==> Wanted(obj, width, height).Some?
    ensures o.Emit? ==> Wanted(obj, width, height).value == Instance(o.categoryId, o.bbox, o.iscrowd)
    ensures o.Fatal? <==> !Survives(obj, allowUnknown)
    ensures o.Fatal? ==> o.error == ObjectError(obj, file, allowUnknown)
    ensures o.SkipDegenerate? <==>
              && CategoryOf(obj.name).Some? && obj.bndbox.Some? && ReadCoords(obj.bndbox.value).Success?
              && var c := ReadCoords(obj.bndbox.value).value;
                 NormalizeBox(c.xmin, c.ymin, c.xmax, c.ymax, width, height).None?
  {
    match CategoryOf(obj.name)
    case None =>
      UnknownReference(obj, file, width, height, allowUnknown);
      if allowUnknown then SkipUnknown else Fatal(UnknownLabel(RawLabel(obj.name), file))
    case Some(cat) =>
      match obj.bndbox
      case None =>
        NoBoxReference(obj, width, height, allowUnknown);
        SkipNoBox
      case Some(b) =>
        match ReadCoords(b)
        case Failure(e) =>
          UnreadableReference(obj, file, width, height, allowUnknown);
          Fatal(e)
        case Success(c) =>
          match NormalizeBox(c.xmin, c.ymin, c.xmax, c.ymax, width, height)
          case None =>
            ReadableReference(obj, width, height, allowUnknown);
            SkipDegenerate
          case Some(box) =>
            ReadableReference(obj, width, height, allowUnknown);
            Emit(cat, box, CrowdFlag(obj.difficult))
  }

  /** An unknown label gives no annotation, and stops the run exactly when unknown labels are not allowed. */
  lemma UnknownReference(obj: VocObject, file: string, width: int, height: int, allowUnknown: bool)
    requires CategoryOf(obj.name).None?
    ensures Wanted(obj, width, height).None?
    ensures Survives(obj, allowUnknown) <==> allowUnknown
    ensures !allowUnknown ==> ObjectError(obj, file, allowUnknown) == UnknownLabel(RawLabel(obj.name), file)
  {
  }

  /** A known label without `<bndbox>` gives no annotation and lets the run go on. */
  lemma NoBoxReference(obj: VocObject, width: int, height: int, allowUnknown: bool)
    requires CategoryOf(obj.name).Some? && obj.bndbox.None?
    ensures Wanted(obj, width, height).None?
    ensures Survives(obj, allowUnknown)
  {
  }

  /** A known label whose coordinates do not read gives no annotation and stops the run with their error. */
  lemma UnreadableReference(obj: VocObject, file: string, width: int, height: int, allowUnknown: bool)
    requires CategoryOf(obj.name).Some? && obj.bndbox.Some? && ReadCoords(obj.bndbox.value).Failure?
    ensures Wanted(obj, width, height).None?
    ensures !Survives(obj, allowUnknown)
    ensures ObjectError(obj, file, allowUnknown) == ReadCoords(obj.bndbox.value).error
  {
  }

  /** A known label whose coordinates read lets the run go on, and is annotated exactly when its box survives. */
  lemma ReadableReference(obj: VocObject, width: int, height: int, allowUnknown: bool)
    requires CategoryOf(obj.name).Some? && obj.bndbox.Some? && ReadCoords(obj.bndbox.value).Success?
    ensures Survives(obj, allowUnknown)
    ensures var c := ReadCoords(obj.bndbox.value).value;
            var box := NormalizeBox(c.xmin, c.ymin, c.xmax, c.ymax, width, height);
            && (Wanted(obj, width, height).Some? <==> box.Some?)
            && (box.Some? ==> Wanted(obj, width, height).value
                              == Instance(CategoryOf(obj.name).value, box.value, CrowdFlag(obj.difficult)))
  {
    var c := ReadCoords(obj.bndbox.value).value;
    WantedOfReadable(obj, width, height, CategoryOf(obj.name).value, c,
                     NormalizeBox(c.xmin, c.ymin, c.xmax, c.ymax, width, height));
  }

  lemma WantedOfReadable(obj: VocObject, width: int, height: int, cat: int, c: Coords, box: Option<Box>)
    requires CategoryOf(obj.name) == Some(cat) && obj.bndbox.Some?
    requires ReadCoords(obj.bndbox.value).Success? && ReadCoords(obj.bndbox.value).value == c
    requires NormalizeBox(c.xmin, c.ymin, c.xmax, c.ymax, width, height) == box
    ensures Wanted(obj, width, height) == if box.Some? then Some(Instance(cat, box.value, CrowdFlag(obj.difficult))) else None
  {
  }

  /** What an annotation records about its object, ids aside. */
  datatype Instance = Instance(categoryId: int, bbox: Box, iscrowd: int)

  function InstanceOf(a: Annotation): Instance {
    Instance(a.categoryId, a.bbox, a.iscrowd)
  }

  /** The instances of a list of annotations, in order. */
  function Instances(anns: seq<Annotation>): (r: seq<Instance>)
    ensures |r| == |anns|
    ensures forall k :: 0 <= k < |anns| ==> r[k] == InstanceOf(anns[k])
  {
    seq(|anns|, k requires 0 <= k < |anns| => InstanceOf(anns[k]))
  }

  /** An annotation seen from the image it names: that image's id with its instance. */
  datatype Placed = Placed(imageId: int, instance: Instance)

  /** The placements of a list of annotations, in order. */
  function Placements(anns: seq<Annotation>): (r: seq<Placed>)
    ensures |r| == |anns|
    ensures forall k :: 0 <= k < |anns| ==> r[k] == Placed(anns[k].imageId, InstanceOf(anns[k]))
  {
    seq(|anns|, k requires 0 <= k < |anns| => Placed(anns[k].imageId, InstanceOf(anns[k])))
  }

  /** Instances all placed on the image with id `id`. */
  function OnImage(id: int, xs: seq<Instance>): (r: seq<Placed>)
    ensures |r| == |xs|
    ensures forall k :: 0 <= k < |xs| ==> r[k] == Placed(id, xs[k])
  {
    seq(|xs|, k requires 0 <= k < |xs| => Placed(id, xs[k]))
  }

  lemma PlacementsOfConcat(a: seq<Annotation>, b: seq<Annotation>)
    ensures Placements(a + b) == Placements(a) + Placements(b)
  {
  }

  /** Annotations that all name one image are placed on it with their instances. */
  lemma PlacementsOnOneImage(anns: seq<Annotation>, id: int)
    requires forall k :: 0 <= k < |anns| ==> anns[k].imageId == id
    ensures Placements(anns) == OnImage(id, Instances(anns))
  {
  }

  /**
    Reference: the annotation an object ought to give. An object is annotated
    exactly when its label has a category, it has a `<bndbox>` whose four
    coordinates read, and the normalised box is not empty; the annotation
    carries that category, that box and the crowd flag of `<difficult>`.
   */
  function Wanted(obj: VocObject, width: int, height: int): Option<Instance> {
    match CategoryOf(obj.name)
    case None => None
    case Some(cat) =>
      match obj.bndbox
      case None => None
      case Some(b) =>
        match ReadCoords(b)
        case Failure(_) => None
        case Success(c) =>
          match NormalizeBox(c.xmin, c.ymin, c.xmax, c.ymax, width, height)
          case None => None
          case Some(box) => Some(Instance(cat, box, CrowdFlag(obj.difficult)))
  }

  /** Reference: the annotations a list of objects ought to give, in document order. */
  function WantedAll(objs: seq<VocObject>, width: int, height: int): seq<Instance> {
    if |objs| == 0 then [] else WantedSeq(objs[0], width, height) + WantedAll(objs[1..], width, height)
  }

  /** The annotation one object ought to give, as a list of zero or one. */
  function WantedSeq(obj: VocObject, width: int, height: int): seq<Instance> {
    match Wanted(obj, width, height)
    case Some(i) => [i]
    case None => []
  }

  /**
    Reference: an object that lets the run go on. An unknown label stops it
    unless unknown labels are allowed; a known label with a `<bndbox>` stops
    it when a coordinate does not read.
   */
  predicate Survives(obj: VocObject, allowUnknown: bool) {
    && (CategoryOf(obj.name).None? ==> allowUnknown)
    && (CategoryOf(obj.name).Some? && obj.bndbox.Some? ==> ReadCoords(obj.bndbox.value).Success?)
  }

  /** The error an object that stops the run raises. */
  function ObjectError(obj: VocObject, file: string, allowUnknown: bool): (e: ConvError)
    requires !Survives(obj, allowUnknown)
    ensures e.UnknownLabel? || e.MissingField? || e.BadNumber?
  {
    if CategoryOf(obj.name).None? then UnknownLabel(RawLabel(obj.name), file) else ReadCoords(obj.bndbox.value).error
  }

  /** The position of the first `false` in `bs`, or `|bs|` when there is none. */
  function FirstFalse(bs: seq<bool>): (k: nat)
    ensures k <= |bs|
    ensures forall j :: 0 <= j < k ==> bs[j]
    ensures k < |bs| ==> !bs[k]
  {
    if |bs| == 0 then 0
    else if !bs[0] then 0
    else
      var k := FirstFalse(bs[1..]);
      assert forall j :: 1 <= j < 1 + k ==> bs[j] == bs[1..][j - 1];
      1 + k
  }

  /** Which of `objs` let the run go on. */
  function SurvivalFlags(objs: seq<VocObject>, allowUnknown: bool): (flags: seq<bool>)
    ensures |flags| == |objs|
    ensures forall j :: 0 <= j < |objs| ==> flags[j] == Survives(objs[j], allowUnknown)
  {
    seq(|objs|, j requires 0 <= j < |objs| => Survives(objs[j], allowUnknown))
  }

  /** The position of the first object that stops the run, or `|objs|` when none does. */
  function FirstFatal(objs: seq<VocObject>, allowUnknown: bool): (k: nat)
    ensures k <= |objs|
    ensures forall j :: 0 <= j < k ==> Survives(objs[j], allowUnknown)
    ensures k < |objs| ==> !Survives(objs[k], allowUnknown)
  {
    FirstFalse(SurvivalFlags(objs, allowUnknown))
  }

  /** Past a surviving first object, the first fatal one is found in the rest. */
  lemma FirstFatalCons(objs: seq<VocObject>, allowUnknown: bool)
    requires |objs| > 0 && Survives(objs[0], allowUnknown)
    ensures FirstFatal(objs, allowUnknown) == 1 + FirstFatal(objs[1..], allowUnknown)
  {
    assert SurvivalFlags(objs, allowUnknown)[1..] == SurvivalFlags(objs[1..], allowUnknown);
  }

  /** Whether an object's label has no category. */
  predicate IsUnknown(obj: VocObject) {
    CategoryOf(obj.name).None?
  }

  /** How many of `objs` carry a label with no category. */
  function UnknownCount(objs: seq<VocObject>): nat {
    if |objs| == 0 then 0 else (if IsUnknown(objs[0]) then 1 else 0) + UnknownCount(objs[1..])
  }

  /** An annotation emitted with id `id` for image `imgId` of the given size. */
  predicate EmittedFor(a: Annotation, id: int, imgId: int, width: int, height: int) {
    && a.id == id
    && a.imageId == imgId
    && InsideImage(a.bbox, width, height)
    && a.area == a.bbox.w * a.bbox.h
    && (a.categoryId == 1 || a.categoryId == 2)
    && (a.iscrowd == 0 || a.iscrowd == 1)
  }

  /**
    `after` keeps `before`'s annotations and appends only annotations for
    image `imgId`, numbered on from `before.annId` without gaps.
   */
  predicate AppendsAnnotations(before: ConvState, after: ConvState, imgId: int, width: int, height: int) {
    && |after.annotations| >= |before.annotations|
    && after.annotations[..|before.annotations|] == before.annotations
    && after.annId == before.annId + (|after.annotations| - |before.annotations|)
    && forall k :: |before.annotations| <= k < |after.annotations| ==>
         EmittedFor(after.annotations[k], before.annId + (k - |before.annotations|), imgId, width, height)
  }

  /** Appending is transitive: two runs of appends for one image are one run. */
  lemma AppendsTransitive(a: ConvState, b: ConvState, c: ConvState, imgId: int, width: int, height: int)
    ensures AppendsAnnotations(a, b, imgId, width, height) && AppendsAnnotations(b, c, imgId, width, height) ==>
            AppendsAnnotations(a, c, imgId, width, height)
  {
    if AppendsAnnotations(a, b, imgId, width, height) && AppendsAnnotations(b, c, imgId, width, height) {
      assert c.annotations[..|a.annotations|] == b.annotations[..|a.annotations|];
    }
  }

  /**
    The effect of one object's outcome on the loop variables: a fatal outcome
    stops the loop with its error; otherwise the image fields stay, an unknown
    label adds one to its counter, and only an emitted box appends an
    annotation, with the next id, for this image, and moves the id on.
   */
  function ApplyOutcome(o: ObjectOutcome, imgId: int, st: ConvState): (r: Result<ConvState, ConvError>)
    ensures r.Failure? <==> o.Fatal?
    ensures o.Fatal? ==> r.error == o.error
    ensures r.Success? ==>
              && r.value.imgId == st.imgId && r.value.images == st.images && r.value.missingImages == st.missingImages
              && r.value.skippedUnknown == st.skippedUnknown + (if o.SkipUnknown? then 1 else 0)
              && |r.value.annotations| == |st.annotations| + (if o.Emit? then 1 else 0)
              && r.value.annotations[..|st.annotations|] == st.annotations
              && r.value.annId == st.annId + (if o.Emit? then 1 else 0)
    ensures o.Emit? ==>
              r.Success? && r.value.annotations[|st.annotations|]
                            == Annotation(st.annId, imgId, o.categoryId, o.bbox, o.bbox.w * o.bbox.h, o.iscrowd)
  {
    assert st.annotations[..|st.annotations|] == st.annotations;
    match o
    case Fatal(e) => Failure(e)
    case SkipUnknown => Success(st.(skippedUnknown := st.skippedUnknown + 1))
    case SkipNoBox => Success(st)
    case SkipDegenerate => Success(st)
    case Emit(cat, box, crowd) =>
      var a := Annotation(st.annId, imgId, cat, box, box.w * box.h, crowd);
      assert (st.annotations + [a])[..|st.annotations|] == st.annotations;
      Success(st.(annotations := st.annotations + [a], annId := st.annId + 1))
  }

  /**
    An unknown label is skipped with the counter bumped by exactly one when
    `allowUnknown` is set and stops the run otherwise; no other outcome
    touches the counter.
   */
  lemma ApplyOutcomeCountsUnknown(obj: VocObject, file: string, imgId: int, width: int, height: int,
                                  allowUnknown: bool, st: ConvState)
    ensures var r := ApplyOutcome(ConvertObject(obj, file, width, height, allowUnknown), imgId, st);
            r.Success? ==> r.value.skippedUnknown == st.skippedUnknown + (if IsUnknown(obj) then 1 else 0)
    ensures var r := ApplyOutcome(ConvertObject(obj, file, width, height, allowUnknown), imgId, st);
            IsUnknown(obj) && !allowUnknown ==> r == Failure(UnknownLabel(RawLabel(obj.name), file))
    ensures var r := ApplyOutcome(ConvertObject(obj, file, width, height, allowUnknown), imgId, st);
            IsUnknown(obj) && allowUnknown ==> r == Success(st.(skippedUnknown := st.skippedUnknown + 1))
  {
    var o := ConvertObject(obj, file, width, height, allowUnknown);
    OutcomeCountsUnknown(o, IsUnknown(obj), allowUnknown, UnknownLabel(RawLabel(obj.name), file), imgId, st);
  }

  /** `ApplyOutcomeCountsUnknown` for any outcome that treats unknown labels as `ConvertObject` does. */
  lemma OutcomeCountsUnknown(o: ObjectOutcome, unknown: bool, allowUnknown: bool, err: ConvError, imgId: int, st: ConvState)
    requires unknown ==> o == if allowUnknown then SkipUnknown else Fatal(err)
    requires o.SkipUnknown? ==> unknown
    ensures var r := ApplyOutcome(o, imgId, st);
            r.Success? ==> r.value.skippedUnknown == st.skippedUnknown + (if unknown then 1 else 0)
    ensures var r := ApplyOutcome(o, imgId, st);
            unknown && !allowUnknown ==> r == Failure(err)
    ensures var r := ApplyOutcome(o, imgId, st);
            unknown && allowUnknown ==> r == Success(st.(skippedUnknown := st.skippedUnknown + 1))
  {
  }

  /**
    One object's outcome appends at most one annotation, for the current
    image and with the next id, and changes nothing about the images.
   */
  lemma ApplyOutcomeAppends(obj: VocObject, file: string, imgId: int, width: int, height: int,
                            allowUnknown: bool, st: ConvState)
    ensures var r := ApplyOutcome(ConvertObject(obj, file, width, height, allowUnknown), imgId, st);
            r.Success? ==>
              && r.value.imgId == st.imgId
              && r.value.images == st.images
              && r.value.missingImages == st.missingImages
              && AppendsAnnotations(st, r.value, imgId, width, height)
  {
    var o := ConvertObject(obj, file, width, height, allowUnknown);
    if o.Emit? {
      assert o.categoryId == 1 || o.categoryId == 2;
      assert InsideImage(o.bbox, width, height);
    }
    OutcomeAppends(o, imgId, width, height, st);
  }

  /** The same, for any outcome whose emitted box lies inside the image with a known category. */
  lemma OutcomeAppends(o: ObjectOutcome, imgId: int, width: int, height: int, st: ConvState)
    requires o.Emit? ==> && InsideImage(o.bbox, width, height)
                         && (o.categoryId == 1 || o.categoryId == 2)
                         && (o.iscrowd == 0 || o.iscrowd == 1)
    ensures var r := ApplyOutcome(o, imgId, st);
            r.Success? ==>
              && r.value.imgId == st.imgId
              && r.value.images == st.images
              && r.value.missingImages == st.missingImages
              && AppendsAnnotations(st, r.value, imgId, width, height)
  {
    if o.Emit? {
      var a := Annotation(st.annId, imgId, o.categoryId, o.bbox, o.bbox.w * o.bbox.h, o.iscrowd);
      ApplyEmit(o, imgId, st);
      AppendOne(st, a, imgId, width, height);
    } else if !o.Fatal? {
      assert st.annotations[..|st.annotations|] == st.annotations;
    }
  }

  /** Appending one annotation with the next id is an append run of length one. */
  lemma AppendOne(st: ConvState, a: Annotation, imgId: int, width: int, height: int)
    requires EmittedFor(a, st.annId, imgId, width, height)
    ensures AppendsAnnotations(st, st.(annotations := st.annotations + [a], annId := st.annId + 1),
                               imgId, width, height)
  {
    var next := st.(annotations := st.annotations + [a], annId := st.annId + 1);
    assert next.annotations[..|st.annotations|] == st.annotations;
    assert next.annotations[|st.annotations|] == a;
  }

  /**
    The inner loop over one document's objects. Only the
    annotation list, the annotation id and the unknown-label counter change;
    each unknown label skipped adds exactly one to the counter, and without
    `allowUnknown` a successful pass has met no unknown label.
   */
  function ConvertObjects(objs: seq<VocObject>, file: string, imgId: int, width: int, height: int,
                          allowUnknown: bool, st: ConvState): (r: Result<ConvState, ConvError>)
    ensures r.Success? ==>
              && r.value.imgId == st.imgId
              && r.value.images == st.images
              && r.value.missingImages == st.missingImages
              && AppendsAnnotations(st, r.value, imgId, width, height)
              && r.value.skippedUnknown == st.skippedUnknown + UnknownCount(objs)
              && (!allowUnknown ==> UnknownCount(objs) == 0)
    ensures r.Failure? ==> !r.error.ParseFailed?
    ensures r.Failure? ==> r.error.UnknownLabel? || r.error.MissingField? || r.error.BadNumber?
    ensures r.Success? <==> FirstFatal(objs, allowUnknown) == |objs|
    ensures r.Failure? ==>
              FirstFatal(objs, allowUnknown) < |objs|
              && r.error == ObjectError(objs[FirstFatal(objs, allowUnknown)], file, allowUnknown)
    ensures r.Success? ==> Instances(r.value.annotations[|st.annotations|..]) == WantedAll(objs, width, height)
    decreases |objs|
  {
    if |objs| == 0 then
      assert st.annotations[..|st.annotations|] == st.annotations;
      assert Instances(st.annotations[|st.annotations|..]) == [];
      Success(st)
    else
      ObjectStep(objs[0], file, imgId, width, height, allowUnknown, st);
      ObjectStepReference(objs[0], file, imgId, width, height, allowUnknown, st);
      var step := ApplyOutcome(ConvertObject(objs[0], file, width, height, allowUnknown), imgId, st);
      if step.Failure? then
        FirstFatalHere(objs, allowUnknown);
        Failure(step.error)
      else
        var next := step.value;
        var r := ConvertObjects(objs[1..], file, imgId, width, height, allowUnknown, next);
        ObjectsCombine(objs, imgId, width, height, allowUnknown, st, next, r);
        FirstFatalCons(objs, allowUnknown);
        ObjectsCombineReference(objs, file, width, height, allowUnknown, st, next, r);
        r
  }

  /** A fatal first object is the first fatal object. */
  lemma FirstFatalHere(objs: seq<VocObject>, allowUnknown: bool)
    requires |objs| > 0 && !Survives(objs[0], allowUnknown)
    ensures FirstFatal(objs, allowUnknown) == 0
  {
  }

  /** One object's step against the reference: it fails exactly on a fatal object, and adds the annotation it ought to. */
  lemma ObjectStepReference(obj: VocObject, file: string, imgId: int, width: int, height: int,
                            allowUnknown: bool, st: ConvState)
    ensures var step := ApplyOutcome(ConvertObject(obj, file, width, height, allowUnknown), imgId, st);
            && (step.Failure? <==> !Survives(obj, allowUnknown))
            && (step.Failure? ==> !Survives(obj, allowUnknown) && step.error == ObjectError(obj, file, allowUnknown))
            && (step.Success? ==>
                  |step.value.annotations| >= |st.annotations|
                  && Instances(step.value.annotations[|st.annotations|..]) == WantedSeq(obj, width, height))
  {
    var o := ConvertObject(obj, file, width, height, allowUnknown);
    OutcomeReference(o, imgId, st, Wanted(obj, width, height));
  }

  /** What applying an outcome adds, in terms of the annotation it carries. */
  lemma OutcomeReference(o: ObjectOutcome, imgId: int, st: ConvState, wanted: Option<Instance>)
    requires o.Emit? <==> wanted.Some?
    requires o.Emit? ==> wanted.value == Instance(o.categoryId, o.bbox, o.iscrowd)
    ensures var step := ApplyOutcome(o, imgId, st);
            && (step.Failure? <==> o.Fatal?)
            && (step.Failure? ==> step.error == o.error)
            && (step.Success? ==>
                  |step.value.annotations| >= |st.annotations|
                  && Instances(step.value.annotations[|st.annotations|..])
                     == match wanted case Some(i) => [i] case None => [])
  {
    var n := |st.annotations|;
    match o
    case Emit(cat, box, crowd) =>
      var a := Annotation(st.annId, imgId, cat, box, box.w * box.h, crowd);
      assert (st.annotations + [a])[n..] == [a];
    case Fatal(_) =>
    case _ =>
      assert st.annotations[n..] == [];
  }

  /** The reference facts for the first object and for the rest give the reference facts for all. */
  lemma ObjectsCombineReference(objs: seq<VocObject>, file: string, width: int, height: int, allowUnknown: bool,
                                st: ConvState, next: ConvState, r: Result<ConvState, ConvError>)
    requires |objs| > 0
    requires FirstFatal(objs, allowUnknown) == 1 + FirstFatal(objs[1..], allowUnknown)
    requires |next.annotations| >= |st.annotations| && next.annotations[..|st.annotations|] == st.annotations
    requires Instances(next.annotations[|st.annotations|..]) == WantedSeq(objs[0], width, height)
    requires r.Success? <==> FirstFatal(objs[1..], allowUnknown) == |objs[1..]|
    requires r.Failure? ==>
               FirstFatal(objs[1..], allowUnknown) < |objs[1..]|
               && r.error == ObjectError(objs[1..][FirstFatal(objs[1..], allowUnknown)], file, allowUnknown)
    requires r.Success? ==>
               |r.value.annotations| >= |next.annotations|
               && r.value.annotations[..|next.annotations|] == next.annotations
               && Instances(r.value.annotations[|next.annotations|..]) == WantedAll(objs[1..], width, height)
    ensures r.Success? <==> FirstFatal(objs, allowUnknown) == |objs|
    ensures r.Failure? ==>
              FirstFatal(objs, allowUnknown) < |objs|
              && r.error == ObjectError(objs[FirstFatal(objs, allowUnknown)], file, allowUnknown)
    ensures r.Success? ==> Instances(r.value.annotations[|st.annotations|..]) == WantedAll(objs, width, height)
  {
    if r.Failure? {
      var k := FirstFatal(objs[1..], allowUnknown);
      FatalShift(objs, file, allowUnknown, k);
      assert r.error == ObjectError(objs[1 + k], file, allowUnknown);
      assert objs[FirstFatal(objs, allowUnknown)] == objs[1 + k];
    } else {
      ObjectsAppend(objs, width, height, st.annotations, next.annotations, r.value.annotations);
    }
  }

  /** The first fatal object of the rest, counted from the start of the whole. */
  lemma FatalShift(objs: seq<VocObject>, file: string, allowUnknown: bool, k: nat)
    requires |objs| > 0 && k < |objs[1..]| && !Survives(objs[1..][k], allowUnknown)
    ensures !Survives(objs[1 + k], allowUnknown)
    ensures ObjectError(objs[1 + k], file, allowUnknown) == ObjectError(objs[1..][k], file, allowUnknown)
  {
    assert objs[1 + k] == objs[1..][k];
  }

  /** Annotations of the first object followed by those of the rest are those of all the objects. */
  lemma ObjectsAppend(objs: seq<VocObject>, width: int, height: int,
                      before: seq<Annotation>, mid: seq<Annotation>, after: seq<Annotation>)
    requires |objs| > 0
    requires |before| <= |mid| && mid[..|before|] == before
    requires Instances(mid[|before|..]) == WantedSeq(objs[0], width, height)
    requires |mid| <= |after| && after[..|mid|] == mid
    requires Instances(after[|mid|..]) == WantedAll(objs[1..], width, height)
    ensures Instances(after[|before|..]) == WantedAll(objs, width, height)
  {
    InstancesAppend(after, mid, |before|, WantedSeq(objs[0], width, height), WantedAll(objs[1..], width, height));
  }

  /** Annotations appended in two runs: their instances are the first run's followed by the second's. */
  lemma InstancesAppend(all: seq<Annotation>, mid: seq<Annotation>, n: nat, first: seq<Instance>, second: seq<Instance>)
    requires n <= |mid| <= |all| && all[..|mid|] == mid
    requires Instances(mid[n..]) == first && Instances(all[|mid|..]) == second
    ensures Instances(all[n..]) == first + second
  {
    assert all[n..] == mid[n..] + all[|mid|..];
    InstancesOfConcat(mid[n..], all[|mid|..]);
  }

  lemma InstancesOfConcat(a: seq<Annotation>, b: seq<Annotation>)
    ensures Instances(a + b) == Instances(a) + Instances(b)
  {
  }

  /** What one pass of the object loop does, stated without the object's details. */
  lemma ObjectStep(obj: VocObject, file: string, imgId: int, width: int, height: int,
                   allowUnknown: bool, st: ConvState)
    ensures var step := ApplyOutcome(ConvertObject(obj, file, width, height, allowUnknown), imgId, st);
            step.Failure? ==> !step.error.ParseFailed?
    ensures var step := ApplyOutcome(ConvertObject(obj, file, width, height, allowUnknown), imgId, st);
            step.Success? ==>
              && step.value.imgId == st.imgId
              && step.value.images == st.images
              && step.value.missingImages == st.missingImages
              && AppendsAnnotations(st, step.value, imgId, width, height)
              && step.value.skippedUnknown == st.skippedUnknown + (if IsUnknown(obj) then 1 else 0)
              && (!allowUnknown ==> !IsUnknown(obj))
  {
    var o := ConvertObject(obj, file, width, height, allowUnknown);
    OutcomeFailure(o, imgId, st);
    ApplyOutcomeAppends(obj, file, imgId, width, height, allowUnknown, st);
    ApplyOutcomeCountsUnknown(obj, file, imgId, width, height, allowUnknown, st);
  }

  lemma OutcomeFailure(o: ObjectOutcome, imgId: int, st: ConvState)
    requires o.Fatal? ==> !o.error.ParseFailed?
    ensures ApplyOutcome(o, imgId, st).Failure? ==> !ApplyOutcome(o, imgId, st).error.ParseFailed?
  {
  }

  /** The object loop's facts for the first object and for the rest give the facts for all. */
  lemma ObjectsCombine(objs: seq<VocObject>, imgId: int, width: int, height: int, allowUnknown: bool,
                       st: ConvState, next: ConvState, r: Result<ConvState, ConvError>)
    requires |objs| > 0
    requires && next.imgId == st.imgId
             && next.images == st.images
             && next.missingImages == st.missingImages
             && AppendsAnnotations(st, next, imgId, width, height)
             && next.skippedUnknown == st.skippedUnknown + (if IsUnknown(objs[0]) then 1 else 0)
             && (!allowUnknown ==> !IsUnknown(objs[0]))
    requires r.Success? ==>
              && r.value.imgId == next.imgId
              && r.value.images == next.images
              && r.value.missingImages == next.missingImages
              && AppendsAnnotations(next, r.value, imgId, width, height)
              && r.value.skippedUnknown == next.skippedUnknown + UnknownCount(objs[1..])
              && (!allowUnknown ==> UnknownCount(objs[1..]) == 0)
    ensures r.Success? ==>
              && r.value.imgId == st.imgId
              && r.value.images == st.images
              && r.value.missingImages == st.missingImages
              && AppendsAnnotations(st, r.value, imgId, width, height)
              && r.value.skippedUnknown == st.skippedUnknown + UnknownCount(objs)
              && (!allowUnknown ==> UnknownCount(objs) == 0)
  {
    if r.Success? {
      AppendsTransitive(st, next, r.value, imgId, width, height);
    }
  }

  /**
    The image's size: the declared `<size>`, whose width and height must both
    read (width first), or else, without a `<size>`, the size PIL reads from
    the image file; without either the run fails.
   */
  function ImageSize(doc: VocDoc, imageName: string, pixelSizes: map<string, Dims>, file: string): (r: Result<Dims, ConvError>)
    ensures doc.size.Some? ==>
              (r.Success? <==> ReadField(doc.size.value.width, "size/width").Success?
                               && ReadField(doc.size.value.height, "size/height").Success?)
    ensures doc.size.Some? && r.Success? ==>
              r.value == Dims(ReadField(doc.size.value.width, "size/width").value,
                              ReadField(doc.size.value.height, "size/height").value)
    ensures doc.size.Some? && ReadField(doc.size.value.width, "size/width").Failure? ==>
              r.Failure? && r.error == ReadField(doc.size.value.width, "size/width").error
    ensures doc.size.Some? && ReadField(doc.size.value.width, "size/width").Success?
            && ReadField(doc.size.value.height, "size/height").Failure? ==>
              r.Failure? && r.error == ReadField(doc.size.value.height, "size/height").error
    ensures doc.size.None? ==> (r.Success? <==> imageName in pixelSizes)
    ensures doc.size.None? && r.Success? ==> r.value == pixelSizes[imageName]
    ensures doc.size.None? && r.Failure? ==> r.error == NoImageSize(file)
    ensures r.Failure? ==> r.error.MissingField? || r.error.BadNumber? || r.error.NoImageSize?
  {
    match doc.size
    case Some(node) =>
      var w :- ReadField(node.width, "size/width");
      var h :- ReadField(node.height, "size/height");
      Success(Dims(w, h))
    case None =>
      if imageName in pixelSizes then Success(pixelSizes[imageName]) else Failure(NoImageSize(file))
  }

  /**
    `after` has one more image than `before`, named `name`, with the next
    image id; the annotations appended refer to it and fit inside it.
   */
  predicate AddsImage(before: ConvState, after: ConvState, name: string) {
    && |after.images| == |before.images| + 1
    && after.images[..|before.images|] == before.images
    && after.images[|before.images|].id == before.imgId
    && after.images[|before.images|].fileName == name
    && AppendsAnnotations(before, after, before.imgId,
                          after.images[|before.images|].width, after.images[|before.images|].height)
    && after.imgId == before.imgId + 1
    && after.missingImages == before.missingImages
  }

  /**
    The pass over a file whose image is found: its size, its entry with the next
    image id, then its objects' annotations, then the id moves on.
   */
  function ConvertFound(doc: VocDoc, file: string, imageName: string, env: Env, st: ConvState): (r: Result<ConvState, ConvError>)
    ensures r.Success? ==> AddsImage(st, r.value, imageName)
    ensures r.Success? ==> r.value.skippedUnknown == st.skippedUnknown + UnknownCount(doc.objects)
    ensures r.Success? ==> env.allowUnknown || UnknownCount(doc.objects) == 0
    ensures r.Failure? ==> !r.error.ParseFailed?
    ensures var size := ImageSize(doc, imageName, env.pixelSizes, file);
            r.Success? <==> size.Success? && FirstFatal(doc.objects, env.allowUnknown) == |doc.objects|
    ensures var size := ImageSize(doc, imageName, env.pixelSizes, file);
            size.Failure? ==> r.Failure? && r.error == size.error
    ensures var size := ImageSize(doc, imageName, env.pixelSizes, file);
            var k := FirstFatal(doc.objects, env.allowUnknown);
            size.Success? && r.Failure? ==> k < |doc.objects| && r.error == ObjectError(doc.objects[k], file, env.allowUnknown)
    ensures var size := ImageSize(doc, imageName, env.pixelSizes, file);
            r.Success? ==>
              && size.Success?
              && r.value.images[|st.images|] == Image(st.imgId, imageName, size.value.width, size.value.height)
              && Instances(r.value.annotations[|st.annotations|..]) == WantedAll(doc.objects, size.value.width, size.value.height)
  {
    var dims :- ImageSize(doc, imageName, env.pixelSizes, file);
    ConvertSized(doc, file, imageName, env, st, dims)
  }

  /**
    The pass once the image's size is known: the image entry with the
    next image id, then its objects' annotations, then the id moves on.
   */
  function ConvertSized(doc: VocDoc, file: string, imageName: string, env: Env, st: ConvState, dims: Dims)
    : (r: Result<ConvState, ConvError>)
    ensures r.Success? ==> AddsImage(st, r.value, imageName)
    ensures r.Success? ==> r.value.skippedUnknown == st.skippedUnknown + UnknownCount(doc.objects)
    ensures r.Success? ==> env.allowUnknown || UnknownCount(doc.objects) == 0
    ensures r.Failure? ==> !r.error.ParseFailed?
    ensures r.Success? <==> FirstFatal(doc.objects, env.allowUnknown) == |doc.objects|
    ensures var k := FirstFatal(doc.objects, env.allowUnknown);
            r.Failure? ==> k < |doc.objects| && r.error == ObjectError(doc.objects[k], file, env.allowUnknown)
    ensures r.Success? ==>
              && r.value.images[|st.images|] == Image(st.imgId, imageName, dims.width, dims.height)
              && Instances(r.value.annotations[|st.annotations|..]) == WantedAll(doc.objects, dims.width, dims.height)
  {
    var img := Image(st.imgId, imageName, dims.width, dims.height);
    var withImage := st.(images := st.images + [img]);
    var done :- ConvertObjects(doc.objects, file, st.imgId, dims.width, dims.height, env.allowUnknown, withImage);
    ImageThenAnnotations(st, img, done);
    Success(done.(imgId := done.imgId + 1))
  }

  /** Adding an image entry and then appending its annotations adds that image. */
  lemma ImageThenAnnotations(st: ConvState, img: Image, done: ConvState)
    requires img.id == st.imgId
    requires done.images == st.images + [img] && done.imgId == st.imgId
    requires done.missingImages == st.missingImages
    requires AppendsAnnotations(st.(images := st.images + [img]), done, st.imgId, img.width, img.height)
    ensures AddsImage(st, done.(imgId := done.imgId + 1), img.fileName)
  {
    var after := done.(imgId := done.imgId + 1);
    assert after.images[..|st.images|] == st.images;
    assert after.images[|st.images|] == img;
  }

  /**
    One pass of the outer loop. A parse failure stops the run;
    a document without an image only adds one to `missingImages`; otherwise
    the image gets the next id and its objects' annotations refer to it.
   */
  function ConvertFile(file: XmlFile, env: Env, st: ConvState): (r: Result<ConvState, ConvError>)
    ensures r == Failure(ParseFailed(FileName(file))) <==> file.content.Malformed?
    ensures r.Failure? && r.error.ParseFailed? ==> file.content.Malformed?
    ensures file.content.Parsed? && FindImageFile(env.images, file.stem).None? ==>
              r == Success(st.(missingImages := st.missingImages + 1))
    ensures r.Success? && FindImageFile(env.images, file.stem).Some? ==>
              && file.content.Parsed?
              && AddsImage(st, r.value, FindImageFile(env.images, file.stem).value)
              && r.value.skippedUnknown == st.skippedUnknown + UnknownCount(file.content.doc.objects)
    ensures r.Success? ==> env.allowUnknown || r.value.skippedUnknown == st.skippedUnknown
    ensures r.Success? <==> FileOk(file, env)
    ensures r.Failure? ==> !FileOk(file, env) && r.error == FileError(file, env)
    ensures r.Success? ==>
              && |r.value.annotations| >= |st.annotations|
              && r.value.annotations[..|st.annotations|] == st.annotations
              && Instances(r.value.annotations[|st.annotations|..]) == FileWanted(file, env)
    ensures r.Success? ==>
              && r.value.images == st.images + FileImages(file, env, st.imgId)
              && r.value.imgId == st.imgId + EntryCount(file, env)
              && Placements(r.value.annotations[|st.annotations|..]) == OnImage(st.imgId, FileWanted(file, env))
  {
    match file.content
    case Malformed => Failure(ParseFailed(FileName(file)))
    case Parsed(doc) =>
      match FindImageFile(env.images, file.stem)
      case None =>
        assert st.annotations[..|st.annotations|] == st.annotations;
        assert Instances(st.annotations[|st.annotations|..]) == [];
        assert st.images + [] == st.images;
        Success(st.(missingImages := st.missingImages + 1))
      case Some(imageName) =>
        var r := ConvertFound(doc, FileName(file), imageName, env, st);
        if r.Success? then
          FoundPlaced(st, r.value, r.value.images[|st.images|], FileWanted(file, env));
          r
        else r
  }

  /** A found image's pass adds exactly its entry, and its annotations sit on that entry. */
  lemma FoundPlaced(st: ConvState, done: ConvState, img: Image, wanted: seq<Instance>)
    requires AddsImage(st, done, img.fileName)
    requires done.images[|st.images|] == img
    requires Instances(done.annotations[|st.annotations|..]) == wanted
    ensures done.images == st.images + [img]
    ensures done.imgId == st.imgId + 1
    ensures Placements(done.annotations[|st.annotations|..]) == OnImage(st.imgId, wanted)
  {
    assert done.images == done.images[..|st.images|] + [done.images[|st.images|]];
    var added := done.annotations[|st.annotations|..];
    forall k | 0 <= k < |added|
      ensures added[k].imageId == st.imgId
    {
      assert added[k] == done.annotations[|st.annotations| + k];
    }
    PlacementsOnOneImage(added, st.imgId);
  }

  /**
    Reference: a file the run gets past. It parses, and when its image is
    found, the image size reads and none of its objects stops the run.
   */
  predicate FileOk(file: XmlFile, env: Env) {
    && file.content.Parsed?
    && match FindImageFile(env.images, file.stem)
       case None => true
       case Some(name) =>
         && ImageSize(file.content.doc, name, env.pixelSizes, FileName(file)).Success?
         && FirstFatal(file.content.doc.objects, env.allowUnknown) == |file.content.doc.objects|
  }

  /**
    Reference: the error raised by a file the run does not get past: the
    parse error, else the size error, else the first fatal object's error.
   */
  function FileError(file: XmlFile, env: Env): (e: ConvError)
    requires !FileOk(file, env)
    ensures e.ParseFailed? <==> file.content.Malformed?
  {
    match file.content
    case Malformed => ParseFailed(FileName(file))
    case Parsed(doc) =>
      var size := ImageSize(doc, FindImageFile(env.images, file.stem).value, env.pixelSizes, FileName(file));
      if size.Failure? then size.error
      else ObjectError(doc.objects[FirstFatal(doc.objects, env.allowUnknown)], FileName(file), env.allowUnknown)
  }

  /** Reference: the annotations a file ought to add, in document order. */
  function FileWanted(file: XmlFile, env: Env): seq<Instance> {
    match FileEntry(file, env)
    case None => []
    case Some((_, size)) => WantedAll(file.content.doc.objects, size.width, size.height)
  }

  /** Reference: the annotations a run over `files` ought to write, in file order. */
  function AllWanted(files: seq<XmlFile>, env: Env): seq<Instance> {
    if |files| == 0 then [] else FileWanted(files[0], env) + AllWanted(files[1..], env)
  }

  /**
    Reference: the image a file's pass ought to add an entry for, with the
    size read for it; none when the file is malformed, its image is
    missing or the size does not read.
   */
  function FileEntry(file: XmlFile, env: Env): Option<(string, Dims)> {
    match file.content
    case Malformed => None
    case Parsed(doc) =>
      match FindImageFile(env.images, file.stem)
      case None => None
      case Some(name) =>
        match ImageSize(doc, name, env.pixelSizes, FileName(file))
        case Failure(_) => None
        case Success(size) => Some((name, size))
  }

  /** How many image entries a file's pass ought to add: one or none. */
  function EntryCount(file: XmlFile, env: Env): nat {
    if FileEntry(file, env).Some? then 1 else 0
  }

  /**
    Reference: the image entries a file ought to add when the next image id
    is `id`. A file that ought to give annotations ought to give its image
    entry too, and that entry names the image found for the file.
   */
  function FileImages(file: XmlFile, env: Env, id: int): seq<Image> {
    match FileEntry(file, env)
    case None => []
    case Some((name, size)) => [Image(id, name, size.width, size.height)]
  }

  /**
    A file gives at most one image entry, with the id it is handed and the
    image found for it, and a file that ought to give annotations gives one.
   */
  lemma FileImagesShape(file: XmlFile, env: Env, id: int)
    ensures |FileImages(file, env, id)| == EntryCount(file, env) <= 1
    ensures |FileImages(file, env, id)| == 1 ==>
              FileImages(file, env, id)[0].id == id && FindImageFile(env.images, file.stem) == Some(FileImages(file, env, id)[0].fileName)
    ensures |FileWanted(file, env)| > 0 ==> |FileImages(file, env, id)| == 1
  {
  }

  /** Reference: the image entries a run over `files` ought to write, numbered on from `id`. */
  function AllImages(files: seq<XmlFile>, env: Env, id: int): seq<Image>
    decreases |files|
  {
    if |files| == 0 then []
    else FileImages(files[0], env, id) + AllImages(files[1..], env, id + EntryCount(files[0], env))
  }

  /**
    Reference: the annotations a run over `files` ought to write, each on
    the image id that `AllImages` gives its own file.
   */
  function AllPlaced(files: seq<XmlFile>, env: Env, id: int): seq<Placed>
    decreases |files|
  {
    if |files| == 0 then []
    else OnImage(id, FileWanted(files[0], env)) + AllPlaced(files[1..], env, id + EntryCount(files[0], env))
  }

  /** Which of `files` the run gets past. */
  function FileFlags(files: seq<XmlFile>, env: Env): (flags: seq<bool>)
    ensures |flags| == |files|
    ensures forall j :: 0 <= j < |files| ==> flags[j] == FileOk(files[j], env)
  {
    seq(|files|, j requires 0 <= j < |files| => FileOk(files[j], env))
  }

  /** The position of the first file the run does not get past, or `|files|` when there is none. */
  function FirstBadFile(files: seq<XmlFile>, env: Env): (k: nat)
    ensures k <= |files|
    ensures forall j :: 0 <= j < k ==> FileOk(files[j], env)
    ensures k < |files| ==> !FileOk(files[k], env)
  {
    FirstFalse(FileFlags(files, env))
  }

  /** Past a good first file, the first bad one is found in the rest. */
  lemma FirstBadFileCons(files: seq<XmlFile>, env: Env)
    requires |files| > 0 && FileOk(files[0], env)
    ensures FirstBadFile(files, env) == 1 + FirstBadFile(files[1..], env)
  {
    assert FileFlags(files, env)[1..] == FileFlags(files[1..], env);
  }

  /** A bad first file is the first bad file. */
  lemma FirstBadFileHere(files: seq<XmlFile>, env: Env)
    requires |files| > 0 && !FileOk(files[0], env)
    ensures FirstBadFile(files, env) == 0
  {
  }

  /** An annotation refers to an existing image and lies inside it. */
  predicate AnnotationFits(a: Annotation, images: seq<Image>) {
    && 1 <= a.imageId <= |images|
    && EmittedFor(a, a.id, a.imageId, images[a.imageId - 1].width, images[a.imageId - 1].height)
  }

  /**
    The shape of the output lists: image ids are 1..n and annotation ids 1..m
    in list order, every annotation fits the image it names, and annotations
    come grouped by image in image order.
   */
  predicate WellNumbered(images: seq<Image>, annotations: seq<Annotation>) {
    && (forall i :: 0 <= i < |images| ==> images[i].id == i + 1)
    && (forall k :: 0 <= k < |annotations| ==> annotations[k].id == k + 1)
    && (forall k :: 0 <= k < |annotations| ==> AnnotationFits(annotations[k], images))
    && (forall k, l :: 0 <= k < l < |annotations| ==> annotations[k].imageId <= annotations[l].imageId)
  }

  /** The loop invariant of `main`: well-numbered lists and counters one past their last ids. */
  predicate Consistent(st: ConvState) {
    && WellNumbered(st.images, st.annotations)
    && st.imgId == |st.images| + 1
    && st.annId == |st.annotations| + 1
  }

  /** Adding an image with the next id and appending its annotations keeps the invariant. */
  lemma AddsImageKeepsConsistent(before: ConvState, after: ConvState, name: string)
    requires Consistent(before)
    requires AddsImage(before, after, name)
    ensures Consistent(after)
  {
    var n := |before.images|;
    var m := |before.annotations|;
    var img := after.images[n];
    forall i | 0 <= i < |after.images|
      ensures after.images[i].id == i + 1
    {
      if i < n {
        assert after.images[i] == after.images[..n][i];
      }
    }
    forall k | 0 <= k < |after.annotations|
      ensures after.annotations[k].id == k + 1
      ensures AnnotationFits(after.annotations[k], after.images)
      ensures after.annotations[k].imageId <= n + 1
      ensures k >= m ==> after.annotations[k].imageId == n + 1
    {
      if k < m {
        var a := after.annotations[k];
        assert a == after.annotations[..m][k];
        assert AnnotationFits(a, before.images);
        assert after.images[a.imageId - 1] == after.images[..n][a.imageId - 1];
      }
    }
    forall k, l | 0 <= k < l < |after.annotations|
      ensures after.annotations[k].imageId <= after.annotations[l].imageId
    {
      if l < m {
        assert after.annotations[k] == after.annotations[..m][k];
        assert after.annotations[l] == after.annotations[..m][l];
      }
    }
  }

  /** The `file_name` of each image entry, in order. */
  function ImageNames(images: seq<Image>): (names: seq<string>)
    ensures |names| == |images|
  {
    seq(|images|, i requires 0 <= i < |images| => images[i].fileName)
  }

  /** Adding an image adds its name at the end of the image names. */
  lemma AddsImageNames(before: ConvState, after: ConvState, name: string)
    requires AddsImage(before, after, name)
    ensures ImageNames(after.images) == ImageNames(before.images) + [name]
  {
    var n := |before.images|;
    forall i | 0 <= i < n
      ensures ImageNames(after.images)[i] == ImageNames(before.images)[i]
    {
      assert after.images[i] == after.images[..n][i];
    }
  }

  /** Reference: the names `find_image_file` returns for `files`, skipping those it finds nothing for. */
  function FoundNames(files: seq<XmlFile>, listing: seq<DirEntry>): seq<string> {
    if |files| == 0 then []
    else
      match FindImageFile(listing, files[0].stem)
      case Some(name) => [name] + FoundNames(files[1..], listing)
      case None => FoundNames(files[1..], listing)
  }

  /** Reference: how many of `files` have no image. */
  function MissingCount(files: seq<XmlFile>, listing: seq<DirEntry>): nat {
    if |files| == 0 then 0
    else (if FindImageFile(listing, files[0].stem).None? then 1 else 0) + MissingCount(files[1..], listing)
  }

  /** Reference: the unknown labels in the parsed documents whose image is found. */
  function UnknownTotal(files: seq<XmlFile>, listing: seq<DirEntry>): nat {
    if |files| == 0 then 0
    else
      var here := if files[0].content.Parsed? && FindImageFile(listing, files[0].stem).Some?
                  then UnknownCount(files[0].content.doc.objects) else 0;
      here + UnknownTotal(files[1..], listing)
  }

  /** Every annotation file is either an image entry or a missing image. */
  lemma {:induction false} FoundPlusMissing(files: seq<XmlFile>, listing: seq<DirEntry>)
    ensures |FoundNames(files, listing)| + MissingCount(files, listing) == |files|
    decreases |files|
  {
    if |files| > 0 {
      FoundPlusMissing(files[1..], listing);
    }
  }

  /**
    The outer loop over the sorted annotation files. A run
    succeeds only when every file parses; a parse failure names a malformed
    file; the invariant holds throughout; the image entries are the found
    images in file order, the rest are counted missing, and the unknown
    counter grows by exactly the skipped labels (not at all without
    `allowUnknown`).
   */
  function ConvertFiles(files: seq<XmlFile>, env: Env, st: ConvState): (r: Result<ConvState, ConvError>)
    ensures r.Success? ==> forall i :: 0 <= i < |files| ==> files[i].content.Parsed?
    ensures r.Failure? && r.error.ParseFailed? ==>
              exists i :: 0 <= i < |files| && files[i].content.Malformed? && FileName(files[i]) == r.error.file
    ensures r.Success? && Consistent(st) ==> Consistent(r.value)
    ensures r.Success? ==> ImageNames(r.value.images) == ImageNames(st.images) + FoundNames(files, env.images)
    ensures r.Success? ==> r.value.missingImages == st.missingImages + MissingCount(files, env.images)
    ensures r.Success? ==> r.value.skippedUnknown == st.skippedUnknown + UnknownTotal(files, env.images)
    ensures r.Success? && !env.allowUnknown ==> UnknownTotal(files, env.images) == 0
    ensures r.Success? <==> FirstBadFile(files, env) == |files|
    ensures r.Failure? ==>
              FirstBadFile(files, env) < |files|
              && r.error == FileError(files[FirstBadFile(files, env)], env)
    ensures r.Success? ==>
              && |r.value.annotations| >= |st.annotations|
              && r.value.annotations[..|st.annotations|] == st.annotations
              && Instances(r.value.annotations[|st.annotations|..]) == AllWanted(files, env)
    ensures r.Success? ==>
              && r.value.images == st.images + AllImages(files, env, st.imgId)
              && r.value.imgId == st.imgId + |AllImages(files, env, st.imgId)|
              && Placements(r.value.annotations[|st.annotations|..]) == AllPlaced(files, env, st.imgId)
    decreases |files|
  {
    if |files| == 0 then
      assert st.annotations[..|st.annotations|] == st.annotations;
      assert Instances(st.annotations[|st.annotations|..]) == [];
      assert Placements(st.annotations[|st.annotations|..]) == [];
      assert st.images + [] == st.images;
      Success(st)
    else
      var step := ConvertFile(files[0], env, st);
      if step.Failure? then
        FirstBadFileHere(files, env);
        Failure(step.error)
      else
        var next := step.value;
        var r := ConvertFiles(files[1..], env, next);
        FirstBadFileCons(files, env);
        FilesCombineReference(files, env, st, next, r);
        if r.Success? then
          ConvertFilesStep(files, env, st, next, r.value);
          FilesPlaced(files, env, st, next, r.value);
          r
        else
          if r.error.ParseFailed? then
            MalformedFromTail(files, r.error.file);
            r
          else r
  }

  /** The reference facts for the first file and for the rest give the reference facts for all. */
  lemma FilesCombineReference(files: seq<XmlFile>, env: Env, st: ConvState, next: ConvState, r: Result<ConvState, ConvError>)
    requires |files| > 0
    requires FirstBadFile(files, env) == 1 + FirstBadFile(files[1..], env)
    requires |next.annotations| >= |st.annotations| && next.annotations[..|st.annotations|] == st.annotations
    requires Instances(next.annotations[|st.annotations|..]) == FileWanted(files[0], env)
    requires r.Success? <==> FirstBadFile(files[1..], env) == |files[1..]|
    requires r.Failure? ==>
               FirstBadFile(files[1..], env) < |files[1..]|
               && r.error == FileError(files[1..][FirstBadFile(files[1..], env)], env)
    requires r.Success? ==>
               |r.value.annotations| >= |next.annotations|
               && r.value.annotations[..|next.annotations|] == next.annotations
               && Instances(r.value.annotations[|next.annotations|..]) == AllWanted(files[1..], env)
    ensures r.Success? <==> FirstBadFile(files, env) == |files|
    ensures r.Failure? ==>
              FirstBadFile(files, env) < |files|
              && r.error == FileError(files[FirstBadFile(files, env)], env)
    ensures r.Success? ==>
              && |r.value.annotations| >= |st.annotations|
              && r.value.annotations[..|st.annotations|] == st.annotations
              && Instances(r.value.annotations[|st.annotations|..]) == AllWanted(files, env)
  {
    if r.Failure? {
      BadFileShift(files, env, FirstBadFile(files[1..], env));
    } else {
      FilesAppend(files, env, st.annotations, next.annotations, r.value.annotations);
    }
  }

  /** The image entries and placements of the first file followed by those of the rest are those of all the files. */
  lemma FilesPlaced(files: seq<XmlFile>, env: Env, st: ConvState, next: ConvState, done: ConvState)
    requires |files| > 0
    requires next.images == st.images + FileImages(files[0], env, st.imgId)
    requires next.imgId == st.imgId + EntryCount(files[0], env)
    requires |st.annotations| <= |next.annotations| && next.annotations[..|st.annotations|] == st.annotations
    requires Placements(next.annotations[|st.annotations|..]) == OnImage(st.imgId, FileWanted(files[0], env))
    requires done.images == next.images + AllImages(files[1..], env, next.imgId)
    requires done.imgId == next.imgId + |AllImages(files[1..], env, next.imgId)|
    requires |next.annotations| <= |done.annotations| && done.annotations[..|next.annotations|] == next.annotations
    requires Placements(done.annotations[|next.annotations|..]) == AllPlaced(files[1..], env, next.imgId)
    ensures done.images == st.images + AllImages(files, env, st.imgId)
    ensures done.imgId == st.imgId + |AllImages(files, env, st.imgId)|
    ensures Placements(done.annotations[|st.annotations|..]) == AllPlaced(files, env, st.imgId)
  {
    SameStart(files[1..], env, next.imgId, st.imgId + EntryCount(files[0], env));
    FilesImages(files, env, st.imgId, st.images, next.images, done.images);
    FilesPlacements(files, env, st.imgId, |st.annotations|, next.annotations, done.annotations);
  }

  lemma {:induction false} SameStart(files: seq<XmlFile>, env: Env, id: int, id': int)
    requires id == id'
    ensures AllImages(files, env, id) == AllImages(files, env, id')
    ensures AllPlaced(files, env, id) == AllPlaced(files, env, id')
  {
  }

  /** The first file's image entries followed by the rest's are all the files' entries. */
  lemma FilesImages(files: seq<XmlFile>, env: Env, id: int, start: seq<Image>, mid: seq<Image>, all: seq<Image>)
    requires |files| > 0
    requires mid == start + FileImages(files[0], env, id)
    requires all == mid + AllImages(files[1..], env, id + EntryCount(files[0], env))
    ensures all == start + AllImages(files, env, id)
    ensures |all| == |start| + |AllImages(files, env, id)|
  {
    AllImagesCons(files, env, id);
    ImagesAppend(start, FileImages(files[0], env, id), AllImages(files[1..], env, id + EntryCount(files[0], env)), mid, all);
  }

  lemma {:induction false} AllImagesCons(files: seq<XmlFile>, env: Env, id: int)
    requires |files| > 0
    ensures AllImages(files, env, id) == FileImages(files[0], env, id) + AllImages(files[1..], env, id + EntryCount(files[0], env))
  {
  }

  /** Entries added in two runs: the whole is the start followed by both runs. */
  lemma ImagesAppend(start: seq<Image>, first: seq<Image>, rest: seq<Image>, mid: seq<Image>, all: seq<Image>)
    requires mid == start + first && all == mid + rest
    ensures all == start + (first + rest) && |all| == |start| + |first + rest|
  {
  }

  /** The first file's placements followed by the rest's are all the files' placements. */
  lemma FilesPlacements(files: seq<XmlFile>, env: Env, id: int, n: nat, mid: seq<Annotation>, all: seq<Annotation>)
    requires |files| > 0
    requires n <= |mid| <= |all| && all[..|mid|] == mid
    requires Placements(mid[n..]) == OnImage(id, FileWanted(files[0], env))
    requires Placements(all[|mid|..]) == AllPlaced(files[1..], env, id + EntryCount(files[0], env))
    ensures Placements(all[n..]) == AllPlaced(files, env, id)
  {
    AllPlacedCons(files, env, id);
    PlacementsAppend(all, mid, n, OnImage(id, FileWanted(files[0], env)),
                     AllPlaced(files[1..], env, id + EntryCount(files[0], env)));
  }

  lemma {:induction false} AllPlacedCons(files: seq<XmlFile>, env: Env, id: int)
    requires |files| > 0
    ensures AllPlaced(files, env, id) == OnImage(id, FileWanted(files[0], env)) + AllPlaced(files[1..], env, id + EntryCount(files[0], env))
  {
  }

  /** Annotations appended in two runs: their placements are the first run's followed by the second's. */
  lemma PlacementsAppend(all: seq<Annotation>, mid: seq<Annotation>, n: nat, first: seq<Placed>, second: seq<Placed>)
    requires n <= |mid| <= |all| && all[..|mid|] == mid
    requires Placements(mid[n..]) == first && Placements(all[|mid|..]) == second
    ensures Placements(all[n..]) == first + second
  {
    assert all[n..] == mid[n..] + all[|mid|..];
    PlacementsOfConcat(mid[n..], all[|mid|..]);
  }

  /** The first bad file of the rest, counted from the start of the whole. */
  lemma BadFileShift(files: seq<XmlFile>, env: Env, k: nat)
    requires |files| > 0 && k < |files[1..]| && !FileOk(files[1..][k], env)
    ensures !FileOk(files[1 + k], env) && FileError(files[1 + k], env) == FileError(files[1..][k], env)
  {
    assert files[1 + k] == files[1..][k];
  }

  /** Annotations of the first file followed by those of the rest are those of all the files. */
  lemma FilesAppend(files: seq<XmlFile>, env: Env, before: seq<Annotation>, mid: seq<Annotation>, after: seq<Annotation>)
    requires |files| > 0
    requires |before| <= |mid| && mid[..|before|] == before
    requires Instances(mid[|before|..]) == FileWanted(files[0], env)
    requires |mid| <= |after| && after[..|mid|] == mid
    requires Instances(after[|mid|..]) == AllWanted(files[1..], env)
    ensures after[..|before|] == before
    ensures Instances(after[|before|..]) == AllWanted(files, env)
  {
    assert after[..|before|] == mid[..|before|];
    InstancesAppend(after, mid, |before|, FileWanted(files[0], env), AllWanted(files[1..], env));
  }

  /** A successful first pass followed by a successful rest is a successful whole. */
  lemma ConvertFilesStep(files: seq<XmlFile>, env: Env, st: ConvState, next: ConvState, done: ConvState)
    requires |files| > 0
    requires ConvertFile(files[0], env, st) == Success(next)
    requires forall i :: 0 <= i < |files[1..]| ==> files[1..][i].content.Parsed?
    requires Consistent(next) ==> Consistent(done)
    requires ImageNames(done.images) == ImageNames(next.images) + FoundNames(files[1..], env.images)
    requires done.missingImages == next.missingImages + MissingCount(files[1..], env.images)
    requires done.skippedUnknown == next.skippedUnknown + UnknownTotal(files[1..], env.images)
    requires !env.allowUnknown ==> UnknownTotal(files[1..], env.images) == 0
    ensures forall i :: 0 <= i < |files| ==> files[i].content.Parsed?
    ensures Consistent(st) ==> Consistent(done)
    ensures ImageNames(done.images) == ImageNames(st.images) + FoundNames(files, env.images)
    ensures done.missingImages == st.missingImages + MissingCount(files, env.images)
    ensures done.skippedUnknown == st.skippedUnknown + UnknownTotal(files, env.images)
    ensures !env.allowUnknown ==> UnknownTotal(files, env.images) == 0
  {
    ConvertFileStep(files[0], env, st, next);
    FoldsSplit(files, env.images);
    assert ImageNames(done.images)
        == ImageNames(st.images) + (FoundNames([files[0]], env.images) + FoundNames(files[1..], env.images));
    AllParsedFromTail(files);
  }

  lemma AllParsedFromTail(files: seq<XmlFile>)
    requires |files| > 0 && files[0].content.Parsed?
    requires forall i :: 0 <= i < |files[1..]| ==> files[1..][i].content.Parsed?
    ensures forall i :: 0 <= i < |files| ==> files[i].content.Parsed?
  {
    forall i | 1 <= i < |files|
      ensures files[i].content.Parsed?
    {
      assert files[i] == files[1..][i - 1];
    }
  }

  lemma MalformedFromTail(files: seq<XmlFile>, name: string)
    requires |files| > 0
    requires exists j :: 0 <= j < |files[1..]| && files[1..][j].content.Malformed? && FileName(files[1..][j]) == name
    ensures exists i :: 0 <= i < |files| && files[i].content.Malformed? && FileName(files[i]) == name
  {
    var j :| 0 <= j < |files[1..]| && files[1..][j].content.Malformed? && FileName(files[1..][j]) == name;
    assert files[j + 1] == files[1..][j];
  }

  /** The reference folds split into the first file and the rest. */
  lemma FoldsSplit(files: seq<XmlFile>, listing: seq<DirEntry>)
    requires |files| > 0
    ensures FoundNames(files, listing) == FoundNames([files[0]], listing) + FoundNames(files[1..], listing)
    ensures MissingCount(files, listing) == MissingCount([files[0]], listing) + MissingCount(files[1..], listing)
    ensures UnknownTotal(files, listing) == UnknownTotal([files[0]], listing) + UnknownTotal(files[1..], listing)
  {
    FoundNamesSplit(files, listing);
    MissingCountSplit(files, listing);
    UnknownTotalSplit(files, listing);
  }

  lemma FoundNamesSplit(files: seq<XmlFile>, listing: seq<DirEntry>)
    requires |files| > 0
    ensures FoundNames(files, listing) == FoundNames([files[0]], listing) + FoundNames(files[1..], listing)
  {
    var one := [files[0]];
    assert one[1..] == [] && one[0] == files[0];
    assert FoundNames(one[1..], listing) == [];
  }

  lemma MissingCountSplit(files: seq<XmlFile>, listing: seq<DirEntry>)
    requires |files| > 0
    ensures MissingCount(files, listing) == MissingCount([files[0]], listing) + MissingCount(files[1..], listing)
  {
    var one := [files[0]];
    assert one[1..] == [] && one[0] == files[0];
    assert MissingCount(one[1..], listing) == 0;
  }

  lemma UnknownTotalSplit(files: seq<XmlFile>, listing: seq<DirEntry>)
    requires |files| > 0
    ensures UnknownTotal(files, listing) == UnknownTotal([files[0]], listing) + UnknownTotal(files[1..], listing)
  {
    var one := [files[0]];
    assert one[1..] == [] && one[0] == files[0];
    assert UnknownTotal(one[1..], listing) == 0;
  }

  /** What one successful pass contributes, in the terms of the reference definitions. */
  lemma ConvertFileStep(file: XmlFile, env: Env, st: ConvState, next: ConvState)
    requires ConvertFile(file, env, st) == Success(next)
    ensures file.content.Parsed?
    ensures Consistent(st) ==> Consistent(next)
    ensures ImageNames(next.images) == ImageNames(st.images) + FoundNames([file], env.images)
    ensures next.missingImages == st.missingImages + MissingCount([file], env.images)
    ensures next.skippedUnknown == st.skippedUnknown + UnknownTotal([file], env.images)
    ensures !env.allowUnknown ==> UnknownTotal([file], env.images) == 0
  {
    FoldsOfOne(file, env.images);
    match FindImageFile(env.images, file.stem)
    case None =>
    case Some(name) =>
      AddsImageNames(st, next, name);
      if Consistent(st) {
        AddsImageKeepsConsistent(st, next, name);
      }
  }

  /** The reference folds over a single file. */
  lemma FoldsOfOne(file: XmlFile, listing: seq<DirEntry>)
    ensures FindImageFile(listing, file.stem).None? ==>
              FoundNames([file], listing) == [] && MissingCount([file], listing) == 1 && UnknownTotal([file], listing) == 0
    ensures FindImageFile(listing, file.stem).Some? ==>
              && FoundNames([file], listing) == [FindImageFile(listing, file.stem).value]
              && MissingCount([file], listing) == 0
              && UnknownTotal([file], listing) == (if file.content.Parsed? then UnknownCount(file.content.doc.objects) else 0)
  {
    var one := [file];
    assert one[1..] == [] && one[0] == file;
    assert FoundNames(one[1..], listing) == [] && MissingCount(one[1..], listing) == 0 && UnknownTotal(one[1..], listing) == 0;
    match FindImageFile(listing, file.stem)
    case None =>
    case Some(name) => assert [name] + [] == [name];
  }

  /**
    The whole run over the sorted annotation files, from ids 1 and empty
    lists: a well-numbered COCO document whose image entries are the found
    images in file order, with every other file counted missing.
   */
  function Convert(files: seq<XmlFile>, env: Env): (r: Result<Coco, ConvError>)
    ensures r.Success? ==> forall i :: 0 <= i < |files| ==> files[i].content.Parsed?
    ensures r.Failure? && r.error.ParseFailed? ==>
              exists i :: 0 <= i < |files| && files[i].content.Malformed? && FileName(files[i]) == r.error.file
    ensures r.Success? ==> WellNumbered(r.value.images, r.value.annotations)
    ensures r.Success? ==> r.value.categories == Categories
    ensures r.Success? ==> ImageNames(r.value.images) == FoundNames(files, env.images)
    ensures r.Success? ==> r.value.missingImages == MissingCount(files, env.images)
    ensures r.Success? ==> |r.value.images| + r.value.missingImages == |files|
    ensures r.Success? ==> r.value.skippedUnknown == (if env.allowUnknown then UnknownTotal(files, env.images) else 0)
    ensures r.Success? <==> FirstBadFile(files, env) == |files|
    ensures r.Failure? ==>
              FirstBadFile(files, env) < |files|
              && r.error == FileError(files[FirstBadFile(files, env)], env)
    ensures r.Success? ==> Instances(r.value.annotations) == AllWanted(files, env)
    ensures r.Success? ==> r.value.images == AllImages(files, env, 1)
    ensures r.Success? ==> Placements(r.value.annotations) == AllPlaced(files, env, 1)
  {
    var st :- ConvertFiles(files, env, Start);
    StartConsistent();
    RunFacts(files, env, st);
    RunSkipped(files, env, st);
    assert st.annotations[|Start.annotations|..] == st.annotations;
    assert Start.images + AllImages(files, env, 1) == AllImages(files, env, 1);
    Success(Coco(st.images, st.annotations, Categories, st.skippedUnknown, st.missingImages))
  }

  /** What a completed run's image list and missing counter say about its files. */
  lemma RunFacts(files: seq<XmlFile>, env: Env, st: ConvState)
    requires ImageNames(st.images) == ImageNames(Start.images) + FoundNames(files, env.images)
    requires st.missingImages == Start.missingImages + MissingCount(files, env.images)
    ensures ImageNames(st.images) == FoundNames(files, env.images)
    ensures st.missingImages == MissingCount(files, env.images)
    ensures |st.images| + st.missingImages == |files|
  {
    FoundPlusMissing(files, env.images);
    assert ImageNames(Start.images) == [];
  }

  /** What a completed run's unknown-label counter says about its files. */
  lemma RunSkipped(files: seq<XmlFile>, env: Env, st: ConvState)
    requires st.skippedUnknown == Start.skippedUnknown + UnknownTotal(files, env.images)
    requires !env.allowUnknown ==> UnknownTotal(files, env.images) == 0
    ensures st.skippedUnknown == (if env.allowUnknown then UnknownTotal(files, env.images) else 0)
  {
  }

  /** The start values satisfy the loop invariant. */
  lemma StartConsistent()
    ensures Consistent(Start)
  {
  }

  /**
    `main`'s exit status once both directories exist: 2 when there is no
    annotation file, 3 when the run stops on a parse error, 1 when it stops
    on any other (uncaught) error, 0 when it completes.
   */
  function ExitCode(files: seq<XmlFile>, env: Env): (code: int)
    ensures code == 2 <==> |files| == 0
    ensures code == 0 <==> |files| > 0 && Convert(files, env).Success?
    ensures code == 3 ==> exists i :: 0 <= i < |files| && files[i].content.Malformed?
    ensures (forall i :: 0 <= i < |files| ==> files[i].content.Parsed?) ==> code != 3
    ensures 0 <= code <= 3
    ensures code == 3 <==> |files| > 0 && Convert(files, env).Failure? && Convert(files, env).error.ParseFailed?
    ensures code == 1 <==> |files| > 0 && Convert(files, env).Failure? && !Convert(files, env).error.ParseFailed?
    ensures var k := FirstBadFile(files, env);
            code == 3 <==> k < |files| && files[k].content.Malformed?
  {
    if |files| == 0 then 2
    else
      match Convert(files, env)
      case Success(_) => 0
      case Failure(e) =>
        if e.ParseFailed? then 3 else 1
  }

  /** A malformed first file ends the run with status 3, whatever follows it. */
  lemma MalformedFirstFileExitsThree(files: seq<XmlFile>, env: Env)
    requires |files| > 0 && files[0].content.Malformed?
    ensures ExitCode(files, env) == 3
  {
    assert ConvertFile(files[0], env, Start) == Failure(ParseFailed(FileName(files[0])));
  }

  /** An element holding the decimal text of `n`. */
  function Num(n: int): Option<Elem> {
    Some(Elem(Some(IntToDecimal(n))))
  }

  /** A field holding the decimal text of `n` reads back as `n`. */
  lemma ReadNum(n: int, field: string)
    ensures GetText(Num(n), None) == Some(IntToDecimal(n))
    ensures ParseIntField(GetText(Num(n), None), field) == Success(n)
    ensures ReadField(Num(n), field).Success? && ReadField(Num(n), field).value == n
  {
    StripOfPadded("", IntToDecimal(n), "");
    assert "" + IntToDecimal(n) + "" == IntToDecimal(n);
    ParseFloatTruncOfDecimal(n, "", "");
  }

  /** `<difficult>0</difficult>` gives `iscrowd` 0. */
  lemma DifficultZeroIsNotCrowd()
    ensures CrowdFlag(Some(Elem(Some("0")))) == 0
  {
    StripOfPadded("", "0", "");
    assert "" + "0" + "" == "0";
  }

  /** The annotation file `stem.xml` declaring a `width` by `height` image with one object. */
  function OneObjectFile(stem: string, width: int, height: int, obj: VocObject): XmlFile {
    XmlFile(stem, ".xml", Parsed(VocDoc(Some(SizeNode(Num(width), Num(height))), [obj])))
  }

  /** An image directory holding just `stem.jpg`. */
  function JpgOnly(stem: string): seq<DirEntry> {
    [DirEntry(stem, ".jpg", true)]
  }

  lemma JpgOnlyFound(stem: string)
    ensures FindImageFile(JpgOnly(stem), stem) == Some(stem + ".jpg")
  {
    assert Name(JpgOnly(stem)[0]) == stem + ImageExts[0];
    assert FirstExistingExt(JpgOnly(stem), stem, 0) == 0;
  }

  /** The loop over one object is that object's outcome applied. */
  lemma OneObjectLoop(obj: VocObject, file: string, imgId: int, width: int, height: int, allowUnknown: bool, st: ConvState)
    ensures var step := ApplyOutcome(ConvertObject(obj, file, width, height, allowUnknown), imgId, st);
            var loop := ConvertObjects([obj], file, imgId, width, height, allowUnknown, st);
            && loop.Success? == step.Success?
            && (step.Success? ==> loop.value == step.value)
            && (step.Failure? ==> loop.error == step.error)
  {
    assert [obj][1..] == [];
    assert [obj][0] == obj;
  }

  /** The loop over one file is that file's pass. */
  lemma OneFileLoop(file: XmlFile, env: Env, st: ConvState)
    ensures ConvertFiles([file], env, st).Success? == ConvertFile(file, env, st).Success?
    ensures ConvertFile(file, env, st).Success? ==> ConvertFiles([file], env, st).value == ConvertFile(file, env, st).value
    ensures ConvertFile(file, env, st).Failure? ==> ConvertFiles([file], env, st).error == ConvertFile(file, env, st).error
  {
    assert [file][1..] == [];
    assert [file][0] == file;
  }

  /** `Convert` packages the loop's final state. */
  lemma ConvertPackages(files: seq<XmlFile>, env: Env)
    ensures Convert(files, env).Success? == ConvertFiles(files, env, Start).Success?
    ensures ConvertFiles(files, env, Start).Success? ==>
              var st := ConvertFiles(files, env, Start).value;
              Convert(files, env).value == Coco(st.images, st.annotations, Categories, st.skippedUnknown, st.missingImages)
    ensures ConvertFiles(files, env, Start).Failure? ==> Convert(files, env).error == ConvertFiles(files, env, Start).error
  {
  }

  /** A run over one file is that file's pass from the start values. */
  lemma SingleFileRun(file: XmlFile, env: Env)
    ensures ConvertFile(file, env, Start).Failure? ==>
              Convert([file], env).Failure? && Convert([file], env).error == ConvertFile(file, env, Start).error
    ensures ConvertFile(file, env, Start).Success? ==>
              var st := ConvertFile(file, env, Start).value;
              Convert([file], env).Success?
              && Convert([file], env).value == Coco(st.images, st.annotations, Categories, st.skippedUnknown, st.missingImages)
  {
    OneFileLoop(file, env, Start);
    ConvertPackages([file], env);
  }

  /** Once the size reads, the found image's pass is the sized pass. */
  lemma FoundIsSized(doc: VocDoc, file: string, imageName: string, env: Env, st: ConvState, dims: Dims)
    requires ImageSize(doc, imageName, env.pixelSizes, file) == Success(dims)
    ensures ConvertFound(doc, file, imageName, env, st) == ConvertSized(doc, file, imageName, env, st, dims)
  {
  }

  /** With the objects' pass succeeding, the sized pass succeeds with the image id moved on. */
  lemma SizedRunSuccess(doc: VocDoc, file: string, imageName: string, env: Env, st: ConvState, dims: Dims, done: ConvState)
    requires var withImage := st.(images := st.images + [Image(st.imgId, imageName, dims.width, dims.height)]);
             ConvertObjects(doc.objects, file, st.imgId, dims.width, dims.height, env.allowUnknown, withImage) == Success(done)
    ensures ConvertSized(doc, file, imageName, env, st, dims) == Success(done.(imgId := done.imgId + 1))
  {
  }

  /** With the objects' pass failing, the sized pass fails with its error. */
  lemma SizedRunFailure(doc: VocDoc, file: string, imageName: string, env: Env, st: ConvState, dims: Dims, e: ConvError)
    requires var withImage := st.(images := st.images + [Image(st.imgId, imageName, dims.width, dims.height)]);
             ConvertObjects(doc.objects, file, st.imgId, dims.width, dims.height, env.allowUnknown, withImage) == Failure(e)
    ensures ConvertSized(doc, file, imageName, env, st, dims) == Failure(e)
  {
  }


  /** The car of the single-car document becomes an annotation with its box unchanged. */
  lemma CarEmits(file: string, width: int, height: int, xmin: int, ymin: int, xmax: int, ymax: int)
    requires 0 <= xmin < xmax <= width
    requires 0 <= ymin < ymax <= height
    ensures ConvertObject(VocObject(Some(Elem(Some("car"))), Some(Elem(Some("0"))),
                                    Some(BndBox(Num(xmin), Num(ymin), Num(xmax), Num(ymax)))),
                          file, width, height, false)
            == Emit(1, Box(xmin, ymin, xmax - xmin, ymax - ymin), 0)
  {
    ReadNum(xmin, "bndbox/xmin");
    ReadNum(ymin, "bndbox/ymin");
    ReadNum(xmax, "bndbox/xmax");
    ReadNum(ymax, "bndbox/ymax");
    CarIsOne();
    DifficultZeroIsNotCrowd();
    ValidBoxUnchanged(xmin, ymin, xmax, ymax, width, height);
    assert ReadCoords(BndBox(Num(xmin), Num(ymin), Num(xmax), Num(ymax))) == Success(Coords(xmin, ymin, xmax, ymax));
  }

  /** A document's declared size, when both fields hold decimal text, is that size. */
  lemma DeclaredSize(width: int, height: int, objs: seq<VocObject>, imageName: string, pixelSizes: map<string, Dims>, file: string)
    ensures ImageSize(VocDoc(Some(SizeNode(Num(width), Num(height))), objs), imageName, pixelSizes, file)
            == Success(Dims(width, height))
  {
    ReadNum(width, "size/width");
    ReadNum(height, "size/height");
  }

  /** The car's pass over its document's one object appends its annotation with the next id. */
  lemma CarObjects(file: string, imgId: int, width: int, height: int, xmin: int, ymin: int, xmax: int, ymax: int, st: ConvState)
    requires 0 <= xmin < xmax <= width
    requires 0 <= ymin < ymax <= height
    ensures var car := VocObject(Some(Elem(Some("car"))), Some(Elem(Some("0"))),
                                 Some(BndBox(Num(xmin), Num(ymin), Num(xmax), Num(ymax))));
            var box := Box(xmin, ymin, xmax - xmin, ymax - ymin);
            var r := ConvertObjects([car], file, imgId, width, height, false, st);
            && r.Success?
            && r.value == st.(annotations := st.annotations + [Annotation(st.annId, imgId, 1, box, box.w * box.h, 0)],
                              annId := st.annId + 1)
  {
    var car := VocObject(Some(Elem(Some("car"))), Some(Elem(Some("0"))),
                         Some(BndBox(Num(xmin), Num(ymin), Num(xmax), Num(ymax))));
    CarEmits(file, width, height, xmin, ymin, xmax, ymax);
    EmitObjectLoop(car, file, imgId, width, height, false, st, 1, Box(xmin, ymin, xmax - xmin, ymax - ymin), 0);
  }

  /** The loop over one emitted object appends its annotation with the next id. */
  lemma EmitObjectLoop(obj: VocObject, file: string, imgId: int, width: int, height: int, allowUnknown: bool,
                       st: ConvState, cat: int, box: Box, crowd: int)
    requires ConvertObject(obj, file, width, height, allowUnknown) == Emit(cat, box, crowd)
    ensures var r := ConvertObjects([obj], file, imgId, width, height, allowUnknown, st);
            && r.Success?
            && r.value == st.(annotations := st.annotations + [Annotation(st.annId, imgId, cat, box, box.w * box.h, crowd)],
                              annId := st.annId + 1)
  {
    var o := ConvertObject(obj, file, width, height, allowUnknown);
    ApplyEmit(o, imgId, st);
    OneObjectLoop(obj, file, imgId, width, height, allowUnknown, st);
  }

  /** An emitted annotation is appended with the next annotation id. */
  lemma ApplyEmit(o: ObjectOutcome, imgId: int, st: ConvState)
    requires o.Emit?
    ensures var r := ApplyOutcome(o, imgId, st);
            && r.Success?
            && r.value == st.(annotations := st.annotations + [Annotation(st.annId, imgId, o.categoryId, o.bbox, o.bbox.w * o.bbox.h, o.iscrowd)],
                              annId := st.annId + 1)
  {
  }

  /** The single-car document, once its image is found, adds image 1 and annotation 1. */
  lemma CarFound(stem: string, width: int, height: int, xmin: int, ymin: int, xmax: int, ymax: int)
    requires 0 <= xmin < xmax <= width
    requires 0 <= ymin < ymax <= height
    ensures var car := VocObject(Some(Elem(Some("car"))), Some(Elem(Some("0"))),
                                 Some(BndBox(Num(xmin), Num(ymin), Num(xmax), Num(ymax))));
            var box := Box(xmin, ymin, xmax - xmin, ymax - ymin);
            var r := ConvertFound(VocDoc(Some(SizeNode(Num(width), Num(height))), [car]), stem + ".xml",
                                  stem + ".jpg", Env(JpgOnly(stem), map[], false), Start);
            && r.Success?
            && r.value == ConvState(2, 2, 0, 0, [Image(1, stem + ".jpg", width, height)],
                                    [Annotation(1, 1, 1, box, box.w * box.h, 0)])
  {
    var car := VocObject(Some(Elem(Some("car"))), Some(Elem(Some("0"))),
                         Some(BndBox(Num(xmin), Num(ymin), Num(xmax), Num(ymax))));
    var doc := VocDoc(Some(SizeNode(Num(width), Num(height))), [car]);
    var img := Image(1, stem + ".jpg", width, height);
    var withImage := Start.(images := Start.images + [img]);
    assert Start.images + [img] == [img];
    CarObjects(stem + ".xml", 1, width, height, xmin, ymin, xmax, ymax, withImage);
    DeclaredSize(width, height, [car], stem + ".jpg", map[], stem + ".xml");
    var env := Env(JpgOnly(stem), map[], false);
    FoundIsSized(doc, stem + ".xml", stem + ".jpg", env, Start, Dims(width, height));
    SizedRunSuccess(doc, stem + ".xml", stem + ".jpg", env, Start, Dims(width, height),
                    ConvertObjects([car], stem + ".xml", 1, width, height, false, withImage).value);
    var box := Box(xmin, ymin, xmax - xmin, ymax - ymin);
    assert Start.annotations + [Annotation(1, 1, 1, box, box.w * box.h, 0)] == [Annotation(1, 1, 1, box, box.w * box.h, 0)];
  }

  /** The single-car file's pass: image 1 and annotation 1. */
  lemma CarPass(stem: string, width: int, height: int, xmin: int, ymin: int, xmax: int, ymax: int)
    requires 0 <= xmin < xmax <= width
    requires 0 <= ymin < ymax <= height
    ensures var car := VocObject(Some(Elem(Some("car"))), Some(Elem(Some("0"))),
                                 Some(BndBox(Num(xmin), Num(ymin), Num(xmax), Num(ymax))));
            var box := Box(xmin, ymin, xmax - xmin, ymax - ymin);
            var r := ConvertFile(OneObjectFile(stem, width, height, car), Env(JpgOnly(stem), map[], false), Start);
            && r.Success?
            && r.value == ConvState(2, 2, 0, 0, [Image(1, stem + ".jpg", width, height)],
                                    [Annotation(1, 1, 1, box, box.w * box.h, 0)])
  {
    var car := VocObject(Some(Elem(Some("car"))), Some(Elem(Some("0"))),
                         Some(BndBox(Num(xmin), Num(ymin), Num(xmax), Num(ymax))));
    var file := OneObjectFile(stem, width, height, car);
    JpgOnlyFound(stem);
    FileFound(file, Env(JpgOnly(stem), map[], false), Start, stem + ".jpg");
    CarFound(stem, width, height, xmin, ymin, xmax, ymax);
  }

  /** A parsed file whose image is found is the found image's pass. */
  lemma FileFound(file: XmlFile, env: Env, st: ConvState, imageName: string)
    requires file.content.Parsed?
    requires FindImageFile(env.images, file.stem) == Some(imageName)
    ensures ConvertFile(file, env, st) == ConvertFound(file.content.doc, FileName(file), imageName, env, st)
  {
  }

  /**
    One annotation file declaring a `width` by `height` image with a single
    non-difficult car whose box already lies inside the image: the output
    holds image 1 and annotation 1 with the box as given and area `w * h`.
   */
  lemma SingleCarDocument(stem: string, width: int, height: int, xmin: int, ymin: int, xmax: int, ymax: int)
    requires 0 <= xmin < xmax <= width
    requires 0 <= ymin < ymax <= height
    ensures var car := VocObject(Some(Elem(Some("car"))), Some(Elem(Some("0"))),
                                 Some(BndBox(Num(xmin), Num(ymin), Num(xmax), Num(ymax))));
            var box := Box(xmin, ymin, xmax - xmin, ymax - ymin);
            var r := Convert([OneObjectFile(stem, width, height, car)], Env(JpgOnly(stem), map[], false));
            && r.Success?
            && r.value == Coco([Image(1, stem + ".jpg", width, height)],
                               [Annotation(1, 1, 1, box, box.w * box.h, 0)],
                               Categories, 0, 0)
  {
    var car := VocObject(Some(Elem(Some("car"))), Some(Elem(Some("0"))),
                         Some(BndBox(Num(xmin), Num(ymin), Num(xmax), Num(ymax))));
    CarPass(stem, width, height, xmin, ymin, xmax, ymax);
    SingleFileRun(OneObjectFile(stem, width, height, car), Env(JpgOnly(stem), map[], false));
  }

  /** The label "truck" has no category and is reported as written. */
  lemma TruckIsUnknown()
    ensures CategoryOf(Some(Elem(Some("truck")))).None?
    ensures RawLabel(Some(Elem(Some("truck")))) == "truck"
  {
    var w := "truck";
    assert IsStripped(w) && w != "car" && w != "motorbike";
    UnknownPlainLabel(w);
  }

  /** Without `allowUnknown` a "truck" object is fatal and its error names the label. */
  lemma TruckObjectFatal(file: string, width: int, height: int, b: BndBox)
    ensures ConvertObject(VocObject(Some(Elem(Some("truck"))), None, Some(b)), file, width, height, false)
            == Fatal(UnknownLabel("truck", file))
  {
    TruckIsUnknown();
  }

  /** Without `allowUnknown`, a "truck" stops the run with an error naming the label and the file. */
  lemma TruckIsFatal(stem: string, width: int, height: int, b: BndBox)
    ensures var truck := VocObject(Some(Elem(Some("truck"))), None, Some(b));
            var r := Convert([OneObjectFile(stem, width, height, truck)], Env(JpgOnly(stem), map[], false));
            r.Failure? && r.error == UnknownLabel("truck", stem + ".xml")
  {
    var truck := VocObject(Some(Elem(Some("truck"))), None, Some(b));
    var file := OneObjectFile(stem, width, height, truck);
    var env := Env(JpgOnly(stem), map[], false);
    TruckPass(stem, width, height, b);
    SingleFileRun(file, env);
  }

  /** The truck file's pass fails with the unknown label. */
  lemma TruckPass(stem: string, width: int, height: int, b: BndBox)
    ensures var truck := VocObject(Some(Elem(Some("truck"))), None, Some(b));
            var r := ConvertFile(OneObjectFile(stem, width, height, truck), Env(JpgOnly(stem), map[], false), Start);
            r.Failure? && r.error == UnknownLabel("truck", stem + ".xml")
  {
    var truck := VocObject(Some(Elem(Some("truck"))), None, Some(b));
    var file := OneObjectFile(stem, width, height, truck);
    JpgOnlyFound(stem);
    FileFound(file, Env(JpgOnly(stem), map[], false), Start, stem + ".jpg");
    TruckFound(stem, width, height, b);
  }

  /** Once its image is found, the truck document's objects stop the pass. */
  lemma TruckFound(stem: string, width: int, height: int, b: BndBox)
    ensures var truck := VocObject(Some(Elem(Some("truck"))), None, Some(b));
            var r := ConvertFound(VocDoc(Some(SizeNode(Num(width), Num(height))), [truck]), stem + ".xml",
                                  stem + ".jpg", Env(JpgOnly(stem), map[], false), Start);
            r.Failure? && r.error == UnknownLabel("truck", stem + ".xml")
  {
    var truck := VocObject(Some(Elem(Some("truck"))), None, Some(b));
    TruckObjectFatal(stem + ".xml", width, height, b);
    DeclaredSize(width, height, [truck], stem + ".jpg", map[], stem + ".xml");
    FatalObjectFound(VocDoc(Some(SizeNode(Num(width), Num(height))), [truck]), truck, stem + ".xml", stem + ".jpg",
                     Env(JpgOnly(stem), map[], false), Start, Dims(width, height), UnknownLabel("truck", stem + ".xml"));
  }

  /** A document whose only object is fatal fails the found image's pass with that object's error. */
  lemma FatalObjectFound(doc: VocDoc, obj: VocObject, file: string, imageName: string, env: Env, st: ConvState,
                         dims: Dims, err: ConvError)
    requires doc.objects == [obj]
    requires ImageSize(doc, imageName, env.pixelSizes, file) == Success(dims)
    requires ConvertObject(obj, file, dims.width, dims.height, env.allowUnknown) == Fatal(err)
    ensures ConvertFound(doc, file, imageName, env, st).Failure?
    ensures ConvertFound(doc, file, imageName, env, st).error == err
  {
    var withImage := st.(images := st.images + [Image(st.imgId, imageName, dims.width, dims.height)]);
    FatalObjectLoop(obj, file, st.imgId, dims.width, dims.height, env.allowUnknown, withImage, err);
    FoundIsSized(doc, file, imageName, env, st, dims);
    SizedRunFailure(doc, file, imageName, env, st, dims, err);
  }

  /** The loop over one fatal object fails with that object's error. */
  lemma FatalObjectLoop(obj: VocObject, file: string, imgId: int, width: int, height: int, allowUnknown: bool,
                        st: ConvState, err: ConvError)
    requires ConvertObject(obj, file, width, height, allowUnknown) == Fatal(err)
    ensures ConvertObjects([obj], file, imgId, width, height, allowUnknown, st).Failure?
    ensures ConvertObjects([obj], file, imgId, width, height, allowUnknown, st).error == err
  {
    var step := ApplyOutcome(Fatal(err), imgId, st);
    assert step.Failure? && step.error == err;
    OneObjectLoop(obj, file, imgId, width, height, allowUnknown, st);
  }
}
