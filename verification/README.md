# HCMUT-UAV dataset tools, modelled in Dafny

The HCMUT-UAV release ships one Pascal VOC XML annotation per aerial image.
This project models its three dataset scripts and proves properties about them:

- `scripts/voc_xml_to_coco.py` is the converter. It turns the annotation files into one COCO document.
  - It resolves each file's image and reads the image size.
  - It maps labels to the two categories, car (1) and motorbike (2).
  - It orders and clips every box, and drops degenerate boxes.
  - It numbers images and annotations from 1.
  - It exits with status 0, 2 or 3, or with an uncaught error.
- `scripts/check_dataset_pairs.py` is the pair checker. It compares image stems with annotation stems and reports both differences. It shows at most ten examples of each difference.
- `scripts/count_instances_voc.py` is the instance counter. It counts the following:
  - parsed files, empty files and unparsable files;
  - difficult objects;
  - the objects of each class, optionally leaving difficult ones out.
  It then lists the classes most common first.

Modules, one per concern:

| file | module | contents |
|---|---|---|
| `wrappers.dfy` | `Wrappers` | `Option` and `Result` |
| `text.dfy` | `Text` | Python's `strip`, `lower`, `int()`, `int(float())` and `", ".join` on ASCII text |
| `lex.dfy` | `Lex` | code-point string order, `sorted` |
| `voc.dfy` | `Voc` | the parsed annotation document and directory entries |
| `labels.dfy` | `Labels` | the converter's class table |
| `geometry.dfy` | `Geometry` | box ordering, clipping and the degenerate test |
| `resolver.dfy` | `Resolver` | `find_image_file` |
| `converter.dfy` | `Converter` | the conversion loop, its summary counters and its exit status |
| `pairs.dfy` | `Pairs` | the pair checker |
| `counter.dfy` | `InstanceCount` | the instance counter |

The model takes a few things as inputs rather than computing them:
- An annotation file is either `Malformed` (the XML parser raised) or a parsed `VocDoc`.
- An element is `Option<Elem>`, and `Elem` has an optional text. This keeps a missing element apart from an element with no text, which matters to the counter: `str(0)` is not `str(None)`.
- A directory is a sequence of `DirEntry(stem, suffix, isFile)`.
- The pixel sizes of images (Pillow) are a map from file name to dimensions.

## Model

| member | source | states |
|---|---|---|
| Text.Strip | scripts/voc_xml_to_coco.py:48 | the result has no leading or trailing whitespace and is no longer than the input |
| Text.StripOfPadded | scripts/voc_xml_to_coco.py:48 | stripping removes exactly the whitespace padding around a stripped core |
| Text.StripIdempotent | scripts/voc_xml_to_coco.py:148 | stripping an already stripped label changes nothing |
| Text.LowerOfLowerCase | scripts/voc_xml_to_coco.py:149 | `lower()` leaves text without upper-case letters unchanged |
| Text.LowerIdempotent | scripts/voc_xml_to_coco.py:149 | lower-casing a key a second time changes nothing |
| Text.Lower | scripts/voc_xml_to_coco.py:149 | `lower()` keeps the length and maps every character through the ASCII case fold, position by position |
| Text.ParseIntOfDecimal | scripts/count_instances_voc.py:9 | `int()` reads the decimal text of every integer, with whitespace around it, back as that integer |
| Text.ParseInt | scripts/count_instances_voc.py:9 | `int()` succeeds exactly on the texts that, once whitespace is stripped, are an optional sign followed by at least one digit; all digits read as their decimal value, a leading minus sign negates the digits after it and a leading plus sign keeps their value |
| Text.ParseFloatTruncOfDecimal | scripts/voc_xml_to_coco.py:54 | `int(float(text))` reads integer text, padded or not, back as the integer |
| Text.ParseFloatTruncOfDotted | scripts/voc_xml_to_coco.py:54 | `int(float(text))` reads "n.ddd" as n, truncating the fraction, for negative n too |
| Text.ParseFloatTrunc | scripts/voc_xml_to_coco.py:54 | `int(float(text))` succeeds exactly on the texts that, once stripped, are an optional sign and then digits with at most one dot and at least one digit; the value is the sign times the digits before the dot, the fraction cut off; it agrees with `int()` wherever `int()` reads the text, and a negative value needs a leading minus sign |
| Lex.LeTotal | scripts/check_dataset_pairs.py:31 | any two strings are comparable in Python's string order |
| Lex.LeTransitive | scripts/check_dataset_pairs.py:31 | Python's string order is transitive |
| Lex.LeAntisymmetric | scripts/check_dataset_pairs.py:31 | two strings ordered both ways are equal |
| Lex.Sort | scripts/check_dataset_pairs.py:31 | `sorted` returns an ordered permutation of its input |
| Lex.SortedUnique | scripts/check_dataset_pairs.py:31 | two ordered permutations of the same items are the same sequence |
| Lex.SortDependsOnlyOnContents | scripts/check_dataset_pairs.py:31 | `sorted` gives the same list for any two orderings of the same items |
| Text.Join | scripts/check_dataset_pairs.py:36 | `", ".join` gives "" for no items and the item itself for one; otherwise its length is the items' lengths plus one separator between each pair; every item sits at its offset (the lengths of the items before it plus one separator for each), and the separator follows every item but the last |
| Voc.GetText | scripts/voc_xml_to_coco.py:44-48 | the default when the child or its text is missing, otherwise the child's stripped text |
| Labels.Lookup | scripts/voc_xml_to_coco.py:25-29 | the table gives 1 for "car", 2 for "motorbike" and "motorbike\n", and nothing for every other key |
| Labels.StrippedKeyIsNotNewlineVariant | scripts/voc_xml_to_coco.py:28 | no stripped key equals "motorbike\n", so that entry is never used |
| Labels.RawLabel | scripts/voc_xml_to_coco.py:148 | the label is "" when `<name>` or its text is missing, otherwise the stripped text |
| Labels.LabelKey | scripts/voc_xml_to_coco.py:149 | the key is stripped, as long as the label and already lower-case |
| Labels.CategoryOf | scripts/voc_xml_to_coco.py:148-150 | category 1 exactly when the stripped, lower-cased label is "car"; 2 exactly when it is "motorbike"; none otherwise |
| Labels.LabelKeyOfPadded | scripts/voc_xml_to_coco.py:148-149 | the key of a label padded with whitespace is its lower-cased core |
| Labels.CategoryIgnoresCaseAndPadding | scripts/voc_xml_to_coco.py:148-150 | a label padded with whitespace has the category of its lower-cased core, so "  Motorbike\n" is category 2 like "motorbike" |
| Labels.UnknownPlainLabel | scripts/voc_xml_to_coco.py:148-152 | a stripped lower-case label other than "car" and "motorbike" has no category and is reported exactly as written |
| Labels.MissingNameIsUnknown | scripts/voc_xml_to_coco.py:148 | a missing `<name>`, or one without text, has no category |
| Labels.CategoriesMatchClassMap | scripts/voc_xml_to_coco.py:97-100 | every row of the categories block is the category that its own name maps to |
| Geometry.NormalizeBox | scripts/voc_xml_to_coco.py:169-181 | a kept box lies inside the image; it is kept exactly when each axis keeps a positive extent after ordering and clipping; each axis starts at the clipped minimum and spans to the clipped maximum |
| Geometry.SwapInvariant | scripts/voc_xml_to_coco.py:170-171 | swapping xmin with xmax or ymin with ymax does not change the box |
| Geometry.ValidBoxUnchanged | scripts/voc_xml_to_coco.py:169-178 | an ordered box inside the image comes out as [xmin, ymin, xmax-xmin, ymax-ymin] |
| Geometry.ThinBoxAtFarEdge | scripts/voc_xml_to_coco.py:172-175 | a box right of a 640-wide image becomes a one-pixel column at x = 639 |
| Resolver.FindImageFile | scripts/voc_xml_to_coco.py:32-41 | the first existing `stem + ext` in extension order wins; otherwise the first file that has the stem and an image suffix in any case; nothing exactly when neither exists |
| Resolver.MixedCaseExtensionFound | scripts/voc_xml_to_coco.py:37-40 | with no lower-case match, the first upper- or mixed-case image file is found |
| Converter.ParseIntField | scripts/voc_xml_to_coco.py:51-54 | a missing text fails naming the field; unreadable text fails naming the text; other text gives its truncated value |
| Converter.ReadCoords | scripts/voc_xml_to_coco.py:164-167 | the box reads exactly when all four fields read, and then holds their values; otherwise the error is that of the first field, in the order xmin, ymin, xmax, ymax, that fails; only missing-field or bad-number errors occur |
| Converter.CrowdFlag | scripts/voc_xml_to_coco.py:183-184 | `iscrowd` is 1 exactly when `<difficult>` has text that strips to "1", and 0 otherwise |
| Converter.DifficultZeroIsNotCrowd | scripts/voc_xml_to_coco.py:183-184 | `<difficult>0</difficult>` gives `iscrowd` 0 |
| Converter.ConvertObject | scripts/voc_xml_to_coco.py:147-184 | an unknown label is skipped only with allow-unknown and is fatal otherwise; a missing bndbox is skipped; unreadable coordinates are fatal with the coordinate's error; a degenerate box is skipped; an emission happens exactly when the independent reference `Wanted` gives an instance, and carries that instance's category, box and crowd flag |
| Converter.ApplyOutcome | scripts/voc_xml_to_coco.py:151-196 | only a fatal outcome fails, with its error; an unknown-label skip adds one to the skipped count; an emission appends exactly one annotation with the next id, the current image, area w*h, and nothing else changes |
| Converter.ApplyOutcomeCountsUnknown | scripts/voc_xml_to_coco.py:151-157 | each object adds one to the unknown-label count exactly when its label is unknown |
| Converter.ConvertObjects | scripts/voc_xml_to_coco.py:147-196 | the object loop succeeds exactly when no object is fatal, else fails with the first fatal object's error (an unknown label, a missing field or a bad number); on success the appended annotations, ids stripped, are exactly the reference `WantedAll` of the objects, with consecutive ids for this image, and the unknown labels are counted |
| Converter.ImageSize | scripts/voc_xml_to_coco.py:122-136 | with `<size>`: succeeds exactly when width and height both read, giving those values, else fails with the width's error first and then the height's; without `<size>`: the image's pixel size when known, else an error naming the file; only missing-field, bad-number or no-size errors occur |
| Converter.ConvertFound | scripts/voc_xml_to_coco.py:122-198 | a found image succeeds exactly when its size reads and no object is fatal; a size error or the first fatal object's error otherwise; on success it adds one image entry with the next id, the found file name and the read size, followed by exactly the reference annotations of its objects |
| Converter.ConvertSized | scripts/voc_xml_to_coco.py:138-198 | once the size is known: succeeds exactly when no object is fatal, else the first fatal object's error; on success one image entry with the given size and then the reference annotations |
| Converter.ConvertFile | scripts/voc_xml_to_coco.py:108-198 | a file succeeds exactly when the reference `FileOk` holds and otherwise fails with the reference `FileError`; it fails with a parse error exactly when it is malformed; a file whose image is missing only adds one to the missing-image count; on success it keeps earlier annotations and appends exactly the reference `FileWanted`, all on the image id it was handed; its image entries are the earlier ones plus the reference `FileImages` (the found image with the size read for it, or none), and the next image id moves on by their number |
| Converter.AddsImageKeepsConsistent | scripts/voc_xml_to_coco.py:138-198 | adding an image and its annotations keeps image and annotation ids consecutive from 1, with every annotation pointing at an existing image |
| Converter.FoundPlusMissing | scripts/voc_xml_to_coco.py:116-120 | each file is either found or counted missing |
| Converter.ConvertFiles | scripts/voc_xml_to_coco.py:108-198 | the file loop succeeds exactly when no file fails, else with the reference error of the first failing file; on success it keeps numbering consistent; its image entries are exactly the reference `AllImages` (each file's found image with its id, name and read size, in file order); missing and unknown counts are the per-file totals; its annotations are exactly the reference `AllWanted`, and each one's image id is the id `AllImages` gives its own file (the reference `AllPlaced`) |
| Converter.Convert | scripts/voc_xml_to_coco.py:85-198 | the run succeeds exactly when no file fails, else with the first failing file's error; a successful run covers every file either as an image or as a missing image, with well-numbered entries, the fixed categories, exactly the reference image entries `AllImages` numbered from 1 and exactly the reference annotations, each on the image id of its own file (`AllPlaced`); unknown labels are counted only with allow-unknown |
| Converter.ExitCode | scripts/voc_xml_to_coco.py:57-214 | status 2 exactly when there is no annotation file; 0 exactly when the conversion succeeds; 3 exactly when it fails with a parse error, which happens exactly when the first failing file is malformed; 1 exactly when it fails with any other error |
| Converter.FileError | scripts/voc_xml_to_coco.py:109-113 | the error a failing file raises is a parse error exactly when the file is malformed |
| Converter.MalformedFirstFileExitsThree | scripts/voc_xml_to_coco.py:108-113 | a malformed first file ends the run with status 3 |
| Converter.SingleCarDocument | scripts/voc_xml_to_coco.py:108-198 | one file with a declared size and one car whose box lies inside the image gives exactly one image (id 1, the .jpg found) and one annotation (id 1, image 1, category 1, the box as [x, y, w, h], area w*h, iscrowd 0), with nothing skipped |
| Converter.TruckIsFatal | scripts/voc_xml_to_coco.py:151-157 | without allow-unknown, a "truck" label fails the run, naming the label and the file |
| Pairs.StemsWhere | scripts/check_dataset_pairs.py:18-27 | a stem is listed exactly when some accepted file has it |
| Pairs.ImageStems | scripts/check_dataset_pairs.py:18-23 | a stem is an image stem exactly when some listed file has it and an image suffix in any letter case |
| Pairs.XmlStems | scripts/check_dataset_pairs.py:26-27 | a stem is an xml stem exactly when some listed file has it and the suffix ".xml" in any letter case |
| Pairs.SuffixCaseIsIgnored | scripts/check_dataset_pairs.py:21 | changing the letter case of a file's suffix changes neither stem set |
| Pairs.CheckStems | scripts/check_dataset_pairs.py:55-64 | the two differences are disjoint and exclude the paired stems; image count = paired + images without xml; xml count = paired + xml without image |
| Pairs.CheckPairs | scripts/check_dataset_pairs.py:55-84 | status 0 exactly when the image stems and the xml stems are equal, and 1 exactly when they differ |
| Pairs.Verdict | scripts/check_dataset_pairs.py:79-84 | status 1 exactly when either difference has a member, 0 otherwise |
| Pairs.CheckPairsMeansMatched | scripts/check_dataset_pairs.py:79-84 | status 0 exactly when every image has an xml with its stem and every xml has an image with its stem |
| Pairs.SliceEnd | scripts/check_dataset_pairs.py:34 | Python's `items[:m]` keeps m items, all for m past the end, and counts from the end for negative m |
| Pairs.Shown | scripts/check_dataset_pairs.py:34 | the shown examples are ordered, are drawn from the items, and are no larger than any hidden item |
| Pairs.FormatExamples | scripts/check_dataset_pairs.py:30-36 | "(none)" for no items; all items sorted and comma-joined when they fit; otherwise the shown prefix plus " ... (+k more)" |
| Pairs.FormatOfSetIsDeterministic | scripts/check_dataset_pairs.py:30-31 | any two enumerations of the same set format the same way |
| Pairs.DefaultShowsAtMostTen | scripts/check_dataset_pairs.py:30-34 | with the default limit at most ten examples are shown, and exactly ten when there are that many |
| InstanceCount.ParseIntOr | scripts/count_instances_voc.py:7-11 | the value `int()` reads, or the default whenever `int()` would fail |
| InstanceCount.ParseIntOrOfDecimal | scripts/count_instances_voc.py:9 | the decimal text of an integer, with or without surrounding whitespace, reads back as that integer |
| InstanceCount.ParseIntOrOfNonNumber | scripts/count_instances_voc.py:10-11 | text with no digit at all, such as "None", gives the default |
| InstanceCount.IsDifficult | scripts/count_instances_voc.py:49-50 | an object is difficult exactly when its `<difficult>` element has text that `int()` reads as 1 |
| InstanceCount.DifficultText | scripts/count_instances_voc.py:50 | the element's text when it has one; otherwise a text that reads as 0 |
| InstanceCount.CrowdIsDifficult | scripts/count_instances_voc.py:50 | every object the converter marks as crowd is difficult for the counter |
| InstanceCount.LeadingZeroDifficultIsNotCrowd | scripts/count_instances_voc.py:50 | "01" is difficult for the counter but the converter gives it `iscrowd` 0 |
| InstanceCount.ClassKey | scripts/count_instances_voc.py:46-47 | "UNKNOWN" when `<name>` or its text is missing or empty; otherwise a stripped key |
| InstanceCount.ClassKeyOfPadded | scripts/count_instances_voc.py:47 | the key of a non-empty name is its stripped core, case kept; a name of only whitespace counts under the empty key |
| InstanceCount.Bump | scripts/count_instances_voc.py:57 | one more for the key and no change for every other key; a new key goes to the end of the order |
| InstanceCount.BumpAll | scripts/count_instances_voc.py:57 | each count rises by the occurrences of its key; old keys keep their place; new keys follow in first-occurrence order |
| InstanceCount.TotalOfBumpAll | scripts/count_instances_voc.py:56-57 | the sum of the counts rises by the number of keys added |
| InstanceCount.CountObjects | scripts/count_instances_voc.py:45-57 | every difficult object adds to `difficult_instances`; only counted objects add to `total_instances` and their class |
| InstanceCount.CountFile | scripts/count_instances_voc.py:36-61 | a parse error adds only to `parse_errors`; an empty document adds to `total_images` and `empty_images`; any other document adds to `total_images` and counts its objects |
| InstanceCount.CountFiles | scripts/count_instances_voc.py:35-61 | over all files: parsed files add to `total_images`, the others to `parse_errors`, empty ones to `empty_images`; the counters and the class counter cover exactly the objects of the parsed files |
| InstanceCount.CountInstances | scripts/count_instances_voc.py:22-61 | nothing when there is no file; otherwise parsed files plus parse errors make up all files; empty files are among the parsed ones; `total_instances` is the sum of the class counts; each class counts its objects; classes appear in the order first seen |
| InstanceCount.ExcludeDifficultRemovesExactlyDifficult | scripts/count_instances_voc.py:49-57 | excluding difficult objects leaves `difficult_instances` unchanged; it lowers `total_instances` by exactly that number and each class by exactly its difficult objects |
| InstanceCount.AllParsed | scripts/count_instances_voc.py:35-38 | when every file parses, every file counts as an image |
| InstanceCount.InsertByCount | scripts/count_instances_voc.py:72 | inserting a row keeps the list descending by count, adds exactly that row, and puts it after the rows with its count |
| InstanceCount.MostCommon | scripts/count_instances_voc.py:72 | `most_common()` is a permutation of the items, descending by count, keeping the insertion order among equal counts |
| InstanceCount.ClassReportFacts | scripts/count_instances_voc.py:71-73 | the report lists every counted class once with its number of counted objects, most common first, ties in the order first seen |
| InstanceCount.ClassReport | scripts/count_instances_voc.py:71-73 | the report is a permutation of the counter's items, descending by count, and each row carries its class's count |

## Left out

- Directory listing, `glob`/`rglob`, `is_dir` and sorting by path: the converter and the counter take the annotation files already listed and sorted. The pair checker takes the two directory listings.
- The status-2 exits for a missing images or annotations directory in the converter and the pair checker are not modelled; they are filesystem checks. The converter's status 2 for "no XML files" is modelled.
- XML parsing is not modelled. A file is either malformed or a parsed document. Only the first `<name>`, `<difficult>`, `<bndbox>` and `<size>` child is read, as `find` does.
- Pillow is left out: image sizes are an input map, and a missing entry stands for "Pillow failed".
- JSON writing, printing, the `info` and `licenses` blocks, the output directory and `argparse` are left out. The `area` field is the integer w*h; its conversion to `float` is not modelled.
- Text.Strip: strips only the ASCII whitespace that Python's `str.strip()` removes. Unicode spaces are not modelled.
- Text.Lower: folds only ASCII A-Z. Python's Unicode case mapping is not modelled.
- InstanceCount.ParseIntOr: reads an optional sign and ASCII digits only. Python's `int()` also accepts underscores between digits and non-ASCII digits; those are not modelled.
- Text.ParseFloatTrunc: `float()` is modelled for optional sign, digits and an optional fraction. Exponents, "inf", "nan" and underscores are not modelled. The model reads the exact decimal value and truncates it; it does not round to a double first. So any text with more significant digits than a double holds (about 15 to 17) can differ: Python's `int(float("640.99999999999999999"))` is 641, while the model gives 640. Very large integers are not rounded either.
- Converter.ExitCode: an uncaught `ValueError` is status 1, which stands for Python's exit on an uncaught exception. The traceback is not modelled.
- The counter's empty input prints an error and returns normally. The model gives `None` and no exit status.
- Case-insensitive filesystems are not modelled: `p.exists()` matches names exactly.

## Notes on behaviour

- Box clipping puts x1 at most width-1 but x2 at most width. A box lying wholly at or beyond the right (or bottom) edge therefore survives as a one-pixel sliver at the last column or row instead of being dropped. `Geometry.NormalizeBox` states exactly which boxes are kept, and `Geometry.ThinBoxAtFarEdge` shows the sliver.
- The converter maps `<difficult>` to `iscrowd` by comparing stripped text with "1". The counter uses `int()`. They disagree on texts such as "01" or "+1": see `InstanceCount.LeadingZeroDifficultIsNotCrowd`.
- Missing box coordinates are fatal in the code, as a `ValueError` escaping the object loop. A missing `<bndbox>` element is a per-object skip. The model follows the code. The same holds for a missing annotation file list in the counter, which the code treats as a normal return.
- The counter's class key keeps letter case, and a name of only whitespace counts under the empty key rather than "UNKNOWN" (`InstanceCount.ClassKeyOfPadded`).
