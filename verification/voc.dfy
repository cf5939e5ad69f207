/**
  The data model the three scripts share: directory entries split into stem and
  suffix, and VOC-style annotation documents in already-parsed form.
 */
module Voc {
  import opened Wrappers
  import opened Text

  /** A directory entry: `Path.stem`, `Path.suffix` and `is_file()`. */
  datatype DirEntry = DirEntry(stem: string, suffix: string, isFile: bool)

  /** `Path.name`: the stem followed by the suffix. */
  function Name(e: DirEntry): string {
    e.stem + e.suffix
  }

  /** The image extensions, in the order the converter tries them. */
  const ImageExts: seq<string> := [".jpg", ".jpeg", ".png", ".bmp", ".tif", ".tiff", ".webp"]

  /** A suffix that, lower-cased, is one of the image extensions. */
  predicate IsImageSuffix(suffix: string) {
    Lower(suffix) in ImageExts
  }

  /** A suffix that, lower-cased, is ".xml". */
  predicate IsXmlSuffix(suffix: string) {
    Lower(suffix) == ".xml"
  }

  /**
    One XML element as seen through `parent.find(tag)`: `None` when the child
    is absent; `Elem(None)` when it is present with no text (`<tag/>`).
   */
  datatype Elem = Elem(text: Option<string>)

  /** `<bndbox>` with its four coordinate children. */
  datatype BndBox = BndBox(xmin: Option<Elem>, ymin: Option<Elem>, xmax: Option<Elem>, ymax: Option<Elem>)

  /** `<size>` with its width and height children. */
  datatype SizeNode = SizeNode(width: Option<Elem>, height: Option<Elem>)

  /** One `<object>`: the first `name`, `difficult` and `bndbox` children. */
  datatype VocObject = VocObject(name: Option<Elem>, difficult: Option<Elem>, bndbox: Option<BndBox>)

  /** A parsed document: the first `<size>` child and every `<object>` child, in order. */
  datatype VocDoc = VocDoc(size: Option<SizeNode>, objects: seq<VocObject>)

  /** What `ET.parse` gives for a file: a document, or the error it raises. */
  datatype Parsed = Malformed | Parsed(doc: VocDoc)

  /** An annotation file: the stem and suffix of its path and its parsed content. */
  datatype XmlFile = XmlFile(stem: string, suffix: string, content: Parsed)

  function FileName(f: XmlFile): string {
    f.stem + f.suffix
  }

  /**
    The converter's `get_text(parent, tag, default)`: the stripped text of the
    child, or `default` when the child is absent or has no text.
   */
  function GetText(e: Option<Elem>, default: Option<string>): (r: Option<string>)
    ensures e.Some? && e.value.text.Some? ==> r == Some(Strip(e.value.text.value))
    ensures !(e.Some? && e.value.text.Some?) ==> r == default
  {
    match e
    case Some(Elem(Some(t))) => Some(Strip(t))
    case _ => default
  }
}
