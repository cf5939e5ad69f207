/** The converter's label lookup: strip, lower-case, then a fixed table. */
module Labels {
  import opened Wrappers
  import opened Text
  import opened Voc

  /**
    The converter's class table, entry for entry. The `"motorbike\n"` key can
    never be looked up, because the label is stripped first.
   */
  const ClassMap: map<string, int> := map["car" := 1, "motorbike" := 2, "motorbike\n" := 2]

  /** One row of the output's fixed `categories` block. */
  datatype Category = Category(id: int, name: string, supercategory: string)

  const Categories: seq<Category> := [Category(1, "car", "vehicle"), Category(2, "motorbike", "vehicle")]

  /**
    The label as the converter reports it: the text of `<name>` without
    surrounding whitespace, or the empty string when the element or its text
    is missing. The second strip the converter applies changes nothing.
   */
  function RawLabel(name: Option<Elem>): (r: string)
    ensures IsStripped(r)
    ensures name.None? || name.value.text.None? ==> r == ""
    ensures name.Some? && name.value.text.Some? ==> r == Strip(name.value.text.value)
  {
    StripTwice(name);
    Strip(GetText(name, Some("")).value)
  }

  /** Stripping the stripped text of `<name>` again changes nothing. */
  lemma StripTwice(name: Option<Elem>)
    ensures name.None? || name.value.text.None? ==> Strip(GetText(name, Some("")).value) == ""
    ensures name.Some? && name.value.text.Some? ==>
              Strip(GetText(name, Some("")).value) == Strip(name.value.text.value)
  {
    if name.Some? && name.value.text.Some? {
      StripIdempotent(name.value.text.value);
    } else {
      StripOfStripped("");
    }
  }

  /** The lookup key: the label lower-cased, so it has no upper-case letter left. */
  function LabelKey(name: Option<Elem>): (k: string)
    ensures IsStripped(k)
    ensures |k| == |RawLabel(name)|
    ensures Lower(k) == k
  {
    LowerKeepsStripped(RawLabel(name));
    LowerIdempotent(RawLabel(name));
    Lower(RawLabel(name))
  }

  /** A stripped key cannot end in a newline, so the table's "motorbike\n" entry is never hit. */
  lemma StrippedKeyIsNotNewlineVariant(key: string)
    requires IsStripped(key)
    ensures key != "motorbike\n"
  {
    if |key| == 10 {
      assert !IsSpace(key[9]);
      assert "motorbike\n"[9] == '\n';
    }
  }

  /** `DEFAULT_CLASS_MAP.get(key)`, entry for entry. */
  function Lookup(key: string): (r: Option<int>)
    ensures r == Some(1) <==> key == "car"
    ensures r == Some(2) <==> key == "motorbike" || key == "motorbike\n"
    ensures r.None? <==> key != "car" && key != "motorbike" && key != "motorbike\n"
  {
    if key in ClassMap then Some(ClassMap[key]) else None
  }

  /** The category of an object's `<name>`: the table entry for its key. */
  function CategoryOf(name: Option<Elem>): (r: Option<int>)
    ensures r.Some? ==> r.value == 1 || r.value == 2
    ensures r.Some? && r.value == 1 <==> LabelKey(name) == "car"
    ensures r.Some? && r.value == 2 <==> LabelKey(name) == "motorbike"
    ensures r.None? <==> LabelKey(name) != "car" && LabelKey(name) != "motorbike"
  {
    var key := LabelKey(name);
    StrippedKeyIsNotNewlineVariant(key);
    Lookup(key)
  }

  /**
    Whitespace around a label and the case of its letters do not matter: the
    key of a padded label is the lower-cased core.
   */
  lemma LabelKeyOfPadded(left: string, core: string, right: string)
    requires AllSpace(left) && AllSpace(right)
    requires IsStripped(core)
    ensures LabelKey(Some(Elem(Some(left + core + right)))) == Lower(core)
  {
    var t := left + core + right;
    StripOfPadded(left, core, right);
    RawLabelOfText(t);
    StripIdempotent(t);
  }

  /** The raw label of a present name is its stripped text. */
  lemma RawLabelOfText(t: string)
    ensures RawLabel(Some(Elem(Some(t)))) == Strip(Strip(t))
  {
    assert GetText(Some(Elem(Some(t))), Some("")) == Some(Strip(t));
  }

  /** A stripped label's key is its lower-cased form. */
  lemma LabelKeyOfStripped(word: string)
    requires IsStripped(word)
    ensures LabelKey(Some(Elem(Some(word)))) == Lower(word)
  {
    RawLabelOfText(word);
    StripOfStripped(word);
  }

  /** A stripped word with no upper-case letter is its own key. */
  lemma KeyOfPlainLabel(word: string)
    requires IsStripped(word)
    requires forall i :: 0 <= i < |word| ==> !('A' <= word[i] <= 'Z')
    ensures LabelKey(Some(Elem(Some(word)))) == word
  {
    LabelKeyOfStripped(word);
    LowerOfLowerCase(word);
  }

  /** A label padded with whitespace has the key of its lower-cased core. */
  lemma KeyOfPaddedLabel(left: string, word: string, right: string, key: string)
    requires AllSpace(left) && AllSpace(right)
    requires IsStripped(word) && Lower(word) == key
    ensures LabelKey(Some(Elem(Some(left + word + right)))) == key
  {
    LabelKeyOfPadded(left, word, right);
  }

  lemma CarIsOne()
    ensures CategoryOf(Some(Elem(Some("car")))) == Some(1)
  {
    KeyOfPlainLabel("car");
  }

  lemma MotorbikeIsTwo()
    ensures CategoryOf(Some(Elem(Some("motorbike")))) == Some(2)
  {
    KeyOfPlainLabel("motorbike");
  }

  /** A stripped lower-case word other than the two class names is reported as written and has no category. */
  lemma UnknownPlainLabel(word: string)
    requires IsStripped(word)
    requires forall i :: 0 <= i < |word| ==> !('A' <= word[i] <= 'Z')
    requires word != "car" && word != "motorbike"
    ensures CategoryOf(Some(Elem(Some(word)))).None?
    ensures RawLabel(Some(Elem(Some(word)))) == word
  {
    KeyOfPlainLabel(word);
    RawLabelOfText(word);
    StripOfStripped(word);
  }

  /**
    The category ignores letter case and surrounding whitespace: a padded
    label has the category of its lower-cased core.
   */
  lemma CategoryIgnoresCaseAndPadding(left: string, word: string, right: string)
    requires AllSpace(left) && AllSpace(right)
    requires IsStripped(word)
    ensures CategoryOf(Some(Elem(Some(left + word + right)))) == CategoryOf(Some(Elem(Some(Lower(word)))))
  {
    var padded := Some(Elem(Some(left + word + right)));
    var lowered := Some(Elem(Some(Lower(word))));
    assert LabelKey(padded) == LabelKey(lowered) by {
      LabelKeyOfPadded(left, word, right);
      LowerKeepsStripped(word);
      LabelKeyOfStripped(Lower(word));
      LowerIdempotent(word);
    }
    SameKeySameCategory(padded, lowered);
  }

  lemma SameKeySameCategory(a: Option<Elem>, b: Option<Elem>)
    requires LabelKey(a) == LabelKey(b)
    ensures CategoryOf(a) == CategoryOf(b)
  {
  }

  /** A missing `<name>` or one without text gives the empty key, which is unknown. */
  lemma MissingNameIsUnknown()
    ensures CategoryOf(None).None?
    ensures CategoryOf(Some(Elem(None))).None?
  {
    StripOfPadded("", "", "");
  }

  /** Every row of the categories block is the category its own name maps to. */
  lemma CategoriesMatchClassMap(i: nat)
    requires i < |Categories|
    ensures CategoryOf(Some(Elem(Some(Categories[i].name)))) == Some(Categories[i].id)
  {
    if i == 0 {
      CarIsOne();
    } else {
      MotorbikeIsTwo();
    }
  }
}
