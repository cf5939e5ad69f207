/**
  The instance counter: a fold over the sorted annotation files that counts
  parsed, empty and unparsable files, difficult objects, and the objects of
  each class (a `Counter`, whose keys keep the order they were first seen in),
  then lists the classes most common first.
 */
module InstanceCount {
  import opened Wrappers
  import opened Text
  import opened Voc
  import Converter

  /**
    `parse_int(text, default)` never raises; it gives the integer
    `int()` reads from the text, or `default` whenever `int()` would raise.
   */
  function ParseIntOr(text: string, default: int): (r: int)
    ensures ParseInt(text).Some? ==> r == ParseInt(text).value
    ensures ParseInt(text).None? ==> r == default
  {
    match ParseInt(text)
    case Some(v) => v
    case None => default
  }

  /** The decimal text of any integer, whitespace around it or not, reads back as that integer. */
  lemma ParseIntOrOfDecimal(n: int, left: string, right: string, default: int)
    requires AllSpace(left) && AllSpace(right)
    ensures ParseIntOr(left + IntToDecimal(n) + right, default) == n
  {
    ParseIntOfDecimal(n, left, right);
  }

  /** Text with no digit at all, such as `str(None)`, gives the default. */
  lemma ParseIntOrOfNonNumber(text: string, default: int)
    requires forall i :: 0 <= i < |text| ==> !IsDigit(text[i])
    ensures ParseIntOr(text, default) == default
  {
    var (sign, digits) := SplitSign(Strip(text));
    if |digits| > 0 {
      assert Strip(text) == StripRight(StripLeft(text));
      var left := StripLeft(text);
      assert digits[0] in text by {
        assert digits[0] in Strip(text);
        assert Strip(text) == left[..|Strip(text)|];
        assert left == text[|text| - |left|..];
      }
    }
  }

  /**
    What the difficulty test hands to `str()`: the element's text, `None` for
    an element without text, or the integer 0 when the element is missing.
    Neither of the last two reads as a nonzero integer.
   */
  function DifficultText(difficult: Option<Elem>): (t: string)
    ensures difficult.Some? && difficult.value.text.Some? ==> t == difficult.value.text.value
    ensures difficult.None? || difficult.value.text.None? ==> ParseIntOr(t, 0) == 0
  {
    match difficult
    case None =>
      ZeroReadsZero();
      "0"
    case Some(Elem(None)) =>
      NoneReadsZero();
      "None"
    case Some(Elem(Some(t))) => t
  }

  lemma ZeroReadsZero()
    ensures ParseIntOr("0", 0) == 0
  {
    ParseIntOrOfDecimal(0, "", "", 0);
    assert "" + IntToDecimal(0) + "" == "0";
  }

  lemma NoneReadsZero()
    ensures ParseIntOr("None", 0) == 0
  {
    ParseIntOrOfNonNumber("None", 0);
  }

  /**
    An object is difficult exactly when its `<difficult>` element has text
    that `int()` reads as 1: a missing element or one without text is not.
   */
  function IsDifficult(difficult: Option<Elem>): (b: bool)
    ensures b <==> difficult.Some? && difficult.value.text.Some? && ParseInt(difficult.value.text.value) == Some(1)
  {
    ParseIntOr(DifficultText(difficult), 0) == 1
  }

  /** Text that strips to a run of digits reads as the value of those digits. */
  lemma ParseIntOfDigits(text: string, digits: string)
    requires Strip(text) == digits && |digits| > 0 && AllDigits(digits)
    ensures ParseInt(text) == Some(DigitsValue(digits))
  {
    assert !IsSign(digits[0]);
  }

  /** Whenever the converter marks an object as crowd, the counter counts it as difficult. */
  lemma CrowdIsDifficult(difficult: Option<Elem>)
    requires Converter.CrowdFlag(difficult) == 1
    ensures IsDifficult(difficult)
  {
    var t := difficult.value.text.value;
    StrippedOneIsOne(t);
    assert DifficultText(difficult) == t;
  }

  lemma StrippedOneIsOne(t: string)
    requires Strip(t) == "1"
    ensures ParseIntOr(t, 0) == 1
  {
    var d := Strip(t);
    OneIsDigits(d);
    ParseIntOfDigits(t, d);
  }

  /** The text "1" is a run of digits worth one. */
  lemma OneIsDigits(d: string)
    requires d == "1"
    ensures |d| > 0 && AllDigits(d) && DigitsValue(d) == 1
  {
    assert d[..0] == [];
  }

  /**
    The converse fails: the counter reads `<difficult>01</difficult>` as
    difficult through `int()`, while the converter compares the stripped
    text with "1" and leaves the object's `iscrowd` at 0.
   */
  lemma LeadingZeroDifficultIsNotCrowd()
    ensures IsDifficult(Some(Elem(Some("01"))))
    ensures Converter.CrowdFlag(Some(Elem(Some("01")))) == 0
  {
    LeadingZeroReadsOne();
    DifficultWhenReadsOne("01");
    NotCrowdUnlessOne("01");
  }

  lemma DifficultWhenReadsOne(t: string)
    requires ParseInt(t) == Some(1)
    ensures IsDifficult(Some(Elem(Some(t))))
  {
  }

  lemma NotCrowdUnlessOne(t: string)
    requires Strip(t) != "1"
    ensures Converter.CrowdFlag(Some(Elem(Some(t)))) == 0
  {
  }

  lemma LeadingZeroReadsOne()
    ensures Strip("01") == "01"
    ensures ParseInt("01") == Some(1)
  {
    var t := ['0', '1'];
    StripOfStripped(t);
    assert DigitsValue(t) == 1 by {
      assert t[..1] == ['0'];
      assert t[..1][..0] == [];
    }
    ParseIntOfDigits(t, t);
  }

  /**
    The class key is the stripped `<name>` text, with no case
    folding; "UNKNOWN" when the element is missing or its text is missing or empty.
   */
  function ClassKey(name: Option<Elem>): (key: string)
    ensures name.None? || name.value.text.None? || name.value.text.value == [] ==> key == "UNKNOWN"
    ensures name.Some? && name.value.text.Some? && name.value.text.value != [] ==> IsStripped(key)
  {
    match name
    case Some(Elem(Some(t))) => if |t| > 0 then Strip(t) else "UNKNOWN"
    case _ => "UNKNOWN"
  }

  /**
    A non-empty name is its stripped core, letter case kept; a name of only
    whitespace therefore counts under the empty key, not "UNKNOWN".
   */
  lemma ClassKeyOfPadded(left: string, core: string, right: string)
    requires AllSpace(left) && AllSpace(right) && IsStripped(core)
    requires |left + core + right| > 0
    ensures ClassKey(Some(Elem(Some(left + core + right)))) == core
  {
    StripOfPadded(left, core, right);
  }

  /** `Counter` with its insertion order: the count of each key and the keys in the order first added. */
  datatype Tally = Tally(counts: map<string, nat>, order: seq<string>)

  const EmptyTally := Tally(map[], [])

  /** `counter[c]`: 0 for a key never added. */
  function Get(t: Tally, c: string): nat {
    if c in t.counts then t.counts[c] else 0
  }

  /** Lists each key once, exactly the keys with a count, every count positive. */
  ghost predicate WellFormed(t: Tally) {
    && (forall c :: c in t.counts <==> c in t.order)
    && (forall i, j :: 0 <= i < j < |t.order| ==> t.order[i] != t.order[j])
    && (forall c :: c in t.counts ==> t.counts[c] > 0)
  }

  /** One more for a key, a new key going to the end of the order. */
  function Bump(t: Tally, c: string): (r: Tally)
    ensures WellFormed(t) ==> WellFormed(r)
    ensures Get(r, c) == Get(t, c) + 1
    ensures forall d :: d != c ==> Get(r, d) == Get(t, d)
    ensures WellFormed(t) ==> r.order == if c in t.order then t.order else t.order + [c]
  {
    if c in t.counts then Tally(t.counts[c := t.counts[c] + 1], t.order)
    else Tally(t.counts[c := 1], t.order + [c])
  }

  /** Where `x` first occurs in `keys`, or `|keys|`. */
  function FirstIndex(keys: seq<string>, x: string): (k: nat)
    ensures k <= |keys|
    ensures k < |keys| ==> keys[k] == x
    ensures forall j :: 0 <= j < k ==> keys[j] != x
    ensures x in keys ==> k < |keys|
  {
    if |keys| == 0 then 0 else if keys[0] == x then 0 else 1 + FirstIndex(keys[1..], x)
  }

  /** The keys of `added` are in the order of their first occurrence in `keys`. */
  predicate FirstSeenOrder(added: seq<string>, keys: seq<string>) {
    forall i, j :: 0 <= i < j < |added| ==> FirstIndex(keys, added[i]) < FirstIndex(keys, added[j])
  }

  /** Adds every key of `keys`, in order. */
  function {:induction false} BumpAll(t: Tally, keys: seq<string>): (r: Tally)
    requires WellFormed(t)
    ensures WellFormed(r)
    ensures forall c :: Get(r, c) == Get(t, c) + multiset(keys)[c]
    ensures |r.order| >= |t.order| && r.order[..|t.order|] == t.order
    ensures forall c :: c in r.order <==> c in t.order || c in keys
    ensures forall i :: |t.order| <= i < |r.order| ==> r.order[i] !in t.order
    ensures FirstSeenOrder(r.order[|t.order|..], keys)
    decreases |keys|
  {
    if |keys| == 0 then
      assert t.order[|t.order|..] == [];
      t
    else
      var next := Bump(t, keys[0]);
      var r := BumpAll(next, keys[1..]);
      BumpCounts(t, keys, next, r);
      BumpAllStep(t, keys, next, r);
      r
  }

  /** The counts after one key and then the rest are the counts after all of them. */
  lemma BumpCounts(t: Tally, keys: seq<string>, next: Tally, r: Tally)
    requires |keys| > 0 && next == Bump(t, keys[0])
    requires forall c :: Get(r, c) == Get(next, c) + multiset(keys[1..])[c]
    ensures forall c :: Get(r, c) == Get(t, c) + multiset(keys)[c]
  {
    assert keys == [keys[0]] + keys[1..];
    assert multiset(keys) == multiset{keys[0]} + multiset(keys[1..]);
  }

  /** The order facts of `BumpAll`, one key at a time. */
  lemma BumpAllStep(t: Tally, keys: seq<string>, next: Tally, r: Tally)
    requires WellFormed(t)
    requires |keys| > 0 && next == Bump(t, keys[0])
    requires |r.order| >= |next.order| && r.order[..|next.order|] == next.order
    requires forall c :: c in r.order <==> c in next.order || c in keys[1..]
    requires forall i :: |next.order| <= i < |r.order| ==> r.order[i] !in next.order
    requires FirstSeenOrder(r.order[|next.order|..], keys[1..])
    ensures |r.order| >= |t.order| && r.order[..|t.order|] == t.order
    ensures forall c :: c in r.order <==> c in t.order || c in keys
    ensures forall i :: |t.order| <= i < |r.order| ==> r.order[i] !in t.order
    ensures FirstSeenOrder(r.order[|t.order|..], keys)
  {
    assert keys == [keys[0]] + keys[1..];
    OrderStepMembers(t.order, next.order, r.order, keys[0], keys[1..]);
    OrderStepFirstSeen(t.order, next.order, r.order, keys[0], keys[1..]);
  }

  /** Prefix and membership after one more key: `n1` is the order after the key, `ro` the final order. */
  lemma OrderStepMembers(t0: seq<string>, n1: seq<string>, ro: seq<string>, k0: string, tail: seq<string>)
    requires n1 == if k0 in t0 then t0 else t0 + [k0]
    requires |ro| >= |n1| && ro[..|n1|] == n1
    requires forall c :: c in ro <==> c in n1 || c in tail
    requires forall i :: |n1| <= i < |ro| ==> ro[i] !in n1
    ensures |ro| >= |t0| && ro[..|t0|] == t0
    ensures forall c :: c in ro <==> c in t0 || c in [k0] + tail
    ensures forall i :: |t0| <= i < |ro| ==> ro[i] !in t0
  {
    assert ro[..|t0|] == n1[..|t0|];
    assert k0 in n1;
    forall i | |t0| <= i < |ro|
      ensures ro[i] !in t0
    {
      if i < |n1| {
        assert ro[i] == n1[i] == k0;
      }
    }
  }

  /** The first-occurrence order after one more key. */
  lemma OrderStepFirstSeen(t0: seq<string>, n1: seq<string>, ro: seq<string>, k0: string, tail: seq<string>)
    requires n1 == if k0 in t0 then t0 else t0 + [k0]
    requires |ro| >= |n1| && ro[..|n1|] == n1
    requires forall i :: |n1| <= i < |ro| ==> ro[i] !in n1
    requires FirstSeenOrder(ro[|n1|..], tail)
    ensures FirstSeenOrder(ro[|t0|..], [k0] + tail)
  {
    if k0 in t0 {
      OrderStepSeen(t0, ro, k0, tail);
    } else {
      OrderStepNew(t0, ro, k0, tail);
    }
  }

  /** A key already in the order adds nothing to it. */
  lemma OrderStepSeen(t0: seq<string>, ro: seq<string>, k0: string, tail: seq<string>)
    requires k0 in t0
    requires |ro| >= |t0|
    requires forall i :: |t0| <= i < |ro| ==> ro[i] !in t0
    requires FirstSeenOrder(ro[|t0|..], tail)
    ensures FirstSeenOrder(ro[|t0|..], [k0] + tail)
  {
    var rest := ro[|t0|..];
    forall i | 0 <= i < |rest|
      ensures rest[i] != k0
    {
      assert rest[i] == ro[|t0| + i];
    }
    ShiftedOrder(k0, tail, rest);
  }

  /** A new key is the first of the keys added. */
  lemma OrderStepNew(t0: seq<string>, ro: seq<string>, k0: string, tail: seq<string>)
    requires |ro| >= |t0| + 1 && ro[..|t0| + 1] == t0 + [k0]
    requires forall i :: |t0| + 1 <= i < |ro| ==> ro[i] !in t0 + [k0]
    requires FirstSeenOrder(ro[|t0| + 1..], tail)
    ensures FirstSeenOrder(ro[|t0|..], [k0] + tail)
  {
    var rest := ro[|t0| + 1..];
    forall i | 0 <= i < |rest|
      ensures rest[i] != k0
    {
      assert rest[i] == ro[|t0| + 1 + i];
      assert k0 in t0 + [k0];
    }
    ShiftedOrder(k0, tail, rest);
    assert ro[|t0|..] == [k0] + rest by {
      assert ro[|t0|] == (t0 + [k0])[|t0|];
    }
    assert FirstIndex([k0] + tail, k0) == 0;
    PrependedOrder(k0, [k0] + tail, rest);
  }

  /** Keys other than `k0` keep their relative order when `k0` is put in front. */
  lemma ShiftedOrder(k0: string, tail: seq<string>, rest: seq<string>)
    requires k0 !in rest
    requires FirstSeenOrder(rest, tail)
    ensures FirstSeenOrder(rest, [k0] + tail)
    ensures forall i :: 0 <= i < |rest| ==> FirstIndex([k0] + tail, rest[i]) == 1 + FirstIndex(tail, rest[i])
  {
    forall i | 0 <= i < |rest|
      ensures FirstIndex([k0] + tail, rest[i]) == 1 + FirstIndex(tail, rest[i])
    {
      FirstIndexCons(k0, tail, rest[i]);
    }
  }

  /** A key first seen before every key of `rest` leads the order. */
  lemma PrependedOrder(k0: string, keys: seq<string>, rest: seq<string>)
    requires FirstSeenOrder(rest, keys)
    requires FirstIndex(keys, k0) == 0
    requires forall i :: 0 <= i < |rest| ==> 0 < FirstIndex(keys, rest[i])
    ensures FirstSeenOrder([k0] + rest, keys)
  {
    var added := [k0] + rest;
    forall i, j | 0 <= i < j < |added|
      ensures FirstIndex(keys, added[i]) < FirstIndex(keys, added[j])
    {
      assert added[j] == rest[j - 1];
      if i > 0 {
        assert added[i] == rest[i - 1];
      }
    }
  }

  lemma FirstIndexCons(k0: string, tail: seq<string>, y: string)
    requires y != k0
    ensures FirstIndex([k0] + tail, y) == 1 + FirstIndex(tail, y)
  {
    assert ([k0] + tail)[1..] == tail;
  }

  /** The counts of `order`'s keys, added up. */
  function SumOver(order: seq<string>, t: Tally): nat {
    if |order| == 0 then 0 else Get(t, order[0]) + SumOver(order[1..], t)
  }

  /** Raising one key's count raises the sum over an order that lists it once by the same amount. */
  lemma {:induction false} SumOverBump(order: seq<string>, t: Tally, c: string)
    requires forall i, j :: 0 <= i < j < |order| ==> order[i] != order[j]
    ensures SumOver(order, Bump(t, c)) == SumOver(order, t) + (if c in order then 1 else 0)
    decreases |order|
  {
    if |order| > 0 {
      SumOverBump(order[1..], t, c);
      if order[0] == c {
        assert c !in order[1..];
      }
    }
  }

  /** The total of a tally: the sum of its counts. */
  function Total(t: Tally): nat {
    SumOver(t.order, t)
  }

  /** Adding keys raises the total by the number of keys added. */
  lemma {:induction false} TotalOfBumpAll(t: Tally, keys: seq<string>)
    requires WellFormed(t)
    ensures Total(BumpAll(t, keys)) == Total(t) + |keys|
    decreases |keys|
  {
    if |keys| > 0 {
      var next := Bump(t, keys[0]);
      TotalOfBumpAll(next, keys[1..]);
      SumOverBump(t.order, t, keys[0]);
      if keys[0] !in t.order {
        SumOverAppend(t.order, keys[0], next);
        SumOverFrame(t.order, t, next);
      } else {
        SumOverFrame(t.order, Bump(t, keys[0]), next);
      }
    }
  }

  lemma {:induction false} SumOverAppend(order: seq<string>, c: string, t: Tally)
    ensures SumOver(order + [c], t) == SumOver(order, t) + Get(t, c)
    decreases |order|
  {
    if |order| > 0 {
      assert (order + [c])[1..] == order[1..] + [c];
      SumOverAppend(order[1..], c, t);
    } else {
      assert [c][1..] == [];
    }
  }

  /** The sum over an order reads only the counts of the keys in it. */
  lemma {:induction false} SumOverFrame(order: seq<string>, t: Tally, u: Tally)
    requires forall c :: c in order ==> Get(t, c) == Get(u, c)
    ensures SumOver(order, t) == SumOver(order, u)
    decreases |order|
  {
    if |order| > 0 {
      SumOverFrame(order[1..], t, u);
    }
  }

  /** What the counter reads from one object: its class key and whether it is difficult. */
  datatype Entry = Entry(key: string, difficult: bool)

  function EntryOf(obj: VocObject): Entry {
    Entry(ClassKey(obj.name), IsDifficult(obj.difficult))
  }

  /** The entries of a document's objects, in document order. */
  function Entries(objs: seq<VocObject>): (es: seq<Entry>)
    ensures |es| == |objs|
    ensures forall i :: 0 <= i < |objs| ==> es[i] == EntryOf(objs[i])
  {
    seq(|objs|, i requires 0 <= i < |objs| => EntryOf(objs[i]))
  }

  /** Whether the object adds to `total_instances` and the class counter. */
  predicate Counted(e: Entry, excludeDifficult: bool) {
    !(excludeDifficult && e.difficult)
  }

  /** Reference: the class keys of the counted objects, in order. */
  function CountedKeys(es: seq<Entry>, excludeDifficult: bool): seq<string> {
    if |es| == 0 then []
    else (if Counted(es[0], excludeDifficult) then [es[0].key] else []) + CountedKeys(es[1..], excludeDifficult)
  }

  /** Reference: the class keys of the difficult objects, in order. */
  function DifficultKeys(es: seq<Entry>): seq<string> {
    if |es| == 0 then []
    else (if es[0].difficult then [es[0].key] else []) + DifficultKeys(es[1..])
  }

  /** The counter's summary counters. */
  datatype Summary = Summary(
    totalImages: nat,
    emptyImages: nat,
    totalInstances: nat,
    difficultInstances: nat,
    parseErrors: nat,
    classes: Tally)

  const Initial := Summary(0, 0, 0, 0, 0, EmptyTally)

  /**
    The inner loop over one document's objects: every difficult object adds to
    `difficult_instances`; the counted ones add one each to
    `total_instances` and to their class.
   */
  function {:induction false} CountObjects(es: seq<Entry>, excludeDifficult: bool, s: Summary): (r: Summary)
    requires WellFormed(s.classes)
    ensures r.totalImages == s.totalImages && r.emptyImages == s.emptyImages && r.parseErrors == s.parseErrors
    ensures r.difficultInstances == s.difficultInstances + |DifficultKeys(es)|
    ensures r.totalInstances == s.totalInstances + |CountedKeys(es, excludeDifficult)|
    ensures r.classes == BumpAll(s.classes, CountedKeys(es, excludeDifficult))
    decreases |es|
  {
    if |es| == 0 then s
    else
      var e := es[0];
      var next :=
        if Counted(e, excludeDifficult) then
          s.(difficultInstances := s.difficultInstances + (if e.difficult then 1 else 0),
             totalInstances := s.totalInstances + 1,
             classes := Bump(s.classes, e.key))
        else
          s.(difficultInstances := s.difficultInstances + (if e.difficult then 1 else 0));
      var rest := CountedKeys(es[1..], excludeDifficult);
      if Counted(e, excludeDifficult) then
        assert CountedKeys(es, excludeDifficult) == [e.key] + rest;
        BumpAllCons(s.classes, e.key, rest);
        CountObjects(es[1..], excludeDifficult, next)
      else
        assert CountedKeys(es, excludeDifficult) == rest;
        CountObjects(es[1..], excludeDifficult, next)
  }

  /** The entries a file contributes: those of its objects, none when it does not parse. */
  function FileEntries(p: Parsed): seq<Entry> {
    if p.Parsed? then Entries(p.doc.objects) else []
  }

  /** One file: a parse failure, an empty document, or a document whose objects are counted. */
  function CountFile(p: Parsed, excludeDifficult: bool, s: Summary): (r: Summary)
    requires WellFormed(s.classes)
    ensures r.totalImages == s.totalImages + (if p.Parsed? then 1 else 0)
    ensures r.parseErrors == s.parseErrors + (if p.Parsed? then 0 else 1)
    ensures r.emptyImages == s.emptyImages + (if p.Parsed? && |p.doc.objects| == 0 then 1 else 0)
    ensures r.difficultInstances == s.difficultInstances + |DifficultKeys(FileEntries(p))|
    ensures r.totalInstances == s.totalInstances + |CountedKeys(FileEntries(p), excludeDifficult)|
    ensures r.classes == BumpAll(s.classes, CountedKeys(FileEntries(p), excludeDifficult))
  {
    match p
    case Malformed => s.(parseErrors := s.parseErrors + 1)
    case Parsed(doc) =>
      if |doc.objects| == 0 then
        assert CountedKeys([], excludeDifficult) == [];
        s.(totalImages := s.totalImages + 1, emptyImages := s.emptyImages + 1)
      else CountObjects(Entries(doc.objects), excludeDifficult, s.(totalImages := s.totalImages + 1))
  }

  /** Reference: the parsed files. */
  function ParsedCount(files: seq<Parsed>): nat {
    if |files| == 0 then 0 else (if files[0].Parsed? then 1 else 0) + ParsedCount(files[1..])
  }

  /** Reference: the parsed files with no `<object>`. */
  function EmptyCount(files: seq<Parsed>): nat {
    if |files| == 0 then 0
    else (if files[0].Parsed? && |files[0].doc.objects| == 0 then 1 else 0) + EmptyCount(files[1..])
  }

  /** Reference: the entries of the objects of the parsed files, file after file. */
  function AllEntries(files: seq<Parsed>): seq<Entry> {
    if |files| == 0 then []
    else FileEntries(files[0]) + AllEntries(files[1..])
  }

  lemma {:induction false} CountedKeysAppend(a: seq<Entry>, b: seq<Entry>, excludeDifficult: bool)
    ensures CountedKeys(a + b, excludeDifficult) == CountedKeys(a, excludeDifficult) + CountedKeys(b, excludeDifficult)
    ensures DifficultKeys(a + b) == DifficultKeys(a) + DifficultKeys(b)
    decreases |a|
  {
    if |a| > 0 {
      assert (a + b)[0] == a[0];
      assert (a + b)[1..] == a[1..] + b;
      CountedKeysAppend(a[1..], b, excludeDifficult);
    } else {
      assert a + b == b;
    }
  }

  lemma BumpAllCons(t: Tally, k: string, rest: seq<string>)
    requires WellFormed(t)
    ensures BumpAll(t, [k] + rest) == BumpAll(Bump(t, k), rest)
  {
    assert ([k] + rest)[0] == k && ([k] + rest)[1..] == rest;
  }

  /** `BumpAll` over two runs of keys is `BumpAll` over both. */
  lemma {:induction false} BumpAllAppend(t: Tally, a: seq<string>, b: seq<string>)
    requires WellFormed(t)
    ensures BumpAll(BumpAll(t, a), b) == BumpAll(t, a + b)
    decreases |a|
  {
    if |a| == 0 {
      assert a + b == b;
    } else {
      assert (a + b)[0] == a[0] && (a + b)[1..] == a[1..] + b;
      BumpAllAppend(Bump(t, a[0]), a[1..], b);
    }
  }

  /**
    The outer loop over the files. Each file adds one to `total_images` or to
    `parse_errors`, never both; the instance and difficult counters and the
    class counter cover exactly the objects of the parsed files.
   */
  function {:induction false} CountFiles(files: seq<Parsed>, excludeDifficult: bool, s: Summary): (r: Summary)
    requires WellFormed(s.classes)
    ensures r.totalImages == s.totalImages + ParsedCount(files)
    ensures r.parseErrors == s.parseErrors + (|files| - ParsedCount(files))
    ensures r.emptyImages == s.emptyImages + EmptyCount(files)
    ensures EmptyCount(files) <= ParsedCount(files) <= |files|
    ensures r.difficultInstances == s.difficultInstances + |DifficultKeys(AllEntries(files))|
    ensures r.totalInstances == s.totalInstances + |CountedKeys(AllEntries(files), excludeDifficult)|
    ensures r.classes == BumpAll(s.classes, CountedKeys(AllEntries(files), excludeDifficult))
    decreases |files|
  {
    if |files| == 0 then
      assert CountedKeys([], excludeDifficult) == [];
      s
    else
      var next := CountFile(files[0], excludeDifficult, s);
      var here := FileEntries(files[0]);
      CountedKeysAppend(here, AllEntries(files[1..]), excludeDifficult);
      BumpAllAppend(s.classes, CountedKeys(here, excludeDifficult), CountedKeys(AllEntries(files[1..]), excludeDifficult));
      CountFiles(files[1..], excludeDifficult, next)
  }

  /**
    The whole run: nothing when there is no annotation file; otherwise the
    summary, in which parsed files and parse errors make up all files, empty
    files are among the parsed ones, `total_instances` is the sum of the class
    counts, each class counts its counted objects, and the classes are listed
    in the order first seen.
   */
  function CountInstances(files: seq<Parsed>, excludeDifficult: bool): (r: Option<Summary>)
    ensures r.None? <==> |files| == 0
    ensures r.Some? ==> r.value.totalImages + r.value.parseErrors == |files|
    ensures r.Some? ==> r.value.emptyImages <= r.value.totalImages
    ensures r.Some? ==> r.value.difficultInstances == |DifficultKeys(AllEntries(files))|
    ensures r.Some? ==> r.value.totalInstances == |CountedKeys(AllEntries(files), excludeDifficult)|
    ensures r.Some? ==> r.value.totalInstances == Total(r.value.classes)
    ensures r.Some? ==> WellFormed(r.value.classes)
    ensures r.Some? ==> forall c :: Get(r.value.classes, c) == multiset(CountedKeys(AllEntries(files), excludeDifficult))[c]
    ensures r.Some? ==> forall c :: c in r.value.classes.order <==> c in CountedKeys(AllEntries(files), excludeDifficult)
    ensures r.Some? ==> FirstSeenOrder(r.value.classes.order, CountedKeys(AllEntries(files), excludeDifficult))
  {
    if |files| == 0 then None
    else
      var s := CountFiles(files, excludeDifficult, Initial);
      var keys := CountedKeys(AllEntries(files), excludeDifficult);
      TotalOfBumpAll(EmptyTally, keys);
      assert s.classes.order[|EmptyTally.order|..] == s.classes.order;
      Some(s)
  }

  /** With the option set, no difficult object reaches the class counter. */
  lemma {:induction false} ExcludedKeysAreNotDifficult(objs: seq<Entry>)
    ensures multiset(CountedKeys(objs, false)) == multiset(CountedKeys(objs, true)) + multiset(DifficultKeys(objs))
    decreases |objs|
  {
    if |objs| > 0 {
      ExcludedKeysAreNotDifficult(objs[1..]);
    }
  }

  /**
    `exclude_difficult` changes neither `difficult_instances` nor anything
    but the difficult objects: without it each class holds exactly its
    difficult objects more, and `total_instances` is larger by exactly
    `difficult_instances`.
   */
  lemma ExcludeDifficultRemovesExactlyDifficult(files: seq<Parsed>)
    requires |files| > 0
    ensures var all := CountInstances(files, false).value;
            var kept := CountInstances(files, true).value;
            && all.difficultInstances == kept.difficultInstances
            && all.totalInstances == kept.totalInstances + kept.difficultInstances
            && forall c :: Get(all.classes, c) == Get(kept.classes, c) + multiset(DifficultKeys(AllEntries(files)))[c]
  {
    ExcludedKeysAreNotDifficult(AllEntries(files));
    var k1 := CountedKeys(AllEntries(files), false);
    assert |k1| == |multiset(k1)|;
    var k2 := CountedKeys(AllEntries(files), true);
    assert |k2| == |multiset(k2)|;
    var d := DifficultKeys(AllEntries(files));
    assert |d| == |multiset(d)|;
  }

  /** When every file parses, every file is counted as an image and those without objects as empty. */
  lemma {:induction false} AllParsed(files: seq<Parsed>)
    requires forall i :: 0 <= i < |files| ==> files[i].Parsed?
    ensures ParsedCount(files) == |files|
    decreases |files|
  {
    if |files| > 0 {
      AllParsed(files[1..]);
    }
  }

  /** One row of the per-class report. */
  datatype ClassCount = ClassCount(name: string, count: nat)

  /** The counter's items in insertion order. */
  function Items(t: Tally): (items: seq<ClassCount>)
    ensures |items| == |t.order|
    ensures forall i :: 0 <= i < |items| ==> items[i].name == t.order[i] && items[i].count == Get(t, t.order[i])
  {
    seq(|t.order|, i requires 0 <= i < |t.order| => ClassCount(t.order[i], Get(t, t.order[i])))
  }

  /** Counts never increase down the list. */
  predicate Descending(xs: seq<ClassCount>) {
    forall i, j :: 0 <= i < j < |xs| ==> xs[i].count >= xs[j].count
  }

  /** The rows with count `c`, in order. */
  function WithCount(xs: seq<ClassCount>, c: nat): seq<ClassCount> {
    if |xs| == 0 then [] else (if xs[0].count == c then [xs[0]] else []) + WithCount(xs[1..], c)
  }

  /** A row in front of a descending list whose counts it bounds keeps it descending. */
  lemma DescendingCons(h: ClassCount, rest: seq<ClassCount>)
    requires Descending(rest)
    requires forall j :: 0 <= j < |rest| ==> h.count >= rest[j].count
    ensures Descending([h] + rest)
  {
    forall i, j | 0 <= i < j < |[h] + rest|
      ensures ([h] + rest)[i].count >= ([h] + rest)[j].count
    {
      assert ([h] + rest)[j] == rest[j - 1];
      if i > 0 {
        assert ([h] + rest)[i] == rest[i - 1];
      }
    }
  }

  lemma WithCountCons(h: ClassCount, rest: seq<ClassCount>, c: nat)
    ensures WithCount([h] + rest, c) == (if h.count == c then [h] else []) + WithCount(rest, c)
  {
    assert ([h] + rest)[0] == h && ([h] + rest)[1..] == rest;
  }

  /** A bound on every row of a list bounds every row of a permutation of it. */
  lemma BoundsPermutation(h: ClassCount, xs: seq<ClassCount>, ys: seq<ClassCount>)
    requires multiset(ys) <= multiset(xs)
    requires forall k :: 0 <= k < |xs| ==> h.count >= xs[k].count
    ensures forall j :: 0 <= j < |ys| ==> h.count >= ys[j].count
  {
    forall j | 0 <= j < |ys|
      ensures h.count >= ys[j].count
    {
      assert ys[j] in multiset(ys);
      assert ys[j] in multiset(xs);
      var k :| 0 <= k < |xs| && xs[k] == ys[j];
    }
  }

  /** The head of a descending list bounds the rows of the tail with a smaller row inserted. */
  lemma HeadBoundsInsertion(xs: seq<ClassCount>, x: ClassCount, rest: seq<ClassCount>)
    requires Descending(xs) && |xs| > 0 && xs[0].count > x.count
    requires multiset(rest) == multiset(xs[1..]) + multiset{x}
    ensures forall j :: 0 <= j < |rest| ==> xs[0].count >= rest[j].count
  {
    var pool := xs[1..] + [x];
    forall k | 0 <= k < |pool|
      ensures xs[0].count >= pool[k].count
    {
      if k < |xs| - 1 {
        assert pool[k] == xs[k + 1];
      }
    }
    BoundsPermutation(xs[0], pool, rest);
  }

  /** The three facts of `InsertByCount` when `x` goes in front. */
  lemma InsertInFront(x: ClassCount, xs: seq<ClassCount>)
    requires Descending(xs)
    requires |xs| == 0 || xs[0].count <= x.count
    ensures Descending([x] + xs)
    ensures forall c :: WithCount([x] + xs, c) == (if x.count == c then [x] else []) + WithCount(xs, c)
  {
    DescendingCons(x, xs);
    forall c { WithCountCons(x, xs, c); }
  }

  /** Order and contents of `InsertByCount` when `x` goes after the head. */
  lemma InsertBehindHead(x: ClassCount, xs: seq<ClassCount>, rest: seq<ClassCount>)
    requires Descending(xs) && |xs| > 0 && xs[0].count > x.count
    requires Descending(rest)
    requires multiset(rest) == multiset(xs[1..]) + multiset{x}
    ensures Descending([xs[0]] + rest)
    ensures multiset([xs[0]] + rest) == multiset(xs) + multiset{x}
  {
    assert xs == [xs[0]] + xs[1..];
    HeadBoundsInsertion(xs, x, rest);
    DescendingCons(xs[0], rest);
  }

  /** Stability of `InsertByCount` when `x` goes after the head. */
  lemma InsertBehindHeadStable(x: ClassCount, xs: seq<ClassCount>, rest: seq<ClassCount>, c: nat)
    requires |xs| > 0 && xs[0].count > x.count
    requires WithCount(rest, c) == (if x.count == c then [x] else []) + WithCount(xs[1..], c)
    ensures WithCount([xs[0]] + rest, c) == (if x.count == c then [x] else []) + WithCount(xs, c)
  {
    var h := xs[0];
    assert xs == [h] + xs[1..];
    WithCountCons(h, rest, c);
    WithCountCons(h, xs[1..], c);
  }

  /** Puts `x` in front of the first row whose count is not larger. */
  function InsertByCount(x: ClassCount, xs: seq<ClassCount>): (r: seq<ClassCount>)
    requires Descending(xs)
    ensures Descending(r)
    ensures multiset(r) == multiset(xs) + multiset{x}
    ensures forall c :: WithCount(r, c) == (if x.count == c then [x] else []) + WithCount(xs, c)
  {
    if |xs| == 0 || xs[0].count <= x.count then
      InsertInFront(x, xs);
      [x] + xs
    else
      var rest := InsertByCount(x, xs[1..]);
      InsertBehindHead(x, xs, rest);
      forall c { InsertBehindHeadStable(x, xs, rest, c); }
      [xs[0]] + rest
  }

  /**
    `most_common()`, a stable sort by count, largest first. It is a
    permutation of the items, and rows with equal counts keep their order.
   */
  function MostCommon(xs: seq<ClassCount>): (r: seq<ClassCount>)
    ensures Descending(r)
    ensures multiset(r) == multiset(xs)
    ensures forall c :: WithCount(r, c) == WithCount(xs, c)
  {
    if |xs| == 0 then []
    else
      assert xs == [xs[0]] + xs[1..];
      InsertByCount(xs[0], MostCommon(xs[1..]))
  }

  /**
    The per-class report: every class of the counter once, each row with its
    class's count, most common first, equal counts in the order first seen.
   */
  function ClassReport(s: Summary): (r: seq<ClassCount>)
    ensures Descending(r)
    ensures multiset(r) == multiset(Items(s.classes))
    ensures forall c :: WithCount(r, c) == WithCount(Items(s.classes), c)
    ensures forall i :: 0 <= i < |r| ==> r[i].count == Get(s.classes, r[i].name)
  {
    var r := MostCommon(Items(s.classes));
    RowsAreItems(r, s.classes);
    r
  }

  /** Every row of a permutation of a tally's items carries its key's count. */
  lemma RowsAreItems(report: seq<ClassCount>, t: Tally)
    requires multiset(report) == multiset(Items(t))
    ensures forall i :: 0 <= i < |report| ==> report[i].count == Get(t, report[i].name)
  {
    forall i | 0 <= i < |report|
      ensures report[i].count == Get(t, report[i].name)
    {
      assert report[i] in multiset(Items(t));
      var k :| 0 <= k < |Items(t)| && Items(t)[k] == report[i];
    }
  }

  /**
    The report lists every counted class exactly once with its count, most
    common first; classes with equal counts appear in the order first seen.
   */
  lemma ClassReportFacts(files: seq<Parsed>, excludeDifficult: bool)
    requires |files| > 0
    ensures var s := CountInstances(files, excludeDifficult).value;
            var report := ClassReport(s);
            && Descending(report)
            && multiset(report) == multiset(Items(s.classes))
            && (forall c :: WithCount(report, c) == WithCount(Items(s.classes), c))
            && (forall i :: 0 <= i < |report| ==>
                  report[i].count == multiset(CountedKeys(AllEntries(files), excludeDifficult))[report[i].name])
  {
    var s := CountInstances(files, excludeDifficult).value;
    RowsCountTheirKeys(ClassReport(s), s.classes, CountedKeys(AllEntries(files), excludeDifficult));
  }

  /** Every row of a permutation of a tally's items carries its key's count in `keys`. */
  lemma RowsCountTheirKeys(report: seq<ClassCount>, t: Tally, keys: seq<string>)
    requires multiset(report) == multiset(Items(t))
    requires forall c :: Get(t, c) == multiset(keys)[c]
    ensures forall i :: 0 <= i < |report| ==> report[i].count == multiset(keys)[report[i].name]
  {
    RowsAreItems(report, t);
  }
}
