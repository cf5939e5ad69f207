/**
  Text primitives the scripts borrow from Python's `str`: `strip()`, `lower()`,
  `int(...)`, `int(float(...))` and `", ".join(...)`, restricted to ASCII.
 */
module Text {
  import opened Wrappers

  /** The ASCII characters Python's `str.isspace` accepts (and `strip()` removes). */
  predicate IsSpace(c: char) {
    c == ' ' || c == '\t' || c == '\n' || c == '\r' || c == '\U{0B}' || c == '\U{0C}'
    || c == '\U{1C}' || c == '\U{1D}' || c == '\U{1E}' || c == '\U{1F}'
  }

  predicate AllSpace(s: string) {
    forall i :: 0 <= i < |s| ==> IsSpace(s[i])
  }

  /** A string with no whitespace at either end: what `strip()` returns. */
  predicate IsStripped(s: string) {
    |s| == 0 || (!IsSpace(s[0]) && !IsSpace(s[|s| - 1]))
  }

  function StripLeft(s: string): (r: string)
    ensures |r| <= |s| && r == s[|s| - |r|..]
    ensures AllSpace(s[..|s| - |r|])
    ensures |r| == 0 || !IsSpace(r[0])
  {
    if |s| > 0 && IsSpace(s[0]) then StripLeft(s[1..]) else s
  }

  function StripRight(s: string): (r: string)
    ensures |r| <= |s| && r == s[..|r|]
    ensures AllSpace(s[|r|..])
    ensures |r| == 0 || !IsSpace(r[|r| - 1])
  {
    if |s| > 0 && IsSpace(s[|s| - 1]) then StripRight(s[..|s| - 1]) else s
  }

  /**
    Python's `s.strip()`: the result has no surrounding whitespace;
    `StripOfPadded` shows that it removes exactly the padding around a core.
   */
  function Strip(s: string): (r: string)
    ensures IsStripped(r)
    ensures |r| <= |s|
  {
    StripRight(StripLeft(s))
  }

  lemma {:induction false} StripLeftOfPadded(pad: string, m: string)
    requires AllSpace(pad)
    requires |m| == 0 || !IsSpace(m[0])
    ensures StripLeft(pad + m) == m
    decreases |pad|
  {
    if |pad| == 0 {
      assert pad + m == m;
    } else {
      assert (pad + m)[1..] == pad[1..] + m;
      StripLeftOfPadded(pad[1..], m);
    }
  }

  lemma {:induction false} StripRightOfPadded(m: string, pad: string)
    requires AllSpace(pad)
    requires |m| == 0 || !IsSpace(m[|m| - 1])
    ensures StripRight(m + pad) == m
    decreases |pad|
  {
    if |pad| == 0 {
      assert m + pad == m;
    } else {
      assert (m + pad)[..|m + pad| - 1] == m + pad[..|pad| - 1];
      StripRightOfPadded(m, pad[..|pad| - 1]);
    }
  }

  /**
    Strip removes exactly the surrounding whitespace: a stripped core padded
    with whitespace on either side strips back to that core.
   */
  lemma StripOfPadded(left: string, m: string, right: string)
    requires AllSpace(left) && AllSpace(right)
    requires IsStripped(m)
    ensures Strip(left + m + right) == m
  {
    if |m| == 0 {
      assert left + m + right == left + right;
      assert AllSpace(left + right);
      StripLeftOfPadded(left + right, []);
      assert left + right + [] == left + right;
      StripRightOfPadded([], []);
    } else {
      assert left + m + right == left + (m + right);
      StripLeftOfPadded(left, m + right);
      StripRightOfPadded(m, right);
    }
  }

  /** A stripped string is its own `strip()`. */
  lemma StripOfStripped(m: string)
    requires IsStripped(m)
    ensures Strip(m) == m
  {
    StripOfPadded([], m, []);
    assert [] + m + [] == m;
  }

  /** `strip()` is idempotent. */
  lemma StripIdempotent(s: string)
    ensures Strip(Strip(s)) == Strip(s)
  {
    StripOfStripped(Strip(s));
  }

  function LowerChar(c: char): char {
    if 'A' <= c <= 'Z' then (c as int + 32) as char else c
  }

  /**
    Python's `s.lower()` on ASCII letters: it works character by character,
    A-Z become a-z and every other character is kept.
   */
  function Lower(s: string): (r: string)
    ensures |r| == |s|
    ensures forall i :: 0 <= i < |s| ==> r[i] == LowerChar(s[i])
  {
    if |s| == 0 then []
    else
      var rest := Lower(s[1..]);
      assert forall i :: 1 <= i < |s| ==> ([LowerChar(s[0])] + rest)[i] == rest[i - 1] && s[i] == s[1..][i - 1];
      [LowerChar(s[0])] + rest
  }

  /** A string without upper-case ASCII letters is its own lower-case form. */
  lemma {:induction false} LowerOfLowerCase(s: string)
    requires forall i :: 0 <= i < |s| ==> !('A' <= s[i] <= 'Z')
    ensures Lower(s) == s
    decreases |s|
  {
    if |s| > 0 {
      LowerOfLowerCase(s[1..]);
    }
  }

  /** Lower-casing twice is lower-casing once. */
  lemma LowerIdempotent(s: string)
    ensures Lower(Lower(s)) == Lower(s)
  {
    LowerOfLowerCase(Lower(s));
  }

  /** Lower-casing neither creates nor removes whitespace, so it keeps a string stripped. */
  lemma LowerKeepsStripped(s: string)
    requires IsStripped(s)
    ensures IsStripped(Lower(s))
  {
  }

  predicate IsDigit(c: char) {
    '0' <= c <= '9'
  }

  predicate AllDigits(s: string) {
    forall i :: 0 <= i < |s| ==> IsDigit(s[i])
  }

  function DigitValue(c: char): nat
    requires IsDigit(c)
  {
    c as int - '0' as int
  }

  function DigitChar(d: nat): char
    requires d < 10
  {
    ('0' as int + d) as char
  }

  /** The value of a string of decimal digits, most significant first. */
  function DigitsValue(s: string): nat
    requires AllDigits(s)
  {
    if |s| == 0 then 0 else DigitsValue(s[..|s| - 1]) * 10 + DigitValue(s[|s| - 1])
  }

  /** Python's `str(n)` for a natural number. */
  function NatToDecimal(n: nat): (r: string)
    ensures |r| > 0 && AllDigits(r)
    ensures DigitsValue(r) == n
    ensures r[0] != '0' || n == 0
  {
    if n < 10 then [DigitChar(n)]
    else
      var prefix := NatToDecimal(n / 10);
      var r := prefix + [DigitChar(n % 10)];
      assert r[..|r| - 1] == prefix;
      r
  }

  /** Python's `str(n)` for an integer. */
  function IntToDecimal(n: int): (r: string)
    ensures IsStripped(r) && |r| > 0
  {
    if n < 0 then "-" + NatToDecimal(-n) else NatToDecimal(n)
  }

  /** A sign character `int()` and `float()` accept in front of the digits. */
  predicate IsSign(c: char) {
    c == '+' || c == '-'
  }

  /** Splits an optional leading sign off `t`: the sign factor and the unsigned rest. */
  function SplitSign(t: string): (r: (int, string))
    ensures r.0 == 1 || r.0 == -1
    ensures |t| > 0 && IsSign(t[0]) ==> r.1 == t[1..] && (r.0 == -1 <==> t[0] == '-')
    ensures !(|t| > 0 && IsSign(t[0])) ==> r == (1, t)
  {
    if |t| > 0 && IsSign(t[0]) then (if t[0] == '-' then -1 else 1, t[1..]) else (1, t)
  }

  /** Text `int()` accepts once stripped: at least one digit, optionally after one sign. */
  predicate IntegerText(t: string) {
    || (|t| > 0 && AllDigits(t))
    || (|t| > 1 && IsSign(t[0]) && AllDigits(t[1..]))
  }

  /**
    Python's `int(text)`: surrounding whitespace, an optional sign and at least
    one decimal digit; `None` stands for the `ValueError` Python raises.
   */
  function ParseInt(text: string): (r: Option<int>)
    ensures var t := Strip(text);
            r.Some? ==> |t| > 0 && (IsSign(t[0]) || IsDigit(t[0])) && forall i :: 0 < i < |t| ==> IsDigit(t[i])
    ensures r.Some? <==> IntegerText(Strip(text))
    ensures var t := Strip(text);
            |t| > 0 && AllDigits(t) ==> r == Some(DigitsValue(t))
    ensures var t := Strip(text);
            |t| > 1 && t[0] == '-' && AllDigits(t[1..]) ==> r.Some? && r.value == -(DigitsValue(t[1..]) as int)
    ensures var t := Strip(text);
            |t| > 1 && t[0] == '+' && AllDigits(t[1..]) ==> r.Some? && r.value == DigitsValue(t[1..])
  {
    ReadSignedFacts(Strip(text));
    ReadSignedAccepts(Strip(text));
    ReadSigned(Strip(text))
  }

  /** An optional sign and at least one digit, read as a signed integer. */
  function ReadSigned(t: string): Option<int> {
    var sd := SplitSign(t);
    if |sd.1| > 0 && AllDigits(sd.1) then Some(sd.0 * DigitsValue(sd.1)) else None
  }

  /** What reading a signed integer accepts, and what it gives for unsigned and negative digits. */
  lemma ReadSignedFacts(t: string)
    ensures ReadSigned(t).Some? ==> |t| > 0 && (IsSign(t[0]) || IsDigit(t[0])) && forall i :: 0 < i < |t| ==> IsDigit(t[i])
    ensures |t| > 0 && AllDigits(t) ==> ReadSigned(t) == Some(DigitsValue(t))
    ensures |t| > 1 && t[0] == '-' && AllDigits(t[1..]) ==> ReadSigned(t) == Some(-(DigitsValue(t[1..]) as int))
  {
    ReadSignedShape(t);
    ReadSignedUnsigned(t);
    ReadSignedNegative(t);
  }

  /** What `int()` accepts: an optional sign, then digits to the end. */
  lemma ReadSignedShape(t: string)
    ensures ReadSigned(t).Some? ==> |t| > 0 && (IsSign(t[0]) || IsDigit(t[0])) && forall i :: 0 < i < |t| ==> IsDigit(t[i])
  {
    var sd := SplitSign(t);
    if |t| > 0 && IsSign(t[0]) {
      assert forall i :: 0 < i < |t| ==> t[i] == sd.1[i - 1];
    }
  }

  /** Reading a signed integer succeeds on exactly the integer texts, and a plus sign changes nothing. */
  lemma ReadSignedAccepts(t: string)
    ensures ReadSigned(t).Some? <==> IntegerText(t)
    ensures |t| > 1 && t[0] == '+' && AllDigits(t[1..]) ==> ReadSigned(t).Some? && ReadSigned(t).value == DigitsValue(t[1..])
  {
    if |t| > 0 && IsSign(t[0]) {
      assert !AllDigits(t) by {
        assert !IsDigit(t[0]);
      }
    }
  }

  /** Digits alone read as their value. */
  lemma ReadSignedUnsigned(t: string)
    ensures |t| > 0 && AllDigits(t) ==> ReadSigned(t) == Some(DigitsValue(t))
  {
  }

  /** A minus sign and digits read as the negated value of the digits. */
  lemma ReadSignedNegative(t: string)
    ensures |t| > 1 && t[0] == '-' && AllDigits(t[1..]) ==> ReadSigned(t) == Some(-(DigitsValue(t[1..]) as int))
  {
  }

  function Abs(n: int): nat {
    if n < 0 then -n else n
  }

  /** The decimal text of `n` splits into its sign and the digits of `|n|`. */
  lemma SplitSignOfDecimal(n: int)
    ensures SplitSign(IntToDecimal(n)) == (if n < 0 then -1 else 1, NatToDecimal(Abs(n)))
  {
    var digits := NatToDecimal(Abs(n));
    assert !IsSign(digits[0]);
    if n < 0 {
      assert IntToDecimal(n) == "-" + digits;
      assert ("-" + digits)[1..] == digits;
    }
  }

  /** Every integer's decimal text, with any whitespace around it, parses back to that integer. */
  lemma ParseIntOfDecimal(n: int, left: string, right: string)
    requires AllSpace(left) && AllSpace(right)
    ensures ParseInt(left + IntToDecimal(n) + right) == Some(n)
  {
    StripOfPadded(left, IntToDecimal(n), right);
    SplitSignOfDecimal(n);
  }

  /** Index of the first '.' in `s`, or `|s|` when there is none. */
  function IndexOfDot(s: string): (k: nat)
    ensures k <= |s|
    ensures k < |s| ==> s[k] == '.'
    ensures forall j :: 0 <= j < k ==> s[j] != '.'
  {
    if |s| == 0 then 0 else if s[0] == '.' then 0 else 1 + IndexOfDot(s[1..])
  }

  /** Digits with at most one '.' among them, and at least one digit. */
  predicate DecimalBody(b: string) {
    && (forall i :: 0 <= i < |b| ==> IsDigit(b[i]) || b[i] == '.')
    && (forall i, j :: 0 <= i < j < |b| && b[i] == '.' ==> b[j] != '.')
    && (exists i :: 0 <= i < |b| && IsDigit(b[i]))
  }

  /** Text `float()` accepts in this model once stripped: an optional sign, then a decimal body. */
  predicate DecimalText(t: string) {
    DecimalBody(SplitSign(t).1)
  }

  /** The digits of a decimal body before its '.': the whole part. */
  function WholePart(b: string): (w: string)
    requires DecimalBody(b)
    ensures AllDigits(w) && |w| <= |b|
    ensures w == b[..|w|]
    ensures |w| < |b| ==> b[|w|] == '.'
  {
    b[..IndexOfDot(b)]
  }

  /**
    Python's `int(float(text))` on plain decimal text: an optional sign, digits,
    an optional fraction after '.', at least one digit overall; the fraction is
    dropped, which truncates toward zero. `None` stands for the `ValueError`.
   */
  function ParseFloatTrunc(text: string): (r: Option<int>)
    ensures ParseInt(text).Some? ==> r.Some? && r.value == ParseInt(text).value
    ensures r.Some? ==> |Strip(text)| > 0
    ensures r.Some? && r.value < 0 ==> Strip(text)[0] == '-'
    ensures r.Some? <==> DecimalText(Strip(text))
    ensures r.Some? ==> r.value == SplitSign(Strip(text)).0 * DigitsValue(WholePart(SplitSign(Strip(text)).1))
  {
    ReadDecimalFacts(Strip(text));
    ReadDecimalAccepts(Strip(text));
    ReadDecimal(Strip(text))
  }

  /** Reading decimal text succeeds on exactly the decimal texts, giving the signed whole part. */
  lemma ReadDecimalAccepts(t: string)
    ensures ReadDecimal(t).Some? <==> DecimalText(t)
    ensures ReadDecimal(t).Some? ==> ReadDecimal(t).value == SplitSign(t).0 * DigitsValue(WholePart(SplitSign(t).1))
  {
    var b := SplitSign(t).1;
    SplitAtDot(b);
  }

  /** Splitting a string at its first '.' gives two digit runs exactly when it is a decimal body. */
  lemma SplitAtDot(b: string)
    ensures var k := IndexOfDot(b);
            var frac := if k < |b| then b[k + 1..] else [];
            AllDigits(b[..k]) && AllDigits(frac) && |b[..k]| + |frac| > 0 <==> DecimalBody(b)
  {
    var k := IndexOfDot(b);
    var frac := if k < |b| then b[k + 1..] else [];
    if AllDigits(b[..k]) && AllDigits(frac) && |b[..k]| + |frac| > 0 {
      forall i | 0 <= i < |b|
        ensures IsDigit(b[i]) || b[i] == '.'
      {
        if i < k {
          assert b[i] == b[..k][i];
        } else if i > k {
          assert b[i] == frac[i - k - 1];
        }
      }
      forall i, j | 0 <= i < j < |b| && b[i] == '.'
        ensures b[j] != '.'
      {
        assert j > k;
        assert b[j] == frac[j - k - 1];
      }
      if |b[..k]| > 0 {
        assert IsDigit(b[0]) by { assert b[0] == b[..k][0]; }
      } else {
        assert IsDigit(b[k + 1]) by { assert b[k + 1] == frac[0]; }
      }
    }
    if DecimalBody(b) {
      forall i | 0 <= i < k
        ensures IsDigit(b[..k][i])
      {
        assert b[..k][i] == b[i];
      }
      if k < |b| {
        forall i | 0 <= i < |frac|
          ensures IsDigit(frac[i])
        {
          assert frac[i] == b[k + 1 + i];
        }
      }
      var d :| 0 <= d < |b| && IsDigit(b[d]);
      if d < k {
        assert |b[..k]| > 0;
      } else {
        assert d > k;
        assert |frac| > 0;
      }
    }
  }

  /** Stripped decimal text read as `int(float(...))` reads it: the fraction is dropped. */
  function ReadDecimal(t: string): Option<int> {
    var (sign, body) := SplitSign(t);
    var k := IndexOfDot(body);
    var whole := body[..k];
    var frac := if k < |body| then body[k + 1..] else [];
    if AllDigits(whole) && AllDigits(frac) && |whole| + |frac| > 0 then
      Some(sign * DigitsValue(whole))
    else
      None
  }

  /** Reading decimal text agrees with reading integer text wherever the latter succeeds. */
  lemma ReadDecimalFacts(t: string)
    ensures ReadSigned(t).Some? ==> ReadDecimal(t).Some? && ReadDecimal(t).value == ReadSigned(t).value
    ensures ReadDecimal(t).Some? ==> |t| > 0
    ensures ReadDecimal(t).Some? && ReadDecimal(t).value < 0 ==> t[0] == '-'
  {
    var (sign, body) := SplitSign(t);
    DigitsHaveNoDot(body);
  }

  /** Digits, a '.', and a digit fraction: the '.' is the first one and splits the two parts. */
  lemma DottedSplit(digits: string, frac: string)
    requires AllDigits(digits)
    ensures IndexOfDot(digits + "." + frac) == |digits|
    ensures (digits + "." + frac)[..|digits|] == digits
    ensures (digits + "." + frac)[|digits| + 1..] == frac
  {
    var body := digits + "." + frac;
    IndexOfDotFirst(body, |digits|);
  }

  /** The sign split of `n` followed by a fraction keeps the fraction with the digits of `|n|`. */
  lemma SplitSignOfDotted(n: int, frac: string)
    ensures SplitSign(IntToDecimal(n) + "." + frac)
         == (if n < 0 then -1 else 1, NatToDecimal(Abs(n)) + "." + frac)
  {
    var digits := NatToDecimal(Abs(n));
    assert !IsSign(digits[0]);
    if n < 0 {
      assert IntToDecimal(n) + "." + frac == "-" + (digits + "." + frac);
    } else {
      assert (IntToDecimal(n) + "." + frac)[0] == digits[0];
    }
  }

  /**
    Decimal text with a fraction part truncates toward zero: `n.ddd` parses to
    `n` for any integer `n`, negative ones included (`-3.7` gives `-3`).
   */
  lemma ParseFloatTruncOfDotted(n: int, frac: string, left: string, right: string)
    requires AllSpace(left) && AllSpace(right)
    requires AllDigits(frac)
    ensures ParseFloatTrunc(left + IntToDecimal(n) + "." + frac + right) == Some(n)
  {
    var core := IntToDecimal(n) + "." + frac;
    assert IsStripped(core) by {
      assert core[0] == IntToDecimal(n)[0];
      if |frac| > 0 {
        assert core[|core| - 1] == frac[|frac| - 1];
      }
    }
    assert left + IntToDecimal(n) + "." + frac + right == left + core + right;
    StripOfPadded(left, core, right);
    ReadDecimalOfDotted(n, frac);
  }

  /** The decimal text of `n` with a digit fraction reads as `n`. */
  lemma ReadDecimalOfDotted(n: int, frac: string)
    requires AllDigits(frac)
    ensures ReadDecimal(IntToDecimal(n) + "." + frac) == Some(n)
  {
    SplitSignOfDotted(n, frac);
    DottedSplit(NatToDecimal(Abs(n)), frac);
  }


  /** Integer text without a fraction is read by `int(float(...))` as the same integer. */
  lemma ParseFloatTruncOfDecimal(n: int, left: string, right: string)
    requires AllSpace(left) && AllSpace(right)
    ensures ParseFloatTrunc(left + IntToDecimal(n) + right) == Some(n)
  {
    StripOfPadded(left, IntToDecimal(n), right);
    SplitSignOfDecimal(n);
    ParseFloatTruncOfDigits(left + IntToDecimal(n) + right, if n < 0 then -1 else 1, NatToDecimal(Abs(n)));
  }

  /** Text whose stripped, unsigned part is all digits is read as those digits with the sign. */
  lemma ParseFloatTruncOfDigits(text: string, sign: int, digits: string)
    requires SplitSign(Strip(text)) == (sign, digits)
    requires |digits| > 0 && AllDigits(digits)
    ensures ParseFloatTrunc(text) == Some(sign * DigitsValue(digits))
  {
    IndexOfDotOfDigits(digits);
    assert digits[..|digits|] == digits;
  }

  /** Text of digits alone is all whole part. */
  lemma DigitsHaveNoDot(s: string)
    ensures AllDigits(s) ==> IndexOfDot(s) == |s| && s[..|s|] == s
  {
    if AllDigits(s) {
      IndexOfDotOfDigits(s);
    }
  }

  /** A run of digits has no '.'. */
  lemma {:induction false} IndexOfDotOfDigits(digits: string)
    requires AllDigits(digits)
    ensures IndexOfDot(digits) == |digits|
    decreases |digits|
  {
    if |digits| > 0 {
      assert IsDigit(digits[0]);
      IndexOfDotOfDigits(digits[1..]);
    }
  }

  lemma {:induction false} IndexOfDotFirst(s: string, k: nat)
    requires k < |s| && s[k] == '.'
    requires forall j :: 0 <= j < k ==> s[j] != '.'
    ensures IndexOfDot(s) == k
    decreases k
  {
    if k > 0 {
      IndexOfDotFirst(s[1..], k - 1);
    }
  }

  /** The summed lengths of a list of strings. */
  function TotalLength(items: seq<string>): nat {
    if |items| == 0 then 0 else |items[0]| + TotalLength(items[1..])
  }

  /** Where the `i`-th item starts in `sep.join(items)`: the items before it and one separator after each. */
  function Offset(sep: string, items: seq<string>, i: nat): nat
    requires i <= |items|
  {
    TotalLength(items[..i]) + i * |sep|
  }

  /**
    Python's `sep.join(items)`: the items in order with `sep` between
    neighbours. Item `i` sits at `Offset(sep, items, i)` and is followed by
    the separator unless it is the last.
   */
  function Join(sep: string, items: seq<string>): (r: string)
    ensures |items| == 0 ==> r == ""
    ensures |items| == 1 ==> r == items[0]
    ensures |items| > 0 ==> |r| == TotalLength(items) + (|items| - 1) * |sep|
    ensures |items| > 0 ==> |items[0]| <= |r| && r[..|items[0]|] == items[0]
    ensures |items| > 1 ==> |items[0]| + |sep| <= |r| && r[|items[0]|..|items[0]| + |sep|] == sep
    ensures forall i {:trigger Offset(sep, items, i)} :: 0 <= i < |items| ==>
              var o := Offset(sep, items, i);
              o + |items[i]| <= |r| && r[o..o + |items[i]|] == items[i]
    ensures forall i {:trigger Offset(sep, items, i)} :: 0 <= i < |items| - 1 ==>
              var o := Offset(sep, items, i) + |items[i]|;
              o + |sep| <= |r| && r[o..o + |sep|] == sep
  {
    if |items| == 0 then ""
    else if |items| == 1 then
      assert Offset(sep, items, 0) == 0 by { assert items[..0] == []; }
      items[0]
    else
      var rest := Join(sep, items[1..]);
      assert (|items| - 1) * |sep| == |sep| + (|items| - 2) * |sep|;
      assert (items[0] + sep + rest)[..|items[0]|] == items[0];
      assert (items[0] + sep + rest)[|items[0]|..|items[0]| + |sep|] == sep;
      JoinCons(sep, items, rest);
      items[0] + sep + rest
  }

  /** The pieces of `items[0] + sep + rest`, given the pieces of `rest` for the later items. */
  lemma JoinCons(sep: string, items: seq<string>, rest: string)
    requires |items| > 1
    requires forall i :: 0 <= i < |items[1..]| ==>
               var o := Offset(sep, items[1..], i);
               o + |items[1..][i]| <= |rest| && rest[o..o + |items[1..][i]|] == items[1..][i]
    requires forall i :: 0 <= i < |items[1..]| - 1 ==>
               var o := Offset(sep, items[1..], i) + |items[1..][i]|;
               o + |sep| <= |rest| && rest[o..o + |sep|] == sep
    ensures var r := items[0] + sep + rest;
            forall i :: 0 <= i < |items| ==>
              var o := Offset(sep, items, i);
              o + |items[i]| <= |r| && r[o..o + |items[i]|] == items[i]
    ensures var r := items[0] + sep + rest;
            forall i :: 0 <= i < |items| - 1 ==>
              var o := Offset(sep, items, i) + |items[i]|;
              o + |sep| <= |r| && r[o..o + |sep|] == sep
  {
    JoinConsItems(sep, items, rest);
    JoinConsSeps(sep, items, rest);
  }

  lemma JoinConsItems(sep: string, items: seq<string>, rest: string)
    requires |items| > 1
    requires forall i :: 0 <= i < |items[1..]| ==>
               var o := Offset(sep, items[1..], i);
               o + |items[1..][i]| <= |rest| && rest[o..o + |items[1..][i]|] == items[1..][i]
    ensures var r := items[0] + sep + rest;
            forall i :: 0 <= i < |items| ==>
              var o := Offset(sep, items, i);
              o + |items[i]| <= |r| && r[o..o + |items[i]|] == items[i]
  {
    var r := items[0] + sep + rest;
    assert Offset(sep, items, 0) == 0 by { assert items[..0] == []; }
    forall i | 0 <= i < |items|
      ensures var o := Offset(sep, items, i);
              o + |items[i]| <= |r| && r[o..o + |items[i]|] == items[i]
    {
      if i > 0 {
        OffsetCons(sep, items, i - 1);
        var o := Offset(sep, items[1..], i - 1);
        assert items[i] == items[1..][i - 1];
        SliceAfter(items[0] + sep, rest, o, o + |items[i]|);
      }
    }
  }

  lemma JoinConsSeps(sep: string, items: seq<string>, rest: string)
    requires |items| > 1
    requires forall i :: 0 <= i < |items[1..]| - 1 ==>
               var o := Offset(sep, items[1..], i) + |items[1..][i]|;
               o + |sep| <= |rest| && rest[o..o + |sep|] == sep
    ensures var r := items[0] + sep + rest;
            forall i :: 0 <= i < |items| - 1 ==>
              var o := Offset(sep, items, i) + |items[i]|;
              o + |sep| <= |r| && r[o..o + |sep|] == sep
  {
    var r := items[0] + sep + rest;
    assert Offset(sep, items, 0) == 0 by { assert items[..0] == []; }
    forall i | 0 <= i < |items| - 1
      ensures var o := Offset(sep, items, i) + |items[i]|;
              o + |sep| <= |r| && r[o..o + |sep|] == sep
    {
      if i > 0 {
        OffsetCons(sep, items, i - 1);
        var o := Offset(sep, items[1..], i - 1) + |items[i]|;
        assert items[i] == items[1..][i - 1];
        SliceAfter(items[0] + sep, rest, o, o + |sep|);
      }
    }
  }

  /** A slice of the part after a prefix, read from the whole. */
  lemma SliceAfter(pre: string, rest: string, a: nat, b: nat)
    requires a <= b <= |rest|
    ensures (pre + rest)[|pre| + a..|pre| + b] == rest[a..b]
  {
  }

  /** Item `i + 1` of `items` starts one item and one separator after item `i` of `items[1..]`. */
  lemma OffsetCons(sep: string, items: seq<string>, i: nat)
    requires i < |items|
    ensures Offset(sep, items, i + 1) == |items[0]| + |sep| + Offset(sep, items[1..], i)
  {
    assert items[..i + 1][1..] == items[1..][..i];
    assert (i + 1) * |sep| == |sep| + i * |sep|;
  }
}
