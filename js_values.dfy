/** The part of JavaScript's value model that the user handlers depend on:
    the values a parsed JSON body can hold, truthiness (`!v`), and the
    coercions `Number(v)`, `String(v)` and `String.prototype.trim`. */
module JsValues {

  /** A field read from a parsed JSON request body. `Undefined` is what
      reading a key that the body does not contain yields. */
  datatype Value = Undefined | Null | Bool(b: bool) | Num(n: int) | Str(s: string)

  /** A JavaScript number, as far as the model needs one: NaN or an integer. */
  datatype Number = NaN | Int(i: int)

  /** `!v` holds exactly for the falsy values. */
  predicate Falsy(v: Value): (r: bool)
    ensures r <==> v == Undefined || v == Null || v == Bool(false) || v == Num(0) || v == Str("")
  {
    match v
    case Undefined => true
    case Null => true
    case Bool(b) => !b
    case Num(n) => n == 0
    case Str(s) => s == ""
  }

  // ---------------------------------------------------------------------
  // String.prototype.trim

  /** The characters `trim` removes: ECMAScript WhiteSpace (tab, vertical
      tab, form feed, no-break space, byte order mark and every space
      separator) and LineTerminator (line feed, carriage return, line and
      paragraph separators). */
  predicate IsSpace(c: char) {
    || c == '\t' || c == '\n' || c == '\U{000B}' || c == '\U{000C}' || c == '\r'
    || c == ' ' || c == '\U{00A0}' || c == '\U{1680}'
    || ('\U{2000}' <= c <= '\U{200A}')
    || c == '\U{2028}' || c == '\U{2029}' || c == '\U{202F}' || c == '\U{205F}'
    || c == '\U{3000}' || c == '\U{FEFF}'
  }

  predicate AllSpace(s: string) {
    forall k :: 0 <= k < |s| ==> IsSpace(s[k])
  }

  /** Every character of `s` at a position in `[lo, hi)` is white space. */
  predicate SpaceBetween(s: string, lo: nat, hi: nat)
    requires lo <= hi <= |s|
  {
    forall k :: lo <= k < hi ==> IsSpace(s[k])
  }

  /** The first position at or after `i` that does not hold white space
      (`|s|` when there is none). */
  function SkipSpacesForward(s: string, i: nat): (r: nat)
    requires i <= |s|
    ensures i <= r <= |s| && SpaceBetween(s, i, r)
    ensures r < |s| ==> !IsSpace(s[r])
    decreases |s| - i
  {
    if i < |s| && IsSpace(s[i]) then SkipSpacesForward(s, i + 1) else i
  }

  /** The end of the text in `s[lo..j]` once the white space at its end is
      dropped: the last position in `[lo, j]` after which only white space
      follows up to `j`. */
  function SkipSpacesBackward(s: string, lo: nat, j: nat): (r: nat)
    requires lo <= j <= |s|
    ensures lo <= r <= j && SpaceBetween(s, r, j)
    ensures lo < r ==> !IsSpace(s[r - 1])
    decreases j
  {
    if lo < j && IsSpace(s[j - 1]) then SkipSpacesBackward(s, lo, j - 1) else j
  }

  /** `String(s).trim()`: the part of `s` between its leading and its
      trailing white space, which neither starts nor ends with white space
      (TrimCutsOnlySpace says what was cut off). */
  function Trim(s: string): (r: string)
    ensures |r| <= |s|
    ensures r == [] || (!IsSpace(r[0]) && !IsSpace(r[|r| - 1]))
  {
    var i := SkipSpacesForward(s, 0);
    s[i..SkipSpacesBackward(s, i, |s|)]
  }

  /** Trimming keeps the contiguous part of the string that starts at its
      first character that is not white space, and everything it cuts off
      on either side is white space. */
  lemma TrimCutsOnlySpace(s: string)
    ensures var r, i := Trim(s), SkipSpacesForward(s, 0);
      && i + |r| <= |s| && r == s[i..i + |r|]
      && SpaceBetween(s, 0, i) && SpaceBetween(s, i + |r|, |s|)
  {
  }

  lemma {:induction false} SkipSpacesForwardPadded(pre: string, x: string, i: nat)
    requires AllSpace(pre) && i <= |pre|
    requires x == [] || !IsSpace(x[0])
    ensures SkipSpacesForward(pre + x, i) == |pre|
    decreases |pre| - i
  {
    if i < |pre| {
      assert (pre + x)[i] == pre[i];
      SkipSpacesForwardPadded(pre, x, i + 1);
    } else if x != [] {
      assert (pre + x)[i] == x[0];
    }
  }

  lemma {:induction false} SkipSpacesBackwardPadded(x: string, post: string, lo: nat, j: nat)
    requires AllSpace(post) && lo < |x| && !IsSpace(x[|x| - 1])
    requires |x| <= j <= |x| + |post|
    ensures SkipSpacesBackward(x + post, lo, j) == |x|
    decreases j
  {
    if j > |x| {
      assert (x + post)[j - 1] == post[j - 1 - |x|];
      SkipSpacesBackwardPadded(x, post, lo, j - 1);
    } else {
      assert (x + post)[j - 1] == x[|x| - 1];
    }
  }

  /** Trimming removes exactly the white space padding around a string that
      neither starts nor ends with white space. */
  lemma TrimPadded(pre: string, t: string, post: string)
    requires AllSpace(pre) && AllSpace(post)
    requires t == [] || (!IsSpace(t[0]) && !IsSpace(t[|t| - 1]))
    ensures Trim(pre + t + post) == t
  {
    var s := pre + t + post;
    if t == [] {
      var blank := pre + post;
      assert AllSpace(blank) by {
        forall k | 0 <= k < |blank| ensures IsSpace(blank[k]) {
          if k < |pre| { assert blank[k] == pre[k]; } else { assert blank[k] == post[k - |pre|]; }
        }
      }
      assert s == blank + [];
      SkipSpacesForwardPadded(blank, [], 0);
    } else {
      assert s == pre + (t + post);
      SkipSpacesForwardPadded(pre, t + post, 0);
      assert s == (pre + t) + post;
      SkipSpacesBackwardPadded(pre + t, post, |pre|, |s|);
      assert s[|pre|..|pre| + |t|] == t;
    }
  }

  /** Trimming twice is trimming once. */
  lemma TrimIdempotent(s: string)
    ensures Trim(Trim(s)) == Trim(s)
  {
    var r := Trim(s);
    assert [] + r + [] == r;
    TrimPadded([], r, []);
  }

  // ---------------------------------------------------------------------
  // Decimal integers: String(n) and Number(s)

  predicate IsDigit(c: char) {
    '0' <= c <= '9'
  }

  predicate AllDigits(s: string) {
    forall k :: 0 <= k < |s| ==> IsDigit(s[k])
  }

  function DigitChar(d: nat): (c: char)
    requires d < 10
    ensures IsDigit(c) && c as int - '0' as int == d
  {
    ('0' as int + d) as char
  }

  /** The value of a string of decimal digits (0 for the empty string). */
  function DigitsValue(s: string): nat
    requires AllDigits(s)
  {
    if s == [] then 0
    else 10 * DigitsValue(s[..|s| - 1]) + (s[|s| - 1] as int - '0' as int)
  }

  /** The shortest decimal spelling of a natural number. */
  function DecimalNat(n: nat): (r: string)
    ensures r != [] && AllDigits(r)
    ensures r[0] == '0' <==> n == 0
  {
    if n < 10 then [DigitChar(n)] else DecimalNat(n / 10) + [DigitChar(n % 10)]
  }

  /** `String(n)` for an integer written in plain decimal notation: a minus
      sign exactly for negative numbers, then the digits without leading
      zeros. */
  function DecimalInt(n: int): (r: string)
    ensures r != [] && (r[0] == '-' <==> n < 0)
    ensures var digits := if n < 0 then r[1..] else r;
      digits != [] && AllDigits(digits) && (digits[0] == '0' <==> n == 0)
  {
    if n < 0 then "-" + DecimalNat(-n) else DecimalNat(n)
  }

  /** The integer a trimmed numeric string denotes: the empty string is 0,
      otherwise an optional sign and at least one decimal digit; anything
      else is NaN. */
  function ParseInteger(s: string): (r: Number)
    ensures s == [] ==> r == Int(0)
    ensures AllDigits(s) ==> r.Int? && r.i >= 0
    ensures r.Int? && r.i < 0 ==> s[0] == '-'
  {
    if s == [] then Int(0)
    else if AllDigits(s) then Int(DigitsValue(s))
    else if |s| > 1 && s[0] == '+' && AllDigits(s[1..]) then Int(DigitsValue(s[1..]))
    else if |s| > 1 && s[0] == '-' && AllDigits(s[1..]) then Int(-(DigitsValue(s[1..]) as int))
    else NaN
  }

  /** `Number(v)`. */
  function ToNumber(v: Value): (r: Number)
    ensures v.Num? ==> r == Int(v.n)
    ensures v.Str? && AllSpace(v.s) ==> r == Int(0)
    ensures r.NaN? ==> v.Undefined? || v.Str?
  {
    match v
    case Undefined => NaN
    case Null => Int(0)
    case Bool(b) => if b then Int(1) else Int(0)
    case Num(n) => Int(n)
    case Str(s) => ParseInteger(Trim(s))
  }

  /** `String(v)`. */
  function ToString(v: Value): (r: string)
    ensures v.Str? ==> r == v.s
    ensures r == [] ==> v == Str("")
    ensures v.Num? ==> ParseInteger(r) == Int(v.n)
  {
    match v
    case Undefined => "undefined"
    case Null => "null"
    case Bool(b) => if b then "true" else "false"
    case Num(n) => ParseDecimal(n); DecimalInt(n)
    case Str(s) => s
  }

  lemma {:induction false} DigitsValueOfDecimal(n: nat)
    ensures DigitsValue(DecimalNat(n)) == n
  {
    if n >= 10 {
      var s := DecimalNat(n);
      assert s[..|s| - 1] == DecimalNat(n / 10);
      DigitsValueOfDecimal(n / 10);
    }
  }

  lemma ParseDecimal(n: int)
    ensures ParseInteger(DecimalInt(n)) == Int(n)
  {
    var d := DecimalInt(n);
    if n < 0 {
      DigitsValueOfDecimal(-n);
      assert d[1..] == DecimalNat(-n);
      assert !IsDigit(d[0]);
    } else {
      DigitsValueOfDecimal(n);
    }
  }

  lemma DecimalUnpadded(n: int)
    ensures var d := DecimalInt(n); d != [] && !IsSpace(d[0]) && !IsSpace(d[|d| - 1])
  {
    var d := DecimalInt(n);
    assert IsDigit(d[|d| - 1]);
    assert d[0] == '-' || IsDigit(d[0]);
  }

  /** An age sent as a string (possibly padded with white space) is stored
      as the same number as when it is sent as a JSON number:
      `Number(" 30 ") == Number(30)`. */
  lemma NumberOfDecimalString(pre: string, n: int, post: string)
    requires AllSpace(pre) && AllSpace(post)
    ensures ToNumber(Str(pre + DecimalInt(n) + post)) == ToNumber(Num(n))
  {
    DecimalUnpadded(n);
    TrimPadded(pre, DecimalInt(n), post);
    ParseDecimal(n);
  }

  /** Coercing a number to a string and back gives the number again, so a
      name sent as a number is stored as its decimal spelling. */
  lemma StringOfNumberRoundTrip(n: int)
    ensures ToNumber(Str(ToString(Num(n)))) == Int(n)
  {
    assert [] + DecimalInt(n) + [] == DecimalInt(n);
    NumberOfDecimalString([], n, []);
  }
}
