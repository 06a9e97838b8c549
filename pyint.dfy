/**
 * Python's `int(s)` on a string, base 10, for ASCII digits: surrounding
 * whitespace is ignored, an optional sign is allowed, and digits may be
 * separated by single underscores. Anything else is a `ValueError`, modelled
 * as `None`.
 */
module PyInt {
  import opened Wrappers

  /** The whitespace `int` ignores at both ends: the characters `str.isspace`
      accepts, except U+001C to U+001F. `int` maps non-ASCII whitespace to a
      space but keeps ASCII characters as they are, and then skips only tab,
      line feed, vertical tab, form feed, carriage return and space. */
  predicate IsSpace(c: char) {
    var n := c as int;
    (0x09 <= n <= 0x0D) || n == 0x20 || n == 0x85 || n == 0xA0 || n == 0x1680
    || (0x2000 <= n <= 0x200A) || n == 0x2028 || n == 0x2029 || n == 0x202F || n == 0x205F || n == 0x3000
  }

  /** `s.lstrip()`. */
  function StripStart(s: string): (r: string)
    ensures |r| <= |s|
    ensures r != [] ==> !IsSpace(r[0])
    ensures forall k :: 0 <= k < |s| - |r| ==> IsSpace(s[k])
  {
    if s != [] && IsSpace(s[0]) then StripStart(s[1..]) else s
  }

  /** `s.rstrip()`. */
  function StripEnd(s: string): (r: string)
    ensures |r| <= |s|
    ensures r != [] ==> !IsSpace(r[|r| - 1])
    ensures forall k :: |r| <= k < |s| ==> IsSpace(s[k])
  {
    if s != [] && IsSpace(s[|s| - 1]) then StripEnd(s[..|s| - 1]) else s
  }

  predicate AllSpace(w: string) {
    forall k :: 0 <= k < |w| ==> IsSpace(w[k])
  }

  /** Leading whitespace in front of a string that does not start with
      whitespace is exactly what `lstrip` removes. */
  lemma {:induction false} StripStartSpaces(w: string, t: string)
    requires AllSpace(w)
    requires t == [] || !IsSpace(t[0])
    ensures StripStart(w + t) == t
  {
    if w == [] {
      assert w + t == t;
    } else {
      assert (w + t)[1..] == w[1..] + t;
      StripStartSpaces(w[1..], t);
    }
  }

  /** Trailing whitespace after a string that does not end with whitespace
      is exactly what `rstrip` removes. */
  lemma {:induction false} StripEndSpaces(t: string, w: string)
    requires AllSpace(w)
    requires t == [] || !IsSpace(t[|t| - 1])
    ensures StripEnd(t + w) == t
  {
    if w == [] {
      assert t + w == t;
    } else {
      var n := |w| - 1;
      assert (t + w)[..|t + w| - 1] == t + w[..n];
      StripEndSpaces(t, w[..n]);
    }
  }

  /** `s.lstrip()` drops a prefix of `s`, all of it whitespace. */
  lemma {:induction false} StripStartSplit(s: string) returns (w: string)
    ensures s == w + StripStart(s) && AllSpace(w)
  {
    if s != [] && IsSpace(s[0]) {
      var w' := StripStartSplit(s[1..]);
      w := [s[0]] + w';
      assert s == [s[0]] + s[1..];
    } else {
      w := "";
    }
  }

  /** `s.rstrip()` drops a suffix of `s`, all of it whitespace. */
  lemma {:induction false} StripEndSplit(s: string) returns (w: string)
    ensures s == StripEnd(s) + w && AllSpace(w)
  {
    if s != [] && IsSpace(s[|s| - 1]) {
      var n := |s| - 1;
      var w' := StripEndSplit(s[..n]);
      w := w' + [s[n]];
      calc {
        StripEnd(s) + w;
        StripEnd(s[..n]) + (w' + [s[n]]);
        (StripEnd(s[..n]) + w') + [s[n]];
        s[..n] + [s[n]];
        s;
      }
    } else {
      w := "";
    }
  }

  function Strip(s: string): string {
    StripEnd(StripStart(s))
  }

  predicate IsDigit(c: char) { '0' <= c <= '9' }

  function DigitValue(c: char): nat
    requires IsDigit(c)
  {
    c as int - '0' as int
  }

  function Pow10(k: nat): (r: nat)
    ensures r >= 1
  {
    if k == 0 then 1 else 10 * Pow10(k - 1)
  }

  lemma {:induction false} Pow10Monotone(i: nat, j: nat)
    requires i <= j
    ensures Pow10(i) <= Pow10(j)
  {
    if i < j {
      Pow10Monotone(i, j - 1);
    }
  }

  predicate DigitsOrUnderscores(t: string) {
    forall k :: 0 <= k < |t| ==> IsDigit(t[k]) || t[k] == '_'
  }

  /** A base-10 magnitude as `int` accepts it: digits, with single underscores
      only between two digits. */
  predicate IsDigitGroups(t: string) {
    && |t| > 0
    && IsDigit(t[0])
    && IsDigit(t[|t| - 1])
    && DigitsOrUnderscores(t)
    && forall k :: 0 <= k < |t| - 1 && t[k] == '_' ==> t[k + 1] != '_'
  }

  /** The value of the digits of `t`, underscores skipped. */
  function DigitsValue(t: string): (r: nat)
    requires DigitsOrUnderscores(t)
    ensures r < Pow10(|t|)
  {
    if t == [] then 0
    else
      var i := |t| - 1;
      assert DigitsOrUnderscores(t[..i]);
      if t[i] == '_' then DigitsValue(t[..i]) else DigitsValue(t[..i]) * 10 + DigitValue(t[i])
  }

  /** `int` on text with no surrounding whitespace: an optional sign, then
      digit groups. The value never has more digits than the text has
      characters. */
  function ParseStripped(t: string): (r: Option<int>)
    ensures r.Some? ==> -(Pow10(|t|) as int) < r.value < Pow10(|t|)
  {
    if t != [] && (t[0] == '+' || t[0] == '-') then
      var mag := t[1..];
      if IsDigitGroups(mag) then
        Pow10Monotone(|mag|, |t|);
        Some(if t[0] == '-' then -(DigitsValue(mag) as int) else DigitsValue(mag))
      else None
    else if IsDigitGroups(t) then Some(DigitsValue(t))
    else None
  }

  /** `int(s)`; `None` where Python raises `ValueError`. The value never has
      more digits than the string has characters. */
  function ParseInt(s: string): (r: Option<int>)
    ensures r.Some? ==> -(Pow10(|s|) as int) < r.value < Pow10(|s|)
  {
    var t := Strip(s);
    Pow10Monotone(|t|, |s|);
    ParseStripped(t)
  }

  /** The value of a sign and a magnitude. */
  function Signed(sign: string, g: string): int
    requires DigitsOrUnderscores(g)
  {
    if sign == "-" then -(DigitsValue(g) as int) else DigitsValue(g)
  }

  /** Whitespace around text that neither starts nor ends with whitespace is
      exactly what `strip` removes. */
  lemma StripAround(w1: string, t: string, w2: string)
    requires AllSpace(w1) && AllSpace(w2)
    requires t != [] && !IsSpace(t[0]) && !IsSpace(t[|t| - 1])
    ensures Strip(w1 + t + w2) == t
  {
    assert w1 + t + w2 == w1 + (t + w2);
    assert (t + w2)[0] == t[0];
    StripStartSpaces(w1, t + w2);
    StripEndSpaces(t, w2);
  }

  /** A sign and digit groups are accepted with the value they spell. */
  lemma ParseStrippedAccepts(sign: string, g: string)
    requires sign in {"", "+", "-"}
    requires IsDigitGroups(g)
    ensures ParseStripped(sign + g) == Some(Signed(sign, g))
  {
    if sign != "" {
      assert (sign + g)[1..] == g;
    } else {
      assert sign + g == g;
    }
  }

  /** Every string of the shape `int` accepts is parsed to its value:
      whitespace, an optional sign, digit groups, whitespace. */
  lemma ParseIntAccepts(w1: string, sign: string, g: string, w2: string)
    requires AllSpace(w1) && AllSpace(w2)
    requires sign in {"", "+", "-"}
    requires IsDigitGroups(g)
    ensures ParseInt(w1 + sign + g + w2) == Some(Signed(sign, g))
  {
    var t := sign + g;
    assert t[0] == (if sign == "" then g[0] else sign[0]);
    assert t[|t| - 1] == g[|g| - 1];
    assert w1 + sign + g + w2 == w1 + t + w2;
    StripAround(w1, t, w2);
    ParseStrippedAccepts(sign, g);
  }

  /** What `int` accepts after stripping is a sign and digit groups. */
  lemma ParseStrippedShape(t: string) returns (sign: string, g: string)
    requires ParseStripped(t).Some?
    ensures t == sign + g
    ensures sign in {"", "+", "-"}
    ensures IsDigitGroups(g)
    ensures ParseStripped(t).value == Signed(sign, g)
  {
    if t != [] && (t[0] == '+' || t[0] == '-') {
      sign, g := [t[0]], t[1..];
    } else {
      sign, g := "", t;
    }
    assert t == sign + g;
  }

  /** An ASCII information separator is not whitespace to `int`: a day
      piece made of U+001C and `5` is refused. */
  lemma SeparatorNotStripped(s: string)
    requires s == [0x1C as char, '5']
    ensures ParseInt(s) == None
  {
    assert !IsSpace(s[0]) && !IsSpace(s[1]);
    assert StripStart(s) == s;
    assert Strip(s) == s;
    assert !IsDigitGroups(s);
  }

  /** Conversely, whatever `int` accepts has that shape, and its value is the
      value of that sign and those digits. */
  lemma ParseIntShape(s: string) returns (w1: string, sign: string, g: string, w2: string)
    requires ParseInt(s).Some?
    ensures s == w1 + sign + g + w2
    ensures AllSpace(w1) && AllSpace(w2)
    ensures sign in {"", "+", "-"}
    ensures IsDigitGroups(g)
    ensures ParseInt(s).value == Signed(sign, g)
  {
    w1 := StripStartSplit(s);
    w2 := StripEndSplit(StripStart(s));
    sign, g := ParseStrippedShape(Strip(s));
    Regroup(s, w1, StripStart(s), Strip(s), w2, sign, g);
  }

  lemma Regroup(s: string, w1: string, u: string, t: string, w2: string, sign: string, g: string)
    requires s == w1 + u && u == t + w2 && t == sign + g
    ensures s == w1 + sign + g + w2
  {
    assert w1 + (sign + g + w2) == w1 + sign + g + w2;
  }

  /** The zero-padded decimal rendering of `n` in at least `width` digits. */
  function Decimal(n: nat, width: nat): (r: string)
    ensures |r| >= 1
    ensures forall k :: 0 <= k < |r| ==> IsDigit(r[k])
    decreases n, width
  {
    var last := [('0' as int + n % 10) as char];
    if n < 10 && width <= 1 then last
    else Decimal(n / 10, if width == 0 then 0 else width - 1) + last
  }

  /** A number that fits in `width` digits is rendered in exactly `width`. */
  lemma {:induction false} DecimalLength(n: nat, width: nat)
    requires 1 <= width && n < Pow10(width)
    ensures |Decimal(n, width)| == width
    decreases width
  {
    if !(n < 10 && width <= 1) {
      DecimalLength(n / 10, width - 1);
    }
  }

  lemma {:induction false} DecimalValue(n: nat, width: nat)
    ensures DigitsOrUnderscores(Decimal(n, width))
    ensures DigitsValue(Decimal(n, width)) == n
    decreases n, width
  {
    var d := Decimal(n, width);
    if !(n < 10 && width <= 1) {
      var w := if width == 0 then 0 else width - 1;
      DecimalValue(n / 10, w);
      assert d[..|d| - 1] == Decimal(n / 10, w);
    }
  }

  /** Parsing a zero-padded rendering gives the number back. */
  lemma ParseIntDecimal(n: nat, width: nat)
    ensures ParseInt(Decimal(n, width)) == Some(n)
  {
    var d := Decimal(n, width);
    DecimalValue(n, width);
    StripDigits(d);
    assert IsDigitGroups(d);
  }

  /** Strings of digits have no surrounding whitespace to strip. */
  lemma StripDigits(d: string)
    requires d != [] && forall k :: 0 <= k < |d| ==> IsDigit(d[k])
    ensures Strip(d) == d
  {
    assert !IsSpace(d[0]);
    assert StripStart(d) == d;
    assert !IsSpace(d[|d| - 1]);
  }
}
