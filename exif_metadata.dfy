/**
 * `get_metadata`: the scan of one image's EXIF tag map that yields the year,
 * month and day pieces of the `DateTime` tag, the month's name and the
 * normalised camera `Model`.
 */
module ExifMetadata {
  import opened Wrappers
  import opened PyStrings
  import opened PyInt
  import opened Calendar

  /** The numeric ids that Pillow's `TAGS` table names `DateTime` and `Model`
      (TIFF Revision 6.0, Section 8). */
  const DateTimeTag := 306
  const ModelTag := 272

  /** A tag's value after the attempt to decode bytes: text, or something that
      is not a string (undecodable bytes, a number, a tuple). */
  datatype Value = Text(s: string) | NonText

  /** One item of the tag map, in the map's iteration order. */
  datatype Entry = Entry(tag: int, value: Value)

  /** The five variables `get_metadata` returns; `None` where never assigned. */
  datatype Metadata = Metadata(
    year: Option<string>,
    month: Option<string>,
    day: Option<string>,
    monthName: Option<string>,
    model: Option<string>)

  /** How the scan ends: it returns the five variables, or an exception
      escapes it (slicing or upper-casing a value that is not a string). */
  datatype Extraction = Extracted(md: Metadata) | Raised

  const Unset := Metadata(None, None, None, None, None)

  /** What a `DateTime` value yields: its three pieces, kept as written, and
      the month name. */
  datatype DateParts = DateParts(year: string, month: string, day: string, monthName: string)

  /** A date the `datetime` constructor accepted. */
  datatype Date = Date(year: int, month: int, day: int)

  /** The date used when the pieces do not make a valid one. */
  const Fallback := Date(2000, 1, 1)

  /** `datetime.datetime(int(year), int(month), int(day))`, with `None` where
      either `int` or the constructor raises `ValueError`. */
  function MakeDate(year: string, month: string, day: string): (r: Option<Date>)
    ensures r.Some? ==> IsValidDate(r.value.year, r.value.month, r.value.day)
    ensures r.Some? ==> ParseInt(year) == Some(r.value.year) && ParseInt(month) == Some(r.value.month) && ParseInt(day) == Some(r.value.day)
    ensures var y, m, d := ParseInt(year), ParseInt(month), ParseInt(day);
      y.Some? && m.Some? && d.Some? && IsValidDate(y.value, m.value, d.value) ==> r == Some(Date(y.value, m.value, d.value))
  {
    var y, m, d := ParseInt(year), ParseInt(month), ParseInt(day);
    if y.Some? && m.Some? && d.Some? && IsValidDate(y.value, m.value, d.value)
    then Some(Date(y.value, m.value, d.value))
    else None
  }

  /** Lines 79-89: slice the pieces, check them, and name the month of the
      date taken, or of the fallback date. The pieces themselves are not
      replaced by the fallback. */
  function DateOf(s: string): (r: DateParts)
    ensures |r.year| <= 4 && |r.month| <= 2 && |r.day| <= 2
    ensures r.monthName in MonthNames
  {
    var year, month, day := Slice(s, 0, 4), Slice(s, 5, 7), Slice(s, 8, 10);
    var taken := match MakeDate(year, month, day) case Some(d) => d case None => Fallback;
    DateParts(year, month, day, MonthName(taken.month))
  }

  /** The three pieces are the characters at positions 0-3, 5-6 and 8-9 as far
      as the value reaches, never replaced by the fallback. */
  lemma DateOfPieces(s: string)
    ensures var p := DateOf(s);
      && |p.year| == (if |s| < 4 then |s| else 4)
      && |p.month| == (if |s| <= 5 then 0 else if |s| < 7 then |s| - 5 else 2)
      && |p.day| == (if |s| <= 8 then 0 else if |s| < 10 then |s| - 8 else 2)
      && (forall k :: 0 <= k < |p.year| ==> p.year[k] == s[k])
      && (forall k :: 0 <= k < |p.month| ==> p.month[k] == s[5 + k])
      && (forall k :: 0 <= k < |p.day| ==> p.day[k] == s[8 + k])
  {
    var p := DateOf(s);
    assert p.year == Slice(s, 0, 4);
    assert p.month == Slice(s, 5, 7);
    assert p.day == Slice(s, 8, 10);
  }

  /** The month name is that of the parsed month when `int` accepts all three
      pieces and they form a valid date, and "January" when `int` or
      `datetime` raises `ValueError`. */
  lemma DateOfMonthName(s: string)
    ensures var p := DateOf(s);
      var y, m, d := ParseInt(p.year), ParseInt(p.month), ParseInt(p.day);
      p.monthName == if y.Some? && m.Some? && d.Some? && IsValidDate(y.value, m.value, d.value)
                     then MonthName(m.value) else "January"
  {
  }

  /** A well-formed `YYYY:MM:DD` prefix of a valid date round-trips: the
      pieces are the zero-padded numbers and the name is that month's. */
  lemma DateOfFormatted(y: nat, m: nat, d: nat, rest: string)
    requires IsValidDate(y, m, d)
    ensures DateOf(Decimal(y, 4) + ":" + Decimal(m, 2) + ":" + Decimal(d, 2) + rest)
         == DateParts(Decimal(y, 4), Decimal(m, 2), Decimal(d, 2), MonthName(m))
  {
    var ys, ms, ds := Decimal(y, 4), Decimal(m, 2), Decimal(d, 2);
    var s := ys + ":" + ms + ":" + ds + rest;
    FormattedPieces(y, m, d, rest);
    ParseIntDecimal(y, 4);
    ParseIntDecimal(m, 2);
    ParseIntDecimal(d, 2);
    assert MakeDate(ys, ms, ds) == Some(Date(y, m, d));
  }

  /** The slices of a `YYYY:MM:DD` prefix are the three renderings. */
  lemma FormattedPieces(y: nat, m: nat, d: nat, rest: string)
    requires IsValidDate(y, m, d)
    ensures var s := Decimal(y, 4) + ":" + Decimal(m, 2) + ":" + Decimal(d, 2) + rest;
      Slice(s, 0, 4) == Decimal(y, 4) && Slice(s, 5, 7) == Decimal(m, 2) && Slice(s, 8, 10) == Decimal(d, 2)
  {
    var ys, ms, ds := Decimal(y, 4), Decimal(m, 2), Decimal(d, 2);
    DecimalLength(y, 4);
    DecimalLength(m, 2);
    DecimalLength(d, 2);
    var s := ys + ":" + ms + ":" + ds + rest;
    assert s[0..4] == ys;
    assert s[5..7] == ms;
    assert s[8..10] == ds;
    SliceInBounds(s, 0, 4);
    SliceInBounds(s, 5, 7);
    SliceInBounds(s, 8, 10);
  }

  /** Line 93: `data.upper().replace(' ', '_')`. */
  function NormalizeModel(s: string): string {
    ReplaceChar(Upper(s), ' ', '_')
  }

  /** Each character is upper-cased, and each space becomes `_`: the result
      keeps the length and has no space and no lower-case letter left. */
  lemma NormalizeModelChars(s: string)
    ensures var r := NormalizeModel(s);
      && |r| == |s|
      && (forall k :: 0 <= k < |s| ==> r[k] == if s[k] == ' ' then '_' else UpperChar(s[k]))
      && ' ' !in r
      && (forall k :: 0 <= k < |r| ==> !IsLower(r[k]))
  {
    var r := NormalizeModel(s);
    forall k | 0 <= k < |r| ensures r[k] != ' ' && !IsLower(r[k]) {
      assert r[k] == if s[k] == ' ' then '_' else UpperChar(s[k]);
    }
  }

  /** Normalising a normalised model changes nothing. */
  lemma NormalizeModelIdempotent(s: string)
    ensures NormalizeModel(NormalizeModel(s)) == NormalizeModel(s)
  {
    var r := NormalizeModel(s);
    NormalizeModelChars(s);
    NormalizeModelChars(r);
    forall k | 0 <= k < |r| ensures NormalizeModel(r)[k] == r[k] {
      assert r[k] != ' ' && !IsLower(r[k]);
    }
  }

  lemma NormalizeModelExample(s: string)
    requires s == "Canon EOS 5D"
    ensures NormalizeModel(s) == "CANON_EOS_5D"
  {
    var t := "CANON_EOS_5D";
    NormalizeModelChars(s);
    forall k | 0 <= k < |s| ensures NormalizeModel(s)[k] == t[k] {
      assert NormalizeModel(s)[k] == if s[k] == ' ' then '_' else UpperChar(s[k]);
    }
  }

  predicate Relevant(tag: int) { tag == DateTimeTag || tag == ModelTag }

  /** One turn of the loop at lines 70-93 on the variables so far. */
  function Absorb(md: Metadata, e: Entry): (r: Extraction)
    ensures r.Raised? <==> Relevant(e.tag) && e.value.NonText?
    ensures !Relevant(e.tag) ==> r == Extracted(md)
    ensures r.Extracted? && e.tag != ModelTag ==> r.md.model == md.model
    ensures r.Extracted? && e.tag != DateTimeTag ==> r.md.(model := md.model) == md
  {
    if e.tag == DateTimeTag then
      match e.value
      case NonText => Raised
      case Text(s) =>
        var p := DateOf(s);
        Extracted(md.(year := Some(p.year), month := Some(p.month), day := Some(p.day), monthName := Some(p.monthName)))
    else if e.tag == ModelTag then
      match e.value
      case NonText => Raised
      case Text(s) => Extracted(md.(model := Some(NormalizeModel(s))))
    else Extracted(md)
  }

  /** The loop at lines 65-94 over the first entries, stopping at the first
      exception. */
  function Extract(tags: seq<Entry>): Extraction
  {
    if tags == [] then Extracted(Unset)
    else
      match Extract(tags[..|tags| - 1])
      case Raised => Raised
      case Extracted(md) => Absorb(md, tags[|tags| - 1])
  }

  /** `get_metadata(exifdata)`: lines 61-94. */
  method GetMetadata(tags: seq<Entry>) returns (r: Extraction)
    ensures r == Extract(tags)
  {
    var year: Option<string> := None;
    var month: Option<string> := None;
    var day: Option<string> := None;
    var monthName: Option<string> := None;
    var model: Option<string> := None;
    var i := 0;
    assert tags[..0] == [];
    assert Extract(tags[..0]) == Extracted(Metadata(year, month, day, monthName, model));
    while i < |tags|
      invariant 0 <= i <= |tags|
      invariant Extract(tags[..i]) == Extracted(Metadata(year, month, day, monthName, model))
    {
      var e := tags[i];
      ghost var before := Metadata(year, month, day, monthName, model);
      ExtractStep(tags, i);
      if Relevant(e.tag) && e.value.NonText? {
        assert tags[..i + 1] + tags[i + 1..] == tags;
        ExtractRaisedStays(tags[..i + 1], tags[i + 1..]);
        return Raised;
      }
      if e.tag == DateTimeTag {
        var s := e.value.s;
        year := Some(Slice(s, 0, 4));
        month := Some(Slice(s, 5, 7));
        day := Some(Slice(s, 8, 10));
        var taken := MakeDate(year.value, month.value, day.value);
        var picture := if taken.Some? then taken.value else Fallback;
        monthName := Some(MonthName(picture.month));
        assert DateOf(s) == DateParts(year.value, month.value, day.value, monthName.value);
        assert Absorb(before, e) == Extracted(Metadata(year, month, day, monthName, model));
      } else if e.tag == ModelTag {
        model := Some(NormalizeModel(e.value.s));
        assert Absorb(before, e) == Extracted(Metadata(year, month, day, monthName, model));
      } else {
        assert Absorb(before, e) == Extracted(before);
      }
      assert Extract(tags[..i + 1]) == Extracted(Metadata(year, month, day, monthName, model));
      i := i + 1;
    }
    assert tags[..i] == tags;
    r := Extracted(Metadata(year, month, day, monthName, model));
  }

  lemma ExtractStep(tags: seq<Entry>, i: nat)
    requires i < |tags|
    ensures Extract(tags[..i + 1]) == match Extract(tags[..i])
                                      case Raised => Raised
                                      case Extracted(md) => Absorb(md, tags[i])
  {
    assert tags[..i + 1][..i] == tags[..i];
  }

  /** Once an exception escapes, later entries are never looked at. */
  lemma {:induction false} ExtractRaisedStays(a: seq<Entry>, b: seq<Entry>)
    requires Extract(a) == Raised
    ensures Extract(a + b) == Raised
    decreases |b|
  {
    if b == [] {
      assert a + b == a;
    } else {
      var n := |b| - 1;
      assert (a + b)[..|a + b| - 1] == a + b[..n];
      ExtractRaisedStays(a, b[..n]);
    }
  }

  /** Entries appended after two prefixes with the same outcome give the same
      outcome. */
  lemma {:induction false} ExtractCongruent(a: seq<Entry>, a': seq<Entry>, b: seq<Entry>)
    requires Extract(a) == Extract(a')
    ensures Extract(a + b) == Extract(a' + b)
    decreases |b|
  {
    if b == [] {
      assert a + b == a && a' + b == a';
    } else {
      var n := |b| - 1;
      assert (a + b)[..|a + b| - 1] == a + b[..n];
      assert (a' + b)[..|a' + b| - 1] == a' + b[..n];
      ExtractCongruent(a, a', b[..n]);
    }
  }

  /** Tags other than `DateTime` and `Model` change nothing, wherever they are. */
  lemma OtherTagIgnored(a: seq<Entry>, e: Entry, b: seq<Entry>)
    requires !Relevant(e.tag)
    ensures Extract(a + [e] + b) == Extract(a + b)
  {
    assert (a + [e])[..|a|] == a;
    ExtractCongruent(a + [e], a, b);
  }

  /** Two entries with different tags can be visited in either order: the
      iteration order of the tag map, whose keys are distinct, does not
      matter. */
  lemma SwapDistinctTags(a: seq<Entry>, e1: Entry, e2: Entry, b: seq<Entry>)
    requires e1.tag != e2.tag
    ensures Extract(a + [e1, e2] + b) == Extract(a + [e2, e1] + b)
  {
    var x, y := a + [e1, e2], a + [e2, e1];
    assert x[..|x| - 1] == a + [e1] && (a + [e1])[..|a|] == a;
    assert y[..|y| - 1] == a + [e2] && (a + [e2])[..|a|] == a;
    ExtractCongruent(x, y, b);
  }

  /** The text of the last entry with tag `tag`. */
  function LastText(tags: seq<Entry>, tag: int): Option<string>
  {
    if tags == [] then None
    else
      var e := tags[|tags| - 1];
      if e.tag == tag && e.value.Text? then Some(e.value.s) else LastText(tags[..|tags| - 1], tag)
  }

  /** Some `DateTime` or `Model` entry holds a value that is not text. */
  predicate HasNonTextRelevant(tags: seq<Entry>) {
    exists k :: 0 <= k < |tags| && Relevant(tags[k].tag) && tags[k].value.NonText?
  }

  /** The metadata read off the tag map directly: the date pieces of the last
      `DateTime` text and the normalised last `Model` text. */
  function Lookup(tags: seq<Entry>): Metadata
  {
    var model := match LastText(tags, ModelTag) case None => None case Some(s) => Some(NormalizeModel(s));
    match LastText(tags, DateTimeTag)
    case None => Metadata(None, None, None, None, model)
    case Some(s) =>
      var p := DateOf(s);
      Metadata(Some(p.year), Some(p.month), Some(p.day), Some(p.monthName), model)
  }

  /** The scan raises exactly when a `DateTime` or `Model` value is not text,
      and otherwise returns what the last such entries say. */
  lemma {:induction false} ExtractByLookup(tags: seq<Entry>)
    ensures Extract(tags) == if HasNonTextRelevant(tags) then Raised else Extracted(Lookup(tags))
    decreases |tags|
  {
    if tags != [] {
      var n := |tags| - 1;
      var pre, e := tags[..n], tags[n];
      ExtractByLookup(pre);
      assert forall k :: 0 <= k < n ==> pre[k] == tags[k];
      if HasNonTextRelevant(pre) {
        var k :| 0 <= k < n && Relevant(pre[k].tag) && pre[k].value.NonText?;
        assert tags[k] == pre[k];
      } else if Relevant(e.tag) && e.value.NonText? {
        assert tags[n] == e;
      } else {
        assert !HasNonTextRelevant(tags) by {
          forall k | 0 <= k < |tags| ensures !(Relevant(tags[k].tag) && tags[k].value.NonText?) {
            if k < n { assert tags[k] == pre[k]; }
          }
        }
      }
    }
  }

  /** The four date variables are set together or not at all, and they are
      set exactly when a `DateTime` text is present; the model is set exactly
      when a `Model` text is present. */
  lemma DateFieldsTogether(tags: seq<Entry>)
    requires Extract(tags).Extracted?
    ensures var md := Extract(tags).md;
      && md.year.Some? == md.month.Some? == md.day.Some? == md.monthName.Some?
      && (md.year.Some? <==> LastText(tags, DateTimeTag).Some?)
      && (md.model.Some? <==> LastText(tags, ModelTag).Some?)
  {
    ExtractByLookup(tags);
  }

  /** Without a `DateTime` entry the four date variables stay `None`; without
      a `Model` entry the model stays `None`. */
  lemma {:induction false} AbsentTagsStayUnset(tags: seq<Entry>)
    requires Extract(tags).Extracted?
    ensures (forall k :: 0 <= k < |tags| ==> tags[k].tag != DateTimeTag) ==>
      var md := Extract(tags).md; md.year == md.month == md.day == md.monthName == None
    ensures (forall k :: 0 <= k < |tags| ==> tags[k].tag != ModelTag) ==> Extract(tags).md.model == None
  {
    ExtractByLookup(tags);
    LastTextAbsent(tags, DateTimeTag);
    LastTextAbsent(tags, ModelTag);
  }

  lemma {:induction false} LastTextAbsent(tags: seq<Entry>, tag: int)
    ensures (forall k :: 0 <= k < |tags| ==> tags[k].tag != tag) ==> LastText(tags, tag) == None
    decreases |tags|
  {
    if tags != [] {
      var n := |tags| - 1;
      LastTextAbsent(tags[..n], tag);
    }
  }
}
