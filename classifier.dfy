/**
 * The per-file classification of the main loop (lines 128-142): a file whose
 * metadata is complete goes to `destination/year/month_MonthName/MODEL`,
 * every other file to `destination/UNKNOWN`.
 */
module Classifier {
  import opened Wrappers
  import opened PyStrings
  import opened PyInt
  import opened Calendar
  import opened PosixPath
  import opened ExifMetadata

  /** What opening a file as an image gave: an exception from `Image.open`,
      `getexif` or the GPS lookup, or the EXIF tag map. */
  datatype Content = OpenFailed | Opened(tags: seq<Entry>)

  /** The folder a file belongs in, before it is joined to the destination. */
  datatype Classification =
    | Classified(year: string, month: string, monthName: string, model: string)
    | Unknown

  const UnknownFolder := "UNKNOWN"

  /** Lines 130-145: an exception, or any of the five variables left `None`,
      leaves the file unclassified. */
  function Classify(c: Content): (r: Classification)
    ensures c.OpenFailed? ==> r.Unknown?
    ensures r.Classified? ==> c.Opened? && Extract(c.tags).Extracted?
  {
    match c
    case OpenFailed => Unknown
    case Opened(tags) =>
      match Extract(tags)
      case Raised => Unknown
      case Extracted(md) =>
        if md.year.None? || md.month.None? || md.day.None? || md.monthName.None? || md.model.None? then Unknown
        else Classified(md.year.value, md.month.value, md.monthName.value, md.model.value)
  }

  /** Lines 128 and 142: the target folder. */
  function TargetPath(destination: string, cl: Classification): string
  {
    match cl
    case Unknown => Join(destination, [UnknownFolder])
    case Classified(year, month, monthName, model) => Join(destination, [year, month + "_" + monthName, model])
  }

  /** A readable image is classified exactly when both a `DateTime` text and a
      `Model` text are present and no `DateTime` or `Model` value is anything
      but text; its folder is then named from the last such entries. */
  lemma ClassifyByTags(tags: seq<Entry>)
    ensures Classify(Opened(tags)) ==
      if HasNonTextRelevant(tags) || LastText(tags, DateTimeTag).None? || LastText(tags, ModelTag).None? then Unknown
      else
        var p := DateOf(LastText(tags, DateTimeTag).value);
        Classified(p.year, p.month, p.monthName, NormalizeModel(LastText(tags, ModelTag).value))
  {
    ExtractByLookup(tags);
  }

  /** A `DateTime` of a valid date, in the `YYYY:MM:DD HH:MM:SS` layout, and a
      `Model` classify the image under the zero-padded date and the month's
      name, whichever of the two tags comes first. */
  lemma ClassifyFormatted(y: nat, m: nat, d: nat, time: string, model: string, dateFirst: bool)
    requires IsValidDate(y, m, d)
    ensures var date := Entry(DateTimeTag, Text(Decimal(y, 4) + ":" + Decimal(m, 2) + ":" + Decimal(d, 2) + time));
      var cam := Entry(ModelTag, Text(model));
      Classify(Opened(if dateFirst then [date, cam] else [cam, date]))
        == Classified(Decimal(y, 4), Decimal(m, 2), MonthName(m), NormalizeModel(model))
  {
    var date := Entry(DateTimeTag, Text(Decimal(y, 4) + ":" + Decimal(m, 2) + ":" + Decimal(d, 2) + time));
    var cam := Entry(ModelTag, Text(model));
    var tags := if dateFirst then [date, cam] else [cam, date];
    TwoTagsLookup(date, cam, dateFirst);
    ClassifyByTags(tags);
    DateOfFormatted(y, m, d, time);
  }

  /** A tag map made of one `DateTime` text and one `Model` text, in either
      order, raises nothing and holds both texts. */
  lemma TwoTagsLookup(date: Entry, cam: Entry, dateFirst: bool)
    requires date.tag == DateTimeTag && date.value.Text?
    requires cam.tag == ModelTag && cam.value.Text?
    ensures var tags := if dateFirst then [date, cam] else [cam, date];
      && !HasNonTextRelevant(tags)
      && LastText(tags, DateTimeTag) == Some(date.value.s)
      && LastText(tags, ModelTag) == Some(cam.value.s)
  {
    var tags := if dateFirst then [date, cam] else [cam, date];
    assert tags[..1][..0] == [];
    assert forall k :: 0 <= k < 2 ==> tags[k].value.Text?;
  }

  /** With folder names that are non-empty and contain no `/`, the target is
      year, then month and month name joined by `_`, then model, in that
      order, under the destination: directly when it is empty or ends with
      `/`, after one `/` otherwise. */
  lemma ClassifiedLayout(destination: string, year: string, month: string, monthName: string, model: string)
    requires IsPlainPart(year) && IsPlainPart(month + "_" + monthName) && IsPlainPart(model)
    ensures TargetPath(destination, Classified(year, month, monthName, model))
         == (if destination == [] then "" else if destination[|destination| - 1] == Sep then destination else destination + "/")
            + year + "/" + month + "_" + monthName + "/" + model
  {
    var root := if destination == [] then "" else if destination[|destination| - 1] == Sep then destination else destination + "/";
    var folder := month + "_" + monthName;
    var parts := [year, folder, model];
    assert parts[..2] == [year, folder] && parts[..2][..1] == [year] && [year][..0] == [];
    assert Join(destination, []) == destination;
    var j1 := Join(destination, [year]);
    assert year[0] in year && year[|year| - 1] in year;
    assert j1 == JoinOne(destination, year) == root + year;
    JoinOnePlain(j1, folder);
    var j2 := Join(destination, [year, folder]);
    assert j2 == JoinOne(j1, folder);
    JoinOnePlain(j2, model);
    assert Join(destination, parts) == JoinOne(j2, model);
  }

  /** The unclassified folder is `UNKNOWN` directly under the destination. */
  lemma UnknownLayout(destination: string)
    ensures TargetPath(destination, Unknown) ==
      if destination == [] then "UNKNOWN"
      else if destination[|destination| - 1] == Sep then destination + "UNKNOWN"
      else destination + "/UNKNOWN"
  {
    assert [UnknownFolder][..0] == [];
    assert Join(destination, [UnknownFolder]) == JoinOne(destination, UnknownFolder);
    assert UnknownFolder[0] != Sep;
    assert destination + [Sep] + UnknownFolder == destination + "/UNKNOWN";
  }

  /** A photograph taken on 15 July 2023 with a "Canon EOS 5D" goes to
      `dest/2023/07_July/CANON_EOS_5D`. */
  lemma ExampleValidDate(tags: seq<Entry>)
    requires tags == [Entry(DateTimeTag, Text("2023:07:15 10:00:00")), Entry(ModelTag, Text("Canon EOS 5D"))]
    ensures Classify(Opened(tags)) == Classified("2023", "07", "July", "CANON_EOS_5D")
    ensures TargetPath("dest", Classify(Opened(tags))) == "dest/2023/07_July/CANON_EOS_5D"
  {
    ValidDateClassified(tags);
    LiteralTarget("2023", "07", "July", "CANON_EOS_5D", "dest/2023/07_July/CANON_EOS_5D");
  }

  lemma ValidDateClassified(tags: seq<Entry>)
    requires tags == [Entry(DateTimeTag, Text("2023:07:15 10:00:00")), Entry(ModelTag, Text("Canon EOS 5D"))]
    ensures Classify(Opened(tags)) == Classified("2023", "07", "July", "CANON_EOS_5D")
  {
    DecimalLiterals();
    assert tags[0].value.s == Decimal(2023, 4) + ":" + Decimal(7, 2) + ":" + Decimal(15, 2) + " 10:00:00";
    ClassifyFormatted(2023, 7, 15, " 10:00:00", tags[1].value.s, true);
    NormalizeModelExample(tags[1].value.s);
  }

  lemma DecimalLiterals()
    ensures Decimal(2023, 4) == "2023" && Decimal(7, 2) == "07" && Decimal(15, 2) == "15" && Decimal(13, 2) == "13"
  {
    assert Decimal(2023, 4) == "2023" by {
      assert Decimal(2, 1) == "2";
      assert Decimal(20, 2) == "20";
      assert Decimal(202, 3) == "202";
    }
    assert Decimal(7, 2) == "07" by {
      assert Decimal(0, 1) == "0";
    }
    assert Decimal(15, 2) == "15" && Decimal(13, 2) == "13" by {
      assert Decimal(1, 1) == "1";
    }
  }

  /** Month 13 is not a date: the month name falls back to "January" while
      the year, month and day pieces stay as written, so the image still lands
      in `dest/2023/13_January/MODEL`. */
  lemma ExampleInvalidDate(tags: seq<Entry>)
    requires tags == [Entry(DateTimeTag, Text("2023:13:05 10:00:00")), Entry(ModelTag, Text("MODEL"))]
    ensures Classify(Opened(tags)) == Classified("2023", "13", "January", "MODEL")
    ensures TargetPath("dest", Classify(Opened(tags))) == "dest/2023/13_January/MODEL"
  {
    InvalidDateClassified(tags);
    LiteralTarget("2023", "13", "January", "MODEL", "dest/2023/13_January/MODEL");
  }

  lemma InvalidDateClassified(tags: seq<Entry>)
    requires tags == [Entry(DateTimeTag, Text("2023:13:05 10:00:00")), Entry(ModelTag, Text("MODEL"))]
    ensures Classify(Opened(tags)) == Classified("2023", "13", "January", "MODEL")
  {
    InvalidDateParts(tags[0].value.s);
    TwoTagsLookup(tags[0], tags[1], true);
    ClassifyByTags(tags);
    NormalizedModelLiteral(tags[1].value.s);
  }

  lemma InvalidDateParts(date: string)
    requires date == "2023:13:05 10:00:00"
    ensures DateOf(date) == DateParts("2023", "13", "05", "January")
  {
    SliceInBounds(date, 0, 4);
    SliceInBounds(date, 5, 7);
    SliceInBounds(date, 8, 10);
    assert date[0..4] == "2023" && date[5..7] == "13" && date[8..10] == "05";
    DecimalLiterals();
    ParseIntDecimal(13, 2);
    assert MakeDate("2023", "13", "05") == None;
  }

  /** The two example folders, spelt out. */
  lemma LiteralTarget(year: string, month: string, monthName: string, model: string, path: string)
    requires || (year, month, monthName, model, path) == ("2023", "07", "July", "CANON_EOS_5D", "dest/2023/07_July/CANON_EOS_5D")
             || (year, month, monthName, model, path) == ("2023", "13", "January", "MODEL", "dest/2023/13_January/MODEL")
    ensures TargetPath("dest", Classified(year, month, monthName, model)) == path
  {
    PlainLiteral(year);
    if month == "07" {
      assert month + "_" + monthName == "07_July";
    } else {
      assert month + "_" + monthName == "13_January";
    }
    PlainLiteral(month + "_" + monthName);
    PlainLiteral(model);
    ClassifiedLayout("dest", year, month, monthName, model);
    LiteralPath(year, month, monthName, model, path);
  }

  lemma PlainLiteral(p: string)
    requires p in {"2023", "07_July", "13_January", "MODEL", "CANON_EOS_5D"}
    ensures IsPlainPart(p)
  {
  }

  lemma LiteralPath(year: string, month: string, monthName: string, model: string, path: string)
    requires || (year, month, monthName, model, path) == ("2023", "07", "July", "CANON_EOS_5D", "dest/2023/07_July/CANON_EOS_5D")
             || (year, month, monthName, model, path) == ("2023", "13", "January", "MODEL", "dest/2023/13_January/MODEL")
    ensures "dest" + "/" + year + "/" + month + "_" + monthName + "/" + model == path
  {
  }

  lemma NormalizedModelLiteral(s: string)
    requires s == "MODEL"
    ensures NormalizeModel(s) == s
  {
    NormalizeModelChars(s);
    forall k | 0 <= k < |s| ensures NormalizeModel(s)[k] == s[k] {
      assert s[k] != ' ' && !IsLower(s[k]);
    }
  }
}
