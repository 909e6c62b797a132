/**
 * The study enumerator of the download pipeline: for every month of a year range it opens
 * the portal's listing for that month and turns each study cell such as
 * `"24 h 30 m ATR#1226458 "` into the pair `(study type, study id)` = `("ATR", "1226458")`.
 */
module MiovisionInfo {
  import opened Wrappers
  import opened Text
  import opened StudyListing
  import opened Sequences

  const BaseLink: string := "https://datalink.miovision.com/"

  datatype StudyTypeId = StudyTypeId(studyType: string, studyId: string)

  /** The characters `re.split('[mh]', ...)` cuts the cell text at. */
  const DurationMarks: set<char> := {'m', 'h'}

  /** The part of a cell text after its last `m` or `h` (the duration prefix dropped). */
  function TypeIdSegment(text: string): string
  {
    Last(Split(text, DurationMarks))
  }

  /** One cleaned cell: the type is the text before the first `#` of the segment, the id the
      text after its last `#`, both with surrounding whitespace removed. */
  function CleanStudyTypeId(text: string): StudyTypeId
  {
    var pieces := Split(TypeIdSegment(text), {'#'});
    StudyTypeId(Strip(pieces[0], PythonSpace), Strip(Last(pieces), PythonSpace))
  }

  /** Neither field keeps a `#`, a duration mark or surrounding whitespace. */
  lemma CleanedFieldsAreBare(text: string)
    ensures var r := CleanStudyTypeId(text);
      && (forall c :: c in r.studyType ==> c != '#' && c !in DurationMarks)
      && (forall c :: c in r.studyId ==> c != '#' && c !in DurationMarks)
      && (r.studyType != [] ==> r.studyType[0] !in PythonSpace && Last(r.studyType) !in PythonSpace)
      && (r.studyId != [] ==> r.studyId[0] !in PythonSpace && Last(r.studyId) !in PythonSpace)
  {
    var segment := TypeIdSegment(text);
    var pieces := Split(segment, {'#'});
    SplitPieces(text, DurationMarks);
    assert segment in Split(text, DurationMarks);
    SplitPieces(segment, {'#'});
    assert pieces[0] in pieces && Last(pieces) in pieces;
    StrippedPieceIsBare(pieces[0]);
    StrippedPieceIsBare(Last(pieces));
  }

  /** A piece free of `#` and of duration marks stays free of them once stripped, and loses
      its surrounding whitespace. */
  lemma StrippedPieceIsBare(piece: string)
    requires forall c :: c in piece ==> c != '#' && c !in DurationMarks
    ensures var r := Strip(piece, PythonSpace);
      && (forall c :: c in r ==> c != '#' && c !in DurationMarks)
      && (r != [] ==> r[0] !in PythonSpace && Last(r) !in PythonSpace)
  {
    StripKeepsCharacters(piece, PythonSpace);
    StripLeftShape(piece, PythonSpace);
    StripRightShape(StripLeft(piece, PythonSpace), PythonSpace);
  }

  lemma StripKeepsCharacters(s: string, chars: set<char>)
    ensures forall c :: c in Strip(s, chars) ==> c in s
  {
    var l := StripLeft(s, chars);
    StripLeftShape(s, chars);
    StripRightShape(l, chars);
    assert forall c :: c in l ==> c in s;
    assert forall c :: c in StripRight(l, chars) ==> c in l;
  }

  /** Characters a study type or id is made of: no duration mark, no `#`, no whitespace. */
  predicate Bare(s: string)
  {
    forall k :: 0 <= k < |s| ==> s[k] !in DurationMarks && s[k] != '#' && s[k] !in PythonSpace
  }

  predicate Blank(s: string)
  {
    forall k :: 0 <= k < |s| ==> s[k] in PythonSpace && s[k] !in DurationMarks
  }

  /** A cell rendered as `<duration>m<blank><type>#<id><blank>` cleans to `(type, id)`, whatever
      the duration text before the last minute mark. */
  lemma CleanRenderedCell(duration: string, lead: string, studyType: string, studyId: string, trail: string)
    requires Bare(studyType) && Bare(studyId) && studyType != [] && studyId != []
    requires Blank(lead) && Blank(trail)
    ensures CleanStudyTypeId(duration + "m" + lead + studyType + "#" + studyId + trail)
         == StudyTypeId(studyType, studyId)
  {
    var left := lead + studyType;
    var right := studyId + trail;
    var segment := left + ['#'] + right;
    assert duration + "m" + lead + studyType + "#" + studyId + trail == duration + ['m'] + segment;
    assert '#' !in PythonSpace;
    SegmentAfterMark(duration, lead, studyType, studyId, trail);
    PiecesAtHash(left, right);
    assert lead + studyType == lead + studyType + [];
    StripPadded(lead, studyType, [], PythonSpace);
    assert studyId + trail == [] + studyId + trail;
    StripPadded([], studyId, trail, PythonSpace);
  }

  /** The segment after the last duration mark is everything after the mark before it. */
  lemma SegmentAfterMark(duration: string, lead: string, studyType: string, studyId: string, trail: string)
    requires Bare(studyType) && Bare(studyId) && Blank(lead) && Blank(trail)
    ensures TypeIdSegment(duration + ['m'] + (lead + studyType + ['#'] + (studyId + trail)))
         == lead + studyType + ['#'] + (studyId + trail)
  {
    var left := lead + studyType;
    var right := studyId + trail;
    var segment := left + ['#'] + right;
    SplitAtSeparator(duration, 'm', segment, DurationMarks);
    forall k | 0 <= k < |segment| ensures segment[k] !in DurationMarks {
      if k < |lead| { assert segment[k] == lead[k]; }
      else if k < |left| { assert segment[k] == studyType[k - |lead|]; }
      else if k > |left| {
        assert segment[k] == right[k - |left| - 1];
        if k - |left| - 1 >= |studyId| { assert right[k - |left| - 1] == trail[k - |left| - 1 - |studyId|]; }
      }
    }
    SplitWithoutSeparators(segment, DurationMarks);
  }

  /** A text with one `#` splits into the parts on each side of it. */
  lemma PiecesAtHash(left: string, right: string)
    requires forall k :: 0 <= k < |left| ==> left[k] != '#'
    requires forall k :: 0 <= k < |right| ==> right[k] != '#'
    ensures Split(left + ['#'] + right, {'#'}) == [left, right]
  {
    SplitAtSeparator(left, '#', right, {'#'});
    SplitWithoutSeparators(left, {'#'});
    SplitWithoutSeparators(right, {'#'});
  }

  /** The cell in the source's own comment. */
  lemma CleanStudyTypeIdExample()
    ensures CleanStudyTypeId("24 h 30 m ATR#1226458 ") == StudyTypeId("ATR", "1226458")
  {
    ExampleFields();
    CleanRenderedCell("24 h 30 ", " ", "ATR", "1226458", " ");
    assert "24 h 30 " + "m" + " " + "ATR" + "#" + "1226458" + " " == "24 h 30 m ATR#1226458 ";
  }

  lemma ExampleFields()
    ensures Bare("ATR") && Bare("1226458") && Blank(" ")
  {
    UpperOrDigitsAreBare("ATR");
    UpperOrDigitsAreBare("1226458");
  }

  /** Capital letters and digits are none of the characters a cleaned field loses. */
  lemma UpperOrDigitsAreBare(s: string)
    requires forall k :: 0 <= k < |s| ==> IsUpper(s[k]) || IsDigit(s[k])
    ensures Bare(s)
  {
    forall k | 0 <= k < |s| ensures s[k] !in PythonSpace {
      assert IsUpper(s[k]) || IsDigit(s[k]);
    }
  }

  /** What `retrieve_study_type_id` returns (`None` where it raises). */
  function RetrievedTypesIds(validDate: string -> bool, navigate: string -> Option<ListingPage>,
                             baseUrl: string, startDate: string, endDate: string): Option<seq<StudyTypeId>>
  {
    if !validDate(startDate) || !validDate(endDate) then None
    else match navigate(ListingLink(baseUrl, startDate, endDate))
      case None => None
      case Some(page) =>
        var pairs := Map(CleanStudyTypeId, page.cellTexts);
        if ParseStudyCount(page.countText) == Some(|pairs|) then Some(pairs) else None
  }

  /** A listing yields pairs exactly when both dates pass the date check, the page at the
      listing link loads and its counter reads as the number of cells; the pairs are then one
      per cell, in page order, and a malformed date fails whatever the browser would show. */
  lemma RetrievedTypesIdsMeaning(validDate: string -> bool, navigate: string -> Option<ListingPage>,
                                 baseUrl: string, startDate: string, endDate: string)
    ensures var r := RetrievedTypesIds(validDate, navigate, baseUrl, startDate, endDate);
      var page := navigate(baseUrl + "studies/?end_date=" + endDate + "&start_date=" + startDate + "&state=Published");
      && (!validDate(startDate) || !validDate(endDate) ==> r == None)
      && (r.Some? <==> validDate(startDate) && validDate(endDate) && page.Some?
                       && ParseStudyCount(page.value.countText) == Some(|page.value.cellTexts|))
      && (r.Some? ==> |r.value| == |page.value.cellTexts|
                      && forall k :: 0 <= k < |r.value| ==> r.value[k] == CleanStudyTypeId(page.value.cellTexts[k]))
  {
    var page := navigate(ListingLink(baseUrl, startDate, endDate));
    if page.Some? {
      MapAt(CleanStudyTypeId, page.value.cellTexts);
    }
  }

  /** The provider: the listing base link and the year range it enumerates. */
  class MiovisionInfoProvider {
    const authContextFileName: string
    const baseLink: string
    const startYear: int
    const endYear: int

    constructor(authContextFileName: string, startYear: int, endYear: int)
      ensures this.authContextFileName == authContextFileName && baseLink == BaseLink
      ensures this.startYear == startYear && this.endYear == endYear
    {
      this.authContextFileName := authContextFileName;
      this.baseLink := BaseLink;
      this.startYear := startYear;
      this.endYear := endYear;
    }

    /** One listing page: fails (before navigating) on a malformed date, fails when the
        page cannot be loaded, and fails unless the page-reported count equals the number of
        pairs; otherwise one pair per cell text, in page order, duplicates kept. */
    method RetrieveStudyTypeId(validDate: string -> bool, navigate: string -> Option<ListingPage>,
                               startDate: string, endDate: string, baseUrl: string)
      returns (r: Option<seq<StudyTypeId>>)
      ensures r == RetrievedTypesIds(validDate, navigate, baseUrl, startDate, endDate)
    {
      if !validDate(startDate) || !validDate(endDate) {
        return None;
      }
      var link := ListingLink(baseUrl, startDate, endDate);
      var page := navigate(link);
      if page.None? {
        return None;
      }
      var total := ParseStudyCount(page.value.countText);
      var uncleaned := page.value.cellTexts;
      var cleaned := CleanCells(uncleaned);
      if total != Some(|cleaned|) {
        return None;
      }
      r := Some(cleaned);
    }

    /** The `for id_text in uncleaned_ids` loop: one cleaned pair per cell text, appended in order. */
    method CleanCells(uncleaned: seq<string>) returns (cleaned: seq<StudyTypeId>)
      ensures cleaned == Map(CleanStudyTypeId, uncleaned)
    {
      cleaned := [];
      for i := 0 to |uncleaned|
        invariant cleaned == Map(CleanStudyTypeId, uncleaned[..i])
      {
        MapSnoc(CleanStudyTypeId, uncleaned, i);
        cleaned := cleaned + [CleanStudyTypeId(uncleaned[i])];
      }
      assert uncleaned[..|uncleaned|] == uncleaned;
    }

    /** Every month window of the configured years, in order; a window whose retrieval raised
        contributes nothing and the others are still collected. */
    method GetMiovisionStudyTypesIds(validDate: string -> bool, navigate: string -> Option<ListingPage>)
      returns (pairs: seq<StudyTypeId>)
      ensures pairs == Gathered(Windows(startYear, endYear),
                                w => RetrievedTypesIds(validDate, navigate, baseLink, StartDate(w), EndDate(w)))
    {
      pairs := CollectOverWindows(startYear, endYear,
                                  w => RetrievedTypesIds(validDate, navigate, baseLink, StartDate(w), EndDate(w)));
    }
  }
}
