/**
 * What the three portal scrapers share: the month windows they walk through, the listing
 * link for one window, the "<n> Studies" counter on a listing page, and the loop that
 * collects one window after another, skipping any window whose retrieval raised.
 *
 * The browser is not modelled: a listing page is the text of its counter element and the
 * inner texts of its study cells, and navigating to a link yields such a page or fails.
 */
module StudyListing {
  import opened Wrappers
  import opened Text

  /** The rendered texts of a listing page. */
  datatype ListingPage = ListingPage(countText: string, cellTexts: seq<string>)

  /** One month window of the scrape: month `month` (1 to 12) of `year`. */
  datatype Window = Window(year: int, month: nat)

  /** `f'{start_year}-{i}-01'`: months are not zero-padded. */
  function StartDate(w: Window): string
  {
    IntToString(w.year) + "-" + NatToString(w.month) + "-01"
  }

  /** The first of the next month; December ends on `{y+1}-01-01`. */
  function EndDate(w: Window): string
  {
    if w.month == 12 then IntToString(w.year + 1) + "-01-01"
    else IntToString(w.year) + "-" + NatToString(w.month + 1) + "-01"
  }

  function YearWindows(year: int): seq<Window>
  {
    seq(12, k requires 0 <= k < 12 => Window(year, k + 1))
  }

  /** All windows for the years `startYear` to `endYear` inclusive, in visiting order. */
  function Windows(startYear: int, endYear: int): seq<Window>
    decreases endYear - startYear
  {
    if startYear > endYear then []
    else YearWindows(startYear) + Windows(startYear + 1, endYear)
  }

  /** Twelve windows per year, none for an empty range, and window `k` is month `k % 12 + 1`
      of year `startYear + k / 12`. */
  lemma {:induction false} WindowsAt(startYear: int, endYear: int)
    ensures |Windows(startYear, endYear)| == if startYear <= endYear then 12 * (endYear - startYear + 1) else 0
    ensures forall k :: 0 <= k < |Windows(startYear, endYear)| ==>
      Windows(startYear, endYear)[k] == Window(startYear + k / 12, k % 12 + 1)
    decreases endYear - startYear
  {
    if startYear <= endYear {
      WindowsAt(startYear + 1, endYear);
      var ws := Windows(startYear, endYear);
      var rest := Windows(startYear + 1, endYear);
      assert |YearWindows(startYear)| == 12;
      forall k | 0 <= k < |ws| ensures ws[k] == Window(startYear + k / 12, k % 12 + 1) {
        if k < 12 {
          assert ws[k] == YearWindows(startYear)[k];
        } else {
          assert ws[k] == rest[k - 12];
          DivModShift(k);
        }
      }
    }
  }

  lemma DivModShift(k: int)
    requires k >= 12
    ensures (k - 12) / 12 == k / 12 - 1 && (k - 12) % 12 == k % 12
  {
  }

  /** The listing link for one window. */
  function ListingLink(baseUrl: string, startDate: string, endDate: string): string
  {
    baseUrl + "studies/?end_date=" + endDate + "&start_date=" + startDate + "&state=Published"
  }

  /** `int(text.split("Studies")[0])`: the page-reported study count, if the text parses. */
  function ParseStudyCount(countText: string): Option<int>
  {
    ParseInt(BeforeWord(countText, "Studies"))
  }

  /** A counter rendered as `"<n> Studies"` reads back as `n`. */
  lemma StudyCountOfRenderedText(n: nat)
    ensures ParseStudyCount(NatToString(n) + " Studies") == Some(n)
  {
    var digits := NatToString(n);
    assert " Studies" == [' '] + "Studies";
    assert digits + " Studies" == digits + [' '] + "Studies";
    BeforeWordAfterDigits(digits, "Studies");
    ParseIntOfIntToString(n, " ");
  }

  /** Digits, a space and a word starting with neither: the text before the word is the
      digits and the space. */
  lemma BeforeWordAfterDigits(digits: string, word: string)
    requires |word| > 0 && word[0] != ' ' && !IsDigit(word[0])
    requires forall k :: 0 <= k < |digits| ==> IsDigit(digits[k])
    ensures BeforeWord(digits + [' '] + word, word) == digits + [' ']
  {
    var s := digits + [' '] + word;
    var n := |digits| + 1;
    var r := BeforeWord(s, word);
    assert s[n..] == word;
    forall i | 0 <= i < n ensures !(word <= s[i..]) {
      assert s[i..][0] == s[i];
      if i < |digits| {
        assert s[i] == digits[i];
      } else {
        assert s[i] == ' ';
      }
    }
    assert s[..n] == digits + [' '];
  }

  /** `text.strip(' ').split("#")[-1]`: a study id from its cell text. Only spaces are
      stripped, and only before splitting. */
  function CleanId(text: string): string
  {
    Last(Split(Strip(text, {' '}), {'#'}))
  }

  /** The id has no `#`, and it is a suffix of the space-stripped cell text. */
  lemma CleanIdShape(text: string)
    ensures var t := Strip(text, {' '});
      && '#' !in CleanId(text)
      && |CleanId(text)| <= |t| && CleanId(text) == t[|t| - |CleanId(text)|..]
  {
    var t := Strip(text, {' '});
    LastPieceIsSuffix(t, {'#'});
    SplitPieces(t, {'#'});
    assert Last(Split(t, {'#'})) in Split(t, {'#'});
  }

  /** A cell `<prefix>#<id>` with an id free of `#` and of surrounding spaces yields that id. */
  lemma CleanIdOfRenderedCell(prefix: string, id: string)
    requires forall k :: 0 <= k < |id| ==> id[k] != '#'
    requires id != [] && id[|id| - 1] != ' '
    ensures CleanId(prefix + "#" + id) == id
  {
    var text := prefix + "#" + id;
    StripRightShape(text, {' '});
    assert StripRight(text, {' '}) == text;
    StripLeftShape(text, {' '});
    var t := Strip(text, {' '});
    var l := StripLeft(text, {' '});
    assert t == l;
    assert text[|prefix|] == '#';
    assert |text| - |l| <= |prefix|;
    var before := l[..|l| - |id| - 1];
    assert l == before + ['#'] + id;
    SplitAtSeparator(before, '#', id, {'#'});
    SplitWithoutSeparators(id, {'#'});
  }

  /** The items one window yields: none if its retrieval raised. */
  function Items<T>(outcome: Option<seq<T>>): seq<T>
  {
    match outcome
    case Some(items) => items
    case None => []
  }

  /** What the per-window loop accumulates: each window's items, in window order, and nothing
      for a window whose retrieval raised (`None`). */
  function Gathered<T>(ws: seq<Window>, retrieve: Window -> Option<seq<T>>): seq<T>
  {
    if ws == [] then [] else Items(retrieve(ws[0])) + Gathered(ws[1..], retrieve)
  }

  lemma GatheredCons<T>(w: Window, ws: seq<Window>, retrieve: Window -> Option<seq<T>>)
    ensures Gathered([w] + ws, retrieve) == Items(retrieve(w)) + Gathered(ws, retrieve)
  {
    assert ([w] + ws)[1..] == ws;
  }

  /** Collecting two runs of windows is collecting each and concatenating. */
  lemma {:induction false} GatheredAppend<T>(ws1: seq<Window>, ws2: seq<Window>, retrieve: Window -> Option<seq<T>>)
    ensures Gathered(ws1 + ws2, retrieve) == Gathered(ws1, retrieve) + Gathered(ws2, retrieve)
  {
    if ws1 != [] {
      assert (ws1 + ws2)[1..] == ws1[1..] + ws2;
      GatheredAppend(ws1[1..], ws2, retrieve);
    } else {
      assert ws1 + ws2 == ws2;
    }
  }

  /** A window whose retrieval raised drops out; its neighbours' items are still collected. */
  lemma {:induction false} FailedWindowContributesNothing<T>(before: seq<Window>, w: Window, after: seq<Window>,
                                                            retrieve: Window -> Option<seq<T>>)
    requires retrieve(w) == None
    ensures Gathered(before + [w] + after, retrieve) == Gathered(before, retrieve) + Gathered(after, retrieve)
  {
    GatheredAppend(before, [w] + after, retrieve);
    GatheredCons(w, after, retrieve);
    assert before + [w] + after == before + ([w] + after);
  }

  /** The `while start_year <= end_year: ... start_year += 1` loop over the years. */
  method CollectOverWindows<T>(startYear: int, endYear: int, retrieve: Window -> Option<seq<T>>)
    returns (collected: seq<T>)
    ensures collected == Gathered(Windows(startYear, endYear), retrieve)
  {
    ghost var total := Gathered(Windows(startYear, endYear), retrieve);
    ghost var remaining := total;
    collected := [];
    var year := startYear;
    while year <= endYear
      invariant remaining == Gathered(Windows(year, endYear), retrieve)
      invariant collected + remaining == total
      decreases endYear - year
    {
      ghost var rest := Gathered(Windows(year + 1, endYear), retrieve);
      GatheredYears(year, endYear, retrieve);
      var monthly := CollectYear(year, retrieve);
      assert remaining == monthly + rest;
      assert collected + (monthly + rest) == (collected + monthly) + rest;
      collected := collected + monthly;
      remaining := rest;
      year := year + 1;
    }
    assert Windows(year, endYear) == [];
    assert remaining == [];
    assert collected + [] == collected;
  }

  /** The items of a range of years: those of its first year, then those of the others. */
  lemma GatheredYears<T>(year: int, endYear: int, retrieve: Window -> Option<seq<T>>)
    requires year <= endYear
    ensures Gathered(Windows(year, endYear), retrieve)
      == Gathered(YearWindows(year), retrieve) + Gathered(Windows(year + 1, endYear), retrieve)
  {
    assert Windows(year, endYear) == YearWindows(year) + Windows(year + 1, endYear);
    GatheredAppend(YearWindows(year), Windows(year + 1, endYear), retrieve);
  }

  /** The inner `for i in range(1, 13): try ... except ...` loop over the months of one year. */
  method CollectYear<T>(year: int, retrieve: Window -> Option<seq<T>>) returns (collected: seq<T>)
    ensures collected == Gathered(YearWindows(year), retrieve)
  {
    ghost var ws := YearWindows(year);
    collected := [];
    for i := 1 to 13
      invariant collected + Gathered(ws[i - 1..], retrieve) == Gathered(ws, retrieve)
    {
      var w := Window(year, i);
      YearWindowsFrom(year, i);
      GatheredCons(w, ws[i..], retrieve);
      ghost var rest := Gathered(ws[i..], retrieve);
      var monthly := retrieve(w);
      if monthly.Some? {
        assert collected + (monthly.value + rest) == (collected + monthly.value) + rest;
        collected := collected + monthly.value;
      } else {
        assert Items(monthly) + rest == rest;
      }
    }
    assert ws[12..] == [];
  }

  /** The windows of a year from month `i` on: month `i`, then the later ones. */
  lemma YearWindowsFrom(year: int, i: nat)
    requires 1 <= i <= 12
    ensures YearWindows(year)[i - 1..] == [Window(year, i)] + YearWindows(year)[i..]
  {
    var ws := YearWindows(year);
    assert ws[i - 1] == Window(year, i);
  }
}
