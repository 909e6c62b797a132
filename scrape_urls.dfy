/**
 * The study-URL scraper: for every month window it reads the listing page, turns each study
 * cell into the study URL `<base>studies/<id>`, keeps the distinct URLs, and checks their
 * number against the page counter. The collected URLs are uploaded as one text file with one
 * URL per line.
 */
module ScrapeUrls {
  import opened Wrappers
  import opened Text
  import opened Sequences
  import opened StudyListing

  /** `f'{base_url}studies/{clean_id}'` for one cell text. */
  function StudyUrl(baseUrl: string, text: string): string
  {
    baseUrl + "studies/" + CleanId(text)
  }

  function UrlOf(baseUrl: string): string -> string
  {
    text => StudyUrl(baseUrl, text)
  }

  /** The set of URLs of the cells of a page. */
  ghost function UrlSet(baseUrl: string, cells: seq<string>): set<string>
  {
    set t | t in cells :: StudyUrl(baseUrl, t)
  }

  /** What `retrieve_urls` returns (`None` where it raises). The Python set is kept here as
      its distinct members in the order first added. */
  function RetrievedUrls(validDate: string -> bool, navigate: string -> Option<ListingPage>,
                         baseUrl: string, startDate: string, endDate: string): Option<seq<string>>
  {
    if !validDate(startDate) || !validDate(endDate) then None
    else match navigate(ListingLink(baseUrl, startDate, endDate))
      case None => None
      case Some(page) =>
        var urls := Dedup(Map(UrlOf(baseUrl), page.cellTexts));
        if ParseStudyCount(page.countText) == Some(|urls|) then Some(urls) else None
  }

  lemma UrlsOfCells(baseUrl: string, cells: seq<string>)
    ensures Elements(Map(UrlOf(baseUrl), cells)) == UrlSet(baseUrl, cells)
    ensures |Dedup(Map(UrlOf(baseUrl), cells))| == |UrlSet(baseUrl, cells)|
  {
    var urls := Map(UrlOf(baseUrl), cells);
    MapAt(UrlOf(baseUrl), cells);
    forall u | u in Elements(urls) ensures u in UrlSet(baseUrl, cells) {
      var k :| 0 <= k < |urls| && urls[k] == u;
      assert cells[k] in cells;
    }
    forall u | u in UrlSet(baseUrl, cells) ensures u in Elements(urls) {
      var t :| t in cells && u == StudyUrl(baseUrl, t);
      var k :| 0 <= k < |cells| && cells[k] == t;
      assert urls[k] == u;
    }
    assert Elements(urls) == UrlSet(baseUrl, cells);
    ElementsCount(Dedup(urls));
  }

  /** A listing yields URLs exactly when both dates pass the check, the page loads and its
      counter equals the number of DISTINCT study URLs; the URLs are then free of repeats and
      are exactly the URLs of the page's cells. */
  lemma RetrievedUrlsMeaning(validDate: string -> bool, navigate: string -> Option<ListingPage>,
                             baseUrl: string, startDate: string, endDate: string)
    ensures var r := RetrievedUrls(validDate, navigate, baseUrl, startDate, endDate);
      var page := navigate(baseUrl + "studies/?end_date=" + endDate + "&start_date=" + startDate + "&state=Published");
      && (!validDate(startDate) || !validDate(endDate) ==> r == None)
      && (r.Some? <==> validDate(startDate) && validDate(endDate) && page.Some?
                       && ParseStudyCount(page.value.countText) == Some(|UrlSet(baseUrl, page.value.cellTexts)|))
      && (r.Some? ==> NoDuplicates(r.value) && Elements(r.value) == UrlSet(baseUrl, page.value.cellTexts))
  {
    var page := navigate(ListingLink(baseUrl, startDate, endDate));
    if page.Some? {
      UrlsOfCells(baseUrl, page.value.cellTexts);
    }
  }

  /** Two cells with the same id on a page whose counter counts cells make the call fail:
      the repeat collapses into one URL and the count no longer matches. */
  lemma RepeatedIdFails(validDate: string -> bool, navigate: string -> Option<ListingPage>,
                        baseUrl: string, startDate: string, endDate: string, i: nat, j: nat)
    requires var page := navigate(ListingLink(baseUrl, startDate, endDate));
      && page.Some? && i < j < |page.value.cellTexts|
      && CleanId(page.value.cellTexts[i]) == CleanId(page.value.cellTexts[j])
      && ParseStudyCount(page.value.countText) == Some(|page.value.cellTexts|)
    ensures RetrievedUrls(validDate, navigate, baseUrl, startDate, endDate) == None
  {
    var cells := navigate(ListingLink(baseUrl, startDate, endDate)).value.cellTexts;
    var urls := Map(UrlOf(baseUrl), cells);
    MapAt(UrlOf(baseUrl), cells);
    assert urls[i] == urls[j];
    DedupShortensRepeats(urls);
  }

  /** `retrieve_urls`: fails before navigating on a malformed date, fails when the page does
      not load, and fails when the distinct URLs do not match the page counter. */
  method RetrieveUrls(validDate: string -> bool, navigate: string -> Option<ListingPage>,
                      startDate: string, endDate: string, baseUrl: string)
    returns (r: Option<seq<string>>)
    ensures r == RetrievedUrls(validDate, navigate, baseUrl, startDate, endDate)
  {
    if !validDate(startDate) || !validDate(endDate) {
      return None;
    }
    var link := ListingLink(baseUrl, startDate, endDate);
    var page := navigate(link);
    if page.None? {
      return None;
    }
    var total := ParseStudyCount(page.value.countText);
    var cleanedUrls := CollectUrls(page.value.cellTexts, baseUrl);
    if total != Some(|cleanedUrls|) {
      return None;
    }
    r := Some(cleanedUrls);
  }

  /** The `for id_text in uncleaned_ids` loop: each cell's URL is added to the set unless it
      is there already. */
  method CollectUrls(uncleaned: seq<string>, baseUrl: string) returns (cleanedUrls: seq<string>)
    ensures cleanedUrls == Dedup(Map(UrlOf(baseUrl), uncleaned))
  {
    cleanedUrls := [];
    for i := 0 to |uncleaned|
      invariant cleanedUrls == Dedup(Map(UrlOf(baseUrl), uncleaned[..i]))
    {
      var url := baseUrl + "studies/" + CleanId(uncleaned[i]);
      assert url == UrlOf(baseUrl)(uncleaned[i]);
      MapSnoc(UrlOf(baseUrl), uncleaned, i);
      AddNewAppend([], Map(UrlOf(baseUrl), uncleaned[..i]), [url]);
      assert [url][1..] == [];
      if url !in cleanedUrls {
        cleanedUrls := cleanedUrls + [url];
      }
    }
    assert uncleaned[..|uncleaned|] == uncleaned;
  }

  /** `scrape_miovision_urls`: every month window of the year range against the portal link,
      a failing window skipped. */
  method ScrapeMiovisionUrls(validDate: string -> bool, navigate: string -> Option<ListingPage>,
                             authLink: string, startYear: int, endYear: int)
    returns (miovisionIds: seq<string>)
    ensures miovisionIds == Gathered(Windows(startYear, endYear),
                                     w => RetrievedUrls(validDate, navigate, authLink, StartDate(w), EndDate(w)))
  {
    miovisionIds := CollectOverWindows(startYear, endYear,
                                       w => RetrievedUrls(validDate, navigate, authLink, StartDate(w), EndDate(w)));
  }

  // ---------------------------------------------------------------- upload payload

  /** One line of the upload: the URL's bytes and a newline. */
  function EncodedLine(url: string): seq<byte>
  {
    Encode(url) + [10]
  }

  /** The bytes of `writelines([url.encode() + b'\n' for url in urls])`. */
  function Payload(urls: seq<string>): seq<byte>
  {
    Flatten(EncodedLine, urls)
  }

  lemma PayloadSnoc(urls: seq<string>, url: string)
    ensures Payload(urls + [url]) == Payload(urls) + Encode(url) + [10]
  {
    assert (urls + [url])[..|urls|] == urls;
  }

  /** The in-memory stream filled line by line. */
  method UrlsPayload(urls: seq<string>) returns (stream: seq<byte>)
    ensures stream == Payload(urls)
  {
    stream := [];
    for i := 0 to |urls|
      invariant stream == Payload(urls[..i])
    {
      assert urls[..i + 1] == urls[..i] + [urls[i]];
      PayloadSnoc(urls[..i], urls[i]);
      stream := stream + Encode(urls[i]) + [10];
    }
    assert urls[..|urls|] == urls;
  }

  /** Where the first line of `bs` ends: the first newline byte, or the end. */
  function LineEnd(bs: seq<byte>): (e: nat)
    ensures e <= |bs| && (e < |bs| ==> bs[e] == 10)
    ensures forall k :: 0 <= k < e ==> bs[k] != 10
  {
    if bs == [] || bs[0] == 10 then 0 else 1 + LineEnd(bs[1..])
  }

  /** The lines a reader of the uploaded file gets, newline terminators removed. */
  function Lines(bs: seq<byte>): seq<seq<byte>>
    decreases |bs|
  {
    if bs == [] then []
    else
      var e := LineEnd(bs);
      if e == |bs| then [bs] else [bs[..e]] + Lines(bs[e + 1..])
  }

  /** Reading the payload back line by line gives each URL's bytes, in list order, as long as
      no URL holds a newline. */
  lemma {:induction false} PayloadLines(urls: seq<string>)
    requires forall k :: 0 <= k < |urls| ==> '\n' !in urls[k]
    ensures |Lines(Payload(urls))| == |urls|
    ensures forall k :: 0 <= k < |urls| ==> Lines(Payload(urls))[k] == Encode(urls[k])
  {
    if urls != [] {
      var line := Encode(urls[0]);
      var tail := urls[1..];
      var rest := Payload(tail);
      FlattenCons(EncodedLine, urls);
      assert Payload(urls) == line + [10] + rest;
      assert 10 !in line;
      PayloadLines(tail);
      LinesAfterNewline(line, rest);
      forall k | 0 <= k < |urls| ensures Lines(Payload(urls))[k] == Encode(urls[k]) {
        if k > 0 {
          assert urls[k] == tail[k - 1];
        }
      }
    }
  }

  /** A first line free of newlines, a newline, then the rest: that line, then the rest's. */
  lemma LinesAfterNewline(line: seq<byte>, rest: seq<byte>)
    requires 10 !in line
    ensures Lines(line + [10] + rest) == [line] + Lines(rest)
  {
    var bs := line + [10] + rest;
    assert bs[|line|] == 10;
    assert forall k :: 0 <= k < |line| ==> bs[k] == line[k];
    assert LineEnd(bs) == |line|;
    assert bs[..|line|] == line && bs[|line| + 1..] == rest;
  }
}
