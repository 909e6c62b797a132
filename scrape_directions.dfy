/**
 * The study-id scraper and the screenshot pass that follows it: every month window's
 * listing gives the study ids on that page, and each study's page is then captured as
 * `./<folder>/<id>.png` unless the portal landed on a "404" page.
 */
module ScrapeDirections {
  import opened Wrappers
  import opened Text
  import opened Sequences
  import opened StudyListing
  import opened LocalDisk

  /** What `retrieve_ids` returns (`None` where it raises): one id per cell, in page order,
      duplicates kept, and no check against the page counter. */
  function RetrievedIds(validDate: string -> bool, navigate: string -> Option<ListingPage>,
                        baseUrl: string, startDate: string, endDate: string): Option<seq<string>>
  {
    if !validDate(startDate) || !validDate(endDate) then None
    else match navigate(ListingLink(baseUrl, startDate, endDate))
      case None => None
      case Some(page) => Some(Map(CleanId, page.cellTexts))
  }

  /** A listing yields ids exactly when both dates pass the check and the page loads; the
      `k`-th id is cleaned from the `k`-th cell. */
  lemma RetrievedIdsMeaning(validDate: string -> bool, navigate: string -> Option<ListingPage>,
                            baseUrl: string, startDate: string, endDate: string)
    ensures var r := RetrievedIds(validDate, navigate, baseUrl, startDate, endDate);
      var page := navigate(baseUrl + "studies/?end_date=" + endDate + "&start_date=" + startDate + "&state=Published");
      && (!validDate(startDate) || !validDate(endDate) ==> r == None)
      && (r.Some? <==> validDate(startDate) && validDate(endDate) && page.Some?)
      && (r.Some? ==> |r.value| == |page.value.cellTexts|
                      && forall k :: 0 <= k < |r.value| ==> r.value[k] == CleanId(page.value.cellTexts[k]))
  {
    var page := navigate(ListingLink(baseUrl, startDate, endDate));
    if page.Some? {
      MapAt(CleanId, page.value.cellTexts);
    }
  }

  /** `retrieve_ids`. */
  method RetrieveIds(validDate: string -> bool, navigate: string -> Option<ListingPage>,
                     startDate: string, endDate: string, baseUrl: string)
    returns (r: Option<seq<string>>)
    ensures r == RetrievedIds(validDate, navigate, baseUrl, startDate, endDate)
  {
    if !validDate(startDate) || !validDate(endDate) {
      return None;
    }
    var link := ListingLink(baseUrl, startDate, endDate);
    var page := navigate(link);
    if page.None? {
      return None;
    }
    var cleanedIds := CollectIds(page.value.cellTexts);
    r := Some(cleanedIds);
  }

  /** The `for id_text in uncleaned_ids` loop appending one id per cell. */
  method CollectIds(uncleanedIds: seq<string>) returns (cleanedIds: seq<string>)
    ensures cleanedIds == Map(CleanId, uncleanedIds)
  {
    cleanedIds := [];
    for i := 0 to |uncleanedIds|
      invariant cleanedIds == Map(CleanId, uncleanedIds[..i])
    {
      MapSnoc(CleanId, uncleanedIds, i);
      var cleanId := CleanId(uncleanedIds[i]);
      cleanedIds := cleanedIds + [cleanId];
    }
    assert uncleanedIds[..|uncleanedIds|] == uncleanedIds;
  }

  /** `scrape_miovision_ids`: every month window of the year range against the portal link,
      a failing window skipped. */
  method ScrapeMiovisionIds(validDate: string -> bool, navigate: string -> Option<ListingPage>,
                            authLink: string, startYear: int, endYear: int)
    returns (miovisionIds: seq<string>)
    ensures miovisionIds == Gathered(Windows(startYear, endYear),
                                     w => RetrievedIds(validDate, navigate, authLink, StartDate(w), EndDate(w)))
  {
    miovisionIds := CollectOverWindows(startYear, endYear,
                                       w => RetrievedIds(validDate, navigate, authLink, StartDate(w), EndDate(w)));
  }

  // ---------------------------------------------------------------- screenshots

  function FolderPath(folderName: string): string
  {
    "./" + folderName
  }

  /** `f'{relative_folder_path}/{miovision_id}.png'`. */
  function ImagePath(folderName: string, id: string): string
  {
    FolderPath(folderName) + "/" + id + ".png"
  }

  /** Different ids never share an image file. */
  lemma ImagePathInjective(folderName: string, id1: string, id2: string)
    requires ImagePath(folderName, id1) == ImagePath(folderName, id2)
    ensures id1 == id2
  {
    var p := ImagePath(folderName, id1);
    var n := |FolderPath(folderName)| + 1;
    assert |id1| == |id2|;
    assert id1 == p[n..n + |id1|];
    assert id2 == ImagePath(folderName, id2)[n..n + |id2|];
  }

  /** `f'{config.AUTH_LINK}studies/{miovision_id}'`. */
  function StudyPage(authLink: string, id: string): string
  {
    authLink + "studies/" + id
  }

  /** The page is worth a screenshot unless the address it landed on mentions "404". */
  predicate Captured(authLink: string, landing: string -> string, id: string)
  {
    !Contains(landing(StudyPage(authLink, id)), "404")
  }

  /** The disk after the screenshot loop has visited `ids`. */
  function Shots(entries: map<string, Entry>, folderName: string, authLink: string, ids: seq<string>,
                 landing: string -> string, capture: string -> seq<byte>): map<string, Entry>
  {
    if ids == [] then entries
    else
      var before := Shots(entries, folderName, authLink, ids[..|ids| - 1], landing, capture);
      var id := ids[|ids| - 1];
      if Captured(authLink, landing, id) then before[ImagePath(folderName, id) := File(capture(id))] else before
  }

  /** The loop touches nothing but image paths: any other path keeps its presence and its
      contents. */
  lemma {:induction false} ShotsLeaveOtherPaths(entries: map<string, Entry>, folderName: string, authLink: string,
                                                ids: seq<string>, landing: string -> string,
                                                capture: string -> seq<byte>, p: string)
    requires forall id :: id in ids ==> ImagePath(folderName, id) != p
    ensures var after := Shots(entries, folderName, authLink, ids, landing, capture);
      && (p in after <==> p in entries) && (p in entries ==> after[p] == entries[p])
  {
    if ids != [] {
      var init := ids[..|ids| - 1];
      assert forall id :: id in init ==> id in ids;
      assert ids[|ids| - 1] in ids;
      ShotsLeaveOtherPaths(entries, folderName, authLink, init, landing, capture, p);
    }
  }

  /** Every captured id's image holds that id's screenshot; an id whose page landed on "404"
      leaves its image path as it was. */
  lemma {:induction false} ShotsOfId(entries: map<string, Entry>, folderName: string, authLink: string,
                                     ids: seq<string>, landing: string -> string, capture: string -> seq<byte>,
                                     id: string)
    requires id in ids
    ensures var after := Shots(entries, folderName, authLink, ids, landing, capture);
      var p := ImagePath(folderName, id);
      && (Captured(authLink, landing, id) ==> p in after && after[p] == File(capture(id)))
      && (!Captured(authLink, landing, id) ==> (p in after <==> p in entries)
                                               && (p in entries ==> after[p] == entries[p]))
  {
    var init := ids[..|ids| - 1];
    var last := ids[|ids| - 1];
    var p := ImagePath(folderName, id);
    if id == last {
      if !Captured(authLink, landing, id) {
        ShotsOfAbsent(entries, folderName, authLink, init, landing, capture, id);
      }
    } else {
      assert id in init by {
        var k :| 0 <= k < |ids| && ids[k] == id;
        assert k < |ids| - 1 && init[k] == id;
      }
      ShotsOfId(entries, folderName, authLink, init, landing, capture, id);
      if p == ImagePath(folderName, last) {
        ImagePathInjective(folderName, id, last);
      }
    }
  }

  /** Ids that are all "404" or other ids leave the image path of `id` alone: helper for the
      case where the last visit of `id` was not captured. */
  lemma {:induction false} ShotsOfAbsent(entries: map<string, Entry>, folderName: string, authLink: string,
                                         ids: seq<string>, landing: string -> string, capture: string -> seq<byte>,
                                         id: string)
    requires !Captured(authLink, landing, id)
    ensures var after := Shots(entries, folderName, authLink, ids, landing, capture);
      var p := ImagePath(folderName, id);
      && (p in after <==> p in entries) && (p in entries ==> after[p] == entries[p])
  {
    if ids != [] {
      var last := ids[|ids| - 1];
      ShotsOfAbsent(entries, folderName, authLink, ids[..|ids| - 1], landing, capture, id);
      if ImagePath(folderName, id) == ImagePath(folderName, last) {
        ImagePathInjective(folderName, id, last);
      }
    }
  }

  /** `scrape_miovision_screenshots`: creates the folder when absent, then for each id in
      order visits the study page and writes its screenshot unless the page landed on "404".
      `landing` is the address the browser ends on and `capture` the image taken. */
  method ScrapeMiovisionScreenshots(disk: Disk, folderName: string, authLink: string, miovisionIds: seq<string>,
                                    landing: string -> string, capture: string -> seq<byte>)
    modifies disk
    ensures disk.entries == Shots(WithFolder(old(disk.entries), FolderPath(folderName)),
                                  folderName, authLink, miovisionIds, landing, capture)
  {
    var relativeFolderPath := "./" + folderName;
    if !disk.Exists(relativeFolderPath) {
      disk.MakeDirectory(relativeFolderPath);
    }
    ghost var start := disk.entries;
    for i := 0 to |miovisionIds|
      invariant disk.entries == Shots(start, folderName, authLink, miovisionIds[..i], landing, capture)
    {
      var miovisionId := miovisionIds[i];
      var imagePath := relativeFolderPath + "/" + miovisionId + ".png";
      assert imagePath == ImagePath(folderName, miovisionId);
      var url := landing(authLink + "studies/" + miovisionId);
      assert miovisionIds[..i + 1][..i] == miovisionIds[..i];
      if !Contains(url, "404") {
        disk.WriteFile(imagePath, capture(miovisionId));
      }
    }
    assert miovisionIds[..|miovisionIds|] == miovisionIds;
  }
}
