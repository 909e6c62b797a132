/**
 * The aggregator for a folder of count-study workbooks: every study file's street name is
 * matched against a table of named locations by Jaccard similarity of their word sets, and
 * one record of name, latitude and longitude is produced per study file. The table itself is
 * one of the files in the folder, found by name and left out of the studies.
 *
 * Workbooks are read through `book` (`None` where `read_excel` raises) and the location table
 * through `geocodes` (`None` where reading it or selecting its columns raises).
 */
module AggregateNc {
  import opened Wrappers
  import opened Text
  import opened Sequences
  import opened GatherNames

  /** One row of the location table: `LocationName`, `NC_Latitude`, `NC_Longitude`. */
  datatype LocationRow = LocationRow(locationName: string, latitude: real, longitude: real)

  /** One output record, with the keys Name, Latitude and Longitude. */
  datatype StudyRecord = StudyRecord(name: string, latitude: real, longitude: real)

  datatype AggregateError =
    | GeocodeFileNotFound
    | Unreadable(path: string)
    | StudyNameNotFound(path: string)
    | NoLocations(path: string)

  // ---------------------------------------------------------------- return_lat_long

  /** `{word for word in study_name.split(' ')}`. */
  function StudyTokens(studyName: string): set<string>
  {
    Elements(Split(studyName, {' '}))
  }

  /** `{word for word in location_name.lower().split(' ')}`. */
  function LocationTokens(locationName: string): set<string>
  {
    Elements(Split(Lower(locationName), {' '}))
  }

  /** `len(L & S) / len(L | S)`, or 0 for two empty sets (which word sets never are). */
  function Jaccard(l: set<string>, s: set<string>): real
  {
    if |l + s| == 0 then 0.0 else (|l * s| as real) / (|l + s| as real)
  }

  /** The score of one candidate row against the study name. */
  function ScoreOf(studyName: string): LocationRow -> real
  {
    (row: LocationRow) => Jaccard(LocationTokens(row.locationName), StudyTokens(studyName))
  }

  /** `max(scores)` of a non-empty list. */
  function Max(scores: seq<real>): (m: real)
    requires |scores| > 0
    ensures m in scores && forall k :: 0 <= k < |scores| ==> scores[k] <= m
  {
    if |scores| == 1 then scores[0]
    else
      var rest := Max(scores[1..]);
      assert forall k :: 1 <= k < |scores| ==> scores[k] == scores[1..][k - 1];
      if scores[0] >= rest then scores[0] else rest
  }

  /** What `return_lat_long` returns: the coordinates of the row with the highest score,
      the first such row on a tie; `max` of no scores raises. */
  function ReturnLatLong(studyName: string, locations: seq<LocationRow>): (r: Option<(real, real)>)
    ensures r.None? <==> locations == []
    ensures r.Some? ==> exists k :: 0 <= k < |locations| && r.value == (locations[k].latitude, locations[k].longitude)
  {
    if locations == [] then None
    else
      var i := ChosenIndex(studyName, locations);
      Some((locations[i].latitude, locations[i].longitude))
  }

  /** `jaccard_scores.index(max(jaccard_scores))`: the first position of the highest score. */
  function ChosenIndex(studyName: string, locations: seq<LocationRow>): (i: nat)
    requires locations != []
    ensures i < |locations|
  {
    MapAt(ScoreOf(studyName), locations);
    var scores := Map(ScoreOf(studyName), locations);
    FirstIndex(scores, Max(scores)).value
  }

  /** The chosen row scores at least as high as every row and strictly higher than every row
      before it, and both coordinates come from it; only an empty table gives no answer. */
  lemma ChosenIsFirstMaximum(studyName: string, locations: seq<LocationRow>)
    ensures ReturnLatLong(studyName, locations).None? <==> locations == []
    ensures locations != [] ==>
      var i := ChosenIndex(studyName, locations);
      var score := ScoreOf(studyName);
      && (forall k :: 0 <= k < |locations| ==> score(locations[k]) <= score(locations[i]))
      && (forall k :: 0 <= k < i ==> score(locations[k]) < score(locations[i]))
      && ReturnLatLong(studyName, locations) == Some((locations[i].latitude, locations[i].longitude))
  {
    if locations != [] {
      var score := ScoreOf(studyName);
      var scores := Map(score, locations);
      MapAt(score, locations);
      var i := ChosenIndex(studyName, locations);
      var m := Max(scores);
      assert scores[i] == m;
      forall k | 0 <= k < |locations| ensures score(locations[k]) <= score(locations[i]) {
        assert scores[k] <= m;
      }
      forall k | 0 <= k < i ensures score(locations[k]) < score(locations[i]) {
        assert scores[k] != m;
      }
    }
  }

  /** `split(' ')` never yields an empty list, so neither word set is empty and the score is a
      true ratio. */
  lemma TokensNonEmpty(name: string)
    ensures |StudyTokens(name)| >= 1 && |LocationTokens(name)| >= 1
  {
    var parts := Split(name, {' '});
    assert parts[0] in StudyTokens(name);
    var lowered := Split(Lower(name), {' '});
    assert lowered[0] in LocationTokens(name);
  }

  /** A score lies between 0 and 1 and is 1 exactly when the two word sets are equal. */
  lemma ScoreBounds(l: set<string>, s: set<string>)
    requires |s| >= 1
    ensures 0.0 <= Jaccard(l, s) <= 1.0
    ensures Jaccard(l, s) == 1.0 <==> l == s
  {
    var shared := l * s;
    var total := l + s;
    assert s <= total;
    SubsetCard(s, total);
    SubsetCard(shared, total);
    var x := |shared| as real;
    var y := |total| as real;
    assert y > 0.0;
    if l == s {
      assert shared == total;
    } else {
      var w :| w in total && w !in shared;
      StrictSubsetCard(shared, total, w);
      DivBelowOne(x, y);
    }
  }

  lemma DivBelowOne(x: real, y: real)
    requires 0.0 <= x < y
    ensures 0.0 <= x / y < 1.0
  {
    assert (x / y) * y == x;
  }

  lemma SubsetCard<T>(a: set<T>, b: set<T>)
    requires a <= b
    ensures |a| <= |b|
  {
    assert b == a + (b - a);
  }

  lemma StrictSubsetCard<T>(a: set<T>, b: set<T>, w: T)
    requires a <= b && w in b && w !in a
    ensures |a| < |b|
  {
    assert a + {w} <= b;
    SubsetCard(a + {w}, b);
  }

  /** Only the candidate names are lower-cased: a study word holding an upper-case letter
      matches no candidate word, so it only adds to the union. */
  lemma UpperCaseWordNeverMatches(studyName: string, locationName: string, word: string, k: nat)
    requires word in StudyTokens(studyName) && k < |word| && IsUpper(word[k])
    ensures word !in LocationTokens(locationName)
  {
    SplitPieces(Lower(locationName), {' '});
    assert word[k] in word;
  }

  predicate HasCapital(word: string)
  {
    exists k :: 0 <= k < |word| && IsUpper(word[k])
  }

  lemma NoSharedWord(studyName: string, locationName: string)
    requires forall w :: w in StudyTokens(studyName) ==> HasCapital(w)
    ensures LocationTokens(locationName) * StudyTokens(studyName) == {}
  {
    forall w | w in StudyTokens(studyName) ensures w !in LocationTokens(locationName) {
      var k :| 0 <= k < |w| && IsUpper(w[k]);
      UpperCaseWordNeverMatches(studyName, locationName, w, k);
    }
  }

  /** A candidate sharing no word with the study name scores 0. */
  lemma ZeroScore(studyName: string, row: LocationRow)
    requires forall w :: w in StudyTokens(studyName) ==> HasCapital(w)
    ensures ScoreOf(studyName)(row) == 0.0
  {
    var l := LocationTokens(row.locationName);
    var s := StudyTokens(studyName);
    NoSharedWord(studyName, row.locationName);
    JaccardOfDisjoint(l, s);
  }

  lemma JaccardOfDisjoint(l: set<string>, s: set<string>)
    requires l * s == {}
    ensures Jaccard(l, s) == 0.0
  {
  }

  /** A study name whose every word holds a capital shares no word with any candidate: every
      score is 0, and the tie rule then picks the first row. */
  lemma CapitalisedNameTiesAtZero(studyName: string, locations: seq<LocationRow>)
    requires forall w :: w in StudyTokens(studyName) ==> HasCapital(w)
    ensures forall k :: 0 <= k < |locations| ==> ScoreOf(studyName)(locations[k]) == 0.0
    ensures locations != [] ==> ChosenIndex(studyName, locations) == 0
  {
    forall k | 0 <= k < |locations| ensures ScoreOf(studyName)(locations[k]) == 0.0 {
      ZeroScore(studyName, locations[k]);
    }
    if locations != [] {
      var scores := Map(ScoreOf(studyName), locations);
      MapAt(ScoreOf(studyName), locations);
      AllZero(scores);
    }
  }

  lemma AllZero(scores: seq<real>)
    requires |scores| > 0 && forall k :: 0 <= k < |scores| ==> scores[k] == 0.0
    ensures FirstIndex(scores, Max(scores)) == Some(0)
  {
    assert Max(scores) == 0.0;
  }

  /** "Main Street North" against "main street north plaza" and "elm avenue": the study words
      keep their capitals, so neither candidate shares a word with it, and the first
      candidate wins only through the tie rule. */
  lemma MainStreetExample(lat1: real, long1: real, lat2: real, long2: real)
    ensures var rows := [LocationRow("main street north plaza", lat1, long1), LocationRow("elm avenue", lat2, long2)];
      && ScoreOf("Main Street North")(rows[0]) == 0.0 && ScoreOf("Main Street North")(rows[1]) == 0.0
      && ReturnLatLong("Main Street North", rows) == Some((lat1, long1))
  {
    MainStreetCapitals();
    var rows := [LocationRow("main street north plaza", lat1, long1), LocationRow("elm avenue", lat2, long2)];
    CapitalisedNameTiesAtZero("Main Street North", rows);
  }

  lemma MainStreetCapitals()
    ensures forall w :: w in StudyTokens("Main Street North") ==> HasCapital(w)
  {
    assert "Main Street North" == "Main" + [' '] + ("Street" + [' '] + "North");
    assert IsUpper("Main"[0]) && IsUpper("Street"[0]) && IsUpper("North"[0]);
    ThreeCapitalWords("Main", "Street", "North");
  }

  lemma ThreeCapitalWords(a: string, b: string, c: string)
    requires forall k :: 0 <= k < |a| ==> a[k] != ' '
    requires forall k :: 0 <= k < |b| ==> b[k] != ' '
    requires forall k :: 0 <= k < |c| ==> c[k] != ' '
    requires |a| > 0 && |b| > 0 && |c| > 0 && IsUpper(a[0]) && IsUpper(b[0]) && IsUpper(c[0])
    ensures forall w :: w in StudyTokens(a + [' '] + (b + [' '] + c)) ==> HasCapital(w)
  {
    ThreeWords(a, b, c);
    assert HasCapital(a) && HasCapital(b) && HasCapital(c);
  }

  /** Three space-free words joined by single spaces split back into those words. */
  lemma ThreeWords(a: string, b: string, c: string)
    requires forall k :: 0 <= k < |a| ==> a[k] != ' '
    requires forall k :: 0 <= k < |b| ==> b[k] != ' '
    requires forall k :: 0 <= k < |c| ==> c[k] != ' '
    ensures Split(a + [' '] + (b + [' '] + c), {' '}) == [a, b, c]
    ensures StudyTokens(a + [' '] + (b + [' '] + c)) == {a, b, c}
  {
    SplitAtSeparator(a, ' ', b + [' '] + c, {' '});
    SplitAtSeparator(b, ' ', c, {' '});
    SplitWithoutSeparators(a, {' '});
    SplitWithoutSeparators(b, {' '});
    SplitWithoutSeparators(c, {' '});
  }

  // ---------------------------------------------------------------- scrape_information_per_file

  /** The study name: column 4 of the first row whose column 1 reads "Street:". It fails when
      the sheet has fewer than five columns, no such row, or an empty name cell. */
  function StudyName(sheet: Sheet): (r: Option<string>)
    ensures r.Some? ==>
      && |sheet.header| >= 5
      && exists k :: 0 <= k < |sheet.rows| && CellAt(sheet.rows[k], 1) == Value("Street:")
                     && CellAt(sheet.rows[k], 4) == Value(r.value)
                     && forall j :: 0 <= j < k ==> CellAt(sheet.rows[j], 1) != Value("Street:")
    ensures (forall k :: 0 <= k < |sheet.rows| ==> CellAt(sheet.rows[k], 1) != Value("Street:")) ==> r.None?
  {
    if |sheet.header| < 5 then None
    else match FirstIndex(Column(sheet, 1), Value("Street:"))
      case None => None
      case Some(t) =>
        assert forall j :: 0 <= j < |sheet.rows| ==> Column(sheet, 1)[j] == CellAt(sheet.rows[j], 1);
        match CellAt(sheet.rows[t], 4)
          case Missing => None
          case Value(name) => Some(name)
  }

  /** `scrape_information_per_file`: reads both workbooks, finds the study name and attaches the
      coordinates of its best match. */
  function ScrapeInformation(studyPath: string, geocodePath: string, book: string -> Option<Sheet>,
                             geocodes: string -> Option<seq<LocationRow>>): Result<StudyRecord, AggregateError>
  {
    match book(studyPath)
      case None => Failure(Unreadable(studyPath))
      case Some(study) =>
        match geocodes(geocodePath)
          case None => Failure(Unreadable(geocodePath))
          case Some(locations) =>
            match StudyName(study)
              case None => Failure(StudyNameNotFound(studyPath))
              case Some(name) =>
                match ReturnLatLong(name, locations)
                  case None => Failure(NoLocations(geocodePath))
                  case Some(coordinates) => Success(StudyRecord(name, coordinates.0, coordinates.1))
  }

  /** A record carries the study's name and the coordinates of the row chosen for it. */
  lemma ScrapeInformationMeaning(studyPath: string, geocodePath: string, book: string -> Option<Sheet>,
                                 geocodes: string -> Option<seq<LocationRow>>)
    ensures var r := ScrapeInformation(studyPath, geocodePath, book, geocodes);
      r.Success? <==> book(studyPath).Some? && geocodes(geocodePath).Some? && StudyName(book(studyPath).value).Some?
                      && geocodes(geocodePath).value != []
    ensures var r := ScrapeInformation(studyPath, geocodePath, book, geocodes);
      r.Success? ==>
        var locations := geocodes(geocodePath).value;
        var i := ChosenIndex(r.value.name, locations);
        && r.value.name == StudyName(book(studyPath).value).value
        && r.value.latitude == locations[i].latitude && r.value.longitude == locations[i].longitude
  {
    var r := ScrapeInformation(studyPath, geocodePath, book, geocodes);
    if book(studyPath).Some? && geocodes(geocodePath).Some? && StudyName(book(studyPath).value).Some? {
      ChosenIsFirstMaximum(StudyName(book(studyPath).value).value, geocodes(geocodePath).value);
    }
  }

  // ---------------------------------------------------------------- aggregate_black_cat_files

  /** `dirpath + filename` for the files of one walk triple: the two are joined as written,
      with no separator between them. */
  function AddressIn(dirpath: string): string -> string
  {
    filename => dirpath + filename
  }

  /** The addresses collected from a walk, triple after triple. */
  function Addresses(entries: seq<WalkEntry>): seq<string>
  {
    if entries == [] then []
    else Addresses(entries[..|entries| - 1]) + Map(AddressIn(entries[|entries| - 1].root), entries[|entries| - 1].files)
  }

  /** The last position whose address contains `name`. */
  function LastMatch(addresses: seq<string>, name: string): (r: Option<nat>)
    ensures r.None? <==> forall k :: 0 <= k < |addresses| ==> !Contains(addresses[k], name)
    ensures r.Some? ==> r.value < |addresses| && Contains(addresses[r.value], name)
                        && forall k :: r.value < k < |addresses| ==> !Contains(addresses[k], name)
  {
    if addresses == [] then None
    else if Contains(addresses[|addresses| - 1], name) then Some(|addresses| - 1)
    else
      var r := LastMatch(addresses[..|addresses| - 1], name);
      assert forall k :: 0 <= k < |addresses| - 1 ==> addresses[k] == addresses[..|addresses| - 1][k];
      r
  }

  /** `scrape_information_per_file` against a fixed location table. */
  function ScrapeAgainst(geocodePath: string, book: string -> Option<Sheet>,
                         geocodes: string -> Option<seq<LocationRow>>): string -> Result<StudyRecord, AggregateError>
  {
    studyPath => ScrapeInformation(studyPath, geocodePath, book, geocodes)
  }

  /** The records of the study files in order; the first file that raises ends the run. */
  function Records(paths: seq<string>, scrape: string -> Result<StudyRecord, AggregateError>)
    : Result<seq<StudyRecord>, AggregateError>
  {
    if paths == [] then Success([])
    else match Records(paths[..|paths| - 1], scrape)
      case Failure(e) => Failure(e)
      case Success(before) =>
        match scrape(paths[|paths| - 1])
          case Failure(e) => Failure(e)
          case Success(record) => Success(before + [record])
  }

  /** What `aggregate_black_cat_files` returns: the location table is the last collected
      address containing its name; that one address is removed and every other one, in
      order, gives a record. */
  function Aggregated(folderPath: string, locationFileName: string, walk: string -> seq<WalkEntry>,
                      book: string -> Option<Sheet>, geocodes: string -> Option<seq<LocationRow>>)
    : Result<seq<StudyRecord>, AggregateError>
  {
    var addresses := Addresses(walk(folderPath));
    match LastMatch(addresses, locationFileName)
      case None => Failure(GeocodeFileNotFound)
      case Some(i) => Records(WithoutIndex(addresses, i), ScrapeAgainst(addresses[i], book, geocodes))
  }

  /** The run succeeds exactly when every path does; it then gives one record per path, the
      `k`-th from the `k`-th path, and otherwise the error of the first path that fails. */
  lemma RecordsMeaning(paths: seq<string>, scrape: string -> Result<StudyRecord, AggregateError>)
    ensures Records(paths, scrape).Success? <==> forall k :: 0 <= k < |paths| ==> scrape(paths[k]).Success?
    ensures Records(paths, scrape).Success? ==>
      |Records(paths, scrape).value| == |paths|
      && forall k :: 0 <= k < |paths| ==> Records(paths, scrape).value[k] == scrape(paths[k]).value
    ensures Records(paths, scrape).Failure? ==>
      exists k :: 0 <= k < |paths| && scrape(paths[k]) == Failure(Records(paths, scrape).error)
                  && forall j :: 0 <= j < k ==> scrape(paths[j]).Success?
  {
    if Records(paths, scrape).Success? {
      RecordsValues(paths, scrape);
    } else {
      RecordsFirstFailure(paths, scrape);
    }
  }

  lemma {:induction false} RecordsValues(paths: seq<string>, scrape: string -> Result<StudyRecord, AggregateError>)
    requires Records(paths, scrape).Success?
    ensures forall k :: 0 <= k < |paths| ==> scrape(paths[k]).Success?
    ensures |Records(paths, scrape).value| == |paths|
    ensures forall k :: 0 <= k < |paths| ==> Records(paths, scrape).value[k] == scrape(paths[k]).value
  {
    if paths != [] {
      var n := |paths| - 1;
      var init := paths[..n];
      RecordsValues(init, scrape);
      forall k | 0 <= k < n ensures paths[k] == init[k] { }
      assert Records(paths, scrape).value == Records(init, scrape).value + [scrape(paths[n]).value];
    }
  }

  lemma {:induction false} RecordsFirstFailure(paths: seq<string>, scrape: string -> Result<StudyRecord, AggregateError>)
    requires Records(paths, scrape).Failure?
    ensures exists k :: 0 <= k < |paths| && scrape(paths[k]) == Failure(Records(paths, scrape).error)
                        && forall j :: 0 <= j < k ==> scrape(paths[j]).Success?
  {
    var n := |paths| - 1;
    var init := paths[..n];
    forall k | 0 <= k < n ensures paths[k] == init[k] { }
    var before := Records(init, scrape);
    if before.Failure? {
      RecordsFirstFailure(init, scrape);
      var k :| 0 <= k < |init| && scrape(init[k]) == Failure(before.error)
               && forall j :: 0 <= j < k ==> scrape(init[j]).Success?;
      assert paths[k] == init[k];
    } else {
      RecordsValues(init, scrape);
      assert scrape(paths[n]) == Failure(Records(paths, scrape).error);
    }
  }

  /** Without an address naming the location table the run fails, and for that reason only. */
  lemma AggregatedNeedsTable(folderPath: string, locationFileName: string, walk: string -> seq<WalkEntry>,
                             book: string -> Option<Sheet>, geocodes: string -> Option<seq<LocationRow>>)
    ensures var addresses := Addresses(walk(folderPath));
      Aggregated(folderPath, locationFileName, walk, book, geocodes) == Failure(GeocodeFileNotFound) <==>
        forall k :: 0 <= k < |addresses| ==> !Contains(addresses[k], locationFileName)
  {
    var addresses := Addresses(walk(folderPath));
    var m := LastMatch(addresses, locationFileName);
    if m.Some? {
      var i := m.value;
      var rest := WithoutIndex(addresses, i);
      var scrape := ScrapeAgainst(addresses[i], book, geocodes);
      RecordsMeaning(rest, scrape);
      var r := Records(rest, scrape);
      if r.Failure? {
        var k :| 0 <= k < |rest| && scrape(rest[k]) == Failure(r.error);
        ScrapeNeverMissesTable(rest[k], addresses[i], book, geocodes);
      }
    }
  }

  /** `file_addresses.pop(i)`: the entry at `i` is gone and every other keeps its order. */
  function WithoutIndex<T>(xs: seq<T>, i: nat): (r: seq<T>)
    requires i < |xs|
    ensures |r| == |xs| - 1
    ensures forall k :: 0 <= k < i ==> r[k] == xs[k]
    ensures forall k :: i <= k < |r| ==> r[k] == xs[k + 1]
  {
    xs[..i] + xs[i + 1..]
  }

  /** With the location table at the last address `i` naming it, a successful run has one
      record per other address, in their order, each matched against the table at `i`. */
  lemma AggregatedRecords(addresses: seq<string>, i: nat, scrape: string -> Result<StudyRecord, AggregateError>)
    requires i < |addresses| && Records(WithoutIndex(addresses, i), scrape).Success?
    ensures var records := Records(WithoutIndex(addresses, i), scrape).value;
      && |records| == |addresses| - 1
      && (forall k :: 0 <= k < i ==> scrape(addresses[k]) == Success(records[k]))
      && (forall k :: i <= k < |addresses| - 1 ==> scrape(addresses[k + 1]) == Success(records[k]))
  {
    RecordsMeaning(WithoutIndex(addresses, i), scrape);
  }

  /** A single study file never reports that the location table is missing. */
  lemma ScrapeNeverMissesTable(studyPath: string, geocodePath: string, book: string -> Option<Sheet>,
                               geocodes: string -> Option<seq<LocationRow>>)
    ensures ScrapeInformation(studyPath, geocodePath, book, geocodes) != Failure(GeocodeFileNotFound)
  {
  }

  /** `aggregate_black_cat_files`: collects the addresses of the walk, after each triple
      rescanning all of them for the location table, removes that address, then builds one
      record per remaining address. */
  method AggregateBlackCatFiles(folderPath: string, locationFileName: string, walk: string -> seq<WalkEntry>,
                                book: string -> Option<Sheet>, geocodes: string -> Option<seq<LocationRow>>)
    returns (r: Result<seq<StudyRecord>, AggregateError>)
    ensures r == Aggregated(folderPath, locationFileName, walk, book, geocodes)
  {
    var fileAddresses, locationFileIndex, locationFileAddress := ListAddresses(walk(folderPath), locationFileName);
    if locationFileIndex == -1 {
      return Failure(GeocodeFileNotFound);
    }
    var remaining := fileAddresses[..locationFileIndex] + fileAddresses[locationFileIndex + 1..];
    assert remaining == WithoutIndex(fileAddresses, locationFileIndex);
    r := CollectRecords(remaining, locationFileAddress, book, geocodes);
  }

  /** The `for root, dirs, files in os.walk(folder_path)` loop: every address found, and the
      index and address of the last one containing the location file's name (`-1` and `""`
      when none does). */
  method ListAddresses(entries: seq<WalkEntry>, locationFileName: string)
    returns (fileAddresses: seq<string>, locationFileIndex: int, locationFileAddress: string)
    ensures fileAddresses == Addresses(entries)
    ensures LastMatch(fileAddresses, locationFileName).None? ==> locationFileIndex == -1
    ensures LastMatch(fileAddresses, locationFileName).Some? ==>
      locationFileIndex == LastMatch(fileAddresses, locationFileName).value
      && locationFileAddress == fileAddresses[locationFileIndex]
  {
    fileAddresses := [];
    locationFileAddress := "";
    locationFileIndex := -1;
    for e := 0 to |entries|
      invariant fileAddresses == Addresses(entries[..e])
      invariant LastMatch(fileAddresses, locationFileName).None? ==> locationFileIndex == -1
      invariant LastMatch(fileAddresses, locationFileName).Some? ==>
        locationFileIndex == LastMatch(fileAddresses, locationFileName).value
        && locationFileAddress == fileAddresses[locationFileIndex]
    {
      assert entries[..e + 1][..e] == entries[..e];
      var found := Map(AddressIn(entries[e].root), entries[e].files);
      NoMatchInPrefix(fileAddresses, found, locationFileName);
      fileAddresses := fileAddresses + found;
      locationFileIndex, locationFileAddress := ScanForLocation(fileAddresses, locationFileName,
                                                                locationFileIndex, locationFileAddress);
    }
    assert entries[..|entries|] == entries;
  }

  /** No match in a list means none in any prefix of it. */
  lemma NoMatchInPrefix(xs: seq<string>, ys: seq<string>, name: string)
    ensures LastMatch(xs + ys, name).None? ==> LastMatch(xs, name).None?
  {
    if LastMatch(xs + ys, name).None? {
      forall k | 0 <= k < |xs| ensures !Contains(xs[k], name) {
        assert (xs + ys)[k] == xs[k];
      }
    }
  }

  /** The `for i, address in enumerate(file_addresses)` scan: the index and address of the
      last match, or the previous ones when nothing matches. */
  method ScanForLocation(fileAddresses: seq<string>, locationFileName: string, previousIndex: int, previousAddress: string)
    returns (locationFileIndex: int, locationFileAddress: string)
    ensures LastMatch(fileAddresses, locationFileName).None? ==>
      locationFileIndex == previousIndex && locationFileAddress == previousAddress
    ensures LastMatch(fileAddresses, locationFileName).Some? ==>
      locationFileIndex == LastMatch(fileAddresses, locationFileName).value
      && locationFileAddress == fileAddresses[locationFileIndex]
  {
    locationFileIndex, locationFileAddress := previousIndex, previousAddress;
    for i := 0 to |fileAddresses|
      invariant LastMatch(fileAddresses[..i], locationFileName).None? ==>
        locationFileIndex == previousIndex && locationFileAddress == previousAddress
      invariant LastMatch(fileAddresses[..i], locationFileName).Some? ==>
        locationFileIndex == LastMatch(fileAddresses[..i], locationFileName).value
        && locationFileAddress == fileAddresses[locationFileIndex]
    {
      assert fileAddresses[..i + 1][..i] == fileAddresses[..i];
      var address := fileAddresses[i];
      if Contains(address, locationFileName) {
        locationFileAddress := address;
        locationFileIndex := i;
      }
    }
    assert fileAddresses[..|fileAddresses|] == fileAddresses;
  }

  /** The `for address in file_addresses` loop appending one record per study file, each
      matched against the table at `geocodePath`. */
  method CollectRecords(paths: seq<string>, geocodePath: string, book: string -> Option<Sheet>,
                        geocodes: string -> Option<seq<LocationRow>>)
    returns (r: Result<seq<StudyRecord>, AggregateError>)
    ensures r == Records(paths, ScrapeAgainst(geocodePath, book, geocodes))
  {
    var scrape := ScrapeAgainst(geocodePath, book, geocodes);
    var studyDicts := [];
    for i := 0 to |paths|
      invariant Records(paths[..i], scrape) == Success(studyDicts)
    {
      assert paths[..i + 1][..i] == paths[..i];
      var record := ScrapeInformation(paths[i], geocodePath, book, geocodes);
      assert record == scrape(paths[i]);
      if record.Failure? {
        RecordsFailureStays(paths, i + 1, scrape);
        return Failure(record.error);
      }
      studyDicts := studyDicts + [record.value];
    }
    assert paths[..|paths|] == paths;
    r := Success(studyDicts);
  }

  /** Once a prefix of the paths fails, the whole run fails with the same error. */
  lemma {:induction false} RecordsFailureStays(paths: seq<string>, n: nat,
                                               scrape: string -> Result<StudyRecord, AggregateError>)
    requires n <= |paths| && Records(paths[..n], scrape).Failure?
    ensures Records(paths, scrape) == Records(paths[..n], scrape)
    decreases |paths| - n
  {
    if n == |paths| {
      assert paths[..n] == paths;
    } else {
      var m := |paths| - 1;
      if n < m {
        assert paths[..m][..n] == paths[..n];
        RecordsFailureStays(paths[..m], n, scrape);
      }
    }
  }
}
