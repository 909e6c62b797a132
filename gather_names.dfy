/**
 * The survey of downloaded count workbooks: which files lack direction columns, which row
 * labels and which direction names occur across them, and which paths the yearly folders
 * hold.
 *
 * A workbook is seen through `book`: the "Total Volume Class Breakdown" sheet of the file at
 * a path, or `None` where reading it raises. The directory walk is `walk`: the
 * `(root, subdirectories, files)` triples `os.walk` yields for a starting folder.
 */
module GatherNames {
  import opened Wrappers
  import opened Text
  import opened Sequences

  /** A spreadsheet cell: empty (NaN once read) or holding text. */
  datatype Cell = Missing | Value(text: string)

  /** A sheet: the column headers, then the rows under the header row. */
  datatype Sheet = Sheet(header: seq<string>, rows: seq<seq<Cell>>)

  /** The cell of a row in column `c`; a row shorter than the header reads as empty there. */
  function CellAt(row: seq<Cell>, c: nat): Cell
  {
    if c < |row| then row[c] else Missing
  }

  // ---------------------------------------------------------------- check_duplicates

  /** `check_duplicates`: reports whether some value occurs twice, remembering every value
      seen so far. */
  method CheckDuplicates<T(==)>(data: seq<T>) returns (foundDuplicate: bool)
    ensures foundDuplicate <==> exists i, j :: 0 <= i < j < |data| && data[i] == data[j]
  {
    var seen: set<T> := {};
    foundDuplicate := false;
    for n := 0 to |data|
      invariant seen == set k | 0 <= k < n :: data[k]
      invariant foundDuplicate <==> exists i, j :: 0 <= i < j < n && data[i] == data[j]
    {
      if data[n] in seen {
        var i :| 0 <= i < n && data[i] == data[n];
        foundDuplicate := true;
      } else {
        seen := seen + {data[n]};
      }
    }
  }

  // ---------------------------------------------------------------- find_normal

  const Directions: set<string> := {"North", "East", "West", "South"}

  predicate HasDirection(cols: seq<string>)
  {
    exists k :: 0 <= k < |cols| && cols[k] in Directions
  }

  /** The `while` loop of `find_normal`: it looks at the columns in order and stops right
      after the first direction among them; `i` is the number of columns looked at. */
  method ScanForDirection(cols: seq<string>) returns (directionsFound: bool, i: nat)
    ensures directionsFound <==> HasDirection(cols)
    ensures directionsFound ==> 0 < i <= |cols| && cols[i - 1] in Directions
                                && forall k :: 0 <= k < i - 1 ==> cols[k] !in Directions
    ensures !directionsFound ==> i == |cols|
  {
    directionsFound := false;
    i := 0;
    while !directionsFound && i < |cols|
      invariant 0 <= i <= |cols|
      invariant directionsFound ==> 0 < i && cols[i - 1] in Directions
      invariant forall k :: 0 <= k < i && !(directionsFound && k == i - 1) ==> cols[k] !in Directions
      decreases |cols| - i, !directionsFound
    {
      if cols[i] in Directions {
        directionsFound := true;
      }
      i := i + 1;
    }
  }

  /** What `find_normal` returns (`None` where reading a workbook raises): the number of
      files whose sheet has no direction column. */
  function NormalCount(files: seq<string>, book: string -> Option<Sheet>): Option<nat>
  {
    if files == [] then Some(0)
    else match NormalCount(files[..|files| - 1], book)
      case None => None
      case Some(n) =>
        match book(files[|files| - 1])
          case None => None
          case Some(sheet) => Some(if HasDirection(sheet.header) then n else n + 1)
  }

  /** The positions of the files counted as anomalies. */
  ghost function NormalPositions(files: seq<string>, book: string -> Option<Sheet>): set<nat>
  {
    set k: nat | k < |files| && book(files[k]).Some? && !HasDirection(book(files[k]).value.header)
  }

  /** The count exists exactly when every workbook reads, and it is then the number of files
      without a direction column, never more than the number of files. */
  lemma NormalCountMeaning(files: seq<string>, book: string -> Option<Sheet>)
    ensures NormalCount(files, book).Some? <==> forall k :: 0 <= k < |files| ==> book(files[k]).Some?
    ensures NormalCount(files, book).Some? ==>
      NormalCount(files, book).value == |NormalPositions(files, book)| <= |files|
  {
    NormalCountSome(files, book);
    if NormalCount(files, book).Some? {
      NormalCountValue(files, book);
    }
  }

  lemma {:induction false} NormalCountSome(files: seq<string>, book: string -> Option<Sheet>)
    ensures NormalCount(files, book).Some? <==> forall k :: 0 <= k < |files| ==> book(files[k]).Some?
  {
    if files != [] {
      var n := |files| - 1;
      var init := files[..n];
      NormalCountSome(init, book);
      forall k | 0 <= k < n ensures files[k] == init[k] { }
      if NormalCount(init, book).None? {
        var k :| 0 <= k < n && book(init[k]).None?;
        assert book(files[k]).None?;
      }
    }
  }

  lemma {:induction false} NormalCountValue(files: seq<string>, book: string -> Option<Sheet>)
    requires NormalCount(files, book).Some?
    ensures NormalCount(files, book).value == |NormalPositions(files, book)| <= |files|
  {
    if files != [] {
      var n := |files| - 1;
      var init := files[..n];
      NormalCountValue(init, book);
      forall k | 0 <= k < n ensures files[k] == init[k] { }
      var before := NormalPositions(init, book);
      var after := NormalPositions(files, book);
      if HasDirection(book(files[n]).value.header) {
        assert after == before;
      } else {
        assert after == before + {n};
        assert n !in before;
      }
    }
  }

  // ---------------------------------------------------------------- extract_names

  /** The column `c` of a sheet, one cell per row. */
  function Column(sheet: Sheet, c: nat): seq<Cell>
  {
    seq(|sheet.rows|, r requires 0 <= r < |sheet.rows| => CellAt(sheet.rows[r], c))
  }

  /** The entries at even offsets: the first, the third, and so on. */
  function EvenOffsets<T>(xs: seq<T>): seq<T>
  {
    if xs == [] then []
    else EvenOffsets(xs[..|xs| - 1]) + (if (|xs| - 1) % 2 == 0 then [xs[|xs| - 1]] else [])
  }

  lemma {:induction false} EvenOffsetsAt<T>(xs: seq<T>)
    ensures |EvenOffsets(xs)| == (|xs| + 1) / 2
    ensures forall j :: 0 <= j < |EvenOffsets(xs)| ==> EvenOffsets(xs)[j] == xs[2 * j]
  {
    if xs != [] {
      var init := xs[..|xs| - 1];
      EvenOffsetsAt(init);
      forall j | 0 <= j < |EvenOffsets(init)| ensures EvenOffsets(xs)[j] == xs[2 * j] {
        assert xs[2 * j] == init[2 * j];
      }
    }
  }

  /** `c` is the first column headed "Leg", the one `df['Leg']` selects. */
  predicate FirstLeg(sheet: Sheet, c: nat)
  {
    c < |sheet.header| && sheet.header[c] == "Leg" && forall k :: 0 <= k < c ==> sheet.header[k] != "Leg"
  }

  /** `t` is the first row whose cell in column `c` reads "% Total". */
  predicate FirstTotal(sheet: Sheet, c: nat, t: nat)
  {
    t < |sheet.rows| && CellAt(sheet.rows[t], c) == Value("% Total")
    && forall r :: 0 <= r < t ==> CellAt(sheet.rows[r], c) != Value("% Total")
  }

  predicate HasTotalRow(sheet: Sheet, c: nat)
  {
    exists r :: 0 <= r < |sheet.rows| && CellAt(sheet.rows[r], c) == Value("% Total")
  }

  /** The labels `extract_names` inserts from one sheet, in order (`None` where it raises):
      the "Leg" cells at even offsets below the first "% Total" row. */
  function Labels(sheet: Sheet): Option<seq<Cell>>
  {
    match FirstIndex(sheet.header, "Leg")
      case None => None
      case Some(c) =>
        var leg := Column(sheet, c);
        match FirstIndex(leg, Value("% Total"))
          case None => None
          case Some(t) => Some(EvenOffsets(leg[t + 1..]))
  }

  /** A sheet fails without a "Leg" column, and with one it fails exactly when that column has
      no "% Total" row. */
  lemma LabelsFail(sheet: Sheet)
    ensures "Leg" !in sheet.header ==> Labels(sheet) == None
    ensures forall c: nat :: FirstLeg(sheet, c) ==> (Labels(sheet).Some? <==> HasTotalRow(sheet, c))
  {
    forall c: nat | FirstLeg(sheet, c) ensures Labels(sheet).Some? <==> HasTotalRow(sheet, c) {
      assert FirstIndex(sheet.header, "Leg") == Some(c);
      var leg := Column(sheet, c);
      if HasTotalRow(sheet, c) {
        var r :| 0 <= r < |sheet.rows| && CellAt(sheet.rows[r], c) == Value("% Total");
        assert leg[r] == Value("% Total");
      }
    }
  }

  /** Below the first "% Total" row at `t`, the labels are the "Leg" cells of rows `t + 1`,
      `t + 3`, ... to the end of the sheet. */
  lemma LabelsOfRows(sheet: Sheet, c: nat, t: nat)
    requires FirstLeg(sheet, c) && FirstTotal(sheet, c, t)
    ensures Labels(sheet).Some?
    ensures |Labels(sheet).value| == (|sheet.rows| - t) / 2
    ensures forall j :: 0 <= j < |Labels(sheet).value| ==>
      Labels(sheet).value[j] == CellAt(sheet.rows[t + 1 + 2 * j], c)
  {
    LabelsBelowTotal(sheet, c, t);
    var leg := Column(sheet, c);
    EvenOffsetsBelow(leg, t);
    forall j | 0 <= j < |EvenOffsets(leg[t + 1..])|
      ensures EvenOffsets(leg[t + 1..])[j] == CellAt(sheet.rows[t + 1 + 2 * j], c)
    {
      assert leg[t + 1 + 2 * j] == CellAt(sheet.rows[t + 1 + 2 * j], c);
    }
  }

  lemma LabelsBelowTotal(sheet: Sheet, c: nat, t: nat)
    requires FirstLeg(sheet, c) && FirstTotal(sheet, c, t)
    ensures Labels(sheet) == Some(EvenOffsets(Column(sheet, c)[t + 1..]))
  {
    FirstIndexAt(sheet.header, "Leg", c);
    var leg := Column(sheet, c);
    forall r | 0 <= r < t ensures leg[r] != Value("% Total") {
      assert leg[r] == CellAt(sheet.rows[r], c);
    }
    FirstIndexAt(leg, Value("% Total"), t);
  }

  lemma EvenOffsetsBelow<T>(xs: seq<T>, t: nat)
    requires t < |xs|
    ensures |EvenOffsets(xs[t + 1..])| == (|xs| - t) / 2
    ensures forall j :: 0 <= j < |EvenOffsets(xs[t + 1..])| ==> EvenOffsets(xs[t + 1..])[j] == xs[t + 1 + 2 * j]
  {
    var below := xs[t + 1..];
    EvenOffsetsAt(below);
    forall j | 0 <= j < |EvenOffsets(below)| ensures EvenOffsets(below)[j] == xs[t + 1 + 2 * j] {
      assert below[2 * j] == xs[t + 1 + 2 * j];
    }
  }

  /** The labels of the workbook at `file`, or `None` where reading or selecting raises. */
  function FileLabels(file: string, book: string -> Option<Sheet>): Option<seq<Cell>>
  {
    match book(file)
      case None => None
      case Some(sheet) => Labels(sheet)
  }

  /** The dictionary keys after `extract_names(names, file)`, or `None` where it raises;
      the dictionary is then untouched, since nothing is inserted before the selection. */
  function NamesAfter(names: seq<Cell>, file: string, book: string -> Option<Sheet>): Option<seq<Cell>>
  {
    match FileLabels(file, book)
      case None => None
      case Some(labels) => Some(AddNew(names, labels))
  }

  lemma AddNewOne<T>(known: seq<T>, x: T)
    ensures AddNew(known, [x]) == if x in known then known else known + [x]
  {
    assert [x][1..] == [];
  }

  /** `extract_names`: selects "Leg", finds the first "% Total" row, and inserts the legCell at
      each even offset below it unless it is a key already. */
  method ExtractNames(names: seq<Cell>, file: string, book: string -> Option<Sheet>)
    returns (r: Option<seq<Cell>>)
    ensures r == NamesAfter(names, file, book)
  {
    var frame := book(file);
    if frame.None? {
      return None;
    }
    var df := frame.value;
    var legAt := FirstIndex(df.header, "Leg");
    if legAt.None? {
      return None;
    }
    var leg := Column(df, legAt.value);
    var columnsIndex := FirstIndex(leg, Value("% Total"));
    if columnsIndex.None? {
      return None;
    }
    var areaInterest := leg[columnsIndex.value + 1..];
    var updated := InsertLabels(names, areaInterest);
    r := Some(updated);
  }

  /** The `for i in range(...)` loop of `extract_names`: the cell at each even offset becomes a
      key unless it is one already. */
  method InsertLabels(names: seq<Cell>, areaInterest: seq<Cell>) returns (updated: seq<Cell>)
    ensures updated == AddNew(names, EvenOffsets(areaInterest))
  {
    updated := names;
    for i := 0 to |areaInterest|
      invariant updated == AddNew(names, EvenOffsets(areaInterest[..i]))
    {
      assert areaInterest[..i + 1][..i] == areaInterest[..i];
      if i % 2 == 0 {
        var legCell := areaInterest[i];
        assert EvenOffsets(areaInterest[..i + 1]) == EvenOffsets(areaInterest[..i]) + [legCell];
        AddNewAppend(names, EvenOffsets(areaInterest[..i]), [legCell]);
        AddNewOne(updated, legCell);
        if legCell !in updated {
          updated := updated + [legCell];
        }
      } else {
        assert EvenOffsets(areaInterest[..i + 1]) == EvenOffsets(areaInterest[..i]) + [];
        assert EvenOffsets(areaInterest[..i]) + [] == EvenOffsets(areaInterest[..i]);
      }
    }
    assert areaInterest[..|areaInterest|] == areaInterest;
  }

  // ---------------------------------------------------------------- get_column_names

  /** The keys `get_column_names` returns: each file's labels inserted in turn, a file that
      raises skipped. */
  function ColumnNamesOf(files: seq<string>, book: string -> Option<Sheet>): seq<Cell>
  {
    if files == [] then []
    else
      var before := ColumnNamesOf(files[..|files| - 1], book);
      match NamesAfter(before, files[|files| - 1], book)
        case None => before
        case Some(after) => after
  }

  /** A further file only appends keys, and a file that raises changes nothing: keys keep the
      order in which they were first seen. */
  lemma ColumnNamesGrow(files: seq<string>, file: string, book: string -> Option<Sheet>)
    ensures var before := ColumnNamesOf(files, book);
      var after := ColumnNamesOf(files + [file], book);
      && |before| <= |after| && after[..|before|] == before
      && (FileLabels(file, book).None? ==> after == before)
  {
    assert (files + [file])[..|files|] == files;
  }

  /** Every item the files yield, a file yielding `None` contributing nothing. */
  ghost function Union<T>(files: seq<string>, items: string -> Option<seq<T>>): set<T>
  {
    if files == [] then {}
    else
      Union(files[..|files| - 1], items)
      + match items(files[|files| - 1]) case None => {} case Some(xs) => Elements(xs)
  }

  /** An item is in the union exactly when some file yields it. */
  lemma {:induction false} UnionAt<T>(files: seq<string>, items: string -> Option<seq<T>>, x: T)
    ensures x in Union(files, items) <==>
      exists k :: 0 <= k < |files| && items(files[k]).Some? && x in items(files[k]).value
  {
    if files != [] {
      var n := |files| - 1;
      var init := files[..n];
      UnionAt(init, items, x);
      if x in Union(init, items) {
        var k :| 0 <= k < n && items(init[k]).Some? && x in items(init[k]).value;
        assert files[k] == init[k];
      }
      if exists k :: 0 <= k < |files| && items(files[k]).Some? && x in items(files[k]).value {
        var k :| 0 <= k < |files| && items(files[k]).Some? && x in items(files[k]).value;
        if k < n {
          assert files[k] == init[k];
        }
      }
    }
  }

  /** `FileLabels` against a fixed workbook reader. */
  function LabelsIn(book: string -> Option<Sheet>): string -> Option<seq<Cell>>
  {
    file => FileLabels(file, book)
  }

  /** Every label of the files that read. */
  ghost function AllLabels(files: seq<string>, book: string -> Option<Sheet>): set<Cell>
  {
    Union(files, LabelsIn(book))
  }

  /** A label is collected exactly when some file that reads carries it. */
  lemma AllLabelsAt(files: seq<string>, book: string -> Option<Sheet>, x: Cell)
    ensures x in AllLabels(files, book) <==>
      exists k :: 0 <= k < |files| && FileLabels(files[k], book).Some? && x in FileLabels(files[k], book).value
  {
    UnionAt(files, LabelsIn(book), x);
  }

  /** The keys are free of repeats and are exactly the labels of the files that read. */
  lemma {:induction false} ColumnNamesMeaning(files: seq<string>, book: string -> Option<Sheet>)
    ensures NoDuplicates(ColumnNamesOf(files, book))
    ensures Elements(ColumnNamesOf(files, book)) == AllLabels(files, book)
  {
    if files != [] {
      ColumnNamesMeaning(files[..|files| - 1], book);
    }
  }

  /** `get_column_names`: every file in turn, a file that raises skipped. */
  method GetColumnNames(files: seq<string>, book: string -> Option<Sheet>) returns (names: seq<Cell>)
    ensures names == ColumnNamesOf(files, book)
  {
    names := [];
    for i := 0 to |files|
      invariant names == ColumnNamesOf(files[..i], book)
    {
      assert files[..i + 1][..i] == files[..i];
      var extended := ExtractNames(names, files[i], book);
      if extended.Some? {
        names := extended.value;
      }
    }
    assert files[..|files|] == files;
  }

  // ---------------------------------------------------------------- extract_direction_names

  /** `df.iloc[0].tolist()`: the first row's cell under every column. */
  function FirstRow(sheet: Sheet): seq<Cell>
    requires |sheet.rows| > 0
  {
    seq(|sheet.header|, c requires 0 <= c < |sheet.header| => CellAt(sheet.rows[0], c))
  }

  /** What one cell contributes: its text, unless it is empty or "Start Time". */
  function KeptOf(cell: Cell): seq<string>
  {
    match cell
      case Missing => []
      case Value(s) => if s == "Start Time" then [] else [s]
  }

  /** The non-empty cells other than "Start Time", as text, in order. */
  function KeptDirections(cells: seq<Cell>): seq<string>
  {
    if cells == [] then [] else KeptDirections(cells[..|cells| - 1]) + KeptOf(cells[|cells| - 1])
  }

  /** Keeping works cell by cell and keeps the order: the cells of a concatenation give the
      names of each part, one after the other. */
  lemma {:induction false} KeptDirectionsAppend(a: seq<Cell>, b: seq<Cell>)
    ensures KeptDirections(a + b) == KeptDirections(a) + KeptDirections(b)
    decreases |b|
  {
    if b == [] {
      assert a + b == a;
    } else {
      var init := b[..|b| - 1];
      assert (a + b)[..|a + b| - 1] == a + init;
      KeptDirectionsAppend(a, init);
    }
  }

  /** Every kept name is a cell's text other than "Start Time", and every such text is
      kept. */
  lemma {:induction false} KeptDirectionsMeaning(cells: seq<Cell>)
    ensures forall s :: s in KeptDirections(cells) ==> s != "Start Time" && Value(s) in cells
    ensures forall k :: 0 <= k < |cells| && cells[k].Value? && cells[k].text != "Start Time" ==>
      cells[k].text in KeptDirections(cells)
  {
    if cells != [] {
      var n := |cells| - 1;
      var init := cells[..n];
      KeptDirectionsMeaning(init);
      assert KeptDirections(cells) == KeptDirections(init) + KeptOf(cells[n]);
      forall s | s in KeptDirections(cells) ensures s != "Start Time" && Value(s) in cells {
        if s in KeptDirections(init) {
          assert Value(s) in init;
        } else {
          assert s in KeptOf(cells[n]);
          assert cells[n] == Value(s);
        }
      }
      forall k | 0 <= k < |cells| && cells[k].Value? && cells[k].text != "Start Time"
        ensures cells[k].text in KeptDirections(cells)
      {
        if k < n {
          assert cells[k] == init[k];
        } else {
          assert KeptOf(cells[k]) == [cells[k].text];
        }
      }
    }
  }

  /** What `extract_direction_names` returns, or `None` where reading the file raises or the
      sheet has no first row. */
  function DirectionNamesOfFile(file: string, book: string -> Option<Sheet>): Option<seq<string>>
  {
    match book(file)
      case None => None
      case Some(sheet) => if sheet.rows == [] then None else Some(KeptDirections(FirstRow(sheet)))
  }

  /** `extract_direction_names`: the first row's entries that are not missing and not
      "Start Time", in column order. */
  method ExtractDirectionNames(file: string, book: string -> Option<Sheet>) returns (r: Option<seq<string>>)
    ensures r == DirectionNamesOfFile(file, book)
  {
    var df := book(file);
    if df.None? || df.value.rows == [] {
      return None;
    }
    var directions := FirstRow(df.value);
    var names := [];
    for c := 0 to |directions|
      invariant names == KeptDirections(directions[..c])
    {
      assert directions[..c + 1][..c] == directions[..c];
      var direction := directions[c];
      if direction.Value? {
        if direction.text != "Start Time" {
          names := names + [direction.text];
        }
      }
    }
    assert directions[..|directions|] == directions;
    r := Some(names);
  }

  // ---------------------------------------------------------------- get_direction_names

  /** The items of files in turn, each added unless already present; `None` as soon as a
      file yields `None`. */
  function Collected<T(==)>(files: seq<string>, items: string -> Option<seq<T>>): Option<seq<T>>
  {
    if files == [] then Some([])
    else match Collected(files[..|files| - 1], items)
      case None => None
      case Some(before) =>
        match items(files[|files| - 1])
          case None => None
          case Some(xs) => Some(AddNew(before, xs))
  }

  /** Collecting succeeds exactly when every file yields its items; it then holds each item of
      every file once. */
  lemma CollectedMeaning<T>(files: seq<string>, items: string -> Option<seq<T>>)
    ensures Collected(files, items).Some? <==> forall k :: 0 <= k < |files| ==> items(files[k]).Some?
    ensures Collected(files, items).Some? ==>
      NoDuplicates(Collected(files, items).value) && Elements(Collected(files, items).value) == Union(files, items)
  {
    CollectedSome(files, items);
    if Collected(files, items).Some? {
      CollectedContents(files, items);
    }
  }

  lemma {:induction false} CollectedSome<T>(files: seq<string>, items: string -> Option<seq<T>>)
    ensures Collected(files, items).Some? <==> forall k :: 0 <= k < |files| ==> items(files[k]).Some?
  {
    if files != [] {
      var n := |files| - 1;
      var init := files[..n];
      CollectedSome(init, items);
      forall k | 0 <= k < n ensures files[k] == init[k] { }
      if Collected(init, items).None? {
        var k :| 0 <= k < n && items(init[k]).None?;
        assert items(files[k]).None?;
      }
    }
  }

  lemma {:induction false} CollectedContents<T>(files: seq<string>, items: string -> Option<seq<T>>)
    requires Collected(files, items).Some?
    ensures NoDuplicates(Collected(files, items).value)
    ensures Elements(Collected(files, items).value) == Union(files, items)
  {
    if files != [] {
      var n := |files| - 1;
      var init := files[..n];
      var before := Collected(init, items).value;
      var last := items(files[n]).value;
      CollectedContents(init, items);
      assert Collected(files, items) == Some(AddNew(before, last));
      assert Union(files, items) == Union(init, items) + Elements(last);
    }
  }

  /** `DirectionNamesOfFile` against a fixed workbook reader. */
  function NamesIn(book: string -> Option<Sheet>): string -> Option<seq<string>>
  {
    file => DirectionNamesOfFile(file, book)
  }

  /** What `get_direction_names` returns (`None` where a file raises): the union of the files'
      names, kept here in the order first seen. */
  function DirectionNamesOf(files: seq<string>, book: string -> Option<Sheet>): Option<seq<string>>
  {
    Collected(files, NamesIn(book))
  }

  /** Every name of the files. */
  ghost function AllDirectionNames(files: seq<string>, book: string -> Option<Sheet>): set<string>
  {
    Union(files, NamesIn(book))
  }

  /** A name is in the union exactly when some file lists it. */
  lemma AllDirectionNamesAt(files: seq<string>, book: string -> Option<Sheet>, x: string)
    ensures x in AllDirectionNames(files, book) <==>
      exists k :: 0 <= k < |files| && DirectionNamesOfFile(files[k], book).Some?
                  && x in DirectionNamesOfFile(files[k], book).value
  {
    UnionAt(files, NamesIn(book), x);
  }

  /** The union exists exactly when every file yields its names; it is then free of repeats
      and holds exactly the names of all files. */
  lemma DirectionNamesMeaning(files: seq<string>, book: string -> Option<Sheet>)
    ensures DirectionNamesOf(files, book).Some? <==>
      forall k :: 0 <= k < |files| ==> DirectionNamesOfFile(files[k], book).Some?
    ensures DirectionNamesOf(files, book).Some? ==>
      NoDuplicates(DirectionNamesOf(files, book).value)
      && Elements(DirectionNamesOf(files, book).value) == AllDirectionNames(files, book)
  {
    CollectedMeaning(files, NamesIn(book));
  }

  // ---------------------------------------------------------------- dfs_wrapper

  /** One triple of `os.walk`. */
  datatype WalkEntry = WalkEntry(root: string, subs: seq<string>, files: seq<string>)

  /** `s.replace(target, replacement)` for single characters. */
  function Replace(s: string, target: char, replacement: char): string
  {
    seq(|s|, k requires 0 <= k < |s| => if s[k] == target then replacement else s[k])
  }

  /** `f'./Miovision/{year}'`. */
  function Location(year: int): string
  {
    "./Miovision/" + IntToString(year)
  }

  /** `[f'./Miovision/{year}' for year in range(startYear, endYear + 1)]`. */
  function Locations(startYear: int, endYear: int): seq<string>
  {
    if endYear < startYear then []
    else seq(endYear - startYear + 1, k requires 0 <= k <= endYear - startYear => Location(startYear + k))
  }

  /** One folder per year from `startYear` to `endYear`, both included, in year order. */
  lemma LocationsAt(startYear: int, endYear: int)
    ensures |Locations(startYear, endYear)| == if endYear < startYear then 0 else endYear - startYear + 1
    ensures forall k :: 0 <= k < |Locations(startYear, endYear)| ==>
      Locations(startYear, endYear)[k] == "./Miovision/" + IntToString(startYear + k)
  {
  }

  /** `root.replace('\\','/') + '/' + file` for the files of one root. */
  function PathIn(root: string): string -> string
  {
    file => Replace(root, '\\', '/') + "/" + file
  }

  /** The paths one triple lists. */
  function Listed(entry: WalkEntry): seq<string>
  {
    Map(PathIn(entry.root), entry.files)
  }

  /** The paths a walk lists, triple after triple. */
  function WalkPaths(entries: seq<WalkEntry>): seq<string>
  {
    Flatten(Listed, entries)
  }

  /** The paths of the walk from each folder. */
  function WalkOf(walk: string -> seq<WalkEntry>): string -> seq<string>
  {
    location => WalkPaths(walk(location))
  }

  /** The paths walks from several folders list, folder after folder. */
  function TreePaths(locations: seq<string>, walk: string -> seq<WalkEntry>): seq<string>
  {
    Flatten(WalkOf(walk), locations)
  }

  /** A walk lists exactly the paths `root/file` of its triples, with backslashes in the root
      turned into slashes. */
  lemma WalkPathsAt(entries: seq<WalkEntry>, p: string)
    ensures p in WalkPaths(entries) <==>
      exists j, k :: 0 <= j < |entries| && 0 <= k < |entries[j].files|
                     && p == Replace(entries[j].root, '\\', '/') + "/" + entries[j].files[k]
  {
    FlattenAt(Listed, entries, p);
    if p in WalkPaths(entries) {
      var j :| 0 <= j < |entries| && p in Listed(entries[j]);
      MapAt(PathIn(entries[j].root), entries[j].files);
      var k :| 0 <= k < |entries[j].files| && Listed(entries[j])[k] == p;
      assert p == Replace(entries[j].root, '\\', '/') + "/" + entries[j].files[k];
    }
    if exists j, k :: 0 <= j < |entries| && 0 <= k < |entries[j].files|
                      && p == Replace(entries[j].root, '\\', '/') + "/" + entries[j].files[k] {
      var j, k :| 0 <= j < |entries| && 0 <= k < |entries[j].files|
                  && p == Replace(entries[j].root, '\\', '/') + "/" + entries[j].files[k];
      MapAt(PathIn(entries[j].root), entries[j].files);
      assert Listed(entries[j])[k] == p;
    }
  }

  /** The paths of several folders are those of the walk of some folder among them. */
  lemma TreePathsAt(locations: seq<string>, walk: string -> seq<WalkEntry>, p: string)
    ensures p in TreePaths(locations, walk) <==> exists i :: 0 <= i < |locations| && p in WalkPaths(walk(locations[i]))
  {
    FlattenAt(WalkOf(walk), locations, p);
  }

  /** `dfs_wrapper`: walks each year's folder in turn and lists every file found. */
  method DfsWrapper(startYear: int, endYear: int, walk: string -> seq<WalkEntry>) returns (fileNames: seq<string>)
    ensures fileNames == TreePaths(Locations(startYear, endYear), walk)
  {
    var locations := Locations(startYear, endYear);
    fileNames := [];
    for i := 0 to |locations|
      invariant fileNames == TreePaths(locations[..i], walk)
    {
      assert locations[..i + 1][..i] == locations[..i];
      var found := ListWalk(walk(locations[i]));
      fileNames := fileNames + found;
    }
    assert locations[..|locations|] == locations;
  }

  /** The inner loop of `dfs_wrapper`: the paths of one walk, triple after triple. */
  method ListWalk(entries: seq<WalkEntry>) returns (found: seq<string>)
    ensures found == WalkPaths(entries)
  {
    found := [];
    for j := 0 to |entries|
      invariant found == WalkPaths(entries[..j])
    {
      assert entries[..j + 1][..j] == entries[..j];
      var updatedFiles := Map(PathIn(entries[j].root), entries[j].files);
      found := found + updatedFiles;
    }
    assert entries[..|entries|] == entries;
  }

  // ---------------------------------------------------------------- the survey object

  /** The survey as `__init__` leaves it: the listed files, the row labels and the direction
      names found in them. */
  class ColumnNames {
    const fileNames: seq<string>
    const columnNames: seq<Cell>
    const directionNames: seq<string>

    constructor(fileNames: seq<string>, columnNames: seq<Cell>, directionNames: seq<string>)
      ensures this.fileNames == fileNames && this.columnNames == columnNames
      ensures this.directionNames == directionNames
    {
      this.fileNames := fileNames;
      this.columnNames := columnNames;
      this.directionNames := directionNames;
    }

    /** `find_normal`: counts the files whose sheet has no direction column; a workbook that
        cannot be read ends the count. */
    method FindNormal(book: string -> Option<Sheet>) returns (normalCount: Option<nat>)
      ensures normalCount == NormalCount(fileNames, book)
    {
      var count := 0;
      for n := 0 to |fileNames|
        invariant NormalCount(fileNames[..n], book) == Some(count)
      {
        assert fileNames[..n + 1][..n] == fileNames[..n];
        var data := book(fileNames[n]);
        if data.None? {
          NormalCountMeaning(fileNames, book);
          return None;
        }
        var directionsFound, _ := ScanForDirection(data.value.header);
        if !directionsFound {
          count := count + 1;
        }
      }
      assert fileNames[..|fileNames|] == fileNames;
      normalCount := Some(count);
    }
  }

  /** `ColumnNames(start_year, end_year)`: lists the files, collects the row labels (skipping
      files that raise), then the direction names, which let any failure through. */
  method NewColumnNames(startYear: int, endYear: int, walk: string -> seq<WalkEntry>, book: string -> Option<Sheet>)
    returns (r: Option<ColumnNames>)
    ensures var files := TreePaths(Locations(startYear, endYear), walk);
      && (r.Some? <==> DirectionNamesOf(files, book).Some?)
      && (r.Some? ==> fresh(r.value) && r.value.fileNames == files && r.value.columnNames == ColumnNamesOf(files, book)
                      && r.value.directionNames == DirectionNamesOf(files, book).value)
  {
    var fileNames := DfsWrapper(startYear, endYear, walk);
    var columnNames := GetColumnNames(fileNames, book);
    var directionNames := GetDirectionNames(fileNames, book);
    if directionNames.None? {
      return None;
    }
    var survey := new ColumnNames(fileNames, columnNames, directionNames.value);
    r := Some(survey);
  }

  /** `get_direction_names`: the union of every file's names; a file that raises ends it. */
  method GetDirectionNames(files: seq<string>, book: string -> Option<Sheet>) returns (r: Option<seq<string>>)
    ensures r == DirectionNamesOf(files, book)
  {
    var distinctNames := [];
    for i := 0 to |files|
      invariant DirectionNamesOf(files[..i], book) == Some(distinctNames)
    {
      assert files[..i + 1][..i] == files[..i];
      var names := ExtractDirectionNames(files[i], book);
      if names.None? {
        DirectionNamesMeaning(files, book);
        return None;
      }
      distinctNames := AddNew(distinctNames, names.value);
    }
    assert files[..|files|] == files;
    r := Some(distinctNames);
  }
}
