# Traffic-study scrapers and aggregators — a Dafny model

This project models the logic inside the Python scripts that collect and aggregate
traffic-count studies from the Miovision DataLink portal. The browser, HTTP, cloud and
spreadsheet libraries those scripts call are not modelled. Wherever the code reads from one
of them, the model takes the result as a parameter: a function from a link to a page's
rendered texts, from a URL to a response, or from a path to a worksheet.

The model covers:

- **Study listing** (`StudyListing`, `MiovisionInfo`, `ScrapeUrls`, `ScrapeDirections`).
  - The month windows of a year range: 12 per year, with December ending on the 1st of
    January of the next year.
  - The listing link for one window.
  - Reading the `"<n> Studies"` counter.
  - Cleaning cell texts, in one of three ways depending on the script:
    - into `(type, id)` pairs, cut after the last `m`/`h`, then split on `#`;
    - into study ids, with spaces stripped and the text after the last `#` kept;
    - into de-duplicated study URLs.
  - The check of the extracted number against the counter.
  - The loop over windows, which skips any window whose retrieval raised.
  - The URL upload payload, one byte line per URL.
  - The screenshot pass: `./<folder>/<id>.png`, skipped when the page landed on "404".
- **Report downloads** (`ReportDownloads`).
  - The five interval labels and their lengths in seconds.
  - The request URL and the target file name `<folder>/<type>-<id>.xlsx`.
  - The per-study loop. A file is written only for a 200 answer, and a failure does not stop
    the later studies.
  - The folder is a `Disk` object whose `entries` map is updated in place.
- **Command-line validation** (`BaseScrapingCli`): both years are digit strings, the end year
  is not earlier, and the session path contains `.json`.
- **Existing-file validation** (`ExistingFileValidation`): a listing of a directory's children
  taken once at construction, then membership queries.
- **Workbook survey** (`GatherNames`).
  - Duplicate detection.
  - The direction-column scan and the count of files without a direction column.
  - The "Leg" labels at even offsets below the first `% Total` row, kept in first-seen order.
  - The direction names of each file's first row, and their union.
  - The per-year file walk.
- **Location matching and aggregation** (`AggregateNc`).
  - Jaccard scores between the study name's words and each candidate location's lower-cased
    words.
  - The first maximum picks the candidate, and its coordinates are returned.
  - Each study file's name is read from column 4 of its `Street:` row.
  - The folder aggregator drops the location table from the collected paths and builds one
    record per remaining path.

Shared modules:

- `Text` holds the Python string operations the scripts use: `split` on characters,
  `re.split` on a character class, `split` on a word, `strip`, `in`, `isdigit`, `int`,
  `str`, ASCII `lower` and UTF-8 `encode`.
- `Sequences` holds insertion-ordered de-duplication and `list.index`.
- `LocalDisk` is the file system, as a map from path strings to entries.

Two behaviours of the aggregation code are worth knowing:

- `aggregate_black_cat_files` rescans every collected path after each directory and keeps
  overwriting the match, so the *last* path containing the location file name is the one
  removed (`AggregateNc.LastMatch` and `AggregateNc.Aggregated`).
- The study name's words keep their capitals, while the candidate names are lower-cased.
  So "Main Street North" scores 0 against both "main street north plaza" and "elm avenue",
  and row 0 wins only by the tie rule (`AggregateNc.MainStreetExample`).

Scores are Dafny `real`s, which are exact rationals, so the comparisons have no rounding.
Latitude and longitude are carried through unchanged.

## Model

| member | source | states |
|---|---|---|
| Text.Split | Playwright-Scraping/miovision_info_provider.py:105-107 | `s.split(c)`, or `re.split('[...]', s)` for a character class: the pieces between separators, and always at least one piece. |
| Text.SplitJoin | Playwright-Scraping/scrape_urls.py:167 | Joining the pieces of `s.split(c)` with `c` gives back `s`. |
| Text.SplitPieces | Playwright-Scraping/miovision_info_provider.py:105-107 | No piece of a split contains a separator, and every character of a piece comes from the input. |
| Text.LastPieceIsSuffix | Playwright-Scraping/scrape_urls.py:167 | `split(...)[-1]` is the suffix after the last separator, or the whole string when there is no separator. |
| Text.FirstPieceIsPrefix | Playwright-Scraping/miovision_info_provider.py:107 | `split(...)[0]` is the prefix before the first separator. |
| Text.SplitAtSeparator | Playwright-Scraping/miovision_info_provider.py:105 | Splitting at a separator character splits the two sides independently. |
| Text.SplitWithoutSeparators | Playwright-Scraping/miovision_info_provider.py:105-106 | A string with no separator splits into just itself. |
| Text.BeforeWord | Playwright-Scraping/miovision_info_provider.py:96 | `s.split(word)[0]` is a prefix of `s`, ends where `word` first occurs or at the end, and contains no occurrence before that. |
| Text.ContainsAt | Playwright-Scraping/base_scraping_cli.py:24 | `sub in s` holds exactly when `sub` occurs at some position of `s`. |
| Text.ContainsInside | Playwright-Scraping/scrape_directions.py:316 | Text added on either side of a string that contains a word keeps the word contained. |
| Text.StripLeftShape | Playwright-Scraping/scrape_urls.py:166 | `lstrip` removes only a prefix made of the given characters, and the result does not start with one. |
| Text.StripRightShape | Playwright-Scraping/scrape_urls.py:166 | `rstrip` removes only a suffix made of the given characters, and the result does not end with one. |
| Text.Strip | Playwright-Scraping/scrape_urls.py:166 | `strip(chars)` is `lstrip(chars)` followed by `rstrip(chars)`, each of which the two lemmas above pin down. |
| Text.LeadingZeros | Playwright-Scraping/base_scraping_cli.py:21 | Zeros in front of a digit string leave its value unchanged. |
| Text.NatToString | Playwright-Scraping/report_downloads_provider.py:68 | `str(n)` is a digit string whose value is `n`, and it has no leading zero unless `n` is 0. |
| Text.ParseInt | Playwright-Scraping/miovision_info_provider.py:96 | `int(s)`: surrounding whitespace is dropped, then an optional sign and ASCII digits give the value, and any other text fails. |
| Text.ParseIntOfIntToString | Playwright-Scraping/miovision_info_provider.py:96 | `int` reads back what `str` writes, with trailing whitespace allowed. |
| Text.Lower | aggregate_nc.py:33 | `lower()` keeps the length, leaves no upper-case letter, shifts each upper-case letter by 32 and keeps every other character. |
| Text.Encode | Playwright-Scraping/scrape_urls.py:239 | The UTF-8 bytes of a string without a newline contain no newline byte. |
| Sequences.AddNew | Playwright-Scraping/gather_names.py:62-65 | Inserting into an insertion-ordered dictionary keeps the old keys as a prefix. The new keys are the old ones plus the items, and a duplicate-free key list stays duplicate-free. |
| Sequences.Dedup | Playwright-Scraping/scrape_urls.py:162-168 | The distinct items contain no repeat and hold exactly the items of the input. |
| Sequences.ElementsCount | Playwright-Scraping/scrape_urls.py:170 | A sequence has no repeat exactly when its number of distinct elements equals its length. |
| Sequences.DedupShortensRepeats | Playwright-Scraping/scrape_urls.py:168-170 | De-duplicating shortens a sequence exactly when the sequence repeats an entry. |
| Sequences.MapAt | Playwright-Scraping/scrape_directions.py:153-157 | A list comprehension gives one image per entry, the `k`-th from the `k`-th entry. |
| Sequences.AddNewAppend | Playwright-Scraping/gather_names.py:81-83 | Adding two batches of items one after the other is the same as adding both at once. |
| Sequences.FirstIndex | aggregate_nc.py:38 | `xs.index(x)` is absent exactly when `x` is not in `xs`. Otherwise it is a position holding `x` with no earlier position holding `x`. |
| StudyListing.StartDate | Playwright-Scraping/miovision_info_provider.py:133 | `f'{year}-{i}-01'`, with the month not zero-padded. |
| StudyListing.EndDate | Playwright-Scraping/miovision_info_provider.py:134-137 | The first of the next month, and `{year + 1}-01-01` for December. |
| StudyListing.Windows | Playwright-Scraping/miovision_info_provider.py:131-137 | Months 1 to 12 of every year from the start year to the end year, in visiting order. |
| StudyListing.ListingLink | Playwright-Scraping/miovision_info_provider.py:90 | `base_url + f'studies/?end_date={end_date}&start_date={start_date}&state=Published'`. |
| StudyListing.ParseStudyCount | Playwright-Scraping/miovision_info_provider.py:95-96 | `int(text.split("Studies")[0])`, failing when the text before "Studies" is not an integer. |
| StudyListing.WindowsAt | Playwright-Scraping/miovision_info_provider.py:131-137 | There are 12 windows per year from the start year to the end year, none when start > end, and window `k` is month `k % 12 + 1` of year `start + k / 12`. |
| StudyListing.StudyCountOfRenderedText | Playwright-Scraping/miovision_info_provider.py:95-96 | A counter rendered as `"<n> Studies"` reads back as `n`. |
| StudyListing.CleanId | Playwright-Scraping/scrape_directions.py:155-156 | `text.strip(' ').split("#")[-1]`: only spaces are stripped, and only before the split. |
| StudyListing.CleanIdShape | Playwright-Scraping/scrape_directions.py:155-156 | A cleaned id contains no `#` and is a suffix of the space-stripped cell text. |
| StudyListing.CleanIdOfRenderedCell | Playwright-Scraping/scrape_urls.py:166-167 | A cell `<prefix>#<id>` whose id has no `#` and no trailing space cleans to that id. |
| StudyListing.Gathered | Playwright-Scraping/scrape_urls.py:205-229 | The per-window loop's result: each window's items in window order, and nothing for a window whose retrieval raised. |
| StudyListing.GatheredAppend | Playwright-Scraping/scrape_urls.py:205-229 | Collecting two runs of windows gives one run's items followed by the other's. |
| StudyListing.FailedWindowContributesNothing | Playwright-Scraping/scrape_urls.py:214-227 | A window whose retrieval raised adds nothing, and the windows around it are still collected in order. |
| StudyListing.CollectOverWindows | Playwright-Scraping/scrape_directions.py:194-219 | The year loop collects, in window order, the items of every window that did not raise. |
| StudyListing.CollectYear | Playwright-Scraping/scrape_directions.py:197-217 | The month loop collects the items of months 1 to 12 of one year, skipping a month that raised. |
| MiovisionInfo.CleanStudyTypeId | Playwright-Scraping/miovision_info_provider.py:105-107 | The type is the stripped text before the first `#` of the segment after the last `m` or `h`, and the id is the stripped text after the segment's last `#`. |
| MiovisionInfo.CleanedFieldsAreBare | Playwright-Scraping/miovision_info_provider.py:105-107 | Neither field of a cleaned pair contains `#`, `m`, `h`, or leading or trailing whitespace. |
| MiovisionInfo.StripKeepsCharacters | Playwright-Scraping/miovision_info_provider.py:106-107 | `strip` only removes characters: everything it keeps comes from the input. |
| MiovisionInfo.CleanRenderedCell | Playwright-Scraping/miovision_info_provider.py:101-107 | A cell `<duration>m<blank><type>#<id><blank>` cleans to `(type, id)`, whatever duration text comes before. |
| MiovisionInfo.CleanStudyTypeIdExample | Playwright-Scraping/miovision_info_provider.py:101-102 | `"24 h 30 m ATR#1226458 "` cleans to `("ATR", "1226458")`. |
| MiovisionInfo.RetrievedTypesIds | Playwright-Scraping/miovision_info_provider.py:87-113 | What `retrieve_study_type_id` returns, or `None` where it raises: the date check, the listing link, one cleaned pair per cell, and the count check. |
| MiovisionInfo.RetrievedTypesIdsMeaning | Playwright-Scraping/miovision_info_provider.py:87-111 | A date that fails the check fails before navigation. Pairs come back exactly when the page at the listing link loads and its counter equals the number of cells. There is then one pair per cell, in order, with duplicates kept. |
| MiovisionInfo.MiovisionInfoProvider.RetrieveStudyTypeId | Playwright-Scraping/miovision_info_provider.py:87-113 | `retrieve_study_type_id` returns exactly `RetrievedTypesIds`. |
| MiovisionInfo.MiovisionInfoProvider.CleanCells | Playwright-Scraping/miovision_info_provider.py:104-109 | The loop appends one cleaned pair per cell text, in order. |
| MiovisionInfo.MiovisionInfoProvider.GetMiovisionStudyTypesIds | Playwright-Scraping/miovision_info_provider.py:131-155 | The pairs of every month window of the configured years, in order, with windows that raised skipped. |
| ScrapeUrls.RetrievedUrls | Playwright-Scraping/scrape_urls.py:149-172 | What `retrieve_urls` returns, or `None` where it raises: the date check, the listing link, the de-duplicated study URLs, and the count check against their number. |
| ScrapeUrls.UrlsOfCells | Playwright-Scraping/scrape_urls.py:164-168 | The collected URLs are exactly the set of the cells' study URLs, and their number is the size of that set. |
| ScrapeUrls.RetrievedUrlsMeaning | Playwright-Scraping/scrape_urls.py:149-172 | A date that fails the check fails. URLs come back exactly when the page loads and its counter equals the number of distinct study URLs. They are then free of repeats and are exactly the cells' URLs. |
| ScrapeUrls.RepeatedIdFails | Playwright-Scraping/scrape_urls.py:158-170 | Two cells with the same id, on a page whose counter counts its cells, make the call fail. |
| ScrapeUrls.RetrieveUrls | Playwright-Scraping/scrape_urls.py:149-172 | `retrieve_urls` returns exactly `RetrievedUrls`. |
| ScrapeUrls.CollectUrls | Playwright-Scraping/scrape_urls.py:162-168 | The set built in the loop is the first-seen de-duplication of the cells' URLs. |
| ScrapeUrls.ScrapeMiovisionUrls | Playwright-Scraping/scrape_urls.py:205-229 | The URLs of every month window over the year range, in order, with windows that raised skipped. |
| ScrapeUrls.Payload | Playwright-Scraping/scrape_urls.py:238-239 | The bytes written by `writelines([url.encode() + b'\n' for url in urls])`. |
| ScrapeUrls.PayloadSnoc | Playwright-Scraping/scrape_urls.py:239 | One more URL adds its bytes and a newline at the end of the payload. |
| ScrapeUrls.UrlsPayload | Playwright-Scraping/scrape_urls.py:238-239 | The stream holds every URL's bytes followed by `\n`, in list order. |
| ScrapeUrls.LineEnd | Playwright-Scraping/scrape_urls.py:239 | The first line of a byte string ends at its first newline byte, or at the end. |
| ScrapeUrls.PayloadLines | Playwright-Scraping/scrape_urls.py:238-240 | Read back line by line, the payload gives each URL's bytes in order, assuming no URL contains a newline. |
| ScrapeDirections.RetrievedIds | Playwright-Scraping/scrape_directions.py:141-160 | What `retrieve_ids` returns, or `None` where it raises: the date check, the listing link, then one cleaned id per cell. |
| ScrapeDirections.RetrievedIdsMeaning | Playwright-Scraping/scrape_directions.py:141-160 | A date that fails the check fails. Otherwise ids come back exactly when the page at the listing link loads, one id per cell in order, with duplicates kept and no count check. |
| ScrapeDirections.RetrieveIds | Playwright-Scraping/scrape_directions.py:141-160 | `retrieve_ids` returns exactly `RetrievedIds`. |
| ScrapeDirections.CollectIds | Playwright-Scraping/scrape_directions.py:153-157 | The loop appends one cleaned id per cell, in order. |
| ScrapeDirections.ScrapeMiovisionIds | Playwright-Scraping/scrape_directions.py:194-219 | The ids of every month window over the year range, in order, with windows that raised skipped. |
| ScrapeDirections.ImagePath | Playwright-Scraping/scrape_directions.py:303-309 | `f'./{folder}/{id}.png'`. |
| ScrapeDirections.ImagePathInjective | Playwright-Scraping/scrape_directions.py:309 | Different ids never share an image path. |
| ScrapeDirections.Shots | Playwright-Scraping/scrape_directions.py:308-322 | The disk after the screenshot loop: for each id in turn, its image path is written with the capture unless the landing URL contains "404". |
| ScrapeDirections.ShotsLeaveOtherPaths | Playwright-Scraping/scrape_directions.py:308-322 | The screenshot loop changes no path other than image paths. |
| ScrapeDirections.ShotsOfId | Playwright-Scraping/scrape_directions.py:309-322 | An id whose page did not land on "404" has its screenshot at `./<folder>/<id>.png`. An id that landed on "404" leaves that path as it was. |
| ScrapeDirections.ShotsOfAbsent | Playwright-Scraping/scrape_directions.py:316 | Visits that are never captured, or that belong to other ids, leave an uncaptured id's image path alone. |
| ScrapeDirections.ScrapeMiovisionScreenshots | Playwright-Scraping/scrape_directions.py:303-322 | The folder is created when absent, then every id's page is visited in order and its screenshot written unless the page landed on "404". |
| ReportDownloads.MakeConfig | Playwright-Scraping/report_downloads_provider.py:21-39 | A label outside the mapping raises a `ValueError` that lists the five accepted labels in the mapping's order. A known label stores the auth file, the folder and the label's length in seconds. |
| ReportDownloads.MappingEntries | Playwright-Scraping/report_downloads_provider.py:21-30 | The mapping sends the five labels to 60, 300, 600, 1800 and 3600 seconds, and the labels an error lists are exactly its keys. |
| ReportDownloads.ReportUrl | Playwright-Scraping/report_downloads_provider.py:64-68 | The URL template at line 64 with the study id and `str(seconds)` filled in. |
| ReportDownloads.ReportUrlParts | Playwright-Scraping/report_downloads_provider.py:64-68 | The request URL contains the study id and the bin size in seconds, and both can be read back from it. |
| ReportDownloads.TargetPath | Playwright-Scraping/report_downloads_provider.py:73 | `f'{BASE_FOLDER_PATH}/{study_type}-{study_id}.xlsx'`. |
| ReportDownloads.Downloaded | Playwright-Scraping/report_downloads_provider.py:66-77 | The disk after the download loop: for each study in turn, its target is written with the response content when the request answers 200, and left alone otherwise. |
| ReportDownloads.DownloadedLeavesOtherPaths | Playwright-Scraping/report_downloads_provider.py:66-77 | The download loop writes only target files, and every other path keeps its presence and contents. |
| ReportDownloads.DownloadedOfStudy | Playwright-Scraping/report_downloads_provider.py:66-77 | A study with its own target path gets the response content when the answer is 200. A failed or non-200 request leaves the path as it was, whatever the other studies do. |
| ReportDownloads.DownloadsProvider.DownloadFiles | Playwright-Scraping/report_downloads_provider.py:41-77 | The folder is created when absent. Every study is requested once, in order, with its own URL, and the disk ends as `Downloaded`. |
| ReportDownloads.NewDownloadsProvider | Playwright-Scraping/report_downloads_provider.py:20-39 | Construction fails exactly for an unknown label, with the error listing the accepted labels. Otherwise the provider keeps the study list and the validated configuration. |
| BaseScrapingCli.PostInit | Playwright-Scraping/base_scraping_cli.py:17-25 | `__post_init__`: the digit test on both years, then the order of their values, then the `.json` test, with the first failing check reported. |
| BaseScrapingCli.IntOfDigits | Playwright-Scraping/base_scraping_cli.py:18-21 | `int` never fails on a string that `isdigit` accepted, and reads its decimal value. |
| BaseScrapingCli.PostInitMeaning | Playwright-Scraping/base_scraping_cli.py:17-25 | The arguments are accepted exactly when both years are digit strings with end ≥ start and `.json` occurs somewhere in the path. Each rejection names the first check that failed, and an empty year is rejected as not digits. |
| BaseScrapingCli.LeadingZerosIgnored | Playwright-Scraping/base_scraping_cli.py:21 | Zeros in front of either non-empty year change no verdict. |
| BaseScrapingCli.EqualYearsAccepted | Playwright-Scraping/base_scraping_cli.py:21-22 | Equal years are accepted when the path contains `.json`. |
| BaseScrapingCli.JsonAnywhere | Playwright-Scraping/base_scraping_cli.py:24-25 | The path test is a substring test: `.json` anywhere is accepted, and a path without it is rejected. |
| ExistingFileValidation.Snapshot | Playwright-Scraping/existing_file_validation.py:9-16 | A missing base path raises "does not exist", and a non-directory raises "not a directory". Otherwise the listing is exactly the base directory's direct children. |
| ExistingFileValidation.SnapshotExcludesBase | Playwright-Scraping/existing_file_validation.py:16 | The listing never contains the directory itself, and every entry lies under it. |
| ExistingFileValidation.SnapshotMissesLaterWrites | Playwright-Scraping/existing_file_validation.py:16-19 | A child written after construction is missing from the stored listing, although a fresh listing would contain it. |
| ExistingFileValidation.NewLocalStorageExistingFileValidator | Playwright-Scraping/existing_file_validation.py:9-16 | The constructor fails exactly as `Snapshot` does, and otherwise stores `Snapshot`'s listing. |
| ExistingFileValidation.LocalStorageExistingFileValidator.IsExistingFile | Playwright-Scraping/existing_file_validation.py:18-19 | `str(file_path) in self.contained_files`: a membership test against the stored listing. |
| ExistingFileValidation.IsExistingFileOfSnapshot | Playwright-Scraping/existing_file_validation.py:9-19 | A validator built on a directory answers true exactly for the direct children present at construction, and false for the directory itself. |
| LocalDisk.ChildrenOf | Playwright-Scraping/existing_file_validation.py:16 | `iterdir` gives exactly the present paths that are direct children of the base. |
| LocalDisk.WithFolder | Playwright-Scraping/report_downloads_provider.py:42-43 | `mkdir` when absent adds the folder as a directory and keeps every existing entry. |
| LocalDisk.Disk.MakeDirectory | Playwright-Scraping/report_downloads_provider.py:42-43 | `os.mkdir` on an absent path adds it as a directory and changes no other entry. |
| LocalDisk.Disk.WriteFile | Playwright-Scraping/report_downloads_provider.py:73-74 | `open(p, mode='wb').write(content)` creates or overwrites `p` with `content` and changes no other entry. |
| GatherNames.CheckDuplicates | Playwright-Scraping/gather_names.py:98-109 | The result is true exactly when some value occurs at two positions. |
| GatherNames.ScanForDirection | Playwright-Scraping/gather_names.py:29-37 | Finds a direction exactly when some column is one, and stops right after the first such column. |
| GatherNames.NormalCount | Playwright-Scraping/gather_names.py:11-42 | What `find_normal` returns, or `None` where a workbook fails to read: files without a direction column, counted one by one. |
| GatherNames.NormalCountMeaning | Playwright-Scraping/gather_names.py:24-42 | The count exists exactly when every workbook reads. It is then the number of files with no North/East/West/South column, at most the number of files. |
| GatherNames.ColumnNames.FindNormal | Playwright-Scraping/gather_names.py:11-42 | `find_normal` returns the count of `NormalCount`, or fails where a workbook fails to read. |
| GatherNames.EvenOffsetsAt | Playwright-Scraping/gather_names.py:59-61 | The entries at even offsets number ⌈n/2⌉, and the `j`-th is entry `2j`. |
| GatherNames.Labels | Playwright-Scraping/gather_names.py:52-61 | The labels `extract_names` inserts from one sheet: the "Leg" cells at even offsets below the first "% Total" row, or `None` where the selection raises. |
| GatherNames.LabelsFail | Playwright-Scraping/gather_names.py:53-55 | A sheet without a "Leg" column fails, and one with such a column fails exactly when the column has no "% Total" row. |
| GatherNames.LabelsOfRows | Playwright-Scraping/gather_names.py:55-61 | Below the first "% Total" row `t`, the labels are the "Leg" cells of rows `t+1`, `t+3`, … and there are `(rows - t) / 2` of them. |
| GatherNames.AddNewOne | Playwright-Scraping/gather_names.py:62-65 | Inserting one label adds it at the end unless it is already a key. |
| GatherNames.NamesAfter | Playwright-Scraping/gather_names.py:50-65 | The dictionary keys after `extract_names`: the file's labels added in order, or `None` where the file raises. |
| GatherNames.ExtractNames | Playwright-Scraping/gather_names.py:50-65 | `extract_names` leaves the keys as `NamesAfter`: the labels are added in order, existing keys are left alone, and a file that raises leaves the keys unchanged. |
| GatherNames.InsertLabels | Playwright-Scraping/gather_names.py:59-65 | The loop inserts the cell at each even offset unless it is already a key. |
| GatherNames.ColumnNamesGrow | Playwright-Scraping/gather_names.py:87-96 | A further file only appends keys, and a file that raises changes nothing. |
| GatherNames.ColumnNamesOf | Playwright-Scraping/gather_names.py:87-96 | The keys `get_column_names` returns: each file's labels inserted in turn, with a file that raises skipped. |
| GatherNames.AllLabelsAt | Playwright-Scraping/gather_names.py:87-96 | A label is collected exactly when some readable file carries it. |
| GatherNames.ColumnNamesMeaning | Playwright-Scraping/gather_names.py:87-96 | The keys have no repeat and are exactly the labels of the files that read. |
| GatherNames.GetColumnNames | Playwright-Scraping/gather_names.py:87-96 | `get_column_names` returns `ColumnNamesOf`, skipping files that raise. |
| GatherNames.KeptDirectionsAppend | Playwright-Scraping/gather_names.py:72-75 | Filtering works cell by cell and keeps the order. |
| GatherNames.KeptDirectionsMeaning | Playwright-Scraping/gather_names.py:72-75 | Every kept name is the text of some cell other than "Start Time", and the text of every such cell is kept. |
| GatherNames.DirectionNamesOfFile | Playwright-Scraping/gather_names.py:67-77 | What `extract_direction_names` returns: the kept cells of the first row, or `None` when reading raises or the sheet has no data row. |
| GatherNames.ExtractDirectionNames | Playwright-Scraping/gather_names.py:67-77 | `extract_direction_names` returns the first row's kept names in column order, or fails where reading raises. |
| GatherNames.DirectionNamesOf | Playwright-Scraping/gather_names.py:79-85 | What `get_direction_names` returns: the union of every file's names in first-seen order, or `None` where a file raises. |
| GatherNames.AllDirectionNamesAt | Playwright-Scraping/gather_names.py:79-85 | A name is in the union exactly when some file lists it. |
| GatherNames.DirectionNamesMeaning | Playwright-Scraping/gather_names.py:79-85 | The union exists exactly when every file yields names. It then has no repeat and holds exactly the names of all files. |
| GatherNames.GetDirectionNames | Playwright-Scraping/gather_names.py:79-85 | `get_direction_names` returns `DirectionNamesOf`, and a file that raises ends it. |
| GatherNames.LocationsAt | Playwright-Scraping/gather_names.py:112-113 | One root `./Miovision/<year>` per year from start to end inclusive, in order. |
| GatherNames.WalkPathsAt | Playwright-Scraping/gather_names.py:117-119 | A walk lists exactly the paths `root/file` of its triples, with backslashes in the root turned into slashes. |
| GatherNames.TreePathsAt | Playwright-Scraping/gather_names.py:116-119 | The listed paths are exactly those of the walk of some year's root. |
| GatherNames.DfsWrapper | Playwright-Scraping/gather_names.py:111-122 | `dfs_wrapper` returns the paths of every year's walk, year after year. |
| GatherNames.ListWalk | Playwright-Scraping/gather_names.py:117-119 | The inner loop over one walk returns `WalkPaths`: the paths of its triples, one triple after another. |
| GatherNames.NewColumnNames | Playwright-Scraping/gather_names.py:6-9 | Construction succeeds exactly when every file yields its direction names. The object then holds the walked files, their row labels and their direction names. |
| AggregateNc.ReturnLatLong | aggregate_nc.py:8-40 | An empty table raises (`None`); otherwise the result is the coordinates of one of the table's rows, the row `ChosenIndex` picks. |
| AggregateNc.ChosenIndex | aggregate_nc.py:36-38 | `jaccard_scores.index(max(jaccard_scores))`, a position of the table. |
| AggregateNc.Max | aggregate_nc.py:37 | `max` of a non-empty list is one of its entries and is at least every entry. |
| AggregateNc.ChosenIsFirstMaximum | aggregate_nc.py:36-40 | An empty table gives no answer. Otherwise the chosen row scores at least as high as every row and strictly higher than every earlier row, and both coordinates come from it. |
| AggregateNc.TokensNonEmpty | aggregate_nc.py:26-33 | `split(' ')` always yields a word, so neither word set is empty and the union never is. |
| AggregateNc.ScoreBounds | aggregate_nc.py:36 | A score lies between 0 and 1, and is 1 exactly when the two word sets are equal. |
| AggregateNc.UpperCaseWordNeverMatches | aggregate_nc.py:26-33 | A study word that contains an upper-case letter matches no candidate word. |
| AggregateNc.NoSharedWord | aggregate_nc.py:26-36 | A study name whose every word has a capital shares no word with any candidate. |
| AggregateNc.ZeroScore | aggregate_nc.py:36 | Such a study name scores 0 against every candidate. |
| AggregateNc.CapitalisedNameTiesAtZero | aggregate_nc.py:36-38 | For such a study name every score is 0, and the tie rule picks row 0. |
| AggregateNc.AllZero | aggregate_nc.py:37-38 | When all scores are 0, the index of the maximum is 0. |
| AggregateNc.MainStreetExample | aggregate_nc.py:26-40 | "Main Street North" against "main street north plaza" and "elm avenue" scores 0 against both, and the first row's coordinates are returned. |
| AggregateNc.ThreeWords | aggregate_nc.py:26 | Three space-free words joined by single spaces split back into those three words. |
| AggregateNc.StudyName | aggregate_nc.py:63-68 | A found name is column 4 of the first row whose column 1 reads "Street:", in a sheet of at least five columns. A sheet without such a row gives no name. |
| AggregateNc.ScrapeInformation | aggregate_nc.py:43-78 | `scrape_information_per_file`: both workbooks are read, the study name is found, and the coordinates of its best match are attached. |
| AggregateNc.ScrapeInformationMeaning | aggregate_nc.py:43-78 | A record comes back exactly when both workbooks read, the study name is found and the table is non-empty. It carries that name and the coordinates of the row chosen for it. |
| AggregateNc.ScrapeNeverMissesTable | aggregate_nc.py:43-78 | A single study file never reports that the location table is missing. |
| AggregateNc.AddressIn | aggregate_nc.py:103 | `dirpath + filename`, joined with no separator, as written. |
| AggregateNc.LastMatch | aggregate_nc.py:106-112 | There is no match exactly when no address contains the name. Otherwise the match is an address containing it, with no later one containing it. |
| AggregateNc.WithoutIndex | aggregate_nc.py:115 | `pop(i)` removes exactly entry `i` and keeps the order of the others. |
| AggregateNc.Records | aggregate_nc.py:117-120 | The records of the paths in order, ending at the first path that raises. |
| AggregateNc.RecordsMeaning | aggregate_nc.py:117-120 | The run succeeds exactly when every path does, with one record per path and the `k`-th from the `k`-th path. Otherwise it fails with the error of the first failing path. |
| AggregateNc.Aggregated | aggregate_nc.py:98-122 | What `aggregate_black_cat_files` returns: the last collected address containing the location name is the table, it is removed, and every other address gives a record against it. |
| AggregateNc.AggregatedNeedsTable | aggregate_nc.py:111-112 | The aggregator fails with "geocode file not found" exactly when no collected address contains the location file name. |
| AggregateNc.AggregatedRecords | aggregate_nc.py:115-122 | A successful run has one record for each address other than the table's, in order, each matched against the table. |
| AggregateNc.AggregateBlackCatFiles | aggregate_nc.py:98-122 | `aggregate_black_cat_files` returns exactly `Aggregated`: the last matching address is the table, it is removed, and the others give records. |
| AggregateNc.ListAddresses | aggregate_nc.py:98-109 | The walk loop collects every address, root after root. It ends with the index and address of the last address containing the table's name, or index `-1` when none does. |
| AggregateNc.ScanForLocation | aggregate_nc.py:106-109 | The scan ends with the index and address of the last match, or keeps the previous values when nothing matches. |
| AggregateNc.CollectRecords | aggregate_nc.py:119-120 | The loop gives `Records` over the paths, and the first failure ends it. |
| AggregateNc.RecordsFailureStays | aggregate_nc.py:119-120 | Once a prefix of the paths fails, the whole run fails with the same error. |

## Left out

- Browser automation is left out. Navigation, locators, waits, timeouts, clicks and the
  screenshot image itself are parameters (`navigate`, `landing`, `capture`), and the
  authentication provider is not part of this model.
- `delete_sound_green_labels` (BeautifulSoup rewriting through a temporary file) is left out
  because it is a library call plus file I/O. The screenshot pass records only which image
  is written where.
- For the HTTP download, the header and cookie block is left out and `requests.get` is the
  parameter `fetch`.
- The read of the auth JSON in `download_files` (report_downloads_provider.py:45-47) is left
  out, because it is file I/O before the loop. Its failure would abort `download_files`.
- The cloud bucket and blob calls are left out; only the payload bytes are modelled.
- Logging and the `print` calls are left out because they are side effects only.
- `check_date_pattern` (`datetime.strptime`) is the abstract predicate `validDate`.
- The dotenv and configuration-dataclass assembly and `configure_parser` are left out
  because they are configuration plumbing.
- `isdigit` and `lower` are modelled on ASCII only. Python's `isdigit` also accepts other
  Unicode digits, and `lower` folds non-ASCII letters.
- `int` is modelled without the underscores between digits that Python accepts.
- Python sets (`retrieve_urls`, `get_direction_names`) have no defined iteration order. The
  model fixes the first-seen order, and its contracts speak about contents, not order.
- The scores are floats in Python and exact rationals (`real`) here.
- `return_lat_long` selects the row with `.loc[index]` by label. The model assumes the
  default range index, so the label is the position.
- A NaN cell is the single value `Missing`. Every spreadsheet cell is text or missing;
  numbers and dates in cells are not distinguished from text.
- Duplicate column names in a sheet are not modelled: "Leg" selects the first such column.
- `extract_names` updates the caller's dictionary in place. The model returns the new key
  sequence from `ExtractNames`, and `GetColumnNames` threads it through.
- The `get_cols` and `get_directions` getters are left out because the fields they return are
  public constants of `GatherNames.ColumnNames`.
- The `__main__` block of gather_names.py (lines 123-124) is left out because it calls
  `ColumnNames()` without its required arguments, which raises a `TypeError`.
- `print` in `find_normal` is left out.
- ReportDownloads.DownloadedOfStudy: the statement needs the study's target path to differ
  from every other study's. With repeated `(type, id)` pairs, the last successful download
  wins, which `Downloaded` itself still models.
- Errors from `os.mkdir`, `open` and `write` are not modelled; writes always succeed. Paths
  are compared as written, with no `Path` normalisation of `./` or repeated slashes.
- In `scrape_miovision_screenshots`, a failure of `page.goto` or of the screenshot lies
  outside the loop's control. It is not caught in the source and is not modelled.
- AggregateNc.ScrapeInformation: the location table is read as rows with a text name, and
  `geocodes` failing stands for every error in reading it. That covers a failed `read_excel`
  (aggregate_nc.py:61), which the source raises before looking for the study name, as the
  model does. It also covers a missing `LocationName` column (line 32) and an empty name
  cell, whose `.lower()` raises at line 33. The source raises those two after the study-name
  lookup, so on a sheet that also has no study name the model reports the table's error
  where the source reports the missing name. Nothing catches either error, so only which
  exception is raised differs.
- `aggregate_black_cat_files` builds addresses as `dirpath + filename` with no separator, as
  written. The model keeps that (`AggregateNc.AddressIn`).
- The pandas `DataFrame` packaging of the records is left out; the records are kept as a
  sequence of `StudyRecord`.
- General Automations/aggregate_blackcat.py is not part of this model.
