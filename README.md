# WalkScape wiki scraper — a Dafny model

This project models the data-extraction core of a scraper for the WalkScape game wiki. It is in
two parts.

**Activity tables** (`ActivitiesDropsGet.py`):
- The link extractor picks the activities table, takes the activity links in the second cell of each
  row and drops repeated URLs, keeping the first.
- The classifier decides the kind of a table: activity info, experience info, drops or special drops.
- The row normaliser walks the cells of each data row with a cursor. It skips a leading row
  number, gives a one-cell lookahead to item and skill columns, and removes `[n]` footnote
  markers and extra whitespace. It keeps only rows with some content.
- The aggregator (`class ActivityScraper`) stamps every record with the activity name and appends
  it to one of four per-kind record sequences.

**Regions and locations** (`LocationsGet.py`):
- The script finds the "Regions" heading of the world page and collects the anchors of its section,
  with site-relative URLs made absolute.
- It removes blacklisted links, using a regex substring search, and repeated links.
- For every region page it collects the list items of the "Locations" section. It then removes
  repeated locations.

Parsed HTML is plain data:
- A table is a sequence of rows, and a row a sequence of cells. A cell has a text, its anchors and
  whether it holds an image (module `Html`).
- A page for the section walks is the flattened document-order sequence of its nodes: headings
  with their level, anchors, lists with their item texts, and anything else (module `Locations`).

Page fetches are parameters: `fetch` returns `None` where the source gets no page. Python's
`urljoin` is a parameter too (`absolute`).

Each imperative part of the source is a method with loops, or a class whose methods update its
fields. Each is proved equal to a specification function. The lemmas prove the properties of
those functions.

Modules:
- `Wrappers`: `Option` and `Result`.
- `Text`: Python's `strip`, `lower`, footnote removal and whitespace collapse on `seq<char>`.
- `Seqs`: keep-first dedup by a key, and concatenation of per-element contributions.
- `Html`: the parsed-table data.
- `Classify`: `has_max_efficiency` and `get_table_type`.
- `Normalize`: `clean_table_data` and `extract_item_name`.
- `ActivityLinks`: `extract_activity_links`.
- `Aggregate`: `extract_tables_from_activity_page` and the four accumulators.
- `Locations`: the module-level script of `LocationsGet.py`.

A row that starts with a row number is read from its second cell, one cell per header, so a
column before the item column reads whatever cell stands there. With headers `#`, `Item`,
`Quantity` and cells `1`, an image cell, `Iron Ore`, `5`, the image cell is read for `#` and gives
`""`, `Item` gets `Iron Ore` and `Quantity` gets `5`. Every header becomes a key, so the record
holds `"#": ""` (`Normalize.SampleRowRecord`, `Normalize.RowRecordShape`).

## Model

| member | source | states |
|---|---|---|
| Text.Strip | ActivitiesDropsGet.py:120 | `get_text(strip=True)` leaves no whitespace at either end and never lengthens the text |
| Text.StripSlice | ActivitiesDropsGet.py:120 | the stripped text is a contiguous slice of the input with only whitespace cut off on both sides |
| Text.StripKeepsText | ActivitiesDropsGet.py:120 | stripping removes no non-whitespace character |
| Text.StripTrimmed | LocationsGet.py:116 | stripping text that has no outer whitespace returns it unchanged |
| Text.ToLower | ActivitiesDropsGet.py:100 | `lower()` keeps the length and lower-cases each character where it stands |
| Text.ToLowerIdempotent | ActivitiesDropsGet.py:100 | lower-casing twice is lower-casing once |
| Text.ToLowerJoin | ActivitiesDropsGet.py:100 | lower-casing the space-joined headers is joining the lower-cased headers |
| Text.ContainsOccurs | ActivitiesDropsGet.py:90 | the substring test `in` holds exactly when the pattern occurs at some position |
| Text.CollapseSpaces | ActivitiesDropsGet.py:164 | `re.sub(r'\s+', ' ', …)` never lengthens the text, is empty only for empty input, leaves no two adjacent whitespace characters and only plain spaces |
| Text.CollapseKeepsText | ActivitiesDropsGet.py:164 | collapsing whitespace keeps every non-whitespace character in order |
| Text.CollapseIdempotent | ActivitiesDropsGet.py:164 | collapsing twice is collapsing once |
| Text.CollapseFixed | ActivitiesDropsGet.py:164 | text with only single plain spaces is left unchanged |
| Text.CollapseRun | ActivitiesDropsGet.py:164 | a whitespace run between non-whitespace text becomes exactly one space, and the text on either side is collapsed on its own |
| Text.DigitRun | ActivitiesDropsGet.py:163 | the run of digits at the front of a text is maximal |
| Text.MarkerLength | ActivitiesDropsGet.py:163 | a matched footnote marker is a `[`, one or more digits and a `]` |
| Text.RemoveFootnotes | ActivitiesDropsGet.py:163 | removing `[digits]` markers never lengthens the text |
| Text.RemoveFootnotesPlain | ActivitiesDropsGet.py:163 | a text without `[` is unchanged |
| Text.RemoveFootnotesPrefix | ActivitiesDropsGet.py:163 | a prefix without `[` is kept as it is in front of the cleaned rest |
| Text.RemoveFootnotesMarker | ActivitiesDropsGet.py:163 | a marker at the front is dropped whole |
| Text.UnmatchedBracketKept | ActivitiesDropsGet.py:163 | a `[` not followed by one or more digits and a `]` is kept, and the text after it is cleaned as usual |
| Text.FootnoteExamples | ActivitiesDropsGet.py:163 | `[a]` and `x[]` are kept whole, and `[[1]` loses only its marker |
| Text.CleanTextShape | ActivitiesDropsGet.py:162-164 | a regular field has no outer whitespace, no two adjacent whitespace characters, and the same non-whitespace characters as the stripped text with markers removed |
| Text.CleanTextIdempotent | ActivitiesDropsGet.py:162-164 | cleaning a cleaned field without `[` changes nothing |
| Text.TrailingFootnotesDropped | ActivitiesDropsGet.py:162-164 | a word followed by markers, with or without a space (`Widget[3]`, `Widget [12][4]`), cleans to the word |
| Text.CleanTextJoinsWords | ActivitiesDropsGet.py:162-164 | two clean words around any whitespace run clean to the words joined by one space |
| Seqs.DedupBy | ActivitiesDropsGet.py:71-77 | the dedup keeps exactly the keys of its input, each once, and is no longer than the input |
| Seqs.DedupIsFirstOccurrences | ActivitiesDropsGet.py:71-77 | the dedup is the subsequence of first occurrences of each key, in input order |
| Seqs.DedupFromInput | LocationsGet.py:64 | every kept element is the first element of the input with its key |
| Seqs.FlattenOrigin | LocationsGet.py:123-124 | everything in the concatenation comes from the contribution of one element |
| Seqs.FlattenComplete | LocationsGet.py:123-124 | every contribution of every element is in the concatenation |
| Seqs.FlattenSplit | LocationsGet.py:123-124 | the concatenation is the contributions before an element, then that element's, then those after it |
| Html.RowTextAppend | ActivitiesDropsGet.py:89 | the text of two runs of cells is the first run's text followed by the second's |
| Html.RowTextSplit | ActivitiesDropsGet.py:89 | a row's text holds each cell's text in cell order: the text of the cells before it, the cell's own text, then the text of the cells after it |
| Html.RowsTextAppend | ActivitiesDropsGet.py:46 | the text of two runs of rows is the first run's text followed by the second's |
| Html.TableTextSplit | ActivitiesDropsGet.py:46 | a table's text holds each row's text in row order |
| Html.RowHasImage | ActivitiesDropsGet.py:82-84 | the scan of a row is true exactly when some cell of the row holds an image |
| Html.RowsHaveImage | ActivitiesDropsGet.py:82-84 | the scan of the rows is true exactly when some cell of some row holds an image |
| Html.HasImages | ActivitiesDropsGet.py:82-84 | `has_images` is true exactly when some cell of the table holds an image |
| Classify.AnyRowHasMaxEfficiency | ActivitiesDropsGet.py:86-92 | true exactly when the text of some row contains "Max Efficiency:" |
| Classify.TableType | ActivitiesDropsGet.py:94-109 | activity info exactly when some row has "Max Efficiency:", whatever the headers; otherwise first match wins: "skill(s)" and "baseexp" gives experience info, else "type" gives special drops, else "item" and "quantity" gives drops, else no kind |
| Classify.TableTypeIgnoresHeaderCase | ActivitiesDropsGet.py:100-109 | the kind does not depend on the case of the headers |
| Normalize.Headers | ActivitiesDropsGet.py:117-120 | headers are non-empty and stripped, and there are no more of them than cells in the first row |
| Normalize.HeadersOfCells | ActivitiesDropsGet.py:117-120 | a text is a header exactly when it is the non-empty stripped text of some cell of the first row |
| Normalize.HeadersInCellOrder | ActivitiesDropsGet.py:117-120 | the headers are the first row's cells, in cell order, each giving its stripped text if that is non-empty and nothing otherwise |
| Normalize.Record.Set | ActivitiesDropsGet.py:142-165 | dict item assignment: the key holds the new value; a present key keeps the key order, a new key goes last; a well-formed record stays well formed |
| Normalize.FirstUsableLabel | ActivitiesDropsGet.py:180-185 | the first link whose stripped text is longer than one character, and none when no link has one |
| Normalize.ItemNameSource | ActivitiesDropsGet.py:177-189 | the item name is the cleaned first usable link text, or the cleaned cell text when no link is usable; no other cell is read |
| Normalize.ItemName | ActivitiesDropsGet.py:177-189 | an item name has no outer whitespace |
| Normalize.StartCursor | ActivitiesDropsGet.py:133-137 | reading starts at the second cell exactly when the first cell is a row number (all digits once stripped), otherwise at the first |
| Normalize.Advance | ActivitiesDropsGet.py:141-169 | an exhausted cursor stays put; otherwise it moves one cell, or two when an item or skill column looks ahead, never past the row |
| Normalize.FieldValue | ActivitiesDropsGet.py:141-167 | an exhausted cursor gives ""; a look-ahead gives the next cell's item name; another item or skill column gives the current cell's item name; a regular column gives the cleaned cell text |
| Normalize.Cursor | ActivitiesDropsGet.py:133-169 | the cursor before any header never passes the end of the row |
| Normalize.FieldValues | ActivitiesDropsGet.py:140-169 | one value per header, each read at that header's cursor |
| Normalize.RowNumberNeverRead | ActivitiesDropsGet.py:135-137 | when the first cell is all digits, no header reads it |
| Normalize.ExhaustedFieldsEmpty | ActivitiesDropsGet.py:141-143 | once the cursor reaches the end of the row, it stays there and every later header gets "" |
| Normalize.AssignKeys | ActivitiesDropsGet.py:132-165 | filling the row dict header by header gives the headers, duplicates collapsed, as keys in first-insertion order |
| Normalize.AssignLast | ActivitiesDropsGet.py:140-165 | a repeated header keeps the value of its last assignment |
| Normalize.RowRecordShape | ActivitiesDropsGet.py:132-169 | a row's record has exactly the deduplicated headers as keys, and each key holds the value read for its last header |
| Normalize.RowData | ActivitiesDropsGet.py:127-173 | a data row gives either nothing or exactly its record; it gives its record exactly when it has cells and some value is non-empty after trimming |
| Normalize.DataRecords | ActivitiesDropsGet.py:125-173 | no more records than data rows, each keyed by the headers and having some content |
| Normalize.DataRecordsOfRows | ActivitiesDropsGet.py:125-173 | the records are the data rows' contributions, concatenated in row order |
| Normalize.TableRecordsShape | ActivitiesDropsGet.py:111-175 | a table with no rows or no non-empty header gives nothing; every record has exactly the headers as keys and some content |
| Normalize.TableRecordsRows | ActivitiesDropsGet.py:111-175 | with a non-empty header row, the records are the contributions of the rows after the first, in row order, and every such row with cells and content contributes its record |
| Normalize.SampleRowRecord | ActivitiesDropsGet.py:132-169 | a numbered row with an image cell under `#` gives `#` the empty string, `Item` the item name and `Quantity` the count |
| Normalize.ReadField | ActivitiesDropsGet.py:141-169 | one header's branch of the cursor walk reads that header's field value and moves the cursor as `Advance` says |
| Normalize.NormalizeRow | ActivitiesDropsGet.py:132-169 | the cursor walk over a row builds the row's record |
| Normalize.CleanRow | ActivitiesDropsGet.py:128-173 | one data row gives exactly what `RowData` keeps for it |
| Normalize.CleanTableData | ActivitiesDropsGet.py:111-175 | `clean_table_data` gives the table's records, in row order |
| ActivityLinks.FirstTargetFrom | ActivitiesDropsGet.py:44-48 | the first table whose text contains "antique market assessor", or none when no table does |
| ActivityLinks.LinkRefsOrigin | ActivitiesDropsGet.py:59-69 | every link taken from a cell is an anchor of that cell with an href containing "/wiki/" and a stripped name longer than two characters |
| ActivityLinks.CandidateOrigin | ActivitiesDropsGet.py:54-69 | every candidate comes from the second cell of a row with at least two cells |
| ActivityLinks.LinkRefsComplete | ActivitiesDropsGet.py:59-69 | every activity link of a cell is taken, with its stripped text and resolved URL |
| ActivityLinks.CandidateComplete | ActivitiesDropsGet.py:54-69 | every activity link in the second cell of every row with at least two cells is a candidate |
| ActivityLinks.ActivityLinksSound | ActivitiesDropsGet.py:34-80 | the URLs are pairwise distinct; with no activities table the result is empty; every entry is an activity link of the second cell of a row of the first activities table |
| ActivityLinks.ActivityLinksComplete | ActivitiesDropsGet.py:34-80 | the URL of every activity link in the second cell of a row of the first activities table is among the extracted URLs |
| ActivityLinks.ExtractActivityLinks | ActivitiesDropsGet.py:34-80 | the loops compute the specified link list |
| ActivityLinks.CollectActivityLinks | ActivitiesDropsGet.py:54-69 | the row loop collects the candidates of all rows in order |
| ActivityLinks.SecondCellLinks | ActivitiesDropsGet.py:59-69 | the link loop collects the activity links of one cell in order |
| ActivityLinks.DropRepeatedUrls | ActivitiesDropsGet.py:71-77 | the `seen_urls` loop is the keep-first dedup by URL |
| Aggregate.Stamp | ActivitiesDropsGet.py:220-221 | each record keeps its position and gets the activity name under `Activity`, overwriting any such column; no other field changes; a record without an `Activity` column gets it as its last key, one with it keeps its key order |
| Aggregate.StampAll | ActivitiesDropsGet.py:220-221 | every stamped record carries the activity name |
| Aggregate.TableBatch | ActivitiesDropsGet.py:202-221 | a table without an image, without records or with no kind contributes nothing; a table with an image, records and a kind contributes exactly its records, stamped, under the kind its first record's keys give |
| Aggregate.Accumulators.Plus | ActivitiesDropsGet.py:224-232 | appending frames appends per kind |
| Aggregate.Single | ActivitiesDropsGet.py:224-232 | records appended for one kind reach that kind only |
| Aggregate.TableAdded | ActivitiesDropsGet.py:202-232 | an image-free, empty or unclassified table adds nothing; otherwise exactly its stamped records are added to its kind and nothing to the others |
| Aggregate.PageAddedAppend | ActivitiesDropsGet.py:202-234 | processing two runs of tables is processing the first and then the second |
| Aggregate.PageAddedStamped | ActivitiesDropsGet.py:220-221 | every record a page adds carries that page's activity name |
| Aggregate.CrawlAddedProvenance | ActivitiesDropsGet.py:247-249 | every record a crawl adds carries the name of one of the crawled activities |
| Aggregate.ActivityScraper.constructor | ActivitiesDropsGet.py:17-21 | the four frames start empty |
| Aggregate.ActivityScraper.Append | ActivitiesDropsGet.py:224-232 | `pd.concat` on one frame: that frame grows by the records and the others are unchanged |
| Aggregate.ActivityScraper.ExtractTable | ActivitiesDropsGet.py:203-232 | one table's step changes the frames exactly as `TableAdded` says |
| Aggregate.ActivityScraper.ExtractTablesFromActivityPage | ActivitiesDropsGet.py:191-236 | the frames grow by what the page's tables add, in table order |
| Aggregate.ActivityScraper.ScrapeActivity | ActivitiesDropsGet.py:191-196 | a page that cannot be fetched changes nothing; otherwise its tables are processed |
| Aggregate.ActivityScraper.ScrapeAllActivities | ActivitiesDropsGet.py:238-251 | an unreachable listing changes nothing; otherwise every extracted activity is processed in order |
| Aggregate.ActivityScraper.CrawlActivities | ActivitiesDropsGet.py:247-249 | the frames grow by what the activity pages add, in link order |
| Aggregate.StampRows | ActivitiesDropsGet.py:220-221 | the stamping loop gives the stamped records |
| Locations.FirstTitledFrom | LocationsGet.py:18-22 | the first h1–h4 whose stripped text is exactly the title, and no earlier one |
| Locations.FindHeading | LocationsGet.py:18-22 | the heading search loop finds the first titled heading |
| Locations.SectionEnd | LocationsGet.py:29-35 | a section ends at the first heading of the same or a shallower level that the walk does not pass over; deeper headings do not end it |
| Locations.WalkOrigin | LocationsGet.py:29-53 | everything a section walk collects comes from a node strictly inside the section |
| Locations.WalkComplete | LocationsGet.py:29-53 | everything an element strictly inside the section contributes is collected, deeper headings included |
| Locations.Absolutize | LocationsGet.py:38-41 | an href starting with "/" gets the wiki's base URL in front; any other href is kept; the result never starts with "/" and ends with the href |
| Locations.AnchorStep | LocationsGet.py:38-47 | one node of the walk adds an anchor with an href, absolutised, and nothing else |
| Locations.CollectRegionLinks | LocationsGet.py:28-53 | the cursor walk, which passes over a heading equal to the Regions heading, collects the region links of the section |
| Locations.RegionLinksInSection | LocationsGet.py:28-53 | every region link is an anchor with an href strictly inside the "Regions" section, named by its text, with its URL absolutised |
| Locations.AnchorWalked | LocationsGet.py:38-47 | an anchor with an href before the section end is collected, named by its text, with its URL absolutised |
| Locations.RegionLinksComplete | LocationsGet.py:28-53 | every anchor with an href inside the "Regions" section, also under deeper headings, is collected with its URL absolutised |
| Locations.RepeatedRegionsHeadingPassed | LocationsGet.py:33-35 | a second heading equal to the Regions heading does not end the walk, and a different heading of the same level does |
| Locations.PatternSearchPlain | LocationsGet.py:61-62 | for a fragment without `.`, the regex search is plain substring containment |
| Locations.DotMatchesAnyChar | LocationsGet.py:58-62 | the `.` of `Coat_of_Arms.svg` matches any character but a newline |
| Locations.KeepMembers | LocationsGet.py:61-62 | a link survives the blacklist exactly when it matches no blacklist fragment; none are added |
| Locations.WithoutAllIsKeep | LocationsGet.py:61-62 | filtering fragment by fragment is filtering once against all fragments |
| Locations.ApplyBlacklist | LocationsGet.py:61-62 | the filter loop keeps exactly the links that match no fragment, in order |
| Locations.RetainedLinksSound | LocationsGet.py:55-64 | the retained links are distinct by link, each a collected link that matches no fragment |
| Locations.ListRecords | LocationsGet.py:115-121 | one record per non-empty stripped list item, named by the region, in order |
| Locations.ElementRecords | LocationsGet.py:114-121 | only a list element contributes records |
| Locations.CollectLocations | LocationsGet.py:99-121 | the cursor walk collects the list records of the "Locations" section |
| Locations.NodeRecordsSound | LocationsGet.py:114-121 | every record names the region and holds a non-empty stripped item text of a list |
| Locations.RegionLocationsSound | LocationsGet.py:86-121 | a page without a "Locations" heading gives nothing; every record names the region and holds a stripped, non-empty item of a list inside the section |
| Locations.RegionLocationsComplete | LocationsGet.py:99-121 | every list item inside the "Locations" section whose stripped text is non-empty gives a record under the region |
| Locations.VisitRegion | LocationsGet.py:72-124 | one region: nothing when the fetch fails, otherwise that page's location records |
| Locations.CollectedRecordSound | LocationsGet.py:72-124 | every collected location is non-empty and stripped, under the region of a visited link whose page was fetched |
| Locations.VisitRegions | LocationsGet.py:70-124 | the region loop concatenates the records of every region in link order |
| Locations.ScrapeLocations | LocationsGet.py:17-131 | the script fails where the source raises (no "Regions" heading, no links, no locations), otherwise gives the deduplicated locations |
| Locations.LocationsScriptSound | LocationsGet.py:17-131 | the final locations are distinct, stripped and non-empty, each under the region of a retained link whose page was fetched, and every collected location is among them |

## Left out

- HTTP, rate limiting and status codes are left out (`get_page`, `requests`, `time.sleep`). A fetch
  is a function parameter, and `None` stands for a failed request. The `status_code` check of the
  world page prints but does not stop the script, so the world page is simply a parameter.
- `urljoin` is a foreign library. It is the parameter `absolute` and is not interpreted.
- Printing, the `tables_processed` counter (only printed), `print_summary`, and the module-level
  entry point with its fallback to empty frames are left out. `main.py` and `ImageGet.py` are
  I/O glue and are not part of this model.
- BeautifulSoup is not modelled. `get_text(strip=True)` is taken as stripping the whole text.
  bs4 strips each text fragment and joins them, which can remove whitespace between fragments.
- Row and table text are the concatenation of the cell texts. Text outside cells and tables
  nested in cells are not represented.
- The `next_element`/`find_next` traversal is a flattened node sequence. A list node holds its
  item texts, so nested lists are not represented.
- `lower()` is ASCII only: Unicode case mapping is not modelled. Whitespace follows Python's
  `isspace`.
- Regular expressions appear only as their concrete uses: footnote markers `[digits]`, whitespace
  runs, and the blacklist search. In the blacklist, `.` is the only metacharacter the fragments use.
- pandas is not modelled as such. A record is an insertion-ordered dict, and a frame is a
  sequence of records. Column alignment across tables with different headers, NaN filling and
  the index are left out.
- An empty link frame makes the `columns` assignment raise. An empty location list makes
  `drop_duplicates` raise. Both are `Locations.ScriptError` values, with no exception detail.
- A tag such as `hr`, whose name starts with `h`, makes `int(name[1])` crash. The model has
  explicit heading nodes with a level instead, so this crash is not modelled.
- The `current != regions_header` test compares tags by value, as bs4 does, through Dafny's
  equality of heading nodes (`Locations.RegionsBound`). A heading node holds only its level and
  text, so two headings that differ only in their attributes count as equal. The `try` around
  `next_element`, which cannot fail, is not modelled.
- Two inner `else` branches of `clean_table_data` cannot be reached, because the guard before
  them already ensures the index is in range. The model has no branch for them.
- Html.HasImages: `find_all('img')` finds an image anywhere in the table, a caption included. The
  model records images per cell, so an image outside every cell is not seen.
- Text.DigitRun: the `\d` of the footnote pattern also matches non-ASCII decimal digits (such as
  Arabic-Indic `٣`). The model matches only `0` to `9`, so such a marker is kept.
- Normalize.StartCursor: `str.isdigit()` accepts every decimal digit and also other digit
  characters such as superscript `²`. The model accepts only `0` to `9`, so a row starting with
  such a cell is read from its first cell.
