# ONS scraper metadata harvest, modelled in Dafny

This project models the logic of `ONS_scraper_functions.py`. That file harvests dataset metadata from the Office for National Statistics (ONS) API and from the Nomis API. Every HTTP response, decoded JSON document, parsed CSV table and list of HTML paragraphs is an input value. The model covers the code that works on those values.

- **Pagination** (`pagination.dfy`): the offset-paginated listing loops of `get_ONS_datasets_titles_descriptions` and `get_ONS_datasets_urls`. The k-th element of a sequence of responses is what the k-th request received: a decode failure, or a page of items with its `count`. Each method returns the offsets it requested. A declarative "first stop point" over the decoded prefix specifies the run.
- **QMI narrative** (`narrative.dfy`): `get_ONS_long_description`, with QMI meaning Quality and Methodology Information. It covers:
  - the retried fetch of the item list;
  - the `[4:-7]` paragraph window;
  - the cleaning chain: tag removal, whitespace collapse and the literal `.replace` chain;
  - the more-than-35-characters rule;
  - one description per item.
- **Columns** (`columns.dfy`):
  - `find_ONS_cols`: a NaN sentinel when the status is not 200 or `downloads` is missing or falsy. After a 200 it raises when the body is not JSON, when `downloads` has no `csv` or no `href`, or when the download cannot be parsed; otherwise it gives the column names.
  - `find_ONS_cols_and_unique_vals`: the `col_data` mapping. It maps a column to its distinct values when its first cell is a string that fails the test `s.replace('.', '', 1).isdigit()`.
- **Nomis** (`nomis.dfy`): `get_nomis_datasets_titles_descriptions`, which builds the name and description lists in lockstep, with NaN for a missing description.
- **Shared** (`outcomes.dfy`, `pytext.dfy`):
  - the outcome of a call: it returns, it raises a named Python exception, or the finite input runs out;
  - NaN as an explicit constructor;
  - the Python string built-ins used: `isdigit`, `str(int)`, `replace` (all occurrences, and at most once) and slicing with negative bounds, together with the whitespace class `\s` of the regex at line 160 (the characters Python's `str.isspace` accepts).

An input sequence can end while the program would still send a request. For the listing loops this is every run whose responses are used up at the loop head while the list is still below the ceiling and the last response neither had a zero count nor raised: a decode failure that is retried, or a readable page with a non-zero count, as in `GetDatasetUrls([Page([it], 1)])`. For the item fetch it is fewer than 100 attempts, all failed. The model then returns `NeedsMoreInput`. It is not a behaviour of the program, only the end of the given input.

## Model

All source paths are in `ONS_scraper_functions.py`.

| member | source | states |
|---|---|---|
| PyText.Decimal | ONS_scraper_functions.py:56 | `str(n)` of a status code is a non-empty digit string with no leading zero |
| PyText.DecimalRoundTrip | ONS_scraper_functions.py:56 | reading back the digits of `str(n)` gives `n` |
| PyText.Replace | ONS_scraper_functions.py:161-162 | definition of `str.replace`: every non-overlapping occurrence, scanning from the left; see ReplaceDeletesChar, ReplaceKeepsAbsent and ReplaceWithoutLead |
| PyText.ReplaceEach | ONS_scraper_functions.py:161-162 | definition of a chain of `.replace` calls applied in order; see ReplaceEachKeepsAbsent and ReplaceEachDeletes |
| PyText.ReplaceDeletesChar | ONS_scraper_functions.py:161 | `replace(c, '')` leaves no `c` in the text |
| PyText.ReplaceKeepsAbsent | ONS_scraper_functions.py:161-162 | a replacement never introduces a character that neither the text nor the replacement holds |
| PyText.ReplaceWithoutLead | ONS_scraper_functions.py:161-162 | a text without the first character of the pattern is left unchanged by `replace` |
| PyText.ReplaceEachKeepsAbsent | ONS_scraper_functions.py:161-162 | the same for a chain of replacements |
| PyText.ReplaceEachDeletes | ONS_scraper_functions.py:161-162 | a chain that deletes `c` at one step and never writes `c` later leaves no `c` |
| PyText.RemoveFirst | ONS_scraper_functions.py:203 | definition of `replace(c, '', 1)`; see RemoveFirstAt and RemoveFirstAbsent |
| PyText.RemoveFirstAt | ONS_scraper_functions.py:203 | `replace('.', '', 1)` removes exactly the first `.` and keeps everything else in order |
| PyText.RemoveFirstAbsent | ONS_scraper_functions.py:203 | with no `.` in the text, `replace('.', '', 1)` changes nothing |
| PyText.Slice | ONS_scraper_functions.py:156 | definition of `s[start:stop]` by the normalised bounds; see SliceBound and SliceDropsEnds |
| PyText.SliceBound | ONS_scraper_functions.py:156 | a bound in `0..n` is kept, a negative bound counts from the end, and a bound beyond either end is clamped to `0` or `n` |
| PyText.SliceDropsEnds | ONS_scraper_functions.py:156 | `s[a:-b]` drops the first `a` and last `b` elements, and is empty unless `len(s) > a + b` |
| Pagination.ProgressStart | ONS_scraper_functions.py:31-37 | before the first request: no offsets, offset 0 |
| Pagination.ProgressContinues | ONS_scraper_functions.py:37-38 | below the ceiling with responses left, the loop is not at a stop point and requests the offset the counts so far add up to |
| Pagination.ProgressSteps | ONS_scraper_functions.py:38-53 | a decode failure, or a page that is readable and has a non-zero count, brings the loop back to its head with the offset advanced by that count and the page's items appended |
| Pagination.ProgressEnds | ONS_scraper_functions.py:45-53 | a page with a zero count or an unreadable item is the first stop point, and the loop has ended there |
| Pagination.ProgressHalts | ONS_scraper_functions.py:37 | at the loop head with the ceiling reached or the responses used up, this is the first stop point; the loop ended exactly when the ceiling was reached |
| Pagination.AppendTitles | ONS_scraper_functions.py:46-48 | succeeds exactly when every item has a title and a description; then titles and descriptions grow in lockstep by the items' fields, in order |
| Pagination.AppendUrls | ONS_scraper_functions.py:83-85 | succeeds exactly when every item has `links.latest_version`; then the URL list grows by each `href`, or `None` where it is missing, in order |
| Pagination.GetTitlesDescriptions | ONS_scraper_functions.py:27-58 | a failed probe sends no listing request and returns `"Error: " + str(status)` with no descriptions. Otherwise: request `j` asks for the sum of the counts decoded before it; the run ends at the first stop point (ceiling reached at the head, zero-count page, or raise); it raises `KeyError` exactly when the last page has an item without title or description; a normal return holds one title and description per decoded item, in order |
| Pagination.GetDatasetUrls | ONS_scraper_functions.py:61-92 | the same loop without the probe: offsets follow the counts, the run ends at the first stop point, it raises `AttributeError` exactly when the last page has an item without `links.latest_version`, and a normal return holds one URL per decoded item |
| Pagination.RetryRepeatsOffset | ONS_scraper_functions.py:40-50 | each offset is the previous one plus the last page's count; after a decode failure the same offset is requested again and no item was taken |
| Pagination.DecodedGrows | ONS_scraper_functions.py:45-48 | the items collected so far are a prefix of those collected later |
| Pagination.CeilingOvershoot | ONS_scraper_functions.py:37 | a run that ends by itself sent at least one request, was below 500 before its last page, and ends below 500 plus that page's items |
| Pagination.CeilingIsCheckedAtHead | ONS_scraper_functions.py:37 | one page of 501 readable items ends the run after one request with 501 entries |
| Pagination.ZeroPageEndsHarvest | ONS_scraper_functions.py:50-53 | readable non-empty pages followed by a zero-count page, below the ceiling: every page is requested and the run ends after the zero page with all their items in order |
| QmiNarrative.TagEnd | ONS_scraper_functions.py:159 | where the lazy `.*?>` after a `<` ends, the end is a `>` inside the text |
| QmiNarrative.TagEndIsLazyMatch | ONS_scraper_functions.py:159 | the match ends at the first `>` that no newline precedes, and fails when every `>` has a newline before it |
| QmiNarrative.StripTags | ONS_scraper_functions.py:159 | removing tags never lengthens the text |
| QmiNarrative.NoTagEndSurvives | ONS_scraper_functions.py:159 | a text in which no tag can close keeps that property after tags are removed |
| QmiNarrative.StripTagsLeavesNoTag | ONS_scraper_functions.py:159 | after `re.sub("\<.*?\>", "", x)` no tag is left |
| QmiNarrative.TagFreeUnchanged | ONS_scraper_functions.py:159 | a text without tags is left unchanged |
| QmiNarrative.StripTagsIdempotent | ONS_scraper_functions.py:159 | removing tags twice is the same as once |
| QmiNarrative.SpaceRun | ONS_scraper_functions.py:160 | the length of the maximal leading whitespace run |
| QmiNarrative.CollapseWhitespace | ONS_scraper_functions.py:160 | definition of `re.sub(r"\s+", " ", y)`: each maximal whitespace run becomes one space; see CollapseWhitespaceCollapses |
| QmiNarrative.CollapseWhitespaceCollapses | ONS_scraper_functions.py:160 | `re.sub(r"\s+", " ", y)` keeps emptiness and a leading space, and leaves only single plain spaces |
| QmiNarrative.Clean | ONS_scraper_functions.py:158-162 | definition of the cleaning chain: tags removed, whitespace collapsed, then the five replacements in order; see CleanHasNoQuoteOrComma and DoubleSpaceCanRemain |
| QmiNarrative.CleanHasNoQuoteOrComma | ONS_scraper_functions.py:158-162 | a cleaned paragraph holds no `'` and no `,` |
| QmiNarrative.DoubleSpaceCanRemain | ONS_scraper_functions.py:161-162 | the single `replace('  ', ' ')` pass can leave a double space: `" , , "` cleans to two spaces |
| QmiNarrative.SampleUntouchedByRegexes | ONS_scraper_functions.py:159-160 | the two substitutions leave `" , , "` unchanged |
| QmiNarrative.SampleChainHead | ONS_scraper_functions.py:161 | the first three replacements turn `" , , "` into three spaces |
| QmiNarrative.SampleDropsCommas | ONS_scraper_functions.py:161 | `replace(',', '')` turns `" , , "` into three spaces |
| QmiNarrative.SampleChainTail | ONS_scraper_functions.py:162 | the last two replacements turn three spaces into two |
| QmiNarrative.Contribution | ONS_scraper_functions.py:163-164 | a cleaned paragraph adds something exactly when it is longer than 35 characters, and then adds itself without its first and last character, at least 34 characters |
| QmiNarrative.ContributionDropsEnds | ONS_scraper_functions.py:163-164 | a kept text contributes everything but its first and last character (the brackets of the list's printed form) |
| QmiNarrative.Window | ONS_scraper_functions.py:156 | definition of `soup('p')[4:-7]`; see WindowKeepsMiddle |
| QmiNarrative.WindowKeepsMiddle | ONS_scraper_functions.py:156 | `[4:-7]` keeps the paragraphs at indices 4 .. n-8, which is none when n <= 11 |
| QmiNarrative.Cleaned | ONS_scraper_functions.py:156-162 | one cleaned text per paragraph of the window |
| QmiNarrative.CleanedAt | ONS_scraper_functions.py:158-162 | the i-th cleaned text is the cleaning chain applied to the i-th paragraph |
| QmiNarrative.CleanedAppend | ONS_scraper_functions.py:156-162 | paragraphs are cleaned one by one, so the cleaning of two runs is the cleaning of the first followed by that of the second |
| QmiNarrative.JoinedPrefixStep | ONS_scraper_functions.py:164 | one more paragraph appends its contribution at the end of `temp_desc` |
| QmiNarrative.JoinedAppend | ONS_scraper_functions.py:164 | the contributions of two runs of cleaned texts are the first run's followed by the second's |
| QmiNarrative.JoinedLength | ONS_scraper_functions.py:163-164 | joined contributions have at least 34 characters per kept text, and are empty exactly when none is kept |
| QmiNarrative.JoinedKeepsAbsent | ONS_scraper_functions.py:164 | joining never introduces a character missing from every cleaned text |
| QmiNarrative.Narrative | ONS_scraper_functions.py:155-164 | definition of `temp_desc`: the contributions of the cleaned paragraphs, in order; see NarrativeAppend, NarrativeLength, NarrativeHasNoQuoteOrComma and BuildNarrative |
| QmiNarrative.NarrativeAppend | ONS_scraper_functions.py:156-164 | the description of two runs of paragraphs is the first one's followed by the second one's |
| QmiNarrative.NarrativeLength | ONS_scraper_functions.py:163-164 | each kept paragraph adds at least 34 characters; the description is empty exactly when no paragraph is kept |
| QmiNarrative.NarrativeHasNoQuoteOrComma | ONS_scraper_functions.py:158-164 | a description holds no `'` and no `,` |
| QmiNarrative.ShortPagesGiveNothing | ONS_scraper_functions.py:156-164 | a page of at most 11 paragraphs gives an empty description; with 12 only the fifth paragraph counts |
| QmiNarrative.AppendParagraph | ONS_scraper_functions.py:158-164 | one turn of the paragraph loop grows `temp_desc` by exactly that paragraph's contribution |
| QmiNarrative.BuildNarrative | ONS_scraper_functions.py:155-164 | the accumulated `temp_desc` is the description of the window, its contributions in paragraph order |
| QmiNarrative.FetchItems | ONS_scraper_functions.py:128-135 | the first successful attempt among at most 100 gives the items, after only failures; when 100 attempts fail, `NameError` is raised |
| QmiNarrative.ItemDescription | ONS_scraper_functions.py:141-169 | definition of one item's entry: the description of its QMI page, or `''` when the item has no QMI link or the page cannot be fetched; see DescribeItems and ShortPagesGiveNothing |
| QmiNarrative.DescribeItems | ONS_scraper_functions.py:138-169 | one description per item, in item order; a fetched page gives its description, an item without a QMI link or an unreachable page gives `''` |
| QmiNarrative.GetLongDescription | ONS_scraper_functions.py:119-171 | returns exactly when an attempt succeeded, with one description per item of the first successful attempt; otherwise every attempt made failed, and either `NameError` is raised after 100 or all the given attempts (fewer than 100) were used up |
| Columns.Names | ONS_scraper_functions.py:109-110 | the column labels, one per column, in table order |
| Columns.LooksNumeric | ONS_scraper_functions.py:203 | definition of `s.replace('.', '', 1).isdigit()`; see LooksNumericExactly and NumericExamples |
| Columns.IndexOf | ONS_scraper_functions.py:203 | the position of the first occurrence of a character |
| Columns.AllDigitsConcat | ONS_scraper_functions.py:203 | a concatenation is all digits exactly when both parts are |
| Columns.LooksNumericExactly | ONS_scraper_functions.py:203 | the numeric test accepts exactly the non-empty digit strings and digits around one `.` with at least two characters |
| Columns.NumericExamples | ONS_scraper_functions.py:203 | `"12"` and `"3.5"` look numeric; `"1.2.3"`, `""` and `"-4"` do not |
| Columns.Distinct | ONS_scraper_functions.py:204 | `unique()` holds every value of the column exactly once, and nothing else |
| Columns.DistinctKeepsOrder | ONS_scraper_functions.py:204 | values found first come first: the distinct values of a prefix start those of the whole |
| Columns.DistinctIgnoresRepeats | ONS_scraper_functions.py:204 | a value already seen adds nothing |
| Columns.Summary | ONS_scraper_functions.py:200-204 | definition of one column's `col_data` entry; see SummaryRule, NumericColumnExample and CategoricalColumnExample |
| Columns.SummaryRule | ONS_scraper_functions.py:200-204 | a column gets its distinct values exactly when the first cell is a string that is neither a digit string nor digits around one `.` |
| Columns.NumericColumnExample | ONS_scraper_functions.py:200-204 | the column `"12"`, `"3.5"`, `"7"` gets `None` |
| Columns.CategoricalColumnExample | ONS_scraper_functions.py:200-204 | the column `"red"`, `"blue"`, `"red"` gets `["red", "blue"]` |
| Columns.SummariesAreUnique | ONS_scraper_functions.py:197-204 | a table has one `col_data`, so summarising it twice gives the same mapping |
| Columns.SummariseColumns | ONS_scraper_functions.py:197-204 | raises `KeyError` exactly when a column has no rows; otherwise the keys are exactly the column names and each holds that column's summary |
| Columns.FindColsAndUniqueVals | ONS_scraper_functions.py:174-208 | a non-JSON body or falsy `downloads` gives `{}`; a missing `downloads`, `csv` or `href` raises `KeyError`; an unparseable CSV raises; otherwise the result is the table's `col_data` |
| Columns.FindCols | ONS_scraper_functions.py:95-116 | NaN exactly when the status is not 200 or `downloads` is missing or falsy; it raises exactly after a 200 when the body is not JSON, `downloads` lacks `csv` or `href`, or the download cannot be parsed; after a 200 with a CSV link and a parsed table it returns that table's column names in order |
| Columns.FindColsReadsCsvLast | ONS_scraper_functions.py:99-112 | before a 200 status and a CSV link, the result does not depend on the download |
| Columns.ColumnsAgree | ONS_scraper_functions.py:109-110 | the keys of `col_data` are exactly the names `find_ONS_cols` lists for the same table |
| Nomis.DescriptionOf | ONS_scraper_functions.py:233-236 | NaN exactly when the entry has no description, otherwise its `value` |
| Nomis.GetNomisTitlesDescriptions | ONS_scraper_functions.py:223-238 | a non-JSON body or a missing path raises; it raises `KeyError` exactly when an entry's name or description value is missing; otherwise it returns one name and one description per entry, in order, NaN where there is no description |

## Left out

- HTTP requests, `.json()` decoding, BeautifulSoup and `str(text.contents)`, and `pd.read_csv` are not modelled. Their results are inputs.
- The listing loops' unbounded retry of a response that does not decode is not modelled as non-termination. A finite prefix of responses is given, and `NeedsMoreInput` marks where it runs out.
- The item fetch at lines 128-135 is bounded at 100 attempts. Fewer than 100 given attempts that all fail give `NeedsMoreInput`, because the given input ends before the bound.
- A decoded listing page without `items` or `count` is not modelled. Pages always carry both.
- JSON `null` field values are not modelled: every field is taken to be missing or a string or object. A `null` `title` or `description` at line 47 would be appended as `None` without raising, whereas the model can only say missing, which raises `KeyError`; a `null` `name` or `description` at lines 231 and 234 raises `TypeError`, not `KeyError`.
- `Pagination.GetTitlesDescriptions`: the titles appended before a raising item are not reported, because the exception discards them.
- `PyText.IsAsciiDigit`: Python's `isdigit` also accepts non-ASCII digits such as superscripts and other scripts' digits. The model accepts only `'0'..'9'`.
- `QmiNarrative.TagEnd` writes the regex `<.*?>` out by hand. No general regex engine is modelled.
- The check `text.contents != ''` at line 157 compares a list with a string, so it is always true. The model keeps every paragraph of the window.
- `Columns.Cell`: a non-string value is identified by its printed form, so pandas' value equality (for example `1` against `1.0`) is not modelled.
- `Columns.Distinct` is compared by value. pandas treats each NaN as the same missing value, and the model's `Missing` does the same.
- `Columns.SummariseColumns` requires distinct column names, because `read_csv` renames repeated headers. The map's key order is not modelled.
- `Columns.FindCols`: `dtype='string'` and `on_bad_lines='skip'` only affect how the table is parsed, and the parsed table is an input.
- ONS_dataset_compendium.py is not part of this model. It fetches each URL and writes the output table.
- Nomis API access beyond building the two lists is not modelled.
- The docstring at lines 148-154 says strings longer than 35 characters are removed. The code keeps only those longer than 35, and the model follows the code.
- The status probe and the error text come from two separate requests. The model takes both statuses as inputs.
- The 500-item ceiling is checked only at the loop head, so a run can exceed it. `Pagination.CeilingOvershoot` and `Pagination.CeilingIsCheckedAtHead` state by how much.
