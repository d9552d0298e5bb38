# Power-quality event summary: a Dafny model

This project models how `create_summary_table.py` turns the COMTRADE
recordings of one power-quality monitor into a summary table. A recording's
header text holds one `Description:` line per detected disturbance. The
script makes the following passes over it:

- It splits the header into descriptions: the text after the time-zone
  offset (`[+-]dddd `) up to the end of the line.
- It labels each description with:
  - a disturbance class (Sag, Swell, Fast Transient, ...);
  - a subclass token (ITIC, AbsThr, ...);
  - a severity (`L` and a digit);
  - the electrical variable involved (Vab, Van, ..., or the phase letter of
    a fast transient).
- It reads the trigger timestamps (`05 Jan '24 12:30:45.123`) and the event
  identifiers from the same header. It then decomposes the timestamps into
  dates, hours, minutes, seconds and milliseconds.
- It emits one row per description. Each field comes from the same index of
  its own list, or is `None` when that list is shorter.

Each regular expression is written out as a scanner function over the
header string, next to a predicate that says where the pattern matches
and what it captures. Lemmas tie the two together:

- `re.search` returns the match at the leftmost matching position.
- `re.findall` of the description pattern takes the leftmost match, then
  resumes at the end of that match's line. These matches can overlap, so
  it does not return one description per matching position.
- `re.findall` of the timestamp and event-identifier patterns returns the
  capture of every matching position, because those matches never overlap.

The passes that work by appending to a list under a shared counter are
written as methods with loops:

- the class, subclass and variable passes;
- the row loop;
- the loop over the directory listing.

Each method is proved equal to a recursive specification function. Lemmas
then state what the source promises of those functions:

- the length each pass produces;
- which table entries each position can hold;
- when each entry is exactly the first table hit of the description at
  the same index;
- when the variable pass raises;
- that timestamp formatting and parsing are inverse;
- that the table is all-or-nothing over the directory listing.

Modules:

- `Wrappers`: option and result types; the three exceptions that can escape
  (`TypeError`, `IndexError`, `ValueError`).
- `Text`: character classes, substring search (`in`) and greedy runs.
- `Taxonomy`: the class list, the subclass table, the severity list and the
  target variables, the device names and the base directory.
- `Splitter`: the description regex and the loader's failure path.
- `TableScan`: the inner loop shared by the class and variable passes.
- `Classes`, `Subclasses`, `Severity`, `Variables`: the four passes.
- `Timestamps`: the timestamp regex, `strptime` with
  `%d %b '%y %H:%M:%S.%f`, and the decompositions.
- `EventIds`: the event-identifier regex.
- `Summary`: the row assembly and the directory loop.

## Model

| member | source | states |
|---|---|---|
| Text.IndexFromLeftmost | create_summary_table.py:70 | the substring search used for `in` finds the leftmost occurrence at or after the start, or reports correctly that there is none |
| Text.ContainsMeaning | create_summary_table.py:70 | `t in s` holds exactly when `t` occurs in `s` at some position |
| Text.LineEnd | create_summary_table.py:56 | `.` and `[^\n]` stop at the first line feed: the run contains no line feed and ends at one or at the end of the text |
| Text.DigitRunEnd | create_summary_table.py:169 | greedy `\d+`: the run holds only digits and is followed by a non-digit or the end |
| Text.SpaceRunEnd | create_summary_table.py:138 | greedy `\s+`: the run holds only white space and is followed by a non-space or the end |
| Text.LetterRunEnd | create_summary_table.py:116 | greedy `[a-zA-Z]*`: the run holds only letters and is followed by a non-letter or the end |
| Text.LowerAll | create_summary_table.py:140 | case folding used to match `%b` month names: same length, each character lowered |
| Taxonomy.Device | create_summary_table.py:199 | the device column is the summary name of the base directory, "Non UPS load A" |
| Splitter.CaptureStart | create_summary_table.py:56 | the lazy `.*?[+-]\d{4} ` stops at the first offset on the line that text follows: the capture starts after that offset, no earlier position on the line holds one, and None means the line holds none |
| Splitter.CaptureStartFirst | create_summary_table.py:56 | an offset followed by text, with no line feed and no such offset before it, is where the capture starts |
| Splitter.CaptureStartMatch | create_summary_table.py:56 | after a marker, the pattern matches with capture `c` exactly when the lazy search returns `c` |
| Splitter.SplitFrom | create_summary_table.py:56 | every string found is the rest of the line after the capture start of some match of the pattern |
| Splitter.SplitFromEmpty | create_summary_table.py:56 | the search finds nothing exactly when the pattern matches at no position from the start of the search |
| Splitter.SplitFromLeftmost | create_summary_table.py:56 | the first description is the capture of the leftmost match, and the search resumes at the end of that line |
| Splitter.NestedMarkerOnce | create_summary_table.py:56 | in `Description:Description: +0000 y` the pattern matches at both markers, yet `findall` returns one description |
| Splitter.Split | create_summary_table.py:56 | `re.findall` yields only descriptions of the header; it yields nothing exactly when the pattern matches nowhere, in particular when the header lacks `Description:` |
| Splitter.FindMatches | create_summary_table.py:32-57 | a failed load yields no descriptions; a missing header raises `TypeError`; otherwise exactly the `findall` result of the header |
| TableScan.Hits | create_summary_table.py:67-73 | the inner loop appends at most as many labels as the counter has room for, and no more than the table has |
| TableScan.ContainedLabelsMeaning | create_summary_table.py:67-73 | the reference list of the labels a description contains, in table order, lists every contained label and nothing else |
| TableScan.HitsTruncates | create_summary_table.py:67-73 | the inner loop appends exactly the contained labels in table order, cut off when the counter is full |
| TableScan.HitsEntries | create_summary_table.py:67-73 | everything the inner loop appends is a table entry contained in the description |
| TableScan.StepBounds | create_summary_table.py:64-76 | one description adds at least one entry; it never pushes the counter past the number of descriptions; each entry is `None` or a contained table label |
| TableScan.FirstHit | create_summary_table.py:86-93 | a table entry contained in the description; it is `None` exactly when no entry is contained |
| TableScan.FirstHitFirst | create_summary_table.py:86-93 | the entry found is the first: it stands at an index before which the description contains no table entry |
| TableScan.HitsSingle | create_summary_table.py:67-73 | when at most one table entry is contained, the inner loop appends exactly the first hit, or nothing |
| TableScan.StepSingle | create_summary_table.py:64-76 | when at most one table entry is contained, a description adds exactly its first hit, or `None` |
| TableScan.AppendStep | create_summary_table.py:64-76 | the inner loop over the table, with its early break on the counter, appends exactly the specified step |
| Classes.ExtractClasses | create_summary_table.py:59-77 | the class pass, loop for loop, computes the class sequence defined by the shared-counter recursion |
| Classes.ClassesFromEntries | create_summary_table.py:59-77 | every class entry is `None` or a listed label that occurs in some description |
| Classes.ClassesFromLength | create_summary_table.py:59-77 | the class pass never yields fewer entries than there are descriptions |
| Classes.ClassesFromAligned | create_summary_table.py:59-77 | when no description contains two labels, the pass yields one entry per description: exactly its first listed label, or `None` |
| Classes.TwoLabelsShift | create_summary_table.py:59-77 | a description holding `Sag` and `Swell` adds both labels, so the next description's entry moves one place down |
| Classes.ClassesSpec | create_summary_table.py:59-77 | for the real class list: nothing for no descriptions, at least one entry per description, entries drawn from the list, and alignment when labels do not overlap |
| Subclasses.FirstToken | create_summary_table.py:86-93 | the token loop with its `break` returns the first subclass token found in the description |
| Subclasses.ExtractSubclass | create_summary_table.py:79-97 | the subclass pass computes the sequence where a class without a matching token adds nothing and does not move the counter |
| Subclasses.SubclassesFromBounded | create_summary_table.py:79-97 | the subclass pass never yields more entries than there are descriptions left |
| Subclasses.SubclassesFromEntries | create_summary_table.py:79-97 | entry `k` is `None` or the subclass some class selects from description `k` |
| Subclasses.SubclassesFromAligned | create_summary_table.py:79-97 | when every eligible class finds a token, entry `k` is the subclass of class `k` read from description `k`, one per description |
| Subclasses.SubclassesSpec | create_summary_table.py:79-97 | from the start: at most one entry per description, each `None` or selected from the description at its own index |
| Severity.SeverityFrom | create_summary_table.py:102 | `re.search(r"(L[0-9])")` returns the leftmost `L` followed by a digit, or `None` exactly when there is none |
| Severity.SeverityOf | create_summary_table.py:102-106 | the severity is a two-character `L`-digit token at the leftmost such position in the description, or `None` when no such token exists |
| Severity.Severities | create_summary_table.py:99-107 | one severity per description, in order, independent of the other passes |
| Severity.SeverityScaleUnused | create_summary_table.py:14 | the severity list is never consulted: `L9` is not listed, yet it is extracted |
| Variables.Backtrack | create_summary_table.py:116 | backtracking over the letter run only ever yields one of the characters `A`, `B`, `C`, `N` or the bar that the pattern's class admits |
| Variables.BacktrackRightmost | create_summary_table.py:116 | backtracking takes the rightmost class character reachable; it fails exactly when none is reachable |
| Variables.LetterFrom | create_summary_table.py:116 | the first `findall` result is one of the characters the pattern's class admits (`A`, `B`, `C`, `N` and the bar) |
| Variables.LetterFromLeftmost | create_summary_table.py:116 | the first result comes from the leftmost position where the pattern matches |
| Variables.LetterFromNone | create_summary_table.py:116 | `findall` is empty exactly when the pattern matches nowhere |
| Variables.FastTransientLetter | create_summary_table.py:115-117 | the phase letter of a Fast Transient description is a character of the pattern's class |
| Variables.RescanAll | create_summary_table.py:122-133 | the nested loop over all descriptions appends exactly the specified rescan |
| Variables.ExtractVariables | create_summary_table.py:109-134 | the variable pass computes the specified result, including the `IndexError` |
| Variables.RescanBounded | create_summary_table.py:122-133 | a rescan never pushes the counter past the number of descriptions |
| Variables.RescanFills | create_summary_table.py:122-133 | a rescan that starts below the number of descriptions fills the counter exactly |
| Variables.RescanEntries | create_summary_table.py:122-133 | rescan entries are `None` or target variables contained in some description |
| Variables.RescanAligned | create_summary_table.py:122-133 | when no description contains two variables, the rescan yields exactly each description's first variable |
| Variables.VariablesWithoutFastTransient | create_summary_table.py:109-134 | with no Fast Transient description, the pass is one full rescan from the first description |
| Variables.VariablesAllFastTransientRaises | create_summary_table.py:114-118 | over Fast Transient descriptions the pass raises exactly when one of them has no letter, and then raises `IndexError` |
| Variables.VariablesAllFastTransientLetters | create_summary_table.py:114-118 | otherwise it yields each description's letter, one per description |
| Variables.VariablesFromAtLeast | create_summary_table.py:109-134 | a successful pass yields at least one entry per description left |
| Variables.VariablesSpec | create_summary_table.py:109-134 | no descriptions give no variables; a successful pass yields at least one entry per description |
| Variables.VariablesPlain | create_summary_table.py:109-134 | without Fast Transient descriptions the pass succeeds with one entry per description, each `None` or a contained target variable |
| Variables.VariablesPlainAligned | create_summary_table.py:109-134 | if also no description contains two variables, entry `e` is exactly description `e`'s first variable |
| Variables.VariablesFromFullRaises | create_summary_table.py:114-120 | with the list already full, the pass raises exactly when the run of Fast Transient descriptions ahead holds one without a letter, and then raises `IndexError` |
| Variables.VariablesFromOtherRaises | create_summary_table.py:114-133 | after the first other description fills the list, only the Fast Transient run right after it can still raise |
| Variables.VariablesFromRaises | create_summary_table.py:109-134 | from description `k` with the counter at `k`, the pass raises exactly when it reaches a Fast Transient description without a letter, and then raises `IndexError` |
| Variables.VariablesRaise | create_summary_table.py:109-134 | `extract_variables` raises `IndexError` exactly when a Fast Transient description without a letter lies in the leading run of such descriptions or in the run right after the first other description |
| Variables.LateUnletteredUnread | create_summary_table.py:119-120 | `["x", "y", "Fast Transient"]` succeeds: the description without a letter comes after the second other description, which ends the pass |
| Variables.VariablesAllFastTransient | create_summary_table.py:109-134 | when every description is a Fast Transient, the pass fails with `IndexError` exactly when some letter is missing; otherwise it yields each description's letter in order |
| Variables.FastTransientLetterExamples | create_summary_table.py:116 | for `FastTransientAB C` the greedy run backtracks to `B`, not `C`; and the bar written in the pattern's character class is captured like a letter |
| Variables.FastRunMeaning | create_summary_table.py:115 | the run counted is a maximal run of consecutive Fast Transient descriptions |
| Variables.VariablesFromFull | create_summary_table.py:119-120 | with the counter full, only the following run of Fast Transient descriptions still adds entries |
| Variables.VariablesFromLength | create_summary_table.py:109-134 | exact length of a successful pass: the descriptions left, plus the run of Fast Transient descriptions after the first rescan |
| Variables.VariablesFromFirstOther | create_summary_table.py:119-133 | a pass that opens with another description has the length of the descriptions left plus the Fast Transient run that follows |
| Variables.VariablesLength | create_summary_table.py:109-134 | the variable list is as long as the descriptions, plus the Fast Transient run that follows the first other description |
| Timestamps.DaysInMonth | create_summary_table.py:140 | the calendar `strptime` checks days against: 28 to 31 days; February has 29 exactly in Gregorian leap years |
| Timestamps.MonthName | create_summary_table.py:140 | `%b` names are three letters |
| Timestamps.MonthFrom | create_summary_table.py:140 | the month search returns a month whose key matches, or `None` exactly when no remaining month matches |
| Timestamps.MonthNumber | create_summary_table.py:140 | `%b` matches month names ignoring case: the number of the month whose name matches, or `None` when no month does |
| Timestamps.MonthKeyLowered | create_summary_table.py:140 | each month's name, lowered, is its lookup key |
| Timestamps.ExpandYear | create_summary_table.py:140 | `%y` maps two digits to the year 1969-2068 with those last two digits |
| Timestamps.TwoDigits | create_summary_table.py:140 | two digits read as a number below 100 |
| Timestamps.ThreeDigits | create_summary_table.py:140 | three digits read as a number below 1000 |
| Timestamps.FieldsOf | create_summary_table.py:140 | the fields cut from a captured timestamp are in the ranges their digit counts allow |
| Timestamps.Build | create_summary_table.py:140 | `strptime` succeeds exactly when the month name is known, the day exists in that month and year, and hour, minute and second are in range; it then yields a valid timestamp with whole milliseconds, and otherwise raises `ValueError` |
| Timestamps.Format | create_summary_table.py:140 | the reference formatter, inverse to the parse, writes 23 characters |
| Timestamps.FormatPieces | create_summary_table.py:140 | formatted text has the capture shape, with each field at its format position |
| Timestamps.MonthNumberOfName | create_summary_table.py:140 | reading a month's `%b` name gives back that month |
| Timestamps.TwoDigitsRoundTrip | create_summary_table.py:140 | writing back a two-digit field reproduces the digits read |
| Timestamps.ThreeDigitsRoundTrip | create_summary_table.py:140 | writing back the `%f` field reproduces the three digits read |
| Timestamps.FormatFields | create_summary_table.py:140 | reading the fields of a formatted timestamp recovers day, month, two-digit year, time and milliseconds |
| Timestamps.BuildFieldsOf | create_summary_table.py:140 | building from a timestamp's own fields gives it back |
| Timestamps.ParsedFields | create_summary_table.py:140 | a parsed timestamp carries the fields read from the text, with milliseconds scaled to microseconds |
| Timestamps.FormatThenParse | create_summary_table.py:140 | parsing a formatted timestamp gives back the timestamp |
| Timestamps.ParseThenFormat | create_summary_table.py:140 | formatting a parsed timestamp gives back the text, up to the letter case of the month name and the three whitespace separators |
| Timestamps.StampCapture | create_summary_table.py:138 | a match of `!?\s+` then the timestamp leaves room for the timestamp, a space and the sign |
| Timestamps.SpaceRunEndAt | create_summary_table.py:138 | greedy `\s+` stops exactly at the first character that is not white space |
| Timestamps.StampCaptureOfMatch | create_summary_table.py:138 | whenever the rest of the pattern matches with capture `e`, the scanner returns `e` |
| Timestamps.StampCaptureIsMatch | create_summary_table.py:138 | whatever the scanner returns is a capture with which the rest of the pattern matches |
| Timestamps.StampCaptureMeaning | create_summary_table.py:138 | the scanner returns `e` exactly when the rest of the pattern (`!`, white space, a capture of the timestamp shape at `e`, a space, `+` or `-`) matches with capture `e`, and None when it matches with none |
| Timestamps.StampAtMeaning | create_summary_table.py:138 | the whole pattern matches at a position exactly when `Description:` occurs there and the rest of the pattern matches after it |
| Timestamps.CapturesFrom | create_summary_table.py:138 | every string found has the timestamp shape |
| Timestamps.NoStampInside | create_summary_table.py:138 | no match of the timestamp pattern starts inside another |
| Timestamps.CapturesFromEvery | create_summary_table.py:138 | the non-overlapping search returns the capture of every position where the pattern matches, in header order |
| Timestamps.Captures | create_summary_table.py:137-138 | the captures of a header are those of every matching position, each of the `dd Mon 'yy hh:mm:ss.fff` shape |
| Timestamps.CapturesFromNone | create_summary_table.py:138 | no `Description:` means no timestamps |
| Timestamps.LeadingCapture | create_summary_table.py:138 | a header starting `Description: <timestamp> +` yields that timestamp first, and the scan resumes after it |
| Timestamps.ParseAll | create_summary_table.py:139-140 | converting all captures either raises `ValueError` or yields one timestamp per capture |
| Timestamps.ParseAllMeaning | create_summary_table.py:139-140 | the conversion succeeds exactly when every capture parses, and then holds each parsed timestamp at its index |
| Timestamps.TriggerTimestamps | create_summary_table.py:136-141 | a missing header raises `TypeError`; otherwise either `ValueError` or one valid timestamp with whole milliseconds per capture |
| Timestamps.Dates | create_summary_table.py:142-146 | one date per timestamp, with its year, month and day |
| Timestamps.Hours | create_summary_table.py:147-151 | one hour per timestamp |
| Timestamps.Minutes | create_summary_table.py:152-156 | one minute per timestamp |
| Timestamps.Seconds | create_summary_table.py:157-161 | one second per timestamp |
| Timestamps.Millisecs | create_summary_table.py:162-166 | one value per timestamp, the floor of its microseconds over 1000 |
| Timestamps.Decompose | create_summary_table.py:142-166 | the decompositions of valid timestamps are in calendar and clock ranges, and together they rebuild a whole-millisecond timestamp |
| Timestamps.CalendarEdges | create_summary_table.py:140 | 29 Feb is accepted in 2024 and refused in 2023; `'69` is 1969 and `'68` is 2068; second 60 is refused |
| Timestamps.ExampleTimestamp | create_summary_table.py:136-166 | `05 Jan '24 12:30:45.123` parses to 2024-01-05 12:30:45.123 and decomposes to 2024-01-05, 12, 30, 45, 123 |
| Timestamps.ExampleText | create_summary_table.py:140 | formatting that timestamp gives the sample text back |
| EventIds.EventIdAt | create_summary_table.py:169 | a captured event identifier is a nonempty digit string |
| EventIds.EventIdsFrom | create_summary_table.py:169 | every identifier found is a nonempty digit string |
| EventIds.EventIdsOf | create_summary_table.py:167-170 | a missing header raises `TypeError`; otherwise a list of digit strings |
| EventIds.NoEventInside | create_summary_table.py:169 | matches of `EventID=(\d+)\n` never overlap |
| EventIds.EventIdsFromEvery | create_summary_table.py:169 | the non-overlapping search returns the identifier of every position where the pattern matches, in header order |
| EventIds.NoMarkerNoEventIds | create_summary_table.py:169 | a header without `EventID=` has no identifiers |
| Summary.At | create_summary_table.py:201-207 | `xs[i] if i < len(xs) else None` is present exactly when `i` is in range, and is then `xs[i]` |
| Summary.AtOrNone | create_summary_table.py:208-211 | the same padding for lists whose entries may themselves be `None` |
| Summary.Rows | create_summary_table.py:197-212 | one row per description, all with the same device and file; each field is present only where its list reaches |
| Summary.RowsPadding | create_summary_table.py:198-212 | row `i` holds index `i` of every field list, or `None` past that list's end |
| Summary.LastIndexOf | create_summary_table.py:194 | the last position of a character, or -1 when it is absent |
| Summary.SplitExt | create_summary_table.py:194 | `os.path.splitext` cuts the name into two parts that concatenate back to it |
| Summary.SplitExtMeaning | create_summary_table.py:194 | the extension is empty, or a dot followed by no dot and no separator |
| Summary.DatLastDot | create_summary_table.py:177 | in a `.dat` name the last dot starts the suffix, after any separator |
| Summary.DatFileStem | create_summary_table.py:194 | the file column is the name without `.dat`, except for names of only dots before `.dat` (such as `.dat`), which `splitext` leaves whole |
| Summary.RecordingRows | create_summary_table.py:177-213 | entries that are not `.dat` files add nothing; a recording adds one row per description, each with the device and file stem |
| Summary.AppendRows | create_summary_table.py:197-213 | the row loop appends exactly the recording's rows and leaves earlier rows untouched |
| Summary.ProcessRecording | create_summary_table.py:177-213 | the loop body for one entry appends that entry's rows, or propagates the exception it raises |
| Summary.CreateSummaryTable | create_summary_table.py:172-218 | the loop over the directory listing computes the specified table |
| Summary.SummaryTableMeaning | create_summary_table.py:172-213 | the table exists exactly when no entry raises; it then holds one row per description of every `.dat` file, file after file in listing order |
| Summary.FailedLoadNoRows | create_summary_table.py:43-50 | a recording whose load fails adds no rows, and raises `TypeError` when no header was ever read |

## Left out

- The COMTRADE loader is not part of this model. Each directory entry
  carries two values:
  - whether `comtrade.load` returned normally;
  - the header text the shared `Comtrade` object holds afterwards. After a
    failed load this is the previous recording's header, or `None` before
    any header was read.
- Filesystem and console effects are not modelled: `os.listdir`,
  `os.path.getsize`, `os.path.join`, `print`, `traceback`, `os.makedirs`
  and `main()`. The directory listing is an input sequence, in listing
  order.
- The pandas `DataFrame` and its CSV output are not modelled. The table is
  a sequence of rows whose thirteen fields follow the column order.
- The general regular-expression engine is not modelled. Only the
  patterns the script uses are written out, as scanners over the text.
- `\d`, `\s` and `\w` are ASCII only here; Python also matches other
  Unicode digits, spaces and letters.
- `%b` is the English month abbreviations, matched ignoring case; other
  locales are not modelled.
- `strptime` is modelled only on text of the capture's exact shape, which
  is the only text the timestamp regex passes to it.
- `datetime` and `date` objects are records of their fields; time zones are
  not modelled, as the script drops the offset.
- `os.path.splitext` is modelled with `/` as the only separator; Windows
  separators are not modelled.
- The other scripts are not part of this model: `dat_to_csv.py`,
  `extract_types.py`, `extract_all_classes.py` and `main.py`. They are I/O
  around the same splitter pattern.
- Subclasses.SubclassesSpec: states the bounds and the source of each entry
  only. The exact position-by-position result, for when every eligible class
  finds its token, is stated separately by Subclasses.SubclassesFromAligned.

Behaviour of the code that its names and comments do not suggest, which
the model follows:

- **Class pass.** The class pass appends every class label a description
  contains, not only the first. A description with two labels therefore
  shifts the later entries. Alignment with first-match classes is proved
  only for descriptions with at most one label.
- **Subclass pass.** When an eligible class finds none of its tokens, the
  subclass pass appends nothing and keeps the counter. It does not append
  `None`.
- **Fast Transient letter.** The greedy `[a-zA-Z]*` backtracks to the
  rightmost class character in the letter run. `FastTransientAB C` gives
  `B`, not `C`. The class `[A|B|C|N]` also admits the bar.
- **Other descriptions in the variable pass.** These rescan all
  descriptions from the first one, since the inner loop reuses the loop
  variable. Each rescan appends every target variable the description
  contains.
- **`IndexError`.** A Fast Transient description with no letter raises
  `IndexError`, which ends the whole run, but only if the variable pass
  reaches it. The pass reads the leading run of Fast Transient descriptions
  and the run right after the first other description. The second other
  description ends the pass, so for `["x", "y", "Fast Transient"]` the pass
  succeeds.
- **Failed load.** A recording whose load fails yields no descriptions. The
  timestamp and event-identifier passes still read the `Comtrade` object's
  header: a stale one, or `None`, which raises `TypeError`.
