# A verified model of the task-runner service in `app.py`

`app.py` is a small Flask service that works inside the sandbox directory `/data`.

- `POST /run?task=<text>` reads a free-text task description.
  - It classifies the description by keywords into one of three handlers:
    - format `format.md` with prettier;
    - count the Wednesdays listed in `dates.txt`;
    - sort `contacts.json` by last name, then first name.
  - It answers 200 on success, 400 for a missing or unknown task or any `ValueError`, and 500 for any other exception.
- `GET /read?path=<path>` serves a file.
  - It refuses any path that does not start with `/data` (403).
  - It reports a missing file as 404.

This project models that core in Dafny and proves what each piece promises.

| module | file | what it models |
|---|---|---|
| `Wrappers` | wrappers.dfy | `Option` and `Result` |
| `Text` | text.dfy | `str.lower` on ASCII, substring `in`, `startswith`, `str.strip`, `str(n)` for a count, and Python's `<` on strings (code-point order) |
| `Dispatch` | dispatch.dfy | `process_task`'s classifier: three keyword pairs checked in order on the lower-cased text, first match wins |
| `Calendar` | calendar.dfy | the proleptic Gregorian calendar behind `datetime`: validity, ordinal day number, `weekday()` (Monday is 0) |
| `DateParse` | dateparse.dfy | `datetime.strptime(s, "%Y-%m-%d")`, including the one-digit month and day forms and the space-padded day that `%m` and `%d` accept |
| `Wednesdays` | wednesdays.dfy | the counting generator of `count_wednesdays`: strip each line, parse it, count weekday 2, and fail on the first line that does not parse |
| `Sorting` | sorting.dfy | `list.sort(key=...)` for a tuple-of-strings key: a stable sort, specified as a function and implemented as an in-place insertion sort on an `array` |
| `Contacts` | contacts.dfy | the contact records and the key `(x.get("last_name", ""), x.get("first_name", ""))` |
| `Paths` | paths.dfy | splitting an absolute path on `/` and resolving `.` and `..` lexically, to state where a path that passes the read guard leads |
| `Service` | service.dfy | the handlers, `run_task`'s status mapping, and `read_file` |

How the sandbox is modelled:
- What the handlers find in the sandbox is a `Sandbox` value, given as a parameter:
  - whether `format.md` exists and whether prettier succeeds on it;
  - the lines of `dates.txt` as `readlines` returns them;
  - the contacts as `json.load` decodes them, or the fact that the file does not decode.
- What a handler writes comes back as a list of `Effect`s, so every request is a function of its inputs.
- `read_file`'s existence check is the boolean parameter `present`.

## Model

| member | source | states |
|---|---|---|
| Text.LowerChar | app.py:49 | an upper-case ASCII letter becomes its lower-case letter, any other character is unchanged, and no result is upper-case |
| Text.Lower | app.py:49 | `s.lower()` on ASCII: the same length, no upper-case letter left, `A`–`Z` lowered and every other character kept |
| Text.LowerIdempotent | app.py:49-53 | lower-casing twice is lower-casing once |
| Text.Contains | app.py:49-53 | `w in s` holds exactly when `w` occurs in `s` at some position |
| Text.StartsWithIff | app.py:37 | `s.startswith(p)` holds exactly when `s` is `p` followed by something |
| Text.TrimStartSpec | app.py:84 | stripping the front removes a prefix made only of whitespace and leaves a result that does not start with whitespace |
| Text.TrimEndSpec | app.py:84 | stripping the back removes a suffix made only of whitespace and leaves a result that does not end with whitespace |
| Text.Strip | app.py:84 | `strip()` returns a slice of its input with only whitespace cut off on either side; a non-empty result neither starts nor ends with whitespace |
| Text.StripNewline | app.py:80-84 | a line read with its newline strips back to its text when that text has no whitespace at either end |
| Text.StripIdempotent | app.py:84 | stripping twice is stripping once |
| Text.DigitChar | app.py:87 | each digit value has a digit character that reads back as that value |
| Text.Decimal | app.py:87 | `str(n)` is a non-empty string of digits, its first digit is 0 only for 0, and it reads back as `n` |
| Text.StrLess | app.py:104 | Python's `<` on strings, by code point with a proper prefix smaller; the four lemmas below prove it a strict total order |
| Text.StrLessIrreflexive | app.py:104 | no string is less than itself |
| Text.StrLessTransitive | app.py:104 | string `<` is transitive |
| Text.StrLessTotal | app.py:104 | of two different strings one is less than the other |
| Text.StrLessAsymmetric | app.py:104 | string `<` never holds both ways |
| Dispatch.Classify | app.py:45-56 | the task is Format exactly when the lower-cased text contains "format" and "prettier"; CountWednesdays exactly when it contains "count" and "wednesdays" and not the first pair; SortContacts exactly when it contains "sort" and "contacts" and neither earlier pair; Unknown exactly when it contains no pair |
| Dispatch.FormatWins | app.py:49-50 | a text with both format keywords is Format, and stays Format whatever is added before or after it |
| Dispatch.MentionsExtends | app.py:49-54 | a keyword found in a text is still found after text is added at either end |
| Dispatch.LowerConcat | app.py:49 | lower-casing distributes over concatenation |
| Dispatch.ClassifyIgnoresCase | app.py:49-54 | two texts equal up to ASCII case get the same task |
| Dispatch.ClassifyLowered | app.py:49-54 | lower-casing a text first does not change its task |
| Dispatch.NotMentioned | app.py:49-54 | a keyword whose first letter does not occur in the lower-cased text is not found |
| Dispatch.MentionedAt | app.py:49-54 | a keyword that matches the lower-cased text at one position is found |
| Dispatch.ExampleFormat | app.py:49-50 | "Run PRETTIER to format" is Format, whatever the case |
| Dispatch.ExamplePriority | app.py:49-52 | a text that mentions both the count and the format pairs is Format, because the first pair wins |
| Dispatch.ExampleSubstring | app.py:53 | "Resort contacts" is SortContacts, because the test is a substring test |
| Dispatch.ExampleCount | app.py:51 | "Count Wednesdays" is CountWednesdays |
| Dispatch.ExampleUnknown | app.py:55-56 | "Format it" (one word of a pair) is Unknown |
| Dispatch.ExampleEmpty | app.py:55-56 | the empty text is Unknown |
| Calendar.DaysInMonth | app.py:84 | a month has 28 to 31 days, and 29 exactly for February of a leap year |
| Calendar.Ordinal | app.py:84 | `date.toordinal()`; Calendar.FirstDay, Calendar.OrdinalOfNextDay and Calendar.OrdinalRange pin it to 1 for 0001-01-01, one more per day, up to 3652059 |
| Calendar.Weekday | app.py:84 | `weekday()` lies in 0..6 |
| Calendar.DaysBeforeNextMonth | app.py:84 | the next month starts after all the days of this one |
| Calendar.DaysBeforeMonthsOfYear | app.py:84 | the twelve months fill the year exactly |
| Calendar.DaysBeforeNextYear | app.py:84 | the next year starts after all the days of this one |
| Calendar.OrdinalOfNextDay | app.py:84 | the day after a valid date (other than 9999-12-31) is valid and has the next ordinal |
| Calendar.WeekdayOfNextDay | app.py:84 | the day after a date falls on the next weekday, wrapping from Sunday to Monday |
| Calendar.FirstDay | app.py:84 | 0001-01-01 has ordinal 1 and is a Monday, as in `datetime` |
| Calendar.OrdinalRange | app.py:84 | ordinals of valid dates run from 1 to 3652059 |
| Calendar.January2024 | app.py:84 | day `d` of January 2024 has weekday (d + 6) mod 7, so it is a Wednesday exactly when d mod 7 is 3 |
| Calendar.LeapDay2000 | app.py:84 | 2000-02-29 is valid (2000 is divisible by 400) and a Tuesday |
| DateParse.ParseDate | app.py:84 | every date `strptime` returns is a valid calendar date |
| DateParse.MatchIsUnique | app.py:84 | a text splits into year, month and day tokens in at most one way |
| DateParse.ParseDateMeetsFormat | app.py:84 | the parser returns a date exactly when the text matches `%Y-%m-%d` as a whole for that valid date, and fails when no date matches |
| DateParse.YearDigits | app.py:84 | every year 1..9999 has a four-digit token that reads back as that year |
| DateParse.TwoDigits | app.py:84 | every day 1..31 (and month 1..12) has a two-digit token that reads back as that number |
| DateParse.ParseIsoFormat | app.py:84 | parsing the zero-padded ISO text of a valid date gives back the date |
| DateParse.ShortFormsAccepted | app.py:84 | "2024-1-3" and "2024-01- 3" parse as 3 January 2024 |
| DateParse.RejectsMonth13 | app.py:84 | month 13 is refused |
| DateParse.RejectsCommonLeapDay | app.py:84 | 29 February of a common year is refused |
| DateParse.RejectsYearZero | app.py:84 | year 0000 is refused |
| DateParse.RejectsTrailingText | app.py:84 | a date followed by a newline is refused, which is why each line is stripped first |
| DateParse.RejectsShortText | app.py:84 | a two-digit year and the empty text are refused |
| DateParse.ParsesJanuary1 | app.py:84 | "2024-01-01" parses as that date |
| DateParse.ParsesJanuary3 | app.py:84 | "2024-01-03" parses as that date |
| DateParse.ParsesJanuary10 | app.py:84 | "2024-01-10" parses as that date |
| DateParse.ParsesJanuary17 | app.py:84 | "2024-01-17" parses as that date |
| DateParse.LeapDayAccepted | app.py:84 | "2024-02-29" parses, 2024 being a leap year |
| Wednesdays.LineDate | app.py:84 | `strptime(date.strip(), "%Y-%m-%d")` for one line; Wednesdays.LineOfDate and DateParse.ParseDateMeetsFormat state when it gives a date |
| Wednesdays.LineWeekday | app.py:84 | a line has a weekday exactly when its stripped text parses, and that weekday lies in 0..6 |
| Wednesdays.SumWednesdays | app.py:84 | the sum succeeds exactly when every line parsed, is never more than the number of lines, and otherwise reports the first line that failed |
| Wednesdays.SumCountsWednesdays | app.py:84 | a successful sum equals the number of lines that fall on a Wednesday |
| Wednesdays.PositionsOfPrefix | app.py:84 | adding one line adds one to the Wednesday count exactly when that line is a Wednesday |
| Wednesdays.CountWednesdays | app.py:84 | the count succeeds exactly when every stripped line parses; its value is then the number of Wednesday lines; otherwise the error is the stripped text of the first line that fails |
| Wednesdays.BlankLineFails | app.py:84 | one blank line makes the whole count fail |
| Wednesdays.MalformedLineFails | app.py:84 | one line that matches no date makes the whole count fail |
| Wednesdays.SumAppend | app.py:84 | the count over two runs of lines is the sum of their counts |
| Wednesdays.LineOfDate | app.py:84 | a line whose stripped text parses as `d` has the weekday of `d` |
| Wednesdays.LineOfJanuary1 | app.py:84 | the line "2024-01-01\n" falls on a Monday |
| Wednesdays.LineOfJanuary3 | app.py:84 | the line "2024-01-03\n" falls on a Wednesday |
| Wednesdays.LineOfJanuary10 | app.py:84 | the line "2024-01-10\n" falls on a Wednesday |
| Wednesdays.LineOfJanuary17 | app.py:84 | the line "2024-01-17\n" falls on a Wednesday |
| Wednesdays.CountOfMondayAndThreeWednesdays | app.py:84 | four lines that fall on a Monday and three Wednesdays count 3 |
| Wednesdays.ExampleCount | app.py:79-84 | the file "2024-01-01", "2024-01-03", "2024-01-10", "2024-01-17", read line by line, counts 3 |
| Wednesdays.ExampleBlankLine | app.py:84 | a trailing blank line makes the count fail even after a good line |
| Sorting.KeyLessIrreflexive | app.py:104 | no key is less than itself |
| Sorting.KeyLessTransitive | app.py:104 | tuple `<` is transitive |
| Sorting.KeyLessTotal | app.py:104 | of two different keys one is less than the other |
| Sorting.KeyLessAsymmetric | app.py:104 | tuple `<` never holds both ways |
| Sorting.NotLessTransitive | app.py:104 | "not less than" is transitive |
| Sorting.WithKeyAppend | app.py:104 | the records with a given key in a concatenation are those of each part, in order |
| Sorting.WithKeyMembers | app.py:104 | the records with a given key come from the list and have that key |
| Sorting.Insert | app.py:104 | one step of the stable insertion; Sorting.InsertPermutes, Sorting.InsertKeepsSorted and Sorting.InsertKeepsKeyOrder state what it keeps |
| Sorting.InsertPermutes | app.py:104 | inserting one record adds exactly that record |
| Sorting.AppendMaximal | app.py:104 | a record no smaller than any in a sorted list can go at its end |
| Sorting.InsertKeepsSorted | app.py:104 | inserting into a sorted list keeps it sorted |
| Sorting.InsertKeepsKeyOrder | app.py:104 | an inserted record goes after every record with its key, and the order within every key is kept |
| Sorting.StableSort | app.py:104 | the list `list.sort(key=...)` leaves; Sorting.StableSortCorrect and Sorting.StableSortIsUnique prove it sorted, a permutation, stable and the only such list |
| Sorting.StableSortCorrect | app.py:104 | the sort is sorted, a permutation of its input, and stable (records with equal keys keep their order) |
| Sorting.LastIsMaximal | app.py:104 | the last record of a sorted list has the largest key |
| Sorting.SameLastKey | app.py:104 | two sorted lists with the same records per key end in the same key |
| Sorting.SameLast | app.py:104 | two sorted lists with the same records per key end in the same record, and the rest again have the same records per key |
| Sorting.SortedByGroupsIsUnique | app.py:104 | two sorted lists with the same records in each key, in the same order, are equal |
| Sorting.StableSortIsUnique | app.py:104 | any sorted, stable arrangement of a list is the stable sort of it, so the sorted output is fully determined |
| Sorting.SortingSortedChangesNothing | app.py:104 | sorting a list that is already sorted leaves it unchanged |
| Sorting.StableSortIdempotent | app.py:104 | sorting twice is sorting once |
| Sorting.SortSnoc | app.py:104 | sorting a list with one more record at the end inserts that record into the sorted rest |
| Sorting.SortThree | app.py:104 | when the second and third records sort before the first, and the third not before the second, sorting gives second, third, first |
| Sorting.InsertAt | app.py:104 | inserting goes after the last record that is not greater than the new one |
| Sorting.InsertLast | app.py:104 | one pass of the in-place insertion sort: the element at `i` moves into the sorted prefix before it, as the insertion function states, and the rest of the array is unchanged |
| Sorting.SortInPlace | app.py:104 | `list.sort(key=...)` in place: the array ends as the stable sort of its old contents, so it is sorted, a permutation, and stable |
| Contacts.Key | app.py:104 | the key `(x.get("last_name", ""), x.get("first_name", ""))`; Contacts.KeyOrder states the order it induces |
| Contacts.KeyOrder | app.py:104 | one contact sorts before another exactly when its last name is smaller, or the last names are equal and its first name is smaller |
| Contacts.NamelessSortsFirst | app.py:104 | a contact with neither name never sorts after another, because both fields default to "" |
| Contacts.MissingLastNameFirst | app.py:104 | a contact without a last name sorts before one with a non-empty last name |
| Contacts.SortContacts | app.py:104 | the contacts array ends sorted by (last name, first name), as a permutation of the old one, with equal keys in their old order |
| Contacts.ExampleKeys | app.py:104 | Amy Adams and Cara Adams sort before Bob Zed, and Cara Adams does not sort before Amy Adams |
| Contacts.ExampleSort | app.py:104 | Bob Zed, Amy Adams, Cara Adams sort to Amy Adams, Cara Adams, Bob Zed |
| Paths.SlashIndex | app.py:36-43 | the first slash of a text, or its length when it has none |
| Paths.Split | app.py:36-43 | splitting gives at least one segment |
| Paths.Resolve | app.py:40-43 | where `os.path.exists` and `send_file` look for a path, resolved lexically; Paths.ResolveUpAndOut and Paths.ResolveSibling show escapes from `/data` |
| Paths.WalkKeepsPrefix | app.py:36-43 | without "..", resolving only goes deeper: the directories already reached stay a prefix |
| Paths.SplitSegment | app.py:36-43 | splitting peels off one segment before a slash |
| Paths.SplitLast | app.py:36-43 | a text without a slash is one segment |
| Paths.SplitBelow | app.py:36-43 | a path below a top-level directory splits into "", that directory's name, and the rest's segments |
| Paths.SplitBelowDataDir | app.py:36-43 | a path below `/data/` splits into "", "data", and the rest's segments |
| Paths.SplitDataDir | app.py:8 | `/data` splits into "" and "data" |
| Paths.WalkFromDataDir | app.py:36-43 | going down into "data" and then through segments without ".." stays below "data" |
| Paths.Confined | app.py:36-38 | the guard the comment at app.py:36 asks for: `/data` itself or a path below it with no ".." segment; Paths.ConfinedLeadsIntoDataDir proves it keeps reads inside `/data` |
| Paths.ConfinedLeadsIntoDataDir | app.py:36-38 | every path the confined guard admits resolves to `/data` or below it |
| Paths.ResolveUpAndOut | app.py:36-43 | `/data/../<name>` resolves to the root entry `<name>` |
| Paths.SplitUpAndOut | app.py:36-43 | the segments of `/data/../<name>` are "", "data", "..", `<name>` |
| Paths.WalkUpAndOut | app.py:36-43 | walking "", "data", "..", `<name>` ends at `<name>` |
| Paths.ResolveSibling | app.py:36-43 | `/data<suffix>` resolves to the root entry `data<suffix>`, a sibling of `/data` |
| Service.PathsInDataDir | app.py:62-96 | every file a handler reads or writes lies inside `/data` (its path starts with `/data/`) |
| Service.RunPrettier | app.py:58-67 | the task returns exactly when `format.md` exists and prettier succeeds, with the message "Formatted /data/format.md"; a missing file raises `FileNotFoundError` with nothing done |
| Service.CountWednesdaysTask | app.py:69-89 | a missing `dates.txt` raises `FileNotFoundError`; the task returns exactly when every line parses, and then writes the decimal number of Wednesday lines and nothing else; a failure is a `ValueError` with nothing written |
| Service.SortContactsTask | app.py:91-109 | a missing `contacts.json` raises `FileNotFoundError`; the task returns exactly when the file decodes, and then writes one file, `contacts-sorted.json`, sorted by key, a permutation of the input and stable; a failure writes nothing |
| Service.ProcessTask | app.py:45-56 | an unknown task raises the "Unknown task description" `ValueError`, and only it does, with nothing done |
| Service.StatusOf | app.py:21-30 | 200 exactly when the task returns; 400 exactly for a `ValueError`; 500 exactly for any other exception |
| Service.RunTask | app.py:14-30 | an empty task is refused with 400 "Task description is required" before anything runs; every status is 200, 400 or 500; nothing is written unless the status is 200 |
| Service.ReadFile | app.py:32-43 | 403 exactly when the path does not start with "/data"; 404 exactly when it does and no file is there; otherwise 200 with the file itself |
| Service.ReadFileConfined | app.py:36-43 | the read endpoint with the confined guard: 403 exactly when the guard refuses, 404 and 200 as before |
| Service.SuccessIff | app.py:14-30 | `/run` answers 200 exactly when the task text is non-empty, it names a known task, and that task's handler succeeds |
| Service.ServerErrorIff | app.py:21-30 | `/run` answers 500 exactly when a known task's input file is missing or prettier fails |
| Service.UnknownTaskIsClientError | app.py:23-28 | an unrecognised task is 400 with the message "Unknown task description" and no effects |
| Service.MissingInputIsServerError | app.py:29-30 | a known task whose input file is missing is a 500 with "<path> not found" and no effects |
| Service.CountWrittenWhenAllParse | app.py:84-89 | when every line parses, `/data/dates-wednesdays.txt` receives the decimal number of Wednesday lines and the reply names that file |
| Service.NoCountWhenALineFails | app.py:84-87 | when some line fails to parse, the reply is 400 identifying the first failing line (the message text is not modelled), and the output file is not written |
| Service.ContactsWrittenSorted | app.py:101-109 | the sort task writes one file, `/data/contacts-sorted.json`, with the contacts sorted by key, a permutation of the input, and stable |
| Service.UndecodableContactsIsClientError | app.py:101-102 | a `contacts.json` that is not valid JSON is a 400 and nothing is written |
| Service.FormattedWhenPrettierSucceeds | app.py:23-25 | a format task whose prettier run succeeds answers 200 with the handler's result "Formatted /data/format.md", and `format.md` is the one file formatted |
| Service.FormatterFailureIsServerError | app.py:66 | a failing prettier run is a 500 |
| Service.EffectsStayInDataDir | app.py:62-107 | everything `/run` writes or formats lies inside `/data` |
| Service.ExampleCountReply | app.py:69-89 | "Count Wednesdays" on the four example dates answers 200 and writes "3" |
| Service.ReadGuardIsPrefixTest | app.py:37-43 | "/data/dates.txt" is served, or 404 when absent; "/database/secret" and "/data/../etc/passwd" pass the guard; "/dat", "data/dates.txt" and "" are refused with 403 |
| Service.PrefixGuardAdmitsEscapes | app.py:36-43 | the guard serves `/data/../<name>`, which resolves to a root entry outside `/data` |
| Service.PrefixGuardAdmitsSiblings | app.py:36-43 | the guard serves `/data<suffix>`, a sibling of `/data` and not inside it |
| Service.ConfinedReadStaysInDataDir | app.py:36-43 | with the confined guard, whatever is served resolves to `/data` or below it |
| Service.ConfinedGuardRefusesEscapes | app.py:36-38 | the confined guard refuses both `/data/../<name>` and `/data<suffix>` |
| Service.ConfinedGuardKeepsEntries | app.py:36-43 | the confined guard answers every direct entry of `/data` exactly as the original guard does |

## Findings

| source | as written | input that shows it | evidently intended | confidence | as-written member | corrected member |
|---|---|---|---|---|---|---|
| app.py:36-38 | `file_path.startswith(DATA_DIR)` is a bare string-prefix test | `/data/../etc` (any `/data/../<name>`) and `/datab` pass the test although they lie outside `/data` | the comment says "Prevent accessing files outside /data": only `/data` and paths below it, with no `..` segment | not executed | Service.ReadFile, Service.PrefixGuardAdmitsEscapes, Service.PrefixGuardAdmitsSiblings | Service.ReadFileConfined, Service.ConfinedReadStaysInDataDir, Paths.ConfinedLeadsIntoDataDir |

`Service.ReadFile` keeps the guard exactly as written.
- `Service.ReadFileConfined` is the hardened alternative.
- `Service.ConfinedGuardKeepsEntries` shows that it answers every direct entry of `/data` the same way.
- Nothing else in the model reads files through the guard, so the handlers are unaffected.
- Resolution is lexical: a symbolic link inside `/data` can still point elsewhere (see below).

## Left out

- The Flask plumbing: routing, query-string decoding, JSON response bodies and `send_file`'s streaming and content type. A missing query parameter is the empty string, as `request.args.get(..., '')` gives.
- File-system I/O.
  - Existence checks, reads and writes are replaced by the `Sandbox` value and the returned `Effect`s.
  - `readlines` is taken as already split, with each line keeping its newline.
  - Newline translation on reading is not modelled.
- The contents prettier produces, and whether npx is installed. Only prettier's success or failure is modelled (`check=True` turns a failure into a 500).
- JSON decoding and encoding (`json.load`, `json.dump(..., indent=2)`).
  - A `contacts.json` is either decoded records or undecodable.
  - Field values are strings; a contact whose name fields are numbers or `null` (where Python's tuple comparison could raise `TypeError`) is not modelled.
  - So is a top-level JSON value that is not a list.
  - So is a list element that is not a JSON object (`[1]`, `["x"]`, `[null]`), where `x.get` in the sort key raises `AttributeError` and `run_task` answers 500.
- The exact text of library exception messages: a `strptime` error is modelled as "the stripped line that failed", a JSON error or failed prettier run as an error with no text.
- Unicode beyond ASCII in `str.lower()`: only `A`–`Z` are lowered. `strptime`'s `\d`, which also matches non-ASCII decimal digits, is modelled as ASCII digits only.
- `str.strip()` uses the code points that Python's `str.isspace` accepts; Unicode normalisation does not arise.
- Locale, time zones and any `strptime` directive other than `%Y`, `%m` and `%d`.
- Concurrency between requests, and partial writes when a write fails half-way.
- Symbolic links and directories in the read guard:
  - `Paths.Resolve` is lexical resolution only;
  - a path naming a directory, which `send_file` would fail on, is treated like a file.
- Wednesdays.CountWednesdays: a failure identifies the first line that does not parse by its stripped text. The library's message varies with the cause and may not contain the line; its wording is not modelled.
- Creating `/data` at start-up (app.py:11-12) is left out: the model assumes the directory exists.
- A date or JSON decoding failure is a `ValueError` (`json.JSONDecodeError` subclasses it), so `run_task` answers 400 for it, not 500; the model follows the code.
