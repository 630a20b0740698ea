# space_gantt: Space → OpenProject synchronisation, modelled in Dafny

`space_gantt` copies the issues tagged "gantt" in a JetBrains Space project into work packages of an OpenProject project, so that OpenProject can draw them as a Gantt chart. One run (`space_to_openproject`) works as follows.

- It reads every tagged issue from Space. For each one, it looks up the description and tags and parses the description, which yields:
  - dependency lines (`depends … https://…/<number>`);
  - a duration in days (`duration … <n> d…`);
  - an earliest start date (`earliest … m/d/yyyy`).
- It compares the items read with the snapshot saved by the last successful run. If they are equal, it stops.
- Otherwise it works on OpenProject:
  - it deletes every work package;
  - it creates one work package per item, named `[<number>] <title>`, starting on the earliest start and due `duration` days later;
  - it relates each item's work package to those of its dependencies with a `follows` relation;
  - it saves the items as the new snapshot.
- The first exception aborts the run.

The model has nine modules, one file each.

| file | module | what it holds |
|---|---|---|
| `base.dfy` | `Base` | `Option`, `Result` and the exceptions the program can raise (`HttpError`, `KeyError`, `ValueError`, `OverflowError`, `StopIteration`) |
| `text.dfy` | `Text` | Python's `str.strip`, `str.lower`, `str.splitlines`, `str.find`, `int` and `str` on ASCII text |
| `dates.dfy` | `Dates` | proleptic Gregorian dates from year 1 to 9999, day ordinals, and `date + timedelta(days=n)` with its `OverflowError` |
| `patterns.dfy` | `Patterns` | the three line regexes of the description parser and `strptime("%m/%d/%Y")` |
| `description.dfy` | `Description` | `process_space_item_description`: a reference definition and the loop, proved equal |
| `pagination.dfy` | `Pagination` | the two paginated request generators, as one cursor loop with a step function per protocol |
| `items.dfy` | `Items` | `SpaceItem`, `OpenProjectItem` and the work-package subject |
| `space.dfy` | `Space` | `get_item` and `get_from_space` |
| `openproject.dfy` | `OpenProject` | the OpenProject tracker and its client as a class: listing, deleting, creating and relating work packages |
| `sync.dfy` | `Sync` | the snapshot (`updated`/`save`) as a class, and `space_to_openproject` as methods proved against the plan function `Apply` |

## How the model is built

**Regexes.** Each of the three regexes is a predicate that says when a decomposition of the line matches it. An extraction function computes the group. A lemma shows that the group is the one the backtracking engine settles on, given the greedy `.*`:
- for a dependency, the digits after the last `/`;
- for a duration, the rightmost space-preceded digit run with a `d` after it;
- for the earliest date, a token that starts at the last digit of the month run.

**Servers.** A server is a function from the request's cursor to the decoded response. The Space server also has a function from issue number to lookup answer.

**The OpenProject tracker.** The tracker and its client are one object:
- its packages, their listing order, its relations and the next id are fields;
- a request counter `sent` and a transport oracle `answer` decide which requests are refused with an error status.

**The snapshot file.** It is a field holding `Some(items)`, or `None` when the file is missing or unreadable.

**Where the code and its description differ, the model follows the code.**
- **An empty Space listing is not a no-op.** A listing page without `data` is yielded whole, so `get_from_space` looks for a `number` in it and raises `KeyError` (`Space.EmptyListingRaises`).
- **The earliest-start token does not take a two-digit month.** Because of the greedy prefix, `12/25/2025` is read as `2/25/2025`, and `10/01/2025` raises `ValueError` (`Patterns.EarliestMonthIsOneDigit`, `Patterns.EarliestOfMonth`, `Patterns.DecemberReadAsFebruary`, `Patterns.OctoberRaises`).
- **The duration digits need a space before them.**

## Model

| member | source | states |
|---|---|---|
| Text.StripTrimsOnlySpace | compose/space_gantt/space_gantt/app.py:202 | `strip` removes exactly the leading and trailing whitespace: the result is a slice of the input, neither end of it is whitespace, and everything cut off is whitespace |
| Text.ToLower | compose/space_gantt/space_gantt/app.py:207 | lower-casing keeps the length; `ToLowerChars` carries what it does to each character |
| Text.ToLowerChars | compose/space_gantt/space_gantt/app.py:207 | after lower-casing no ASCII capital remains; each capital becomes the small letter at the same alphabet position, and every other character is kept |
| Text.SplitLines | compose/space_gantt/space_gantt/app.py:202 | no line that `splitlines` returns contains a line-break character |
| Text.SplitLinesSingle | compose/space_gantt/space_gantt/app.py:202 | a non-empty text without line breaks is one line, itself |
| Text.SplitLinesCons | compose/space_gantt/space_gantt/app.py:202 | a break-free piece followed by `\n` or `\r\n` is the first line, and the rest of the text is split after the break |
| Text.StripLower | compose/space_gantt/space_gantt/app.py:202-207 | stripping and lower-casing commute: whitespace is never a letter |
| Text.StripIgnoresCase | compose/space_gantt/space_gantt/app.py:202-207 | texts equal up to ASCII case strip to texts equal up to case |
| Text.SplitLinesLower | compose/space_gantt/space_gantt/app.py:202-207 | the lines of the lower-cased text are the lower-cased lines: line breaks are never letters |
| Text.SplitLinesIgnoreCase | compose/space_gantt/space_gantt/app.py:202-207 | texts equal up to ASCII case split into as many lines, pairwise equal up to case |
| Text.DecimalStringRoundTrip | compose/space_gantt/space_gantt/app.py:238 | `str` of a natural number is a non-empty digit string without a leading zero (except for 0), and `int` reads the number back |
| Dates.OrdinalRange | compose/space_gantt/space_gantt/app.py:240 | every valid date has an ordinal between 1 and that of 9999-12-31, and only 9999-12-31 has the largest one |
| Dates.OrdinalInjective | compose/space_gantt/space_gantt/app.py:240 | two dates with the same ordinal are the same date |
| Dates.NextDayOrdinal | compose/space_gantt/space_gantt/app.py:240 | the day after any date but the last is valid, and its ordinal is one more |
| Dates.Advance | compose/space_gantt/space_gantt/app.py:240 | moving a date `n` days forward, when it stays in range, adds `n` to its ordinal |
| Dates.AddDays | compose/space_gantt/space_gantt/app.py:240 | `start + timedelta(days=n)` succeeds exactly when the ordinal stays within year 9999, and then adds `n` to the ordinal; otherwise it raises `OverflowError` |
| Dates.AddDaysCompose | compose/space_gantt/space_gantt/app.py:240 | adding `a` days and then `b` days is adding `a + b` days, including when the second step overflows |
| Patterns.DependencyMatchFound | compose/space_gantt/space_gantt/app.py:212-213 | whenever the dependency regex matches a line, the extraction returns the value of the digits after the last `/` |
| Patterns.DependencyOfMatches | compose/space_gantt/space_gantt/app.py:212-213 | the extraction finds a dependency exactly when the regex matches, and its value is that of the digit suffix of every matching decomposition |
| Patterns.DurationGroupIsGreedyMatch | compose/space_gantt/space_gantt/app.py:214-215 | the duration group found is a match, and no matching decomposition has its digits further right or a longer digit run at the same place: it is the greedy match |
| Patterns.EarliestGroup | compose/space_gantt/space_gantt/app.py:216 | a group found starts after the end of the first "earliest" in the line, and is three non-empty digit runs separated by `/` |
| Patterns.EarliestMatchFacts | compose/space_gantt/space_gantt/app.py:216 | any match of the earliest regex has "earliest" before the date token, and the token's first two runs are maximal digit runs |
| Patterns.EarliestGroupIsGreedyMatch | compose/space_gantt/space_gantt/app.py:216 | the earliest-date group is found exactly when the regex matches, and it is the rightmost, longest matching token |
| Patterns.DateStartSkipsLeadingDigit | compose/space_gantt/space_gantt/app.py:216 | a date token whose month run has a further digit also starts one digit later, with the same month run end, so the greedy prefix moves on to the last month digit |
| Patterns.EarliestMonthIsOneDigit | compose/space_gantt/space_gantt/app.py:216 | the month of the token handed to `strptime` always has exactly one digit |
| Patterns.StrpTime | compose/space_gantt/space_gantt/app.py:217 | `strptime("%m/%d/%Y")` accepts exactly a one- or two-digit month, a one- or two-digit day and a four-digit year that together name a valid date, and then returns that date; every other token raises `ValueError` |
| Patterns.StrpTimeReadsWrittenDates | compose/space_gantt/space_gantt/app.py:217 | `strptime` reads back the month, day and four-digit year of every valid date from year 1000 on |
| Patterns.EarliestOf | compose/space_gantt/space_gantt/app.py:216-217 | a recognised earliest token either gives a valid date or raises `ValueError` |
| Patterns.EarliestOfMonth | compose/space_gantt/space_gantt/app.py:216-217 | a line gives an earliest date exactly when the regex finds a token, and a date read from it always has a month from 1 to 9 |
| Patterns.EarliestZeroMonthRaises | compose/space_gantt/space_gantt/app.py:216-217 | a token whose month run ends in `0` raises `ValueError`: the month handed to `strptime` is `0` |
| Patterns.TwoDigitMonthGroup | compose/space_gantt/space_gantt/app.py:216 | on `earliest mm/dd/yyyy` with a two-digit month, the token the regex captures starts at the second digit of the month |
| Patterns.DecemberReadAsFebruary | compose/space_gantt/space_gantt/app.py:216-217 | `earliest 12/25/2025` gives 25 February 2025 |
| Patterns.OctoberRaises | compose/space_gantt/space_gantt/app.py:216-217 | `earliest 10/01/2025` raises `ValueError` |
| Patterns.DependencyOf | compose/space_gantt/space_gantt/app.py:212-213 | the dependency a line contributes; `DependencyOfMatches` and `DependencyMatchFound` prove it is the regex group |
| Patterns.DurationOf | compose/space_gantt/space_gantt/app.py:214-215 | the duration a line contributes; `DurationGroupIsGreedyMatch` proves its group is the one the regex reports |
| Patterns.FieldsOf | compose/space_gantt/space_gantt/app.py:212-217 | the three patterns are tried independently on each line; `Description.ParseAppendLine` applies all three |
| Description.CleanAll | compose/space_gantt/space_gantt/app.py:207 | cleaning keeps one cleaned line per line |
| Description.CleanIgnoresCase | compose/space_gantt/space_gantt/app.py:207 | two lines equal up to ASCII case clean to the same line |
| Description.Parse | compose/space_gantt/space_gantt/app.py:199-218 | the reference parse: it fails only with `ValueError`; its properties are the lemmas below and the loop `ParseDescription` is proved to compute it |
| Description.ParseIgnoresCase | compose/space_gantt/space_gantt/app.py:202-207 | descriptions equal up to ASCII case parse to the same result |
| Description.IsStopStartsWith | compose/space_gantt/space_gantt/app.py:210 | a cleaned line stops the scan exactly when it starts with `---` |
| Description.StopIndex | compose/space_gantt/space_gantt/app.py:206-211 | the scan stops at the first stop line, or at the end when there is none |
| Description.StopIndexConcat | compose/space_gantt/space_gantt/app.py:206-211 | in two blocks of lines, the scan stops in the first block if it has a stop line, and otherwise in the second |
| Description.NonBlankConcat | compose/space_gantt/space_gantt/app.py:208-209 | dropping blank lines distributes over concatenation |
| Description.ScannedConcat | compose/space_gantt/space_gantt/app.py:206-211 | the lines the loop looks at in two blocks: those of the first block if it stops, otherwise its non-blank lines and then those of the second block |
| Description.ParseIgnoresAfterStop | compose/space_gantt/space_gantt/app.py:210-211 | nothing from the stop line on affects the result: lines appended after it, the stop line itself and what follows it |
| Description.ParseSkipsBlankLines | compose/space_gantt/space_gantt/app.py:208-209 | inserting a blank line anywhere does not change the result |
| Description.NothingRecognised | compose/space_gantt/space_gantt/app.py:203-205 | with no line recognised, the result is no dependencies, duration 1 and no date |
| Description.ParseDefaults | compose/space_gantt/space_gantt/app.py:202-218 | a description none of whose scanned lines is recognised parses to `([], 1, None)` |
| Description.LastDurationWins | compose/space_gantt/space_gantt/app.py:214-215 | the duration is that of the last line giving one, and 1 when none does |
| Description.LastEarliestWins | compose/space_gantt/space_gantt/app.py:216-217 | without a bad date, the earliest start is that of the last line giving one, and `None` when none does |
| Description.DependenciesConcat | compose/space_gantt/space_gantt/app.py:212-213 | dependencies accumulate in line order, duplicates kept |
| Description.HasBadDateAppend | compose/space_gantt/space_gantt/app.py:217 | a list of lines has a bad date exactly when an earlier line or the new one has |
| Description.HasBadDateConcat | compose/space_gantt/space_gantt/app.py:217 | a bad date stays bad whatever lines follow it |
| Description.CombineAppend | compose/space_gantt/space_gantt/app.py:212-217 | the reference result of a list of lines is built by applying each line in turn, as one loop pass does |
| Description.ParseAppendLine | compose/space_gantt/space_gantt/app.py:206-217 | before any stop line, appending a blank line changes nothing, and appending a non-blank line applies what that line contributes |
| Description.ScannedAppendLine | compose/space_gantt/space_gantt/app.py:206-209 | before any stop line, appending a line adds it to the scanned lines unless it is blank |
| Description.PrefixErrorPersists | compose/space_gantt/space_gantt/app.py:216-217 | once a bad date has raised, no later line changes the outcome |
| Description.ScanStopsAt | compose/space_gantt/space_gantt/app.py:210-211 | on reaching the first stop line, the result is that of the lines before it |
| Description.ScanStep | compose/space_gantt/space_gantt/app.py:206-217 | one loop pass on a non-stop line extends the result of the prefix to the result of the longer prefix |
| Description.ScanFails | compose/space_gantt/space_gantt/app.py:216-217 | a bad date on a scanned line makes the whole parse raise `ValueError` |
| Description.ParseDescription | compose/space_gantt/space_gantt/app.py:199-218 | the loop, with its `continue` and `break`, computes exactly the reference result `Parse` |
| Pagination.PrependTwice | compose/space_gantt/space_gantt/app.py:58-61 | yielding one page and then another is yielding their concatenation |
| Pagination.Fetch | compose/space_gantt/space_gantt/app.py:46-61 | the generator as a bounded recursion; `FetchMoreFuel`, `ChainFetch` and `Drain` carry its properties |
| Pagination.FetchMoreFuel | compose/space_gantt/space_gantt/app.py:46-61 | once a listing finishes within some number of requests, allowing more requests changes nothing |
| Pagination.Drain | compose/space_gantt/space_gantt/app.py:87-110 | the cursor loop produces the listing the generator produces, with exactly as many requests as it needs |
| Pagination.First | compose/space_gantt/space_gantt/app.py:70-78 | `next()` on a response returns its first yielded object when there is one; otherwise it raises the response's exception, or `StopIteration` |
| Pagination.FirstIsHeadOfStream | compose/space_gantt/space_gantt/app.py:70-78 | `next()` on the generator is the head of the whole listing, or the exception raised before anything is yielded |
| Pagination.FetchSameStep | compose/space_gantt/space_gantt/app.py:46-61 | the listing depends on a cursor only through the response it gets |
| Pagination.ChainFetch | compose/space_gantt/space_gantt/app.py:58-61 | a chain of pages, each asking for the next, yields the concatenation of their items |
| Pagination.FetchEndsBelow | compose/space_gantt/space_gantt/app.py:107-110 | pages that advance the cursor by one under a bound end the listing within the bound |
| Pagination.ChainUnlessRefusedFetch | compose/space_gantt/space_gantt/app.py:95-110 | a chain whose pages may be refused yields all items when none is refused, and raises an HTTP error otherwise |
| Pagination.SpaceStep | compose/space_gantt/space_gantt/app.py:53-61 | an error status raises before anything is yielded; a response without data is yielded whole and ends; it continues only with `$skip = next` and `next < totalCount` |
| Pagination.SpaceListingChain | compose/space_gantt/space_gantt/app.py:55-61 | a Space listing of items in pages of a fixed size is a chain of pages from any position |
| Pagination.SpaceListingYieldsAll | compose/space_gantt/space_gantt/app.py:53-61 | draining a well-behaved Space listing yields every item in order; an empty listing yields its envelope |
| Pagination.OpenProjectStep | compose/space_gantt/space_gantt/app.py:96-110 | an error status raises; 204 ends without yielding; a response without `total` is yielded whole; a missing `_embedded` raises `KeyError('_embedded')` and a missing `elements` raises `KeyError('elements')`, both before yielding; an empty page ends; it continues only from a non-empty page with `count != total`, to the next `offset` (1 when absent) |
| Pagination.OpenProjectListingChain | compose/space_gantt/space_gantt/app.py:103-110 | an OpenProject listing served without errors is a chain of pages from any page on |
| Pagination.OpenProjectListingYieldsAll | compose/space_gantt/space_gantt/app.py:91-110 | draining an OpenProject listing served without errors yields every work package in order |
| Pagination.OpenProjectListingAdvances | compose/space_gantt/space_gantt/app.py:107-110 | each OpenProject page either ends the listing or asks for the next page, below the bound |
| Pagination.OpenProjectListingTerminates | compose/space_gantt/space_gantt/app.py:104-110 | an OpenProject listing ends within one request more than it has work packages, whatever the statuses |
| Pagination.OpenProjectListingChainUnlessRefused | compose/space_gantt/space_gantt/app.py:95-110 | an OpenProject listing whose pages may be refused is a chain unless refused |
| Pagination.OpenProjectListingOutcome | compose/space_gantt/space_gantt/app.py:95-110 | an OpenProject listing either yields every work package or raises an HTTP error status |
| Items.IntToStringShape | compose/space_gantt/space_gantt/app.py:238 | `str` of an integer is a minus sign exactly for negatives, followed by the decimal digits of its magnitude |
| Items.IntToStringInjective | compose/space_gantt/space_gantt/app.py:238 | different integers have different `str` |
| Items.SubjectShape | compose/space_gantt/space_gantt/app.py:238 | a subject is `[`, the number, `]`, a space and the title, with no `]` inside the number |
| Items.SubjectInjective | compose/space_gantt/space_gantt/app.py:238 | different (number, title) pairs get different subjects |
| Space.GetItem | compose/space_gantt/space_gantt/app.py:70-78 | an issue lookup fails exactly on an error status, and then raises that HTTP error |
| Space.MakeItem | compose/space_gantt/space_gantt/app.py:174-196 | an object without a number raises `KeyError('number')`; a refused lookup raises its HTTP error; a bad date in the description raises `ValueError`; missing tags raise `KeyError('tags')`; otherwise the item has the issue's number, title and due date, the description (`""` for null), the tag names, and the parsed dependencies, duration and earliest start, which falls back to the creation date |
| Space.MakeItemStart | compose/space_gantt/space_gantt/app.py:176-183 | an item starts on the date of the last scanned description line giving one, and on the creation date when none does |
| Space.CollectOk | compose/space_gantt/space_gantt/app.py:173-196 | a successful read makes one item per listed object, in order, each the one that object makes |
| Space.CollectAllMade | compose/space_gantt/space_gantt/app.py:173-196 | the read succeeds whenever every listed object makes an item |
| Space.CollectErr | compose/space_gantt/space_gantt/app.py:173-196 | a failed read raises what the first failing object raised, after every earlier object succeeded |
| Space.CollectErrPersists | compose/space_gantt/space_gantt/app.py:173-196 | once an object fails, the objects after it are not processed |
| Space.Collect | compose/space_gantt/space_gantt/app.py:173-196 | objects are turned into items in listing order, as many items as objects; `CollectOk`, `CollectErr` and `CollectAllMade` carry its properties |
| Space.ItemsFrom | compose/space_gantt/space_gantt/app.py:173-196 | an exception that ended the listing is raised only after every listed object made its item, and a read that succeeds saw a complete listing |
| Space.FetchItems | compose/space_gantt/space_gantt/app.py:173-196 | the outcome of a read; `GetFromSpace` is proved to compute it |
| Space.EmptyDescriptionDefaults | compose/space_gantt/space_gantt/app.py:177-180 | an empty (or null) description parses to `([], 1, None)` |
| Space.MakeItemWithoutDescription | compose/space_gantt/space_gantt/app.py:176-196 | an issue with an empty description becomes an item starting on its creation date, lasting one day, without dependencies |
| Space.ListingIsRead | compose/space_gantt/space_gantt/app.py:173-174 | with a well-behaved listing, the read processes exactly the listed issues, in order |
| Space.EmptyListingRaises | compose/space_gantt/space_gantt/app.py:173-175 | an empty issue listing makes the read raise `KeyError('number')` |
| Space.ReadItem | compose/space_gantt/space_gantt/app.py:174-196 | one loop pass, parsing with the loop `ParseDescription`, returns exactly `MakeItem`: the same exceptions in the code's order and the same item fields |
| Space.GetFromSpace | compose/space_gantt/space_gantt/app.py:173-196 | draining the listing and then reading each issue gives the result of the read |
| OpenProject.CreateKeepsConsistent | compose/space_gantt/space_gantt/app.py:122-126 | creating a work package keeps the tracker consistent: fresh increasing ids, every listed id stored, relations between stored packages |
| OpenProject.DeleteKeepsConsistent | compose/space_gantt/space_gantt/app.py:149-151 | deleting a work package keeps the tracker consistent |
| OpenProject.RelateKeepsConsistent | compose/space_gantt/space_gantt/app.py:128-145 | relating two stored work packages keeps the tracker consistent |
| OpenProject.NothingListedNothingStored | compose/space_gantt/space_gantt/app.py:147-151 | a consistent tracker that lists nothing stores nothing and has no relations |
| OpenProject.CreateIn | compose/space_gantt/space_gantt/app.py:122-126 | the served creation; `CreateKeepsConsistent` and `CreateWorkPackage` carry its properties |
| OpenProject.DeleteIn | compose/space_gantt/space_gantt/app.py:149-151 | a deletion is served exactly for a stored package, and 404 otherwise; `DeleteInRemoves` carries what a served deletion leaves behind |
| OpenProject.DeleteInRemoves | compose/space_gantt/space_gantt/app.py:149-151 | a served deletion removes the package from the store and the listing, keeps every other package and the id counter, and keeps only relations that do not touch it |
| OpenProject.RelateIn | compose/space_gantt/space_gantt/app.py:128-145 | a relation is served exactly when both packages are stored; otherwise 404 for an unknown `from` and 422 for an unknown `to`; it adds `follows(from, to)` last and changes nothing else |
| OpenProject.OpenProject.ListWorkPackages | compose/space_gantt/space_gantt/app.py:112-115 | the listing changes nothing, returns every work package in listing order unless a page is refused, and then raises that HTTP error |
| OpenProject.OpenProject.Delete | compose/space_gantt/space_gantt/app.py:149-151 | a delete that is served removes the package and its relations; a refused one changes nothing and raises |
| OpenProject.OpenProject.ClearWorkPackages | compose/space_gantt/space_gantt/app.py:147-151 | when it succeeds, the tracker is empty with its id counter kept, and it succeeds when no request is refused |
| OpenProject.OpenProject.CreateWorkPackage | compose/space_gantt/space_gantt/app.py:122-126 | unless refused, it creates and returns a package with the next id, the subject and both dates; a refused request changes nothing |
| OpenProject.OpenProject.CreateRelation | compose/space_gantt/space_gantt/app.py:128-145 | a served request adds a `follows` relation between two stored packages; otherwise it raises and changes nothing |
| Sync.SnapshotStore.Updated | compose/space_gantt/space_gantt/app.py:257-263 | the items count as changed exactly when they differ from the snapshot, and a missing or unreadable snapshot counts as `[]` |
| Sync.SnapshotStore.Save | compose/space_gantt/space_gantt/app.py:266-267 | the saved items are what the next `updated` compares against |
| Sync.CreateAllErrPersists | compose/space_gantt/space_gantt/app.py:234-242 | once creating a prefix of the items fails, the create loop fails with the same exception |
| Sync.RelateDepsErrPersists | compose/space_gantt/space_gantt/app.py:246-251 | once relating a prefix of the dependencies fails, the inner loop fails with the same exception |
| Sync.RelateAllErrPersists | compose/space_gantt/space_gantt/app.py:244-251 | once relating a prefix of the items fails, the relations loop fails with the same exception |
| Sync.CreateAll | compose/space_gantt/space_gantt/app.py:234-242 | the create loop as a function; `CreateAllOverflow`, `CreateAllShape`, `CreateAllMade` and `CreateAllTranslation` carry its properties |
| Sync.RelateDeps | compose/space_gantt/space_gantt/app.py:246-251 | the inner relations loop as a function; `RelateDepsOutcome` and `RelateDepsLinks` carry its properties |
| Sync.RelateAll | compose/space_gantt/space_gantt/app.py:244-251 | the relations loop as a function; `RelateAllOutcome` and `RelateAllLinks` carry its properties |
| Sync.Apply | compose/space_gantt/space_gantt/app.py:230-251 | clearing, creating and relating when every request is served; `ApplyOutcome`, `ApplyShape`, `ApplyPackages` and `ApplyRelations` carry its properties |
| Sync.Expected | compose/space_gantt/space_gantt/app.py:221-254 | the outcome of a run whose requests are all served; `SpaceToOpenProject` is proved to end with it |
| Sync.CreateAllOverflow | compose/space_gantt/space_gantt/app.py:234-242 | the create loop succeeds exactly when every item's due date can be computed, and otherwise raises `OverflowError` |
| Sync.TranslationKeys | compose/space_gantt/space_gantt/app.py:242 | the translation map maps exactly the issue numbers of the items |
| Sync.TranslationLastWins | compose/space_gantt/space_gantt/app.py:242 | each issue number maps to the work package of the last item with that number, and only to ids created in this run |
| Sync.CreateAllShape | compose/space_gantt/space_gantt/app.py:234-242 | creating into an emptied tracker takes consecutive ids in item order and makes no relations |
| Sync.CreateAllTranslation | compose/space_gantt/space_gantt/app.py:232-242 | the map the create loop builds is the translation map of those ids |
| Sync.CreateAllKeys | compose/space_gantt/space_gantt/app.py:234-242 | after creating, the tracker holds exactly the new work packages |
| Sync.CreateAllMade | compose/space_gantt/space_gantt/app.py:234-242 | the work package of item `k` has id `first + k`, subject `[id] title`, the earliest start and the computed due date |
| Sync.RelateDepsOutcome | compose/space_gantt/space_gantt/app.py:246-251 | the inner loop succeeds exactly when every dependency is mapped, and otherwise raises `KeyError` for the first unmapped dependency in list order |
| Sync.RelateDepsLinks | compose/space_gantt/space_gantt/app.py:246-251 | the inner loop adds one `follows` relation per dependency, in order |
| Sync.RelateAllKeeps | compose/space_gantt/space_gantt/app.py:244-251 | the relations loop changes nothing but the relations |
| Sync.RelateAllOutcome | compose/space_gantt/space_gantt/app.py:244-251 | the relations loop succeeds exactly when every dependency of every item is mapped, and otherwise raises `KeyError` for an unmapped one |
| Sync.RelateAllLinks | compose/space_gantt/space_gantt/app.py:244-251 | the relations loop adds one relation per (item, dependency) pair, item by item and in dependency order |
| Sync.ApplyOutcome | compose/space_gantt/space_gantt/app.py:230-251 | an apply succeeds exactly when no due date overflows and every dependency is one of the items; it raises `OverflowError` first, and `KeyError` for an unknown dependency |
| Sync.ApplyRelates | compose/space_gantt/space_gantt/app.py:232-245 | after the create loop, the relations loop runs with the translation map, over packages that all exist, with no relations yet |
| Sync.ApplyShape | compose/space_gantt/space_gantt/app.py:230-242 | a successful apply leaves exactly the new work packages, listed in item order with consecutive ids |
| Sync.ApplyPackages | compose/space_gantt/space_gantt/app.py:234-242 | after a successful apply, each item's work package has its subject, start and due date |
| Sync.ApplyRelations | compose/space_gantt/space_gantt/app.py:244-251 | after a successful apply, the relations are exactly one `follows` relation per (item, dependency) pair, in order |
| Sync.CalendarApplyOutcome | compose/space_gantt/space_gantt/app.py:234-251 | with the calendar, an apply succeeds exactly when every start plus duration stays within year 9999 and every dependency is known; otherwise an overflow raises `OverflowError` |
| Sync.CreatePackages | compose/space_gantt/space_gantt/app.py:232-242 | the create loop does what `CreateAll` says, and fails as it says when no request is refused |
| Sync.RelateDependencies | compose/space_gantt/space_gantt/app.py:245-251 | the inner relations loop does what `RelateDeps` says, and fails as it says when no request is refused |
| Sync.RelateItems | compose/space_gantt/space_gantt/app.py:244-251 | the relations loop does what `RelateAll` says, and fails as it says when no request is refused |
| Sync.SpaceToOpenProject | compose/space_gantt/space_gantt/app.py:221-254 | a failed read raises and touches nothing. The run is up to date exactly when the items equal the snapshot, and then touches nothing. The snapshot changes only when the run completes, and then holds the items. A completed run leaves the tracker as `Apply` says. When no request is refused, the outcome is `Expected` |

## Left out

- HTTP transport, headers, authentication and URLs: a request is its decoded response. This covers `requests`, `raise_for_status` and `.json()`. Error statuses are 400 to 599.
- Logging, the Flask route and the process pool that runs syncs in the background. Concurrent, overlapping runs are not modelled.
- Environment configuration (tokens, tag ids, project id): these are constants.
- The pickle file itself is replaced by the snapshot field. A file that is missing, unreadable or corrupt is `None`, as `updated` treats it. The `touch` before reading is not modelled.
- `datetime.fromisoformat` and `isoformat`:
  - a creation time is given as the date it denotes;
  - a due date is kept as its ISO text;
  - work-package dates are passed as dates, not ISO strings.
- Python's `\d` also matches non-ASCII digits; the model treats only ASCII digits as digits. Case folding is ASCII only.
- `int(response["next"])` on a non-numeric `next` is not modelled; `next` is an integer.
- A listed Space object is an issue with a number or one without. An issue whose `title`, `creationTime` or `dueDate` key is missing is not modelled.
- A lookup answer without a `description` key (a `KeyError` at app.py line 176) is not modelled: a missing description is taken as null. A tag without a `name` key (a `KeyError` at line 185) is not modelled: tags are given as their names.
- `get_relations` is not modelled: a sync run does not call it.
- The generators are lazy: `get_from_space` interleaves page requests with issue lookups. The model drains the listing first and then looks issues up. The items produced and the first exception raised are the same in both. The order of requests is not.
- The tracker answers a request it serves as a real OpenProject would in these respects:
  - 201 for a creation;
  - 204 for a deletion;
  - 404 for an unknown package;
  - 422 for a relation to an unknown package.
  Server-side checks such as cyclic or duplicate relations are not modelled.
- The listing order of work packages is their creation order, which is the ascending id order.
- OpenProject.OpenProject.ClearWorkPackages: when a request is refused part-way, the contract says only that the tracker stays consistent; which packages are already deleted is not stated.
- Sync.CreatePackages: when a request is refused part-way, the contract gives only consistency, not which packages exist.
- Sync.RelateDependencies: when a request is refused part-way, the contract does not state which relations exist.
- Sync.RelateItems: when a request is refused part-way, the contract does not state which relations exist.
- Sync.SpaceToOpenProject: a run aborted after clearing, by a refused request, an `OverflowError` from a due date or a `KeyError` from an unmapped dependency, leaves the tracker cleared and partly rebuilt. When no request is refused the contract gives the exception; it states only that the tracker stays consistent and the snapshot is untouched, not which packages and relations exist.
- Pagination.Drain and Sync.SpaceToOpenProject take as a precondition that the Space listing finishes within some number of requests. A server that keeps answering with `next < totalCount` forever would make the program loop; this is not modelled.
