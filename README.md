# Kalispell showtimes: the schedule engine, modelled and proved in Dafny

The showtimes service for the Tribute Theatre in Kalispell fetches the
theatre's schedule page, extracts one *span* per movie (a display title and
the set of dates it plays), and turns the spans into an ordered list of
schedule entries for a window running from a week before today to a
requested number of days ahead. Parsed spans are kept in memory for three
minutes, and poster lookups for seven days.

This project models that engine in Dafny and proves what it promises:

- `Titles`: title normalisation. A title is lower-cased and everything but
  `[a-z0-9]` is dropped to give the merge key.
- `Calendar`: the proleptic Gregorian dates of Python's `date`, with years 1 to
  9999 and the day ordinal behind `(a - b).days`.
- `DateLabels`: the date-label recogniser for fragments of the form
  `Sat, Jan 17:`, the month table, and the year inference for labels that
  carry no year.
- `Aggregator`: the walk over the title headings. Each heading's ticket block
  is found within eight sibling hops, and the dates under the same key are
  merged. The specification functions take the fragment parser as a
  function value, so that their lemmas hold for any parser; the page walk
  uses `DateLabels.ParseDateLabel` at today's date.
- `Sorting`: a stable insertion sort by a total preorder, standing for
  Python's `sorted` / `list.sort`.
- `Schedule`: `build_schedule` (window filter, one entry per span, sort by
  start, run length and title) and the clamp of the requested horizon.
- `SpanCache`: `get_cached_spans` with its module-level cache record, as a
  class.
- `PosterCache`: `_poster_cache_get` / `_poster_cache_set`, as a class.

The HTML parser is replaced by an abstract document:

- a list of `Header`s, one per title heading, in document order;
- for each heading, the siblings that follow its `div.media` container (or
  `None` when the heading has no such container);
- for each sibling, its tag name, its classes and the texts of its `<b>`
  elements.

Network results, the clock and today's date are parameters. Times are whole
seconds.

Behaviours of the code the model keeps:

- A span keeps the display title of the **first** heading that created it,
  not the longest variant seen.
- There is no fallback scan through the document when no ticket block lies
  within eight hops: such a heading contributes nothing.
- A title whose key normalises to the empty string (e.g. `"!!"`) is not
  skipped: it becomes a span under the key `""`.
- A failed fetch returns the error, not the stored spans. But it stamps
  `fetched_at`, so spans stored earlier are then served for up to three
  more minutes without a fetch (`SpanCache.FailureRenewsStoredSpans`).

## Model

| member | source | states |
|---|---|---|
| Titles.Lower | kalispell_showtimes.py:75 | lower-casing keeps the length and maps each character through the ASCII case table |
| Titles.LowerAppend | kalispell_showtimes.py:75 | lower-casing a concatenation lower-cases each part |
| Titles.LowerTwice | kalispell_showtimes.py:75 | lower-casing is idempotent |
| Titles.KeepKeyChars | kalispell_showtimes.py:76 | the result contains only `[a-z0-9]` and is no longer than the input |
| Titles.KeepKeyCharsMembers | kalispell_showtimes.py:76 | a character is in the result exactly when it is in the input and is one of `[a-z0-9]` |
| Titles.KeepKeyCharsOfKey | kalispell_showtimes.py:76 | a string made only of `[a-z0-9]` is left unchanged |
| Titles.KeepKeyCharsAppend | kalispell_showtimes.py:76 | the substitution of a concatenation is the concatenation of the substitutions, so the kept characters stay in order |
| Titles.NormalizeTitle | kalispell_showtimes.py:74-77 | `normalize_title` itself, lower-case then substitution; no contract of its own: its meaning is stated by `NormalizeTitleIsKey`, `NormalizeTitleMembers`, `NormalizeTitleIdempotent`, `NormalizeTitleIgnoresCase`, `NormalizeTitleAppend` and `NormalizeTitleIgnoresSeparator` |
| Titles.NormalizeTitleMembers | kalispell_showtimes.py:74-77 | the key holds exactly the `[a-z0-9]` characters of the lower-cased title |
| Titles.NormalizeOptionalTitle | kalispell_showtimes.py:74-77 | a missing title normalises to the empty key; any result is a key |
| Titles.NormalizeTitleIsKey | kalispell_showtimes.py:74-77 | the normalised title is made of `[a-z0-9]`, is no longer than the title, and is empty for the empty title |
| Titles.NormalizeTitleIdempotent | kalispell_showtimes.py:74-77 | normalising a normalised title changes nothing |
| Titles.NormalizeTitleIgnoresCase | kalispell_showtimes.py:74-77 | a title and its lower-cased form have the same key |
| Titles.NormalizeTitleAppend | kalispell_showtimes.py:74-77 | the key of a concatenation is the concatenation of the keys |
| Titles.NormalizeTitleIgnoresSeparator | kalispell_showtimes.py:74-77 | inserting a space or punctuation character anywhere leaves the key unchanged |
| Calendar.DaysInMonth | kalispell_showtimes.py:86 | months have 28 to 31 days, and February has 29 exactly in leap years (the validity `date()` checks) |
| Calendar.ValidDate | kalispell_showtimes.py:86 | the check `date(y, m, d)` makes: year 1 to 9999, month 1 to 12, day within `DaysInMonth`; no contract of its own, see `DaysInMonth` and `GuessYearValidIff` |
| Calendar.Ordinal | kalispell_showtimes.py:94 | `date.toordinal()`, the day count behind `(d - today).days`; no contract of its own, see `OrdinalMonotone` |
| Calendar.DateLt | kalispell_showtimes.py:203 | Python's order of dates, lexicographic on (year, month, day); no contract of its own, see `OrdinalMonotone` and `DateLtTotal` |
| Calendar.OrdinalMonotone | kalispell_showtimes.py:94 | for valid dates, date order is day-ordinal order and equal dates have equal ordinals, so `(d - today).days` measures the order |
| Calendar.DateLtTotal | kalispell_showtimes.py:203 | any two dates are equal or strictly ordered one way, never both |
| DateLabels.CandidateYears | kalispell_showtimes.py:83-88 | the candidate years are exactly the years within one of today's year that admit the month and day, in increasing order |
| DateLabels.ScoreOf | kalispell_showtimes.py:93-96 | the key `score` gives a date: 0 inside the -60..300 day window, 1 outside, then the absolute distance in days; no contract of its own: its meaning is stated by `GuessYearChoice`, `GuessYearUnique` and `GuessYearPrefersWindow` |
| DateLabels.FirstMin | kalispell_showtimes.py:98 | the chosen candidate has the least score, and strictly beats every earlier one (`min` keeps the first of equal scores) |
| DateLabels.GuessYear | kalispell_showtimes.py:82-99 | `_guess_year` itself; no contract of its own: its meaning is stated by `GuessYearChoice`, `GuessYearUnique`, `GuessYearValidIff` and `GuessYearPrefersWindow` |
| DateLabels.GuessYearChoice | kalispell_showtimes.py:82-99 | with no valid nearby year the answer is today's year; otherwise it is a valid nearby year whose score no other valid nearby year beats |
| DateLabels.GuessYearUnique | kalispell_showtimes.py:82-99 | a valid nearby year whose score strictly beats every other valid nearby year's is the year inferred |
| DateLabels.GuessYearValidIff | kalispell_showtimes.py:82-99 | the guessed date is valid exactly when some year within one of today's admits the month and day |
| DateLabels.GuessYearPrefersWindow | kalispell_showtimes.py:93-98 | a valid nearby date inside the window is never passed over for one outside it |
| DateLabels.GuessYearRollsForward | kalispell_showtimes.py:82-99 | on 2024-12-20 a "Jan 3" label means 2025 |
| DateLabels.GuessYearKeepsCurrent | kalispell_showtimes.py:82-99 | on 2024-01-05 a "Jan 10" label means 2024 |
| DateLabels.GuessYearFallsBack | kalispell_showtimes.py:82-99 | on 2022-06-01 a "Feb 29" label, valid in no nearby year, falls back to 2022 |
| DateLabels.MonthNumber | kalispell_showtimes.py:51-54 | a name has a number exactly when it is one of the twelve abbreviations, and the number is its position in the table |
| DateLabels.MatchLabel | kalispell_showtimes.py:50 | `DATE_LABEL_RE.match` with its two capture groups; no contract of its own: its meaning is stated by `MatchLabelComplete`, `MatchLabelSound` and `MatchLabelStripsNewline` |
| DateLabels.MatchLabelStripsNewline | kalispell_showtimes.py:50 | a string not ending in a line feed matches exactly as it does with one line feed appended, as `$` allows |
| DateLabels.MatchLabelComplete | kalispell_showtimes.py:50 | every string shaped weekday, comma, space, three letters, space, one or two digits, colon (also with one trailing newline, as `$` allows) is matched, with its month name and day |
| DateLabels.MatchLabelSound | kalispell_showtimes.py:50 | every matched string has exactly that shape, and the parts returned are its own |
| DateLabels.ParseDateLabel | kalispell_showtimes.py:174-189 | a fragment yields only valid dates |
| DateLabels.ParseDateLabelIff | kalispell_showtimes.py:174-189 | a fragment yields a date exactly when it matches, names a known month, and some nearby year admits the day; the date has that month, day and the inferred year |
| Aggregator.FindTicketDiv | kalispell_showtimes.py:163-170 | the index found is the first ticket block within eight hops; no ticket block within reach means none |
| Aggregator.IsMovieTitle | kalispell_showtimes.py:150-155 | a heading text is kept when it has at least 2 characters and does not lower-case to one of the three listing labels; no contract of its own, see `AggregateKeys` |
| Aggregator.TicketDiv | kalispell_showtimes.py:159-170 | the ticket block of a heading: none without a `div.media` container, otherwise the one `FindTicketDiv` picks among its siblings; no contract of its own, see `FindTicketDiv` and `FindTicket` |
| Aggregator.FindTicket | kalispell_showtimes.py:159-170 | the sibling loop with its eight-hop bound and early exit finds exactly the ticket block the specification picks |
| Aggregator.ParseFragment | kalispell_showtimes.py:175-189 | the body of the fragment loop of `AddLabelDates`, written out step by step with the source's early exits: it skips a fragment at the first failing step (no match, unknown month, invalid date) and otherwise yields exactly the date the fragment parser gives |
| Aggregator.LabelParserYieldsValidDates | kalispell_showtimes.py:185-189 | the page's fragment parser yields valid calendar dates only |
| Aggregator.LabelDates | kalispell_showtimes.py:174-189 | the dates a ticket block's `<b>` fragments contribute; no contract of its own: its meaning is stated by `LabelDatesIff` |
| Aggregator.LabelDatesIff | kalispell_showtimes.py:174-189 | for any fragment parser, the block's dates are exactly those some `<b>` fragment parses to; the others are skipped |
| Aggregator.AddLabelDates | kalispell_showtimes.py:174-189 | the fragment loop adds exactly the block's parsed dates to the span, and changes nothing else |
| Aggregator.AddHeader | kalispell_showtimes.py:157-189 | one pass of the heading loop on the span mapping; no contract of its own: its meaning is stated by `AddHeaderEffect` |
| Aggregator.Aggregate | kalispell_showtimes.py:139-191 | the span mapping of a whole page; no contract of its own: its meaning is stated by `AggregateKeys`, `AggregateDates`, `AggregateFirstTitle`, `AggregateGrows`, `AggregateKeysAreNormalized` and `AggregateDatesValid` |
| Aggregator.AddHeaderEffect | kalispell_showtimes.py:148-189 | one heading adds its key if it contributes, keeps an existing title, and only adds dates |
| Aggregator.AggregateKeys | kalispell_showtimes.py:148-173 | a span exists exactly for the key of some heading that is a movie title with a ticket block |
| Aggregator.AggregateDates | kalispell_showtimes.py:148-189 | a span's dates are the union of the dates of all headings with its key |
| Aggregator.AggregateFirstTitle | kalispell_showtimes.py:173 | a span's title is that of the first heading with its key |
| Aggregator.AggregateGrows | kalispell_showtimes.py:148-191 | later headings never remove a span, rename it, or drop its dates |
| Aggregator.AggregateKeysAreNormalized | kalispell_showtimes.py:157 | every key is made of `[a-z0-9]` |
| Aggregator.AggregateDatesValid | kalispell_showtimes.py:186-189 | with a parser of valid dates, every stored date is a valid calendar date |
| Aggregator.ParsedDatesValid | kalispell_showtimes.py:139-191 | the spans of the page hold valid calendar dates only, as `build_schedule` needs |
| Aggregator.ParseSchedule | kalispell_showtimes.py:139-191 | the parse loop computes exactly the aggregate of the headings under the page's date-label parser, and no headings give no spans |
| Sorting.InsertPermutes | kalispell_showtimes.py:217 | inserting one element permutes the sequence with it |
| Sorting.SortBy | kalispell_showtimes.py:203 | `sorted` / `list.sort` with a key, as a stable insertion sort; no contract of its own: its meaning is stated by `SortByPermutes`, `SortBySorted` and `SortByOfSorted` |
| Sorting.InsertSorted | kalispell_showtimes.py:217 | inserting into a sorted sequence keeps it sorted |
| Sorting.SortByPermutes | kalispell_showtimes.py:203 | sorting is a permutation |
| Sorting.SortBySorted | kalispell_showtimes.py:203 | sorting by a total preorder gives a sorted sequence |
| Sorting.SortByOfSorted | kalispell_showtimes.py:217 | an already sorted sequence is left as it is |
| Schedule.ClampDays | kalispell_showtimes.py:390 | the horizon lies in 1..365, is kept when already there, and is raised to 1 or cut to 365 otherwise |
| Schedule.InScheduleWindow | kalispell_showtimes.py:196-203 | `lower <= d <= horizon` with lower a week before today and horizon `days_ahead` days after it, compared by day ordinal; no contract of its own, see `WindowedDates` and `EntryForSpec` |
| Schedule.WindowDates | kalispell_showtimes.py:200-203 | the span's dates that lie in the window; no contract of its own, see `WindowedDates` and `EntryForSpec` |
| Schedule.MinimumExists | kalispell_showtimes.py:203 | every non-empty set of dates has a least element |
| Schedule.SortedDates | kalispell_showtimes.py:203 | a set of dates in sorted order is strictly ascending and has exactly the set's elements |
| Schedule.AscendingUnique | kalispell_showtimes.py:203 | two strictly ascending sequences with the same elements are equal |
| Schedule.EntryFor | kalispell_showtimes.py:199-215 | the entry a span gives, or none; no contract of its own: its meaning is stated by `EntryForSpec` and `MakeEntry` |
| Schedule.WindowedDates | kalispell_showtimes.py:200-203 | the filter loop plus the sort yields the window's dates (a week before today up to the horizon), strictly ascending |
| Schedule.EntryForSpec | kalispell_showtimes.py:203-215 | a span gives no entry exactly when no date is in the window; otherwise an entry whose dates are the window's dates in order, with first/last date, run length and days until start derived from them, and "Untitled" for an empty title |
| Schedule.WindowEntryWellFormed | kalispell_showtimes.py:207-214 | an entry built from a non-empty ascending run of window dates has matching first/last dates and run length, and starts between 7 days ago and the horizon |
| Schedule.MakeEntry | kalispell_showtimes.py:200-215 | the loop body builds exactly the entry the specification gives the span |
| Schedule.StringLe | kalispell_showtimes.py:217 | Python's code-point order of titles; no contract of its own, see `StringLeTotal`, `StringLeTransitive` and `StringLeAntisymmetric` |
| Schedule.StringLeTotal | kalispell_showtimes.py:217 | title comparison is total |
| Schedule.StringLeTransitive | kalispell_showtimes.py:217 | title comparison is transitive |
| Schedule.StringLeAntisymmetric | kalispell_showtimes.py:217 | titles compare both ways only when equal |
| Schedule.EntryLe | kalispell_showtimes.py:217 | the sort key (days until start, run length, title) compared as a tuple; no contract of its own, see `EntryOrder` |
| Schedule.EntryOrder | kalispell_showtimes.py:217 | the key (days until start, run length, title) is a total preorder; entries tie only when all three agree |
| Schedule.EntriesAlongWellFormed | kalispell_showtimes.py:199-215 | the entries of the spans taken have one entry per span, each well formed |
| Schedule.SortEntries | kalispell_showtimes.py:217 | sorting the entries by the key permutes them, orders them, and keeps each well formed |
| Schedule.BuildSchedule | kalispell_showtimes.py:194-218 | the result holds, once each, the entries of exactly the spans with a date in the window, sorted by the key, each well formed: non-empty ascending dates inside the window, days until start between -7 and the horizon |
| SpanCache.IsFresh | kalispell_showtimes.py:236-238 | the stored spans are set, non-empty and younger than 180 s; no contract of its own, see `FreshIgnoresFetch` and `CachedReplyIsNonEmpty` |
| SpanCache.Refresh | kalispell_showtimes.py:233-255 | one call of `get_cached_spans` on the cache record; no contract of its own: its meaning is stated by `FreshIgnoresFetch`, `StaleFetches`, `FailureKeepsSpans`, `SuccessReplacesSpans`, `CachedReplyIsNonEmpty`, `SecondCallWithinTtl` and `FailureRenewsStoredSpans` |
| SpanCache.FreshIgnoresFetch | kalispell_showtimes.py:236-239 | while the stored spans are non-empty and younger than 180 s, the reply is the stored spans, the state is untouched, and neither depends on the fetch |
| SpanCache.StaleFetches | kalispell_showtimes.py:241-248 | otherwise the fetch time, error, status, URL and HTML length of the attempt are recorded, whatever its outcome |
| SpanCache.FailureKeepsSpans | kalispell_showtimes.py:250-251 | a fetch without HTML reports the fetcher's error (or "Fetch failed") and keeps the stored spans |
| SpanCache.SuccessReplacesSpans | kalispell_showtimes.py:253-255 | a fetch with HTML stores and returns the parse of the page |
| SpanCache.CachedReplyIsNonEmpty | kalispell_showtimes.py:236 | what is served without a fetch is never an empty mapping |
| SpanCache.SecondCallWithinTtl | kalispell_showtimes.py:233-255 | after a fetch that produced spans, a call less than 180 s later returns the same reply and state, whatever its fetch would have returned |
| SpanCache.FailureRenewsStoredSpans | kalispell_showtimes.py:242-251 | after a failed fetch, spans stored before it are served again for up to 180 s |
| SpanCache.Cache.GetCachedSpans | kalispell_showtimes.py:233-255 | the method's new fields and reply are exactly those of one refresh step |
| PosterCache.Lookup | kalispell_showtimes.py:258-265 | `_poster_cache_get`: the reply and the cache after it; no contract of its own: its meaning is stated by `LookupCases`, `ReadAfterWrite`, `ReadAfterExpiry` and `LookupIdempotent` |
| PosterCache.Store | kalispell_showtimes.py:268-271 | `_poster_cache_set`: the cache after storing a stamped copy; no contract of its own: its meaning is stated by `StoreChangesOnlyKey` and `ReadAfterWrite` |
| PosterCache.LookupCases | kalispell_showtimes.py:258-265 | a read returns the stored payload exactly when it is present, non-empty and at most 7 days old; a present, non-empty entry more than 7 days old is removed, nothing else is, and no other key changes |
| PosterCache.StoreChangesOnlyKey | kalispell_showtimes.py:268-271 | a write stores a copy of the payload with `ts` set to now and every other field kept, and changes no other key |
| PosterCache.ReadAfterWrite | kalispell_showtimes.py:258-271 | a read at most 7 days after a write returns the stamped payload and changes nothing |
| PosterCache.ReadAfterExpiry | kalispell_showtimes.py:258-271 | a read more than 7 days after a write returns nothing and evicts that key |
| PosterCache.LookupIdempotent | kalispell_showtimes.py:258-265 | reading twice at the same moment gives the same answer and the same cache |
| PosterCache.Cache.Get | kalispell_showtimes.py:258-265 | the method's reply and new cache are those of the lookup specification |
| PosterCache.Cache.Set | kalispell_showtimes.py:268-271 | the method's new cache is that of the store specification |

## Left out

- Fetching the page (`fetch_tribute_html`, retries, status and length checks): network I/O. Its outcome is the `FetchResult` input of `SpanCache.Cache.GetCachedSpans`.
- HTML parsing (the `select` and `find_parent`/`find_next_sibling` calls and `get_text`): replaced by the abstract `Header`/`Sibling` document, which already holds the stripped texts. The fallback from `h2.media-heading` to `.media-body h2` happens inside the selection, so it is not modelled.
- Poster lookup through TMDB and `_clean_title_for_search`: network I/O and a separate concern. The poster cache is modelled on its own.
- The web routes: out of scope, except the `days` clamp (`Schedule.ClampDays`). Parsing the query parameter with `int()` is not modelled.
- The Mountain time zone and `now_local`/`date.today()`: the clock is external. Now is an integer number of seconds and today is a `Date` parameter.
- `Schedule.BuildSchedule`: output dates are `Date` values, not ISO strings. `isoformat` is a formatting step.
- `Schedule.BuildSchedule`: `today + timedelta(days)` can overflow past year 9999, and `today - timedelta(days=7)` overflows before 0001-01-08. The model compares day ordinals and therefore has neither overflow.
- `Schedule.BuildSchedule`: the order of a dictionary's iteration is not fixed by the model. The ghost `order` names it, so the relative order of entries with equal sort keys (Python keeps insertion order) is not pinned down.
- `Titles.Lower`: Python's `str.lower` is Unicode-aware. The model lower-cases ASCII letters only.
- `DateLabels.MatchLabelComplete`: on a `str` pattern, `\s` and `\d` also accept non-ASCII whitespace (U+0085, U+00A0, U+2000 and others) and non-ASCII decimal digits. The model accepts the ASCII ones only; on ASCII input its `\s` is the ten characters `str.isspace` accepts, U+001C to U+001F included.
- `PosterCache.Stamp`: a non-numeric `ts` field would raise in Python. The model reads it as 0. Time is integer, not floating-point, seconds.
- The lock-free sharing of both caches between concurrent requests, and the aliasing of the returned span dictionary with the cache's own: the model is single-threaded and works on values.
