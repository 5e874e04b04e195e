/**
 * `build_schedule`: keeps each span's dates that fall in the window from a
 * week before today to `days_ahead` days after it, drops spans left
 * empty, turns the rest into schedule entries and orders them by
 * (days until start, number of playing days, title). Also the clamp the
 * showtimes route applies to the requested horizon.
 */
module Schedule {
  import opened Wrappers
  import opened Calendar
  import opened Sorting
  import opened Aggregator

  /** How many days before today a date is still kept. */
  const LookbackDays := 7

  /** The bounds `max(1, min(days, 365))` puts on the requested horizon. */
  const MinDays := 1
  const MaxDays := 365

  /** The clamp applied to the `days` query parameter before the schedule is built. */
  function ClampDays(days: int): (r: int)
    ensures MinDays <= r <= MaxDays
    ensures MinDays <= days <= MaxDays ==> r == days
    ensures days < MinDays ==> r == MinDays
    ensures days > MaxDays ==> r == MaxDays
  {
    var upper := if days < MaxDays then days else MaxDays;
    if MinDays > upper then MinDays else upper
  }

  predicate AllValid(ds: set<Date>)
  {
    forall d :: d in ds ==> ValidDate(d)
  }

  /** `lower <= d <= horizon`, with both bounds as day ordinals. */
  predicate InScheduleWindow(d: Date, today: Date, daysAhead: int)
    requires ValidDate(d) && ValidDate(today)
  {
    Ordinal(today) - LookbackDays <= Ordinal(d) <= Ordinal(today) + daysAhead
  }

  function WindowDates(ds: set<Date>, today: Date, daysAhead: int): set<Date>
    requires ValidDate(today) && AllValid(ds)
  {
    set d | d in ds && InScheduleWindow(d, today, daysAhead)
  }

  predicate StrictlyAscending(s: seq<Date>)
  {
    forall i, j :: 0 <= i < j < |s| ==> DateLt(s[i], s[j])
  }

  lemma {:induction false} MinimumExists(ds: set<Date>)
    requires ds != {}
    ensures exists m :: m in ds && forall x :: x in ds ==> DateLe(m, x)
    decreases |ds|
  {
    var y :| y in ds;
    var rest := ds - {y};
    if rest == {} {
      assert ds <= {y};
      assert forall x :: x in ds ==> DateLe(y, x);
    } else {
      MinimumExists(rest);
      var m :| m in rest && forall x :: x in rest ==> DateLe(m, x);
      var least := if DateLt(y, m) then y else m;
      forall x | x in ds ensures DateLe(least, x) {
        DateLtTotal(y, m);
        if x != y {
          assert DateLe(m, x);
        }
      }
      assert least in ds;
    }
  }

  /** `sorted(...)` of a set of dates: its elements in ascending order, each once. */
  ghost function SortedDates(ds: set<Date>): (s: seq<Date>)
    ensures StrictlyAscending(s)
    ensures forall d :: d in s <==> d in ds
    decreases |ds|
  {
    if ds == {} then []
    else
      MinimumExists(ds);
      var m :| m in ds && forall x :: x in ds ==> DateLe(m, x);
      var rest := SortedDates(ds - {m});
      assert forall j :: 0 <= j < |rest| ==> DateLt(m, rest[j]);
      [m] + rest
  }

  /** A sequence with no elements is the empty sequence. */
  lemma NoElementsIsEmpty(s: seq<Date>)
    ensures (forall d :: d !in s) ==> s == []
  {
    assert s != [] ==> s[0] in s;
  }

  /** Two ascending sequences with the same elements are the same sequence. */
  lemma {:induction false} AscendingUnique(a: seq<Date>, b: seq<Date>)
    requires StrictlyAscending(a) && StrictlyAscending(b)
    requires forall d :: d in a <==> d in b
    ensures a == b
  {
    if a == [] || b == [] {
      NoElementsIsEmpty(a);
      NoElementsIsEmpty(b);
    } else {
      assert a[0] in b;
      assert b[0] in a;
      var i :| 0 <= i < |a| && a[i] == b[0];
      var j :| 0 <= j < |b| && b[j] == a[0];
      assert i == 0 || DateLt(a[0], a[i]);
      assert j == 0 || DateLt(b[0], b[j]);
      DateLtTotal(a[0], b[0]);
      assert a[0] == b[0];
      assert a == [a[0]] + a[1..] && b == [b[0]] + b[1..];
      forall d | d in a[1..] ensures d in b[1..] {
        var k :| 0 <= k < |a[1..]| && a[1..][k] == d;
        assert DateLt(a[0], a[k + 1]);
        assert d in b;
      }
      forall d | d in b[1..] ensures d in a[1..] {
        var k :| 0 <= k < |b[1..]| && b[1..][k] == d;
        assert DateLt(b[0], b[k + 1]);
        assert d in a;
      }
      AscendingUnique(a[1..], b[1..]);
    }
  }

  /** One element of the `build_schedule` result. */
  datatype Entry = Entry(
    title: string,
    firstDate: Date,
    lastDate: Date,
    dates: seq<Date>,
    daysUntilStart: int,
    runLengthDays: nat)

  /** What every emitted entry satisfies. */
  ghost predicate WellFormedEntry(e: Entry, today: Date, daysAhead: int)
    requires ValidDate(today)
  {
    && |e.dates| >= 1
    && StrictlyAscending(e.dates)
    && (forall i :: 0 <= i < |e.dates| ==> ValidDate(e.dates[i]) && InScheduleWindow(e.dates[i], today, daysAhead))
    && e.firstDate == e.dates[0]
    && e.lastDate == e.dates[|e.dates| - 1]
    && e.runLengthDays == |e.dates|
    && e.daysUntilStart == DaysBetween(e.firstDate, today)
    && -LookbackDays <= e.daysUntilStart <= daysAhead
  }

  /** `info.get("display_title") or "Untitled"`. */
  function EntryTitle(displayTitle: string): string
  {
    if displayTitle == "" then "Untitled" else displayTitle
  }

  /** The entry a span contributes, or nothing when none of its dates is in the window. */
  ghost function EntryFor(span: Span, today: Date, daysAhead: int): Option<Entry>
    requires ValidDate(today) && AllValid(span.dates)
  {
    var ds := SortedDates(WindowDates(span.dates, today, daysAhead));
    if ds == [] then None
    else
      assert ds[0] in WindowDates(span.dates, today, daysAhead);
      Some(Entry(EntryTitle(span.displayTitle), ds[0], ds[|ds| - 1], ds, DaysBetween(ds[0], today), |ds|))
  }

  /**
   * A span gives no entry exactly when no date is in the window; otherwise
   * its entry lists exactly the window's dates, is well formed, and carries
   * the span's title.
   */
  lemma EntryForSpec(span: Span, today: Date, daysAhead: int)
    requires ValidDate(today) && AllValid(span.dates)
    ensures var e := EntryFor(span, today, daysAhead);
      && (e.None? <==> WindowDates(span.dates, today, daysAhead) == {})
      && (e.Some? ==>
        && WellFormedEntry(e.value, today, daysAhead)
        && (forall d :: d in e.value.dates <==> d in WindowDates(span.dates, today, daysAhead))
        && e.value.title == EntryTitle(span.displayTitle))
  {
    var window := WindowDates(span.dates, today, daysAhead);
    var ds := SortedDates(window);
    if ds == [] {
      assert forall d :: d in window ==> d in ds;
    } else {
      assert forall i :: 0 <= i < |ds| ==> ds[i] in window;
      WindowEntryWellFormed(EntryTitle(span.displayTitle), ds, today, daysAhead);
    }
  }

  /** The entry built from a non-empty ascending run of dates inside the window is well formed. */
  lemma WindowEntryWellFormed(title: string, ds: seq<Date>, today: Date, daysAhead: int)
    requires ValidDate(today) && ds != [] && StrictlyAscending(ds)
    requires forall i :: 0 <= i < |ds| ==> ValidDate(ds[i]) && InScheduleWindow(ds[i], today, daysAhead)
    ensures WellFormedEntry(Entry(title, ds[0], ds[|ds| - 1], ds, DaysBetween(ds[0], today), |ds|), today, daysAhead)
  {
    assert InScheduleWindow(ds[0], today, daysAhead);
  }

  /** Python's `str` ordering: code point by code point, a proper prefix first. */
  predicate StringLe(a: string, b: string)
  {
    if a == [] then true
    else if b == [] then false
    else if a[0] != b[0] then a[0] < b[0]
    else StringLe(a[1..], b[1..])
  }

  lemma {:induction false} StringLeTotal(a: string, b: string)
    ensures StringLe(a, b) || StringLe(b, a)
  {
    if a != [] && b != [] && a[0] == b[0] {
      StringLeTotal(a[1..], b[1..]);
    }
  }

  lemma {:induction false} StringLeTransitive(a: string, b: string, c: string)
    requires StringLe(a, b) && StringLe(b, c)
    ensures StringLe(a, c)
  {
    if a != [] && b != [] && c != [] && a[0] == b[0] && b[0] == c[0] {
      StringLeTransitive(a[1..], b[1..], c[1..]);
    }
  }

  lemma {:induction false} StringLeAntisymmetric(a: string, b: string)
    requires StringLe(a, b) && StringLe(b, a)
    ensures a == b
  {
    if a != [] && b != [] {
      StringLeAntisymmetric(a[1..], b[1..]);
      assert a == [a[0]] + a[1..] && b == [b[0]] + b[1..];
    }
  }

  /** The sort key `(days_until_start, run_length_days, title)`, compared as a tuple. */
  predicate EntryLe(a: Entry, b: Entry)
  {
    || a.daysUntilStart < b.daysUntilStart
    || (a.daysUntilStart == b.daysUntilStart &&
        (a.runLengthDays < b.runLengthDays || (a.runLengthDays == b.runLengthDays && StringLe(a.title, b.title))))
  }

  /** The sort key orders all entries, and two entries tie only when start, run length and title all agree. */
  lemma EntryOrder()
    ensures TotalPreorder(EntryLe)
    ensures forall a, b :: EntryLe(a, b) && EntryLe(b, a) ==>
      a.daysUntilStart == b.daysUntilStart && a.runLengthDays == b.runLengthDays && a.title == b.title
  {
    forall a: Entry, b: Entry ensures EntryLe(a, b) || EntryLe(b, a) {
      StringLeTotal(a.title, b.title);
    }
    forall a: Entry, b: Entry, c: Entry | EntryLe(a, b) && EntryLe(b, c) ensures EntryLe(a, c) {
      if a.daysUntilStart == b.daysUntilStart == c.daysUntilStart && a.runLengthDays == b.runLengthDays == c.runLengthDays {
        StringLeTransitive(a.title, b.title, c.title);
      }
    }
    forall a: Entry, b: Entry | EntryLe(a, b) && EntryLe(b, a)
      ensures a.daysUntilStart == b.daysUntilStart && a.runLengthDays == b.runLengthDays && a.title == b.title
    {
      StringLeAntisymmetric(a.title, b.title);
    }
  }

  ghost predicate Distinct<T>(s: seq<T>)
  {
    forall i, j :: 0 <= i < j < |s| ==> s[i] != s[j]
  }

  lemma {:induction false} DistinctCounts<T>(s: seq<T>)
    requires Distinct(s)
    ensures forall x :: multiset(s)[x] <= 1
  {
    if s != [] {
      var front := s[..|s| - 1];
      DistinctCounts(front);
      assert s == front + [s[|s| - 1]];
      assert s[|s| - 1] !in front;
    }
  }

  lemma PermutationKeepsDistinct<T>(a: seq<T>, b: seq<T>)
    requires Distinct(a) && multiset(a) == multiset(b)
    ensures Distinct(b)
  {
    DistinctCounts(a);
    forall i, j | 0 <= i < j < |b| ensures b[i] != b[j] {
      assert b == b[..j] + b[j..];
      assert b[i] in b[..j];
      assert b[j] in b[j..];
      assert multiset(b)[b[j]] == multiset(b[..j])[b[j]] + multiset(b[j..])[b[j]];
      assert multiset(b)[b[j]] <= 1;
    }
  }

  /** `sorted([d for d in dates_set if lower <= d <= horizon])`. */
  method WindowedDates(ds: set<Date>, today: Date, daysAhead: int) returns (filtered: seq<Date>)
    requires ValidDate(today) && AllValid(ds)
    ensures filtered == SortedDates(WindowDates(ds, today, daysAhead))
  {
    var picked: seq<Date> := [];
    var rest := ds;
    while rest != {}
      invariant rest <= ds
      invariant forall d :: d in picked <==> d in ds && d !in rest && InScheduleWindow(d, today, daysAhead)
      invariant Distinct(picked)
      decreases rest
    {
      var d :| d in rest;
      rest := rest - {d};
      if Ordinal(today) - LookbackDays <= Ordinal(d) <= Ordinal(today) + daysAhead {
        picked := picked + [d];
      }
    }
    DateOrder();
    filtered := SortBy(picked, DateLe);
    SortByPermutes(picked, DateLe);
    SortBySorted(picked, DateLe);
    PermutationKeepsDistinct(picked, filtered);
    assert forall d :: d in filtered <==> d in picked by {
      forall d ensures d in filtered <==> d in picked {
        assert d in filtered <==> d in multiset(filtered);
        assert d in picked <==> d in multiset(picked);
      }
    }
    AscendingUnique(filtered, SortedDates(WindowDates(ds, today, daysAhead)));
  }

  lemma DateOrder()
    ensures TotalPreorder(DateLe)
  {
  }

  /** The body of the loop over `spans.items()`: one span's entry, or nothing for an empty window. */
  method MakeEntry(info: Span, today: Date, daysAhead: int) returns (made: Option<Entry>)
    requires ValidDate(today) && AllValid(info.dates)
    ensures made == EntryFor(info, today, daysAhead)
  {
    var filtered := WindowedDates(info.dates, today, daysAhead);
    if filtered == [] {
      return None;
    }
    var first, last := filtered[0], filtered[|filtered| - 1];
    made := Some(Entry(EntryTitle(info.displayTitle), first, last, filtered, Ordinal(first) - Ordinal(today), |filtered|));
  }

  /** The entries of the spans with the given keys, in that order. */
  ghost function EntriesAlong(spans: map<string, Span>, today: Date, daysAhead: int, keys: seq<string>): seq<Entry>
    requires ValidDate(today)
    requires forall k :: k in keys ==> k in spans && AllValid(spans[k].dates) && EntryFor(spans[k], today, daysAhead).Some?
  {
    if keys == [] then []
    else
      var front := keys[..|keys| - 1];
      assert forall k :: k in front ==> k in keys;
      EntriesAlong(spans, today, daysAhead, front) + [EntryFor(spans[keys[|keys| - 1]], today, daysAhead).value]
  }

  /**
   * `build_schedule(days_ahead, spans)`, with `today` for `date.today()`.
   * `order` is the order in which the source would have appended the
   * entries (the dictionary's iteration order, left open here): it holds
   * each span with a date in the window exactly once, and the result is
   * those spans' entries, sorted by the key.
   */
  method BuildSchedule(daysAhead: int, spans: map<string, Span>, today: Date) returns (result: seq<Entry>, ghost order: seq<string>)
    requires ValidDate(today)
    requires forall k :: k in spans ==> AllValid(spans[k].dates)
    ensures Distinct(order)
    ensures forall k :: k in order <==> k in spans && EntryFor(spans[k], today, daysAhead).Some?
    ensures multiset(result) == multiset(EntriesAlong(spans, today, daysAhead, order))
    ensures SortedBy(result, EntryLe)
    ensures forall e :: e in result ==> WellFormedEntry(e, today, daysAhead)
  {
    var unsorted: seq<Entry> := [];
    order := [];
    var todo := spans.Keys;
    while todo != {}
      invariant todo <= spans.Keys
      invariant Distinct(order)
      invariant forall k :: k in order <==> k in spans && k !in todo && EntryFor(spans[k], today, daysAhead).Some?
      invariant unsorted == EntriesAlong(spans, today, daysAhead, order)
      decreases todo
    {
      var key :| key in todo;
      todo := todo - {key};
      var made := MakeEntry(spans[key], today, daysAhead);
      if made.None? {
        continue;
      }
      var entry := made.value;
      ghost var before := order;
      unsorted := unsorted + [entry];
      order := order + [key];
      assert order[..|order| - 1] == before;
    }
    result := SortBy(unsorted, EntryLe);
    EntriesAlongWellFormed(spans, today, daysAhead, order);
    SortEntries(unsorted, today, daysAhead);
  }

  /** `result.sort(key=...)`: the entries, reordered by the key, each still well formed. */
  lemma SortEntries(unsorted: seq<Entry>, today: Date, daysAhead: int)
    requires ValidDate(today)
    requires forall e :: e in unsorted ==> WellFormedEntry(e, today, daysAhead)
    ensures multiset(SortBy(unsorted, EntryLe)) == multiset(unsorted)
    ensures SortedBy(SortBy(unsorted, EntryLe), EntryLe)
    ensures forall e :: e in SortBy(unsorted, EntryLe) ==> WellFormedEntry(e, today, daysAhead)
  {
    EntryOrder();
    var result := SortBy(unsorted, EntryLe);
    SortByPermutes(unsorted, EntryLe);
    SortBySorted(unsorted, EntryLe);
    forall e | e in result ensures WellFormedEntry(e, today, daysAhead) {
      assert e in multiset(result);
      assert e in unsorted;
    }
  }

  lemma {:induction false} EntriesAlongWellFormed(spans: map<string, Span>, today: Date, daysAhead: int, keys: seq<string>)
    requires ValidDate(today)
    requires forall k :: k in keys ==> k in spans && AllValid(spans[k].dates) && EntryFor(spans[k], today, daysAhead).Some?
    ensures |EntriesAlong(spans, today, daysAhead, keys)| == |keys|
    ensures forall e :: e in EntriesAlong(spans, today, daysAhead, keys) ==> WellFormedEntry(e, today, daysAhead)
  {
    if keys != [] {
      var front := keys[..|keys| - 1];
      assert forall k :: k in front ==> k in keys;
      EntriesAlongWellFormed(spans, today, daysAhead, front);
      EntryForSpec(spans[keys[|keys| - 1]], today, daysAhead);
    }
  }
}
