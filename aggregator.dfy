/**
 * `parse_tribute_schedule`: walks the title headers of the listing page
 * and gathers, per normalised title, the first display title seen and the
 * set of dates found in the header's ticket block.
 *
 * The page is given as what the HTML parser would report: the sequence of
 * selected `h2` headers, each with its text and the elements that follow
 * its enclosing `div.media`.
 */
module Aggregator {
  import opened Wrappers
  import opened Calendar
  import opened Titles
  import opened DateLabels

  /** An element after the header's `div.media`: its tag name, its `class` list, and the text of every `b` inside it. */
  datatype Sibling = Sibling(name: string, classes: seq<string>, boldTexts: seq<string>)

  /**
   * One title header: `get_text(" ", strip=True)` of the `h2`, and the
   * following siblings of its `div.media` ancestor, or `None` when the
   * header has no such ancestor.
   */
  datatype Header = Header(text: string, mediaSiblings: Option<seq<Sibling>>)

  /** The per-title record the source keeps as `{"display_title": ..., "dates": set()}`. */
  datatype Span = Span(displayTitle: string, dates: set<Date>)

  const MaxSiblingHops := 8

  /** Section labels that are page furniture, not movies. */
  const Denylist: seq<string> := ["regular showtimes", "showtimes", "coming soon"]

  predicate IsMovieTitle(title: string)
  {
    |title| >= 2 && Lower(title) !in Denylist
  }

  predicate IsTicketDiv(s: Sibling)
  {
    s.name == "div" && "ticketicons" in s.classes
  }

  /** The index of the first ticket block among the first `hops` siblings. */
  function FindTicketDiv(sibs: seq<Sibling>, hops: nat): (r: Option<nat>)
    ensures r.Some? ==> r.value < hops && r.value < |sibs| && IsTicketDiv(sibs[r.value])
    ensures r.Some? ==> forall i :: 0 <= i < r.value ==> !IsTicketDiv(sibs[i])
    ensures r.None? ==> forall i :: 0 <= i < hops && i < |sibs| ==> !IsTicketDiv(sibs[i])
  {
    if hops == 0 || sibs == [] then None
    else if IsTicketDiv(sibs[0]) then Some(0)
    else match FindTicketDiv(sibs[1..], hops - 1)
      case None => None
      case Some(j) => Some(j + 1)
  }

  /** The ticket block that belongs to a header, if one lies within reach. */
  function TicketDiv(h: Header): Option<Sibling>
  {
    match h.mediaSiblings
    case None => None
    case Some(sibs) =>
      match FindTicketDiv(sibs, MaxSiblingHops)
      case None => None
      case Some(j) => Some(sibs[j])
  }

  function OptionSet(o: Option<Date>): set<Date>
  {
    match o
    case None => {}
    case Some(d) => {d}
  }

  /**
   * What turns the text of one `b` element into a date, or into nothing.
   * The specification functions below are stated for any such parser;
   * the page parser uses `LabelParser(today)`.
   */
  type Parser = string -> Option<Date>

  /** The date-label parser of the page walk, for a given `date.today()`. */
  function LabelParser(today: Date): (parse: Parser)
    requires ValidDate(today)
    ensures forall raw :: parse(raw) == ParseDateLabel(raw, today)
  {
    raw => ParseDateLabel(raw, today)
  }

  /** The parser yields real calendar dates only. */
  ghost predicate YieldsValidDates(parse: Parser)
  {
    forall raw :: parse(raw).Some? ==> ValidDate(parse(raw).value)
  }

  lemma LabelParserYieldsValidDates(today: Date)
    requires ValidDate(today)
    ensures YieldsValidDates(LabelParser(today))
  {
    forall raw ensures LabelParser(today)(raw).Some? ==> ValidDate(LabelParser(today)(raw).value) {
      assert LabelParser(today)(raw) == ParseDateLabel(raw, today);
    }
  }

  /** The dates of the fragments that parse; the others are skipped. */
  function LabelDates(bolds: seq<string>, parse: Parser): set<Date>
  {
    if bolds == [] then {}
    else LabelDates(bolds[..|bolds| - 1], parse) + OptionSet(parse(bolds[|bolds| - 1]))
  }

  /** A date is collected exactly when some fragment parses to it. */
  lemma {:induction false} LabelDatesIff(bolds: seq<string>, parse: Parser)
    ensures forall d :: d in LabelDates(bolds, parse) <==> exists i :: 0 <= i < |bolds| && parse(bolds[i]) == Some(d)
  {
    if bolds != [] {
      var front := bolds[..|bolds| - 1];
      LabelDatesIff(front, parse);
      assert forall i :: 0 <= i < |front| ==> front[i] == bolds[i];
    }
  }

  /** A header that creates or updates a span. */
  predicate Contributes(h: Header)
  {
    IsMovieTitle(h.text) && TicketDiv(h).Some?
  }

  predicate HasKey(h: Header, key: string)
  {
    Contributes(h) && NormalizeTitle(h.text) == key
  }

  function HeaderDates(h: Header, parse: Parser): set<Date>
    requires Contributes(h)
  {
    LabelDates(TicketDiv(h).value.boldTexts, parse)
  }

  /** One iteration of the header loop: `setdefault`, then add the parsed dates. */
  function AddHeader(spans: map<string, Span>, h: Header, parse: Parser): map<string, Span>
  {
    if !Contributes(h) then spans
    else
      var key := NormalizeTitle(h.text);
      var info := if key in spans then spans[key] else Span(h.text, {});
      spans[key := info.(dates := info.dates + HeaderDates(h, parse))]
  }

  /** What one header does to the spans: it adds its key, keeps existing titles and only adds dates. */
  lemma AddHeaderEffect(spans: map<string, Span>, h: Header, parse: Parser)
    ensures forall k :: k in AddHeader(spans, h, parse) <==> k in spans || HasKey(h, k)
    ensures forall k :: k in AddHeader(spans, h, parse) ==>
      AddHeader(spans, h, parse)[k].displayTitle == if k in spans then spans[k].displayTitle else h.text
    ensures forall k :: k in AddHeader(spans, h, parse) ==>
      AddHeader(spans, h, parse)[k].dates ==
        (if k in spans then spans[k].dates else {}) + (if HasKey(h, k) then HeaderDates(h, parse) else {})
  {
  }

  /** The spans gathered from a sequence of headers, in document order. */
  function Aggregate(hs: seq<Header>, parse: Parser): map<string, Span>
  {
    if hs == [] then map[] else AddHeader(Aggregate(hs[..|hs| - 1], parse), hs[|hs| - 1], parse)
  }

  /** A span exists exactly for the normalised title of some contributing header. */
  lemma {:induction false} AggregateKeys(hs: seq<Header>, parse: Parser)
    ensures forall k :: k in Aggregate(hs, parse) <==> exists i :: 0 <= i < |hs| && HasKey(hs[i], k)
  {
    if hs != [] {
      var front := hs[..|hs| - 1];
      AggregateKeys(front, parse);
      AddHeaderEffect(Aggregate(front, parse), hs[|hs| - 1], parse);
      assert forall i :: 0 <= i < |front| ==> front[i] == hs[i];
    }
  }

  /** A span's dates are the union of the dates of every header with its key. */
  lemma {:induction false} AggregateDates(hs: seq<Header>, parse: Parser)
    ensures forall k, d :: k in Aggregate(hs, parse) ==>
      (d in Aggregate(hs, parse)[k].dates <==> exists i :: 0 <= i < |hs| && HasKey(hs[i], k) && d in HeaderDates(hs[i], parse))
  {
    if hs != [] {
      var front := hs[..|hs| - 1];
      AggregateDates(front, parse);
      AggregateKeys(front, parse);
      AddHeaderEffect(Aggregate(front, parse), hs[|hs| - 1], parse);
      assert forall i :: 0 <= i < |front| ==> front[i] == hs[i];
    }
  }

  /** A span keeps the display title of the first header with its key. */
  lemma {:induction false} AggregateFirstTitle(hs: seq<Header>, parse: Parser)
    ensures forall k :: k in Aggregate(hs, parse) ==>
      exists i :: 0 <= i < |hs| && HasKey(hs[i], k) && Aggregate(hs, parse)[k].displayTitle == hs[i].text &&
                  forall j :: 0 <= j < i ==> !HasKey(hs[j], k)
  {
    if hs != [] {
      var front := hs[..|hs| - 1];
      var h := hs[|hs| - 1];
      AggregateFirstTitle(front, parse);
      AggregateKeys(front, parse);
      AddHeaderEffect(Aggregate(front, parse), h, parse);
      assert forall i :: 0 <= i < |front| ==> front[i] == hs[i];
      var prev := Aggregate(front, parse);
      var cur := Aggregate(hs, parse);
      forall k | k in cur
        ensures exists i :: 0 <= i < |hs| && HasKey(hs[i], k) && cur[k].displayTitle == hs[i].text &&
                  forall j :: 0 <= j < i ==> !HasKey(hs[j], k)
      {
        if k in prev {
          var i :| 0 <= i < |front| && HasKey(front[i], k) && prev[k].displayTitle == front[i].text &&
                   forall j :: 0 <= j < i ==> !HasKey(front[j], k);
          assert HasKey(hs[i], k) && cur[k].displayTitle == hs[i].text;
        } else {
          assert HasKey(h, k);
          assert forall j :: 0 <= j < |hs| - 1 ==> !HasKey(hs[j], k);
        }
      }
    }
  }

  /** Once a span exists, later headers never remove it, rename it or lose its dates. */
  lemma {:induction false} AggregateGrows(hs: seq<Header>, n: nat, parse: Parser)
    requires n <= |hs|
    ensures forall k :: k in Aggregate(hs[..n], parse) ==>
      && k in Aggregate(hs, parse)
      && Aggregate(hs[..n], parse)[k].displayTitle == Aggregate(hs, parse)[k].displayTitle
      && Aggregate(hs[..n], parse)[k].dates <= Aggregate(hs, parse)[k].dates
    decreases |hs| - n
  {
    if n < |hs| {
      var longer := hs[..n + 1];
      AggregateGrows(hs, n + 1, parse);
      assert longer[..n] == hs[..n];
    } else {
      assert hs[..n] == hs;
    }
  }

  /** Every key is made of `[a-z0-9]` only. */
  lemma AggregateKeysAreNormalized(hs: seq<Header>, parse: Parser)
    ensures forall k :: k in Aggregate(hs, parse) ==> IsKey(k)
  {
    AggregateKeys(hs, parse);
    forall k | k in Aggregate(hs, parse) ensures IsKey(k) {
      var i :| 0 <= i < |hs| && HasKey(hs[i], k);
      NormalizeTitleIsKey(hs[i].text);
    }
  }

  /** With a parser of real dates, every collected date is a real calendar date. */
  lemma AggregateDatesValid(hs: seq<Header>, parse: Parser)
    requires YieldsValidDates(parse)
    ensures forall k, d :: k in Aggregate(hs, parse) && d in Aggregate(hs, parse)[k].dates ==> ValidDate(d)
  {
    AggregateDates(hs, parse);
    forall k, d | k in Aggregate(hs, parse) && d in Aggregate(hs, parse)[k].dates ensures ValidDate(d) {
      var i :| 0 <= i < |hs| && HasKey(hs[i], k) && d in HeaderDates(hs[i], parse);
      var bolds := TicketDiv(hs[i]).value.boldTexts;
      LabelDatesIff(bolds, parse);
      var j :| 0 <= j < |bolds| && parse(bolds[j]) == Some(d);
    }
  }

  /** The page's spans hold real calendar dates only. */
  lemma ParsedDatesValid(hs: seq<Header>, today: Date)
    requires ValidDate(today)
    ensures forall k, d :: k in Aggregate(hs, LabelParser(today)) && d in Aggregate(hs, LabelParser(today))[k].dates ==> ValidDate(d)
  {
    LabelParserYieldsValidDates(today);
    AggregateDatesValid(hs, LabelParser(today));
  }

  lemma LabelDatesSnoc(bolds: seq<string>, n: nat, parse: Parser)
    requires n < |bolds|
    ensures LabelDates(bolds[..n + 1], parse) == LabelDates(bolds[..n], parse) + OptionSet(parse(bolds[n]))
  {
    assert bolds[..n + 1][..n] == bolds[..n];
  }

  /** The sibling walk: at most eight hops past the header's `div.media`, stopping at the first ticket block. */
  method FindTicket(h: Header) returns (ticket: Option<Sibling>)
    ensures ticket == TicketDiv(h)
  {
    ticket := None;
    if h.mediaSiblings.None? {
      return;
    }
    var sibs := h.mediaSiblings.value;
    var hop := 0;
    while hop < MaxSiblingHops
      invariant 0 <= hop <= MaxSiblingHops && hop <= |sibs|
      invariant forall j :: 0 <= j < hop ==> !IsTicketDiv(sibs[j])
      invariant ticket == None
    {
      if hop == |sibs| {
        break;
      }
      if IsTicketDiv(sibs[hop]) {
        ticket := Some(sibs[hop]);
        break;
      }
      hop := hop + 1;
    }
    var found := FindTicketDiv(sibs, MaxSiblingHops);
    assert ticket.Some? ==> found == Some(hop);
    assert ticket.None? ==> found.None?;
  }

  /** The body of the loop over the `b` elements: each failing step skips the fragment. */
  method ParseFragment(raw: string, today: Date) returns (date: Option<Date>)
    requires ValidDate(today)
    ensures date == ParseDateLabel(raw, today)
  {
    var m := MatchLabel(raw);
    if m.None? {
      return None;
    }
    var month := MonthNumber(m.value.monthName);
    var dayNum := m.value.day;
    if month.None? {
      return None;
    }
    var year := GuessYear(today, month.value, dayNum);
    var d := Date(year, month.value, dayNum);
    if !ValidDate(d) {
      return None;
    }
    return Some(d);
  }

  /** The loop over the `b` elements of a ticket block, adding each date found to the span. */
  method AddLabelDates(info: Span, bolds: seq<string>, today: Date) returns (updated: Span)
    requires ValidDate(today)
    ensures updated == info.(dates := info.dates + LabelDates(bolds, LabelParser(today)))
  {
    ghost var parse := LabelParser(today);
    updated := info;
    var b := 0;
    while b < |bolds|
      invariant 0 <= b <= |bolds|
      invariant updated == info.(dates := info.dates + LabelDates(bolds[..b], parse))
    {
      LabelDatesSnoc(bolds, b, parse);
      var date := ParseFragment(bolds[b], today);
      assert parse(bolds[b]) == date;
      b := b + 1;
      if date.None? {
        continue;
      }
      updated := updated.(dates := updated.dates + {date.value});
    }
    assert bolds[..b] == bolds;
  }

  /**
   * `parse_tribute_schedule(html)` over the headers the HTML parser selects
   * from `html`; `today` stands for `date.today()`.
   */
  method ParseSchedule(headers: seq<Header>, today: Date) returns (spans: map<string, Span>)
    requires ValidDate(today)
    ensures spans == Aggregate(headers, LabelParser(today))
    ensures headers == [] ==> spans == map[]
  {
    spans := map[];
    if headers == [] {
      return;
    }
    var i := 0;
    while i < |headers|
      invariant 0 <= i <= |headers|
      invariant spans == Aggregate(headers[..i], LabelParser(today))
    {
      assert headers[..i + 1][..i] == headers[..i];
      var h := headers[i];
      i := i + 1;
      var title := h.text;
      if title == "" || |title| < 2 {
        continue;
      }
      if Lower(title) in Denylist {
        continue;
      }
      var key := NormalizeTitle(title);
      var ticket := FindTicket(h);
      if ticket.Some? {
        var info := if key in spans then spans[key] else Span(title, {});
        info := AddLabelDates(info, ticket.value.boldTexts, today);
        spans := spans[key := info];
      }
    }
    assert headers[..i] == headers;
  }
}
