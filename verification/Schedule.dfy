/** Reading a whole table page by page, and the schedule of events made from it. */
module Schedule {
  import opened Wrappers
  import opened Remote
  import opened StableSort
  import opened TextOrder
  import opened TimeStamps

  // ---- Pages ----

  const PAGE_SIZE: nat := 100

  datatype Page<R> = Page(list: seq<R>, isLastPage: bool)

  /** The remote table: a page is some rows from `offset` on, none only if there are none left, and it is
      the last one exactly when it reaches the end of the table. A request may also fail. */
  method FetchPage<R>(wire: Wire, table: seq<R>, limit: nat, offset: nat) returns (page: Option<Page<R>>)
    requires offset <= |table| && limit > 0
    modifies wire
    ensures wire.faults == old(wire.faults) + if page.Some? then 0 else 1
    ensures page.Some? ==>
      && page.value.list <= table[offset..] && |page.value.list| <= limit
      && (offset < |table| ==> page.value.list != [])
      && (page.value.isLastPage <==> offset + |page.value.list| == |table|)
  {
    var reply := wire.Call();
    if !reply.Succeeded? {
      return None;
    }
    var n: nat :| n <= limit && offset + n <= |table| && (offset < |table| ==> n > 0) by {
      assert offset + (if offset < |table| then 1 else 0) <= |table|;
    }
    page := Some(Page(table[offset..offset + n], offset + n == |table|));
    assert table[offset..offset + n] == table[offset..][..n];
  }

  /** All rows, each once and in the table's order, or an error. */
  method ListRecords<R>(wire: Wire, table: seq<R>) returns (result: Option<seq<R>>)
    modifies wire
    ensures result == if wire.faults == old(wire.faults) then Some(table) else None
  {
    var records, offset := [], 0;
    while true
      invariant offset <= |table| && records == table[..offset]
      invariant offset < |table| || offset == 0
      invariant wire.faults == old(wire.faults)
      decreases |table| - offset
    {
      var page := FetchPage(wire, table, PAGE_SIZE, offset);
      if page.None? {
        return None;
      }
      assert table[..offset] + page.value.list == table[..offset + |page.value.list|];
      offset := offset + |page.value.list|;
      records := records + page.value.list;
      if page.value.isLastPage {
        break;
      }
    }
    assert records == table[..|table|] == table;
    result := Some(records);
  }

  // ---- Events ----

  datatype Record = Record(id: nat, name: string, hidden: bool, start: Option<string>, end: Option<string>)

  datatype Event = Event(id: nat, name: string, start: string, end: Option<string>)

  predicate OptionLeq(a: Option<string>, b: Option<string>) {
    a.None? || (b.Some? && TextLeq(a.value, b.value))
  }

  /** An event is kept when it is shown, starts, and, if it ends, ends at a readable time no earlier than a
      readable start. `parse` reads a time stamp. */
  predicate Kept(parse: string -> Option<int>, r: Record) {
    && !r.hidden
    && r.start.Some?
    && (r.end.Some? ==>
          && parse(r.start.value).Some? && parse(r.end.value).Some?
          && parse(r.start.value).value <= parse(r.end.value).value)
  }

  function ToEvent(r: Record): Event {
    Event(r.id, r.name, if r.start.Some? then r.start.value else "", r.end)
  }

  function KeptEvents(parse: string -> Option<int>, records: seq<Record>): seq<Event> {
    if records == [] then []
    else (if Kept(parse, records[0]) then [ToEvent(records[0])] else []) + KeptEvents(parse, records[1..])
  }

  /** If the event ends, it ends at a readable time no earlier than a readable start. */
  predicate EndsAfterStart(parse: string -> Option<int>, e: Event) {
    match e.end
    case None => true
    case Some(end) =>
      match (parse(e.start), parse(end))
      case (Some(from), Some(to)) => from <= to
      case _ => false
  }

  /** The shown record of an event. */
  function RecordOf(e: Event): Record {
    Record(e.id, e.name, false, Some(e.start), e.end)
  }

  function ByEnd(): (Event, Event) -> bool {
    (a: Event, b: Event) => OptionLeq(a.end, b.end)
  }

  function ByStart(): (Event, Event) -> bool {
    (a: Event, b: Event) => TextLeq(a.start, b.start)
  }

  function GetEvents(parse: string -> Option<int>, records: seq<Record>): seq<Event> {
    Sort(Sort(KeptEvents(parse, records), ByEnd()), ByStart())
  }

  function OrEmpty(o: Option<string>): string {
    if o.Some? then o.value else ""
  }

  lemma OrdersAreTotal()
    ensures TotalPreorder(ByEnd()) && TotalPreorder(ByStart())
  {
    forall a: Event, b: Event, c: Event
      ensures ByStart()(a, b) || ByStart()(b, a)
      ensures ByStart()(a, b) && ByStart()(b, c) ==> ByStart()(a, c)
      ensures ByEnd()(a, b) || ByEnd()(b, a)
      ensures ByEnd()(a, b) && ByEnd()(b, c) ==> ByEnd()(a, c)
    {
      TextIsTotal(a.start, b.start, c.start);
      TextIsTotal(OrEmpty(a.end), OrEmpty(b.end), OrEmpty(c.end));
    }
  }

  /** By start, then end, an absent end first. */
  predicate Before(a: Event, b: Event) {
    TextLeq(a.start, b.start) && (a.start == b.start ==> OptionLeq(a.end, b.end))
  }

  function SameTimesAs(a: Event): Event -> bool {
    (b: Event) => a.start == b.start && a.end == b.end
  }

  lemma {:induction false} KeptExactly(parse: string -> Option<int>, records: seq<Record>, e: Event)
    ensures e in KeptEvents(parse, records) <==> exists r :: r in records && Kept(parse, r) && e == ToEvent(r)
  {
    if records == [] {
    } else {
      KeptExactly(parse, records[1..], e);
      assert records == [records[0]] + records[1..];
      if e in KeptEvents(parse, records[1..]) {
        var r :| r in records[1..] && Kept(parse, r) && e == ToEvent(r);
        assert r in records;
      }
    }
  }

  lemma {:induction false} KeptAsOften(parse: string -> Option<int>, records: seq<Record>, e: Event)
    ensures multiset(KeptEvents(parse, records))[e] ==
            if EndsAfterStart(parse, e) then multiset(records)[RecordOf(e)] else 0
  {
    if records == [] {
    } else {
      var rest := records[1..];
      KeptAsOften(parse, rest, e);
      assert records == [records[0]] + rest;
      assert Kept(parse, records[0]) && ToEvent(records[0]) == e <==>
             records[0] == RecordOf(e) && EndsAfterStart(parse, e);
    }
  }

  /** An event is in the schedule as often as the table has a record of it that is shown, with a start, if its end is
      not before that. */
  lemma ScheduleShows(parse: string -> Option<int>, records: seq<Record>, e: Event)
    ensures multiset(GetEvents(parse, records))[e] ==
            if EndsAfterStart(parse, e) then multiset(records)[RecordOf(e)] else 0
  {
    KeptAsOften(parse, records, e);
    ScheduleIsCompleteAndOrdered(parse, records, e);
  }

  /** The schedule holds the kept events, each as often as the table does, by start and then end, and events
      with the same times in the table's order: the second sort keeps what the first one did. */
  lemma ScheduleIsCompleteAndOrdered(parse: string -> Option<int>, records: seq<Record>, e: Event)
    ensures multiset(GetEvents(parse, records)) == multiset(KeptEvents(parse, records))
    ensures Pairwise(GetEvents(parse, records), Before)
    ensures Filter(GetEvents(parse, records), SameTimesAs(e)) ==
            Filter(KeptEvents(parse, records), SameTimesAs(e))
  {
    var kept := KeptEvents(parse, records);
    var byEnd := Sort(kept, ByEnd());
    OrdersAreTotal();
    SortPermutes(kept, ByEnd());
    SortPermutes(byEnd, ByStart());
    SortSorts(kept, ByEnd());
    SortRefines(byEnd, ByStart(), ByEnd());
    var events := GetEvents(parse, records);
    forall i, j | 0 <= i < j < |events|
      ensures Before(events[i], events[j])
    {
      assert Refined(ByStart(), ByEnd())(events[i], events[j]);
    }
    SortIsStable(kept, ByEnd(), SameTimesAs(e)) by {
      TiedWhenSame(e);
    }
    SortIsStable(byEnd, ByStart(), SameTimesAs(e)) by {
      TiedWhenSame(e);
    }
  }

  lemma TiedWhenSame(e: Event)
    ensures AllTied(ByEnd(), SameTimesAs(e))
    ensures AllTied(ByStart(), SameTimesAs(e))
  {
    TextIsTotal(e.start, e.start, e.start);
    TextIsTotal(OrEmpty(e.end), OrEmpty(e.end), "");
  }

  // ---- The order of times ----

  function InstantOf(text: string): int {
    match Read(text)
    case Some(stamp) => Instant(stamp)
    case None => 0
  }

  predicate HasForm(text: string, separator: char, zone: string) {
    Read(text).Some? && Read(text).value.separator == separator && Read(text).value.zone == zone
  }

  /** All times of the kept events are readable, with one separator and one offset, as those of one column are. */
  ghost predicate SharedForm(parse: string -> Option<int>, records: seq<Record>, separator: char, zone: string) {
    forall r | r in records && Kept(parse, r) ::
      HasForm(r.start.value, separator, zone) && (r.end.Some? ==> HasForm(r.end.value, separator, zone))
  }

  /** By start, then end, an absent end first, as times. */
  predicate Earlier(a: Event, b: Event) {
    || InstantOf(a.start) < InstantOf(b.start)
    || (InstantOf(a.start) == InstantOf(b.start)
        && (a.end.None? || (b.end.Some? && InstantOf(a.end.value) <= InstantOf(b.end.value))))
  }

  lemma TextIsTime(a: string, b: string, separator: char, zone: string)
    requires HasForm(a, separator, zone) && HasForm(b, separator, zone)
    ensures TextLeq(a, b) <==> InstantOf(a) <= InstantOf(b)
    ensures a == b <==> InstantOf(a) == InstantOf(b)
  {
    ReadText(a, Read(a).value);
    ReadText(b, Read(b).value);
    StampsSortByTime(Read(a).value, Read(b).value);
    StampsSortByTime(Read(b).value, Read(a).value);
    TextIsTotal(a, b, "");
  }

  /** The sorts compare the text of the times, not the times. For times in the layout of one NocoDB column that
      comes to the same. */
  lemma ScheduleIsInTimeOrder(parse: string -> Option<int>, records: seq<Record>, separator: char, zone: string)
    requires SharedForm(parse, records, separator, zone)
    ensures Pairwise(GetEvents(parse, records), Earlier)
  {
    var kept, events := KeptEvents(parse, records), GetEvents(parse, records);
    forall x: Event | x in events
      ensures HasForm(x.start, separator, zone) && (x.end.Some? ==> HasForm(x.end.value, separator, zone))
    {
      SameElements(kept, ByEnd(), x);
      SameElements(Sort(kept, ByEnd()), ByStart(), x);
      KeptExactly(parse, records, x);
    }
    ScheduleIsCompleteAndOrdered(parse, records, Event(0, "", "", None));
    forall i, j | 0 <= i < j < |events|
      ensures Earlier(events[i], events[j])
    {
      assert Before(events[i], events[j]);
      EarlierWhenBefore(events[i], events[j], separator, zone);
    }
  }

  lemma EarlierWhenBefore(a: Event, b: Event, separator: char, zone: string)
    requires HasForm(a.start, separator, zone) && (a.end.Some? ==> HasForm(a.end.value, separator, zone))
    requires HasForm(b.start, separator, zone) && (b.end.Some? ==> HasForm(b.end.value, separator, zone))
    ensures Before(a, b) <==> Earlier(a, b)
  {
    TextIsTime(a.start, b.start, separator, zone);
    if a.end.Some? && b.end.Some? {
      TextIsTime(a.end.value, b.end.value, separator, zone);
    }
  }
}
