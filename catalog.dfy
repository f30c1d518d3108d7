/** The public event catalog: the filter pipeline that narrows the fetched
    events (search, then date range, then price bucket, then location), the
    reset to the first page, and the split into pages of nine. */
module Catalog {
  import opened Wrappers
  import opened Records
  import opened Seqs
  import Text
  import Store

  const ITEMS_PER_PAGE: nat := 9
  const MS_PER_DAY: int := 24 * 60 * 60 * 1000
  const MS_PER_WEEK: int := 7 * MS_PER_DAY

  /** The filter bar's state. The values are the strings the bar emits;
      a date range or price range outside the known ones keeps everything. */
  datatype Filters = Filters(dateRange: string, priceRange: string, location: string)

  const INITIAL_FILTERS := Filters("all", "all", "")

  // ---------------------------------------------------------------------
  // The four stages

  /** Search: the term occurs, ignoring case, in the name, the description
      or the location. */
  predicate SearchMatches(e: Event, term: string) {
    || Text.ContainsIgnoringCase(e.name, term)
    || Text.ContainsIgnoringCase(e.description, term)
    || Text.ContainsIgnoringCase(e.location, term)
  }

  /** The search stage runs only for a non-empty (truthy) term. */
  function SearchStage(s: seq<Event>, term: string): seq<Event> {
    if term != "" then Filter(s, (e: Event) => SearchMatches(e, term)) else s
  }

  /** Calendar day of a timestamp (`toDateString` equality). */
  function DayOf(t: Millis): int {
    t / MS_PER_DAY
  }

  /** One call of the date callback: whether the event passes, and the value
      the shared clock `now` holds afterwards. "week" and "month" move the
      clock back before comparing; `monthBack` is the calendar's
      one-month-earlier operation. */
  function DateStep(e: Event, range: string, now: Millis, monthBack: Millis -> Millis): (bool, Millis) {
    if range == "today" then (DayOf(e.date) == DayOf(now), now)
    else if range == "week" then
      var weekAgo := now - MS_PER_WEEK;
      (e.date >= weekAgo, weekAgo)
    else if range == "month" then
      var monthAgo := monthBack(now);
      (e.date >= monthAgo, monthAgo)
    else (true, now)
  }

  /** Which events of `s` the date stage keeps, the clock starting at `now`
      and drifting as the callback runs over `s` in order. */
  function DateMask(s: seq<Event>, range: string, now: Millis, monthBack: Millis -> Millis): (m: seq<bool>)
    ensures |m| == |s|
  {
    if s == [] then []
    else
      var step := DateStep(s[0], range, now, monthBack);
      [step.0] + DateMask(s[1..], range, step.1, monthBack)
  }

  /** The date stage runs only when the range is not "all". */
  function DateStage(s: seq<Event>, range: string, now: Millis, monthBack: Millis -> Millis): seq<Event> {
    if range != "all" then DateKept(s, range, now, monthBack) else s
  }

  predicate PriceMatches(e: Event, bucket: string) {
    if bucket == "free" then e.price == 0.0
    else if bucket == "paid" then e.price > 0.0
    else if bucket == "under50" then e.price < 50.0
    else if bucket == "under100" then e.price < 100.0
    else true
  }

  function PriceStage(s: seq<Event>, bucket: string): seq<Event> {
    if bucket != "all" then Filter(s, (e: Event) => PriceMatches(e, bucket)) else s
  }

  predicate LocationMatches(e: Event, location: string) {
    Text.ContainsIgnoringCase(e.location, location)
  }

  function LocationStage(s: seq<Event>, location: string): seq<Event> {
    if location != "" then Filter(s, (e: Event) => LocationMatches(e, location)) else s
  }

  /** The whole pipeline, in the order the page applies it. */
  function Pipeline(events: seq<Event>, term: string, f: Filters, now: Millis, monthBack: Millis -> Millis): seq<Event> {
    var searched := SearchStage(events, term);
    var dated := DateStage(searched, f.dateRange, now, monthBack);
    var priced := PriceStage(dated, f.priceRange);
    LocationStage(priced, f.location)
  }

  // ---------------------------------------------------------------------
  // The date stage as the page runs it: one pass with a mutable clock

  /** Runs the date callback over `s` in order, moving the clock as the
      callback does. */
  method FilterByDate(s: seq<Event>, range: string, start: Millis, monthBack: Millis -> Millis)
    returns (kept: seq<Event>)
    ensures kept == DateKept(s, range, start, monthBack)
  {
    var now := start;
    kept := [];
    var i := 0;
    while i < |s|
      invariant 0 <= i <= |s|
      invariant kept + DateKept(s[i..], range, now, monthBack) == DateKept(s, range, start, monthBack)
    {
      // The callback compares the event with the shared clock, which
      // "week" and "month" move back first.
      DateKeptAt(s, i, range, now, monthBack);
      var step := DateStep(s[i], range, now, monthBack);
      now := step.1;
      kept := kept + (if step.0 then [s[i]] else []);
      i := i + 1;
    }
  }

  /** The events the date stage keeps from `t` when the clock starts at `now`. */
  function DateKept(t: seq<Event>, range: string, now: Millis, monthBack: Millis -> Millis): seq<Event> {
    Select(t, DateMask(t, range, now, monthBack))
  }

  /** One step of the date pass: the event at `i` and the clock it leaves. */
  lemma DateKeptAt(s: seq<Event>, i: nat, range: string, now: Millis, monthBack: Millis -> Millis)
    requires i < |s|
    ensures var step := DateStep(s[i], range, now, monthBack);
      DateKept(s[i..], range, now, monthBack)
      == (if step.0 then [s[i]] else []) + DateKept(s[i + 1..], range, step.1, monthBack)
  {
    var t := s[i..];
    var step := DateStep(t[0], range, now, monthBack);
    assert t[1..] == s[i + 1..];
    assert DateMask(t, range, now, monthBack)[1..] == DateMask(t[1..], range, step.1, monthBack);
  }

  // ---------------------------------------------------------------------
  // Properties of the pipeline

  lemma StagesAreSubsequences(s: seq<Event>, term: string, f: Filters, now: Millis, monthBack: Millis -> Millis)
    ensures IsSubsequence(SearchStage(s, term), s)
    ensures IsSubsequence(DateStage(s, f.dateRange, now, monthBack), s)
    ensures IsSubsequence(PriceStage(s, f.priceRange), s)
    ensures IsSubsequence(LocationStage(s, f.location), s)
  {
    SubsequenceReflexive(s);
    FilterIsSubsequence(s, (e: Event) => SearchMatches(e, term));
    SelectIsSubsequence(s, DateMask(s, f.dateRange, now, monthBack));
    FilterIsSubsequence(s, (e: Event) => PriceMatches(e, f.priceRange));
    FilterIsSubsequence(s, (e: Event) => LocationMatches(e, f.location));
  }

  /** The filtered list keeps events of the fetched list, in their order. */
  lemma PipelineIsSubsequence(events: seq<Event>, term: string, f: Filters, now: Millis, monthBack: Millis -> Millis)
    ensures IsSubsequence(Pipeline(events, term, f, now, monthBack), events)
  {
    var searched := SearchStage(events, term);
    var dated := DateStage(searched, f.dateRange, now, monthBack);
    var priced := PriceStage(dated, f.priceRange);
    StagesAreSubsequences(events, term, f, now, monthBack);
    StagesAreSubsequences(searched, term, f, now, monthBack);
    StagesAreSubsequences(dated, term, f, now, monthBack);
    StagesAreSubsequences(priced, term, f, now, monthBack);
    SubsequenceTransitive(dated, searched, events);
    SubsequenceTransitive(priced, dated, events);
    SubsequenceTransitive(Pipeline(events, term, f, now, monthBack), priced, events);
  }

  /** With no search term and the initial filters nothing is dropped. */
  lemma PipelineWithoutFilters(events: seq<Event>, now: Millis, monthBack: Millis -> Millis)
    ensures Pipeline(events, "", INITIAL_FILTERS, now, monthBack) == events
  {
  }

  /** For a non-empty term the search stage keeps exactly the matching events. */
  lemma SearchKeeps(s: seq<Event>, term: string, e: Event)
    requires term != ""
    ensures e in SearchStage(s, term) <==>
      (e in s && (
        || Text.Contains(Text.Lower(e.name), Text.Lower(term))
        || Text.Contains(Text.Lower(e.description), Text.Lower(term))
        || Text.Contains(Text.Lower(e.location), Text.Lower(term))))
  {
  }

  /** For each known bucket the price stage keeps exactly the events in it. */
  lemma PriceKeeps(s: seq<Event>, e: Event)
    ensures e in PriceStage(s, "free") <==> e in s && e.price == 0.0
    ensures e in PriceStage(s, "paid") <==> e in s && e.price > 0.0
    ensures e in PriceStage(s, "under50") <==> e in s && e.price < 50.0
    ensures e in PriceStage(s, "under100") <==> e in s && e.price < 100.0
  {
  }

  /** The location stage looks at the location only, ignoring case. */
  lemma LocationKeeps(s: seq<Event>, location: string, e: Event)
    requires location != ""
    ensures e in LocationStage(s, location) <==>
      e in s && Text.Contains(Text.Lower(e.location), Text.Lower(location))
  {
  }

  /** The "week" cut-off drifts: the k-th event (from 0) reaching the date
      stage passes iff it is no earlier than `k + 1` weeks before the start. */
  lemma {:induction false} WeekCutoffDrifts(s: seq<Event>, start: Millis, monthBack: Millis -> Millis, k: nat)
    requires k < |s|
    ensures DateMask(s, "week", start, monthBack)[k] <==> s[k].date >= start - MS_PER_WEEK * (k + 1)
  {
    if k > 0 {
      WeekCutoffDrifts(s[1..], start - MS_PER_WEEK, monthBack, k - 1);
    }
  }

  /** `f` applied `n` times. */
  function Iterate(f: Millis -> Millis, n: nat, t: Millis): Millis {
    if n == 0 then t else Iterate(f, n - 1, f(t))
  }

  /** The "month" cut-off drifts the same way, one month per event. */
  lemma {:induction false} MonthCutoffDrifts(s: seq<Event>, start: Millis, monthBack: Millis -> Millis, k: nat)
    requires k < |s|
    ensures DateMask(s, "month", start, monthBack)[k] <==> s[k].date >= Iterate(monthBack, k + 1, start)
  {
    if k > 0 {
      MonthCutoffDrifts(s[1..], monthBack(start), monthBack, k - 1);
    }
  }

  /** "today" does not move the clock: every event is compared with the start day. */
  lemma {:induction false} TodayComparesWithStart(s: seq<Event>, start: Millis, monthBack: Millis -> Millis, k: nat)
    requires k < |s|
    ensures DateMask(s, "today", start, monthBack)[k] <==> DayOf(s[k].date) == DayOf(start)
  {
    if k > 0 {
      TodayComparesWithStart(s[1..], start, monthBack, k - 1);
    }
  }

  // ---------------------------------------------------------------------
  // Pagination

  /** `Math.ceil(n / ITEMS_PER_PAGE)`. */
  function TotalPages(n: nat): (pages: nat)
    ensures pages * ITEMS_PER_PAGE >= n
    ensures pages == 0 || (pages - 1) * ITEMS_PER_PAGE < n
  {
    (n + ITEMS_PER_PAGE - 1) / ITEMS_PER_PAGE
  }

  function StartIndex(page: int): int {
    (page - 1) * ITEMS_PER_PAGE
  }

  /** How `Array.prototype.slice` resolves an index: negative counts from
      the end, and everything is clamped to the length. */
  function SliceIndex(i: int, len: nat): (k: nat)
    ensures k <= len
  {
    if i < 0 then (if len + i < 0 then 0 else len + i)
    else if i < len then i else len
  }

  function Slice<T>(s: seq<T>, from: int, to: int): seq<T> {
    var lo := SliceIndex(from, |s|);
    var hi := SliceIndex(to, |s|);
    if lo < hi then s[lo..hi] else []
  }

  /** The events shown on page `page`. */
  function PageItems<T>(s: seq<T>, page: int): (r: seq<T>)
    ensures |r| <= ITEMS_PER_PAGE
  {
    Slice(s, StartIndex(page), StartIndex(page) + ITEMS_PER_PAGE)
  }

  function Min(a: int, b: int): int {
    if a < b then a else b
  }

  /** A page from the first to the last holds the next nine events, or the
      remainder on the last page; later pages are empty. */
  lemma PageWindow<T>(s: seq<T>, page: int)
    requires 1 <= page
    ensures page <= TotalPages(|s|) ==>
      PageItems(s, page) == s[(page - 1) * ITEMS_PER_PAGE .. Min(page * ITEMS_PER_PAGE, |s|)]
    ensures page > TotalPages(|s|) ==> PageItems(s, page) == []
  {
  }

  /** Pages 1 to `k` one after the other. */
  function PagesUpTo<T>(s: seq<T>, k: nat): seq<T> {
    if k == 0 then [] else PagesUpTo(s, k - 1) + PageItems(s, k)
  }

  lemma {:induction false} PagesUpToPrefix<T>(s: seq<T>, k: nat)
    requires k <= TotalPages(|s|)
    ensures PagesUpTo(s, k) == s[..Min(k * ITEMS_PER_PAGE, |s|)]
  {
    if k > 0 {
      PagesUpToPrefix(s, k - 1);
      PageWindow(s, k);
      var a := (k - 1) * ITEMS_PER_PAGE;
      assert s[..a] + s[a..Min(k * ITEMS_PER_PAGE, |s|)] == s[..Min(k * ITEMS_PER_PAGE, |s|)];
    }
  }

  /** Concatenating every page gives back the filtered list. */
  lemma PagesPartition<T>(s: seq<T>)
    ensures PagesUpTo(s, TotalPages(|s|)) == s
  {
    PagesUpToPrefix(s, TotalPages(|s|));
  }

  // ---------------------------------------------------------------------
  // The page

  class EventsPage {
    var events: seq<Event>
    var filteredEvents: seq<Event>
    var loading: bool
    var currentPage: int
    var searchTerm: string
    var filters: Filters

    constructor ()
      ensures events == [] && filteredEvents == [] && loading
      ensures currentPage == 1 && searchTerm == "" && filters == INITIAL_FILTERS
    {
      events := [];
      filteredEvents := [];
      loading := true;
      currentPage := 1;
      searchTerm := "";
      filters := INITIAL_FILTERS;
    }

    /** Loads the active events in date order; a failed query keeps what
        was loaded before. */
    method FetchEvents(db: Store.Database, reply: Reply)
      modifies this
      ensures reply.Ok? ==> events == Store.ActiveByDate(db.events) && filteredEvents == events
      ensures reply.Err? ==> events == old(events) && filteredEvents == old(filteredEvents)
      ensures !loading
      ensures currentPage == old(currentPage) && searchTerm == old(searchTerm) && filters == old(filters)
    {
      if reply.Ok? {
        events := Store.ActiveByDate(db.events);
        filteredEvents := events;
      }
      loading := false;
    }

    /** Recomputes the filtered list from the fetched events and goes back to
        the first page. `now` is the clock reading the date stage starts from. */
    method ApplyFilters(now: Millis, monthBack: Millis -> Millis)
      modifies this
      ensures filteredEvents == Pipeline(events, searchTerm, filters, now, monthBack)
      ensures currentPage == 1
      ensures events == old(events) && loading == old(loading)
      ensures searchTerm == old(searchTerm) && filters == old(filters)
      // The first page is shown: the first nine filtered events, with the
      // page in range whenever anything is left.
      ensures PaginatedEvents() == filteredEvents[..Min(ITEMS_PER_PAGE, |filteredEvents|)]
      ensures filteredEvents != [] ==> 1 <= currentPage <= TotalPagesShown()
    {
      var filtered := events;
      var term := searchTerm;
      if term != "" {
        filtered := Filter(filtered, (e: Event) => SearchMatches(e, term));
      }
      if filters.dateRange != "all" {
        filtered := FilterByDate(filtered, filters.dateRange, now, monthBack);
      }
      if filters.priceRange != "all" {
        var bucket := filters.priceRange;
        filtered := Filter(filtered, (e: Event) => PriceMatches(e, bucket));
      }
      if filters.location != "" {
        var location := filters.location;
        filtered := Filter(filtered, (e: Event) => LocationMatches(e, location));
      }
      filteredEvents := filtered;
      currentPage := 1;
      PageWindow(filteredEvents, 1);
    }

    method HandleSearch(term: string)
      modifies this`searchTerm
      ensures searchTerm == term
    {
      searchTerm := term;
    }

    method HandleFilter(newFilters: Filters)
      modifies this`filters
      ensures filters == newFilters
    {
      filters := newFilters;
    }

    method HandlePageChange(page: int)
      modifies this`currentPage
      ensures currentPage == page
    {
      currentPage := page;
    }

    /** The number of pages the page control offers. */
    function TotalPagesShown(): nat
      reads this
    {
      TotalPages(|filteredEvents|)
    }

    /** The events rendered for the current page. */
    function PaginatedEvents(): seq<Event>
      reads this
    {
      PageItems(filteredEvents, currentPage)
    }
  }
}
