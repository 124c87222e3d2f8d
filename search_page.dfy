/** src/pages/SearchPage.tsx: the search session. The page keeps the query,
    the results and their total, the elapsed time, the filters, the query
    history and the pagination cursor; `performSearch` sends one request to
    the search engine and applies its answer. The engine is a function from
    request to outcome, and the awaited call is one step. There is no
    debounce timer and no check that an answer belongs to the latest request. */
module SearchPage {
  import opened Wrappers
  import opened Strings
  import opened Types

  /** The arguments of `invoke("search_index", ...)`. */
  datatype Request = Request(query: string, limit: int, offset: int, filters: SearchFilters)

  /** What the awaited call gives: a response, or a rejection. */
  datatype Outcome = Answered(results: seq<SearchResult>, totalCount: int) | Failed

  const HistoryCap := 10

  /** The page sizes the per-page select offers. */
  const PageSizes: set<int> := {10, 20, 50, 100}

  /** The history update after a search: a query already present leaves the
      history as it is (no reordering); a new one is put first and the list
      is cut to ten entries. */
  function RecordQuery(history: seq<string>, q: string): (r: seq<string>)
    ensures q in r
    ensures q in history ==> r == history
    ensures q !in history ==> |r| == Min(|history| + 1, HistoryCap) && r[0] == q && r[1..] == history[..|r| - 1]
    ensures |history| <= HistoryCap ==> |r| <= HistoryCap
    ensures NoDup(history) ==> NoDup(r)
  {
    if q in history then history else [q] + history[..Min(|history|, HistoryCap - 1)]
  }

  /** The page's state. */
  datatype Session = Session(
    query: string,
    isSearching: bool,
    results: seq<SearchResult>,
    totalResults: int,
    searchTime: real,
    filters: SearchFilters,
    history: seq<string>,
    currentPage: int,
    perPage: int)

  /** The state on mount. */
  const Initial := Session("", false, [], 0, 0.0, NoFilters, [], 1, 20)

  /** What the page keeps true: a page number of at least one, an offered page
      size, and a short history without repeats. */
  predicate SessionValid(s: Session) {
    s.currentPage >= 1 && s.perPage in PageSizes && |s.history| <= HistoryCap && NoDup(s.history)
  }

  /** The request for a query: a page of perPage results starting at (currentPage - 1) * perPage. */
  function RequestFor(s: Session, q: string): (r: Request)
    ensures r.query == q && r.filters == s.filters && r.limit == s.perPage
    ensures SessionValid(s) ==> r.offset >= 0 && r.offset % s.perPage == 0 && r.offset / s.perPage == s.currentPage - 1
  {
    Request(q, s.perPage, (s.currentPage - 1) * s.perPage, s.filters)
  }

  /** `resp.totalCount || resp.results.length`. */
  function TotalOf(results: seq<SearchResult>, totalCount: int): (n: int)
    ensures totalCount != 0 ==> n == totalCount
    ensures totalCount == 0 ==> n == |results|
  {
    if totalCount != 0 then totalCount else |results|
  }

  /** The state after `performSearch(q)` when the engine answers `o`, and `seconds` is the measured time. */
  function Searched(s: Session, q: string, o: Outcome, seconds: real): (r: Session)
    ensures r.query == s.query && r.filters == s.filters && r.currentPage == s.currentPage && r.perPage == s.perPage
    ensures IsBlank(q) ==> r.results == [] && r.totalResults == s.totalResults && r.searchTime == s.searchTime
                           && r.history == s.history && r.isSearching == s.isSearching
    ensures !IsBlank(q) ==> !r.isSearching && r.history == RecordQuery(s.history, q)
    ensures !IsBlank(q) && o.Answered? ==> r.results == o.results && r.totalResults == TotalOf(o.results, o.totalCount)
                                           && r.searchTime == seconds
    ensures !IsBlank(q) && o.Failed? ==> r.results == [] && r.totalResults == 0 && r.searchTime == 0.0
  {
    if IsBlank(q) then s.(results := [])
    else
      var shown := match o
        case Answered(rs, n) => s.(results := rs, totalResults := TotalOf(rs, n), searchTime := seconds)
        case Failed => s.(results := [], totalResults := 0, searchTime := 0.0);
      shown.(history := RecordQuery(s.history, q), isSearching := false)
  }

  /** The previous-page button is disabled on page one and while searching. */
  predicate PrevDisabled(s: Session) {
    s.currentPage == 1 || s.isSearching
  }

  /** The next-page button is disabled while searching and once the current
      page reaches the total. */
  predicate NextDisabled(s: Session) {
    s.isSearching || s.currentPage * s.perPage >= s.totalResults
  }

  /** Every search keeps the page's invariant: in particular the history
      stays at most ten entries long and without repeats. */
  lemma SearchKeepsSessionValid(s: Session, q: string, o: Outcome, seconds: real)
    requires SessionValid(s)
    ensures SessionValid(Searched(s, q, o, seconds))
  {
  }

  /** The next-page button is enabled exactly when the next page's request
      would start before the total, and no search is running. */
  lemma NextEnabledIffNextPageStartsBeforeTotal(s: Session, q: string)
    requires SessionValid(s)
    ensures !NextDisabled(s) <==> !s.isSearching && RequestFor(s.(currentPage := s.currentPage + 1), q).offset < s.totalResults
  {
  }

  /** The previous-page button is enabled exactly when a page before the
      current one exists and no search is running; that page's request
      starts one page earlier, at a non-negative offset. */
  lemma PrevEnabledIffPreviousPageExists(s: Session, q: string)
    requires SessionValid(s)
    ensures !PrevDisabled(s) <==> !s.isSearching && s.currentPage >= 2
    ensures !PrevDisabled(s) ==>
      var prev := s.(currentPage := s.currentPage - 1);
      SessionValid(prev) && RequestFor(prev, q).offset == RequestFor(s, q).offset - s.perPage >= 0
  {
  }

  /** The page. Each handler changes the fields the source's setters change. */
  class SearchPageState {
    var query: string
    var isSearching: bool
    var results: seq<SearchResult>
    var totalResults: int
    var searchTime: real
    var filters: SearchFilters
    var history: seq<string>
    var currentPage: int
    var perPage: int

    function State(): Session
      reads this
    {
      Session(query, isSearching, results, totalResults, searchTime, filters, history, currentPage, perPage)
    }

    ghost predicate Valid()
      reads this
    {
      SessionValid(State())
    }

    constructor ()
      ensures Valid() && State() == Initial
    {
      query, isSearching, results, totalResults, searchTime := "", false, [], 0, 0.0;
      filters, history, currentPage, perPage := NoFilters, [], 1, 20;
    }

    /** The awaited engine call; it only ever happens while isSearching is set. */
    method Invoke(req: Request, engine: Request -> Outcome) returns (o: Outcome)
      requires isSearching
      ensures o == engine(req)
    {
      o := engine(req);
    }

    /** performSearch: blank queries only clear the results; otherwise mark
        the search running, call the engine with the page's request, apply
        the answer or the failure, record the query, and clear the flag. */
    method PerformSearch(q: string, engine: Request -> Outcome, seconds: real) returns (sent: Option<Request>)
      requires Valid()
      modifies this
      ensures Valid()
      ensures sent == if IsBlank(q) then None else Some(RequestFor(old(State()), q))
      ensures State() == Searched(old(State()), q, engine(RequestFor(old(State()), q)), seconds)
    {
      if IsBlank(q) {
        results := [];
        return None;
      }
      isSearching := true;
      var req := Request(q, perPage, (currentPage - 1) * perPage, filters);
      var o := Invoke(req, engine);
      match o {
        case Answered(rs, n) =>
          results := rs;
          totalResults := if n != 0 then n else |rs|;
          searchTime := seconds;
        case Failed =>
          results := [];
          totalResults := 0;
          searchTime := 0.0;
      }
      history := if q in history then history else [q] + history[..Min(|history|, HistoryCap - 1)];
      isSearching := false;
      sent := Some(req);
    }

    method SetQuery(text: string)
      modifies this`query
      ensures query == text
    {
      query := text;
    }

    /** onFiltersChange. */
    method SetFilters(f: SearchFilters)
      modifies this`filters
      ensures filters == f
    {
      filters := f;
    }

    /** gotoPage: page numbers below one are ignored. */
    method GotoPage(p: int)
      requires Valid()
      modifies this`currentPage
      ensures Valid()
      ensures currentPage == if p < 1 then old(currentPage) else p
    {
      if p < 1 {
        return;
      }
      currentPage := p;
    }

    /** The per-page select: a new size always goes back to page one. */
    method ChangePerPage(n: int)
      requires Valid() && n in PageSizes
      modifies this`perPage, this`currentPage
      ensures Valid()
      ensures perPage == n && currentPage == 1
    {
      perPage := n;
      currentPage := 1;
    }

    /** The effect that runs after the filters, the page or the page size
        change: search again with the current query unless it is blank or a
        search is running. */
    method ParamsChanged(engine: Request -> Outcome, seconds: real) returns (sent: Option<Request>)
      requires Valid()
      modifies this
      ensures Valid()
      ensures if !IsBlank(old(query)) && !old(isSearching)
              then State() == Searched(old(State()), old(query), engine(RequestFor(old(State()), old(query))), seconds)
                   && sent == Some(RequestFor(old(State()), old(query)))
              else State() == old(State()) && sent.None?
    {
      sent := None;
      if !IsBlank(query) && !isSearching {
        sent := PerformSearch(query, engine, seconds);
      }
    }

    /** Enter in the search box searches the current query unless a search is
        running; a blank query then only clears the results. */
    method PressEnter(engine: Request -> Outcome, seconds: real) returns (sent: Option<Request>)
      requires Valid()
      modifies this
      ensures Valid()
      ensures if !old(isSearching)
              then State() == Searched(old(State()), old(query), engine(RequestFor(old(State()), old(query))), seconds)
                   && sent == (if IsBlank(old(query)) then None else Some(RequestFor(old(State()), old(query))))
              else State() == old(State()) && sent.None?
    {
      sent := None;
      if !isSearching {
        sent := PerformSearch(query, engine, seconds);
      }
    }

    /** A click on a history entry puts it in the box and searches it. */
    method HistoryClick(h: string, engine: Request -> Outcome, seconds: real) returns (sent: Option<Request>)
      requires Valid()
      modifies this
      ensures Valid()
      ensures State() == Searched(old(State()).(query := h), h, engine(RequestFor(old(State()), h)), seconds)
      ensures sent == (if IsBlank(h) then None else Some(RequestFor(old(State()), h)))
    {
      query := h;
      sent := PerformSearch(h, engine, seconds);
    }
  }
}
