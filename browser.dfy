/**
 * The browsing session of `main`: the lazily grown result list (`load_more`
 * and its trigger), key navigation, the viewport offset, and the loop that
 * renders a frame and reads a key until `q`.
 *
 * The search request `fetch_page(query, page)` is a function `fetch` given to
 * the session. A session asks for every page number at most once, so a function
 * of `(query, page, rows)` can stand for any answers the server gives over time.
 * A failed request is the answer `Response([], 0)`, as `fetch_page` returns it.
 */
module Browser {
  import opened Text
  import opened Viewport

  /** Rows requested per page (iamd.py line 12). */
  const RESULTS_PER_PAGE: nat := 20

  /** One search hit; the program reads only these fields. */
  datatype Doc = Doc(identifier: string, title: string, creator: string)

  /** What `fetch_page` returns: the page's docs and the reported match count. */
  datatype Response = Response(docs: seq<Doc>, numFound: int)

  type Fetch = (string, nat, nat) -> Response

  /** The results after pages 1 to `n` have been loaded, in page order. */
  function Loaded(fetch: Fetch, query: string, n: nat): seq<Doc> {
    if n == 0 then [] else Loaded(fetch, query, n - 1) + fetch(query, n, RESULTS_PER_PAGE).docs
  }

  /** `total`: zero before the first page, afterwards the count page 1 reported. */
  function ReportedTotal(fetch: Fetch, query: string, n: nat): int {
    if n == 0 then 0 else fetch(query, 1, RESULTS_PER_PAGE).numFound
  }

  /** Loading more pages only appends: earlier results stay where they were. */
  lemma {:induction false} LoadedPrefix(fetch: Fetch, query: string, m: nat, n: nat)
    requires m <= n
    ensures |Loaded(fetch, query, m)| <= |Loaded(fetch, query, n)|
    ensures Loaded(fetch, query, m) == Loaded(fetch, query, n)[..|Loaded(fetch, query, m)|]
  {
    if m < n {
      LoadedPrefix(fetch, query, m, n - 1);
    }
  }

  /** A page whose request failed contributes nothing, and is never asked for again:
      the next load asks for the page after it. */
  lemma FailedPageSkipped(fetch: Fetch, query: string, n: nat)
    requires n >= 1 && fetch(query, n, RESULTS_PER_PAGE) == Response([], 0)
    ensures Loaded(fetch, query, n) == Loaded(fetch, query, n - 1)
    ensures Loaded(fetch, query, n + 1) == Loaded(fetch, query, n - 1) + fetch(query, n + 1, RESULTS_PER_PAGE).docs
  {
  }

  /** The keys `read_key` returns for the arrows. */
  const KEY_UP: string := "\U{1B}[A"
  const KEY_DOWN: string := "\U{1B}[B"

  predicate IsEnter(key: string) {
    key == "\r" || key == "\n"
  }

  /** The arrow keys' effect on `selected` among `count` results (iamd.py lines 224-227). */
  function Navigate(key: string, selected: int, count: nat): (r: int)
    ensures 0 <= selected < count ==> 0 <= r < count
    ensures r == selected + 1 <==> key == KEY_DOWN && selected < count - 1
    ensures r == selected - 1 <==> key == KEY_UP && selected > 0
    ensures r == selected <==> !(key == KEY_DOWN && selected < count - 1) && !(key == KEY_UP && selected > 0)
  {
    if key == KEY_DOWN && selected < count - 1 then selected + 1
    else if key == KEY_UP && selected > 0 then selected - 1
    else selected
  }

  /** Up undoes down, and down undoes up, away from the list's ends. */
  lemma NavigateUndo(selected: int, count: nat)
    requires 0 <= selected < count
    ensures selected < count - 1 ==> Navigate(KEY_UP, Navigate(KEY_DOWN, selected, count), count) == selected
    ensures selected > 0 ==> Navigate(KEY_DOWN, Navigate(KEY_UP, selected, count), count) == selected
  {
  }

  /** What a key press asks of the loop. */
  datatype Action = Quit | Open(doc: Doc) | Stay

  /** What one frame draws: the header's total and the visible rows. */
  datatype Frame = Frame(total: int, offset: int, selected: int, visible: seq<Doc>)

  /** The frame's window holds the selected row, so it is drawn with the marker. */
  predicate ShowsSelection(f: Frame) {
    InWindow(f.selected, f.offset) && f.selected - f.offset < |f.visible|
  }

  class Session {
    const query: string
    const fetch: Fetch
    var page: nat
    var total: int
    var results: seq<Doc>
    var selected: int
    var offset: int
    /** The page numbers requested so far, in order. */
    ghost var requested: seq<nat>

    /** Pages 1 to `page` were each requested once, in order, and `results` and
        `total` are what those answers make of them. */
    ghost predicate Valid()
      reads this
    {
      |requested| == page
      && (forall i :: 0 <= i < |requested| ==> requested[i] == i + 1)
      && results == Loaded(fetch, query, page)
      && total == ReportedTotal(fetch, query, page)
    }

    /** `selected` indexes a loaded result. */
    predicate Nav()
      reads this
    {
      0 <= selected < |results|
    }

    predicate InView()
      reads this
    {
      InWindow(selected, offset)
    }

    /** The growth trigger (iamd.py line 177). */
    predicate WantsMore()
      reads this
    {
      selected >= |results| - 3 && |results| < total
    }

    constructor (query: string, fetch: Fetch)
      ensures Valid() && this.query == query && this.fetch == fetch
      ensures page == 0 && total == 0 && results == [] && selected == 0 && offset == 0
    {
      this.query := query;
      this.fetch := fetch;
      page, total, results := 0, 0, [];
      selected, offset := 0, 0;
      requested := [];
    }

    /** `load_more`: ask for the next page, whatever became of the previous one, take
        the total from page 1 only, append the docs and return how many arrived. */
    method LoadMore() returns (n: nat)
      requires Valid()
      modifies this
      ensures Valid()
      ensures page == old(page) + 1 && requested == old(requested) + [page]
      ensures results == old(results) + fetch(query, page, RESULTS_PER_PAGE).docs
      ensures n == |fetch(query, page, RESULTS_PER_PAGE).docs|
      ensures total == if page == 1 then fetch(query, 1, RESULTS_PER_PAGE).numFound else old(total)
      ensures selected == old(selected) && offset == old(offset)
    {
      page := page + 1;
      requested := requested + [page];
      var response := fetch(query, page, RESULTS_PER_PAGE);
      if page == 1 {
        total := response.numFound;
      }
      results := results + response.docs;
      n := |response.docs|;
    }

    /** The top of a loop pass: load the next page when the trigger holds, then
        scroll the window to the selection. */
    method Tick() returns (grew: bool)
      requires Valid() && Nav()
      modifies this
      ensures Valid() && Nav() && InView()
      ensures grew == old(WantsMore())
      ensures grew ==> page == old(page) + 1 && results == old(results) + fetch(query, page, RESULTS_PER_PAGE).docs
      ensures !grew ==> page == old(page) && results == old(results) && requested == old(requested)
      ensures total == old(total) && selected == old(selected)
      ensures offset == ScrollOffset(selected, old(offset))
    {
      grew := WantsMore();
      if grew {
        var _ := LoadMore();
      }
      offset := ScrollOffset(selected, offset);
    }

    /** The frame drawn after `Tick` (iamd.py lines 196-218, without the box drawing). */
    function Render(): (f: Frame)
      reads this
      requires Nav() && InView()
      ensures ShowsSelection(f)
      ensures f.visible[f.selected - f.offset] == results[selected]
    {
      SelectedIsVisible(results, selected, offset);
      Frame(total, offset, selected, Visible(results, offset))
    }

    /** The key dispatch (iamd.py lines 222-233): `q` quits, the arrows move the
        selection within the results, Enter opens the selected item. */
    method Press(key: string) returns (action: Action)
      requires Nav()
      modifies this`selected
      ensures Nav()
      ensures action == Quit <==> key == "q"
      ensures key == "q" ==> selected == old(selected)
      ensures key != "q" ==> selected == Navigate(key, old(selected), |results|)
      ensures action.Open? <==> IsEnter(key)
      ensures action.Open? ==> action.doc == results[selected]
    {
      if key == "q" {
        return Quit;
      }
      selected := Navigate(key, selected, |results|);
      if IsEnter(key) {
        action := Open(results[selected]);
      } else {
        action := Stay;
      }
    }

    /** One pass of the `while True` loop: grow and scroll, draw a frame, handle a key. */
    method Step(key: string) returns (frame: Frame, action: Action)
      requires Valid() && Nav()
      modifies this
      ensures Valid() && Nav()
      ensures ShowsSelection(frame) && frame.total == total
      ensures action == Quit <==> key == "q"
      ensures action.Open? ==> action.doc in results
      ensures action.Open? <==> IsEnter(key)
      ensures action.Open? ==> old(selected) < |results| && action.doc == results[old(selected)]
      ensures total == old(total) && old(page) <= page && old(results) <= results
      ensures page == if old(WantsMore()) then old(page) + 1 else old(page)
      ensures results == if old(WantsMore()) then old(results) + fetch(query, page, RESULTS_PER_PAGE).docs else old(results)
      ensures offset == ScrollOffset(old(selected), old(offset))
      ensures frame.offset == offset && frame.selected == old(selected) && frame.visible == Visible(results, offset)
      ensures key == "q" ==> selected == old(selected)
      ensures key != "q" ==> selected == Navigate(key, old(selected), |results|)
    {
      var _ := Tick();
      frame := Render();
      action := Press(key);
    }

    /** The loop over the keys the user presses, until `q`. Returns the frames drawn
        and the items opened with Enter; each opened item is a loaded result. */
    method Browse(keys: seq<string>) returns (frames: seq<Frame>, visited: seq<Doc>, quit: bool)
      requires Valid() && Nav()
      modifies this
      ensures Valid() && Nav()
      ensures |frames| <= |keys| && (quit <==> "q" in keys[..|frames|])
      ensures quit ==> 0 < |frames| && keys[|frames| - 1] == "q" && "q" !in keys[..|frames| - 1]
      ensures !quit ==> |frames| == |keys|
      ensures forall i :: 0 <= i < |frames| ==> ShowsSelection(frames[i]) && frames[i].total == total
      ensures forall i :: 0 <= i < |visited| ==> visited[i] in results
      ensures total == old(total) && old(page) <= page && old(results) <= results
    {
      frames, visited, quit := [], [], false;
      var i := 0;
      while i < |keys|
        invariant 0 <= i <= |keys| && |frames| == i
        invariant "q" !in keys[..i]
        invariant Valid() && Nav()
        invariant forall j :: 0 <= j < |frames| ==> ShowsSelection(frames[j]) && frames[j].total == total
        invariant forall j :: 0 <= j < |visited| ==> visited[j] in results
        invariant total == old(total) && old(page) <= page && old(results) <= results
        decreases |keys| - i
      {
        ghost var before := results;
        var frame, action := Step(keys[i]);
        frames := frames + [frame];
        assert keys[..i + 1] == keys[..i] + [keys[i]];
        i := i + 1;
        forall j | 0 <= j < |visited| ensures visited[j] in results {
          assert visited[j] in before;
        }
        match action
        case Quit =>
          quit := true;
          return;
        case Open(doc) =>
          visited := visited + [doc];
        case Stay =>
      }
    }
  }

  /** How `main` ends. */
  datatype Outcome =
    | EmptyQuery                 // "Пустой запрос."
    | NothingFound               // page 1 brought no docs
    | Browsed(frames: seq<Frame>, visited: seq<Doc>, quit: bool)

  /** `main` from the query prompt on: strip the query, load page 1, stop when it
      is empty, and otherwise browse. */
  method Run(input: string, fetch: Fetch, keys: seq<string>) returns (outcome: Outcome)
    ensures outcome == EmptyQuery <==> Strip(input) == ""
    ensures outcome == NothingFound <==> Strip(input) != "" && fetch(Strip(input), 1, RESULTS_PER_PAGE).docs == []
    ensures outcome.Browsed? ==> forall i :: 0 <= i < |outcome.frames| ==>
              ShowsSelection(outcome.frames[i]) && outcome.frames[i].total == fetch(Strip(input), 1, RESULTS_PER_PAGE).numFound
    ensures outcome.Browsed? && !outcome.quit ==> |outcome.frames| == |keys|
  {
    var query := Strip(input);
    if query == "" {
      return EmptyQuery;
    }
    var session := new Session(query, fetch);
    var n := session.LoadMore();
    if n == 0 {
      return NothingFound;
    }
    var frames, visited, quit := session.Browse(keys);
    outcome := Browsed(frames, visited, quit);
  }

  function Hits(n: nat): seq<Doc> {
    seq(n, i => Doc("id", "title", "creator"))
  }

  /** A server with 45 matches: pages 1 and 2 are full, page 3 holds the last 5,
      and anything later is empty. */
  function FortyFive(query: string, page: nat, rows: nat): Response {
    if page == 1 || page == 2 then Response(Hits(20), 45)
    else if page == 3 then Response(Hits(5), 45)
    else Response([], 0)
  }

  /** Scrolling down through all 45 results: the first page gives 20, reaching row 17
      loads a second page (40), reaching row 37 a third (45), and no later pass loads
      again, not even on the last row. Returns the rows at which a page was loaded and
      the final count. Uses only the contracts of `Session`. */
  method ScrollThroughFortyFive() returns (grewAt: seq<nat>, loaded: nat)
    ensures grewAt == [17, 37] && loaded == 45
  {
    var s := new Session("bach", FortyFive);
    var n := s.LoadMore();
    assert n == 20 && |s.results| == 20 && s.total == 45;
    grewAt := [];
    while s.selected < 44
      invariant s.Valid() && s.Nav() && s.fetch == FortyFive && s.total == 45
      invariant s.page == (if s.selected <= 17 then 1 else if s.selected <= 37 then 2 else 3)
      invariant |s.results| == 20 * s.page || (s.page == 3 && |s.results| == 45)
      invariant s.page == 3 ==> |s.results| == 45
      invariant grewAt == (if s.selected <= 17 then [] else if s.selected <= 37 then [17] else [17, 37])
      decreases 44 - s.selected
    {
      var at := s.selected;
      var grew := s.Tick();
      assert grew <==> s.selected == 17 || s.selected == 37;
      if grew {
        grewAt := grewAt + [at];
      }
      var _ := s.Press(KEY_DOWN);
    }
    var grew := s.Tick();
    assert !grew && |s.results| == 45 && s.page == 3;
    var _ := s.Press(KEY_DOWN);
    assert s.selected == 44;
    loaded := |s.results|;
  }
}
