// The search overlay's controller, shared by the search bar and the search
// modal. The two components are the same state machine with a handful of
// differences, each decided here by `mode`.

module SearchController {
  import opened Wrappers
  import opened Text
  import opened FileLabels
  import SearchService
  import App

  type Hit = SearchService.Hit

  /** What the results container currently shows: nothing, the listing of
      `items` with the item at `highlighted` marked, or the error notice. */
  datatype Content = Blank | Items(items: seq<Hit>, highlighted: nat) | ErrorNotice

  /** The keys the input's key handler reacts to; any other key is `Other`. */
  datatype Key = ArrowDown | ArrowUp | Enter | Escape | Other

  /** Every field of a controller, as one value. */
  datatype State = State(input: string, results: seq<Hit>, selectedIndex: nat, timerPending: bool,
                         outstanding: seq<string>, panelVisible: bool, content: Content,
                         isOpen: bool, openLog: seq<string>, pendingOpens: nat)

  // ------------------------------------------------------------ navigation

  /** The index after ArrowDown: one further, wrapping to the first. */
  function NextIndex(i: nat, n: nat): (j: nat)
    requires i < n
    ensures j < n
    ensures j == 0 <==> i == n - 1
  {
    (i + 1) % n
  }

  /** The index after ArrowUp: one back, wrapping to the last. */
  function PrevIndex(i: nat, n: nat): (j: nat)
    requires i < n
    ensures j < n
    ensures j == n - 1 <==> i == 0
  {
    if i == 0 then n - 1 else i - 1
  }

  /** ArrowDown moves one further, except from the last item. */
  lemma NextIndexValue(i: nat, n: nat)
    requires i < n
    ensures NextIndex(i, n) == if i + 1 < n then i + 1 else 0
  {
    if i + 1 < n {
      assert (i + 1) % n == i + 1;
    }
  }

  /** ArrowUp undoes ArrowDown and ArrowDown undoes ArrowUp. */
  lemma StepsAreInverse(i: nat, n: nat)
    requires i < n
    ensures PrevIndex(NextIndex(i, n), n) == i
    ensures NextIndex(PrevIndex(i, n), n) == i
  {
    NextIndexValue(i, n);
    NextIndexValue(PrevIndex(i, n), n);
  }

  /** `k` presses of ArrowDown from `i`. */
  function Downs(i: nat, n: nat, k: nat): (j: nat)
    requires i < n
    ensures j < n
    decreases k
  {
    if k == 0 then i else Downs(NextIndex(i, n), n, k - 1)
  }

  /** `k` presses of ArrowUp from `i`. */
  function Ups(i: nat, n: nat, k: nat): (j: nat)
    requires i < n
    ensures j < n
    decreases k
  {
    if k == 0 then i else Ups(PrevIndex(i, n), n, k - 1)
  }

  lemma {:induction false} DownsCompose(i: nat, n: nat, a: nat, b: nat)
    requires i < n
    ensures Downs(i, n, a + b) == Downs(Downs(i, n, a), n, b)
    decreases a
  {
    if a > 0 {
      DownsCompose(NextIndex(i, n), n, a - 1, b);
    }
  }

  lemma {:induction false} DownsCount(i: nat, n: nat, k: nat)
    requires i + k < n
    ensures Downs(i, n, k) == i + k
    decreases k
  {
    if k > 0 {
      NextIndexValue(i, n);
      DownsCount(i + 1, n, k - 1);
    }
  }

  /** As many ArrowDown presses as there are results come back to the start. */
  lemma FullCycleDown(i: nat, n: nat)
    requires i < n
    ensures Downs(i, n, n) == i
  {
    DownsCompose(i, n, n - 1 - i, i + 1);
    DownsCount(i, n, n - 1 - i);
    assert Downs(n - 1, n, i + 1) == Downs(0, n, i);
    DownsCount(0, n, i);
  }

  lemma {:induction false} UpsCompose(i: nat, n: nat, a: nat, b: nat)
    requires i < n
    ensures Ups(i, n, a + b) == Ups(Ups(i, n, a), n, b)
    decreases a
  {
    if a > 0 {
      UpsCompose(PrevIndex(i, n), n, a - 1, b);
    }
  }

  lemma {:induction false} UpsCount(i: nat, n: nat, k: nat)
    requires k <= i < n
    ensures Ups(i, n, k) == i - k
    decreases k
  {
    if k > 0 {
      UpsCount(i - 1, n, k - 1);
    }
  }

  /** As many ArrowUp presses as there are results come back to the start. */
  lemma FullCycleUp(i: nat, n: nat)
    requires i < n
    ensures Ups(i, n, n) == i
  {
    UpsCompose(i, n, i + 1, n - 1 - i);
    UpsCount(i, n, i);
    assert Ups(0, n, 1) == n - 1;
    UpsCompose(i, n, i, 1);
    UpsCount(n - 1, n, n - 1 - i);
  }

  // ------------------------------------------------------------ result items

  /** The modal's percentage badge is shown when the score is truthy: present
      and not zero. */
  predicate ShowsPercent(h: Hit) {
    h.rankingScore.Some? && h.rankingScore.value != 0.0
  }

  /** Traced back to the engine, the badge appears exactly when the hit's
      `_rankingScore` parsed to a non-zero number; a missing or unparsable
      score reaches the frontend as 0 and shows none. */
  lemma BadgeFromEngineScore(doc: App.Documents.Document, score: App.RawScore)
    ensures ShowsPercent(SearchService.ToHit(App.ToResult(doc, score))) <==> score.Parsed? && score.score != 0.0
  {
  }

  // -------------------------------------------------------------- the class

  /** One search overlay. `panelVisible` is the results wrapper of the bar or
      the search body of the modal; `isOpen` is the modal's overlay and
      dialog (the bar is always shown). `timerPending` is the debounce timer,
      `outstanding` the queries sent and not yet answered, `openLog` the paths
      handed to the open call and `pendingOpens` those not yet settled. */
  class Controller {
    const mode: Presentation
    var input: string
    var results: seq<Hit>
    var selectedIndex: nat
    var timerPending: bool
    var outstanding: seq<string>
    var panelVisible: bool
    var content: Content
    var isOpen: bool
    var openLog: seq<string>
    var pendingOpens: nat

    function Snapshot(): State
      reads this
    {
      State(input, results, selectedIndex, timerPending, outstanding, panelVisible, content,
            isOpen, openLog, pendingOpens)
    }

    /** The selection is in bounds whenever there are results, a shown
        listing is the current results with an in-bounds highlight, and the
        bar is always open. */
    predicate Valid()
      reads this
    {
      (results != [] ==> selectedIndex < |results|)
      && (panelVisible && content.Items? ==>
            content.items == results && content.highlighted < |results|)
      && (mode == Bar ==> isOpen)
    }

    constructor(mode: Presentation)
      ensures this.mode == mode && Valid()
      ensures Snapshot() == State("", [], 0, false, [], false, Blank, mode == Bar, [], 0)
    {
      this.mode := mode;
      input := "";
      results := [];
      selectedIndex := 0;
      timerPending := false;
      outstanding := [];
      panelVisible := false;
      content := Blank;
      isOpen := mode == Bar;
      openLog := [];
      pendingOpens := 0;
    }

    /** `renderResults`: an empty list hides the panel and leaves its markup;
        otherwise the panel shows the results with the selection marked. */
    method Render()
      requires results != [] ==> selectedIndex < |results|
      modifies this
      ensures results == [] ==> Snapshot() == old(Snapshot()).(panelVisible := false)
      ensures results != [] ==> Snapshot() == old(Snapshot()).(panelVisible := true, content := Items(results, selectedIndex))
    {
      if |results| == 0 {
        panelVisible := false;
        return;
      }
      panelVisible := true;
      content := Items(results, selectedIndex);
    }

    /** The input listener: the pending timer is replaced by a new one, so at
        most one search is ever scheduled. */
    method Input(text: string)
      modifies this
      ensures Snapshot() == old(Snapshot()).(input := text, timerPending := true)
    {
      input := text;
      timerPending := true;
    }

    /** A burst of input events, none of them far enough apart for the timer
        to fire: only the last text remains and one timer is pending. */
    method InputAll(texts: seq<string>)
      requires Valid() && texts != []
      modifies this
      ensures Valid() && input == texts[|texts| - 1] && timerPending
      ensures Snapshot() == old(Snapshot()).(input := texts[|texts| - 1], timerPending := true)
    {
      Input(texts[0]);
      for i := 1 to |texts|
        invariant Valid()
        invariant Snapshot() == old(Snapshot()).(input := texts[i - 1], timerPending := true)
      {
        Input(texts[i]);
      }
    }

    /** The debounce timer fires and `performSearch` runs up to its `await`:
        an empty trimmed query clears the results at once (the bar also hides
        its panel, the modal blanks its listing); any other query is sent.
        `query` is the trimmed input the timer read. */
    method TimerFire() returns (query: string)
      requires Valid() && timerPending
      modifies this
      ensures Valid() && input == old(input) && query == Trim(input)
      ensures outstanding == if query == "" then old(outstanding) else old(outstanding) + [query]
      ensures query == "" && mode == Bar ==>
                Snapshot() == old(Snapshot()).(timerPending := false, panelVisible := false, results := [])
      ensures query == "" && mode == Modal ==>
                Snapshot() == old(Snapshot()).(timerPending := false, content := Blank, results := [])
      ensures query != "" ==>
                Snapshot() == old(Snapshot()).(timerPending := false, outstanding := old(outstanding) + [query])
    {
      query := Trim(input);
      SendQuery(query);
    }

    /** `performSearch` from its trimmed query on, up to the `await`. */
    method SendQuery(query: string)
      requires Valid() && timerPending
      modifies this
      ensures Valid() && input == old(input)
      ensures query == "" && mode == Bar ==>
                Snapshot() == old(Snapshot()).(timerPending := false, panelVisible := false, results := [])
      ensures query == "" && mode == Modal ==>
                Snapshot() == old(Snapshot()).(timerPending := false, content := Blank, results := [])
      ensures query != "" ==>
                Snapshot() == old(Snapshot()).(timerPending := false, outstanding := old(outstanding) + [query])
    {
      timerPending := false;
      if query == "" {
        if mode == Bar {
          panelVisible := false;
        } else {
          content := Blank;
        }
        results := [];
        return;
      }
      outstanding := outstanding + [query];
    }

    /** The search for `outstanding[k]` succeeds with `hits`: whatever was
        asked or answered before, the hits become the results, the selection
        goes back to the first and the panel is redrawn. */
    method Resolve(k: nat, hits: seq<Hit>)
      requires Valid() && k < |outstanding|
      modifies this
      ensures Valid()
      ensures results == hits && selectedIndex == 0
      ensures outstanding == old(outstanding[..k] + outstanding[k + 1..])
      ensures panelVisible <==> hits != []
      ensures hits != [] ==> content == Items(hits, 0)
      ensures hits == [] ==> content == old(content)
      ensures input == old(input) && timerPending == old(timerPending) && isOpen == old(isOpen)
      ensures openLog == old(openLog) && pendingOpens == old(pendingOpens)
    {
      outstanding := outstanding[..k] + outstanding[k + 1..];
      results := hits;
      selectedIndex := 0;
      Render();
    }

    /** The search for `outstanding[k]` fails: results and selection stay, the
        listing is replaced by the error notice, and the bar shows its panel
        (the modal leaves its body as it was). */
    method Fail(k: nat)
      requires Valid() && k < |outstanding|
      modifies this
      ensures Valid()
      ensures Snapshot() == old(Snapshot()).(outstanding := old(outstanding[..k] + outstanding[k + 1..]),
                                              content := ErrorNotice,
                                              panelVisible := mode == Bar || old(panelVisible))
    {
      outstanding := outstanding[..k] + outstanding[k + 1..];
      content := ErrorNotice;
      if mode == Bar {
        panelVisible := true;
      }
    }

    /** ArrowDown: nothing on an empty list, otherwise the next item,
        wrapping, and a redraw. */
    method SelectNext()
      requires Valid()
      modifies this
      ensures Valid()
      ensures results == old(results)
      ensures results == [] ==> Snapshot() == old(Snapshot())
      ensures results != [] ==>
                Snapshot() == old(Snapshot()).(selectedIndex := NextIndex(old(selectedIndex), |results|),
                                                panelVisible := true,
                                                content := Items(results, NextIndex(old(selectedIndex), |results|)))
    {
      if |results| == 0 {
        return;
      }
      selectedIndex := (selectedIndex + 1) % |results|;
      Render();
    }

    /** ArrowUp: nothing on an empty list, otherwise the previous item,
        wrapping, and a redraw. */
    method SelectPrevious()
      requires Valid()
      modifies this
      ensures Valid()
      ensures results == old(results)
      ensures results == [] ==> Snapshot() == old(Snapshot())
      ensures results != [] ==>
                Snapshot() == old(Snapshot()).(selectedIndex := PrevIndex(old(selectedIndex), |results|),
                                                panelVisible := true,
                                                content := Items(results, PrevIndex(old(selectedIndex), |results|)))
    {
      if |results| == 0 {
        return;
      }
      selectedIndex := if selectedIndex == 0 then |results| - 1 else selectedIndex - 1;
      Render();
    }

    /** `openSelected` up to its `await`: nothing on an empty list, otherwise
        the selected result's path is handed to the open call. */
    method OpenSelected()
      requires Valid()
      modifies this
      ensures Valid()
      ensures results == [] ==> Snapshot() == old(Snapshot())
      ensures results != [] ==>
                Snapshot() == old(Snapshot()).(openLog := old(openLog) + [results[selectedIndex].path],
                                                pendingOpens := old(pendingOpens) + 1)
    {
      if |results| == 0 {
        return;
      }
      var selected := results[selectedIndex];
      openLog := openLog + [selected.path];
      pendingOpens := pendingOpens + 1;
    }

    /** An open call settles. A failure changes nothing shown (the bar logs
        it, the modal alerts); a success closes the modal. */
    method OpenSettled(ok: bool)
      requires Valid() && pendingOpens > 0
      modifies this
      ensures Valid()
      ensures ok && mode == Modal ==>
                Snapshot() == old(Snapshot()).(pendingOpens := old(pendingOpens) - 1, isOpen := false)
      ensures !(ok && mode == Modal) ==> Snapshot() == old(Snapshot()).(pendingOpens := old(pendingOpens) - 1)
    {
      pendingOpens := pendingOpens - 1;
      if ok && mode == Modal {
        Close();
      }
    }

    /** A click on the `i`-th shown item: it becomes the selection and is
        opened, without a redraw (so the marked item may lag behind). */
    method ClickItem(i: nat)
      requires Valid() && isOpen && panelVisible && content.Items? && i < |content.items|
      modifies this
      ensures Valid()
      ensures Snapshot() == old(Snapshot()).(selectedIndex := i,
                                              openLog := old(openLog) + [old(results)[i].path],
                                              pendingOpens := old(pendingOpens) + 1)
    {
      selectedIndex := i;
      OpenSelected();
    }

    /** The bar's `clearSearch`: empties input and results and hides the
        panel; the selection, the timer and the searches in flight stay. */
    method ClearSearch()
      requires Valid() && mode == Bar
      modifies this
      ensures Valid()
      ensures Snapshot() == old(Snapshot()).(input := "", results := [], panelVisible := false)
    {
      input := "";
      results := [];
      panelVisible := false;
    }

    /** The modal's `open`: shows it with an empty input, no results and the
        selection at the start; the search body keeps its visibility. */
    method Open()
      requires Valid() && mode == Modal
      modifies this
      ensures Valid()
      ensures Snapshot() == old(Snapshot()).(isOpen := true, input := "", content := Blank,
                                              results := [], selectedIndex := 0)
    {
      isOpen := true;
      input := "";
      content := Blank;
      results := [];
      selectedIndex := 0;
    }

    /** The modal's `close`: hides it and keeps everything else. */
    method Close()
      requires Valid() && mode == Modal
      modifies this
      ensures Valid()
      ensures Snapshot() == old(Snapshot()).(isOpen := false)
    {
      isOpen := false;
    }

    /** The modal's `toggle`: opens when hidden, closes otherwise. */
    method Toggle()
      requires Valid() && mode == Modal
      modifies this
      ensures Valid()
      ensures isOpen == !old(isOpen)
      ensures !old(isOpen) ==> Snapshot() == old(Snapshot()).(isOpen := true, input := "", content := Blank,
                                                              results := [], selectedIndex := 0)
      ensures old(isOpen) ==> Snapshot() == old(Snapshot()).(isOpen := false)
    {
      if !isOpen {
        Open();
      } else {
        Close();
      }
    }

    /** A click on the modal's backdrop closes it. */
    method OverlayClick()
      requires Valid() && mode == Modal
      modifies this
      ensures Valid()
      ensures Snapshot() == old(Snapshot()).(isOpen := false)
    {
      Close();
    }

    /** The document-wide key listener of the modal: Cmd+K or Ctrl+K toggles,
        anything else is ignored. */
    method GlobalKey(meta: bool, ctrl: bool, key: string)
      requires Valid() && mode == Modal
      modifies this
      ensures Valid()
      ensures (meta || ctrl) && key == "k" && !old(isOpen) ==>
                Snapshot() == old(Snapshot()).(isOpen := true, input := "", content := Blank,
                                                results := [], selectedIndex := 0)
      ensures (meta || ctrl) && key == "k" && old(isOpen) ==> Snapshot() == old(Snapshot()).(isOpen := false)
      ensures !((meta || ctrl) && key == "k") ==> Snapshot() == old(Snapshot())
    {
      if (meta || ctrl) && key == "k" {
        Toggle();
      }
    }

    /** `handleKeyDown`: arrows move the selection, Enter opens it, Escape
        clears the bar or closes the modal. */
    method HandleKey(key: Key)
      requires Valid()
      modifies this
      ensures Valid()
      ensures key == Other ==> Snapshot() == old(Snapshot())
      ensures key == Escape && mode == Bar ==>
                Snapshot() == old(Snapshot()).(input := "", results := [], panelVisible := false)
      ensures key == Escape && mode == Modal ==> Snapshot() == old(Snapshot()).(isOpen := false)
      ensures key == Enter && old(results) == [] ==> Snapshot() == old(Snapshot())
      ensures key == Enter && old(results) != [] ==>
                Snapshot() == old(Snapshot()).(openLog := old(openLog) + [old(results)[old(selectedIndex)].path],
                                                pendingOpens := old(pendingOpens) + 1)
      ensures key in {ArrowDown, ArrowUp} && old(results) == [] ==> Snapshot() == old(Snapshot())
      ensures key == ArrowDown && old(results) != [] ==>
                var j := NextIndex(old(selectedIndex), |old(results)|);
                Snapshot() == old(Snapshot()).(selectedIndex := j, panelVisible := true, content := Items(old(results), j))
      ensures key == ArrowUp && old(results) != [] ==>
                var j := PrevIndex(old(selectedIndex), |old(results)|);
                Snapshot() == old(Snapshot()).(selectedIndex := j, panelVisible := true, content := Items(old(results), j))
    {
      match key {
        case ArrowDown => SelectNext();
        case ArrowUp => SelectPrevious();
        case Enter => OpenSelected();
        case Escape =>
          if mode == Bar {
            ClearSearch();
          } else {
            Close();
          }
        case Other =>
      }
    }
  }

  // -------------------------------------------------------------- scenarios

  /** A burst of keystrokes followed by one timer expiry sends one search,
      for the final text only. */
  method DebouncedBurst(mode: Presentation, texts: seq<string>) returns (query: string, sent: seq<string>)
    requires texts != []
    ensures query == Trim(texts[|texts| - 1])
    ensures sent == (if query == "" then [] else [query])
  {
    var c := new Controller(mode);
    c.InputAll(texts);
    ghost var last := c.input;
    assert last == texts[|texts| - 1];
    query := c.TimerFire();
    assert query == Trim(last);
    sent := c.outstanding;
  }

  /** With no request sequencing, the answer that arrives last wins even when
      it is for the older query: with two searches in flight, issued in the
      order `outstanding` keeps, an answer for the newer one followed by a late
      answer for the older one leaves the older one's hits on screen. */
  method StaleAnswerWins(c: Controller, olderHits: seq<Hit>, newerHits: seq<Hit>)
    requires c.Valid() && |c.outstanding| == 2
    modifies c
    ensures c.Valid() && c.results == olderHits && c.outstanding == []
    ensures c.input == old(c.input)
  {
    c.Resolve(1, newerHits);
    c.Resolve(0, olderHits);
  }

  /** Two presses of Cmd+K from a closed modal end closed, with the results
      emptied by the opening. */
  method ToggleTwice(meta: bool) returns (open: bool, results: seq<Hit>)
    ensures !open && results == []
  {
    var c := new Controller(Modal);
    c.GlobalKey(meta, !meta, "k");
    c.GlobalKey(meta, !meta, "k");
    open, results := c.isOpen, c.results;
  }

  /** Escape in the bar leaves a scheduled search in place; when it fires, it
      reads the now-empty input and clears again rather than searching. */
  method EscapeThenTimer(text: string) returns (sent: seq<string>, visible: bool)
    ensures sent == [] && !visible
  {
    var c := new Controller(Bar);
    c.Input(text);
    c.HandleKey(Escape);
    var query := c.TimerFire();
    sent, visible := c.outstanding, c.panelVisible;
  }

  /** Enter after a failed search still opens the result selected before the
      failure, although the error notice is what is shown. */
  method OpenAfterFailure(c: Controller, hits: seq<Hit>)
    requires c.Valid() && |c.outstanding| == 2 && hits != []
    modifies c
    ensures c.openLog == old(c.openLog) + [hits[0].path] && c.content == ErrorNotice
  {
    c.Resolve(0, hits);
    c.Fail(0);
    c.HandleKey(Enter);
  }
}
