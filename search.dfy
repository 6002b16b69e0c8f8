/** The search assistant (static/script.js:28-219): the search box's value, the
    lazily created suggestions container with its visibility and contents, the
    single debounce slot `suggestionTimeout`, and the stored history, driven by
    one method per event handler. */
module Search {
  import opened Wrappers
  import opened Text
  import opened History

  /** What the `input` handler does, decided by the length of the trimmed value. */
  datatype InputAction = ShowHistory | HidePanel | Schedule(query: string)

  /** The dispatch of the `input` handler: nothing but whitespace shows the
      history, one character hides the panel, two or more schedule a fetch for
      the trimmed text. */
  function Dispatch(value: string): (a: InputAction)
    ensures a.ShowHistory? <==> AllSpace(value)
    ensures a.HidePanel? <==> |Trim(value)| == 1
    ensures a.Schedule? <==> |Trim(value)| >= 2
    ensures a.Schedule? ==> a.query == Trim(value) && IsQuery(a.query)
  {
    TrimEmptyIffAllSpace(value);
    var query := Trim(value);
    if |query| == 0 then ShowHistory
    else if |query| < 2 then HidePanel
    else Schedule(query)
  }

  /** A query worth a request: at least two characters, trimmed at both ends. */
  predicate IsQuery(q: string) {
    |q| >= 2 && !IsSpace(q[0]) && !IsSpace(q[|q| - 1])
  }

  /** The rows last rendered into the container. */
  datatype Panel = Blank | HistoryPanel(entries: seq<string>) | SuggestionPanel(suggestions: seq<string>) {
    /** The texts of the clickable rows, top to bottom. */
    function Items(): seq<string> {
      match this
      case Blank => []
      case HistoryPanel(entries) => entries
      case SuggestionPanel(suggestions) => suggestions
    }
  }

  /** How the `/suggest` request ends: its parsed list, or a rejection. */
  datatype FetchOutcome = Fetched(suggestions: seq<string>) | FetchFailed

  /** Where a click on the document lands. */
  datatype ClickTarget = InSearchBox | InContainer | Elsewhere

  class SearchAssistant {
    /** `searchbox.value` */
    var value: string
    /** `suggestionsContainer` has been created */
    var hasContainer: bool
    /** `suggestionsContainer.style.display` is `block` */
    var visible: bool
    /** `suggestionsContainer.innerHTML` */
    var panel: Panel
    /** the trimmed query of the timer in `suggestionTimeout`, if one is pending */
    var pending: Option<string>
    /** `localStorage` */
    var storage: Storage
    /** queries sent to `/suggest`, oldest first */
    var requests: seq<string>
    /** values the form was submitted with by `searchbox.form.submit()` */
    var formSubmits: seq<string>

    ghost predicate Valid()
      reads this
    {
      && (visible ==> hasContainer && panel.Items() != [])
      && (!hasContainer ==> panel == Blank)
      && (pending.Some? ==> IsQuery(pending.value))
    }

    /** The handlers are attached: no container, no timer, nothing sent yet. */
    constructor (storage: Storage, value: string)
      ensures Valid()
      ensures this.value == value && this.storage == storage
      ensures !hasContainer && !visible && panel == Blank && pending == None
      ensures requests == [] && formSubmits == []
    {
      this.value := value;
      this.storage := storage;
      hasContainer, visible, panel, pending := false, false, Blank, None;
      requests, formSubmits := [], [];
    }

    /** The state `showSearchHistory()` leaves, from the rows shown before: the
        container exists; an empty history hides it and leaves its rows; any
        other history is shown. */
    ghost predicate HistoryShownAfter(before: Panel)
      reads this
    {
      && hasContainer
      && (if ReadHistory(storage) == [] then !visible && panel == before
          else visible && panel == HistoryPanel(ReadHistory(storage)))
    }

    /** The state `showSuggestions(suggestions)` leaves, likewise. */
    ghost predicate SuggestionsShownAfter(before: Panel, suggestions: seq<string>)
      reads this
    {
      && hasContainer
      && (if suggestions == [] then !visible && panel == before
          else visible && panel == SuggestionPanel(suggestions))
    }

    /** `showSearchHistory()` */
    method ShowSearchHistory()
      requires Valid()
      modifies this`hasContainer, this`visible, this`panel
      ensures Valid() && HistoryShownAfter(old(panel))
    {
      var history := ReadHistory(storage);
      hasContainer := true;
      if |history| == 0 {
        visible := false;
        return;
      }
      panel := HistoryPanel(history);
      visible := true;
    }

    /** `showSuggestions(suggestions)` */
    method ShowSuggestions(suggestions: seq<string>)
      requires Valid()
      modifies this`hasContainer, this`visible, this`panel
      ensures Valid() && SuggestionsShownAfter(old(panel), suggestions)
    {
      hasContainer := true;
      if |suggestions| == 0 {
        visible := false;
        return;
      }
      panel := SuggestionPanel(suggestions);
      visible := true;
    }

    /** The `focus` and `click` handlers of the search box (identical): history
        is shown only when the value is blank. */
    method OnFocusOrClick()
      requires Valid()
      modifies this`hasContainer, this`visible, this`panel
      ensures Valid()
      ensures AllSpace(value) ==> HistoryShownAfter(old(panel))
      ensures !AllSpace(value) ==>
        hasContainer == old(hasContainer) && visible == old(visible) && panel == old(panel)
    {
      TrimEmptyIffAllSpace(value);
      if |Trim(value)| == 0 {
        ShowSearchHistory();
      }
    }

    /** The `input` handler, after the user changed the value to `newValue`:
        the pending timer is always cancelled, then the trimmed length decides. */
    method OnInput(newValue: string)
      requires Valid()
      modifies this`value, this`pending, this`hasContainer, this`visible, this`panel
      ensures Valid() && value == newValue
      ensures Dispatch(newValue).ShowHistory? ==> pending == None && HistoryShownAfter(old(panel))
      ensures Dispatch(newValue).HidePanel? ==>
        && pending == None && !visible
        && hasContainer == old(hasContainer) && panel == old(panel)
      ensures Dispatch(newValue).Schedule? ==>
        && pending == Some(Dispatch(newValue).query)
        && hasContainer == old(hasContainer) && visible == old(visible) && panel == old(panel)
    {
      value := newValue;
      pending := None;
      match Dispatch(value)
      case ShowHistory =>
        ShowSearchHistory();
      case HidePanel =>
        if hasContainer {
          visible := false;
        }
      case Schedule(query) =>
        pending := Some(query);
    }

    /** The pending timer fires: `/suggest` is requested for its query and the
        outcome is rendered, or on a rejection the container is hidden. */
    method OnTimerFire(outcome: FetchOutcome)
      requires Valid() && pending.Some?
      modifies this`pending, this`requests, this`hasContainer, this`visible, this`panel
      ensures Valid() && pending == None
      ensures requests == old(requests) + [old(pending).value]
      ensures outcome.Fetched? ==> SuggestionsShownAfter(old(panel), outcome.suggestions)
      ensures outcome.FetchFailed? ==>
        !visible && hasContainer == old(hasContainer) && panel == old(panel)
    {
      var query := pending.value;
      pending := None;
      requests := requests + [query];
      match outcome
      case Fetched(suggestions) =>
        ShowSuggestions(suggestions);
      case FetchFailed =>
        if hasContainer {
          visible := false;
        }
    }

    /** A click on the `i`-th row of the shown history or suggestions: the box
        takes its text, the container is hidden and the form is submitted.
        `form.submit()` does not dispatch a `submit` event, so the history is
        not updated. */
    method OnItemClick(i: nat)
      requires Valid() && visible && i < |panel.Items()|
      modifies this`value, this`visible, this`formSubmits
      ensures Valid()
      ensures value == panel.Items()[i] && !visible
      ensures formSubmits == old(formSubmits) + [value]
    {
      value := panel.Items()[i];
      visible := false;
      formSubmits := formSubmits + [value];
    }

    /** A click on the clear button of the shown history: the history is
        removed and the container hidden; the click does not propagate. */
    method OnClearHistoryClick()
      requires Valid() && visible && panel.HistoryPanel?
      modifies this`storage, this`visible
      ensures Valid()
      ensures storage == Cleared(old(storage)) && !visible
    {
      ClearSearchHistory();
      visible := false;
    }

    /** The document's `click` handler: a click outside both the box and the
        container hides the container. */
    method OnDocumentClick(target: ClickTarget)
      requires Valid()
      modifies this`visible
      ensures Valid()
      ensures visible == (old(visible) && !(hasContainer && target == Elsewhere))
    {
      if hasContainer && target == Elsewhere {
        visible := false;
      }
    }

    /** The form's `submit` handler: a query that is not blank is recorded. */
    method OnSubmit()
      requires Valid()
      modifies this`storage
      ensures Valid()
      ensures storage == Saved(old(storage), value)
      ensures AllSpace(value) ==> storage == old(storage)
    {
      TrimEmptyIffAllSpace(value);
      SaveOfTrimmed(storage, value);
      var query := Trim(value);
      if |query| > 0 {
        SaveSearchHistory(query);
      }
    }

    /** `saveSearchHistory(query)` */
    method SaveSearchHistory(query: string)
      modifies this`storage
      ensures storage == Saved(old(storage), query)
    {
      if |Trim(query)| == 0 {
        return;
      }
      var q := Trim(query);
      var history := ReadHistory(storage);
      history := Without(history, q);
      history := [q] + history;
      if |history| > MaxHistory {
        history := history[..MaxHistory];
      }
      storage := storage[HistoryKey := JsonArray(history)];
    }

    /** `clearSearchHistory()` */
    method ClearSearchHistory()
      modifies this`storage
      ensures storage == Cleared(old(storage))
    {
      storage := storage - {HistoryKey};
    }
  }

  /** Clearing the history, then focusing the empty box, shows no panel. */
  method ClearThenFocus(storage: Storage)
  {
    var box := new SearchAssistant(storage, "");
    box.ClearSearchHistory();
    ClearedReadsEmpty(storage);
    box.OnFocusOrClick();
    assert !box.visible;
  }

  /** Typing a single non-space character leaves no timer, so no request. */
  method OneCharacterNeverFetches(storage: Storage, c: char)
    requires !IsSpace(c)
  {
    var box := new SearchAssistant(storage, "");
    TrimOfTrimmed([c]);
    box.OnInput([c]);
    assert box.pending == None;
  }

  /** Typing a query of two or more characters and waiting sends exactly one
      request, for that query. */
  method QueryFetchesOnce(storage: Storage, query: string, outcome: FetchOutcome)
    requires IsQuery(query)
  {
    var box := new SearchAssistant(storage, "");
    TrimOfTrimmed(query);
    box.OnInput(query);
    assert box.pending == Some(query) && box.requests == [];
    box.OnTimerFire(outcome);
    assert box.requests == [query];
  }

  /** Submitting the same value twice stores what submitting it once does,
      and a value that is not blank ends up at the head of the history. */
  method SubmitTwice(storage: Storage, query: string)
  {
    var box := new SearchAssistant(storage, query);
    box.OnSubmit();
    var once := box.storage;
    box.OnSubmit();
    SaveIdempotent(storage, query);
    assert box.storage == once;
    if !AllSpace(query) {
      SaveRecordsQuery(storage, query);
      assert ReadHistory(box.storage)[0] == Trim(query);
    }
  }
}
