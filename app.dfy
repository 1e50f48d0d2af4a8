/** The page state script.js keeps in its `DOMContentLoaded` closure and the
    DOM: the loaded entries, the selector and search box, the card grid with
    its "no results" message, and the detail panel with the URL hash. The
    event handlers are methods of one object. */
module App {
  import opened Options
  import opened Text
  import opened Vocabulary
  import opened Content

  /** A card element: the entry it shows, its `data-last-selected` mark, its
      `active` class and its `aria-expanded` attribute (absent until set). */
  datatype Card = Card(item: Item, lastSelected: bool, active: bool, ariaExpanded: Option<string>)

  /** Freshly built cards for the given entries, in order. */
  function NewCards(items: seq<Item>): seq<Card>
  {
    seq(|items|, k requires 0 <= k < |items| => Card(items[k], false, false, None))
  }

  function CardItems(cards: seq<Card>): seq<Item>
  {
    seq(|cards|, k requires 0 <= k < |cards| => cards[k].item)
  }

  /** `vocabularyData.find(item => item.id === id)`: the first entry with that id. */
  function FindItem(items: seq<Item>, id: string): (r: Option<Item>)
    ensures r.Some? ==> r.value in items && r.value.id == id
    ensures r.Some? ==> exists k :: 0 <= k < |items| && items[k] == r.value && forall j :: 0 <= j < k ==> items[j].id != id
    ensures r.None? <==> forall k :: 0 <= k < |items| ==> items[k].id != id
  {
    if items == [] then None
    else if items[0].id == id then
      Some(items[0])
    else
      var rest := FindItem(items[1..], id);
      if rest.Some? then
        var k :| 0 <= k < |items[1..]| && items[1..][k] == rest.value && forall j :: 0 <= j < k ==> items[1..][j].id != id;
        assert items[k + 1] == rest.value && forall j :: 0 <= j < k + 1 ==> items[j].id != id;
        rest
      else rest
  }

  /** `querySelector('.vocabulary-card[data-id="…"]')`: the position of the
      first card showing an entry with that id. */
  function FindCard(cards: seq<Card>, id: string): (r: Option<nat>)
    ensures r.Some? ==> r.value < |cards| && cards[r.value].item.id == id
    ensures r.Some? ==> forall j :: 0 <= j < r.value ==> cards[j].item.id != id
    ensures r.None? <==> forall k :: 0 <= k < |cards| ==> cards[k].item.id != id
  {
    if cards == [] then None
    else if cards[0].item.id == id then Some(0)
    else match FindCard(cards[1..], id)
      case None => None
      case Some(k) => Some(k + 1)
  }

  /** Clears every card's `data-last-selected` mark and sets the one at `k`. */
  function MarkLastSelected(cards: seq<Card>, k: nat): seq<Card>
  {
    seq(|cards|, j requires 0 <= j < |cards| => cards[j].(lastSelected := j == k))
  }

  /** The grid after `showContentPanel(id)` has looked for a card for `id`:
      when there is one, the first such card becomes the only card marked last
      selected; otherwise the grid is unchanged. No other attribute changes. */
  function SelectCard(cards: seq<Card>, id: string): (r: seq<Card>)
    ensures |r| == |cards|
    ensures forall j :: 0 <= j < |r| ==>
      && r[j].item == cards[j].item && r[j].active == cards[j].active && r[j].ariaExpanded == cards[j].ariaExpanded
    ensures FindCard(cards, id).Some? ==>
      forall j :: 0 <= j < |r| ==> (r[j].lastSelected <==> j == FindCard(cards, id).value)
    ensures FindCard(cards, id).None? ==> r == cards
    ensures CardItems(r) == CardItems(cards)
    ensures AtMostOneLastSelected(cards) ==> AtMostOneLastSelected(r)
  {
    match FindCard(cards, id)
    case Some(k) => MarkLastSelected(cards, k)
    case None => cards
  }

  /** Marking a card keeps every card's entry among the loaded ones and at
      most one card marked. */
  lemma SelectCardKeepsCards(cards: seq<Card>, id: string, items: seq<Item>)
    requires forall k :: 0 <= k < |cards| ==> cards[k].item in items
    requires AtMostOneLastSelected(cards)
    ensures forall k :: 0 <= k < |SelectCard(cards, id)| ==> SelectCard(cards, id)[k].item in items
    ensures AtMostOneLastSelected(SelectCard(cards, id))
  {
    var r := SelectCard(cards, id);
    forall k | 0 <= k < |r| ensures r[k].item in items {
      assert r[k].item == cards[k].item;
    }
  }

  /** At most one card carries the `data-last-selected` mark. */
  predicate AtMostOneLastSelected(cards: seq<Card>)
  {
    forall i, j :: 0 <= i < |cards| && 0 <= j < |cards| && cards[i].lastSelected && cards[j].lastSelected ==> i == j
  }

  class VocabularyApp {
    /** `vocabularyData`: the entries, loaded once. */
    var items: seq<Item>
    /** `categorySelect.value`. */
    var category: string
    /** `searchInput.value`. */
    var query: string
    /** Whether the clear-search button is displayed. */
    var clearButtonShown: bool
    /** The cards in `vocabularyGrid`, in order. */
    var grid: seq<Card>
    /** The "no results" element inside `vocabularyGrid`. */
    var message: NoResultsMessage
    /** The panel's `show` class together with the body's `panel-active` class. */
    var panelShown: bool
    /** `window.location.hash` without its leading `#`. */
    var hash: string
    /** `contentDisplay.innerHTML`. */
    var display: Display
    /** The entry whose content is still on its way (a fetch or the inline-content timer). */
    var pending: Option<Item>
    /** The text of the panel's header. */
    var panelTitle: string

    /** Every card shows a loaded entry, and at most one card is marked last selected. */
    ghost predicate Valid()
      reads this
    {
      && (forall k :: 0 <= k < |grid| ==> grid[k].item in items)
      && AtMostOneLastSelected(grid)
    }

    /** The grid side of the page. */
    ghost function Listing(): (seq<Item>, string, string, bool, seq<Card>, NoResultsMessage)
      reads this
    {
      (items, category, query, clearButtonShown, grid, message)
    }

    /** The panel side of the page. */
    ghost function Panel(): (bool, string, Display, Option<Item>, string)
      reads this
    {
      (panelShown, hash, display, pending, panelTitle)
    }

    /** The state `showContentPanel` leaves after opening `item` (found for
      `id`) from the grid `cards`: the panel is shown under the entry's
      title, the hash is the id, the content is on its way or settled, and
      the card for the id is marked. */
    ghost predicate Opened(cards: seq<Card>, id: string, item: Item)
      reads this
    {
      && panelShown && hash == id && panelTitle == item.title
      && display == InitialDisplay(item)
      && pending == (if InitialDisplay(item) == Loading then Some(item) else None)
      && grid == SelectCard(cards, id)
    }

    /** The page once `loadVocabularyData` has settled on `data`, before
      `initializeApp` runs: the controls hold whatever the browser restored. */
    constructor (data: seq<Item>, selectorValue: string, searchValue: string, locationHash: string, headerText: string)
      ensures Valid()
      ensures items == data && category == selectorValue && query == searchValue && hash == locationHash
      ensures grid == [] && message == Absent && !clearButtonShown
      ensures !panelShown && display == Blank && pending == None && panelTitle == headerText
    {
      items, category, query, hash := data, selectorValue, searchValue, locationHash;
      grid, message, clearButtonShown := [], Absent, false;
      panelShown, display, pending, panelTitle := false, Blank, None, headerText;
    }

    /** `createVocabularyCards`: clears the grid and draws the entries the
      older category test accepts, then updates the "no results" message. */
    method CreateVocabularyCards()
      requires Valid()
      modifies this
      ensures Valid()
      ensures grid == NewCards(LegacyVisible(items, category))
      ensures message == UpdateNoResultsMessage(Absent, grid != [])
      ensures items == old(items) && category == old(category) && query == old(query)
      ensures clearButtonShown == old(clearButtonShown) && Panel() == old(Panel())
    {
      var shown, cardCount := LegacyPass(items, category);
      grid := NewCards(shown);
      message := UpdateNoResultsMessage(Absent, cardCount != 0);
      forall k | 0 <= k < |grid| ensures grid[k].item in items {
        LegacyShowsNoMore(items, category, shown[k]);
        VisibleMembership(items, category, None, shown[k]);
      }
    }

    /** `filterCards(searchResults)`: clears the grid and draws the entries
      that pass the category and search tests, then updates the message. */
    method FilterCards(searchResults: Option<seq<string>>)
      requires Valid()
      modifies this
      ensures Valid()
      ensures grid == NewCards(Visible(items, category, searchResults))
      ensures message == UpdateNoResultsMessage(Absent, grid != [])
      ensures items == old(items) && category == old(category) && query == old(query)
      ensures clearButtonShown == old(clearButtonShown) && Panel() == old(Panel())
    {
      var shown, cardCount, hasVisibleCards := FilterPass(items, category, searchResults);
      grid := NewCards(shown);
      message := UpdateNoResultsMessage(Absent, hasVisibleCards);
      forall k | 0 <= k < |grid| ensures grid[k].item in items {
        VisibleMembership(items, category, searchResults, shown[k]);
      }
    }

    /** `initializeApp`: draws the cards, re-filters when the selector is not
      "all", and opens the entry named by the URL hash, if any. */
    method InitializeApp()
      requires Valid()
      modifies this
      ensures Valid()
      ensures CardItems(grid) == Visible(items, category, None)
      ensures message == UpdateNoResultsMessage(Absent, Visible(items, category, None) != [])
      ensures message == Displayed <==> Visible(items, category, None) == []
      ensures items == old(items) && category == old(category) && query == old(query)
      ensures clearButtonShown == old(clearButtonShown)
      ensures old(hash) == "" || FindItem(items, old(hash)).None? ==>
        grid == NewCards(Visible(items, category, None)) && Panel() == old(Panel())
      ensures old(hash) != "" && FindItem(items, old(hash)).Some? ==>
        Opened(NewCards(Visible(items, category, None)), old(hash), FindItem(items, old(hash)).value)
    {
      CreateVocabularyCards();
      if category != ShowAll {
        FilterCards(None);
      }
      InitialGridIsFiltered(items, category);
      assert CardItems(grid) == Visible(items, category, None);
      HandleInitialHash();
    }

    /** `handleSearch`: shows the clear button and filters by the search
      results when the trimmed query is not empty; filters without search
      otherwise. The query itself stays in the box. */
    method HandleSearch(value: string, search: string -> seq<string>)
      requires Valid()
      modifies this
      ensures Valid()
      ensures clearButtonShown <==> SearchConstraint(value, search).Some?
      ensures grid == NewCards(Visible(items, category, SearchConstraint(value, search)))
      ensures message == UpdateNoResultsMessage(Absent, grid != [])
      ensures message == Displayed <==> grid == []
      ensures query == value && items == old(items) && category == old(category) && Panel() == old(Panel())
    {
      query := value;
      var term := Trim(value, IsJsWhitespace);
      clearButtonShown := term != "";
      // An empty term filters without search; otherwise by the ranked ids.
      var searchResults := if term == "" then None else Some(search(term));
      SearchConstraintOfTerm(value, search);
      FilterCards(searchResults);
    }

    /** `clearSearch`: empties the box, hides the clear button and filters without search. */
    method ClearSearch()
      requires Valid()
      modifies this
      ensures Valid()
      ensures query == "" && !clearButtonShown
      ensures grid == NewCards(Visible(items, category, None))
      ensures message == UpdateNoResultsMessage(Absent, grid != [])
      ensures items == old(items) && category == old(category) && Panel() == old(Panel())
    {
      query := "";
      clearButtonShown := false;
      FilterCards(None);
    }

    /** The selector's `change` listener: filters by the new category WITHOUT
      the search constraint, even when the box still holds a query. */
    method ChangeCategory(selected: string)
      requires Valid()
      modifies this
      ensures Valid()
      ensures category == selected
      ensures grid == NewCards(Visible(items, selected, None))
      ensures message == UpdateNoResultsMessage(Absent, grid != [])
      ensures items == old(items) && query == old(query) && clearButtonShown == old(clearButtonShown)
      ensures Panel() == old(Panel())
    {
      category := selected;
      FilterCards(None);
    }

    /** `showContentPanel(cardId)`. An unknown id changes nothing. Otherwise
      the first card for that id becomes the only one marked last selected,
      the panel shows the loading indicator or the "no content" notice under
      the entry's title, the hash becomes the id and the panel is shown. */
    method ShowContentPanel(cardId: string)
      requires Valid()
      modifies this
      ensures Valid()
      ensures FindItem(old(items), cardId).None? ==> unchanged(this)
      ensures FindItem(old(items), cardId).Some? ==> Opened(old(grid), cardId, FindItem(old(items), cardId).value)
      ensures CardItems(grid) == CardItems(old(grid))
      ensures items == old(items) && category == old(category)
      ensures query == old(query) && clearButtonShown == old(clearButtonShown) && message == old(message)
    {
      var selected := FindItem(items, cardId);
      if selected.None? {
        return;
      }
      var item := selected.value;
      SelectCardKeepsCards(grid, cardId, items);
      grid, panelShown, hash, panelTitle := SelectCard(grid, cardId), true, cardId, item.title;
      display := InitialDisplay(item);
      pending := if display == Loading then Some(item) else None;
    }

    /** A click, Enter or Space on the card at `index` opens its entry. */
    method ActivateCard(index: nat)
      requires Valid() && index < |grid|
      modifies this
      ensures Valid()
      ensures FindItem(old(items), old(grid)[index].item.id).Some?
      ensures Opened(old(grid), old(grid)[index].item.id, FindItem(old(items), old(grid)[index].item.id).value)
      ensures items == old(items) && category == old(category)
      ensures query == old(query) && clearButtonShown == old(clearButtonShown) && message == old(message)
    {
      ShowContentPanel(grid[index].item.id);
    }

    /** The fetch or timer started by `showContentPanel` completes and writes
      the resolved content into the panel, whether or not it is still shown. */
    method ContentArrived(response: FetchResponse, marked: Option<string -> string>)
      requires Valid() && pending.Some?
      modifies this
      ensures Valid()
      ensures display == ResolveContent(old(pending).value, response, marked)
      ensures pending == None
      ensures panelShown == old(panelShown) && hash == old(hash) && panelTitle == old(panelTitle)
      ensures Listing() == old(Listing())
    {
      display := ResolveContent(pending.value, response, marked);
      pending := None;
    }

    /** `hideContentPanel`: hides the panel and clears the hash; the content
      and the card marks stay. */
    method HideContentPanel()
      requires Valid()
      modifies this
      ensures Valid()
      ensures !panelShown && hash == ""
      ensures display == old(display) && pending == old(pending) && panelTitle == old(panelTitle)
      ensures Listing() == old(Listing())
    {
      panelShown := false;
      hash := "";
    }

    /** `handlePopState`: the browser has already moved the hash; a non-empty
      hash opens that entry and an empty one closes the panel. */
    method HandlePopState(locationHash: string)
      requires Valid()
      modifies this
      ensures Valid()
      ensures locationHash == "" ==>
        && !panelShown && hash == ""
        && display == old(display) && pending == old(pending) && panelTitle == old(panelTitle)
        && grid == old(grid)
      ensures locationHash != "" && FindItem(items, locationHash).Some? ==>
        Opened(old(grid), locationHash, FindItem(items, locationHash).value)
      ensures locationHash != "" && FindItem(items, locationHash).None? ==>
        && hash == locationHash && panelShown == old(panelShown)
        && display == old(display) && pending == old(pending) && panelTitle == old(panelTitle)
        && grid == old(grid)
      ensures items == old(items) && category == old(category) && query == old(query)
      ensures clearButtonShown == old(clearButtonShown) && message == old(message)
      ensures CardItems(grid) == CardItems(old(grid))
    {
      hash := locationHash;
      if locationHash != "" {
        ShowContentPanel(locationHash);
      } else {
        HideContentPanel();
      }
    }

    /** `handleInitialHash`: opens the entry named by the hash, if any. */
    method HandleInitialHash()
      requires Valid()
      modifies this
      ensures Valid()
      ensures old(hash) == "" ==> unchanged(this)
      ensures old(hash) != "" && FindItem(items, old(hash)).None? ==> unchanged(this)
      ensures old(hash) != "" && FindItem(items, old(hash)).Some? ==>
        Opened(old(grid), old(hash), FindItem(items, old(hash)).value)
      ensures items == old(items) && category == old(category) && query == old(query)
      ensures clearButtonShown == old(clearButtonShown) && message == old(message)
      ensures CardItems(grid) == CardItems(old(grid))
    {
      if hash != "" {
        ShowContentPanel(hash);
      }
    }

    /** `handleKeyboardNavigation`: Escape closes the panel, and only when it is open. */
    method HandleKeyboardNavigation(key: string)
      requires Valid()
      modifies this
      ensures Valid()
      ensures key == "Escape" && old(panelShown) ==>
        !panelShown && hash == "" && pending == old(pending) && panelTitle == old(panelTitle)
      ensures !(key == "Escape" && old(panelShown)) ==> unchanged(this)
      ensures display == old(display) && Listing() == old(Listing())
    {
      if key == "Escape" && panelShown {
        HideContentPanel();
      }
    }

    /** `updateActiveCard(activeId)`: a card is active, with `aria-expanded`
      "true", exactly when it shows the entry with that id; every other card
      is inactive with "false". */
    method UpdateActiveCard(activeId: string)
      requires Valid()
      modifies this
      ensures Valid()
      ensures |grid| == |old(grid)|
      ensures forall k :: 0 <= k < |grid| ==>
        && grid[k].item == old(grid)[k].item
        && grid[k].lastSelected == old(grid)[k].lastSelected
        && (grid[k].active <==> grid[k].item.id == activeId)
        && grid[k].ariaExpanded == Some(if grid[k].item.id == activeId then "true" else "false")
      ensures items == old(items) && category == old(category) && query == old(query)
      ensures clearButtonShown == old(clearButtonShown) && message == old(message) && Panel() == old(Panel())
    {
      for i := 0 to |grid|
        invariant |grid| == |old(grid)| && items == old(items)
        invariant category == old(category) && query == old(query) && clearButtonShown == old(clearButtonShown)
        invariant message == old(message) && Panel() == old(Panel())
        invariant forall k :: 0 <= k < i ==>
          && grid[k].item == old(grid)[k].item
          && grid[k].lastSelected == old(grid)[k].lastSelected
          && (grid[k].active <==> grid[k].item.id == activeId)
          && grid[k].ariaExpanded == Some(if grid[k].item.id == activeId then "true" else "false")
        invariant forall k :: i <= k < |grid| ==> grid[k] == old(grid)[k]
      {
        var card := grid[i];
        if card.item.id == activeId {
          grid := grid[i := card.(active := true, ariaExpanded := Some("true"))];
        } else {
          grid := grid[i := card.(active := false, ariaExpanded := Some("false"))];
        }
      }
    }
  }

  /** Opening an entry and then navigating back to the page without a hash
      leaves the panel closed and the hash empty. */
  method OpenThenNavigateBack(app: VocabularyApp, id: string)
    requires app.Valid()
    modifies app
    ensures app.Valid()
    ensures !app.panelShown && app.hash == ""
    ensures app.items == old(app.items) && CardItems(app.grid) == CardItems(old(app.grid))
  {
    app.ShowContentPanel(id);
    app.HandlePopState("");
  }
}
