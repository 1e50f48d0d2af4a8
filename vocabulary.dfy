/** The viewer's filter engine (script.js): which glossary entries get a card,
    given the category selector and an optional set of ids found by search. */
module Vocabulary {
  import opened Options
  import opened Text
  import opened Sequences

  /** One glossary entry. `kind` is the entry's `type` label, a free-form
      string with English and Chinese synonyms; `contentPath` locates a
      Markdown document and `content` is inline HTML, both optional. */
  datatype Item = Item(
    id: string,
    kind: string,
    title: string,
    description: string,
    contentPath: Option<string>,
    content: Option<string>)

  /** The selector value that shows every category. */
  const ShowAll: string := "all"

  /** `filterCards`' table from a selector value to the `type` labels it accepts. */
  const CategoryMap: map<string, seq<string>> := map[
    "tech" := ["tech", "技术", "Technology"],
    "finance" := ["finance", "金融"],
    "wallet_identity" := ["wallet_identity", "钱包与身份"],
    "nft_metaverse" := ["nft_metaverse", "NFT与游戏", "NFT与元宇宙"],
    "governance" := ["governance", "治理"],
    "other" := ["other", "其他"]
  ]

  /** `filterCards`' category test: everything under "all", the synonym list
      for a selector in the table, exact equality for any other selector. */
  predicate MatchesCategory(selected: string, kind: string)
  {
    if selected == ShowAll then true
    else if selected in CategoryMap then kind in CategoryMap[selected]
    else kind == selected
  }

  /** `createVocabularyCards`' older, hard-coded category test. */
  predicate LegacyMatchesCategory(selected: string, kind: string)
  {
    if selected == ShowAll then true
    else if selected == "tech" then kind == "tech" || kind == "技术" || kind == "Technology"
    else if selected == "finance" then kind == "finance" || kind == "金融"
    else if selected == "wallet_identity" then kind == "wallet_identity"
    else if selected == "nft_metaverse" then kind == "nft_metaverse" || kind == "NFT与游戏" || kind == "NFT与元宇宙"
    else if selected == "governance" then kind == "governance" || kind == "治理"
    else if selected == "other" then kind == "other"
    else kind == selected
  }

  /** The search test: no constraint when there are no search results (`null`),
      otherwise the id must be among them. An empty result list excludes all. */
  predicate MatchesSearch(searchResults: Option<seq<string>>, id: string)
  {
    searchResults.None? || id in searchResults.value
  }

  predicate Passes(item: Item, selected: string, searchResults: Option<seq<string>>)
  {
    MatchesCategory(selected, item.kind) && MatchesSearch(searchResults, item.id)
  }

  function FilterCriterion(selected: string, searchResults: Option<seq<string>>): Item -> bool
  {
    (item: Item) => Passes(item, selected, searchResults)
  }

  function LegacyCriterion(selected: string): Item -> bool
  {
    (item: Item) => LegacyMatchesCategory(selected, item.kind)
  }

  /** The entries `filterCards` gives a card, in grid order. */
  function Visible(items: seq<Item>, selected: string, searchResults: Option<seq<string>>): seq<Item>
  {
    Filter(items, FilterCriterion(selected, searchResults))
  }

  /** The entries `createVocabularyCards` gives a card, in grid order. */
  function LegacyVisible(items: seq<Item>, selected: string): seq<Item>
  {
    Filter(items, LegacyCriterion(selected))
  }

  /** `filterCards`' pass over the data: each entry that passes both tests is
      appended to the grid, counted, and recorded as a visible card. */
  method FilterPass(items: seq<Item>, selected: string, searchResults: Option<seq<string>>)
    returns (shown: seq<Item>, cardCount: nat, hasVisibleCards: bool)
    ensures shown == Visible(items, selected, searchResults)
    ensures cardCount == |shown|
    ensures hasVisibleCards <==> cardCount > 0
  {
    shown, cardCount, hasVisibleCards := [], 0, false;
    for i := 0 to |items|
      invariant shown == Visible(items[..i], selected, searchResults)
      invariant cardCount == |shown|
      invariant hasVisibleCards <==> cardCount > 0
    {
      var item := items[i];
      var matchesCategory := MatchesCategory(selected, item.kind);
      var matchesSearch := MatchesSearch(searchResults, item.id);
      if matchesCategory && matchesSearch {
        shown := shown + [item];
        hasVisibleCards := true;
        cardCount := cardCount + 1;
      }
      FilterStep(items, i, FilterCriterion(selected, searchResults));
    }
    assert items[..|items|] == items;
  }

  /** `createVocabularyCards`' pass over the data. */
  method LegacyPass(items: seq<Item>, selected: string) returns (shown: seq<Item>, cardCount: nat)
    ensures shown == LegacyVisible(items, selected)
    ensures cardCount == |shown|
  {
    shown, cardCount := [], 0;
    for i := 0 to |items|
      invariant shown == LegacyVisible(items[..i], selected)
      invariant cardCount == |shown|
    {
      var item := items[i];
      if LegacyMatchesCategory(selected, item.kind) {
        shown := shown + [item];
        cardCount := cardCount + 1;
      }
      FilterStep(items, i, LegacyCriterion(selected));
    }
    assert items[..|items|] == items;
  }

  /** `handleSearch`: the constraint a typed query puts on `filterCards`. The
      query is trimmed; a blank query imposes none, any other query restricts
      the grid to the ids `search` (the fuzzy matcher) ranks for it. */
  function SearchConstraint(query: string, search: string -> seq<string>): (r: Option<seq<string>>)
    ensures r.None? <==> forall k :: 0 <= k < |query| ==> IsJsWhitespace(query[k])
    ensures r.Some? ==> r.value == search(Trim(query, IsJsWhitespace))
  {
    TrimIsEmptyIff(query, IsJsWhitespace);
    var term := Trim(query, IsJsWhitespace);
    if term == "" then None else Some(search(term))
  }

  /** The constraint in terms of the trimmed query, as `handleSearch` computes it. */
  lemma SearchConstraintOfTerm(query: string, search: string -> seq<string>)
    ensures var term := Trim(query, IsJsWhitespace);
      SearchConstraint(query, search) == if term == "" then None else Some(search(term))
  {
  }

  /** The "No matching vocabulary found" element: not in the grid, shown, or hidden. */
  datatype NoResultsMessage = Absent | Displayed | Hidden

  /** `updateNoResultsMessage`: creates or re-shows the message when no card is
      visible, hides an existing one otherwise. */
  function UpdateNoResultsMessage(message: NoResultsMessage, hasVisibleCards: bool): (r: NoResultsMessage)
    ensures r == Displayed <==> !hasVisibleCards
    ensures hasVisibleCards ==> (r == Absent <==> message == Absent)
  {
    if !hasVisibleCards then Displayed
    else if message != Absent then Hidden
    else Absent
  }

  /** With "all" and no search every entry gets exactly one card, in data order. */
  lemma ShowAllKeepsEveryItem(items: seq<Item>)
    ensures Visible(items, ShowAll, None) == items
  {
    FilterAllPass(items, FilterCriterion(ShowAll, None));
  }

  /** The grid holds exactly the entries that match the category (through the
      synonym table, or by equality when the selector is not in it) and, when
      there are search results, whose id is among them. */
  lemma VisibleMembership(items: seq<Item>, selected: string, searchResults: Option<seq<string>>, item: Item)
    ensures item in Visible(items, selected, searchResults) <==>
      && item in items
      && (|| selected == ShowAll
          || (selected in CategoryMap && item.kind in CategoryMap[selected])
          || (selected !in CategoryMap && item.kind == selected))
      && (searchResults.None? || item.id in searchResults.value)
  {
    FilterMembership(items, FilterCriterion(selected, searchResults), item);
  }

  /** Filtering keeps the data order: entries earlier in the data have their
      cards earlier in the grid. */
  lemma VisibleKeepsOrder(before: seq<Item>, after: seq<Item>, selected: string, searchResults: Option<seq<string>>)
    ensures Visible(before + after, selected, searchResults)
         == Visible(before, selected, searchResults) + Visible(after, selected, searchResults)
  {
    FilterAppend(before, after, FilterCriterion(selected, searchResults));
  }

  /** Filtering never duplicates an entry: a passing entry gets as many cards
      as it has occurrences in the data, a failing one none. */
  lemma VisibleOccurrences(items: seq<Item>, selected: string, searchResults: Option<seq<string>>, item: Item)
    ensures Occurrences(Visible(items, selected, searchResults), item)
         == if Passes(item, selected, searchResults) then Occurrences(items, item) else 0
  {
    FilterOccurrences(items, FilterCriterion(selected, searchResults), item);
  }

  /** Every label in a synonym list belongs to exactly one selector, so a
      label collapses to a single canonical category. */
  lemma SynonymListsAreDisjoint(c1: string, c2: string, kind: string)
    requires c1 in CategoryMap && c2 in CategoryMap
    requires kind in CategoryMap[c1] && kind in CategoryMap[c2]
    ensures c1 == c2
  {
  }

  /** A whitespace-only query shows exactly what no search shows. */
  lemma BlankQueryIsNoSearch(items: seq<Item>, selected: string, query: string, search: string -> seq<string>)
    requires forall k :: 0 <= k < |query| ==> IsJsWhitespace(query[k])
    ensures Visible(items, selected, SearchConstraint(query, search)) == Visible(items, selected, None)
  {
  }

  /** Only membership in the search results matters, not their rank order or
      repetitions. */
  lemma SearchRankIsIrrelevant(items: seq<Item>, selected: string, ranked1: seq<string>, ranked2: seq<string>)
    requires forall id :: id in ranked1 <==> id in ranked2
    ensures Visible(items, selected, Some(ranked1)) == Visible(items, selected, Some(ranked2))
  {
    FilterCongruence(items, FilterCriterion(selected, Some(ranked1)), FilterCriterion(selected, Some(ranked2)));
  }

  /** After a filter pass the "no results" message is displayed exactly when no
      entry passes both tests. */
  lemma NoResultsIffNothingPasses(items: seq<Item>, selected: string, searchResults: Option<seq<string>>)
    ensures UpdateNoResultsMessage(Absent, |Visible(items, selected, searchResults)| > 0) == Displayed
        <==> forall k :: 0 <= k < |items| ==> !Passes(items[k], selected, searchResults)
  {
    FilterEmptyIff(items, FilterCriterion(selected, searchResults));
  }

  /** The two category tests disagree on exactly two (selector, label) pairs:
      "钱包与身份" under wallet_identity and "其他" under other, which only
      `filterCards` accepts. */
  lemma LegacyDisagreement(selected: string, kind: string)
    ensures LegacyMatchesCategory(selected, kind) != MatchesCategory(selected, kind)
        <==> (selected == "wallet_identity" && kind == "钱包与身份") || (selected == "other" && kind == "其他")
    ensures LegacyMatchesCategory(selected, kind) ==> MatchesCategory(selected, kind)
  {
  }

  /** For every selector other than wallet_identity and other, the older pass
      draws the same grid as `filterCards` without search. */
  lemma LegacyAgreesElsewhere(items: seq<Item>, selected: string)
    requires selected != "wallet_identity" && selected != "other"
    ensures LegacyVisible(items, selected) == Visible(items, selected, None)
  {
    forall k | 0 <= k < |items|
      ensures LegacyCriterion(selected)(items[k]) == FilterCriterion(selected, None)(items[k])
    {
      LegacyDisagreement(selected, items[k].kind);
    }
    FilterCongruence(items, LegacyCriterion(selected), FilterCriterion(selected, None));
  }

  /** The older pass never shows an entry `filterCards` would hide. */
  lemma LegacyShowsNoMore(items: seq<Item>, selected: string, item: Item)
    ensures item in LegacyVisible(items, selected) ==> item in Visible(items, selected, None)
  {
    FilterMembership(items, LegacyCriterion(selected), item);
    FilterMembership(items, FilterCriterion(selected, None), item);
    LegacyDisagreement(selected, item.kind);
  }

  /** `initializeApp` draws the grid with the older pass and re-filters
      whenever the selector is not "all"; either way the result is what
      `filterCards` without search shows, so the disagreement never reaches
      the first screen. */
  lemma InitialGridIsFiltered(items: seq<Item>, selected: string)
    ensures (if selected == ShowAll then LegacyVisible(items, selected) else Visible(items, selected, None))
         == Visible(items, selected, None)
  {
    if selected == ShowAll {
      LegacyAgreesElsewhere(items, selected);
    }
  }
}
