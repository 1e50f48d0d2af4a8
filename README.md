# Web3 vocabulary viewer and batch generator — a Dafny model

This project models the decision logic of a bilingual Web3 glossary. It has
two parts.

- The browser viewer (`script.js`).
  - It draws one card per glossary entry, filtered by a category selector.
    The selector uses a table of English and Chinese synonyms. A selector
    that is not in the table falls back to exact equality.
  - It can also filter by the ids that a fuzzy search returns for the query
    typed in the box.
  - It shows a "No matching vocabulary found" message when no card is left.
  - A detail panel opens an entry. Its content comes from a Markdown file,
    from inline HTML, from an error notice or from a "no content" notice.
    The URL hash names the open entry.
  - When the glossary data cannot be fetched, a built-in fallback list is used.
- The batch generator (`ai_generate/batch_generate.py`).
  - It selects the glossary terms that have a content path and match an
    optional category and an optional id, then truncates them to an optional
    `max_items`.
  - It prepares each content directory once.
  - It processes the terms in order. A term is skipped when its file already
    exists and is non-empty. Otherwise it is generated or fails, and the
    script sleeps between terms. An exception the generator does not catch
    ends the run.
  - It reads its options from the command line.

Modules:

- `Options`: optional values, error-carrying results and JavaScript/Python
  string truthiness.
- `Text`: JavaScript `trim`, the whitespace Python's `int()` strips, decimal
  numerals, and Python's `int()` on a string.
- `Sequences`: order-preserving selection (`Filter`), first occurrences
  (`Distinct`) and occurrence counts.
  The card filters and the term selection are all built on it.
- `Vocabulary`: the filter engine.
  - The category tests of `filterCards` and of the older `createVocabularyCards`.
  - The search constraint and the "no results" message.
  - The two card-drawing loops as methods proved against `Visible` and
    `LegacyVisible`.
- `Content`: Markdown loading, the content-resolution policy of
  `showContentPanel`, and the data-load fallback.
- `App`: the page state as the class `VocabularyApp`. Its methods are the
  event handlers (search, clear, category change, show/hide panel,
  popstate, Escape, initial hash, `updateActiveCard`).
- `BatchGenerate`: term selection, truncation, the directory loop, the
  generation loop with its counters, and command-line parsing.

Clearing the grid (`innerHTML = ''`) also removes the "no results" element.
So after every drawing pass the model starts the message from `Absent`.

## Model

| member | source | states |
|---|---|---|
| `Vocabulary.FilterPass` | script.js:401-466 | The loop appends exactly the entries that pass the category and search tests, in data order (`Visible`). `cardCount` is the number of cards. `hasVisibleCards` holds iff at least one card was drawn. |
| `Vocabulary.LegacyPass` | script.js:149-195 | The older loop draws exactly the entries its hard-coded category test accepts, in data order (`LegacyVisible`), and counts them. |
| `Vocabulary.SearchConstraint` | script.js:378-390 | There is no search constraint iff every character of the query is JavaScript whitespace. Otherwise the constraint is the result of searching for the trimmed query. |
| `Vocabulary.UpdateNoResultsMessage` | script.js:469-486 | The message is displayed iff no card is visible. With visible cards an existing message is hidden and a missing one is not created. |
| `Vocabulary.ShowAllKeepsEveryItem` | script.js:411-416 | With "all" and no search, every entry gets exactly one card, in data order. |
| `Vocabulary.VisibleMembership` | script.js:415-450 | An entry gets a card iff it is in the data, its type is in the selector's synonym list (or equals the selector when the selector is not in the table, or the selector is "all"), and, when there are search results, its id is among them. |
| `Vocabulary.VisibleKeepsOrder` | script.js:411-450 | Filtering distributes over concatenation, so cards keep the data order. |
| `Vocabulary.VisibleOccurrences` | script.js:444-450 | A passing entry gets as many cards as it has occurrences in the data, and a failing one gets none. |
| `Vocabulary.SynonymListsAreDisjoint` | script.js:419-426 | No type label belongs to two selectors' synonym lists. |
| `Vocabulary.BlankQueryIsNoSearch` | script.js:379-384 | A whitespace-only query draws the same grid as no search. |
| `Vocabulary.SearchRankIsIrrelevant` | script.js:438 | Two search results with the same ids, in any rank order or repetition, draw the same grid. |
| `Vocabulary.NoResultsIffNothingPasses` | script.js:444-485 | After a filter pass the message is displayed iff no entry passes both tests. |
| `Vocabulary.LegacyDisagreement` | script.js:159-176 | The older test and `filterCards` disagree on exactly two (selector, type) pairs: ("wallet_identity", "钱包与身份") and ("other", "其他"). The older test never accepts what `filterCards` rejects. |
| `Vocabulary.LegacyAgreesElsewhere` | script.js:159-176 | For every selector except wallet_identity and other, the older pass draws the same grid as `filterCards` without search. |
| `Vocabulary.LegacyShowsNoMore` | script.js:159-176 | An entry drawn by the older pass is also drawn by `filterCards` without search. |
| `Vocabulary.InitialGridIsFiltered` | script.js:107-116 | Drawing with the older pass under "all", and re-filtering otherwise, always gives the `filterCards` grid. |
| `Content.LoadMarkdownContent` | script.js:56-94 | The result is a success iff the response is `ok`. A rejection keeps its message. A non-`ok` response gives "HTTP error: status statusText". With a renderer the body is rendered. |
| `Content.RawFallbackKeepsText` | script.js:81-88 | Without a renderer the body comes back unaltered inside `<pre>…</pre>`. |
| `Content.InitialDisplay` | script.js:255-337 | The panel shows the loading indicator iff the entry has a truthy content path or inline content. Otherwise it shows the "no content" notice. |
| `Content.ResolveContent` | script.js:270-337 | A content path that loads shows the loaded HTML. A failed load falls back to inline content. An error notice, carrying the error message and the path, appears iff there is a path, no inline content and the response is not `ok`. Without a path inline content is shown, and without either the "no content" notice. |
| `Content.ImmediateDisplayIsFinal` | script.js:330-337 | When the panel is settled at once, that is the content the resolution policy gives, whatever the network does. |
| `Content.NoPathNeverErrors` | script.js:312-337 | An entry without a content path never shows an error notice. |
| `Content.LoadVocabularyData` | script.js:25-53 | Fetched data replaces the entries. On failure the entries already held stay. When none are held the fallback list is used, or an empty list when there is none. |
| `Content.FailedLoadShowsFallback` | script.js:36-43 | A failed first load with "all" and no search draws exactly the fallback entries, in order. |
| `App.FindItem` | script.js:236 | The result is the FIRST entry in the data with the id (no earlier entry has it), and it is missing iff no entry has that id. |
| `App.FindCard` | script.js:247 | The result is the position of the first card with that id, and it is missing iff no card has it. |
| `App.SelectCard` | script.js:246-253 | When a card shows the id, the first such card becomes the only one marked last selected; otherwise the grid is unchanged. Entries, `active` classes and `aria-expanded` attributes never change. |
| `App.VocabularyApp.constructor` | script.js:21-22 | The page before `initializeApp` runs: the data is loaded, the grid is empty, the panel is hidden under the page's own header text and nothing is pending. |
| `App.VocabularyApp.CreateVocabularyCards` | script.js:149-195 | The grid becomes fresh cards for `LegacyVisible`. The message is displayed iff the grid is empty. Everything else is unchanged. |
| `App.VocabularyApp.FilterCards` | script.js:401-466 | The grid becomes fresh cards for `Visible` under the current selector and the given search results. The message is displayed iff the grid is empty. Everything else is unchanged. |
| `App.VocabularyApp.InitializeApp` | script.js:107-116 | The grid is fresh cards for the `filterCards` grid without search, and the message is displayed iff that grid is empty. The data, selector, query and clear button are unchanged. A hash naming a loaded entry opens it (`Opened`: panel shown under its title, hash, display, pending load and card mark). Otherwise the panel is untouched. |
| `App.VocabularyApp.HandleSearch` | script.js:378-390 | The clear button is shown iff the trimmed query is non-empty. The grid is filtered by `SearchConstraint` of the query, and the message is displayed iff the grid is empty. The data, selector and panel are unchanged. |
| `App.VocabularyApp.ClearSearch` | script.js:393-398 | The box is emptied, the button hidden and the grid filtered without search. The message is displayed iff the grid is empty. The data, selector and panel are unchanged. |
| `App.VocabularyApp.ChangeCategory` | script.js:125-136 | The new selector filters the grid without the search constraint, even when the box holds a query. The message is displayed iff the grid is empty. The data, query, clear button and panel are unchanged. |
| `App.VocabularyApp.ShowContentPanel` | script.js:233-351 | An unknown id changes nothing. Otherwise (`Opened`) the panel is shown under the entry's title, the hash is the id, the display is `InitialDisplay` and pending content is recorded. The grid becomes `SelectCard` of the old grid. The data, selector, query, clear button and message are unchanged. |
| `App.VocabularyApp.ActivateCard` | script.js:221-227 | Activating a card opens the entry it shows: that entry is found, and the state is `Opened` for the card's id from the old grid. The listing fields are unchanged. |
| `App.VocabularyApp.ContentArrived` | script.js:274-329 | The pending content resolves to `ResolveContent`, even if the panel was closed meanwhile. Nothing is pending afterwards. The panel flag, hash, title and the whole listing are unchanged. |
| `App.VocabularyApp.HideContentPanel` | script.js:354-375 | The panel is hidden and the hash cleared. The content, pending load, title and listing (with the last-selected mark) stay. |
| `App.VocabularyApp.HandlePopState` | script.js:512-519 | An empty hash hides the panel and keeps its content, pending load, title and grid. A hash naming a loaded entry opens it (`Opened`). An unknown hash is kept and leaves the panel as it was. The data, selector, query, clear button and message are unchanged. |
| `App.VocabularyApp.HandleInitialHash` | script.js:522-527 | A non-empty hash naming a loaded entry opens it (`Opened`). Otherwise nothing changes. The data, selector, query, clear button and message are unchanged. |
| `App.VocabularyApp.HandleKeyboardNavigation` | script.js:489-495 | Escape on a shown panel hides it and clears the hash, keeping the content, pending load, title and listing. Any other key, or Escape on a hidden panel, changes nothing. |
| `App.VocabularyApp.UpdateActiveCard` | script.js:498-509 | A card is active with `aria-expanded` "true" iff its id equals the given one. Every other card is inactive with "false". Entries and last-selected marks are unchanged, and so are the category, the query, the clear button, the message and the panel. |
| `App.OpenThenNavigateBack` | script.js:512-519 | Opening an entry and then navigating back to an empty hash leaves the panel hidden and the hash empty. |
| `Text.TrimStart` | script.js:379 | The result is a suffix of the input. Every dropped character is whitespace, and the result does not start with whitespace. |
| `Text.TrimEnd` | script.js:379 | The result is a prefix of the input. Every dropped character is whitespace, and the result does not end with whitespace. |
| `Text.TrimIsEmptyIff` | script.js:379-382 | A string trims to empty iff all its characters are whitespace. |
| `Text.NatToDecimal` | script.js:71 | The numeral is non-empty and made only of digits, with no leading zero unless it is "0". |
| `Text.DecimalRoundTrip` | ai_generate/batch_generate.py:208 | Reading a decimal numeral back gives the number written. |
| `Text.ParsePythonIntRoundTrip` | ai_generate/batch_generate.py:208 | `int(str(i)) == i` for every integer with at most 4300 digits, the limit beyond which CPython's `str` and `int()` raise. |
| `Text.ParsePythonIntRejectsBlank` | ai_generate/batch_generate.py:207-211 | An empty or whitespace-only argument is rejected by `int()`. |
| `Text.ParsePythonIntKeepsSeparators` | ai_generate/batch_generate.py:208 | An argument starting with one of the ASCII separators U+001C to U+001F is rejected: `int()` does not strip them. |
| `Text.ParsePythonIntRejectsLongRun` | ai_generate/batch_generate.py:208 | A digit run of more than 4300 digits is rejected. |
| `BatchGenerate.SelectTerms` | ai_generate/batch_generate.py:113-125 | The loop keeps exactly `SelectedTerms`, in data order. |
| `BatchGenerate.SelectedTermsMembership` | ai_generate/batch_generate.py:113-125 | A term is selected iff it is in the data, has a `contentPath` key, matches the category when one is given and matches the id when one is given. |
| `BatchGenerate.SelectionKeepsOrder` | ai_generate/batch_generate.py:113-125 | Selection distributes over concatenation, so terms keep the data order. |
| `BatchGenerate.SelectedTermsHavePaths` | ai_generate/batch_generate.py:116-136 | Every selected term has the content path that the later loops read. |
| `BatchGenerate.Truncate` | ai_generate/batch_generate.py:127-129 | A given positive `max_items` cuts the list to its first min(`max_items`, n) terms. Otherwise the list is unchanged. |
| `BatchGenerate.DirnameOfEntry` | ai_generate/batch_generate.py:137 | A file named directly inside a directory has that directory as its dirname. |
| `BatchGenerate.CreateDirectories` | ai_generate/batch_generate.py:134-141 | `ensure_directory` is called once for each distinct directory of the selected terms, in the order of first occurrence (`Distinct` of the directories). It fails iff some content path has an empty directory part, where `os.makedirs('')` raises. Then the calls are `Distinct` of the directories up to the first such term, and the failing call is the last one. |
| `BatchGenerate.DispositionsPartition` | ai_generate/batch_generate.py:144-170 | Skipped, generated, failed and aborted counts add up to the number of outcomes; without an aborted term the first three do. |
| `BatchGenerate.DispositionsShape` | ai_generate/batch_generate.py:20-91 | Every term gets an outcome unless one aborts the run. An aborted term is the last outcome, no earlier one aborted, and its answer was an exception the script does not catch. |
| `BatchGenerate.ReturnedAnswersNeverAbort` | ai_generate/batch_generate.py:76-91 | When `generate_content_with_gemini` returns for every term (text or `None`), no term aborts and every term gets an outcome. |
| `Sequences.DistinctSummary` | ai_generate/batch_generate.py:134-141 | The distinct directories, each listed once, are exactly the directories of the terms. |
| `BatchGenerate.GenerateAll` | ai_generate/batch_generate.py:143-175 | The loop aborts iff some term's answer raises an uncaught exception. The success, error and skip counters count the generated, failed and skipped outcomes; without an abort they add up to the number of selected terms. The script sleeps after term k iff k is not the last term, was processed, and was neither skipped nor aborted. |
| `BatchGenerate.GenerateMarkdownFiles` | ai_generate/batch_generate.py:101-180 | A missing or empty API key stops the run before the data is read. Otherwise the processed terms are the truncated selection. The run stops in the directory loop iff a content path has an empty directory part. Past that loop every distinct directory was prepared once, in order. The run then aborts iff some term's answer raises an exception the script does not catch, and `abortedAt` is that term. When it finishes, the three counters are the counts of generated, failed and skipped outcomes, and it sleeps after term k iff k is not the last term and was not skipped. |
| `BatchGenerate.ParseCommandLine` | ai_generate/batch_generate.py:182-213 | The assignments give `CommandLine(argv)`. Parsing exits with status 1 iff there is no help flag and a third argument, other than "null", that `int()` rejects. A run that then ends as `DirectoryFailed` or `GenerationAborted` also exits with status 1, through an uncaught exception. |
| `BatchGenerate.CommandLineRoundTrip` | ai_generate/batch_generate.py:188-211 | Writing a category, an optional id and an optional limit as arguments, with "null" for what is not given, reads back as the same options. The category must not be a help flag, the id must not be "null" and the limit must have at most 4300 digits. |
| `BatchGenerate.NullCategoryIsLiteral` | ai_generate/batch_generate.py:188-201 | A first argument "null" becomes the category "null"; it never leaves the category unset. |
| `BatchGenerate.SeparatorPaddedLimitExitsWithError` | ai_generate/batch_generate.py:206-211 | A third argument "\x1c5" makes the script exit with status 1. |

## Left out

- DOM construction, styling, focus calls, console logging and screen-reader announcements are not modelled. The panel's header text is kept as `panelTitle`, assuming the header element exists.
- `fetch`, `marked.parse` and the Fuse.js search are parameters. A fetch is a `FetchResponse`, the renderer an optional function and the search a function from query to ids. Fuse's `threshold: 0.3` lives inside that function.
- Syntax highlighting with `hljs` is not modelled. It restyles code blocks already in the panel and changes no state of the model.
- `setTimeout` delays are not modelled, and neither is the race between overlapping content loads. The model keeps one pending load, which a later `showContentPanel` replaces. In the browser a stale load can still overwrite the panel.
- The History API is reduced to the hash. Percent-encoding of the hash and the pushed state objects are not modelled.
- ShowContentPanel: the card lookup compares ids exactly. In the browser the id is pasted into a CSS selector, so an id containing `"` makes `querySelector` throw after the entry was found, and a `\` is read as a CSS escape. Neither is modelled.
- The contents of the built-in fallback list are a parameter.
- Object prototype keys such as `constructor` in `categoryMap` are not modelled. The table is a plain map, so those selectors fall back to exact equality.
- Non-string JSON values for `type`, `id` and `contentPath` are not modelled.
- In the batch generator, the Gemini call, file reads and writes, `os.path` checks and the environment are inputs. The file system is a set of existing non-empty paths. The API is a function from term to `Answer`: the returned text or `None`, or an exception that `generate_content_with_gemini` does not catch (`KeyError` for a term without `description`, `KeyError` or `IndexError` for an answer without `candidates[0].content.parts[0].text`).
- CreateDirectories: the only failure modelled is `os.makedirs('')`. Permission and other operating-system errors are not modelled.
- `time.sleep` is not modelled; the model records the positions after which the script sleeps.
- A skipped term without `id` raises a `KeyError` when the skip is printed (batch_generate.py:151); the model has the skip succeed. A term without `title` or `id` that is not skipped raises at the progress line before the API is called; the model folds that into the term's `Uncaught` answer, with the same outcome.
- `save_to_markdown` is not modelled as failing: it either returns true or raises.
- `os.path.dirname` is modelled with POSIX separators. The Windows variant is not.
- Python's `int()` is modelled on ASCII digits only. Other Unicode decimal digits are not accepted.
- The 4300-digit limit of `int()` is the CPython default. Changing it with `PYTHONINTMAXSTRDIGITS` or `-X int_max_str_digits` is not modelled, and neither is an interpreter older than the limit.
- `ai_generate/generate_md_files.py` is not part of this model. Its only logic is the selection rule with category "Technology" and no id.
- `BatchGenerate.GenerateAll`: the skip counter does not exist in the script. It is added so that the three outcomes can be shown to partition the terms.
- `App.VocabularyApp.UpdateActiveCard`: the function is never called in `script.js`, so nothing in the page's flow depends on the active marks.
