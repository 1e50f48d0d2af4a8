/** The batch Markdown generator (ai_generate/batch_generate.py): which glossary
    terms it works on, which directories it prepares, how each term ends up
    (skipped, generated or failed), and how the command line is read. The
    file system, the environment and the generation API are inputs. */
module BatchGenerate {
  import opened Options
  import opened Text
  import opened Sequences

  /** One record of the glossary data as the script reads it; any key may be
      missing from the JSON object. `kind` is the record's `type`. */
  datatype Term = Term(id: Option<string>, kind: Option<string>, contentPath: Option<string>)

  /** The selection test: the record has a `contentPath` key (whatever its
      value), and matches the category and the id when those are given.
      `term.get(key) == value` is false for a missing key. */
  predicate IsSelected(term: Term, category: Option<string>, specificId: Option<string>)
  {
    && term.contentPath.Some?
    && (category.None? || term.kind == category)
    && (specificId.None? || term.id == specificId)
  }

  function SelectionCriterion(category: Option<string>, specificId: Option<string>): Term -> bool
  {
    (term: Term) => IsSelected(term, category, specificId)
  }

  /** The terms the selection loop keeps, in data order. */
  function SelectedTerms(terms: seq<Term>, category: Option<string>, specificId: Option<string>): seq<Term>
  {
    Filter(terms, SelectionCriterion(category, specificId))
  }

  /** The selection loop of `generate_markdown_files`: appends every record
      that passes the test to `filtered_terms`. */
  method SelectTerms(vocabData: seq<Term>, category: Option<string>, specificId: Option<string>)
    returns (filteredTerms: seq<Term>)
    ensures filteredTerms == SelectedTerms(vocabData, category, specificId)
  {
    filteredTerms := [];
    for i := 0 to |vocabData|
      invariant filteredTerms == SelectedTerms(vocabData[..i], category, specificId)
    {
      var term := vocabData[i];
      var hasContentPath := term.contentPath.Some?;
      var categoryMatch := category.None? || term.kind == category;
      var idMatch := specificId.None? || term.id == specificId;
      if hasContentPath && categoryMatch && idMatch {
        filteredTerms := filteredTerms + [term];
      }
      FilterStep(vocabData, i, SelectionCriterion(category, specificId));
    }
    assert vocabData[..|vocabData|] == vocabData;
  }

  /** A term is selected exactly when it is in the data, has a content path,
      and matches the category and id that were given. */
  lemma SelectedTermsMembership(terms: seq<Term>, category: Option<string>, specificId: Option<string>, term: Term)
    ensures term in SelectedTerms(terms, category, specificId) <==>
      && term in terms
      && term.contentPath.Some?
      && (category.None? || term.kind == category)
      && (specificId.None? || term.id == specificId)
  {
    FilterMembership(terms, SelectionCriterion(category, specificId), term);
  }

  /** Selection keeps the data order. */
  lemma SelectionKeepsOrder(before: seq<Term>, after: seq<Term>, category: Option<string>, specificId: Option<string>)
    ensures SelectedTerms(before + after, category, specificId)
         == SelectedTerms(before, category, specificId) + SelectedTerms(after, category, specificId)
  {
    FilterAppend(before, after, SelectionCriterion(category, specificId));
  }

  /** Every selected term has a content path. */
  predicate AllHavePaths(terms: seq<Term>)
  {
    forall k :: 0 <= k < |terms| ==> terms[k].contentPath.Some?
  }

  lemma SelectedTermsHavePaths(terms: seq<Term>, category: Option<string>, specificId: Option<string>)
    ensures AllHavePaths(SelectedTerms(terms, category, specificId))
  {
    var selected := SelectedTerms(terms, category, specificId);
    forall k | 0 <= k < |selected| ensures selected[k].contentPath.Some? {
      SelectedTermsMembership(terms, category, specificId, selected[k]);
    }
  }

  function Min(a: int, b: int): int
  {
    if a < b then a else b
  }

  /** Python's slice `s[:k]`, including a negative `k` counting from the end. */
  function PythonPrefix<T>(s: seq<T>, k: int): seq<T>
  {
    if k >= |s| then s
    else if k >= 0 then s[..k]
    else if |s| + k >= 0 then s[..|s| + k]
    else []
  }

  /** The `max_items` limit: only a given, positive limit cuts the list, to its
      first min(limit, length) terms; otherwise the list is unchanged. */
  function Truncate(terms: seq<Term>, maxItems: Option<int>): (r: seq<Term>)
    ensures maxItems.Some? && maxItems.value > 0 ==> |r| == Min(maxItems.value, |terms|) && r == terms[..|r|]
    ensures !(maxItems.Some? && maxItems.value > 0) ==> r == terms
  {
    if maxItems.Some? && maxItems.value > 0 then PythonPrefix(terms, maxItems.value) else terms
  }

  /** The position just past the last `/` of a path, 0 when it has none. */
  function AfterLastSlash(p: string): (i: nat)
    ensures i <= |p|
    ensures i > 0 ==> p[i - 1] == '/'
    ensures forall k :: i <= k < |p| ==> p[k] != '/'
  {
    if p == [] then 0
    else if p[|p| - 1] == '/' then |p|
    else AfterLastSlash(p[..|p| - 1])
  }

  predicate IsSlash(c: char)
  {
    c == '/'
  }

  /** POSIX `os.path.dirname`: everything up to the last `/`, with trailing
      slashes removed unless the head is nothing but slashes. */
  function Dirname(p: string): string
  {
    var head := p[..AfterLastSlash(p)];
    if head != "" && exists k :: 0 <= k < |head| && !IsSlash(head[k]) then TrimEnd(head, IsSlash) else head
  }

  /** A file named directly inside a directory has that directory as its
      dirname, as for `content/tech/rpc.md`. */
  lemma DirnameOfEntry(dir: string, name: string)
    requires dir != [] && !IsSlash(dir[|dir| - 1])
    requires forall k :: 0 <= k < |name| ==> !IsSlash(name[k])
    ensures Dirname(dir + "/" + name) == dir
  {
    var p := dir + "/" + name;
    var i := AfterLastSlash(p);
    assert p[|dir|] == '/';
    assert forall k :: |dir| < k < |p| ==> p[k] == name[k - |dir| - 1];
    assert i == |dir| + 1;
    var head := p[..i];
    assert head == dir + "/";
    assert !IsSlash(head[|dir| - 1]);
    var r := TrimEnd(head, IsSlash);
    assert |r| == |dir|;
    assert r == head[..|dir|] == dir;
  }

  /** The directory of a selected term's content path. */
  function DirectoryOf(term: Term): string
    requires term.contentPath.Some?
  {
    Dirname(term.contentPath.value)
  }

  function Directories(terms: seq<Term>): seq<string>
    requires AllHavePaths(terms)
  {
    seq(|terms|, k requires 0 <= k < |terms| => DirectoryOf(terms[k]))
  }

  /** The calls made before the directory loop fails: up to and including
      the first term whose directory is empty, each distinct directory once,
      in the order of first occurrence. */
  ghost predicate PreparedUntilEmpty(terms: seq<Term>, ensured: seq<string>)
    requires AllHavePaths(terms)
  {
    exists j :: (
      && 0 <= j < |terms| && Directories(terms)[j] == ""
      && "" !in Directories(terms)[..j]
      && SameElements(ensured, Directories(terms)[..j + 1])
      && ensured == Distinct(Directories(terms)[..j + 1]))
  }

  /** The directory loop: `ensure_directory` is called for each distinct
      directory of the selected terms, in the order of their first
      occurrence, thanks to `created_directories`. A directory that does not exist yet is made with
      `os.makedirs`, which raises `FileNotFoundError` for the empty directory
      of a content path without `/`; the exception ends the loop and the run.
      `ensured` lists the calls made, the failing one included, and `failed`
      says whether the exception was raised. */
  method CreateDirectories(filteredTerms: seq<Term>) returns (ensured: seq<string>, failed: bool)
    requires AllHavePaths(filteredTerms)
    ensures failed <==> "" in Directories(filteredTerms)
    ensures NoDuplicates(ensured)
    ensures !failed ==> SameElements(ensured, Directories(filteredTerms))
    ensures failed ==> ensured != [] && ensured[|ensured| - 1] == ""
    ensures failed ==> PreparedUntilEmpty(filteredTerms, ensured)
    ensures !failed ==> ensured == Distinct(Directories(filteredTerms))
  {
    ghost var ds := Directories(filteredTerms);
    var createdDirectories: set<string> := {};
    ensured, failed := [], false;
    for i := 0 to |filteredTerms|
      invariant forall d :: d in createdDirectories <==> d in ds[..i]
      invariant ensured == Distinct(ds[..i])
      invariant "" !in ds[..i]
    {
      var directory := DirectoryOf(filteredTerms[i]);
      assert ds[..i + 1] == ds[..i] + [directory];
      DistinctStep(ds, i);
      if directory !in createdDirectories {
        ensured := ensured + [directory];
        if directory == "" {
          failed := true;
          DistinctSummary(ds[..i + 1]);
          assert ds[i] == "" && "" !in ds[..i];
          assert SameElements(ensured, ds[..i + 1]) && ensured == Distinct(ds[..i + 1]);
          return;
        }
        createdDirectories := createdDirectories + {directory};
      }
    }
    assert ds[..|filteredTerms|] == ds;
    DistinctSummary(ds);
  }

  /** What `generate_content_with_gemini` does for a term. It returns the
      generated text, or `None` after a `RequestException`. Any other
      exception escapes (`Uncaught`): the `KeyError` of a term without
      `title`, `id` or `description`, or the `KeyError`/`IndexError` of an
      answer without `candidates[0].content.parts[0].text`. */
  datatype Answer = Returned(content: Option<string>) | Uncaught

  /** How one selected term ended up; `Aborted` is the term whose uncaught
      exception ends the run. */
  datatype Disposition = Skipped | Generated | Failed | Aborted

  /** What happens to one selected term given the non-empty files so far:
      a term whose file exists and is non-empty is skipped; otherwise the API
      is asked, and an empty or missing answer is a failure while any other
      answer is saved, so the file then exists. `respond` gives the API's
      answer for a term. */
  function Step(term: Term, files: set<string>, respond: Term -> Answer): (Disposition, set<string>)
    requires term.contentPath.Some?
  {
    var path := term.contentPath.value;
    if path in files then (Skipped, files)
    else
      match respond(term)
      case Uncaught => (Aborted, files)
      case Returned(content) =>
        if IsTruthy(content) then (Generated, files + {path}) else (Failed, files)
  }

  /** The dispositions of the selected terms, in order, starting from the
      non-empty files in `existing`; a later term with the same path as a
      generated one finds its file, and nothing follows an aborted term. */
  function Dispositions(terms: seq<Term>, existing: set<string>, respond: Term -> Answer): seq<Disposition>
    requires AllHavePaths(terms)
  {
    if terms == [] then []
    else
      var (d, next) := Step(terms[0], existing, respond);
      if d == Aborted then [Aborted] else [d] + Dispositions(terms[1..], next, respond)
  }

  lemma DispositionsUnfold(terms: seq<Term>, i: nat, files: set<string>, respond: Term -> Answer)
    requires i < |terms| && AllHavePaths(terms)
    ensures AllHavePaths(terms[i..]) && AllHavePaths(terms[i + 1..])
    ensures Dispositions(terms[i..], files, respond)
         == if Step(terms[i], files, respond).0 == Aborted then [Aborted]
            else [Step(terms[i], files, respond).0] + Dispositions(terms[i + 1..], Step(terms[i], files, respond).1, respond)
  {
    assert terms[i..][1..] == terms[i + 1..];
  }

  /** Every term gets a disposition unless one aborts the run; an aborted
      term is the last one processed, and it is the one whose answer raised. */
  lemma {:induction false} DispositionsShape(terms: seq<Term>, existing: set<string>, respond: Term -> Answer)
    requires AllHavePaths(terms)
    ensures |Dispositions(terms, existing, respond)| <= |terms|
    ensures Aborted !in Dispositions(terms, existing, respond) ==> |Dispositions(terms, existing, respond)| == |terms|
    ensures Aborted in Dispositions(terms, existing, respond) ==>
      var ds := Dispositions(terms, existing, respond);
      && ds[|ds| - 1] == Aborted
      && Aborted !in ds[..|ds| - 1]
      && respond(terms[|ds| - 1]).Uncaught?
  {
    if terms != [] {
      var (d, next) := Step(terms[0], existing, respond);
      if d != Aborted {
        var rest := Dispositions(terms[1..], next, respond);
        DispositionsShape(terms[1..], next, respond);
        var ds := [d] + rest;
        assert ds == Dispositions(terms, existing, respond);
        if Aborted in ds {
          assert Aborted in rest;
          assert ds[..|ds| - 1] == [d] + rest[..|rest| - 1];
          assert terms[1..][|rest| - 1] == terms[|ds| - 1];
        }
      }
    }
  }

  /** When every answer is returned rather than raised, no term aborts and
      every term gets a disposition. */
  lemma {:induction false} ReturnedAnswersNeverAbort(terms: seq<Term>, existing: set<string>, respond: Term -> Answer)
    requires AllHavePaths(terms)
    requires forall k :: 0 <= k < |terms| ==> respond(terms[k]).Returned?
    ensures Aborted !in Dispositions(terms, existing, respond)
    ensures |Dispositions(terms, existing, respond)| == |terms|
  {
    if terms != [] {
      var (d, next) := Step(terms[0], existing, respond);
      assert d != Aborted;
      ReturnedAnswersNeverAbort(terms[1..], next, respond);
    }
  }

  /** Every term falls into exactly one of the outcomes. */
  lemma {:induction false} DispositionsPartition(ds: seq<Disposition>)
    ensures Occurrences(ds, Skipped) + Occurrences(ds, Generated) + Occurrences(ds, Failed)
          + Occurrences(ds, Aborted) == |ds|
    ensures Aborted !in ds ==>
      Occurrences(ds, Skipped) + Occurrences(ds, Generated) + Occurrences(ds, Failed) == |ds|
  {
    if ds != [] {
      var last := ds[|ds| - 1];
      DispositionsPartition(ds[..|ds| - 1]);
      assert ds == ds[..|ds| - 1] + [last];
      assert last == Skipped || last == Generated || last == Failed || last == Aborted;
    }
  }

  /** Processing the term at `i` moves its disposition from the remaining
      terms to the finished ones. */
  lemma AdvanceDispositions(
    all: seq<Disposition>, done: seq<Disposition>,
    terms: seq<Term>, i: nat, files: set<string>, respond: Term -> Answer)
    requires i < |terms| && AllHavePaths(terms)
    requires AllHavePaths(terms[i..])
    requires all == done + Dispositions(terms[i..], files, respond)
    ensures AllHavePaths(terms[i + 1..])
    ensures Step(terms[i], files, respond).0 == Aborted ==> all == done + [Aborted]
    ensures Step(terms[i], files, respond).0 != Aborted ==>
      all == (done + [Step(terms[i], files, respond).0])
           + Dispositions(terms[i + 1..], Step(terms[i], files, respond).1, respond)
  {
    DispositionsUnfold(terms, i, files, respond);
  }

  /** The counters and sleeps of the generation loop agree with the
      dispositions `ds` of its `n` terms: each counter counts its outcome,
      and the script slept after exactly the terms `SleepsExactlyAfter` names. */
  ghost predicate Tallied(ds: seq<Disposition>, n: nat, successCount: nat, errorCount: nat, skippedCount: nat, sleptAfter: seq<nat>)
  {
    && successCount == Occurrences(ds, Generated)
    && errorCount == Occurrences(ds, Failed)
    && skippedCount == Occurrences(ds, Skipped)
    && SleepsExactlyAfter(sleptAfter, ds, n)
  }

  /** The term at `k` is the one whose uncaught exception ended the run: it
      is the last one with a disposition, and its answer raised. */
  ghost predicate AbortedAt(terms: seq<Term>, ds: seq<Disposition>, respond: Term -> Answer, k: nat)
  {
    && k < |terms| && k + 1 == |ds|
    && ds[k] == Aborted
    && respond(terms[k]).Uncaught?
  }

  /** The generation loop of `generate_markdown_files`. Besides the source's
      success and error counters it returns the number of skipped terms, the
      positions after which it slept, and whether an uncaught exception ended
      it. */
  method GenerateAll(filteredTerms: seq<Term>, existing: set<string>, respond: Term -> Answer)
    returns (successCount: nat, errorCount: nat, skippedCount: nat, sleptAfter: seq<nat>, aborted: bool)
    requires AllHavePaths(filteredTerms)
    ensures aborted <==> Aborted in Dispositions(filteredTerms, existing, respond)
    ensures Tallied(Dispositions(filteredTerms, existing, respond), |filteredTerms|,
                    successCount, errorCount, skippedCount, sleptAfter)
    ensures !aborted ==> |Dispositions(filteredTerms, existing, respond)| == |filteredTerms|
    ensures !aborted ==> skippedCount + successCount + errorCount == |filteredTerms|
  {
    successCount, errorCount, skippedCount, sleptAfter, aborted := 0, 0, 0, [], false;
    var files := existing;
    ghost var n := |filteredTerms|;
    ghost var all := Dispositions(filteredTerms, existing, respond);
    ghost var done: seq<Disposition> := [];
    assert filteredTerms[0..] == filteredTerms;
    for i := 0 to |filteredTerms|
      invariant |done| == i && Aborted !in done
      invariant AllHavePaths(filteredTerms[i..])
      invariant all == done + Dispositions(filteredTerms[i..], files, respond)
      invariant Tallied(done, n, successCount, errorCount, skippedCount, sleptAfter)
    {
      var term := filteredTerms[i];
      var filepath := term.contentPath.value;
      AdvanceDispositions(all, done, filteredTerms, i, files, respond);
      ghost var disposition := Step(term, files, respond).0;
      if filepath in files {
        TallyStep(done, disposition, n, successCount, errorCount, skippedCount, sleptAfter);
        done := done + [disposition];
        skippedCount := skippedCount + 1;
        continue;
      }
      var answer := respond(term);
      if answer.Uncaught? {
        aborted := true;
        TallyAbort(done, n, successCount, errorCount, skippedCount, sleptAfter);
        return;
      }
      TallyStep(done, disposition, n, successCount, errorCount, skippedCount, sleptAfter);
      done := done + [disposition];
      if IsTruthy(answer.content) {
        files := files + {filepath};
        successCount := successCount + 1;
      } else {
        errorCount := errorCount + 1;
      }
      if i < |filteredTerms| - 1 {
        sleptAfter := sleptAfter + [i];
      }
    }
    assert filteredTerms[|filteredTerms|..] == [];
    assert done + [] == done;
    assert all == done;
    DispositionsPartition(done);
  }

  /** The script sleeps after term `k` of `n` exactly when `k` is not the
      last term and was processed without being skipped or aborting. */
  ghost predicate SleepsExactlyAfter(slept: seq<nat>, ds: seq<Disposition>, n: nat)
  {
    forall k: nat :: k in slept <==> k + 1 < n && k < |ds| && ds[k] != Skipped && ds[k] != Aborted
  }

  /** Recording one more term that did not abort: its counter goes up, and a
      sleep follows it unless it was skipped or is the last term. */
  lemma TallyStep(
    done: seq<Disposition>, d: Disposition, n: nat,
    successCount: nat, errorCount: nat, skippedCount: nat, slept: seq<nat>)
    requires Tallied(done, n, successCount, errorCount, skippedCount, slept)
    requires d != Aborted && |done| < n
    ensures Tallied(done + [d], n,
      successCount + (if d == Generated then 1 else 0),
      errorCount + (if d == Failed then 1 else 0),
      skippedCount + (if d == Skipped then 1 else 0),
      if d != Skipped && |done| < n - 1 then slept + [|done|] else slept)
  {
    OccurrencesSnoc(done, d);
    var ds := done + [d];
    var slept' := if d != Skipped && |done| < n - 1 then slept + [|done|] else slept;
    forall k: nat
      ensures k in slept' <==> k + 1 < n && k < |ds| && ds[k] != Skipped && ds[k] != Aborted
    {
      if k < |done| {
        assert ds[k] == done[k];
      }
    }
  }

  /** An aborted term changes no counter and is followed by no sleep. */
  lemma TallyAbort(
    done: seq<Disposition>, n: nat,
    successCount: nat, errorCount: nat, skippedCount: nat, slept: seq<nat>)
    requires Tallied(done, n, successCount, errorCount, skippedCount, slept)
    ensures Tallied(done + [Aborted], n, successCount, errorCount, skippedCount, slept)
  {
    OccurrencesSnoc(done, Aborted);
    var ds := done + [Aborted];
    forall k: nat
      ensures k in slept <==> k + 1 < n && k < |ds| && ds[k] != Skipped && ds[k] != Aborted
    {
      if k < |done| {
        assert ds[k] == done[k];
      }
    }
  }

  /** Appending one disposition adds one to its own count and leaves the others. */
  lemma OccurrencesSnoc(ds: seq<Disposition>, d: Disposition)
    ensures Occurrences(ds + [d], Skipped) == Occurrences(ds, Skipped) + (if d == Skipped then 1 else 0)
    ensures Occurrences(ds + [d], Generated) == Occurrences(ds, Generated) + (if d == Generated then 1 else 0)
    ensures Occurrences(ds + [d], Failed) == Occurrences(ds, Failed) + (if d == Failed then 1 else 0)
  {
    assert (ds + [d])[..|ds|] == ds;
  }

  /** The outcome of a run. A failure in the directory loop and an uncaught
      exception in the generation loop both end the script with a traceback,
      so the summary is not printed. */
  datatype Run =
    | MissingApiKey
    | DirectoryFailed(filteredTerms: seq<Term>, ensuredDirectories: seq<string>)
    | GenerationAborted(filteredTerms: seq<Term>, ensuredDirectories: seq<string>, abortedAt: nat)
    | Finished(
        filteredTerms: seq<Term>,
        ensuredDirectories: seq<string>,
        successCount: nat,
        errorCount: nat,
        skippedCount: nat,
        sleptAfter: seq<nat>)

  /** `generate_markdown_files`: without an API key it stops before reading
      the data; otherwise it selects, truncates, prepares the directories
      (where an empty directory raises and ends the run) and processes the
      terms in order until one raises an exception the script does not
      catch. */
  method GenerateMarkdownFiles(
    apiKey: Option<string>,
    vocabData: seq<Term>,
    category: Option<string>,
    specificId: Option<string>,
    maxItems: Option<int>,
    existing: set<string>,
    respond: Term -> Answer)
    returns (run: Run)
    ensures run.MissingApiKey? <==> !IsTruthy(apiKey)
    ensures !run.MissingApiKey? ==> run.filteredTerms == Truncate(SelectedTerms(vocabData, category, specificId), maxItems)
    ensures !run.MissingApiKey? ==> AllHavePaths(run.filteredTerms)
    ensures !run.MissingApiKey? ==> (run.DirectoryFailed? <==> "" in Directories(run.filteredTerms))
    ensures !run.MissingApiKey? ==>
      NoDuplicates(run.ensuredDirectories)
    ensures run.DirectoryFailed? ==> PreparedUntilEmpty(run.filteredTerms, run.ensuredDirectories)
    ensures run.GenerationAborted? || run.Finished? ==>
      run.ensuredDirectories == Distinct(Directories(run.filteredTerms))
    ensures run.GenerationAborted? || run.Finished? ==>
      SameElements(run.ensuredDirectories, Directories(run.filteredTerms))
    ensures run.GenerationAborted? <==>
      && !run.MissingApiKey? && !run.DirectoryFailed?
      && Aborted in Dispositions(run.filteredTerms, existing, respond)
    ensures run.GenerationAborted? ==>
      AbortedAt(run.filteredTerms, Dispositions(run.filteredTerms, existing, respond), respond, run.abortedAt)
    ensures run.Finished? ==> |Dispositions(run.filteredTerms, existing, respond)| == |run.filteredTerms|
    ensures run.Finished? ==>
      Tallied(Dispositions(run.filteredTerms, existing, respond), |run.filteredTerms|,
              run.successCount, run.errorCount, run.skippedCount, run.sleptAfter)
    ensures run.Finished? ==> run.skippedCount + run.successCount + run.errorCount == |run.filteredTerms|
  {
    if !IsTruthy(apiKey) {
      return MissingApiKey;
    }
    var filteredTerms := SelectTerms(vocabData, category, specificId);
    SelectedTermsHavePaths(vocabData, category, specificId);
    if maxItems.Some? && maxItems.value > 0 {
      filteredTerms := PythonPrefix(filteredTerms, maxItems.value);
    }
    assert filteredTerms == Truncate(SelectedTerms(vocabData, category, specificId), maxItems);
    assert AllHavePaths(filteredTerms);
    var ensured, failed := CreateDirectories(filteredTerms);
    if failed {
      return DirectoryFailed(filteredTerms, ensured);
    }
    var successCount, errorCount, skippedCount, sleptAfter, aborted := GenerateAll(filteredTerms, existing, respond);
    DispositionsShape(filteredTerms, existing, respond);
    if aborted {
      var ds := Dispositions(filteredTerms, existing, respond);
      return GenerationAborted(filteredTerms, ensured, |ds| - 1);
    }
    run := Finished(filteredTerms, ensured, successCount, errorCount, skippedCount, sleptAfter);
  }

  /** What the command line asks for. */
  datatype Invocation =
    | ShowUsage                            // prints the usage text and exits with status 0
    | InvalidMaxItems(argument: string)    // prints an error and exits with status 1
    | Generate(category: Option<string>, specificId: Option<string>, maxItems: Option<int>)

  function ExitStatus(invocation: Invocation): nat
  {
    if invocation.InvalidMaxItems? then 1 else 0
  }

  predicate AsksForHelp(argv: seq<string>)
  {
    |argv| > 1 && (argv[1] == "--help" || argv[1] == "-h")
  }

  /** A positional option that the literal "null" (or its absence) leaves unset. */
  function OptionalArgument(argv: seq<string>, position: nat): Option<string>
  {
    if |argv| > position && argv[position] != "null" then Some(argv[position]) else None
  }

  /** What `argv` (with the script name at position 0) asks for: help when the
      first argument is `--help` or `-h`; otherwise the first argument, even
      "null", is the category; the second and third are unset by "null"; a
      third argument `int()` rejects is an error. Extra arguments are ignored. */
  function CommandLine(argv: seq<string>): Invocation
  {
    if AsksForHelp(argv) then ShowUsage
    else
      var category := if |argv| > 1 then Some(argv[1]) else None;
      match OptionalArgument(argv, 3)
      case None => Generate(category, OptionalArgument(argv, 2), None)
      case Some(text) =>
        match ParsePythonInt(text)
        case None => InvalidMaxItems(text)
        case Some(n) => Generate(category, OptionalArgument(argv, 2), Some(n))
  }

  /** The `__main__` block, assignment by assignment. */
  method ParseCommandLine(argv: seq<string>) returns (invocation: Invocation)
    ensures invocation == CommandLine(argv)
    ensures ExitStatus(invocation) == 1 <==>
      !AsksForHelp(argv) && |argv| > 3 && argv[3] != "null" && ParsePythonInt(argv[3]).None?
  {
    var category: Option<string> := None;
    var specificId: Option<string> := None;
    var maxItems: Option<int> := None;

    if |argv| > 1 {
      if argv[1] == "--help" || argv[1] == "-h" {
        return ShowUsage;
      } else {
        category := Some(argv[1]);
      }
    }
    if |argv| > 2 && argv[2] != "null" {
      specificId := Some(argv[2]);
    }
    if |argv| > 3 && argv[3] != "null" {
      var parsed := ParsePythonInt(argv[3]);
      if parsed.None? {
        return InvalidMaxItems(argv[3]);
      }
      maxItems := parsed;
    }
    invocation := Generate(category, specificId, maxItems);
  }

  /** The command line that spells out a category, an optional id and an
      optional limit, writing "null" for what is not given. */
  function SpellCommandLine(category: string, specificId: Option<string>, maxItems: Option<int>): seq<string>
  {
    [ "batch_generate.py",
      category,
      if specificId.Some? then specificId.value else "null",
      if maxItems.Some? then IntToDecimal(maxItems.value) else "null" ]
  }

  /** Spelling the options out and reading them back gives the same options,
      as long as the category is not a help flag, the id is not the literal
      "null", which the command line cannot express, and the limit has no more
      digits than `str` and `int()` convert. */
  lemma CommandLineRoundTrip(category: string, specificId: Option<string>, maxItems: Option<int>)
    requires category != "--help" && category != "-h"
    requires specificId != Some("null")
    requires maxItems.Some? ==> |NatToDecimal(Magnitude(maxItems.value))| <= IntMaxStrDigits
    ensures CommandLine(SpellCommandLine(category, specificId, maxItems)) == Generate(Some(category), specificId, maxItems)
  {
    var argv := SpellCommandLine(category, specificId, maxItems);
    assert !AsksForHelp(argv);
    assert OptionalArgument(argv, 2) == specificId;
    if maxItems.Some? {
      var spelled := IntToDecimal(maxItems.value);
      DecimalStart(maxItems.value);
      assert spelled != "null" by {
        assert "null"[0] == 'n';
      }
      assert OptionalArgument(argv, 3) == Some(spelled);
      ParsePythonIntRoundTrip(maxItems.value);
    } else {
      assert OptionalArgument(argv, 3) == None;
    }
  }

  /** There is no way to leave the category unset when a later argument is
      given: "null" in first position is taken as the category "null". */
  lemma NullCategoryIsLiteral(argv: seq<string>)
    requires |argv| > 1 && argv[1] == "null"
    ensures CommandLine(argv).Generate? || CommandLine(argv).InvalidMaxItems?
    ensures CommandLine(argv).Generate? ==> CommandLine(argv).category == Some("null")
  {
  }

  /** A limit padded with an ASCII separator is not a number to `int()`:
      `batch_generate.py Technology null "\x1c5"` exits with status 1. */
  lemma SeparatorPaddedLimitExitsWithError()
    ensures ExitStatus(CommandLine(["batch_generate.py", "Technology", "null", "\U{001C}5"])) == 1
  {
    var limit := "\U{001C}5";
    var argv := ["batch_generate.py", "Technology", "null", limit];
    assert !AsksForHelp(argv);
    assert OptionalArgument(argv, 3) == Some(limit);
    ParsePythonIntKeepsSeparators(limit);
  }
}
