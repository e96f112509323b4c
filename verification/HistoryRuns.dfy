/** The history check of one run, and what any sequence of runs makes of a feature's histories. */
module HistoryRuns {
  import opened Seqs
  import opened HistoryStore

  /** Scrubbing and equality of histories, as the history package defines them. */
  datatype Rules<!H> = Rules(scrub: H -> H, equals: (H, H) -> bool)

  ghost predicate Equivalence<H(!new)>(rules: Rules<H>) {
    && (forall a :: rules.equals(a, a))
    && (forall a, b :: rules.equals(a, b) ==> rules.equals(b, a))
    && (forall a, b, c :: rules.equals(a, b) && rules.equals(b, c) ==> rules.equals(a, c))
  }

  /** Equal but for what is specific to a run. */
  predicate Same<H>(rules: Rules<H>, a: H, b: H) {
    rules.equals(rules.scrub(a), rules.scrub(b))
  }

  /** One run for one feature; `fetched` is the history the server has, if it can be fetched. */
  datatype Run<H> = Run(lang: string, version: string, generate: bool, disableCheck: bool, fetched: Option<H>)

  datatype Outcome = NothingToCheck | LoadFailed | FetchFailed | Mismatch(version: string) | Handled

  predicate MatchesAll<H>(rules: Rules<H>, h: H, stored: map<string, H>) {
    forall version :: version in stored ==> Same(rules, h, stored[version])
  }

  /** A run stores when it generates and nothing stops it before. */
  predicate Stores<H>(rules: Rules<H>, run: Run<H>, stored: map<string, H>) {
    && run.generate && run.fetched.Some?
    && (run.disableCheck || MatchesAll(rules, run.fetched.value, stored))
  }

  /** A run is content with what is stored: it has nothing to check, or a history that agrees. */
  predicate Satisfied<H>(rules: Rules<H>, run: Run<H>, stored: map<string, H>) {
    || (!run.generate && (run.disableCheck || |stored| == 0))
    || (run.fetched.Some? && (run.disableCheck || MatchesAll(rules, run.fetched.value, stored)))
  }

  /** handleSingleHistory on any directory; `stored` is what was loaded from it. */
  method HandleSingleHistory<H(!new)>(dir: Directory<H>, entries: seq<string>, rules: Rules<H>, run: Run<H>)
    returns (outcome: Outcome, ghost stored: map<string, H>)
    requires Lists(entries, dir.files)
    modifies dir
    ensures outcome == LoadFailed <==> exists name :: IsGarbage(name, old(dir.files), run.lang)
    ensures outcome == LoadFailed ==> dir.files == old(dir.files)
    ensures outcome != LoadFailed ==>
      && LoadedSoFar(stored, entries, old(dir.files), run.lang)
      && dir.files == old(dir.files)
           + (if Stores(rules, run, stored) then Written(run.lang, map[run.version := run.fetched.value]) else map[])
      && (outcome == NothingToCheck <==> !run.generate && (run.disableCheck || stored == map[]))
      && (outcome == FetchFailed <==> outcome != NothingToCheck && run.fetched.None?)
      && (outcome == NothingToCheck || outcome == Handled <==> Satisfied(rules, run, stored))
      && (outcome.Mismatch? ==> outcome.version in stored && !Same(rules, run.fetched.value, stored[outcome.version]))
      && (outcome == Handled <==> outcome != NothingToCheck && run.fetched.Some?
                                  && (run.disableCheck || MatchesAll(rules, run.fetched.value, stored)))
    ensures StoreWritten(old(dir.files)) && '.' !in run.lang ==>
      && outcome != LoadFailed && stored == View(old(dir.files), run.lang)
      && dir.files == Step(rules, old(dir.files), run)
      && (outcome == Handled && run.generate && '/' !in run.version ==>
            View(dir.files, run.lang) == View(old(dir.files), run.lang)[run.version := run.fetched.value])
  {
    hide StoreWritten, View, Written, LoadedSoFar, IsGarbage;
    stored := map[];
    var loaded := Load(entries, dir.files, run.lang);
    if loaded.Err? {
      GarbageIsForeign(dir.files, run.lang);
      return LoadFailed, map[];
    }
    stored := loaded.value;
    LoadedHasNoGarbage(stored, entries, dir.files, run.lang);
    if StoreWritten(dir.files) && '.' !in run.lang {
      LoadIsView(entries, dir.files, run.lang, stored);
    }
    var existing := loaded.value;
    assert dir.files == dir.files + map[];
    if !run.generate && (run.disableCheck || |existing| == 0) {
      return NothingToCheck, stored;
    }
    if run.fetched.None? {
      return FetchFailed, stored;
    }
    var current := run.fetched.value;
    if !run.disableCheck {
      var scrubbed := rules.scrub(current);
      var left := existing.Keys;
      while left != {}
        invariant left <= existing.Keys
        invariant forall v :: v in existing.Keys - left ==> Same(rules, current, existing[v])
        decreases left
      {
        var version :| version in left;
        if !rules.equals(scrubbed, rules.scrub(existing[version])) {
          return Mismatch(version), stored;
        }
        left := left - {version};
      }
    }
    if run.generate {
      dir.Store(run.lang, map[run.version := current]);
    }
    if StoreWritten(old(dir.files)) && '.' !in run.lang && '/' !in run.version {
      StepView(rules, old(dir.files), run, run.lang);
    }
    outcome := Handled;
  }

  lemma GarbageIsForeign<H(!new)>(files: Files<H>, lang: string)
    ensures StoreWritten(files) ==> !exists name :: IsGarbage(name, files, lang)
  {
  }

  lemma LoadedHasNoGarbage<H>(stored: map<string, H>, entries: seq<string>, files: Files<H>, lang: string)
    requires Lists(entries, files) && LoadedSoFar(stored, entries, files, lang)
    ensures !exists name :: IsGarbage(name, files, lang)
  {
  }

  // ----- Sequences of runs -----

  /** The files after one run. */
  function Step<H>(rules: Rules<H>, files: Files<H>, run: Run<H>): Files<H> {
    if Stores(rules, run, View(files, run.lang))
    then files + Written(run.lang, map[run.version := run.fetched.value])
    else files
  }

  function StepAll<H>(rules: Rules<H>, files: Files<H>, runs: seq<Run<H>>): Files<H>
    decreases |runs|
  {
    if runs == [] then files else StepAll(rules, Step(rules, files, runs[0]), runs[1..])
  }

  /** Runs of dot-free languages and versions that name a plain file. */
  ghost predicate PlainRuns<H>(runs: seq<Run<H>>) {
    forall i :: 0 <= i < |runs| ==> '.' !in runs[i].lang && '/' !in runs[i].version
  }

  /** No run both generates and skips the check. */
  ghost predicate Checked<H>(runs: seq<Run<H>>) {
    forall i :: 0 <= i < |runs| && runs[i].generate ==> !runs[i].disableCheck
  }

  /** All stored versions of a language agree. */
  ghost predicate Agree<H>(rules: Rules<H>, stored: map<string, H>) {
    forall v, w :: v in stored && w in stored ==> Same(rules, stored[v], stored[w])
  }

  lemma StepView<H(!new)>(rules: Rules<H>, files: Files<H>, run: Run<H>, lang: string)
    requires StoreWritten(files) && '.' !in run.lang && '/' !in run.version && '.' !in lang
    ensures StoreWritten(Step(rules, files, run))
    ensures View(Step(rules, files, run), lang)
         == if lang == run.lang && Stores(rules, run, View(files, lang))
            then View(files, lang)[run.version := run.fetched.value] else View(files, lang)
  {
    hide StoreWritten, View, Written, MatchesAll;
    if Stores(rules, run, View(files, run.lang)) {
      LoadAfterStore(files, run.lang, map[run.version := run.fetched.value], lang);
      assert View(files, lang) + map[run.version := run.fetched.value]
          == View(files, lang)[run.version := run.fetched.value];
    }
  }

  /** A run stores the history it fetched exactly when it generates and either skips the check or has
      every stored history equal to it once both are scrubbed; then its version has that history, and
      nothing else of any language changes. In every other case no file changes. */
  lemma StoresExactlyWhen<H(!new)>(rules: Rules<H>, files: Files<H>, run: Run<H>, lang: string)
    requires StoreWritten(files) && '.' !in run.lang && '/' !in run.version && '.' !in lang
    ensures var stored := View(files, run.lang);
      var storing := run.generate && run.fetched.Some?
        && (run.disableCheck || forall v :: v in stored ==>
              rules.equals(rules.scrub(run.fetched.value), rules.scrub(stored[v])));
      if storing then
        && View(Step(rules, files, run), run.lang) == stored[run.version := run.fetched.value]
        && FileName(run.lang, run.version) in Step(rules, files, run)
        && (lang != run.lang ==> View(Step(rules, files, run), lang) == View(files, lang))
      else Step(rules, files, run) == files
  {
    hide StoreWritten, View;
    StepView(rules, files, run, lang);
    StepView(rules, files, run, run.lang);
    ViewHas(Step(rules, files, run), run.lang, run.version);
  }

  /** The first run that generates leaves exactly its own history. */
  lemma FirstHistoryIsStored<H(!new)>(rules: Rules<H>, run: Run<H>)
    requires run.generate && run.fetched.Some? && '.' !in run.lang && '/' !in run.version
    ensures View(Step(rules, map[], run), run.lang) == map[run.version := run.fetched.value]
  {
    assert View<H>(map[], run.lang) == map[];
    StoresExactlyWhen(rules, map[], run, run.lang);
  }

  /** Storing keeps agreement exactly when the new history agrees with every other version; so a
      checked run always keeps it, and an unchecked one only if the check would have passed on them. */
  lemma StepAgreesExactly<H(!new)>(rules: Rules<H>, files: Files<H>, run: Run<H>)
    requires Equivalence(rules) && StoreWritten(files) && '.' !in run.lang && '/' !in run.version
    requires Agree(rules, View(files, run.lang))
    ensures var stored := View(files, run.lang);
      && (Stores(rules, run, stored) ==>
            (Agree(rules, View(Step(rules, files, run), run.lang)) <==>
             MatchesAll(rules, run.fetched.value, stored - {run.version})))
      && (!(run.generate && run.disableCheck) ==> Agree(rules, View(Step(rules, files, run), run.lang)))
  {
    hide StoreWritten, View;
    StepView(rules, files, run, run.lang);
    var stored := View(files, run.lang);
    if Stores(rules, run, stored) {
      var (h, others) := (run.fetched.value, stored - {run.version});
      var after := stored[run.version := h];
      if MatchesAll(rules, h, others) {
        forall v, w | v in after && w in after
          ensures Same(rules, after[v], after[w])
        {
          assert v != run.version ==> v in others && Same(rules, h, others[v]);
          assert w != run.version ==> w in others && Same(rules, h, others[w]);
        }
      }
      if Agree(rules, after) {
        forall v | v in others
          ensures Same(rules, h, others[v])
        {
          assert Same(rules, after[run.version], after[v]);
        }
      }
    }
  }

  /** A stored version is still there, with the same history but for what is run-specific. */
  ghost predicate Preserves<H>(rules: Rules<H>, before: map<string, H>, after: map<string, H>) {
    forall v :: v in before ==> v in after && Same(rules, before[v], after[v])
  }

  lemma PreservesTransitive<H(!new)>(rules: Rules<H>, a: map<string, H>, b: map<string, H>, c: map<string, H>)
    requires Equivalence(rules) && Preserves(rules, a, b) && Preserves(rules, b, c)
    ensures Preserves(rules, a, c)
  {
    forall v | v in a
      ensures v in c && Same(rules, a[v], c[v])
    {
      assert Same(rules, a[v], b[v]) && Same(rules, b[v], c[v]);
    }
  }

  lemma CheckedStep<H(!new)>(rules: Rules<H>, files: Files<H>, run: Run<H>, lang: string)
    requires Equivalence(rules) && StoreWritten(files) && PlainRuns([run]) && Checked([run]) && '.' !in lang
    requires Agree(rules, View(files, lang))
    ensures StoreWritten(Step(rules, files, run))
    ensures Agree(rules, View(Step(rules, files, run), lang))
    ensures Preserves(rules, View(files, lang), View(Step(rules, files, run), lang))
  {
    assert [run][0] == run;
    hide StoreWritten, View, Step;
    StepView(rules, files, run, lang);
    if lang == run.lang {
      StepAgreesExactly(rules, files, run);
      var stored := View(files, lang);
      if Stores(rules, run, stored) && run.version in stored {
        assert Same(rules, run.fetched.value, stored[run.version]);
      }
    }
  }

  /** Over any sequence of runs that check what they generate, from any agreeing directory: all stored
      versions of every language keep agreeing, and no stored history ever changes or disappears (a
      version is overwritten only by an equal history, although generating is said to overwrite). */
  lemma {:induction false} CheckedRunsAgree<H(!new)>(rules: Rules<H>, files: Files<H>, runs: seq<Run<H>>, lang: string)
    requires Equivalence(rules) && StoreWritten(files) && PlainRuns(runs) && Checked(runs) && '.' !in lang
    requires Agree(rules, View(files, lang))
    ensures StoreWritten(StepAll(rules, files, runs))
    ensures Agree(rules, View(StepAll(rules, files, runs), lang))
    ensures Preserves(rules, View(files, lang), View(StepAll(rules, files, runs), lang))
    decreases |runs|
  {
    hide StoreWritten, View, Step, Agree, Preserves, Equivalence;
    if runs == [] {
      PreservesItself(rules, View(files, lang));
    } else {
      var next := Step(rules, files, runs[0]);
      CheckedStep(rules, files, runs[0], lang);
      CheckedRunsAgree(rules, next, runs[1..], lang);
      PreservesTransitive(rules, View(files, lang), View(next, lang), View(StepAll(rules, files, runs), lang));
    }
  }

  lemma PreservesItself<H(!new)>(rules: Rules<H>, stored: map<string, H>)
    requires Equivalence(rules)
    ensures Preserves(rules, stored, stored)
  {
  }

  /** In particular from an empty directory. */
  lemma HistoriesAgree<H(!new)>(rules: Rules<H>, runs: seq<Run<H>>, lang: string)
    requires Equivalence(rules) && PlainRuns(runs) && Checked(runs) && '.' !in lang
    ensures Agree(rules, View(StepAll(rules, map[], runs), lang))
  {
    assert View<H>(map[], lang) == map[];
    CheckedRunsAgree(rules, map[], runs, lang);
  }
}
