/**
 * What the rules of `XMLValidator` amount to: the shape of the returned list, the early
 * returns, each per-feature rule stated as a condition on the feature, the numbering of blank
 * steps, the duplicate-id count and the counter check.
 */
module RuleProperties {
  import opened Wrappers
  import opened Text
  import opened Xml
  import opened Findings
  import opened Rules

  // ---------------------------------------------------------------------------------------
  // Every error is an ERROR and every warning a WARNING.

  lemma {:induction false} BlankStepErrorsAreErrors(id: string, steps: seq<Element>)
    ensures AllOf(BlankStepErrors(id, steps), Error)
    decreases |steps|
  {
    if steps != [] {
      var n := |steps|;
      BlankStepErrorsAreErrors(id, steps[..n - 1]);
      var last := if BlankText(steps[n - 1].text) then [EmptyStepError(id, n)] else [];
      AllOfAppend(BlankStepErrors(id, steps[..n - 1]), last, Error);
    }
  }

  lemma FeatureReportClassified(f: Element)
    ensures Classified(FeatureReport(f))
  {
    var steps := Find(f, "steps");
    if steps.Some? {
      BlankStepErrorsAreErrors(Label(f), FindAll(steps.value, "step"));
    }
    AllOfAppend(IdErrors(f), StatusErrors(f), Error);
    AllOfAppend(IdErrors(f) + StatusErrors(f), PriorityErrors(f), Error);
    AllOfAppend(IdErrors(f) + StatusErrors(f) + PriorityErrors(f), DescriptionErrors(f), Error);
    AllOfAppend(IdErrors(f) + StatusErrors(f) + PriorityErrors(f) + DescriptionErrors(f), StepsErrors(f), Error);
    AllOfAppend(NotesWarnings(f), BlockedWarnings(f), Warning);
  }

  lemma {:induction false} FeaturesReportClassified(fs: seq<Element>)
    ensures Classified(FeaturesReport(fs))
    decreases |fs|
  {
    if fs != [] {
      FeaturesReportClassified(fs[..|fs| - 1]);
      FeatureReportClassified(fs[|fs| - 1]);
      ClassifiedThen(FeaturesReport(fs[..|fs| - 1]), FeatureReport(fs[|fs| - 1]));
    }
  }

  lemma {:induction false} CategoriesReportClassified(cs: seq<Element>)
    ensures Classified(CategoriesReport(cs))
    decreases |cs|
  {
    if cs != [] {
      var c := cs[|cs| - 1];
      CategoriesReportClassified(cs[..|cs| - 1]);
      FeaturesReportClassified(FindAll(c, "feature"));
      ClassifiedThen(Report(CategoryNameErrors(c), EmptyCategoryWarnings(c)), FeaturesReport(FindAll(c, "feature")));
      ClassifiedThen(CategoriesReport(cs[..|cs| - 1]), CategoryReport(c));
    }
  }

  lemma {:induction false} DuplicateIdErrorsAreErrors(fs: seq<Element>)
    ensures AllOf(DuplicateIdErrors(fs), Error)
    decreases |fs|
  {
    if fs != [] {
      var prefix := fs[..|fs| - 1];
      var id := Get(fs[|fs| - 1], "id");
      var last := if Present(id) && id.value in SeenIds(prefix) then [DuplicateIdError(id.value)] else [];
      DuplicateIdErrorsAreErrors(prefix);
      AllOfAppend(DuplicateIdErrors(prefix), last, Error);
    }
  }

  lemma FeatureRulesReportClassified(root: Element)
    ensures Classified(FeatureRulesReport(root))
  {
    CategoriesReportClassified(IterFind(root, "category"));
    ClassifiedThen(Report([], NoCategoriesWarnings(root)), CategoriesReport(IterFind(root, "category")));
  }

  lemma CounterReportClassified(root: Element)
    ensures Classified(CounterReport(root))
  {
  }

  lemma RootStructureReportClassified(root: Element)
    ensures Classified(RootStructureReport(root))
  {
  }

  lemma ValidateReportClassified(input: Loaded)
    ensures Classified(ValidateReport(input))
  {
    if input.Parsed? && input.root.tag == "features" {
      var root := input.root;
      ValidateReportParts(root);
      FeatureRulesReportClassified(root);
      DuplicateIdErrorsAreErrors(AllFeatures(root));
      CounterReportClassified(root);
      RootStructureReportClassified(root);
      AllOfAppend(FeatureRulesReport(root).errors, DuplicateIdErrors(AllFeatures(root)), Error);
      AllOfAppend(FeatureRulesReport(root).errors + DuplicateIdErrors(AllFeatures(root)), CounterReport(root).errors, Error);
      AllOfAppend(RootStructureReport(root).warnings, FeatureRulesReport(root).warnings, Warning);
      AllOfAppend(RootStructureReport(root).warnings + FeatureRulesReport(root).warnings, CounterReport(root).warnings, Warning);
    }
  }

  /** A run that stops early has filed an error. */
  lemma StoppedRunHasError(input: Loaded)
    requires !Proceeds(input)
    ensures ValidateReport(input).errors != []
  {
  }

  /** The verdict built from a classified report: the two facts below, for any report. */
  lemma ClassifiedVerdict(r: Report, proceeds: bool)
    requires Classified(r) && (!proceeds ==> r.errors != [])
    ensures var findings := r.errors + r.warnings;
      && ((proceeds && r.errors == []) <==> forall k :: 0 <= k < |findings| ==> findings[k].severity != Error)
      && forall i, j :: 0 <= i < j < |findings| && findings[i].severity == Warning ==> findings[j].severity == Warning
  {
    var findings := r.errors + r.warnings;
    if r.errors != [] {
      assert findings[0] == r.errors[0];
    }
    forall k | 0 <= k < |findings|
      ensures findings[k].severity == (if k < |r.errors| then Error else Warning)
    {
      if k >= |r.errors| {
        assert findings[k] == r.warnings[k - |r.errors|];
      }
    }
  }

  /** `is_valid` holds exactly when no finding is an ERROR: warnings never affect validity. */
  lemma ValidIffNoErrors(input: Loaded)
    ensures var v := Validate(input);
      v.isValid <==> forall k :: 0 <= k < |v.findings| ==> v.findings[k].severity != Error
  {
    ValidateReportClassified(input);
    if !Proceeds(input) {
      StoppedRunHasError(input);
    }
    ClassifiedVerdict(ValidateReport(input), Proceeds(input));
  }

  /** The findings list is every error followed by every warning: no ERROR after a WARNING. */
  lemma ErrorsBeforeWarnings(input: Loaded, i: int, j: int)
    requires var v := Validate(input); 0 <= i < j < |v.findings|
    ensures var v := Validate(input);
      v.findings[i].severity == Warning ==> v.findings[j].severity == Warning
  {
    ValidateReportClassified(input);
    if !Proceeds(input) {
      StoppedRunHasError(input);
    }
    ClassifiedVerdict(ValidateReport(input), Proceeds(input));
  }

  // ---------------------------------------------------------------------------------------
  // The early returns.

  /** A missing file gives `(False, [FILE_NOT_FOUND])` and nothing else. */
  lemma MissingFileVerdict(path: string)
    ensures Validate(Missing(path)) == Verdict(false, [FileNotFoundError(path)])
  {
  }

  /** A file that does not parse gives exactly one XML_SYNTAX_ERROR or PARSE_ERROR. */
  lemma ParseFailureVerdict(input: Loaded)
    requires input.Malformed? || input.Unreadable?
    ensures Validate(input) ==
            Verdict(false, [if input.Malformed? then SyntaxError(input.detail) else OtherParseError(input.detail)])
  {
  }

  /** A root other than `<features>` gives `(False, [INVALID_ROOT])`: not even the attribute warnings. */
  lemma WrongRootVerdict(root: Element)
    requires root.tag != "features"
    ensures Validate(Parsed(root)) == Verdict(false, [InvalidRootError(root.tag)])
  {
  }

  // ---------------------------------------------------------------------------------------
  // The per-feature rules, each as a condition on the feature.

  /** At most one id finding: MISSING_ID for an absent or empty id, else INVALID_ID_FORMAT unless `FEAT-ddd`. */
  lemma IdRule(f: Element)
    ensures var id := Get(f, "id");
      && (IdErrors(f) == [] <==> Present(id) && IsFeatureId(id.value))
      && (IdErrors(f) == [MissingIdError(Label(f))] <==> !Present(id))
      && (IdErrors(f) == [InvalidIdError(Label(f))] <==> Present(id) && !IsFeatureId(id.value))
  {
  }

  /** At most one status finding; the accepted values are the four statuses. */
  lemma StatusRule(f: Element)
    ensures var status := Get(f, "status");
      && (StatusErrors(f) == [] <==> Present(status) && status.value in {"pending", "in-progress", "complete", "blocked"})
      && (StatusErrors(f) == [MissingStatusError(Label(f))] <==> !Present(status))
      && (|StatusErrors(f)| == 1 && StatusErrors(f)[0].code == InvalidStatus <==> Present(status) && status.value !in ValidStatuses)
  {
  }

  /** At most one priority finding; the accepted values are `high`, `medium` and `low`. */
  lemma PriorityRule(f: Element)
    ensures var priority := Get(f, "priority");
      && (PriorityErrors(f) == [] <==> Present(priority) && priority.value in {"high", "medium", "low"})
      && (PriorityErrors(f) == [MissingPriorityError(Label(f))] <==> !Present(priority))
      && (|PriorityErrors(f)| == 1 && PriorityErrors(f)[0].code == InvalidPriority <==> Present(priority) && priority.value !in ValidPriorities)
  {
  }

  /** MISSING_DESCRIPTION without a `<description>` child, EMPTY_DESCRIPTION when its text is blank. */
  lemma DescriptionRule(f: Element)
    ensures var description := Find(f, "description");
      && (DescriptionErrors(f) == [MissingDescriptionError(Label(f))] <==> description.None?)
      && (DescriptionErrors(f) == [EmptyDescriptionError(Label(f))] <==> description.Some? && BlankText(description.value.text))
      && (DescriptionErrors(f) == [] <==> description.Some? && !BlankText(description.value.text))
  {
  }

  /** MISSING_STEPS alone without `<steps>`; otherwise EMPTY_STEPS first exactly when there is no `<step>`. */
  lemma StepsRule(f: Element)
    ensures var steps := Find(f, "steps");
      && (steps.None? ==> StepsErrors(f) == [MissingStepsError(Label(f))])
      && (steps.Some? && FindAll(steps.value, "step") == [] ==> StepsErrors(f) == [EmptyStepsError(Label(f))])
      && (steps.Some? && FindAll(steps.value, "step") != [] ==>
            StepsErrors(f) == BlankStepErrors(Label(f), FindAll(steps.value, "step")))
  {
  }

  /** The number of times `x` occurs in `s`. */
  function Occurrences(s: seq<Finding>, x: Finding): nat {
    multiset(s)[x]
  }

  /**
   * Exactly one EMPTY_STEP per blank step, carrying its position counted from 1, and nothing
   * else.
   */
  lemma {:induction false} BlankStepCount(id: string, steps: seq<Element>, n: nat)
    ensures Occurrences(BlankStepErrors(id, steps), EmptyStepError(id, n)) ==
            (if 1 <= n <= |steps| && BlankText(steps[n - 1].text) then 1 else 0)
    decreases |steps|
  {
    if steps != [] {
      var m := |steps|;
      var prefix := steps[..m - 1];
      BlankStepCount(id, prefix, n);
      var last := if BlankText(steps[m - 1].text) then [EmptyStepError(id, m)] else [];
      assert multiset(BlankStepErrors(id, steps)) == multiset(BlankStepErrors(id, prefix)) + multiset(last);
      if 1 <= n < m {
        assert prefix[n - 1] == steps[n - 1];
      }
    }
  }

  /** A step finding names a step that exists. */
  predicate IsStepFinding(id: string, count: nat, f: Finding) {
    f.severity == Error && f.featureId == id && f.code == EmptyStep &&
    f.detail.StepNumber? && 1 <= f.detail.n <= count
  }

  lemma {:induction false} BlankStepErrorsOnlyEmptySteps(id: string, steps: seq<Element>)
    ensures forall k :: 0 <= k < |BlankStepErrors(id, steps)| ==>
              IsStepFinding(id, |steps|, BlankStepErrors(id, steps)[k])
    decreases |steps|
  {
    if steps != [] {
      var m := |steps|;
      var prefix := steps[..m - 1];
      BlankStepErrorsOnlyEmptySteps(id, prefix);
      var before := BlankStepErrors(id, prefix);
      forall k | 0 <= k < |BlankStepErrors(id, steps)|
        ensures IsStepFinding(id, m, BlankStepErrors(id, steps)[k])
      {
        if k < |before| {
          assert BlankStepErrors(id, steps)[k] == before[k];
          assert IsStepFinding(id, m - 1, before[k]);
        }
      }
    }
  }

  /** MISSING_NOTES exactly when the feature has no `<notes>` child. */
  lemma NotesRule(f: Element)
    ensures NotesWarnings(f) == [MissingNotesWarning(Label(f))] <==> Find(f, "notes").None?
    ensures NotesWarnings(f) == [] <==> Find(f, "notes").Some?
  {
  }

  /** BLOCKED_WITHOUT_REASON exactly for a `blocked` feature whose notes text lacks `Blocked:`. */
  lemma BlockedRule(f: Element)
    ensures var notes := Find(f, "notes");
      BlockedWarnings(f) == [BlockedWithoutReasonWarning(Label(f))] <==>
        Get(f, "status") == Some("blocked") &&
        !(notes.Some? && notes.value.text.Some? && Contains(notes.value.text.value, "Blocked:"))
    ensures BlockedWarnings(f) == [] || BlockedWarnings(f) == [BlockedWithoutReasonWarning(Label(f))]
  {
    var notes := Find(f, "notes");
    if notes.Some? && notes.value.text == Some("") {
      assert !OccursAt("", "Blocked:", 0);
    }
  }

  // ---------------------------------------------------------------------------------------
  // Scoping: the features checked one by one are among the features the counters count.

  /**
   * A feature directly inside a category found anywhere below the root is one of the
   * root's `.//feature` descendants, so it is also seen by the uniqueness and counter checks.
   */
  lemma CheckedFeaturesAreCounted(root: Element, c: Element, f: Element)
    requires c in IterFind(root, "category") && f in FindAll(c, "feature")
    ensures f in AllFeatures(root)
  {
    WithTagMember(Subtree(root.children), "category", c);
    WithTagMember(c.children, "feature", f);
    SubtreeHasChildren(root.children, c, f);
    WithTagMember(Subtree(root.children), "feature", f);
  }

  // ---------------------------------------------------------------------------------------
  // Uniqueness.

  /** How many of `fs` carry the id `v`. */
  function IdCount(fs: seq<Element>, v: string): nat
    decreases |fs|
  {
    if fs == [] then 0
    else IdCount(fs[..|fs| - 1], v) + (if Get(fs[|fs| - 1], "id") == Some(v) then 1 else 0)
  }

  /** The `ids` list holds exactly the non-empty ids met so far. */
  lemma {:induction false} SeenIdsHoldsMetIds(fs: seq<Element>, v: string)
    ensures v in SeenIds(fs) <==> v != "" && IdCount(fs, v) > 0
    decreases |fs|
  {
    if fs != [] {
      SeenIdsHoldsMetIds(fs[..|fs| - 1], v);
    }
  }

  /** An id carried by k >= 1 features gives exactly k - 1 DUPLICATE_ID errors. */
  lemma {:induction false} DuplicateIdCount(fs: seq<Element>, v: string)
    requires v != ""
    ensures Occurrences(DuplicateIdErrors(fs), DuplicateIdError(v)) ==
            if IdCount(fs, v) == 0 then 0 else IdCount(fs, v) - 1
    decreases |fs|
  {
    if fs != [] {
      var prefix := fs[..|fs| - 1];
      var id := Get(fs[|fs| - 1], "id");
      var last := if Present(id) && id.value in SeenIds(prefix) then [DuplicateIdError(id.value)] else [];
      DuplicateIdCount(prefix, v);
      SeenIdsHoldsMetIds(prefix, v);
      assert multiset(DuplicateIdErrors(fs)) == multiset(DuplicateIdErrors(prefix)) + multiset(last);
    }
  }

  /**
   * The i-th feature is flagged exactly when its id is non-empty and an earlier feature has
   * it: the first occurrence never is.
   */
  lemma FlaggedAt(fs: seq<Element>, i: nat)
    requires i < |fs|
    ensures var id := Get(fs[i], "id");
      DuplicateIdErrors(fs[..i + 1]) == DuplicateIdErrors(fs[..i]) +
        (if Present(id) && IdCount(fs[..i], id.value) > 0 then [DuplicateIdError(id.value)] else [])
  {
    var id := Get(fs[i], "id");
    assert fs[..i + 1][..i] == fs[..i];
    if id.Some? {
      SeenIdsHoldsMetIds(fs[..i], id.value);
    }
  }

  // ---------------------------------------------------------------------------------------
  // The counters.

  /** Skipped without both attributes; one INVALID_COUNTER when either is not an integer. */
  lemma CounterRuleStops(root: Element)
    ensures Get(root, "total").None? || Get(root, "completed").None? ==> CounterReport(root) == Report([], [])
    ensures Get(root, "total").Some? && Get(root, "completed").Some? &&
            (ParseInt(Get(root, "total").value).None? || ParseInt(Get(root, "completed").value).None?) ==>
              CounterReport(root) == Report([InvalidCounterError()], [])
  {
  }

  /**
   * With two integer counters there is no error, INCORRECT_TOTAL exactly when the number of
   * features differs from `total`, INCORRECT_COMPLETED exactly when the number of `complete`
   * features differs from `completed`, and nothing else.
   */
  lemma CounterRuleCompares(root: Element, total: int, completed: int)
    requires Get(root, "total").Some? && ParseInt(Get(root, "total").value) == Some(total)
    requires Get(root, "completed").Some? && ParseInt(Get(root, "completed").value) == Some(completed)
    ensures var r, all := CounterReport(root), AllFeatures(root);
      && r.errors == []
      && (IncorrectTotalWarning(|all|, total) in r.warnings <==> |all| != total)
      && (IncorrectCompletedWarning(|Completed(all)|, completed) in r.warnings <==> |Completed(all)| != completed)
      && forall w :: w in r.warnings ==> w == IncorrectTotalWarning(|all|, total) || w == IncorrectCompletedWarning(|Completed(all)|, completed)
  {
  }

  /** `Completed` keeps exactly the features whose status is `complete`. */
  lemma {:induction false} CompletedMember(fs: seq<Element>, f: Element)
    ensures f in Completed(fs) <==> f in fs && Get(f, "status") == Some("complete")
  {
    if fs != [] {
      CompletedMember(fs[1..], f);
      assert fs == [fs[0]] + fs[1..];
    }
  }

  /**
   * A `<features>` root with no category and no feature is valid with NO_CATEGORIES as its only
   * finding, provided `project` is set and both counters read 0; any of those missing adds a
   * warning of its own.
   */
  lemma EmptyDocumentVerdict(root: Element)
    requires root.tag == "features" && IterFind(root, "category") == [] && AllFeatures(root) == []
    requires Present(Get(root, "project"))
    requires Get(root, "total").Some? && ParseInt(Get(root, "total").value) == Some(0)
    requires Get(root, "completed").Some? && ParseInt(Get(root, "completed").value) == Some(0)
    ensures Validate(Parsed(root)) == Verdict(true, [NoCategoriesWarning()])
  {
    ValidateReportParts(root);
    FeatureRulesReportParts(root);
    CounterRuleCompares(root, 0, 0);
    assert CounterReport(root) == Report([], []);
    assert RootStructureReport(root) == Report([], []);
  }

  /**
   * An empty `total` is both reported as missing by the root check and, since the counter
   * check skips only an absent attribute, rejected as a non-integer counter.
   */
  lemma EmptyTotalIsWarnedAndRejected(root: Element)
    requires root.tag == "features" && Get(root, "total") == Some("") && Get(root, "completed").Some?
    ensures MissingTotalWarning() in ValidateReport(Parsed(root)).warnings
    ensures InvalidCounterError() in ValidateReport(Parsed(root)).errors
    ensures !Validate(Parsed(root)).isValid
  {
    ValidateReportParts(root);
    assert CounterReport(root) == Report([InvalidCounterError()], []);
    assert MissingTotalWarning() in RootStructureReport(root).warnings;
  }
}
