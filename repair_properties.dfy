/**
 * What a second validation of the repaired file reports: `indent_xml` only touches blank texts
 * and tails, which no rule can tell apart, so the only findings that go away are the counter
 * findings the repair was made for.
 */
module RepairProperties {
  import opened Wrappers
  import opened Text
  import opened Xml
  import opened Findings
  import opened Rules
  import opened Repair

  lemma FindReformatted(a: Element, b: Element, tag: string)
    requires Reformatted(a, b)
    ensures ReformattedSeq(FindAll(a, tag), FindAll(b, tag))
    ensures Find(a, tag).Some? <==> Find(b, tag).Some?
    ensures Find(a, tag).Some? ==> Reformatted(Find(a, tag).value, Find(b, tag).value)
  {
    assert ReformattedSeq(a.children, b.children);
    WithTagReformatted(a.children, b.children, tag);
  }

  /** A text holding `Blocked:` is not blank. */
  lemma ReasonIsNotBlank(t: Option<string>)
    ensures t.Some? && Contains(t.value, "Blocked:") ==> !BlankText(t)
  {
    if t.Some? && Contains(t.value, "Blocked:") {
      var k :| 0 <= k <= |t.value| && OccursAt(t.value, "Blocked:", k);
      assert t.value[k] == t.value[k..k + 8][0] == 'B';
    }
  }

  lemma {:induction false} BlankStepErrorsReformatted(id: string, xs: seq<Element>, ys: seq<Element>)
    requires ReformattedSeq(xs, ys)
    ensures BlankStepErrors(id, xs) == BlankStepErrors(id, ys)
    decreases |xs|
  {
    if xs != [] {
      var n := |xs|;
      assert ReformattedSeq(xs[..n - 1], ys[..n - 1]);
      BlankStepErrorsReformatted(id, xs[..n - 1], ys[..n - 1]);
      assert Reformatted(xs[n - 1], ys[n - 1]);
    }
  }

  lemma DescriptionErrorsReformatted(a: Element, b: Element)
    requires Reformatted(a, b)
    ensures DescriptionErrors(a) == DescriptionErrors(b)
  {
    FindReformatted(a, b, "description");
  }

  lemma StepsErrorsReformatted(a: Element, b: Element)
    requires Reformatted(a, b)
    ensures StepsErrors(a) == StepsErrors(b)
  {
    FindReformatted(a, b, "steps");
    var stepsA, stepsB := Find(a, "steps"), Find(b, "steps");
    if stepsA.Some? {
      FindReformatted(stepsA.value, stepsB.value, "step");
      BlankStepErrorsReformatted(Label(a), FindAll(stepsA.value, "step"), FindAll(stepsB.value, "step"));
    }
  }

  lemma BlockedWarningsReformatted(a: Element, b: Element)
    requires Reformatted(a, b)
    ensures BlockedWarnings(a) == BlockedWarnings(b)
  {
    FindReformatted(a, b, "notes");
    var notesA, notesB := Find(a, "notes"), Find(b, "notes");
    if notesA.Some? {
      ReasonIsNotBlank(notesA.value.text);
      ReasonIsNotBlank(notesB.value.text);
    }
  }

  /** The id, status and priority rules read only the attributes. */
  lemma AttributeRulesAgree(a: Element, b: Element)
    requires a.attrs == b.attrs
    ensures IdErrors(a) == IdErrors(b)
    ensures StatusErrors(a) == StatusErrors(b)
    ensures PriorityErrors(a) == PriorityErrors(b)
  {
    assert Label(a) == Label(b);
  }

  /** A feature that differs only in blank texts and tails gets the same findings. */
  lemma FeatureReportReformatted(a: Element, b: Element)
    requires Reformatted(a, b)
    ensures FeatureReport(a) == FeatureReport(b)
  {
    DescriptionErrorsReformatted(a, b);
    StepsErrorsReformatted(a, b);
    BlockedWarningsReformatted(a, b);
    FindReformatted(a, b, "notes");
    AttributeRulesAgree(a, b);
    assert NotesWarnings(a) == NotesWarnings(b);
  }

  lemma FeatureReportReformattedAt(xs: seq<Element>, ys: seq<Element>, k: nat)
    requires ReformattedSeq(xs, ys) && k < |xs|
    ensures FeatureReport(xs[k]) == FeatureReport(ys[k])
  {
    FeatureReportReformatted(xs[k], ys[k]);
  }

  lemma {:induction false} FeaturesReportReformatted(xs: seq<Element>, ys: seq<Element>)
    requires ReformattedSeq(xs, ys)
    ensures FeaturesReport(xs) == FeaturesReport(ys)
    decreases |xs|
  {
    if xs != [] {
      var n := |xs|;
      assert ReformattedSeq(xs[..n - 1], ys[..n - 1]);
      FeaturesReportReformatted(xs[..n - 1], ys[..n - 1]);
      FeatureReportReformattedAt(xs, ys, n - 1);
    }
  }

  lemma CategoryReportReformatted(a: Element, b: Element)
    requires Reformatted(a, b)
    ensures CategoryReport(a) == CategoryReport(b)
  {
    FindReformatted(a, b, "feature");
    FeaturesReportReformatted(FindAll(a, "feature"), FindAll(b, "feature"));
  }

  lemma CategoryReportReformattedAt(xs: seq<Element>, ys: seq<Element>, k: nat)
    requires ReformattedSeq(xs, ys) && k < |xs|
    ensures CategoryReport(xs[k]) == CategoryReport(ys[k])
  {
    CategoryReportReformatted(xs[k], ys[k]);
  }

  lemma {:induction false} CategoriesReportReformatted(xs: seq<Element>, ys: seq<Element>)
    requires ReformattedSeq(xs, ys)
    ensures CategoriesReport(xs) == CategoriesReport(ys)
    decreases |xs|
  {
    if xs != [] {
      var n := |xs|;
      assert ReformattedSeq(xs[..n - 1], ys[..n - 1]);
      CategoriesReportReformatted(xs[..n - 1], ys[..n - 1]);
      CategoryReportReformattedAt(xs, ys, n - 1);
    }
  }

  /** The category and feature rules look only below the root, and not at blank texts there. */
  lemma FeatureRulesReportReformatted(a: Element, b: Element)
    requires ReformattedSeq(a.children, b.children)
    ensures FeatureRulesReport(a) == FeatureRulesReport(b)
  {
    SubtreeReformatted(a.children, b.children);
    WithTagReformatted(Subtree(a.children), Subtree(b.children), "category");
    CategoriesReportReformatted(IterFind(a, "category"), IterFind(b, "category"));
  }

  lemma {:induction false} DuplicateIdErrorsReformatted(xs: seq<Element>, ys: seq<Element>)
    requires ReformattedSeq(xs, ys)
    ensures SeenIds(xs) == SeenIds(ys)
    ensures DuplicateIdErrors(xs) == DuplicateIdErrors(ys)
    decreases |xs|
  {
    if xs != [] {
      var n := |xs|;
      assert ReformattedSeq(xs[..n - 1], ys[..n - 1]);
      DuplicateIdErrorsReformatted(xs[..n - 1], ys[..n - 1]);
      assert xs[n - 1].attrs == ys[n - 1].attrs;
    }
  }

  /** The rules other than the counter check give the repaired tree the same findings. */
  lemma RulesAfterFix(root: Element)
    ensures FeatureRulesReport(AutoFixed(root)) == FeatureRulesReport(root)
    ensures DuplicateIdErrors(AllFeatures(AutoFixed(root))) == DuplicateIdErrors(AllFeatures(root))
  {
    var fixed := AutoFixed(root);
    AutoFixChangesOnlyCounters(root);
    FeatureRulesReportReformatted(root, fixed);
    SubtreeReformatted(root.children, fixed.children);
    WithTagReformatted(Subtree(root.children), Subtree(fixed.children), "feature");
    DuplicateIdErrorsReformatted(AllFeatures(root), AllFeatures(fixed));
  }

  /** With both counters present, the root check says the same before and after the repair. */
  lemma RootStructureAfterFix(root: Element)
    requires Present(Get(root, "total")) && Present(Get(root, "completed"))
    ensures AutoFixed(root).tag == root.tag
    ensures RootStructureReport(AutoFixed(root)) == RootStructureReport(root)
  {
    AutoFixChangesOnlyCounters(root);
  }

  /**
   * Two `<features>` trees on which every rule but the counter check agrees, the second with
   * nothing for the counter check to report: the first's findings are the second's followed by
   * the counter findings.
   */
  lemma ReportLessCounters(root: Element, fixed: Element)
    requires root.tag == "features" && fixed.tag == "features"
    requires RootStructureReport(fixed) == RootStructureReport(root)
    requires FeatureRulesReport(fixed) == FeatureRulesReport(root)
    requires DuplicateIdErrors(AllFeatures(fixed)) == DuplicateIdErrors(AllFeatures(root))
    requires CounterReport(fixed) == Report([], [])
    ensures ValidateReport(Parsed(root)).errors ==
            ValidateReport(Parsed(fixed)).errors + CounterReport(root).errors
    ensures ValidateReport(Parsed(root)).warnings ==
            ValidateReport(Parsed(fixed)).warnings + CounterReport(root).warnings
  {
    ValidateReportParts(root);
    ValidateReportParts(fixed);
    var ruleErrors := FeatureRulesReport(root).errors + DuplicateIdErrors(AllFeatures(root));
    assert ValidateReport(Parsed(fixed)).errors == ruleErrors;
    var ruleWarnings := RootStructureReport(root).warnings + FeatureRulesReport(root).warnings;
    assert ValidateReport(Parsed(fixed)).warnings == ruleWarnings;
  }

  /** Validating the repaired tree again reports the first validation's errors less the counter errors. */
  lemma RevalidateErrorsAfterFix(root: Element)
    requires root.tag == "features"
    ensures ValidateReport(Parsed(root)).errors ==
            ValidateReport(Parsed(AutoFixed(root))).errors + CounterReport(root).errors
  {
    var fixed := AutoFixed(root);
    AutoFixChangesOnlyCounters(root);
    AutoFixPassesCounterCheck(root);
    RulesAfterFix(root);
    ValidateReportParts(root);
    ValidateReportParts(fixed);
    var ruleErrors := FeatureRulesReport(root).errors + DuplicateIdErrors(AllFeatures(root));
    assert ValidateReport(Parsed(fixed)).errors == ruleErrors + [];
  }

  /**
   * When both counters were there to begin with, validating the repaired tree again reports
   * the first validation's warnings less the counter warnings.
   */
  lemma RevalidateWarningsAfterFix(root: Element)
    requires root.tag == "features"
    requires Present(Get(root, "total")) && Present(Get(root, "completed"))
    ensures ValidateReport(Parsed(root)).warnings ==
            ValidateReport(Parsed(AutoFixed(root))).warnings + CounterReport(root).warnings
  {
    RootStructureAfterFix(root);
    AutoFixPassesCounterCheck(root);
    RulesAfterFix(root);
    ReportLessCounters(root, AutoFixed(root));
  }

  /** A document that passed validation still passes after the counter repair. */
  lemma FixedStaysValid(input: Loaded)
    requires Validate(input).isValid
    ensures input.Parsed?
    ensures Validate(Parsed(AutoFixed(input.root))).isValid
    ensures CounterReport(AutoFixed(input.root)) == Report([], [])
  {
    RevalidateErrorsAfterFix(input.root);
    AutoFixChangesOnlyCounters(input.root);
    AutoFixPassesCounterCheck(input.root);
  }
}
