/**
 * `main`: validate the file named by the first argument, exit with 0 exactly when it is valid,
 * and with `--auto-fix` repair the counters of a valid file whose only complaints include a
 * counter mismatch.
 */
module Cli {
  import opened Wrappers
  import opened Text
  import opened Xml
  import opened Findings
  import opened Rules
  import opened Validating
  import opened Repair
  import opened RepairProperties
  import RuleProperties

  predicate IsCounterFinding(f: Finding) {
    f.code == IncorrectTotal || f.code == IncorrectCompleted
  }

  /** The findings of severity ERROR, in order. */
  function ErrorsOf(s: seq<Finding>): (r: seq<Finding>)
    ensures forall f :: f in r <==> f in s && f.severity == Error
  {
    if s == [] then []
    else (if s[0].severity == Error then [s[0]] else []) + ErrorsOf(s[1..])
  }

  /** The INCORRECT_TOTAL and INCORRECT_COMPLETED findings, in order. */
  function CounterFindingsOf(s: seq<Finding>): (r: seq<Finding>)
    ensures forall f :: f in r <==> f in s && IsCounterFinding(f)
  {
    if s == [] then []
    else (if IsCounterFinding(s[0]) then [s[0]] else []) + CounterFindingsOf(s[1..])
  }

  /** The repair is tried when asked for, on a valid file with no error and a counter finding. */
  predicate ShouldAutoFix(autoFix: bool, v: Verdict) {
    autoFix && v.isValid && ErrorsOf(v.findings) == [] && CounterFindingsOf(v.findings) != []
  }

  // ---------------------------------------------------------------------------------------
  // Only the counter check files counter findings.

  predicate NoCounterFinding(s: seq<Finding>) {
    forall f | f in s :: !IsCounterFinding(f)
  }

  lemma RootStructureHasNoCounterFinding(root: Element)
    ensures NoCounterFinding(RootStructureReport(root).warnings)
  {
  }

  lemma {:induction false} FeaturesReportHasNoCounterFinding(fs: seq<Element>)
    ensures NoCounterFinding(FeaturesReport(fs).warnings)
    decreases |fs|
  {
    if fs != [] {
      FeaturesReportHasNoCounterFinding(fs[..|fs| - 1]);
    }
  }

  lemma {:induction false} CategoriesReportHasNoCounterFinding(cs: seq<Element>)
    ensures NoCounterFinding(CategoriesReport(cs).warnings)
    decreases |cs|
  {
    if cs != [] {
      CategoriesReportHasNoCounterFinding(cs[..|cs| - 1]);
      FeaturesReportHasNoCounterFinding(FindAll(cs[|cs| - 1], "feature"));
    }
  }

  /** A counter warning in a `<features>` document's findings means the counter check filed one. */
  lemma CounterWarningsFromCounterCheck(root: Element)
    requires root.tag == "features"
    ensures !NoCounterFinding(ValidateReport(Parsed(root)).warnings) ==> CounterReport(root).warnings != []
  {
    ValidateReportParts(root);
    FeatureRulesReportParts(root);
    CategoriesReportHasNoCounterFinding(IterFind(root, "category"));
    RootStructureHasNoCounterFinding(root);
    var earlier := RootStructureReport(root).warnings + FeatureRulesReport(root).warnings;
    assert NoCounterFinding(earlier);
    assert ValidateReport(Parsed(root)).warnings == earlier + CounterReport(root).warnings;
  }

  /** The counter check warns only about counters that are there and are numbers. */
  lemma CounterWarningsNeedCounters(root: Element)
    ensures CounterReport(root).warnings != [] ==>
            Present(Get(root, "total")) && Present(Get(root, "completed"))
  {
    var total, completed := Get(root, "total"), Get(root, "completed");
    if total.Some? && completed.Some? {
      if ParseInt(total.value).Some? && ParseInt(completed.value).Some? {
        assert total.value != "" && completed.value != "";
      }
    }
  }

  /** The error filter adds nothing to the validity flag: a valid verdict holds no error. */
  lemma AutoFixGate(autoFix: bool, input: Loaded)
    ensures var v := Validate(input);
      ShouldAutoFix(autoFix, v) <==> autoFix && v.isValid && CounterFindingsOf(v.findings) != []
  {
    var v := Validate(input);
    RuleProperties.ValidIffNoErrors(input);
    if ErrorsOf(v.findings) != [] {
      var f := ErrorsOf(v.findings)[0];
      assert f in v.findings && f.severity == Error;
    }
  }

  /** The verdict on a tree whose report is an error-free one less its counter findings. */
  lemma VerdictLessCounters(root: Element, fixed: Element)
    requires fixed.tag == "features" && ValidateReport(Parsed(root)).errors == []
    requires ValidateReport(Parsed(root)).errors ==
             ValidateReport(Parsed(fixed)).errors + CounterReport(root).errors
    requires ValidateReport(Parsed(root)).warnings ==
             ValidateReport(Parsed(fixed)).warnings + CounterReport(root).warnings
    ensures Validate(Parsed(fixed)).isValid
    ensures Validate(Parsed(fixed)).findings + CounterReport(root).warnings ==
            ValidateReport(Parsed(root)).warnings
  {
    var after := ValidateReport(Parsed(fixed));
    assert after.errors == [];
    assert Validate(Parsed(fixed)).findings == after.warnings;
  }

  /**
   * A `<features>` document with no error and a counter warning: after the repair it validates
   * with no error, and its findings are the earlier warnings less the counter warnings.
   */
  lemma RepairLeavesOtherWarnings(root: Element)
    requires root.tag == "features"
    requires ValidateReport(Parsed(root)).errors == [] && CounterReport(root).warnings != []
    ensures Validate(Parsed(AutoFixed(root))).isValid
    ensures Validate(Parsed(AutoFixed(root))).findings + CounterReport(root).warnings ==
            ValidateReport(Parsed(root)).warnings
  {
    CounterWarningsNeedCounters(root);
    RootStructureAfterFix(root);
    RevalidateErrorsAfterFix(root);
    RevalidateWarningsAfterFix(root);
    VerdictLessCounters(root, AutoFixed(root));
  }

  /**
   * When the repair is tried on the file that was validated, validating the repaired tree
   * again finds it valid and reports the same findings less the counter warnings.
   */
  lemma RepairedFileRevalidates(input: Loaded)
    requires ShouldAutoFix(true, Validate(input))
    ensures input.Parsed?
    ensures CounterReport(input.root).warnings != []
    ensures Validate(Parsed(AutoFixed(input.root))).isValid
    ensures Validate(Parsed(AutoFixed(input.root))).findings + CounterReport(input.root).warnings ==
            Validate(input).findings
  {
    var before := ValidateReport(input);
    assert Validate(input).findings == before.warnings;
    var f := CounterFindingsOf(Validate(input).findings)[0];
    assert f in before.warnings && IsCounterFinding(f);
    CounterWarningsFromCounterCheck(input.root);
    RepairLeavesOtherWarnings(input.root);
  }

  // ---------------------------------------------------------------------------------------
  // `main`. The file is read once for the validation (`input`) and once more by the repair
  // (`reloaded`); `writeOk` says whether writing the repaired file succeeds.

  /**
   * The repair step of `main` once the first validation gave `v`: `auto_fix_counters` runs when
   * `ShouldAutoFix` holds, and `written` is the tree a successful write puts in the file.
   */
  method MaybeAutoFix(autoFix: bool, v: Verdict, input: Loaded, reloaded: Loaded, writeOk: bool)
    returns (written: Option<Element>)
    requires v == Validate(input)
    ensures written.Some? <==> ShouldAutoFix(autoFix, v) && reloaded.Parsed? && writeOk
    ensures written.Some? ==>
            written.value == AutoFixed(reloaded.root) && CounterReport(written.value) == Report([], [])
    ensures written.Some? && reloaded == input ==>
            Validate(Parsed(written.value)).isValid &&
            Validate(Parsed(written.value)).findings + CounterReport(input.root).warnings == v.findings
  {
    written := None;
    if autoFix && v.isValid {
      var errors := ErrorsOf(v.findings);
      var counterWarnings := CounterFindingsOf(v.findings);
      if errors == [] && counterWarnings != [] {
        var ok;
        ok, written := AutoFixCounters(reloaded, writeOk);
        if written.Some? {
          AutoFixPassesCounterCheck(reloaded.root);
          if reloaded == input {
            RepairedFileRevalidates(input);
          }
        }
      }
    }
  }

  /** What `XMLValidator.validate` returns on a fresh validator is the verdict `Validate`. */
  lemma ValidatorVerdict(input: Loaded, errors: seq<Finding>, warnings: seq<Finding>, isValid: bool, findings: seq<Finding>)
    requires errors == [] + ValidateReport(input).errors && warnings == [] + ValidateReport(input).warnings
    requires findings == errors + warnings && isValid == (Proceeds(input) && errors == [])
    ensures Verdict(isValid, findings) == Validate(input)
  {
  }

  method Run(argv: seq<string>, input: Loaded, reloaded: Loaded, writeOk: bool)
    returns (exitCode: int, written: Option<Element>)
    ensures |argv| < 2 ==> exitCode == 1 && written == None
    ensures |argv| >= 2 ==> (exitCode == 0 <==> Validate(input).isValid)
    ensures exitCode == 0 || exitCode == 1
    ensures written.Some? <==>
            |argv| >= 2 && ShouldAutoFix("--auto-fix" in argv, Validate(input)) && reloaded.Parsed? && writeOk
    ensures written.Some? ==>
            written.value == AutoFixed(reloaded.root) && CounterReport(written.value) == Report([], [])
    ensures written.Some? && reloaded == input ==>
            Validate(Parsed(written.value)).isValid &&
            Validate(Parsed(written.value)).findings + CounterReport(input.root).warnings ==
            Validate(input).findings
  {
    if |argv| < 2 {
      return 1, None;
    }
    var autoFix := "--auto-fix" in argv;
    var validator := new XmlValidator(input);
    var isValid, issues := validator.Validate();
    ValidatorVerdict(input, validator.errors, validator.warnings, isValid, issues);
    written := MaybeAutoFix(autoFix, Verdict(isValid, issues), input, reloaded, writeOk);
    exitCode := if isValid then 0 else 1;
  }
}
