/**
 * What each rule of `XMLValidator` files, as functions of the parsed document. The class in
 * `Validating` appends exactly these findings; the lemmas in `RuleProperties` state what
 * they amount to.
 */
module Rules {
  import opened Wrappers
  import opened Text
  import opened Xml
  import opened Findings

  const ValidStatuses: set<string> := {"pending", "in-progress", "complete", "blocked"}
  const ValidPriorities: set<string> := {"high", "medium", "low"}

  /** `^FEAT-\d{3}$`: the prefix `FEAT-` and exactly three digits. */
  predicate IsFeatureId(s: string) {
    |s| == 8 && s[..5] == "FEAT-" && IsDigit(s[5]) && IsDigit(s[6]) && IsDigit(s[7])
  }

  /** What reading the file gave: no file, a syntax error, another failure, or the tree. */
  datatype Loaded =
    | Missing(path: string)
    | Malformed(detail: string)
    | Unreadable(detail: string)
    | Parsed(root: Element)

  /** `_validate_root_structure`: the root must be `<features>`; its counters are recommended. */
  function RootStructureReport(root: Element): (r: Report)
  {
    if root.tag != "features" then Report([InvalidRootError(root.tag)], [])
    else
      Report([],
        (if Present(Get(root, "project")) then [] else [MissingProjectWarning()]) +
        (if Present(Get(root, "total")) then [] else [MissingTotalWarning()]) +
        (if Present(Get(root, "completed")) then [] else [MissingCompletedWarning()]))
  }

  /** The id a feature's findings are filed under: `feature.get("id", "UNKNOWN")`. */
  function Label(f: Element): string {
    GetOr(f, "id", "UNKNOWN")
  }

  function IdErrors(f: Element): (r: seq<Finding>)
  {
    var id := Get(f, "id");
    if !Present(id) then [MissingIdError(Label(f))]
    else if !IsFeatureId(id.value) then [InvalidIdError(Label(f))]
    else []
  }

  function StatusErrors(f: Element): (r: seq<Finding>)
  {
    var status := Get(f, "status");
    if !Present(status) then [MissingStatusError(Label(f))]
    else if status.value !in ValidStatuses then [InvalidStatusError(Label(f), status.value)]
    else []
  }

  function PriorityErrors(f: Element): (r: seq<Finding>)
  {
    var priority := Get(f, "priority");
    if !Present(priority) then [MissingPriorityError(Label(f))]
    else if priority.value !in ValidPriorities then [InvalidPriorityError(Label(f), priority.value)]
    else []
  }

  function DescriptionErrors(f: Element): (r: seq<Finding>)
  {
    var description := Find(f, "description");
    if description.None? then [MissingDescriptionError(Label(f))]
    else if BlankText(description.value.text) then [EmptyDescriptionError(Label(f))]
    else []
  }

  /** One EMPTY_STEP per blank step of `steps`, numbered from 1, in order. */
  function BlankStepErrors(id: string, steps: seq<Element>): (r: seq<Finding>)
    decreases |steps|
  {
    if steps == [] then []
    else
      var n := |steps|;
      var last := if BlankText(steps[n - 1].text) then [EmptyStepError(id, n)] else [];
      BlankStepErrors(id, steps[..n - 1]) + last
  }

  function StepsErrors(f: Element): (r: seq<Finding>)
  {
    var steps := Find(f, "steps");
    if steps.None? then [MissingStepsError(Label(f))]
    else
      var stepElements := FindAll(steps.value, "step");
      var first := if stepElements == [] then [EmptyStepsError(Label(f))] else [];
      first + BlankStepErrors(Label(f), stepElements)
  }

  function NotesWarnings(f: Element): (r: seq<Finding>)
  {
    if Find(f, "notes").None? then [MissingNotesWarning(Label(f))] else []
  }

  /** A blocked feature needs notes whose text contains `Blocked:`. */
  function BlockedWarnings(f: Element): (r: seq<Finding>)
  {
    var notes := Find(f, "notes");
    if Get(f, "status") == Some("blocked") &&
       (notes.None? || notes.value.text.None? || notes.value.text.value == "" ||
        !Contains(notes.value.text.value, "Blocked:"))
    then [BlockedWithoutReasonWarning(Label(f))]
    else []
  }

  /** `_validate_single_feature`. */
  function FeatureReport(f: Element): (r: Report)
  {
    Report(IdErrors(f) + StatusErrors(f) + PriorityErrors(f) + DescriptionErrors(f) + StepsErrors(f),
           NotesWarnings(f) + BlockedWarnings(f))
  }

  /** The reports of a sequence of features, one after the other. */
  function FeaturesReport(fs: seq<Element>): (r: Report)
    decreases |fs|
  {
    if fs == [] then Report([], [])
    else
      FeaturesReport(fs[..|fs| - 1]).Then(FeatureReport(fs[|fs| - 1]))
  }

  lemma FeaturesReportSnoc(fs: seq<Element>, j: nat)
    requires j < |fs|
    ensures FeaturesReport(fs[..j + 1]) == FeaturesReport(fs[..j]).Then(FeatureReport(fs[j]))
  {
    assert fs[..j + 1][..j] == fs[..j];
  }

  /** `MISSING_CATEGORY_NAME` when the category has no (or an empty) `name`. */
  function CategoryNameErrors(c: Element): (r: seq<Finding>)
  {
    if Present(Get(c, "name")) then [] else [MissingCategoryNameError()]
  }

  /** `EMPTY_CATEGORY` when the category has no direct `<feature>` child. */
  function EmptyCategoryWarnings(c: Element): (r: seq<Finding>)
  {
    if FindAll(c, "feature") == [] then [EmptyCategoryWarning(GetOr(c, "name", "UNNAMED"))] else []
  }

  /** One category: its name, its emptiness, then its direct `<feature>` children. */
  function CategoryReport(c: Element): (r: Report)
  {
    Report(CategoryNameErrors(c), EmptyCategoryWarnings(c)).Then(FeaturesReport(FindAll(c, "feature")))
  }

  function CategoriesReport(cs: seq<Element>): (r: Report)
    decreases |cs|
  {
    if cs == [] then Report([], [])
    else
      CategoriesReport(cs[..|cs| - 1]).Then(CategoryReport(cs[|cs| - 1]))
  }

  lemma CategoriesReportSnoc(cs: seq<Element>, i: nat)
    requires i < |cs|
    ensures CategoriesReport(cs[..i + 1]) == CategoriesReport(cs[..i]).Then(CategoryReport(cs[i]))
  {
    assert cs[..i + 1][..i] == cs[..i];
  }

  /** `NO_CATEGORIES` when no `<category>` sits anywhere below the root. */
  function NoCategoriesWarnings(root: Element): (r: seq<Finding>)
  {
    if IterFind(root, "category") == [] then [NoCategoriesWarning()] else []
  }

  /** `_validate_features`: categories at any depth, features directly inside them. */
  function FeatureRulesReport(root: Element): (r: Report)
  {
    Report([], NoCategoriesWarnings(root)).Then(CategoriesReport(IterFind(root, "category")))
  }

  /** `FeatureRulesReport` split into its two lists. */
  lemma FeatureRulesReportParts(root: Element)
    ensures FeatureRulesReport(root).errors == CategoriesReport(IterFind(root, "category")).errors
    ensures FeatureRulesReport(root).warnings ==
            NoCategoriesWarnings(root) + CategoriesReport(IterFind(root, "category")).warnings
  {
  }

  /** The `ids` list of `_validate_unique_ids` after scanning `fs`: every non-empty id, in order. */
  function SeenIds(fs: seq<Element>): seq<string>
    decreases |fs|
  {
    if fs == [] then []
    else
      var id := Get(fs[|fs| - 1], "id");
      SeenIds(fs[..|fs| - 1]) + (if Present(id) then [id.value] else [])
  }

  /** `_validate_unique_ids`: a DUPLICATE_ID for each non-empty id already seen earlier. */
  function DuplicateIdErrors(fs: seq<Element>): (r: seq<Finding>)
    decreases |fs|
  {
    if fs == [] then []
    else
      var prefix := fs[..|fs| - 1];
      var id := Get(fs[|fs| - 1], "id");
      var last := if Present(id) && id.value in SeenIds(prefix) then [DuplicateIdError(id.value)] else [];
      DuplicateIdErrors(prefix) + last
  }

  /** Every `<feature>` below the root, wherever it sits. */
  function AllFeatures(root: Element): seq<Element> {
    IterFind(root, "feature")
  }

  /** The features whose status is exactly `complete`. */
  function Completed(fs: seq<Element>): (r: seq<Element>)
    ensures |r| <= |fs|
  {
    if fs == [] then []
    else (if Get(fs[0], "status") == Some("complete") then [fs[0]] else []) + Completed(fs[1..])
  }

  /** `_validate_counters`. */
  function CounterReport(root: Element): (r: Report)
  {
    var total, completed := Get(root, "total"), Get(root, "completed");
    if total.None? || completed.None? then Report([], [])
    else
      var totalExpected, completedExpected := ParseInt(total.value), ParseInt(completed.value);
      if totalExpected.None? || completedExpected.None? then Report([InvalidCounterError()], [])
      else
        var features := AllFeatures(root);
        var totalActual, completedActual := |features|, |Completed(features)|;
        var totalWarnings := if totalActual != totalExpected.value then [IncorrectTotalWarning(totalActual, totalExpected.value)] else [];
        var completedWarnings := if completedActual != completedExpected.value then [IncorrectCompletedWarning(completedActual, completedExpected.value)] else [];
        Report([], totalWarnings + completedWarnings)
  }

  /** The validation gets past the file, syntax and root checks. */
  predicate Proceeds(input: Loaded) {
    input.Parsed? && input.root.tag == "features"
  }

  /** `validate`: everything filed, in rule order, with the early returns. */
  function ValidateReport(input: Loaded): (r: Report)
  {
    match input
    case Missing(path) => Report([FileNotFoundError(path)], [])
    case Malformed(detail) => Report([SyntaxError(detail)], [])
    case Unreadable(detail) => Report([OtherParseError(detail)], [])
    case Parsed(root) =>
      if root.tag != "features" then RootStructureReport(root)
      else
        var a := RootStructureReport(root).Then(FeatureRulesReport(root));
        var b := a.Then(Report(DuplicateIdErrors(AllFeatures(root)), []));
        b.Then(CounterReport(root))
  }

  /** `ValidateReport` of a document whose root is `<features>`, split into its two lists. */
  lemma ValidateReportParts(root: Element)
    requires root.tag == "features"
    ensures ValidateReport(Parsed(root)).errors ==
            FeatureRulesReport(root).errors + DuplicateIdErrors(AllFeatures(root)) + CounterReport(root).errors
    ensures ValidateReport(Parsed(root)).warnings ==
            RootStructureReport(root).warnings + FeatureRulesReport(root).warnings + CounterReport(root).warnings
  {
    var a := RootStructureReport(root).Then(FeatureRulesReport(root));
    var b := a.Then(Report(DuplicateIdErrors(AllFeatures(root)), []));
    assert ValidateReport(Parsed(root)) == b.Then(CounterReport(root));
    assert RootStructureReport(root).errors == [];
    assert a.errors == FeatureRulesReport(root).errors;
    assert b.warnings == a.warnings;
  }

  /** What `validate` returns: the validity flag and the errors followed by the warnings. */
  datatype Verdict = Verdict(isValid: bool, findings: seq<Finding>)

  function Validate(input: Loaded): Verdict {
    var r := ValidateReport(input);
    Verdict(Proceeds(input) && r.errors == [], r.errors + r.warnings)
  }
}
