/**
 * `XMLValidator`: the validator object that accumulates errors and warnings rule by rule.
 * Each method appends exactly what the matching function of `Rules` says.
 */
module Validating {
  import opened Wrappers
  import opened Text
  import opened Xml
  import opened Findings
  import opened Rules

  class XmlValidator {
    /** The outcome of reading the file the validator was created for. */
    const input: Loaded
    var errors: seq<Finding>
    var warnings: seq<Finding>
    var root: Option<Element>

    constructor (input: Loaded)
      ensures this.input == input && errors == [] && warnings == [] && root == None
    {
      this.input := input;
      errors, warnings, root := [], [], None;
    }

    /**
     * Runs the rules in order and returns the validity flag with the errors followed by the
     * warnings. A missing file, a parse failure and a wrong root stop the run early.
     */
    method Validate() returns (isValid: bool, findings: seq<Finding>)
      modifies this
      ensures errors == old(errors) + ValidateReport(input).errors
      ensures warnings == old(warnings) + ValidateReport(input).warnings
      ensures findings == errors + warnings
      ensures isValid == (Proceeds(input) && errors == [])
      ensures input.Parsed? ==> root == Some(input.root)
      ensures !input.Parsed? ==> root == old(root)
    {
      if input.Missing? {
        errors := errors + [FileNotFoundError(input.path)];
        return false, errors + warnings;
      }
      var parsed := ValidateXmlSyntax();
      if !parsed {
        return false, errors + warnings;
      }
      var rootOk := ValidateRootStructure();
      if !rootOk {
        return false, errors + warnings;
      }
      ValidateReportParts(root.value);
      ghost var errors0, warnings0 := errors, warnings;
      ValidateFeatures();
      ghost var errors1, warnings1 := errors, warnings;
      ValidateUniqueIds();
      ghost var errors2 := errors;
      ValidateCounters();
      ghost var tree := input.root;
      assert errors0 == old(errors);
      AppendAssoc(errors0, FeatureRulesReport(tree).errors, DuplicateIdErrors(AllFeatures(tree)));
      AppendAssoc(errors0, FeatureRulesReport(tree).errors + DuplicateIdErrors(AllFeatures(tree)), CounterReport(tree).errors);
      AppendAssoc(old(warnings), RootStructureReport(tree).warnings, FeatureRulesReport(tree).warnings);
      AppendAssoc(old(warnings), RootStructureReport(tree).warnings + FeatureRulesReport(tree).warnings, CounterReport(tree).warnings);
      isValid := |errors| == 0;
      findings := errors + warnings;
    }

    method ValidateXmlSyntax() returns (ok: bool)
      requires !input.Missing?
      modifies this
      ensures ok == input.Parsed?
      ensures ok ==> root == Some(input.root) && errors == old(errors)
      ensures !ok ==> root == old(root)
      ensures !ok ==> errors == old(errors) + ValidateReport(input).errors
      ensures warnings == old(warnings)
    {
      match input
      case Parsed(tree) =>
        root := Some(tree);
        ok := true;
      case Malformed(detail) =>
        errors := errors + [SyntaxError(detail)];
        ok := false;
      case Unreadable(detail) =>
        errors := errors + [OtherParseError(detail)];
        ok := false;
    }

    method ValidateRootStructure() returns (ok: bool)
      requires root.Some?
      modifies this`errors, this`warnings
      ensures ok == (root.value.tag == "features")
      ensures errors == old(errors) + RootStructureReport(root.value).errors
      ensures warnings == old(warnings) + RootStructureReport(root.value).warnings
    {
      var tree := root.value;
      if tree.tag != "features" {
        errors := errors + [InvalidRootError(tree.tag)];
        return false;
      }
      if !Present(Get(tree, "project")) {
        warnings := warnings + [MissingProjectWarning()];
      }
      if !Present(Get(tree, "total")) {
        warnings := warnings + [MissingTotalWarning()];
      }
      if !Present(Get(tree, "completed")) {
        warnings := warnings + [MissingCompletedWarning()];
      }
      ok := true;
    }

    method ValidateFeatures()
      requires root.Some?
      modifies this`errors, this`warnings
      ensures errors == old(errors) + FeatureRulesReport(root.value).errors
      ensures warnings == old(warnings) + FeatureRulesReport(root.value).warnings
    {
      var tree := root.value;
      FeatureRulesReportParts(tree);
      var categories := IterFind(tree, "category");
      if categories == [] {
        warnings := warnings + [NoCategoriesWarning()];
      }
      ghost var warnings0 := warnings;
      assert warnings0 == old(warnings) + NoCategoriesWarnings(tree);
      ValidateCategories(categories);
      assert warnings == warnings0 + CategoriesReport(categories).warnings;
      AppendAssoc(old(warnings), NoCategoriesWarnings(tree), CategoriesReport(categories).warnings);
    }

    /** The loop over the categories found anywhere below the root. */
    method ValidateCategories(categories: seq<Element>)
      modifies this`errors, this`warnings
      ensures errors == old(errors) + CategoriesReport(categories).errors
      ensures warnings == old(warnings) + CategoriesReport(categories).warnings
    {
      var i := 0;
      while i < |categories|
        invariant 0 <= i <= |categories|
        invariant errors == old(errors) + CategoriesReport(categories[..i]).errors
        invariant warnings == old(warnings) + CategoriesReport(categories[..i]).warnings
      {
        ghost var done := CategoriesReport(categories[..i]);
        ValidateCategory(categories[i]);
        CategoriesReportSnoc(categories, i);
        AppendAssoc(old(errors), done.errors, CategoryReport(categories[i]).errors);
        AppendAssoc(old(warnings), done.warnings, CategoryReport(categories[i]).warnings);
        i := i + 1;
      }
      assert categories[..|categories|] == categories;
    }

    /** The body of the loop over categories: the name, emptiness, then each direct feature. */
    method ValidateCategory(category: Element)
      modifies this`errors, this`warnings
      ensures errors == old(errors) + CategoryReport(category).errors
      ensures warnings == old(warnings) + CategoryReport(category).warnings
    {
      var categoryName := GetOr(category, "name", "UNNAMED");
      if !Present(Get(category, "name")) {
        errors := errors + [MissingCategoryNameError()];
      }
      var features := FindAll(category, "feature");
      if features == [] {
        warnings := warnings + [EmptyCategoryWarning(categoryName)];
      }
      ghost var own := Report(CategoryNameErrors(category), EmptyCategoryWarnings(category));
      assert errors == old(errors) + own.errors;
      assert warnings == old(warnings) + own.warnings;
      ValidateCategoryFeatures(features);
      AppendAssoc(old(errors), own.errors, FeaturesReport(features).errors);
      AppendAssoc(old(warnings), own.warnings, FeaturesReport(features).warnings);
    }

    /** The loop over the direct `<feature>` children of one category. */
    method ValidateCategoryFeatures(features: seq<Element>)
      modifies this`errors, this`warnings
      ensures errors == old(errors) + FeaturesReport(features).errors
      ensures warnings == old(warnings) + FeaturesReport(features).warnings
    {
      var j := 0;
      while j < |features|
        invariant 0 <= j <= |features|
        invariant errors == old(errors) + FeaturesReport(features[..j]).errors
        invariant warnings == old(warnings) + FeaturesReport(features[..j]).warnings
      {
        ghost var done := FeaturesReport(features[..j]);
        ValidateSingleFeature(features[j]);
        FeaturesReportSnoc(features, j);
        AppendAssoc(old(errors), done.errors, FeatureReport(features[j]).errors);
        AppendAssoc(old(warnings), done.warnings, FeatureReport(features[j]).warnings);
        j := j + 1;
      }
      assert features[..|features|] == features;
    }

    /** Checks one feature: its attributes, description, steps and notes, in that order. */
    method ValidateSingleFeature(feature: Element)
      modifies this`errors, this`warnings
      ensures errors == old(errors) + FeatureReport(feature).errors
      ensures warnings == old(warnings) + FeatureReport(feature).warnings
    {
      var featureId := GetOr(feature, "id", "UNKNOWN");
      ValidateIdAttr(feature, featureId);
      var status := ValidateStatusAttr(feature, featureId);
      ValidatePriorityAttr(feature, featureId);
      ValidateDescription(feature, featureId);
      ValidateSteps(feature, featureId);
      ValidateNotes(feature, featureId, status);
      ghost var e, id, st, pr := old(errors), IdErrors(feature), StatusErrors(feature), PriorityErrors(feature);
      AppendAssoc(e, id, st);
      AppendAssoc(e, id + st, pr);
      AppendAssoc(e, id + st + pr, DescriptionErrors(feature));
      AppendAssoc(e, id + st + pr + DescriptionErrors(feature), StepsErrors(feature));
      AppendAssoc(old(warnings), NotesWarnings(feature), BlockedWarnings(feature));
    }

    method ValidateIdAttr(feature: Element, featureId: string)
      requires featureId == Label(feature)
      modifies this`errors
      ensures errors == old(errors) + IdErrors(feature)
    {
      if !Present(Get(feature, "id")) {
        errors := errors + [MissingIdError(featureId)];
      } else if !IsFeatureId(featureId) {
        errors := errors + [InvalidIdError(featureId)];
      }
    }

    method ValidateStatusAttr(feature: Element, featureId: string) returns (status: Option<string>)
      requires featureId == Label(feature)
      modifies this`errors
      ensures status == Get(feature, "status")
      ensures errors == old(errors) + StatusErrors(feature)
    {
      status := Get(feature, "status");
      if !Present(status) {
        errors := errors + [MissingStatusError(featureId)];
      } else if status.value !in ValidStatuses {
        errors := errors + [InvalidStatusError(featureId, status.value)];
      }
    }

    method ValidatePriorityAttr(feature: Element, featureId: string)
      requires featureId == Label(feature)
      modifies this`errors
      ensures errors == old(errors) + PriorityErrors(feature)
    {
      var priority := Get(feature, "priority");
      if !Present(priority) {
        errors := errors + [MissingPriorityError(featureId)];
      } else if priority.value !in ValidPriorities {
        errors := errors + [InvalidPriorityError(featureId, priority.value)];
      }
    }

    method ValidateDescription(feature: Element, featureId: string)
      requires featureId == Label(feature)
      modifies this`errors
      ensures errors == old(errors) + DescriptionErrors(feature)
    {
      var description := Find(feature, "description");
      if description.None? {
        errors := errors + [MissingDescriptionError(featureId)];
      } else if BlankText(description.value.text) {
        errors := errors + [EmptyDescriptionError(featureId)];
      }
    }

    method ValidateSteps(feature: Element, featureId: string)
      requires featureId == Label(feature)
      modifies this`errors
      ensures errors == old(errors) + StepsErrors(feature)
    {
      var steps := Find(feature, "steps");
      if steps.None? {
        errors := errors + [MissingStepsError(featureId)];
      } else {
        var stepElements := FindAll(steps.value, "step");
        if stepElements == [] {
          errors := errors + [EmptyStepsError(featureId)];
        }
        ValidateEachStep(featureId, stepElements);
      }
    }

    method ValidateNotes(feature: Element, featureId: string, status: Option<string>)
      requires featureId == Label(feature) && status == Get(feature, "status")
      modifies this`warnings
      ensures warnings == old(warnings) + NotesWarnings(feature) + BlockedWarnings(feature)
    {
      var notes := Find(feature, "notes");
      if notes.None? {
        warnings := warnings + [MissingNotesWarning(featureId)];
      }
      if status == Some("blocked") {
        if notes.None? || notes.value.text.None? || notes.value.text.value == "" ||
           !Contains(notes.value.text.value, "Blocked:") {
          warnings := warnings + [BlockedWithoutReasonWarning(featureId)];
        }
      }
    }

    /** The loop over the `<step>` elements, numbered from 1. */
    method ValidateEachStep(featureId: string, stepElements: seq<Element>)
      modifies this`errors
      ensures errors == old(errors) + BlankStepErrors(featureId, stepElements)
    {
      var k := 0;
      while k < |stepElements|
        invariant 0 <= k <= |stepElements|
        invariant errors == old(errors) + BlankStepErrors(featureId, stepElements[..k])
      {
        if BlankText(stepElements[k].text) {
          errors := errors + [EmptyStepError(featureId, k + 1)];
        }
        assert stepElements[..k + 1][..k] == stepElements[..k];
        k := k + 1;
      }
      assert stepElements[..|stepElements|] == stepElements;
    }

    method ValidateUniqueIds()
      requires root.Some?
      modifies this`errors
      ensures errors == old(errors) + DuplicateIdErrors(AllFeatures(root.value))
    {
      var features := IterFind(root.value, "feature");
      var ids: seq<string> := [];
      var k := 0;
      while k < |features|
        invariant 0 <= k <= |features|
        invariant ids == SeenIds(features[..k])
        invariant errors == old(errors) + DuplicateIdErrors(features[..k])
      {
        var featureId := Get(features[k], "id");
        if Present(featureId) {
          if featureId.value in ids {
            errors := errors + [DuplicateIdError(featureId.value)];
          }
          ids := ids + [featureId.value];
        }
        assert features[..k + 1][..k] == features[..k];
        k := k + 1;
      }
      assert features[..|features|] == features;
    }

    method ValidateCounters()
      requires root.Some?
      modifies this`errors, this`warnings
      ensures errors == old(errors) + CounterReport(root.value).errors
      ensures warnings == old(warnings) + CounterReport(root.value).warnings
    {
      var tree := root.value;
      var totalAttr, completedAttr := Get(tree, "total"), Get(tree, "completed");
      if totalAttr.None? || completedAttr.None? {
        return;
      }
      var totalExpected, completedExpected := ParseInt(totalAttr.value), ParseInt(completedAttr.value);
      if totalExpected.None? || completedExpected.None? {
        errors := errors + [InvalidCounterError()];
        return;
      }
      var allFeatures := IterFind(tree, "feature");
      var totalActual := |allFeatures|;
      var completedActual := |Completed(allFeatures)|;
      if totalActual != totalExpected.value {
        warnings := warnings + [IncorrectTotalWarning(totalActual, totalExpected.value)];
      }
      if completedActual != completedExpected.value {
        warnings := warnings + [IncorrectCompletedWarning(completedActual, completedExpected.value)];
      }
    }
  }
}
