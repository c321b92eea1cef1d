# features.xml validator and counter repair, in Dafny

This project models the compatibility checker in
`sprint-context-generator/scripts/validate-compatibility.py`. The checker validates a
`features.xml` tree of the shape `<features>` → `<category name>` →
`<feature id status priority>` → `<description>`, `<steps>/<step>`, `<notes>`. It files every
problem as an ERROR or a WARNING. It exits with 0 exactly when no error was filed. With
`--auto-fix`, it also rewrites the root's `total` and `completed` counters and re-indents the file.

Modules:

- `Wrappers` holds `Option`.
- `Text` covers the string side of the checker:
  - `str.strip` blankness;
  - substring search;
  - `int()` on counters, as `ParseInt`;
  - `str()` on counts, as `NatToString`.
- `Xml` is the parsed element tree `Element(tag, attrs, text, tail, children)` with ElementTree's lookups:
  - `get` returns an absent or present attribute;
  - `find` returns the first direct child with a tag;
  - `findall(tag)` returns the direct children with a tag;
  - `findall(".//tag")` returns every proper descendant with a tag, in document order.
- `Findings` is `ValidationError`. A finding carries a code, a detail from which the Portuguese message is spelled out, a severity, and `__str__`.
- `Rules` has one pure function per `_validate_*` rule. Each returns a `Report(errors, warnings)`. `Validate` combines them, with the early returns of `validate`.
- `Validating.XmlValidator` is the class itself.
  - Its fields are `errors`, `warnings` and `root`.
  - Each method appends what the source appends. It loops over categories, features and steps just as the source does.
  - Each method is proved to append exactly the matching `Rules` report.
- `RuleProperties` states what the rules amount to:
  - the result shape;
  - the early returns;
  - each per-feature rule as a condition on the feature;
  - one EMPTY_STEP per blank step, numbered from 1;
  - k−1 DUPLICATE_ID errors for an id met k times;
  - the counter check.
- `Repair` models `indent_xml` and `auto_fix_counters`:
  - `Indented` is the function and `IndentXml` is the recursive method with its loop over the children.
  - `AutoFixed` is the tree the repair writes.
  - The module proves that the repair sets exactly the two counters, passes the counter check, and is idempotent.
- `RepairProperties` proves that re-indentation changes no finding. It follows that validating the repaired file again reports the earlier findings less the counter ones.
- `Cli` is `main`. It covers the usage exit, the exit code, and the auto-fix decision made from the filtered lists of errors and counter warnings.

The file system is an input of the model. `Rules.Loaded` is the outcome of reading the file:

- `Missing` means the file does not exist.
- `Malformed` is an `ET.ParseError`.
- `Unreadable` is any other failure.
- `Parsed` carries the tree.

The repair reads the file a second time. That reading is the separate input `reloaded`. Whether `tree.write` succeeds is the flag `writeOk`. When the write succeeds, `Cli.Run` returns the complete tree that was written.

Some behaviour of the code that the model keeps:

- An empty attribute counts as missing for `project`, `total`, `completed`, `id`, `status`, `priority` and the category `name`.
- The counter check skips only an absent `total` or `completed`. An empty one is therefore both warned about by the root check and rejected as INVALID_COUNTER (`RuleProperties.EmptyTotalIsWarnedAndRejected`).
- A document with no category and no feature is valid with NO_CATEGORIES as its only finding only when `project` is set and both counters read 0. Otherwise the root check or the counter check adds its own warnings (`RuleProperties.EmptyDocumentVerdict`).
- Per-feature rules run on the `<feature>` children of each `<category>`, and categories are found at any depth. The uniqueness and counter checks use every `<feature>` below the root, wherever it sits.

## Model

| member | source | states |
|---|---|---|
| Text.NatToString | sprint-context-generator/scripts/validate-compatibility.py:399-400 | `str()` of a count is a non-empty digit string with no leading zero, whose value is the count |
| Text.ParseInt | sprint-context-generator/scripts/validate-compatibility.py:318-321 | a counter parses iff it is ASCII digits, or a sign followed by ASCII digits; plain digits parse to their decimal value, and a negative result starts with `-` |
| Text.ParseIntOfIntToString | sprint-context-generator/scripts/validate-compatibility.py:319-320 | parsing the decimal text of any integer gives that integer back |
| Xml.WithTagMember | sprint-context-generator/scripts/validate-compatibility.py:174 | `findall(tag)` holds exactly the elements of the list with that tag |
| Xml.RootsInSubtree | sprint-context-generator/scripts/validate-compatibility.py:154 | every element of the forest is among the descendants `.//` visits |
| Xml.SubtreeHasChildren | sprint-context-generator/scripts/validate-compatibility.py:299 | the children of a visited element are visited too, so `.//` reaches every depth |
| Findings.RenderGlobalFallback | sprint-context-generator/scripts/validate-compatibility.py:40-42 | a finding renders as if its subject were `GLOBAL` exactly when its feature id is empty (or `GLOBAL`) |
| Findings.EmptyStepMessagesDiffer | sprint-context-generator/scripts/validate-compatibility.py:268-274 | EMPTY_STEP messages of different step numbers differ |
| Rules.ValidateReportParts | sprint-context-generator/scripts/validate-compatibility.py:82-92 | past the root check, the errors are the feature, duplicate-id and counter errors in that order, and the warnings are the root, feature and counter warnings in that order |
| Validating.XmlValidator.constructor | sprint-context-generator/scripts/validate-compatibility.py:52-56 | a new validator starts with no errors, no warnings and no root |
| Validating.XmlValidator.Validate | sprint-context-generator/scripts/validate-compatibility.py:58-92 | appends exactly the report of `validate`, returns errors followed by warnings, and is valid iff the run got past the root check with no error; the root is the parsed tree when there is one and is otherwise unchanged |
| Validating.XmlValidator.ValidateXmlSyntax | sprint-context-generator/scripts/validate-compatibility.py:94-113 | keeps the root of a parsed file, and otherwise files one XML_SYNTAX_ERROR or PARSE_ERROR, fails and leaves the root unchanged |
| Validating.XmlValidator.ValidateRootStructure | sprint-context-generator/scripts/validate-compatibility.py:115-150 | succeeds iff the root is `<features>`, appending INVALID_ROOT or the missing-attribute warnings |
| Validating.XmlValidator.ValidateFeatures | sprint-context-generator/scripts/validate-compatibility.py:152-185 | appends NO_CATEGORIES when no category exists, then the findings of every category at any depth |
| Validating.XmlValidator.ValidateCategories | sprint-context-generator/scripts/validate-compatibility.py:164-185 | the loop over categories appends the reports of all categories in order |
| Validating.XmlValidator.ValidateCategory | sprint-context-generator/scripts/validate-compatibility.py:165-185 | one category appends MISSING_CATEGORY_NAME, EMPTY_CATEGORY and then the findings of its direct features |
| Validating.XmlValidator.ValidateCategoryFeatures | sprint-context-generator/scripts/validate-compatibility.py:184-185 | the loop over a category's features appends their reports in order |
| Validating.XmlValidator.ValidateSingleFeature | sprint-context-generator/scripts/validate-compatibility.py:187-294 | appends the feature's errors (id, status, priority, description, steps) and warnings (notes, blocked) |
| Validating.XmlValidator.ValidateIdAttr | sprint-context-generator/scripts/validate-compatibility.py:191-203 | appends the id rule's errors |
| Validating.XmlValidator.ValidateStatusAttr | sprint-context-generator/scripts/validate-compatibility.py:205-218 | appends the status rule's errors and returns the status |
| Validating.XmlValidator.ValidatePriorityAttr | sprint-context-generator/scripts/validate-compatibility.py:220-233 | appends the priority rule's errors |
| Validating.XmlValidator.ValidateDescription | sprint-context-generator/scripts/validate-compatibility.py:235-248 | appends the description rule's errors |
| Validating.XmlValidator.ValidateSteps | sprint-context-generator/scripts/validate-compatibility.py:250-274 | appends the steps rule's errors |
| Validating.XmlValidator.ValidateEachStep | sprint-context-generator/scripts/validate-compatibility.py:267-274 | the loop over steps appends one EMPTY_STEP per blank step, numbered from 1 |
| Validating.XmlValidator.ValidateNotes | sprint-context-generator/scripts/validate-compatibility.py:276-294 | appends MISSING_NOTES and BLOCKED_WITHOUT_REASON as the notes rules say |
| Validating.XmlValidator.ValidateUniqueIds | sprint-context-generator/scripts/validate-compatibility.py:296-308 | the loop over all features appends a DUPLICATE_ID for every non-empty id seen before |
| Validating.XmlValidator.ValidateCounters | sprint-context-generator/scripts/validate-compatibility.py:310-348 | appends the counter check's findings |
| RuleProperties.BlankStepErrorsAreErrors | sprint-context-generator/scripts/validate-compatibility.py:267-274 | every EMPTY_STEP finding has severity ERROR |
| RuleProperties.FeatureReportClassified | sprint-context-generator/scripts/validate-compatibility.py:187-294 | a feature's errors are all ERRORs and its warnings all WARNINGs |
| RuleProperties.FeaturesReportClassified | sprint-context-generator/scripts/validate-compatibility.py:184-185 | the same for any sequence of features |
| RuleProperties.CategoriesReportClassified | sprint-context-generator/scripts/validate-compatibility.py:164-185 | the same for any sequence of categories |
| RuleProperties.DuplicateIdErrorsAreErrors | sprint-context-generator/scripts/validate-compatibility.py:296-308 | every DUPLICATE_ID has severity ERROR |
| RuleProperties.FeatureRulesReportClassified | sprint-context-generator/scripts/validate-compatibility.py:152-185 | the category and feature rules file errors as ERRORs and warnings as WARNINGs |
| RuleProperties.CounterReportClassified | sprint-context-generator/scripts/validate-compatibility.py:310-348 | the counter check files errors as ERRORs and warnings as WARNINGs |
| RuleProperties.RootStructureReportClassified | sprint-context-generator/scripts/validate-compatibility.py:115-150 | the root check files errors as ERRORs and warnings as WARNINGs |
| RuleProperties.ValidateReportClassified | sprint-context-generator/scripts/validate-compatibility.py:58-92 | everything `validate` puts in `errors` is an ERROR and in `warnings` a WARNING |
| RuleProperties.StoppedRunHasError | sprint-context-generator/scripts/validate-compatibility.py:65-80 | a run stopped by an early return has filed an error |
| RuleProperties.ClassifiedVerdict | sprint-context-generator/scripts/validate-compatibility.py:91-92 | for any classified report, validity holds iff no finding is an ERROR, and no ERROR follows a WARNING |
| RuleProperties.ValidIffNoErrors | sprint-context-generator/scripts/validate-compatibility.py:91-92 | `is_valid` iff no returned finding has severity ERROR, so warnings never affect validity |
| RuleProperties.ErrorsBeforeWarnings | sprint-context-generator/scripts/validate-compatibility.py:92 | in the returned list, everything after a WARNING is a WARNING |
| RuleProperties.MissingFileVerdict | sprint-context-generator/scripts/validate-compatibility.py:66-72 | a missing file gives exactly `(False, [FILE_NOT_FOUND])` |
| RuleProperties.ParseFailureVerdict | sprint-context-generator/scripts/validate-compatibility.py:94-113 | a parse failure gives exactly `(False, [XML_SYNTAX_ERROR])` or `(False, [PARSE_ERROR])` |
| RuleProperties.WrongRootVerdict | sprint-context-generator/scripts/validate-compatibility.py:117-123 | a root other than `<features>` gives exactly `(False, [INVALID_ROOT])`, with no attribute warnings |
| RuleProperties.IdRule | sprint-context-generator/scripts/validate-compatibility.py:189-203 | no id error iff the id is non-empty and is `FEAT-` plus three digits; MISSING_ID iff absent or empty; INVALID_ID_FORMAT iff present and malformed |
| RuleProperties.StatusRule | sprint-context-generator/scripts/validate-compatibility.py:205-218 | no status error iff the status is one of the four values; MISSING_STATUS iff absent or empty; otherwise a single INVALID_STATUS |
| RuleProperties.PriorityRule | sprint-context-generator/scripts/validate-compatibility.py:220-233 | no priority error iff the priority is high, medium or low; MISSING_PRIORITY iff absent or empty; otherwise a single INVALID_PRIORITY |
| RuleProperties.DescriptionRule | sprint-context-generator/scripts/validate-compatibility.py:235-248 | MISSING_DESCRIPTION iff no `<description>`, EMPTY_DESCRIPTION iff its text is blank, nothing iff it has text |
| RuleProperties.StepsRule | sprint-context-generator/scripts/validate-compatibility.py:250-274 | MISSING_STEPS without `<steps>`, EMPTY_STEPS without `<step>`, otherwise exactly the blank-step errors |
| RuleProperties.BlankStepCount | sprint-context-generator/scripts/validate-compatibility.py:267-274 | EMPTY_STEP number n occurs once iff step n (from 1) exists and is blank, otherwise not at all |
| RuleProperties.BlankStepErrorsOnlyEmptySteps | sprint-context-generator/scripts/validate-compatibility.py:267-274 | every blank-step finding is an EMPTY_STEP error of the feature for an existing, blank step |
| RuleProperties.NotesRule | sprint-context-generator/scripts/validate-compatibility.py:276-284 | MISSING_NOTES iff there is no `<notes>`, and nothing otherwise |
| RuleProperties.BlockedRule | sprint-context-generator/scripts/validate-compatibility.py:286-294 | BLOCKED_WITHOUT_REASON iff the status is `blocked` and no notes text contains `Blocked:`, and at most one such warning |
| RuleProperties.CheckedFeaturesAreCounted | sprint-context-generator/scripts/validate-compatibility.py:154-174 | every feature the per-feature rules check is among the features the uniqueness and counter checks use |
| RuleProperties.SeenIdsHoldsMetIds | sprint-context-generator/scripts/validate-compatibility.py:298-308 | the `ids` list holds a value iff it is non-empty and some feature scanned so far has it |
| RuleProperties.DuplicateIdCount | sprint-context-generator/scripts/validate-compatibility.py:296-308 | an id met k ≥ 1 times gives exactly k−1 DUPLICATE_ID errors, and an id never met gives none |
| RuleProperties.FlaggedAt | sprint-context-generator/scripts/validate-compatibility.py:299-307 | the i-th feature is flagged iff its id is non-empty and occurs among the features before it, so a first occurrence is never flagged |
| RuleProperties.CounterRuleStops | sprint-context-generator/scripts/validate-compatibility.py:312-327 | with a counter absent nothing is filed; with a non-integer counter exactly one INVALID_COUNTER and no warning |
| RuleProperties.CounterRuleCompares | sprint-context-generator/scripts/validate-compatibility.py:329-348 | with integer counters: no error, INCORRECT_TOTAL iff the feature count differs, INCORRECT_COMPLETED iff the complete count differs, nothing else |
| RuleProperties.CompletedMember | sprint-context-generator/scripts/validate-compatibility.py:332 | the completed list holds exactly the features whose status is `complete` |
| RuleProperties.EmptyDocumentVerdict | sprint-context-generator/scripts/validate-compatibility.py:152-162 | with no category and no feature, `project` set and both counters 0, the result is valid with NO_CATEGORIES alone |
| RuleProperties.EmptyTotalIsWarnedAndRejected | sprint-context-generator/scripts/validate-compatibility.py:312-327 | an empty `total` gives MISSING_TOTAL_ATTR and also INVALID_COUNTER, so the file is invalid |
| Repair.Indentation | sprint-context-generator/scripts/validate-compatibility.py:418 | the indentation of a level is a newline followed by two spaces per level and nothing else, and is blank |
| Repair.IndentXml | sprint-context-generator/scripts/validate-compatibility.py:416-430 | the recursive re-indentation, with its loop over the children, yields `Indented` |
| Repair.FillKeepsText | sprint-context-generator/scripts/validate-compatibility.py:420-423 | filling with blanks overwrites only a text that was absent or blank |
| Repair.IndentedReformats | sprint-context-generator/scripts/validate-compatibility.py:416-430 | re-indentation keeps every tag, attribute, child order and non-blank text and tail, and leaves blank ones blank |
| Repair.IndentedIdempotent | sprint-context-generator/scripts/validate-compatibility.py:416-430 | re-indenting an indented tree changes nothing |
| Repair.CountsOfReformatted | sprint-context-generator/scripts/validate-compatibility.py:395-397 | trees differing only in blank texts have the same feature and complete counts |
| Repair.AutoFixChangesOnlyCounters | sprint-context-generator/scripts/validate-compatibility.py:395-403 | the repair sets `total` and `completed` to the two counts, keeps every other attribute and the tag, and the children change only in blank text |
| Repair.AutoFixPassesCounterCheck | sprint-context-generator/scripts/validate-compatibility.py:384-404 | the counter check files nothing on the repaired tree |
| Repair.AutoFixIdempotent | sprint-context-generator/scripts/validate-compatibility.py:384-404 | repairing a repaired tree gives the same tree |
| Repair.AutoFixCounters | sprint-context-generator/scripts/validate-compatibility.py:384-413 | succeeds iff the file reads back and the write succeeds, and then writes exactly the repaired tree |
| RepairProperties.FeatureReportReformatted | sprint-context-generator/scripts/validate-compatibility.py:187-294 | a feature differing only in blank texts and tails gets the same findings |
| RepairProperties.FeatureRulesReportReformatted | sprint-context-generator/scripts/validate-compatibility.py:152-185 | the category and feature rules give the same findings on re-indented children |
| RepairProperties.DuplicateIdErrorsReformatted | sprint-context-generator/scripts/validate-compatibility.py:296-308 | the uniqueness scan gives the same errors on re-indented features |
| RepairProperties.RulesAfterFix | sprint-context-generator/scripts/validate-compatibility.py:399-403 | the category, feature and uniqueness rules give the repaired tree the same findings |
| RepairProperties.RevalidateErrorsAfterFix | sprint-context-generator/scripts/validate-compatibility.py:461 | validating the repaired tree again gives the earlier errors less the counter errors |
| RepairProperties.RevalidateWarningsAfterFix | sprint-context-generator/scripts/validate-compatibility.py:461 | with both counters present, validating again gives the earlier warnings less the counter warnings |
| RepairProperties.FixedStaysValid | sprint-context-generator/scripts/validate-compatibility.py:454-461 | a valid document stays valid after the repair, and its counter check is then clean |
| Cli.ErrorsOf | sprint-context-generator/scripts/validate-compatibility.py:455 | the filtered list holds exactly the findings of severity ERROR |
| Cli.CounterFindingsOf | sprint-context-generator/scripts/validate-compatibility.py:456 | the filtered list holds exactly the INCORRECT_TOTAL and INCORRECT_COMPLETED findings |
| Cli.CounterWarningsFromCounterCheck | sprint-context-generator/scripts/validate-compatibility.py:456 | a counter warning among the findings can only come from the counter check |
| Cli.CounterWarningsNeedCounters | sprint-context-generator/scripts/validate-compatibility.py:315-320 | the counter check warns only when both counters are present and non-empty |
| Cli.AutoFixGate | sprint-context-generator/scripts/validate-compatibility.py:454-458 | the repair is tried iff `--auto-fix` is given, the file is valid and some counter warning exists, because the error filter of a valid result is always empty |
| Cli.RepairLeavesOtherWarnings | sprint-context-generator/scripts/validate-compatibility.py:458-461 | an error-free document with a counter warning validates after the repair with its other warnings unchanged |
| Cli.RepairedFileRevalidates | sprint-context-generator/scripts/validate-compatibility.py:458-461 | when the repair is tried, validating the repaired file again is valid and reports the earlier findings less the counter warnings |
| Cli.MaybeAutoFix | sprint-context-generator/scripts/validate-compatibility.py:453-461 | a tree is written iff the repair is asked for, the first result is valid with no error and a counter warning, the file reads back and the write succeeds; the written tree is the repaired one, passes the counter check, and when the file was unchanged it revalidates as valid with the earlier findings less the counter warnings |
| Cli.Run | sprint-context-generator/scripts/validate-compatibility.py:433-463 | usage exit 1 without a path; otherwise exit 0 iff valid; a file is written iff the auto-fix decision holds and reading and writing succeed; the written tree passes the counter check and, for an unchanged file, revalidates |

## Left out

- Parsing and writing: `ET.parse`, the file-existence check and `tree.write` are not modelled. The parse outcome is the input `Loaded`, and the repair's second reading is a separate `reloaded` input. The write is the flag `writeOk` plus the tree that would be written. The XML declaration and the UTF-8 encoding are not modelled.
- Console output: `print_results`, the usage text and the progress messages of `main` and `auto_fix_counters` are not modelled. `Findings.Render` keeps the line format of `__str__`, including the icon and the `GLOBAL` fallback.
- `sys.exit` is the returned `exitCode`.
- Text.ParseInt: models `int()` as an optional sign and ASCII digits only. Surrounding whitespace, underscores and non-ASCII digits are not accepted. Python 3.11 and later also reject a numeral of more than 4300 digits (the default `sys.get_int_max_str_digits()`) with `ValueError`, which the validator reports as INVALID_COUNTER. The model accepts numerals of any length, so on such a counter it compares the value instead. Likewise `str()` of a count with more than 4300 digits raises inside `auto_fix_counters`; the model writes it.
- Rules.IsFeatureId: the regular expression `^FEAT-\d{3}$` is modelled as exactly `FEAT-` plus three ASCII digits. The match that `$` allows before a trailing newline and Unicode digits for `\d` are not modelled.
- Text.IsBlank: `str.strip` whitespace is taken as space, tab, newline, carriage return, vertical tab and form feed. Other Unicode whitespace is not modelled.
- Findings.Message: INVALID_STATUS and INVALID_PRIORITY list the accepted values by joining a Python `set`, whose iteration order is not fixed. The model lists them in a fixed order.
- Repair.IndentXml: `indent_xml` mutates the elements in place. The model rebuilds the tree as a value, since the tree is a datatype. Aliasing of elements is not modelled.
- Repair.AutoFixCounters: the attribute updates work on values, and `root.set` keeps the attribute order of the file. The model's attributes are a map, so attribute order is not modelled.
- Repair.AutoFixCounters: `tree.write` truncates the file before it serializes the tree, so a write that fails part-way can leave the file empty or partly written. The model does not describe the file after a failed write: `written == None` only means that no complete tree was written.
- Exceptions other than a failed read or write inside `auto_fix_counters` are not modelled.
