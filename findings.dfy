/**
 * A validation finding (`ValidationError`): the feature it concerns, its type code, its
 * message and its severity, with the console rendering and the message of every finding
 * type the validator emits.
 */
module Findings {
  import opened Text

  datatype Severity = Error | Warning | Info

  /** The `error_type` strings of the source, one constructor each. */
  datatype Code =
    | FileNotFound | XmlSyntaxError | ParseError | InvalidRoot
    | MissingProjectAttr | MissingTotalAttr | MissingCompletedAttr
    | NoCategories | MissingCategoryName | EmptyCategory
    | MissingId | InvalidIdFormat | MissingStatus | InvalidStatus
    | MissingPriority | InvalidPriority | MissingDescription | EmptyDescription
    | MissingSteps | EmptySteps | EmptyStep | MissingNotes | BlockedWithoutReason
    | DuplicateId | InvalidCounter | IncorrectTotal | IncorrectCompleted

  /**
   * The values a message interpolates: a name (a path, a parser message, a tag, an id, an
   * attribute value), a step number, or an actual and a stated counter.
   */
  datatype Detail = NoDetail | Named(name: string) | StepNumber(n: nat) | Counter(actual: nat, stated: int)

  /**
   * An empty `featureId` stands for a finding about the whole document. The message text is
   * determined by the code and the detail; `Message` spells it out.
   */
  datatype Finding = Finding(featureId: string, code: Code, detail: Detail, severity: Severity)

  function SeverityName(s: Severity): string {
    match s
    case Error => "ERROR"
    case Warning => "WARNING"
    case Info => "INFO"
  }

  function Icon(s: Severity): string {
    match s
    case Error => "\U{274C}"
    case Warning => "\U{26A0}\U{FE0F}"
    case Info => "\U{2139}\U{FE0F}"
  }

  /** The subject printed for a finding: its feature id, or `GLOBAL` when that is empty. */
  function Subject(f: Finding): string {
    if f.featureId == "" then "GLOBAL" else f.featureId
  }

  /** `ValidationError.__str__`. */
  function Render(f: Finding): string {
    Icon(f.severity) + " [" + SeverityName(f.severity) + "] " + Subject(f) + ": " + Message(f.code, f.detail)
  }

  /**
   * A finding renders exactly as if its subject were the literal `GLOBAL` precisely when its
   * feature id is empty (or is `GLOBAL` itself).
   */
  lemma RenderGlobalFallback(f: Finding)
    ensures Render(f) == Render(f.(featureId := "GLOBAL")) <==> f.featureId == "" || f.featureId == "GLOBAL"
  {
    var g := f.(featureId := "GLOBAL");
    var prefix := Icon(f.severity) + " [" + SeverityName(f.severity) + "] ";
    var suffix := ": " + Message(f.code, f.detail);
    assert Render(f) == prefix + Subject(f) + suffix;
    assert Render(g) == prefix + "GLOBAL" + suffix;
    if Render(f) == Render(g) {
      assert |Subject(f)| == 6;
      assert Subject(f) == Render(f)[|prefix|..|prefix| + 6];
      assert "GLOBAL" == Render(g)[|prefix|..|prefix| + 6];
    }
  }

  /** The findings the validator files as errors and as warnings, each list in order. */
  datatype Report = Report(errors: seq<Finding>, warnings: seq<Finding>) {
    /** Appending the findings of a later rule. */
    function Then(next: Report): Report {
      Report(errors + next.errors, warnings + next.warnings)
    }
  }

  predicate AllOf(s: seq<Finding>, severity: Severity) {
    forall k :: 0 <= k < |s| ==> s[k].severity == severity
  }

  /** Every error has severity ERROR and every warning has severity WARNING. */
  predicate Classified(r: Report) {
    AllOf(r.errors, Error) && AllOf(r.warnings, Warning)
  }

  lemma AppendAssoc(a: seq<Finding>, b: seq<Finding>, c: seq<Finding>)
    ensures a + b + c == a + (b + c)
  {
  }

  lemma AllOfAppend(a: seq<Finding>, b: seq<Finding>, severity: Severity)
    requires AllOf(a, severity) && AllOf(b, severity)
    ensures AllOf(a + b, severity)
  {
    forall k | 0 <= k < |a + b| ensures (a + b)[k].severity == severity {
      if k >= |a| { assert (a + b)[k] == b[k - |a|]; }
    }
  }

  lemma ClassifiedThen(a: Report, b: Report)
    requires Classified(a) && Classified(b)
    ensures Classified(a.Then(b))
  {
    AllOfAppend(a.errors, b.errors, Error);
    AllOfAppend(a.warnings, b.warnings, Warning);
  }

  function Err(id: string, code: Code, detail: Detail): (f: Finding)
    ensures f.severity == Error
  {
    Finding(id, code, detail, Error)
  }

  function Warn(id: string, code: Code, detail: Detail): (f: Finding)
    ensures f.severity == Warning
  {
    Finding(id, code, detail, Warning)
  }

  // The findings about the whole document carry an empty feature id.

  function FileNotFoundError(path: string): Finding { Err("", FileNotFound, Named(path)) }
  function SyntaxError(detail: string): Finding { Err("", XmlSyntaxError, Named(detail)) }
  function OtherParseError(detail: string): Finding { Err("", ParseError, Named(detail)) }
  function InvalidRootError(tag: string): Finding { Err("", InvalidRoot, Named(tag)) }
  function MissingProjectWarning(): Finding { Warn("", MissingProjectAttr, NoDetail) }
  function MissingTotalWarning(): Finding { Warn("", MissingTotalAttr, NoDetail) }
  function MissingCompletedWarning(): Finding { Warn("", MissingCompletedAttr, NoDetail) }
  function NoCategoriesWarning(): Finding { Warn("", NoCategories, NoDetail) }
  function MissingCategoryNameError(): Finding { Err("", MissingCategoryName, NoDetail) }
  function EmptyCategoryWarning(name: string): Finding { Warn("", EmptyCategory, Named(name)) }
  function InvalidCounterError(): Finding { Err("", InvalidCounter, NoDetail) }
  function IncorrectTotalWarning(actual: nat, stated: int): Finding { Warn("", IncorrectTotal, Counter(actual, stated)) }
  function IncorrectCompletedWarning(actual: nat, stated: int): Finding { Warn("", IncorrectCompleted, Counter(actual, stated)) }

  // The findings about one feature carry its id (`UNKNOWN` when the attribute is absent).

  function MissingIdError(id: string): Finding { Err(id, MissingId, NoDetail) }
  function InvalidIdError(id: string): Finding { Err(id, InvalidIdFormat, Named(id)) }
  function MissingStatusError(id: string): Finding { Err(id, MissingStatus, NoDetail) }
  function InvalidStatusError(id: string, status: string): Finding { Err(id, InvalidStatus, Named(status)) }
  function MissingPriorityError(id: string): Finding { Err(id, MissingPriority, NoDetail) }
  function InvalidPriorityError(id: string, priority: string): Finding { Err(id, InvalidPriority, Named(priority)) }
  function MissingDescriptionError(id: string): Finding { Err(id, MissingDescription, NoDetail) }
  function EmptyDescriptionError(id: string): Finding { Err(id, EmptyDescription, NoDetail) }
  function MissingStepsError(id: string): Finding { Err(id, MissingSteps, NoDetail) }
  function EmptyStepsError(id: string): Finding { Err(id, EmptySteps, NoDetail) }

  /** The finding for the `n`-th step (counting from 1) when it is blank. */
  function EmptyStepError(id: string, n: nat): Finding { Err(id, EmptyStep, StepNumber(n)) }

  function MissingNotesWarning(id: string): Finding { Warn(id, MissingNotes, NoDetail) }
  function BlockedWithoutReasonWarning(id: string): Finding { Warn(id, BlockedWithoutReason, NoDetail) }
  function DuplicateIdError(id: string): Finding { Err(id, DuplicateId, Named(id)) }

  /** The text of a name detail (empty for any other detail). */
  function NameOf(d: Detail): string {
    if d.Named? then d.name else ""
  }

  /** The message text of each finding type, with its interpolated values. */
  function Message(code: Code, detail: Detail): string {
    var name := NameOf(detail);
    match code
    case FileNotFound => "Arquivo não encontrado: " + name
    case XmlSyntaxError => "XML malformado: " + name
    case ParseError => "Erro ao fazer parse do arquivo: " + name
    case InvalidRoot => "Elemento raiz deve ser <features>, encontrado: <" + name + ">"
    case MissingProjectAttr => "Atributo 'project' não encontrado em <features>. Recomendado para organização."
    case MissingTotalAttr => "Atributo 'total' não encontrado em <features>. Útil para rastreamento."
    case MissingCompletedAttr => "Atributo 'completed' não encontrado em <features>. Útil para rastreamento."
    case NoCategories => "Nenhuma <category> encontrada. Features devem estar organizadas em categorias."
    case MissingCategoryName => "Tag <category> sem atributo 'name'"
    case EmptyCategory => "Categoria '" + name + "' não contém nenhuma <feature>"
    case MissingId => "Feature sem atributo 'id'"
    case InvalidIdFormat => "ID '" + name + "' inválido. Formato esperado: FEAT-XXX (3 dígitos, ex: FEAT-001)"
    case MissingStatus => "Feature sem atributo 'status'"
    case InvalidStatus => "Status '" + name + "' inválido. Valores aceitos: pending, in-progress, complete, blocked"
    case MissingPriority => "Feature sem atributo 'priority'"
    case InvalidPriority => "Priority '" + name + "' inválida. Valores aceitos: high, medium, low"
    case MissingDescription => "Feature sem tag <description>"
    case EmptyDescription => "Tag <description> está vazia"
    case MissingSteps => "Feature sem tag <steps>"
    case EmptySteps => "Tag <steps> não contém nenhum <step>"
    case EmptyStep => "Step #" + NatToString(if detail.StepNumber? then detail.n else 0) + " está vazio"
    case MissingNotes => "Feature sem tag <notes>. Recomendado para referências e contexto adicional."
    case BlockedWithoutReason => "Feature marcada como 'blocked' mas sem razão explícita em <notes>"
    case DuplicateId => "ID duplicado: '" + name + "' aparece mais de uma vez"
    case InvalidCounter => "Atributos 'total' e 'completed' devem ser números inteiros"
    case IncorrectTotal =>
      if detail.Counter? then
        "Atributo 'total' está incorreto. Esperado: " + NatToString(detail.actual) + ", Encontrado: " + IntToString(detail.stated)
      else ""
    case IncorrectCompleted =>
      if detail.Counter? then
        "Atributo 'completed' está incorreto. Esperado: " + NatToString(detail.actual) + ", Encontrado: " + IntToString(detail.stated)
      else ""
  }

  /** The step number is visible in the message: different steps give different messages. */
  lemma EmptyStepMessagesDiffer(m: nat, n: nat)
    requires m != n
    ensures Message(EmptyStep, StepNumber(m)) != Message(EmptyStep, StepNumber(n))
  {
    var a, b := NatToString(m), NatToString(n);
    var msgA, msgB := Message(EmptyStep, StepNumber(m)), Message(EmptyStep, StepNumber(n));
    assert msgA == "Step #" + a + " está vazio";
    assert msgB == "Step #" + b + " está vazio";
    assert a != b;
    if |a| == |b| {
      assert msgA[6..6 + |a|] == a;
      assert msgB[6..6 + |b|] == b;
    }
  }
}
