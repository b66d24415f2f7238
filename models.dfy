/**
 * The records of backend/models.py. Each pydantic model is a datatype with
 * every field mandatory; the dictionary a model is dumped to (and the
 * dictionaries the store and the user interface pass around) is a second
 * datatype whose fields are optional, `None` meaning "key absent".
 * `Parse...` is pydantic's validation of a dictionary, `Dump...` is
 * `model_dump()`.
 */
module Models {
  import opened Wrappers

  /** The three documented severity levels; the field itself is a free string. */
  const High: string := "High"
  const Medium: string := "Medium"
  const Low: string := "Low"

  /** One finding of a section audit. */
  datatype Issue = Issue(
    id: string,
    severity: string,
    issueDescription: string,
    recommendation: string,
    fixable: bool)

  /** An issue as a dictionary. `description` is not an `Issue` field, but the
      document review falls back to it when `issue_description` is empty. */
  datatype IssueDict = IssueDict(
    id: Option<string>,
    severity: Option<string>,
    issueDescription: Option<string>,
    description: Option<string>,
    recommendation: Option<string>,
    fixable: Option<bool>)
  {
    /** `{}`: the only falsy dictionary. */
    predicate IsEmpty() {
      id.None? && severity.None? && issueDescription.None? && description.None?
      && recommendation.None? && fixable.None?
    }
  }

  const EmptyIssueDict := IssueDict(None, None, None, None, None, None)

  /** The outcome of validating a dictionary against a model. */
  datatype Parsed<T> = Parsed(value: T) | ValidationError(field: string)

  function DumpIssue(i: Issue): IssueDict {
    IssueDict(Some(i.id), Some(i.severity), Some(i.issueDescription), None,
              Some(i.recommendation), Some(i.fixable))
  }

  /** `Issue(**d)`: all five fields are required; the first missing one is reported. */
  function ParseIssue(d: IssueDict): Parsed<Issue> {
    if d.id.None? then ValidationError("id")
    else if d.severity.None? then ValidationError("severity")
    else if d.issueDescription.None? then ValidationError("issue_description")
    else if d.recommendation.None? then ValidationError("recommendation")
    else if d.fixable.None? then ValidationError("fixable")
    else Parsed(Issue(d.id.value, d.severity.value, d.issueDescription.value,
                      d.recommendation.value, d.fixable.value))
  }

  /** Validation succeeds exactly when none of the five fields is missing. */
  lemma ParseIssueAcceptsIffComplete(d: IssueDict)
    ensures ParseIssue(d).Parsed? <==>
      d.id.Some? && d.severity.Some? && d.issueDescription.Some?
      && d.recommendation.Some? && d.fixable.Some?
  {
  }

  /** Dumping an issue keeps every field value: validating the dump gives the issue back. */
  lemma IssueRoundTrip(i: Issue)
    ensures ParseIssue(DumpIssue(i)) == Parsed(i)
    ensures !DumpIssue(i).IsEmpty()
  {
  }

  /** A dictionary that validates is the dump of what it validates to, up to
      the extra `description` key. */
  lemma ParsedIssueDumpsBack(d: IssueDict)
    requires ParseIssue(d).Parsed?
    ensures DumpIssue(ParseIssue(d).value) == d.(description := None)
  {
  }

  function DumpIssues(s: seq<Issue>): (r: seq<IssueDict>)
    ensures |r| == |s|
    ensures forall k :: 0 <= k < |s| ==> r[k] == DumpIssue(s[k]) && ParseIssue(r[k]) == Parsed(s[k])
  {
    if s == [] then [] else [DumpIssue(s[0])] + DumpIssues(s[1..])
  }

  /** The verdict of one section audit. */
  datatype AuditResponse = AuditResponse(isCompliant: bool, issues: seq<Issue>)

  /** An audit result as a dictionary: only the two keys that are read. */
  datatype AuditRecord = AuditRecord(isCompliant: Option<bool>, issues: Option<seq<IssueDict>>) {
    predicate IsEmpty() {
      isCompliant.None? && issues.None?
    }
  }

  /** `{}`, stored after an Auto-Fix to force a new audit. */
  const EmptyAuditRecord := AuditRecord(None, None)

  function DumpAuditResponse(a: AuditResponse): AuditRecord {
    AuditRecord(Some(a.isCompliant), Some(DumpIssues(a.issues)))
  }

  function ParseIssues(s: seq<IssueDict>): Parsed<seq<Issue>> {
    if s == [] then Parsed([])
    else match ParseIssue(s[0])
      case ValidationError(f) => ValidationError(f)
      case Parsed(i) =>
        match ParseIssues(s[1..])
        case ValidationError(f) => ValidationError(f)
        case Parsed(rest) => Parsed([i] + rest)
  }

  /** `AuditResponse(**d)`: `is_compliant` is required, `issues` defaults to `[]`. */
  function ParseAuditResponse(r: AuditRecord): Parsed<AuditResponse> {
    if r.isCompliant.None? then ValidationError("is_compliant")
    else match ParseIssues(r.issues.GetOr([]))
      case ValidationError(f) => ValidationError(f)
      case Parsed(parsed) => Parsed(AuditResponse(r.isCompliant.value, parsed))
  }

  lemma {:induction false} IssuesRoundTrip(s: seq<Issue>)
    ensures ParseIssues(DumpIssues(s)) == Parsed(s)
  {
    if s != [] {
      assert DumpIssues(s)[1..] == DumpIssues(s[1..]);
      IssuesRoundTrip(s[1..]);
      assert s == [s[0]] + s[1..];
    }
  }

  /** An audit response survives dump and re-validation unchanged. */
  lemma AuditResponseRoundTrip(a: AuditResponse)
    ensures ParseAuditResponse(DumpAuditResponse(a)) == Parsed(a)
  {
    IssuesRoundTrip(a.issues);
  }

  /** Leaving `issues` out gives the empty list. */
  lemma AuditResponseIssuesDefault(b: bool)
    ensures ParseAuditResponse(AuditRecord(Some(b), None)) == Parsed(AuditResponse(b, []))
  {
  }

  /** A cross-section inconsistency; `related_sections` names sections by title. */
  datatype GlobalIssue = GlobalIssue(id: string, title: string, description: string, relatedSections: seq<string>)

  datatype GlobalIssueRecord = GlobalIssueRecord(
    id: Option<string>,
    title: Option<string>,
    description: Option<string>,
    relatedSections: Option<seq<string>>)

  /** The verdict of the whole-document consistency check. */
  datatype ConsistencyResponse = ConsistencyResponse(isConsistent: bool, globalIssues: seq<GlobalIssue>)

  datatype ConsistencyRecord = ConsistencyRecord(
    isConsistent: Option<bool>,
    globalIssues: Option<seq<GlobalIssueRecord>>)
  {
    predicate IsEmpty() {
      isConsistent.None? && globalIssues.None?
    }
  }

  const EmptyConsistencyRecord := ConsistencyRecord(None, None)

  function DumpGlobalIssue(g: GlobalIssue): GlobalIssueRecord {
    GlobalIssueRecord(Some(g.id), Some(g.title), Some(g.description), Some(g.relatedSections))
  }

  /** `GlobalIssue(**d)`: all four fields are required; `related_sections` may be `[]`. */
  function ParseGlobalIssue(d: GlobalIssueRecord): Parsed<GlobalIssue> {
    if d.id.None? then ValidationError("id")
    else if d.title.None? then ValidationError("title")
    else if d.description.None? then ValidationError("description")
    else if d.relatedSections.None? then ValidationError("related_sections")
    else Parsed(GlobalIssue(d.id.value, d.title.value, d.description.value, d.relatedSections.value))
  }

  function ParseGlobalIssues(s: seq<GlobalIssueRecord>): Parsed<seq<GlobalIssue>> {
    if s == [] then Parsed([])
    else match ParseGlobalIssue(s[0])
      case ValidationError(f) => ValidationError(f)
      case Parsed(g) =>
        match ParseGlobalIssues(s[1..])
        case ValidationError(f) => ValidationError(f)
        case Parsed(rest) => Parsed([g] + rest)
  }

  /** `ConsistencyResponse(**d)`: `is_consistent` is required, `global_issues` defaults to `[]`. */
  function ParseConsistencyResponse(r: ConsistencyRecord): Parsed<ConsistencyResponse> {
    if r.isConsistent.None? then ValidationError("is_consistent")
    else match ParseGlobalIssues(r.globalIssues.GetOr([]))
      case ValidationError(f) => ValidationError(f)
      case Parsed(gs) => Parsed(ConsistencyResponse(r.isConsistent.value, gs))
  }

  function DumpGlobalIssues(s: seq<GlobalIssue>): (r: seq<GlobalIssueRecord>)
    ensures |r| == |s|
    ensures forall k :: 0 <= k < |s| ==> r[k] == DumpGlobalIssue(s[k]) && ParseGlobalIssue(r[k]) == Parsed(s[k])
  {
    if s == [] then [] else [DumpGlobalIssue(s[0])] + DumpGlobalIssues(s[1..])
  }

  function DumpConsistencyResponse(c: ConsistencyResponse): ConsistencyRecord {
    ConsistencyRecord(Some(c.isConsistent), Some(DumpGlobalIssues(c.globalIssues)))
  }

  lemma {:induction false} GlobalIssuesRoundTrip(s: seq<GlobalIssue>)
    ensures ParseGlobalIssues(DumpGlobalIssues(s)) == Parsed(s)
  {
    if s != [] {
      assert DumpGlobalIssues(s)[1..] == DumpGlobalIssues(s[1..]);
      GlobalIssuesRoundTrip(s[1..]);
      assert s == [s[0]] + s[1..];
    }
  }

  /** A consistency response survives dump and re-validation unchanged. */
  lemma ConsistencyRoundTrip(c: ConsistencyResponse)
    ensures ParseConsistencyResponse(DumpConsistencyResponse(c)) == Parsed(c)
  {
    GlobalIssuesRoundTrip(c.globalIssues);
  }

  /** Leaving `global_issues` out gives the empty list; a global issue with no
      related sections is valid. */
  lemma ConsistencyDefaults(b: bool, id: string, title: string, desc: string)
    ensures ParseConsistencyResponse(ConsistencyRecord(Some(b), None)) == Parsed(ConsistencyResponse(b, []))
    ensures ParseGlobalIssue(GlobalIssueRecord(Some(id), Some(title), Some(desc), Some([])))
            == Parsed(GlobalIssue(id, title, desc, []))
  {
  }

  /** The rewritten content returned by the fixer's model call. */
  datatype FixResponse = FixResponse(fixedContent: string)

  /** The state carried through the audit/fix graph (`AgentState`). */
  datatype AgentState = AgentState(
    sectionTitle: string,
    criteria: string,
    templateStructure: string,
    userContent: string,
    issues: seq<IssueDict>,
    isCompliant: bool,
    targetIssue: Option<IssueDict>)

  /** Truthiness of `state.get("target_issue")`: present and not `{}`. */
  predicate TargetSet(t: Option<IssueDict>) {
    t.Some? && !t.value.IsEmpty()
  }

  /** What a structured model call gives back: a schema instance, or the text
      of the exception it raised. */
  datatype LlmOutcome<T> = Answered(value: T) | Raised(error: string)
}
