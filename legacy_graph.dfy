/**
 * old_but_gold/backend_graph.py: the earlier auditor/fixer graph. Its issue
 * record has no `fixable` field, its state calls the section text
 * `document_text`, and its failure paths differ from backend/graph/nodes.py.
 * The language model is a parameter, as in the current nodes.
 */
module LegacyGraph {
  import opened Wrappers
  import opened Text
  import opened Models
  import opened GraphRuntime

  /** The legacy `Issue`: four required fields, no `fixable`. */
  datatype LegacyIssue = LegacyIssue(
    id: string, severity: string, issueDescription: string, recommendation: string)

  /** A legacy issue as a dictionary; `None` means "key absent". */
  datatype LegacyIssueDict = LegacyIssueDict(
    id: Option<string>, severity: Option<string>,
    issueDescription: Option<string>, recommendation: Option<string>)
  {
    /** `{}`: the only falsy dictionary. */
    predicate IsEmpty() {
      id.None? && severity.None? && issueDescription.None? && recommendation.None?
    }
  }

  datatype LegacyAuditResponse = LegacyAuditResponse(isCompliant: bool, issues: seq<LegacyIssue>)

  datatype LegacyFixResponse = LegacyFixResponse(fixedContent: string)

  /** The legacy `AgentState`. */
  datatype LegacyState = LegacyState(
    sectionTitle: string,
    documentText: string,
    criteria: string,
    issues: seq<LegacyIssueDict>,
    isCompliant: bool,
    targetIssue: Option<LegacyIssueDict>)

  function DumpLegacyIssue(i: LegacyIssue): LegacyIssueDict {
    LegacyIssueDict(Some(i.id), Some(i.severity), Some(i.issueDescription), Some(i.recommendation))
  }

  function ParseLegacyIssue(d: LegacyIssueDict): Parsed<LegacyIssue> {
    if d.id.None? then ValidationError("id")
    else if d.severity.None? then ValidationError("severity")
    else if d.issueDescription.None? then ValidationError("issue_description")
    else if d.recommendation.None? then ValidationError("recommendation")
    else Parsed(LegacyIssue(d.id.value, d.severity.value, d.issueDescription.value, d.recommendation.value))
  }

  function DumpLegacyIssues(issues: seq<LegacyIssue>): (ds: seq<LegacyIssueDict>)
    ensures |ds| == |issues|
    ensures forall k :: 0 <= k < |issues| ==> ds[k] == DumpLegacyIssue(issues[k])
  {
    if issues == [] then [] else [DumpLegacyIssue(issues[0])] + DumpLegacyIssues(issues[1..])
  }

  /** Dumping a legacy issue keeps every field. */
  lemma LegacyIssueRoundTrip(i: LegacyIssue)
    ensures ParseLegacyIssue(DumpLegacyIssue(i)) == Parsed(i)
  {
  }

  /** The same dictionary seen with the current issue's keys. */
  function AsIssueDict(d: LegacyIssueDict): IssueDict {
    IssueDict(d.id, d.severity, d.issueDescription, None, d.recommendation, None)
  }

  /** A legacy issue carries no `fixable` key: the current `Issue` model
      refuses it for exactly that key. */
  lemma LegacyIssueLacksFixable(i: LegacyIssue)
    ensures ParseIssue(AsIssueDict(DumpLegacyIssue(i))) == ValidationError("fixable")
  {
  }

  /** The legacy fail-fast test: empty, or under five characters once trimmed. */
  predicate LegacyTooShort(doc: string) {
    doc == [] || |Trim(doc)| < 5
  }

  /** The issue reported for empty content. */
  const LegacyEmptyIssue := LegacyIssue("0", High, "Content is empty.", "Please fill in the required content.")

  /** The inputs the legacy auditor prompt is filled with. */
  datatype LegacyAuditRequest = LegacyAuditRequest(sectionTitle: string, criteria: string, documentText: string)

  /** The legacy auditor's reply: `{"issues": ..., "is_compliant": ...}`. */
  datatype LegacyAuditUpdate = LegacyAuditUpdate(issues: seq<LegacyIssueDict>, isCompliant: bool)

  /** Legacy `auditor_node`. */
  function LegacyAuditorNode(state: LegacyState, llm: LegacyAuditRequest -> LlmOutcome<LegacyAuditResponse>): LegacyAuditUpdate {
    if LegacyTooShort(state.documentText) then LegacyAuditUpdate([DumpLegacyIssue(LegacyEmptyIssue)], false)
    else match llm(LegacyAuditRequest(state.sectionTitle, state.criteria, state.documentText))
      case Answered(resp) => LegacyAuditUpdate(if resp.issues == [] then [] else DumpLegacyIssues(resp.issues), resp.isCompliant)
      case Raised(_) => LegacyAuditUpdate([], false)
  }

  /** Short content gives the single "High" issue "0", not compliant, and
      the model is not consulted. */
  lemma LegacyAuditorFailFast(state: LegacyState,
                              llm1: LegacyAuditRequest -> LlmOutcome<LegacyAuditResponse>,
                              llm2: LegacyAuditRequest -> LlmOutcome<LegacyAuditResponse>)
    requires LegacyTooShort(state.documentText)
    ensures LegacyAuditorNode(state, llm1) == LegacyAuditorNode(state, llm2)
    ensures var u := LegacyAuditorNode(state, llm1);
      !u.isCompliant && |u.issues| == 1
      && ParseLegacyIssue(u.issues[0]) == Parsed(LegacyIssue("0", "High", "Content is empty.", "Please fill in the required content."))
  {
    LegacyIssueRoundTrip(LegacyEmptyIssue);
  }

  /** Content of at least five non-blank characters is sent to the model;
      any blank text is caught by the test. */
  lemma LegacyTooShortCases(doc: string)
    ensures LegacyTooShort(doc) <==> |Trim(doc)| < 5
    ensures AllSpace(doc) ==> LegacyTooShort(doc)
  {
    if AllSpace(doc) { TrimEmptyIffBlank(doc); }
  }

  /** An answer is kept: its verdict and its issues, one dictionary per
      issue in order, each validating back to that issue. */
  lemma LegacyAuditorKeepsAnswer(state: LegacyState, llm: LegacyAuditRequest -> LlmOutcome<LegacyAuditResponse>,
                                 resp: LegacyAuditResponse)
    requires !LegacyTooShort(state.documentText)
    requires llm(LegacyAuditRequest(state.sectionTitle, state.criteria, state.documentText)) == Answered(resp)
    ensures var u := LegacyAuditorNode(state, llm);
      u.isCompliant == resp.isCompliant && |u.issues| == |resp.issues|
      && forall k :: 0 <= k < |resp.issues| ==> ParseLegacyIssue(u.issues[k]) == Parsed(resp.issues[k])
  {
    forall k | 0 <= k < |resp.issues|
      ensures ParseLegacyIssue(LegacyAuditorNode(state, llm).issues[k]) == Parsed(resp.issues[k])
    {
      LegacyIssueRoundTrip(resp.issues[k]);
    }
  }

  /** A failing call leaves no issues and a non-compliant verdict. */
  lemma LegacyAuditorFallback(state: LegacyState, llm: LegacyAuditRequest -> LlmOutcome<LegacyAuditResponse>)
    requires !LegacyTooShort(state.documentText)
    requires llm(LegacyAuditRequest(state.sectionTitle, state.criteria, state.documentText)).Raised?
    ensures LegacyAuditorNode(state, llm) == LegacyAuditUpdate([], false)
  {
  }

  /** The legacy fixer prompt; a missing key is formatted as "None". */
  datatype LegacyFixRequest = LegacyFixRequest(documentText: string, issueDescription: string, recommendation: string)

  /** How an f-string formats `dict.get(key)`. */
  function Formatted(v: Option<string>): string {
    match v
    case Some(s) => s
    case None => "None"
  }

  /** The legacy fixer's reply: `{"document_text": ...}`, plus
      `"target_issue": None` when `clearsTarget` holds. */
  datatype LegacyFixUpdate = LegacyFixUpdate(documentText: string, clearsTarget: bool)

  predicate LegacyTargetSet(t: Option<LegacyIssueDict>) {
    t.Some? && !t.value.IsEmpty()
  }

  function LegacyFixRequestFor(state: LegacyState): LegacyFixRequest
    requires LegacyTargetSet(state.targetIssue)
  {
    var issue := state.targetIssue.value;
    LegacyFixRequest(state.documentText, Formatted(issue.issueDescription), Formatted(issue.recommendation))
  }

  /** Legacy `fixer_node`. */
  function LegacyFixerNode(state: LegacyState, llm: LegacyFixRequest -> LlmOutcome<LegacyFixResponse>): LegacyFixUpdate {
    if !LegacyTargetSet(state.targetIssue) then LegacyFixUpdate(state.documentText, false)
    else match llm(LegacyFixRequestFor(state))
      case Answered(resp) => LegacyFixUpdate(resp.fixedContent, true)
      case Raised(_) => LegacyFixUpdate(state.documentText, false)
  }

  /** With no issue the text comes back unchanged and the model is not
      consulted; otherwise the target is cleared exactly when the model
      answered, the text then being its rewrite and else the original. */
  lemma LegacyFixerOutcome(state: LegacyState, llm1: LegacyFixRequest -> LlmOutcome<LegacyFixResponse>,
                           llm2: LegacyFixRequest -> LlmOutcome<LegacyFixResponse>)
    ensures !LegacyTargetSet(state.targetIssue) ==>
      LegacyFixerNode(state, llm1) == LegacyFixerNode(state, llm2) == LegacyFixUpdate(state.documentText, false)
    ensures var u := LegacyFixerNode(state, llm1);
      (u.clearsTarget <==> LegacyTargetSet(state.targetIssue) && llm1(LegacyFixRequestFor(state)).Answered?)
      && (u.clearsTarget ==> u.documentText == llm1(LegacyFixRequestFor(state)).value.fixedContent)
      && (!u.clearsTarget ==> u.documentText == state.documentText)
  {
  }

  /** The prompt carries the issue's texts, or "None" for a missing key. */
  lemma LegacyFixPrompt(state: LegacyState)
    requires LegacyTargetSet(state.targetIssue)
    ensures var req := LegacyFixRequestFor(state); var issue := state.targetIssue.value;
      req.documentText == state.documentText
      && (issue.issueDescription.Some? ==> req.issueDescription == issue.issueDescription.value)
      && (issue.issueDescription.None? ==> req.issueDescription == "None")
      && (issue.recommendation.Some? ==> req.recommendation == issue.recommendation.value)
      && (issue.recommendation.None? ==> req.recommendation == "None")
  {
  }

  datatype LegacyNode = LegacyAuditor | LegacyFixer

  /** Legacy `route_request`. */
  function LegacyRouteRequest(state: LegacyState): string {
    if LegacyTargetSet(state.targetIssue) then "fixer" else "auditor"
  }

  /** The path map of the conditional entry point. */
  function LegacyEntryMap(name: string): Option<LegacyNode> {
    if name == "auditor" then Some(LegacyAuditor)
    else if name == "fixer" then Some(LegacyFixer)
    else None
  }

  /** The route depends only on the target issue: "fixer" exactly when it is
      a non-empty dictionary, and the label always names a node. */
  lemma LegacyRouteCases(s1: LegacyState, s2: LegacyState)
    ensures s1.targetIssue == s2.targetIssue ==> LegacyRouteRequest(s1) == LegacyRouteRequest(s2)
    ensures LegacyRouteRequest(s1) == "fixer" <==> s1.targetIssue.Some? && !s1.targetIssue.value.IsEmpty()
    ensures LegacyRouteRequest(s1) != "fixer" ==> LegacyRouteRequest(s1) == "auditor"
    ensures LegacyEntryMap(LegacyRouteRequest(s1)).Some?
  {
  }

  function LegacyEdge(n: LegacyNode): Step<LegacyNode> {
    Stop
  }

  function LegacyApply(n: LegacyNode, state: LegacyState,
                       auditLlm: LegacyAuditRequest -> LlmOutcome<LegacyAuditResponse>,
                       fixLlm: LegacyFixRequest -> LlmOutcome<LegacyFixResponse>): LegacyState
  {
    match n
    case LegacyAuditor =>
      var u := LegacyAuditorNode(state, auditLlm);
      state.(issues := u.issues, isCompliant := u.isCompliant)
    case LegacyFixer =>
      var u := LegacyFixerNode(state, fixLlm);
      state.(documentText := u.documentText, targetIssue := if u.clearsTarget then None else state.targetIssue)
  }

  /** `graph.invoke(inputs)` of the legacy graph. */
  function LegacyInvoke(inputs: LegacyState,
                        auditLlm: LegacyAuditRequest -> LlmOutcome<LegacyAuditResponse>,
                        fixLlm: LegacyFixRequest -> LlmOutcome<LegacyFixResponse>): Option<(LegacyState, seq<LegacyNode>)>
  {
    match LegacyEntryMap(LegacyRouteRequest(inputs))
    case None => None
    case Some(first) =>
      Run(inputs, Go(first), (n, s) => LegacyApply(n, s, auditLlm, fixLlm), LegacyEdge, RecursionLimit)
  }

  /** One node runs, the routed one, and then the graph stops. */
  lemma LegacyInvokeRunsOneNode(inputs: LegacyState,
                                auditLlm: LegacyAuditRequest -> LlmOutcome<LegacyAuditResponse>,
                                fixLlm: LegacyFixRequest -> LlmOutcome<LegacyFixResponse>)
    ensures var n := if LegacyTargetSet(inputs.targetIssue) then LegacyFixer else LegacyAuditor;
      LegacyInvoke(inputs, auditLlm, fixLlm) == Some((LegacyApply(n, inputs, auditLlm, fixLlm), [n]))
  {
    var n := if LegacyTargetSet(inputs.targetIssue) then LegacyFixer else LegacyAuditor;
    RunSingleNode(inputs, n, (n, s) => LegacyApply(n, s, auditLlm, fixLlm), LegacyEdge, RecursionLimit);
  }
}
