/**
 * The two agents of backend/graph/nodes.py. The language model is a
 * parameter: a function from the filled-in prompt to the structured answer or
 * the text of the exception the call raised. Each node returns the keys it
 * writes back into the graph state.
 */
module Nodes {
  import opened Wrappers
  import opened Text
  import opened Models

  /** The inputs the auditor prompt is filled with. */
  datatype AuditRequest = AuditRequest(
    sectionTitle: string, criteria: string, templateStructure: string, userContent: string)

  /** The inputs the fixer prompt is filled with. */
  datatype FixRequest = FixRequest(
    templateStructure: string, userContent: string, issueDescription: string, recommendation: string)

  /** The auditor's reply: `{"issues": ..., "is_compliant": ...}`. */
  datatype AuditUpdate = AuditUpdate(issues: seq<IssueDict>, isCompliant: bool)

  /** The fixer's reply: `{"user_content": ...}`, plus `"target_issue": None`
      when `clearsTarget` holds. */
  datatype FixUpdate = FixUpdate(userContent: string, clearsTarget: bool)

  /** The fail-fast test of the auditor. */
  predicate TooShort(content: string) {
    content == [] || |Trim(content)| < 2
  }

  /** The issue reported for blank content; the model cannot fix it. */
  const EmptyContentIssue := Issue("0", High, "Content is empty.",
                                   "Please fill in the section using the template provided.", false)

  /** The issue reported when the model call raised. */
  const AuditFailedIssue := Issue("err", High, "AI Audit Service Failed.", "Please try again.", false)

  function AuditRequestFor(state: AgentState): AuditRequest {
    AuditRequest(state.sectionTitle, state.criteria, state.templateStructure, state.userContent)
  }

  /** `auditor_node`. */
  function AuditorNode(state: AgentState, llm: AuditRequest -> LlmOutcome<AuditResponse>): AuditUpdate {
    if TooShort(state.userContent) then AuditUpdate([DumpIssue(EmptyContentIssue)], false)
    else match llm(AuditRequestFor(state))
      case Answered(resp) => AuditUpdate(DumpIssues(resp.issues), resp.isCompliant)
      case Raised(_) => AuditUpdate([DumpIssue(AuditFailedIssue)], false)
  }

  /** The `not content` half of the test is implied by the length half, and
      any all-whitespace text is caught. */
  lemma TooShortIsTrimLength(content: string)
    ensures TooShort(content) <==> |Trim(content)| < 2
    ensures AllSpace(content) ==> TooShort(content)
  {
    if AllSpace(content) { TrimEmptyIffBlank(content); }
  }

  /** Blank or one-character content is rejected without asking the model:
      the answer does not depend on it, is the single unfixable "High"
      issue with id "0", and is not compliant. */
  lemma AuditorFailFast(state: AgentState, llm1: AuditRequest -> LlmOutcome<AuditResponse>,
                        llm2: AuditRequest -> LlmOutcome<AuditResponse>)
    requires TooShort(state.userContent)
    ensures AuditorNode(state, llm1) == AuditorNode(state, llm2)
    ensures var u := AuditorNode(state, llm1);
      !u.isCompliant && |u.issues| == 1
      && ParseIssue(u.issues[0]) == Parsed(Issue("0", "High", "Content is empty.",
                                                 "Please fill in the section using the template provided.", false))
  {
    IssueRoundTrip(EmptyContentIssue);
  }

  /** Otherwise the model's verdict is kept and its issues are stored as
      dictionaries that validate back to exactly the issues it returned. */
  lemma AuditorKeepsAnswer(state: AgentState, llm: AuditRequest -> LlmOutcome<AuditResponse>, resp: AuditResponse)
    requires !TooShort(state.userContent)
    requires llm(AuditRequestFor(state)) == Answered(resp)
    ensures AuditorNode(state, llm).isCompliant == resp.isCompliant
    ensures ParseIssues(AuditorNode(state, llm).issues) == Parsed(resp.issues)
  {
    IssuesRoundTrip(resp.issues);
  }

  /** A failing model call becomes the single unfixable "err" issue. */
  lemma AuditorFallback(state: AgentState, llm: AuditRequest -> LlmOutcome<AuditResponse>)
    requires !TooShort(state.userContent)
    requires llm(AuditRequestFor(state)).Raised?
    ensures var u := AuditorNode(state, llm);
      !u.isCompliant && |u.issues| == 1
      && ParseIssue(u.issues[0]) == Parsed(Issue("err", "High", "AI Audit Service Failed.", "Please try again.", false))
  {
    IssueRoundTrip(AuditFailedIssue);
  }

  /** Whatever happens, every stored issue is a complete `Issue`, and the
      section is compliant only when the model said so. */
  lemma AuditorIssuesWellFormed(state: AgentState, llm: AuditRequest -> LlmOutcome<AuditResponse>)
    ensures ParseIssues(AuditorNode(state, llm).issues).Parsed?
    ensures AuditorNode(state, llm).isCompliant ==>
      !TooShort(state.userContent) && llm(AuditRequestFor(state)).Answered?
      && llm(AuditRequestFor(state)).value.isCompliant
  {
    if TooShort(state.userContent) {
      IssueRoundTrip(EmptyContentIssue);
    } else if llm(AuditRequestFor(state)).Answered? {
      IssuesRoundTrip(llm(AuditRequestFor(state)).value.issues);
    } else {
      IssueRoundTrip(AuditFailedIssue);
    }
  }

  /** The fixer prompt: the issue's description and recommendation, with
      "General Fix" and "Follow template" for missing keys. */
  function FixRequestFor(state: AgentState): FixRequest
    requires TargetSet(state.targetIssue)
  {
    var issue := state.targetIssue.value;
    FixRequest(state.templateStructure, state.userContent,
               issue.issueDescription.GetOr("General Fix"), issue.recommendation.GetOr("Follow template"))
  }

  /** `fixer_node`. */
  function FixerNode(state: AgentState, llm: FixRequest -> LlmOutcome<FixResponse>): FixUpdate {
    if !TargetSet(state.targetIssue) then FixUpdate(state.userContent, false)
    else match llm(FixRequestFor(state))
      case Answered(resp) => FixUpdate(resp.fixedContent, true)
      case Raised(_) => FixUpdate(state.userContent, false)
  }

  /** The prompt carries the issue's own texts when it has them and the
      defaults when it does not. */
  lemma FixPromptDefaults(state: AgentState)
    requires TargetSet(state.targetIssue)
    ensures var req := FixRequestFor(state); var issue := state.targetIssue.value;
      req.templateStructure == state.templateStructure && req.userContent == state.userContent
      && (issue.issueDescription.Some? ==> req.issueDescription == issue.issueDescription.value)
      && (issue.issueDescription.None? ==> req.issueDescription == "General Fix")
      && (issue.recommendation.Some? ==> req.recommendation == issue.recommendation.value)
      && (issue.recommendation.None? ==> req.recommendation == "Follow template")
  {
  }

  /** With no issue selected (`None` or `{}`) the fixer changes nothing and
      does not consult the model. */
  lemma FixerWithoutTarget(state: AgentState, llm1: FixRequest -> LlmOutcome<FixResponse>,
                           llm2: FixRequest -> LlmOutcome<FixResponse>)
    requires !TargetSet(state.targetIssue)
    ensures FixerNode(state, llm1) == FixerNode(state, llm2)
    ensures FixerNode(state, llm1) == FixUpdate(state.userContent, false)
  {
  }

  /** The target is cleared exactly when the model answered, and then the
      content is its rewrite; in every other case the content is the
      original text. */
  lemma FixerOutcome(state: AgentState, llm: FixRequest -> LlmOutcome<FixResponse>)
    ensures var u := FixerNode(state, llm);
      (u.clearsTarget <==> TargetSet(state.targetIssue) && llm(FixRequestFor(state)).Answered?)
      && (u.clearsTarget ==> u.userContent == llm(FixRequestFor(state)).value.fixedContent)
      && (!u.clearsTarget ==> u.userContent == state.userContent)
  {
  }
}
