/**
 * backend/graph/workflow.py: the graph that sends a request either to the
 * auditor or to the fixer and stops after that one node.
 */
module Workflow {
  import opened Wrappers
  import opened Models
  import opened Nodes
  import opened GraphRuntime

  datatype NodeName = Auditor | Fixer

  /** The name each node is registered under. */
  function NodeLabel(n: NodeName): string {
    match n
    case Auditor => "auditor"
    case Fixer => "fixer"
  }

  /** `route_request`: "fixer" exactly when a non-empty target issue is set. */
  function RouteRequest(state: AgentState): string {
    if TargetSet(state.targetIssue) then "fixer" else "auditor"
  }

  /** The path map of the conditional entry point; any other label has no
      node, where LangGraph raises. */
  function EntryMap(name: string): Option<NodeName> {
    if name == "auditor" then Some(Auditor)
    else if name == "fixer" then Some(Fixer)
    else None
  }

  /** The node the entry point starts at. */
  function EntryNode(state: AgentState): NodeName {
    if TargetSet(state.targetIssue) then Fixer else Auditor
  }

  /** The entry map sends each label to the node registered under it, and
      so the router's label always selects a node. */
  lemma EntryMapMatchesLabels(n: NodeName, state: AgentState)
    ensures EntryMap(NodeLabel(n)) == Some(n)
    ensures EntryMap(RouteRequest(state)) == Some(EntryNode(state))
    ensures NodeLabel(EntryNode(state)) == RouteRequest(state)
  {
  }

  /** Both nodes have a single edge, to END. */
  function EdgeAfter(n: NodeName): Step<NodeName> {
    Stop
  }

  /** A node's update merged into the state: the keys it returns overwrite
      the state's, the others keep their values. */
  function ApplyNode(n: NodeName, state: AgentState,
                     auditLlm: AuditRequest -> LlmOutcome<AuditResponse>,
                     fixLlm: FixRequest -> LlmOutcome<FixResponse>): AgentState
  {
    match n
    case Auditor =>
      var u := AuditorNode(state, auditLlm);
      state.(issues := u.issues, isCompliant := u.isCompliant)
    case Fixer =>
      var u := FixerNode(state, fixLlm);
      state.(userContent := u.userContent, targetIssue := if u.clearsTarget then None else state.targetIssue)
  }

  /** `graph.invoke(inputs)`: the final state and the nodes that ran. */
  function Invoke(inputs: AgentState,
                  auditLlm: AuditRequest -> LlmOutcome<AuditResponse>,
                  fixLlm: FixRequest -> LlmOutcome<FixResponse>): Option<(AgentState, seq<NodeName>)>
  {
    match EntryMap(RouteRequest(inputs))
    case None => None
    case Some(first) => Run(inputs, Go(first), (n, s) => ApplyNode(n, s, auditLlm, fixLlm), EdgeAfter, RecursionLimit)
  }

  /** The route looks at nothing but the target issue, and `None` and `{}`
      both mean a plain audit. */
  lemma RouteReadsOnlyTarget(s1: AgentState, s2: AgentState)
    ensures s1.targetIssue == s2.targetIssue ==> RouteRequest(s1) == RouteRequest(s2)
    ensures RouteRequest(s1) == "fixer" <==> s1.targetIssue.Some? && !s1.targetIssue.value.IsEmpty()
    ensures RouteRequest(s1) != "fixer" ==> RouteRequest(s1) == "auditor"
    ensures s1.targetIssue == None || s1.targetIssue == Some(EmptyIssueDict) ==> RouteRequest(s1) == "auditor"
  {
  }

  /** Exactly one node runs, the one the route chose, and then the graph
      stops; the result is that node's update merged into the inputs. */
  lemma InvokeRunsOneNode(inputs: AgentState,
                          auditLlm: AuditRequest -> LlmOutcome<AuditResponse>,
                          fixLlm: FixRequest -> LlmOutcome<FixResponse>)
    ensures Invoke(inputs, auditLlm, fixLlm) ==
      Some((ApplyNode(EntryNode(inputs), inputs, auditLlm, fixLlm), [EntryNode(inputs)]))
  {
    RunSingleNode(inputs, EntryNode(inputs), (n, s) => ApplyNode(n, s, auditLlm, fixLlm), EdgeAfter, RecursionLimit);
  }

  /** An audit request stores the auditor's issues and verdict, keeps the
      content, and never consults the fixing model. */
  lemma InvokeAudit(inputs: AgentState,
                    auditLlm: AuditRequest -> LlmOutcome<AuditResponse>,
                    fixLlm1: FixRequest -> LlmOutcome<FixResponse>,
                    fixLlm2: FixRequest -> LlmOutcome<FixResponse>)
    requires !TargetSet(inputs.targetIssue)
    ensures Invoke(inputs, auditLlm, fixLlm1) == Invoke(inputs, auditLlm, fixLlm2)
    ensures Invoke(inputs, auditLlm, fixLlm1).Some?
    ensures var out := Invoke(inputs, auditLlm, fixLlm1).value.0;
      out.userContent == inputs.userContent && out.targetIssue == inputs.targetIssue
      && out.issues == AuditorNode(inputs, auditLlm).issues
      && out.isCompliant == AuditorNode(inputs, auditLlm).isCompliant
  {
    InvokeRunsOneNode(inputs, auditLlm, fixLlm1);
    InvokeRunsOneNode(inputs, auditLlm, fixLlm2);
  }

  /** A fix request stores the fixer's text, keeps the audit keys, and
      never consults the auditing model; the target is cleared exactly when
      the rewrite succeeded. */
  lemma InvokeFix(inputs: AgentState,
                  auditLlm1: AuditRequest -> LlmOutcome<AuditResponse>,
                  auditLlm2: AuditRequest -> LlmOutcome<AuditResponse>,
                  fixLlm: FixRequest -> LlmOutcome<FixResponse>)
    requires TargetSet(inputs.targetIssue)
    ensures Invoke(inputs, auditLlm1, fixLlm) == Invoke(inputs, auditLlm2, fixLlm)
    ensures Invoke(inputs, auditLlm1, fixLlm).Some?
    ensures var out := Invoke(inputs, auditLlm1, fixLlm).value.0;
      out.issues == inputs.issues && out.isCompliant == inputs.isCompliant
      && out.userContent == FixerNode(inputs, fixLlm).userContent
      && (out.targetIssue == None <==> FixAnswered(inputs, fixLlm))
  {
    InvokeRunsOneNode(inputs, auditLlm1, fixLlm);
    InvokeRunsOneNode(inputs, auditLlm2, fixLlm);
  }

  predicate FixAnswered(inputs: AgentState, fixLlm: FixRequest -> LlmOutcome<FixResponse>)
    requires TargetSet(inputs.targetIssue)
  {
    fixLlm(FixRequestFor(inputs)).Answered?
  }
}
