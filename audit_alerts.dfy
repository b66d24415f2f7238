/**
 * app/components/audit_alerts.py: what the audit panel of one section shows,
 * and the Auto-Fix callback that runs the fixer and writes its text back.
 */
module AuditAlerts {
  import opened Wrappers
  import opened Models
  import opened Nodes
  import opened Workflow
  import opened StateManager

  /** Red box for "High", orange box for everything else. */
  datatype AlertStyle = Red | Orange

  /** The button under an alert. */
  datatype Action = AutoFix | InputRequired

  /** One rendered issue. `buttonKey` is None when the issue has no "id",
      where `issue['id']` raises and the panel stops. */
  datatype Alert = Alert(severity: string, description: Option<string>, recommendation: Option<string>,
                         style: AlertStyle, action: Action, buttonKey: Option<string>)

  /** The panel: nothing, the green banner, or the issue count and alerts. */
  datatype AuditView = Hidden | CompliantBanner | IssueList(count: nat, alerts: seq<Alert>)

  function AlertFor(secId: string, issue: IssueDict): Alert {
    var severity := issue.severity.GetOr("Medium");
    var action := if issue.fixable == Some(true) then AutoFix else InputRequired;
    var prefix := if action == AutoFix then "fix_" else "blocked_";
    Alert(severity, issue.issueDescription, issue.recommendation,
          if severity == "High" then Red else Orange,
          action,
          if issue.id.Some? then Some(prefix + secId + "_" + issue.id.value) else None)
  }

  /** The alerts, up to and including the first issue without an id. */
  function RenderAlerts(secId: string, issues: seq<IssueDict>): seq<Alert> {
    if issues == [] then []
    else if issues[0].id.None? then [AlertFor(secId, issues[0])]
    else [AlertFor(secId, issues[0])] + RenderAlerts(secId, issues[1..])
  }

  /** `render_audit_results`. */
  function RenderAuditResults(section: Section): AuditView {
    match section.userData.lastAudit
    case None => Hidden
    case Some(a) =>
      if a.IsEmpty() then Hidden
      else if a.isCompliant == Some(true) then CompliantBanner
      else var issues := a.issues.GetOr([]);
        IssueList(|issues|, RenderAlerts(section.id, issues))
  }

  /** An alert is red exactly for severity "High" (a missing severity reads
      as "Medium"), offers Auto-Fix exactly when `fixable` is true (a missing
      flag reads as false), and its button key names the section and issue. */
  lemma AlertStyleAndAction(secId: string, issue: IssueDict)
    ensures var a := AlertFor(secId, issue);
      (a.style == Red <==> issue.severity == Some("High"))
      && (issue.severity.None? ==> a.severity == "Medium")
      && (a.action == AutoFix <==> issue.fixable == Some(true))
      && (issue.id.Some? && a.action == AutoFix ==> a.buttonKey == Some("fix_" + secId + "_" + issue.id.value))
      && (issue.id.Some? && a.action == InputRequired ==> a.buttonKey == Some("blocked_" + secId + "_" + issue.id.value))
  {
  }

  /** When every issue has an id, there is one alert per issue, in order. */
  lemma {:induction false} RenderAlertsOnePerIssue(secId: string, issues: seq<IssueDict>)
    requires forall k :: 0 <= k < |issues| ==> issues[k].id.Some?
    ensures |RenderAlerts(secId, issues)| == |issues|
    ensures forall k :: 0 <= k < |issues| ==> RenderAlerts(secId, issues)[k] == AlertFor(secId, issues[k])
  {
    if issues != [] {
      RenderAlertsOnePerIssue(secId, issues[1..]);
    }
  }

  /** The panel is hidden exactly when there is no audit or it is `{}`, and
      shows the banner exactly for a compliant verdict; otherwise it counts
      every stored issue. */
  lemma RenderCases(section: Section)
    ensures RenderAuditResults(section) == Hidden <==>
      section.userData.lastAudit.None? || section.userData.lastAudit.value.IsEmpty()
    ensures RenderAuditResults(section) == CompliantBanner <==>
      section.userData.lastAudit.Some? && !section.userData.lastAudit.value.IsEmpty()
      && section.userData.lastAudit.value.isCompliant == Some(true)
    ensures RenderAuditResults(section).IssueList? ==>
      RenderAuditResults(section).count == |section.userData.lastAudit.value.issues.GetOr([])|
  {
  }

  /** The graph inputs the callback builds: no issues, not compliant, and
      the clicked issue as the target. */
  function FixInputs(section: Section, target: IssueDict): AgentState {
    AgentState(section.meta.title, section.meta.criteria, section.meta.templateStructure,
               section.userData.content, [], false, Some(target))
  }

  /** The text the graph run hands back for the section. */
  function FixedText(section: Section, target: IssueDict,
                     auditLlm: AuditRequest -> LlmOutcome<AuditResponse>,
                     fixLlm: FixRequest -> LlmOutcome<FixResponse>): string
  {
    ApplyNode(EntryNode(FixInputs(section, target)), FixInputs(section, target), auditLlm, fixLlm).userContent
  }

  /** The store after the callback: new text, then the audit reset to `{}`. */
  function AfterFix(sections: seq<Section>, section: Section, target: IssueDict,
                    auditLlm: AuditRequest -> LlmOutcome<AuditResponse>,
                    fixLlm: FixRequest -> LlmOutcome<FixResponse>): seq<Section>
  {
    RecordAudit(EditContent(sections, section.id, FixedText(section, target, auditLlm, fixLlm)),
                section.id, EmptyAuditRecord)
  }

  /** A successful rewrite becomes the section's text; a failed one, or a
      click on `{}`, leaves the text as it was. Either way the section ends
      flagged with the empty audit, so its panel is hidden until it is
      audited again, and no other section changes. */
  lemma AfterFixEffect(sections: seq<Section>, section: Section, target: IssueDict,
                       auditLlm: AuditRequest -> LlmOutcome<AuditResponse>,
                       fixLlm: FixRequest -> LlmOutcome<FixResponse>)
    requires AllStatusesAgree(sections)
    requires IndexOfId(sections, section.id).Some?
    ensures var i := IndexOfId(sections, section.id).value;
      var r := AfterFix(sections, section, target, auditLlm, fixLlm);
      var inputs := FixInputs(section, target);
      |r| == |sections|
      && r[i].id == sections[i].id && r[i].meta == sections[i].meta
      && r[i].userData == UserData(FixedText(section, target, auditLlm, fixLlm), Some(EmptyAuditRecord), Flagged)
      && (!target.IsEmpty() && fixLlm(FixRequestFor(inputs)).Answered? ==>
            r[i].userData.content == fixLlm(FixRequestFor(inputs)).value.fixedContent)
      && (target.IsEmpty() || fixLlm(FixRequestFor(inputs)).Raised? ==>
            r[i].userData.content == section.userData.content)
      && RenderAuditResults(r[i]) == Hidden
      && forall j :: 0 <= j < |sections| && j != i ==> r[j] == sections[j]
  {
    var id := section.id;
    var c := FixedText(section, target, auditLlm, fixLlm);
    EditContentEffect(sections, id, c);
    var e := EditContent(sections, id, c);
    IndexIsFirst(e, id, IndexOfId(sections, id).value);
    RecordAuditEffect(e, id, EmptyAuditRecord);
  }

  /** `st.session_state` entries for the editor widgets, keyed "editor_<id>". */
  class EditorCache {
    var entries: map<string, string>

    constructor (initial: map<string, string>)
      ensures entries == initial
    {
      entries := initial;
    }

    /** Overwrites a widget's cached text only when that widget exists. */
    method RefreshIfPresent(key: string, text: string)
      modifies this
      ensures entries == if key in old(entries) then old(entries)[key := text] else old(entries)
    {
      if key in entries {
        entries := entries[key := text];
      }
    }
  }

  /** `_handle_fix_request`. */
  method HandleFixRequest(ws: Workspace, cache: EditorCache, section: Section, target: IssueDict,
                          auditLlm: AuditRequest -> LlmOutcome<AuditResponse>,
                          fixLlm: FixRequest -> LlmOutcome<FixResponse>)
    requires ws.Valid() && ws.present
    modifies ws, cache
    ensures ws.Valid() && ws.present
    ensures ws.sections == AfterFix(old(ws.sections), section, target, auditLlm, fixLlm)
    ensures ws.activeTemplateName == old(ws.activeTemplateName) && ws.globalResult == old(ws.globalResult)
    ensures var key := "editor_" + section.id; var text := FixedText(section, target, auditLlm, fixLlm);
      cache.entries == if key in old(cache.entries) then old(cache.entries)[key := text] else old(cache.entries)
  {
    var inputs := FixInputs(section, target);
    InvokeRunsOneNode(inputs, auditLlm, fixLlm);
    var result := Invoke(inputs, auditLlm, fixLlm).value.0;
    var newText := result.userContent;
    ws.UpdateSectionContent(section.id, newText);
    cache.RefreshIfPresent("editor_" + section.id, newText);
    ws.UpdateSectionAuditResult(section.id, EmptyAuditRecord);
  }
}
