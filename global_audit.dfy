/**
 * The data side of the document review in app/components/global_audit.py:
 * gathering the issues of every non-compliant section, ordering them,
 * counting them, and writing a batch of review results back to the store.
 */
module GlobalAudit {
  import opened Wrappers
  import opened Models
  import opened Sorting
  import opened StateManager
  import opened Seqs

  /** `SEVERITY_ORDER.get(severity, 2)`, a missing severity read as "Low". */
  function SeverityRank(sev: Option<string>): nat {
    var s := sev.GetOr("Low");
    if s == "High" then 0
    else if s == "Medium" then 1
    else 2 // "Low", and any value outside the table
  }

  /** High ranks first, then Medium; "Low", a missing severity and every
      unknown value share the last rank. */
  lemma SeverityRankCases(sev: Option<string>)
    ensures SeverityRank(sev) <= 2
    ensures SeverityRank(sev) == 0 <==> sev == Some("High")
    ensures SeverityRank(sev) == 1 <==> sev == Some("Medium")
    ensures sev.None? || sev == Some("Low") ==> SeverityRank(sev) == 2
    ensures SeverityRank(Some(sev.GetOr("Low"))) == SeverityRank(sev)
  {
  }

  /** A section issue as the review sees it: the issue's own keys plus the
      title and id of the section it came from. */
  datatype SectionIssue = SectionIssue(issue: IssueDict, sectionTitle: string, sectionId: string)

  /** The issue list of a section's last audit (`[]` when absent). */
  function StoredIssues(sec: Section): seq<IssueDict> {
    match sec.userData.lastAudit
    case None => []
    case Some(a) => a.issues.GetOr([])
  }

  /** A section contributes when it has a non-empty audit whose
      `is_compliant` is not `True`. */
  predicate Reported(sec: Section) {
    sec.userData.lastAudit.Some? && !sec.userData.lastAudit.value.IsEmpty()
    && sec.userData.lastAudit.value.isCompliant != Some(true)
  }

  function Tag(issues: seq<IssueDict>, title: string, id: string): (r: seq<SectionIssue>)
    ensures |r| == |issues|
    ensures forall k :: 0 <= k < |issues| ==> r[k] == SectionIssue(issues[k], title, id)
  {
    if issues == [] then [] else [SectionIssue(issues[0], title, id)] + Tag(issues[1..], title, id)
  }

  /** What one section contributes. */
  function ReportedIssues(sec: Section): seq<SectionIssue> {
    if !Reported(sec) then []
    else Tag(StoredIssues(sec), sec.meta.title, sec.id)
  }

  /** `_collect_section_issues`, section by section. */
  function CollectSpec(sections: seq<Section>): seq<SectionIssue> {
    FlatMap(sections, ReportedIssues)
  }

  /** `_collect_section_issues`. */
  method CollectSectionIssues(sections: seq<Section>) returns (issues: seq<SectionIssue>)
    ensures issues == CollectSpec(sections)
  {
    issues := [];
    var i := 0;
    while i < |sections|
      invariant 0 <= i <= |sections|
      invariant issues == CollectSpec(sections[..i])
    {
      var sec := sections[i];
      assert sections[..i + 1][..i] == sections[..i];
      if sec.userData.lastAudit.None? || sec.userData.lastAudit.value.IsEmpty() {
        // no audit yet
      } else if sec.userData.lastAudit.value.isCompliant == Some(true) {
        // compliant sections have nothing to report
      } else {
        var list := sec.userData.lastAudit.value.issues.GetOr([]);
        var j := 0;
        while j < |list|
          invariant 0 <= j <= |list|
          invariant issues == CollectSpec(sections[..i]) + ReportedIssues(sec)[..j]
        {
          issues := issues + [SectionIssue(list[j], sec.meta.title, sec.id)];
          j := j + 1;
          assert ReportedIssues(sec)[..j] == ReportedIssues(sec)[..j - 1] + [ReportedIssues(sec)[j - 1]];
        }
        assert ReportedIssues(sec)[..j] == ReportedIssues(sec);
      }
      i := i + 1;
    }
    assert sections[..i] == sections;
  }

  /** Collection is section order then issue order: the issues of a list of
      sections are those of its parts, one after the other. */
  lemma CollectAppend(a: seq<Section>, b: seq<Section>)
    ensures CollectSpec(a + b) == CollectSpec(a) + CollectSpec(b)
  {
    FlatMapAppend(a, b, ReportedIssues);
  }

  /** A section without a non-compliant audit contributes nothing. */
  lemma CollectSkips(a: seq<Section>, sec: Section, b: seq<Section>)
    requires !Reported(sec)
    ensures CollectSpec(a + [sec] + b) == CollectSpec(a + b)
  {
    CollectAppend(a + [sec], b);
    CollectAppend(a, [sec]);
    CollectAppend(a, b);
    assert [sec][..0] == [];
  }

  /** Every collected item is an issue of a reported section, tagged with
      that section's title and id. */
  lemma {:induction false} CollectedFromReported(s: seq<Section>)
    ensures forall x :: x in CollectSpec(s) ==>
      exists i :: 0 <= i < |s| && Reported(s[i]) && x.issue in StoredIssues(s[i])
                  && x.sectionTitle == s[i].meta.title && x.sectionId == s[i].id
  {
    if s != [] {
      var n := |s| - 1;
      CollectedFromReported(s[..n]);
      forall x | x in CollectSpec(s)
        ensures exists i :: 0 <= i < |s| && Reported(s[i]) && x.issue in StoredIssues(s[i])
                            && x.sectionTitle == s[i].meta.title && x.sectionId == s[i].id
      {
        if x in CollectSpec(s[..n]) {
          var i :| 0 <= i < n && Reported(s[..n][i]) && x.issue in StoredIssues(s[..n][i])
                   && x.sectionTitle == s[..n][i].meta.title && x.sectionId == s[..n][i].id;
          assert s[..n][i] == s[i];
        } else {
          assert x in ReportedIssues(s[n]);
          var k :| 0 <= k < |ReportedIssues(s[n])| && ReportedIssues(s[n])[k] == x;
          assert x.issue == StoredIssues(s[n])[k];
        }
      }
    }
  }

  /** Every issue of every reported section is collected. */
  lemma {:induction false} CollectIsComplete(s: seq<Section>)
    ensures forall i, k :: 0 <= i < |s| && Reported(s[i]) && 0 <= k < |StoredIssues(s[i])| ==>
      SectionIssue(StoredIssues(s[i])[k], s[i].meta.title, s[i].id) in CollectSpec(s)
  {
    if s != [] {
      var n := |s| - 1;
      CollectIsComplete(s[..n]);
      var prev, last := CollectSpec(s[..n]), ReportedIssues(s[n]);
      assert CollectSpec(s) == prev + last;
      forall i, k | 0 <= i < |s| && Reported(s[i]) && 0 <= k < |StoredIssues(s[i])|
        ensures SectionIssue(StoredIssues(s[i])[k], s[i].meta.title, s[i].id) in CollectSpec(s)
      {
        var x := SectionIssue(StoredIssues(s[i])[k], s[i].meta.title, s[i].id);
        if i < n {
          assert s[..n][i] == s[i];
          assert x in prev;
        } else {
          assert last[k] == x;
          assert (prev + last)[|prev| + k] == x;
        }
      }
    }
  }

  /** `x.get("issue_description") or x.get("description") or ""`. */
  function DescriptionOf(i: IssueDict): string {
    if i.issueDescription.Some? && i.issueDescription.value != "" then i.issueDescription.value
    else if i.description.Some? && i.description.value != "" then i.description.value
    else ""
  }

  /** The key of `_sort_issues`: severity rank, section title, description. */
  function IssueKey(x: SectionIssue): SortKey {
    SortKey(SeverityRank(x.issue.severity), x.sectionTitle, DescriptionOf(x.issue))
  }

  /** `_sort_issues`. */
  function SortIssues(issues: seq<SectionIssue>): seq<SectionIssue> {
    SortBy(issues, IssueKey)
  }

  /** The sorted list is a permutation of the input in (rank, title,
      description) order, and issues with equal keys keep their order. */
  lemma SortIssuesCorrect(issues: seq<SectionIssue>)
    ensures multiset(SortIssues(issues)) == multiset(issues)
    ensures |SortIssues(issues)| == |issues|
    ensures forall i, j :: 0 <= i < j < |SortIssues(issues)| ==>
      KeyLe(IssueKey(SortIssues(issues)[i]), IssueKey(SortIssues(issues)[j]))
    ensures forall k :: WithKey(SortIssues(issues), IssueKey, k) == WithKey(issues, IssueKey, k)
  {
    SortByCorrect(issues, IssueKey);
    forall k ensures WithKey(SortIssues(issues), IssueKey, k) == WithKey(issues, IssueKey, k) {
      SortByStable(issues, IssueKey, k);
    }
  }

  /** The description used for ordering falls back to `description` only
      when `issue_description` is missing or empty. */
  lemma DescriptionFallback(i: IssueDict)
    ensures i.issueDescription.Some? && i.issueDescription.value != "" ==> DescriptionOf(i) == i.issueDescription.value
    ensures (i.issueDescription.None? || i.issueDescription == Some("")) && i.description.Some? ==> DescriptionOf(i) == i.description.value
    ensures (i.issueDescription.None? || i.issueDescription == Some("")) && i.description.None? ==> DescriptionOf(i) == ""
  {
  }

  /** Number of section issues whose severity is exactly "High". */
  function CountHigh(s: seq<SectionIssue>): nat {
    if s == [] then 0
    else CountHigh(s[..|s| - 1]) + (if s[|s| - 1].issue.severity == Some("High") then 1 else 0)
  }

  /** The truthy section ids among the issues. */
  function AffectedIds(s: seq<SectionIssue>): set<string> {
    if s == [] then {}
    else AffectedIds(s[..|s| - 1]) + (if s[|s| - 1].sectionId != "" then {s[|s| - 1].sectionId} else {})
  }

  /** The four figures at the top of the review. */
  datatype Metrics = Metrics(total: nat, highSeverity: nat, logic: nat, sectionsAffected: nat)

  /** `global_result.get("global_issues", []) or []` of `get_global_audit_result() or {}`. */
  function GlobalIssuesOf(globalResult: Option<ConsistencyRecord>): seq<GlobalIssueRecord> {
    globalResult.GetOr(EmptyConsistencyRecord).globalIssues.GetOr([])
  }

  function ComputeMetrics(sectionIssues: seq<SectionIssue>, globalIssues: seq<GlobalIssueRecord>): Metrics {
    Metrics(|sectionIssues| + |globalIssues|, CountHigh(sectionIssues), |globalIssues|, |AffectedIds(sectionIssues)|)
  }

  lemma {:induction false} CountHighFacts(s: seq<SectionIssue>)
    ensures CountHigh(s) <= |s|
    ensures CountHigh(s) == 0 <==> forall k :: 0 <= k < |s| ==> s[k].issue.severity != Some("High")
    ensures CountHigh(s) == |s| <==> forall k :: 0 <= k < |s| ==> s[k].issue.severity == Some("High")
  {
    if s != [] {
      var n := |s| - 1;
      CountHighFacts(s[..n]);
      assert forall k :: 0 <= k < n ==> s[..n][k] == s[k];
    }
  }

  lemma {:induction false} AffectedIdsFacts(s: seq<SectionIssue>)
    ensures |AffectedIds(s)| <= |s|
    ensures forall id :: id in AffectedIds(s) <==> id != "" && exists k :: 0 <= k < |s| && s[k].sectionId == id
  {
    if s != [] {
      var n := |s| - 1;
      AffectedIdsFacts(s[..n]);
      var extra: set<string> := if s[n].sectionId != "" then {s[n].sectionId} else {};
      assert |AffectedIds(s[..n]) + extra| <= |AffectedIds(s[..n])| + |extra|;
      forall id ensures id in AffectedIds(s) <==> id != "" && exists k :: 0 <= k < |s| && s[k].sectionId == id {
        if id != "" && (exists k :: 0 <= k < |s| && s[k].sectionId == id) {
          var k :| 0 <= k < |s| && s[k].sectionId == id;
          if k < n { assert s[..n][k] == s[k]; }
        }
        if id in AffectedIds(s[..n]) {
          var k :| 0 <= k < n && s[..n][k].sectionId == id;
          assert s[k].sectionId == id;
        }
      }
    }
  }

  /** total = section issues + logic issues; the High count and the number
      of affected sections never exceed the number of section issues; a
      section counts as affected exactly when one of its issues carries its
      non-empty id. */
  lemma MetricsFacts(sectionIssues: seq<SectionIssue>, globalIssues: seq<GlobalIssueRecord>)
    ensures var m := ComputeMetrics(sectionIssues, globalIssues);
      m.total == |sectionIssues| + m.logic && m.logic == |globalIssues|
      && m.highSeverity <= |sectionIssues| && m.sectionsAffected <= |sectionIssues|
      && (m.highSeverity == 0 <==> forall k :: 0 <= k < |sectionIssues| ==> sectionIssues[k].issue.severity != Some("High"))
      && (m.sectionsAffected == 0 <==> forall k :: 0 <= k < |sectionIssues| ==> sectionIssues[k].sectionId == "")
    ensures forall id :: id in AffectedIds(sectionIssues) <==>
      id != "" && exists k :: 0 <= k < |sectionIssues| && sectionIssues[k].sectionId == id
  {
    CountHighFacts(sectionIssues);
    AffectedIdsFacts(sectionIssues);
    if exists k :: 0 <= k < |sectionIssues| && sectionIssues[k].sectionId != "" {
      var k :| 0 <= k < |sectionIssues| && sectionIssues[k].sectionId != "";
      assert sectionIssues[k].sectionId in AffectedIds(sectionIssues);
    }
  }

  /** The three states of the review panel. */
  datatype PanelState = NoResults | AllClear | Results

  /** No results while nothing was ever reviewed; the all-clear only for a
      consistent document without issues; the results otherwise. */
  function Panel(total: nat, globalResult: Option<ConsistencyRecord>): PanelState {
    var g := globalResult.GetOr(EmptyConsistencyRecord);
    if total == 0 && g.IsEmpty() then NoResults
    else if total == 0 && g.isConsistent == Some(true) then AllClear
    else Results
  }

  lemma PanelCases(total: nat, globalResult: Option<ConsistencyRecord>)
    ensures Panel(total, globalResult) == Results <==>
      total > 0 || (globalResult.Some? && !globalResult.value.IsEmpty() && globalResult.value.isConsistent != Some(true))
    ensures Panel(total, globalResult) == AllClear ==> total == 0 && globalResult.value.isConsistent == Some(true)
    ensures Panel(total, globalResult) == NoResults <==> total == 0 && (globalResult.None? || globalResult.value.IsEmpty())
  {
  }

  /** The section results of one batch review, in the order returned, and
      its global result. */
  datatype BatchResult = BatchResult(sectionResults: Option<seq<(string, AuditRecord)>>,
                                     globalResult: Option<ConsistencyRecord>)

  /** The store after writing the given results one after the other. */
  function ApplyResults(s: seq<Section>, rs: seq<(string, AuditRecord)>): seq<Section> {
    if rs == [] then s
    else RecordAudit(ApplyResults(s, rs[..|rs| - 1]), rs[|rs| - 1].0, rs[|rs| - 1].1)
  }

  /** Writing results keeps the list's length, ids and metadata, and leaves
      every section that no result names exactly as it was. */
  lemma {:induction false} ApplyResultsUntouched(s: seq<Section>, rs: seq<(string, AuditRecord)>)
    ensures |ApplyResults(s, rs)| == |s|
    ensures forall i :: 0 <= i < |s| ==>
      ApplyResults(s, rs)[i].id == s[i].id && ApplyResults(s, rs)[i].meta == s[i].meta
    ensures forall i :: 0 <= i < |s| && (forall k :: 0 <= k < |rs| ==> rs[k].0 != s[i].id) ==>
      ApplyResults(s, rs)[i] == s[i]
  {
    if rs != [] {
      var n := |rs| - 1;
      ApplyResultsUntouched(s, rs[..n]);
      RecordAuditEffect(ApplyResults(s, rs[..n]), rs[n].0, rs[n].1);
      forall i | 0 <= i < |s| && (forall k :: 0 <= k < |rs| ==> rs[k].0 != s[i].id)
        ensures ApplyResults(s, rs)[i] == s[i]
      {
        assert forall k :: 0 <= k < n ==> rs[..n][k] == rs[k];
      }
    }
  }

  /** With distinct ids, a section named by some result ends holding the
      last result that names it, with the status that result implies. */
  lemma {:induction false} ApplyResultsLastWins(s: seq<Section>, rs: seq<(string, AuditRecord)>, i: nat, k: nat)
    requires DistinctIds(s)
    requires i < |s| && k < |rs| && rs[k].0 == s[i].id
    requires forall k' :: k < k' < |rs| ==> rs[k'].0 != s[i].id
    ensures |ApplyResults(s, rs)| == |s|
    ensures ApplyResults(s, rs)[i].userData.lastAudit == Some(rs[k].1)
    ensures ApplyResults(s, rs)[i].userData.status == Compliant <==> rs[k].1.isCompliant == Some(true)
  {
    var n := |rs| - 1;
    var before := ApplyResults(s, rs[..n]);
    ApplyResultsUntouched(s, rs[..n]);
    RecordAuditEffect(before, rs[n].0, rs[n].1);
    assert DistinctIds(before);
    if k == n {
      IndexIsFirst(before, s[i].id, i);
    } else {
      ApplyResultsLastWins(s, rs[..n], i, k);
      var j := IndexOfId(before, rs[n].0);
      if j.Some? {
        assert before[j.value].id == rs[n].0 != s[i].id;
      }
    }
  }

  /** `_run_global_audit`, given what `run_batch_audit` returned: each
      section result is written, then the global result (`{}` if missing). */
  method RunGlobalAudit(ws: Workspace, results: BatchResult)
    requires ws.Valid() && ws.present
    modifies ws
    ensures ws.Valid() && ws.present
    ensures ws.sections == ApplyResults(old(ws.sections), results.sectionResults.GetOr([]))
    ensures ws.globalResult == Some(results.globalResult.GetOr(EmptyConsistencyRecord))
    ensures ws.activeTemplateName == old(ws.activeTemplateName)
  {
    var rs := results.sectionResults.GetOr([]);
    var i := 0;
    while i < |rs|
      invariant 0 <= i <= |rs|
      invariant ws.Valid() && ws.present
      invariant ws.sections == ApplyResults(old(ws.sections), rs[..i])
      invariant ws.activeTemplateName == old(ws.activeTemplateName)
    {
      ws.UpdateSectionAuditResult(rs[i].0, rs[i].1);
      assert rs[..i + 1][..i] == rs[..i];
      i := i + 1;
    }
    assert rs[..i] == rs;
    ws.UpdateGlobalAuditResult(results.globalResult.GetOr(EmptyConsistencyRecord));
  }
}
