/**
 * old_but_gold/app.py: the earlier single-page workspace. Its sections are
 * flat records whose content and last graph result the page rewrites in
 * place; the list itself is reset, appended to and shortened by index.
 */
module LegacyApp {
  import opened Wrappers
  import opened Models
  import opened Ids
  import opened TemplateRegistry
  import opened LegacyGraph

  /** One section: `content` starts as the template's pre-filled text. */
  datatype LegacySection = LegacySection(
    id: string, title: string, criteria: string, content: string, result: Option<LegacyState>)

  /** The earlier `TEMPLATES`, in insertion order; an entry's third field is
      the section's initial content. */
  const LegacyTemplates: seq<(string, seq<SectionTemplate>)> := [
    ("Standard Project Charter", [
      SectionTemplate(
        "1. Reviewers",
        "Reviewers: <Add here the name of the Q-PAR (for non-Focus Projects) or EPQ (for Focus Projects) as mandatory reviewer> (Q-PAR/EPQ). The author can decide to add additional reviewers.",
        "Reviewers: <Add Name Here> (Q-PAR/EPQ)\nAdditional Reviewers: <Add Optional Name>"),
      SectionTemplate(
        "2. Problem Statement",
        "Describe the current situation, the pain points, and the impact of the problem.",
        "Current Situation: <Describe current process>\nPain Points: <List pain points>\nImpact: <Describe business impact>"),
      SectionTemplate(
        "3. Objectives",
        "Define SMART goals. Must include at least one measurable KPI.",
        "Goal 1: <Specific Goal>\nKPI: <Measurable Metric>\nTimeline: <Date>")
    ]),
    ("Simple Document", [
      SectionTemplate(
        "1. Summary",
        "Provide a brief summary of the document.",
        "<Write summary here>")
    ])
  ]

  /** The earlier catalogue: three charter sections and one summary, with
      exact, case-sensitive names. */
  lemma LegacyShippedTemplates()
    ensures |Lookup(LegacyTemplates, "Standard Project Charter")| == 3
    ensures |Lookup(LegacyTemplates, "Simple Document")| == 1
    ensures [Lookup(LegacyTemplates, "Standard Project Charter")[0].title,
             Lookup(LegacyTemplates, "Standard Project Charter")[1].title,
             Lookup(LegacyTemplates, "Standard Project Charter")[2].title]
            == ["1. Reviewers", "2. Problem Statement", "3. Objectives"]
    ensures Lookup(LegacyTemplates, "Simple Document")[0].title == "1. Summary"
    ensures Lookup(LegacyTemplates, "simple document") == []
  {
    assert LegacyTemplates[0].0 != "Simple Document" by {
      assert LegacyTemplates[0].0[1] != "Simple Document"[1];
    }
    LookupExact(LegacyTemplates, "Standard Project Charter");
    LookupExact(LegacyTemplates, "Simple Document");
    LookupExact(LegacyTemplates, "simple document");
    assert LegacyTemplates[0].0 != "simple document" by {
      assert LegacyTemplates[0].0[0] != "simple document"[0];
    }
    assert LegacyTemplates[1].0 != "simple document" by {
      assert LegacyTemplates[1].0[0] != "simple document"[0];
    }
  }

  /** The sections `load_template` appends, drawing ids from `next` on. */
  function LegacySectionsFrom(ts: seq<SectionTemplate>, next: nat): (r: seq<LegacySection>)
    ensures |r| == |ts|
    ensures forall k :: 0 <= k < |ts| ==>
      r[k] == LegacySection(IdOf(next + k), ts[k].title, ts[k].criteria, ts[k].templateContent, None)
  {
    if ts == [] then []
    else [LegacySection(IdOf(next), ts[0].title, ts[0].criteria, ts[0].templateContent, None)]
         + LegacySectionsFrom(ts[1..], next + 1)
  }

  predicate LegacyDistinctIds(s: seq<LegacySection>) {
    forall i, j :: 0 <= i < j < |s| ==> s[i].id != s[j].id
  }

  /** A load gives one section per template entry, in order, with the
      entry's texts, no result and pairwise distinct ids. */
  lemma LegacySectionsFromShape(ts: seq<SectionTemplate>, next: nat)
    ensures var s := LegacySectionsFrom(ts, next);
      |s| == |ts|
      && (forall k :: 0 <= k < |ts| ==>
            s[k].title == ts[k].title && s[k].criteria == ts[k].criteria
            && s[k].content == ts[k].templateContent && s[k].result == None
            && IssuedBelow(s[k].id, next + |ts|))
      && LegacyDistinctIds(s)
  {
    var s := LegacySectionsFrom(ts, next);
    forall i, j | 0 <= i < j < |s| ensures s[i].id != s[j].id {
      IdOfInjective(next + i, next + j);
    }
    forall k | 0 <= k < |ts| ensures IssuedBelow(s[k].id, next + |ts|) {
      assert IdOf(next + k) == s[k].id;
    }
  }

  /** The loop of `load_template`: one section per entry, numbering
      identifiers from `start`. */
  method BuildLegacySections(ts: seq<SectionTemplate>, start: nat) returns (built: seq<LegacySection>)
    ensures built == LegacySectionsFrom(ts, start)
  {
    built := [];
    var i := 0;
    while i < |ts|
      invariant 0 <= i <= |ts| && |built| == i
      invariant forall k :: 0 <= k < i ==>
        built[k] == LegacySection(IdOf(start + k), ts[k].title, ts[k].criteria, ts[k].templateContent, None)
    {
      built := built + [LegacySection(IdOf(start + i), ts[i].title, ts[i].criteria, ts[i].templateContent, None)];
      i := i + 1;
    }
  }

  /** `st.session_state.sections` with the counter that stands for uuid4. */
  class LegacyWorkspace {
    var sections: seq<LegacySection>
    var nextId: nat

    ghost predicate Valid()
      reads this
    {
      && LegacyDistinctIds(sections)
      && (forall i :: 0 <= i < |sections| ==> IssuedBelow(sections[i].id, nextId))
    }

    /** The page's first run: an empty list. */
    constructor ()
      ensures Valid() && sections == [] && nextId == 0
    {
      sections := [];
      nextId := 0;
    }

    /** `load_template`: the list is replaced by the named template's
        sections, and left empty for an unknown name. */
    method LoadTemplate(name: string)
      requires Valid()
      modifies this
      ensures Valid()
      ensures sections == LegacySectionsFrom(Lookup(LegacyTemplates, name), old(nextId))
      ensures nextId == old(nextId) + |Lookup(LegacyTemplates, name)|
    {
      var ts := Lookup(LegacyTemplates, name);
      var start := nextId;
      sections := BuildLegacySections(ts, start);
      nextId := start + |ts|;
      LegacySectionsFromShape(ts, start);
    }

    /** `delete_section`: removes position `index` when it exists, and is a
        no-op otherwise (negative indices included). */
    method DeleteSection(index: int)
      requires Valid()
      modifies this
      ensures Valid()
      ensures sections == RemoveAt(old(sections), index) && nextId == old(nextId)
    {
      RemoveAtShape(sections, index);
      if 0 <= index < |sections| {
        sections := sections[..index] + sections[index + 1..];
      }
    }

    /** `add_manual_section`: one new section at the end, with no result. */
    method AddManualSection(title: string, criteria: string, content: string)
      requires Valid()
      modifies this
      ensures Valid()
      ensures sections == old(sections) + [LegacySection(IdOf(old(nextId)), title, criteria, content, None)]
      ensures nextId == old(nextId) + 1
    {
      forall i | 0 <= i < |sections| ensures sections[i].id != IdOf(nextId) {
        IssuedBelowIsNotNext(sections[i].id, nextId);
      }
      var newId := IdOf(nextId);
      assert IssuedBelow(newId, nextId + 1);
      sections := sections + [LegacySection(newId, title, criteria, content, None)];
      nextId := nextId + 1;
      forall i | 0 <= i < |sections| ensures IssuedBelow(sections[i].id, nextId) {
        if i < |sections| - 1 {
          var k: nat :| k < nextId - 1 && IdOf(k) == sections[i].id;
          assert k < nextId && IdOf(k) == sections[i].id;
        }
      }
    }

    /** The "Add Section" form: a section is added exactly when its title is
        non-empty; otherwise the form reports "Title is required.". */
    method SubmitManualSection(title: string, criteria: string, content: string) returns (added: bool)
      requires Valid()
      modifies this
      ensures Valid()
      ensures added <==> title != []
      ensures added ==> sections == old(sections) + [LegacySection(IdOf(old(nextId)), title, criteria, content, None)]
      ensures !added ==> sections == old(sections) && nextId == old(nextId)
    {
      added := title != [];
      if added {
        AddManualSection(title, criteria, content);
      }
    }

    /** "Clear All". */
    method ClearAll()
      requires Valid()
      modifies this
      ensures Valid() && sections == [] && nextId == old(nextId)
    {
      sections := [];
    }

    /** The editor's text written back into section `i`. */
    method EditContent(i: nat, text: string)
      requires Valid() && i < |sections|
      modifies this
      ensures Valid() && nextId == old(nextId)
      ensures sections == old(sections)[i := old(sections)[i].(content := text)]
    {
      sections := sections[i := sections[i].(content := text)];
    }

    /** "Audit Section": the graph is run with no target issue and its final
        state becomes the section's result. */
    method AuditSection(i: nat,
                        auditLlm: LegacyAuditRequest -> LlmOutcome<LegacyAuditResponse>,
                        fixLlm: LegacyFixRequest -> LlmOutcome<LegacyFixResponse>)
      requires Valid() && i < |sections|
      modifies this
      ensures Valid() && nextId == old(nextId)
      ensures var sec := old(sections)[i];
        var inputs := LegacyState(sec.title, sec.content, sec.criteria, [], false, None);
        var u := LegacyAuditorNode(inputs, auditLlm);
        sections == old(sections)[i := sec.(result := Some(inputs.(issues := u.issues, isCompliant := u.isCompliant)))]
    {
      var sec := sections[i];
      var inputs := LegacyState(sec.title, sec.content, sec.criteria, [], false, None);
      var out := LegacyInvoke(inputs, auditLlm, fixLlm);
      LegacyInvokeRunsOneNode(inputs, auditLlm, fixLlm);
      sections := sections[i := sec.(result := Some(out.value.0))];
    }

    /** "Auto-Fix" on one of the displayed issues: the graph is run with that
        issue as target, the section's content becomes the final
        `document_text`, and its result is cleared. */
    method AutoFix(i: nat, issue: LegacyIssueDict,
                   auditLlm: LegacyAuditRequest -> LlmOutcome<LegacyAuditResponse>,
                   fixLlm: LegacyFixRequest -> LlmOutcome<LegacyFixResponse>)
      requires Valid() && i < |sections|
      modifies this
      ensures Valid() && nextId == old(nextId)
      ensures var sec := old(sections)[i];
        var inputs := LegacyState(sec.title, sec.content, sec.criteria, [], false, Some(issue));
        sections == old(sections)[i := sec.(content := FixedText(inputs, fixLlm), result := None)]
    {
      var sec := sections[i];
      var inputs := LegacyState(sec.title, sec.content, sec.criteria, [], false, Some(issue));
      var out := LegacyInvoke(inputs, auditLlm, fixLlm);
      LegacyInvokeRunsOneNode(inputs, auditLlm, fixLlm);
      sections := sections[i := sec.(content := out.value.0.documentText, result := None)];
    }
  }

  /** The text an auto-fix leaves in the section: the fixer's result for a
      non-empty issue, the unchanged content for `{}` (which routes to the
      auditor). */
  function FixedText(inputs: LegacyState, fixLlm: LegacyFixRequest -> LlmOutcome<LegacyFixResponse>): string {
    if LegacyTargetSet(inputs.targetIssue) then LegacyFixerNode(inputs, fixLlm).documentText
    else inputs.documentText
  }

  /** An auto-fix keeps the text when the model fails or no issue is set,
      and otherwise installs the model's rewrite. */
  lemma FixedTextCases(inputs: LegacyState, fixLlm: LegacyFixRequest -> LlmOutcome<LegacyFixResponse>)
    ensures LegacyTargetSet(inputs.targetIssue) && fixLlm(LegacyFixRequestFor(inputs)).Answered? ==>
      FixedText(inputs, fixLlm) == fixLlm(LegacyFixRequestFor(inputs)).value.fixedContent
    ensures !(LegacyTargetSet(inputs.targetIssue) && fixLlm(LegacyFixRequestFor(inputs)).Answered?) ==>
      FixedText(inputs, fixLlm) == inputs.documentText
  {
  }

  /** `sections.pop(index)` under the bounds check of `delete_section`. */
  function RemoveAt<T>(s: seq<T>, index: int): seq<T> {
    if 0 <= index < |s| then s[..index] + s[index + 1..] else s
  }

  /** Removing keeps every other element, in order, and shortens the list
      by one exactly when the index is in range. */
  lemma RemoveAtShape<T>(s: seq<T>, index: int)
    ensures 0 <= index < |s| ==>
      |RemoveAt(s, index)| == |s| - 1
      && (forall k :: 0 <= k < index ==> RemoveAt(s, index)[k] == s[k])
      && (forall k :: index <= k < |s| - 1 ==> RemoveAt(s, index)[k] == s[k + 1])
    ensures !(0 <= index < |s|) ==> RemoveAt(s, index) == s
    ensures multiset(RemoveAt(s, index)) <= multiset(s)
  {
    if 0 <= index < |s| {
      assert s == s[..index] + [s[index]] + s[index + 1..];
    }
  }
}
