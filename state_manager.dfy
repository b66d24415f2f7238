/**
 * The document workspace of app/state_manager.py: the list of sections the
 * author edits, each with its metadata, its content, the last audit result
 * and a status, plus the last whole-document review result.
 */
module StateManager {
  import opened Wrappers
  import opened Ids
  import opened Models
  import opened TemplateRegistry

  datatype Status = Draft | Compliant | Flagged

  datatype Meta = Meta(title: string, criteria: string, templateStructure: string)

  datatype UserData = UserData(content: string, lastAudit: Option<AuditRecord>, status: Status)

  datatype Section = Section(id: string, meta: Meta, userData: UserData)

  /** The status always tells what the stored audit says: no audit while
      drafting, a compliant verdict when compliant, anything else when flagged. */
  predicate StatusAgrees(s: Section) {
    match s.userData.status
    case Draft => s.userData.lastAudit.None?
    case Compliant => s.userData.lastAudit.Some? && s.userData.lastAudit.value.isCompliant == Some(true)
    case Flagged => s.userData.lastAudit.Some? && s.userData.lastAudit.value.isCompliant != Some(true)
  }

  predicate AllStatusesAgree(s: seq<Section>) {
    forall i :: 0 <= i < |s| ==> StatusAgrees(s[i])
  }

  predicate DistinctIds(s: seq<Section>) {
    forall i, j :: 0 <= i < j < |s| ==> s[i].id != s[j].id
  }

  /** The section built for one template entry. */
  function NewSection(id: string, t: SectionTemplate): Section {
    Section(id, Meta(t.title, t.criteria, t.templateContent), UserData("", None, Draft))
  }

  /** The sections one load builds, with identifiers drawn from `next` on. */
  function SectionsFromTemplates(ts: seq<SectionTemplate>, next: nat): (r: seq<Section>)
    ensures |r| == |ts|
    ensures forall k :: 0 <= k < |ts| ==> r[k] == NewSection(IdOf(next + k), ts[k])
  {
    if ts == [] then [] else [NewSection(IdOf(next), ts[0])] + SectionsFromTemplates(ts[1..], next + 1)
  }

  /** A load builds one blank draft per template entry, in registry order,
      copying the template's format into `template_structure`, under
      pairwise distinct fresh identifiers. */
  lemma LoadedSectionsShape(ts: seq<SectionTemplate>, next: nat)
    ensures |SectionsFromTemplates(ts, next)| == |ts|
    ensures forall k :: 0 <= k < |ts| ==>
      SectionsFromTemplates(ts, next)[k].meta == Meta(ts[k].title, ts[k].criteria, ts[k].templateContent)
      && SectionsFromTemplates(ts, next)[k].userData == UserData("", None, Draft)
    ensures DistinctIds(SectionsFromTemplates(ts, next))
    ensures AllStatusesAgree(SectionsFromTemplates(ts, next))
    ensures forall k :: 0 <= k < |ts| ==> IssuedBelow(SectionsFromTemplates(ts, next)[k].id, next + |ts|)
  {
    var r := SectionsFromTemplates(ts, next);
    forall i, j | 0 <= i < j < |r| ensures r[i].id != r[j].id {
      IdOfInjective(next + i, next + j);
    }
    forall k | 0 <= k < |ts| ensures IssuedBelow(r[k].id, next + |ts|) {
      assert IdOf(next + k) == r[k].id;
    }
  }

  /** Index of the first section whose id is `id` (the one
      `get_section_by_id` returns), if any. */
  function IndexOfId(s: seq<Section>, id: string): (r: Option<nat>)
    ensures r.Some? ==> r.value < |s| && s[r.value].id == id
                        && forall j :: 0 <= j < r.value ==> s[j].id != id
    ensures r.None? ==> forall j :: 0 <= j < |s| ==> s[j].id != id
  {
    if s == [] then None
    else if s[0].id == id then Some(0)
    else match IndexOfId(s[1..], id)
      case None => None
      case Some(k) => Some(k + 1)
  }

  /** `get_section_by_id`: the first section with that id, or None. */
  function SectionById(s: seq<Section>, id: string): Option<Section> {
    match IndexOfId(s, id)
    case None => None
    case Some(i) => Some(s[i])
  }

  /** The answer is the first section carrying `id`, and None exactly when
      no section carries it. */
  lemma SectionByIdIsFirstMatch(s: seq<Section>, id: string)
    ensures SectionById(s, id).None? <==> forall j :: 0 <= j < |s| ==> s[j].id != id
    ensures SectionById(s, id).Some? ==>
      exists i :: 0 <= i < |s| && s[i] == SectionById(s, id).value && s[i].id == id
                  && forall j :: 0 <= j < i ==> s[j].id != id
  {
  }

  /** One section after `update_section_content`: the new text, and a reset
      to a fresh draft when it had been audited. */
  function WithContent(sec: Section, c: string): Section {
    if sec.userData.status != Draft then sec.(userData := UserData(c, None, Draft))
    else sec.(userData := sec.userData.(content := c))
  }

  /** One section after `update_section_audit_result`. */
  function WithAudit(sec: Section, r: AuditRecord): Section {
    sec.(userData := sec.userData.(lastAudit := Some(r),
                                  status := if r.isCompliant == Some(true) then Compliant else Flagged))
  }

  /** The section list after `update_section_content(id, c)`. */
  function EditContent(s: seq<Section>, id: string, c: string): seq<Section> {
    match IndexOfId(s, id)
    case None => s
    case Some(i) => s[i := WithContent(s[i], c)]
  }

  /** The section list after `update_section_audit_result(id, r)`. */
  function RecordAudit(s: seq<Section>, id: string, r: AuditRecord): seq<Section> {
    match IndexOfId(s, id)
    case None => s
    case Some(i) => s[i := WithAudit(s[i], r)]
  }

  /** Editing sets the content of the first section with that id, leaves it
      a draft with no audit, and touches nothing else; an unknown id changes
      nothing. */
  lemma EditContentEffect(s: seq<Section>, id: string, c: string)
    requires AllStatusesAgree(s)
    ensures var r := EditContent(s, id, c);
      |r| == |s|
      && (IndexOfId(s, id).None? ==> r == s)
      && (IndexOfId(s, id).Some? ==>
            var i := IndexOfId(s, id).value;
            r[i] == Section(s[i].id, s[i].meta, UserData(c, None, Draft))
            && forall j :: 0 <= j < |s| && j != i ==> r[j] == s[j])
  {
  }

  /** Recording an audit stores it and sets the status to compliant exactly
      when `is_compliant` is true (a missing key counts as false); other
      sections and an unknown id are left alone. */
  lemma RecordAuditEffect(s: seq<Section>, id: string, a: AuditRecord)
    ensures var r := RecordAudit(s, id, a);
      |r| == |s|
      && (IndexOfId(s, id).None? ==> r == s)
      && (IndexOfId(s, id).Some? ==>
            var i := IndexOfId(s, id).value;
            r[i].id == s[i].id && r[i].meta == s[i].meta
            && r[i].userData.content == s[i].userData.content
            && r[i].userData.lastAudit == Some(a)
            && (r[i].userData.status == Compliant <==> a.isCompliant == Some(true))
            && (r[i].userData.status == Flagged <==> a.isCompliant != Some(true))
            && forall j :: 0 <= j < |s| && j != i ==> r[j] == s[j])
  {
  }

  /** Both updates keep identifiers, keep them distinct, and keep every
      status in agreement with its audit. */
  lemma UpdatesPreserveInvariant(s: seq<Section>, id: string, c: string, a: AuditRecord)
    requires DistinctIds(s) && AllStatusesAgree(s)
    ensures DistinctIds(EditContent(s, id, c)) && AllStatusesAgree(EditContent(s, id, c))
    ensures DistinctIds(RecordAudit(s, id, a)) && AllStatusesAgree(RecordAudit(s, id, a))
    ensures forall k :: 0 <= k < |s| ==> EditContent(s, id, c)[k].id == s[k].id && RecordAudit(s, id, a)[k].id == s[k].id
  {
  }

  /** The loop of `load_template_into_state`: one new section per entry,
      numbering identifiers from `start`. */
  method BuildSections(raw: seq<SectionTemplate>, start: nat) returns (built: seq<Section>)
    ensures built == SectionsFromTemplates(raw, start)
  {
    built := [];
    var i := 0;
    while i < |raw|
      invariant 0 <= i <= |raw|
      invariant |built| == i
      invariant forall k :: 0 <= k < i ==> built[k] == NewSection(IdOf(start + k), raw[k])
    {
      built := built + [NewSection(IdOf(start + i), raw[i])];
      i := i + 1;
    }
  }

  /**
   * `st.session_state[SESSION_KEY]` and the functions over it. `present`
   * says whether the workspace key exists at all; while it does not, the
   * other fields are at their empty values. `nextId` is the identifier
   * counter standing in for `uuid4`.
   */
  class Workspace {
    var present: bool
    var activeTemplateName: Option<string>
    var sections: seq<Section>
    var globalResult: Option<ConsistencyRecord>
    var nextId: nat

    ghost predicate Valid()
      reads this
    {
      && DistinctIds(sections)
      && AllStatusesAgree(sections)
      && (forall i :: 0 <= i < |sections| ==> IssuedBelow(sections[i].id, nextId))
      && (!present ==> sections == [] && activeTemplateName == None && globalResult == None)
    }

    /** A browser session before `initialize_session` has run. */
    constructor ()
      ensures Valid() && !present && sections == [] && nextId == 0
    {
      present := false;
      activeTemplateName := None;
      sections := [];
      globalResult := None;
      nextId := 0;
    }

    /** `initialize_session`: creates an empty workspace only when there is none. */
    method InitializeSession()
      requires Valid()
      modifies this
      ensures Valid() && present
      ensures old(present) ==> unchanged(this)
      ensures !old(present) ==>
        activeTemplateName == None && sections == [] && globalResult == None && nextId == old(nextId)
    {
      if !present {
        present := true;
        activeTemplateName := None;
        sections := [];
        globalResult := None;
      }
    }

    /** `load_template_into_state`: replaces the workspace with one blank draft
        per entry of the named template; the global result is dropped. */
    method LoadTemplateIntoState(name: string)
      requires Valid()
      modifies this
      ensures Valid() && present
      ensures activeTemplateName == Some(name)
      ensures sections == SectionsFromTemplates(GetTemplateSections(name), old(nextId))
      ensures globalResult == None
      ensures nextId == old(nextId) + |GetTemplateSections(name)|
    {
      var raw := GetTemplateSections(name);
      var built := BuildSections(raw, nextId);
      nextId := nextId + |raw|;
      LoadedSectionsShape(raw, old(nextId));
      present := true;
      activeTemplateName := Some(name);
      sections := built;
      globalResult := None;
    }

    /** `get_sections`. */
    method GetSections() returns (r: seq<Section>)
      requires present
      ensures r == sections
    {
      r := sections;
    }

    /** The linear search of `get_section_by_id`, answering the position of
        the section it returns. */
    method LocateSection(id: string) returns (idx: Option<nat>)
      requires present
      ensures idx == IndexOfId(sections, id)
    {
      var i := 0;
      while i < |sections|
        invariant 0 <= i <= |sections|
        invariant forall j :: 0 <= j < i ==> sections[j].id != id
      {
        if sections[i].id == id {
          IndexIsFirst(sections, id, i);
          return Some(i);
        }
        i := i + 1;
      }
      return None;
    }

    /** `get_section_by_id`. */
    method GetSectionById(id: string) returns (r: Option<Section>)
      requires present
      ensures r == SectionById(sections, id)
    {
      var idx := LocateSection(id);
      r := if idx.Some? then Some(sections[idx.value]) else None;
    }

    /** `update_section_content`. */
    method UpdateSectionContent(id: string, c: string)
      requires Valid() && present
      modifies this
      ensures Valid() && present
      ensures sections == EditContent(old(sections), id, c)
      ensures activeTemplateName == old(activeTemplateName) && globalResult == old(globalResult) && nextId == old(nextId)
    {
      var idx := LocateSection(id);
      UpdatesPreserveInvariant(sections, id, c, EmptyAuditRecord);
      if idx.Some? {
        sections := sections[idx.value := WithContent(sections[idx.value], c)];
      }
    }

    /** `update_section_audit_result`. */
    method UpdateSectionAuditResult(id: string, a: AuditRecord)
      requires Valid() && present
      modifies this
      ensures Valid() && present
      ensures sections == RecordAudit(old(sections), id, a)
      ensures activeTemplateName == old(activeTemplateName) && globalResult == old(globalResult) && nextId == old(nextId)
    {
      var idx := LocateSection(id);
      UpdatesPreserveInvariant(sections, id, "", a);
      if idx.Some? {
        sections := sections[idx.value := WithAudit(sections[idx.value], a)];
      }
    }

    /** `update_global_audit_result`. */
    method UpdateGlobalAuditResult(g: ConsistencyRecord)
      requires Valid() && present
      modifies this
      ensures Valid() && present
      ensures globalResult == Some(g)
      ensures sections == old(sections) && activeTemplateName == old(activeTemplateName) && nextId == old(nextId)
    {
      globalResult := Some(g);
    }

    /** `get_global_audit_result`. */
    method GetGlobalAuditResult() returns (r: Option<ConsistencyRecord>)
      requires present
      ensures r == globalResult
    {
      r := globalResult;
    }

    /** `clear_workspace`: no template, no sections, no global result. */
    method ClearWorkspace()
      requires Valid()
      modifies this
      ensures Valid() && present
      ensures activeTemplateName == None && sections == [] && globalResult == None && nextId == old(nextId)
    {
      present := true;
      activeTemplateName := None;
      sections := [];
      globalResult := None;
    }
  }

  lemma IndexIsFirst(s: seq<Section>, id: string, i: nat)
    requires i < |s| && s[i].id == id
    requires forall j :: 0 <= j < i ==> s[j].id != id
    ensures IndexOfId(s, id) == Some(i)
  {
    var r := IndexOfId(s, id);
    assert r.Some?;
    assert s[r.value].id == id;
  }
}
