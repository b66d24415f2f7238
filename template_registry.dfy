/**
 * The static catalogue of document templates (data/template_registry.py):
 * an insertion-ordered dictionary from template name to its list of
 * section templates.
 */
module TemplateRegistry {

  /** One section of a template: its heading, the guidance the author must
      follow, and the required format the audit enforces. */
  datatype SectionTemplate = SectionTemplate(title: string, criteria: string, templateContent: string)

  /** `TEMPLATES`, in the dictionary's insertion order. */
  const Templates: seq<(string, seq<SectionTemplate>)> := [
    ("Standard Project Charter", [
      SectionTemplate(
        "1. Reviewers",
        "Reviewers: You must list the name of the Q-PAR (for non-Focus Projects) or EPQ (for Focus Projects) as a mandatory reviewer. The author can optionally add additional reviewers.",
        "Reviewers: <Add Name of Q-PAR or EPQ> (Mandatory)\nAdditional Reviewers: <Add Optional Name>\nApprover: <Add Name of Department Head>"),
      SectionTemplate(
        "2. Problem Statement",
        "Describe the current situation, the specific pain points, and the business impact. Do not include the solution here. Focus only on the problem.",
        "Current Situation: <Describe the process as it exists today>\n\nPain Points:\n1. <Pain Point 1>\n2. <Pain Point 2>\n\nBusiness Impact: <Describe cost, time, or quality loss>"),
      SectionTemplate(
        "3. Objectives (SMART)",
        "Define SMART goals (Specific, Measurable, Achievable, Relevant, Time-bound). You MUST include at least one measurable KPI (Key Performance Indicator) and a target date.",
        "Goal: <Describe the main goal>\nKPI: <Measurable Metric> (Current: X -> Target: Y)\nTarget Date: <DD/MM/YYYY>"),
      SectionTemplate(
        "4. Risks & Mitigation",
        "List at least 2 potential risks to the project success and how you plan to mitigate them.",
        "Risk 1: <Description of Risk>\nMitigation 1: <Plan to avoid or reduce impact>\n\nRisk 2: <Description of Risk>\nMitigation 2: <Plan to avoid or reduce impact>")
    ]),
    ("Simple Document", [
      SectionTemplate(
        "1. Executive Summary",
        "Provide a high-level summary of the document in under 100 words.",
        "<Write summary here>"),
      SectionTemplate(
        "2. Key Highlights",
        "List exactly 3 key takeaways from the meeting or project.",
        "1. <Highlight 1>\n2. <Highlight 2>\n3. <Highlight 3>")
    ])
  ]

  /** The value stored under `name` in an association list with distinct
      keys, or `[]` when no key equals `name` (`dict.get(name, [])`). */
  function Lookup(entries: seq<(string, seq<SectionTemplate>)>, name: string): seq<SectionTemplate> {
    if entries == [] then []
    else if entries[0].0 == name then entries[0].1
    else Lookup(entries[1..], name)
  }

  /** `get_available_templates()`: `list(TEMPLATES.keys())`. */
  function GetAvailableTemplates(): seq<string> {
    Names(Templates)
  }

  /** The names of a list of registry entries, in order. */
  function Names(entries: seq<(string, seq<SectionTemplate>)>): (r: seq<string>)
    ensures |r| == |entries|
    ensures forall i :: 0 <= i < |entries| ==> r[i] == entries[i].0
  {
    if entries == [] then [] else [entries[0].0] + Names(entries[1..])
  }

  /** `get_template_sections(name)`. */
  function GetTemplateSections(name: string): seq<SectionTemplate> {
    Lookup(Templates, name)
  }

  /** Lookup is exact: it returns the value of the (first) entry whose key
      equals `name`, and `[]` when there is none. */
  lemma {:induction false} LookupExact(entries: seq<(string, seq<SectionTemplate>)>, name: string)
    ensures (forall i :: 0 <= i < |entries| ==> entries[i].0 != name) ==> Lookup(entries, name) == []
    ensures forall i :: 0 <= i < |entries| && entries[i].0 == name
                        && (forall j :: 0 <= j < i ==> entries[j].0 != name)
                        ==> Lookup(entries, name) == entries[i].1
  {
    if entries != [] {
      LookupExact(entries[1..], name);
      forall i | 0 <= i < |entries| && entries[i].0 == name && (forall j :: 0 <= j < i ==> entries[j].0 != name)
        ensures Lookup(entries, name) == entries[i].1
      {
        if i > 0 {
          assert entries[0].0 != name;
          assert forall j :: 0 <= j < i - 1 ==> entries[1..][j].0 != name by {
            forall j | 0 <= j < i - 1 ensures entries[1..][j].0 != name { assert entries[j + 1].0 != name; }
          }
        }
      }
    }
  }

  /** The registry's names are pairwise distinct, as dictionary keys are. */
  lemma TemplateNamesDistinct()
    ensures forall i, j :: 0 <= i < j < |Templates| ==> Templates[i].0 != Templates[j].0
  {
    assert Templates[0].0[1] != Templates[1].0[1];
  }

  /** `get_template_sections` answers the registered list for an exact,
      case-sensitive name and `[]` for every other name. */
  lemma GetTemplateSectionsExact(name: string)
    ensures name in GetAvailableTemplates() ==>
              exists i :: 0 <= i < |Templates| && Templates[i].0 == name && GetTemplateSections(name) == Templates[i].1
    ensures name !in GetAvailableTemplates() ==> GetTemplateSections(name) == []
  {
    LookupExact(Templates, name);
    TemplateNamesDistinct();
    if name in GetAvailableTemplates() {
      var i :| 0 <= i < |Templates| && GetAvailableTemplates()[i] == name;
      assert Templates[i].0 == name;
      assert forall j :: 0 <= j < i ==> Templates[j].0 != name;
      assert GetTemplateSections(name) == Templates[i].1;
      assert 0 <= i < |Templates| && Templates[i].0 == name && GetTemplateSections(name) == Templates[i].1;
    } else {
      assert forall i :: 0 <= i < |Templates| ==> Templates[i].0 != name by {
        forall i | 0 <= i < |Templates| ensures Templates[i].0 != name { assert GetAvailableTemplates()[i] == Templates[i].0; }
      }
      assert GetTemplateSections(name) == [];
    }
  }

  /** `get_available_templates` lists exactly the registry's names, each once. */
  lemma AvailableTemplatesAreKeys()
    ensures |GetAvailableTemplates()| == |Templates|
    ensures forall n :: n in GetAvailableTemplates() <==> exists i :: 0 <= i < |Templates| && Templates[i].0 == n
    ensures forall i, j :: 0 <= i < j < |GetAvailableTemplates()| ==> GetAvailableTemplates()[i] != GetAvailableTemplates()[j]
  {
    TemplateNamesDistinct();
    forall n ensures n in GetAvailableTemplates() <==> exists i :: 0 <= i < |Templates| && Templates[i].0 == n {
      if n in GetAvailableTemplates() {
        var k :| 0 <= k < |GetAvailableTemplates()| && GetAvailableTemplates()[k] == n;
        assert Templates[k].0 == n;
      }
      if exists i :: 0 <= i < |Templates| && Templates[i].0 == n {
        var i :| 0 <= i < |Templates| && Templates[i].0 == n;
        assert GetAvailableTemplates()[i] == n;
      }
    }
  }

  /** The two shipped templates, their sizes and their section order; names
      are matched case-sensitively. */
  lemma ShippedTemplates()
    ensures GetAvailableTemplates() == ["Standard Project Charter", "Simple Document"]
    ensures |GetTemplateSections("Standard Project Charter")| == 4
    ensures |GetTemplateSections("Simple Document")| == 2
    ensures GetTemplateSections("simple document") == []
    ensures [GetTemplateSections("Standard Project Charter")[0].title,
             GetTemplateSections("Standard Project Charter")[1].title,
             GetTemplateSections("Standard Project Charter")[2].title,
             GetTemplateSections("Standard Project Charter")[3].title]
            == ["1. Reviewers", "2. Problem Statement", "3. Objectives (SMART)", "4. Risks & Mitigation"]
    ensures [GetTemplateSections("Simple Document")[0].title, GetTemplateSections("Simple Document")[1].title]
            == ["1. Executive Summary", "2. Key Highlights"]
  {
    GetTemplateSectionsExact("simple document");
  }

  /** Every section template has a non-empty title, guidance and format. */
  lemma TemplateFieldsNonEmpty()
    ensures forall i, k :: 0 <= i < |Templates| && 0 <= k < |Templates[i].1| ==>
      Templates[i].1[k].title != "" && Templates[i].1[k].criteria != "" && Templates[i].1[k].templateContent != ""
  {
  }
}
