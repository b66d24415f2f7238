/**
 * backend/ingestion.py: the statistics shown after a PDF import and the
 * arguments the structuring model is created with. Converting the PDF and
 * calling the model are outside this module.
 */
module Ingestion {
  import opened Wrappers
  import opened Text

  /** One section extracted from a PDF; every field is required. */
  datatype ProjectSection = ProjectSection(
    title: string,
    guidance: string,
    requiredFormat: string,
    content: string)

  /** The structured output the model is asked for. */
  datatype CharterStructure = CharterStructure(sections: seq<ProjectSection>)

  /** `get_pdf_stats` without the reading-time estimate. */
  datatype PdfStats = PdfStats(wordCount: nat, sectionCount: nat)

  function GetPdfStats(rawText: string, sections: seq<ProjectSection>): (st: PdfStats)
    ensures st.sectionCount == |sections|
    ensures st.wordCount == WordStarts(rawText, true)
  {
    SplitCountsWordStarts(rawText);
    PdfStats(|Split(rawText)|, |sections|)
  }

  /** No word starts in blank text, and at least one in any other text. */
  lemma {:induction false} WordStartsZeroIffBlank(s: string)
    ensures WordStarts(s, true) == 0 <==> AllSpace(s)
    decreases |s|
  {
    if s != [] {
      WordStartsZeroIffBlank(s[1..]);
      if IsSpace(s[0]) {
        assert AllSpace(s) <==> AllSpace(s[1..]);
      } else {
        assert !AllSpace(s);
      }
    }
  }

  /** The word count is zero exactly for blank (in particular empty) text. */
  lemma WordCountZeroIffBlank(rawText: string, sections: seq<ProjectSection>)
    ensures GetPdfStats(rawText, sections).wordCount == 0 <==> AllSpace(rawText)
    ensures GetPdfStats([], sections).wordCount == 0
  {
    WordStartsZeroIffBlank(rawText);
  }

  /** Words separated by any amount of whitespace are counted once each. */
  lemma WordCountExample(sections: seq<ProjectSection>)
    ensures GetPdfStats(" a  bc\n", sections).wordCount == 2
  {
    assert IsSpace(' ') && IsSpace('\n') && !IsSpace('a') && !IsSpace('b') && !IsSpace('c');
    assert WordStarts("\n", false) == 0 by { assert "\n"[1..] == ""; }
    assert WordStarts("c\n", false) == 0 by { assert "c\n"[1..] == "\n"; }
    assert WordStarts("bc\n", true) == 1 by { assert "bc\n"[1..] == "c\n"; }
    assert WordStarts(" bc\n", true) == 1 by { assert " bc\n"[1..] == "bc\n"; }
    assert WordStarts("  bc\n", false) == 1 by { assert "  bc\n"[1..] == " bc\n"; }
    assert WordStarts("a  bc\n", true) == 2 by { assert "a  bc\n"[1..] == "  bc\n"; }
    assert WordStarts(" a  bc\n", true) == 2 by { assert " a  bc\n"[1..] == "a  bc\n"; }
  }

  /** A value passed to the model constructor. */
  datatype Arg = StrArg(s: string) | IntArg(n: int)

  /** The `model_name` default of `parse_charter_pdf`. */
  const DefaultModel := "gpt-4o"

  /** The keyword arguments built in `parse_charter_pdf`: the key as given,
      the model as given or "gpt-4o" when the caller passes none,
      temperature 0, and the base URL only when it is set and not blank. */
  method BuildLlmKwargs(apiKey: string, modelName: Option<string>, baseUrl: Option<string>)
    returns (kwargs: map<string, Arg>)
    ensures kwargs.Keys <= {"api_key", "model", "temperature", "base_url"}
    ensures "api_key" in kwargs && kwargs["api_key"] == StrArg(apiKey)
    ensures "model" in kwargs && kwargs["model"] == StrArg(modelName.GetOr(DefaultModel))
    ensures modelName.None? ==> kwargs["model"] == StrArg("gpt-4o")
    ensures "temperature" in kwargs && kwargs["temperature"] == IntArg(0)
    ensures "base_url" in kwargs <==> baseUrl.Some? && !AllSpace(baseUrl.value)
    ensures "base_url" in kwargs ==> kwargs["base_url"] == StrArg(baseUrl.value)
  {
    kwargs := map["api_key" := StrArg(apiKey), "model" := StrArg(modelName.GetOr(DefaultModel)), "temperature" := IntArg(0)];
    if baseUrl.Some? && baseUrl.value != [] && Trim(baseUrl.value) != [] {
      kwargs := kwargs["base_url" := StrArg(baseUrl.value)];
    }
    TrimEmptyIffBlank(if baseUrl.Some? then baseUrl.value else []);
  }
}
