/** The structured model output the backend records (`parseContent` and
    `extractSection` in src/api.js): the reasoning and the answer sit between
    bracketed markers `[[ ## name ## ]]`. */
module Sections {
  import opened Wrappers
  import opened Json
  import opened Text

  const ReasoningMarker: string := "[[ ## reasoning ## ]]"
  const AnswerMarker: string := "[[ ## answer ## ]]"
  const CompletedMarker: string := "[[ ## completed ## ]]"

  /** `extractSection(content, start, end)`: the trimmed text after the first
      `start` marker up to the first `end` marker after it, or to the end of the
      text when there is none; empty when `start` does not occur. */
  function ExtractSection(content: string, start: string, end: string): (r: string)
    ensures !Contains(content, start) ==> r == ""
    ensures |r| <= |content|
  {
    if content == "" then ""
    else match IndexOf(content, start, 0)
      case None => ""
      case Some(i) =>
        var from := i + |start|;
        match IndexOf(content, end, from)
        case None => Trim(content[from..])
        case Some(e) => Trim(content[from..e])
  }

  /** The outcome of `parseContent`: the answer and the reasoning. */
  datatype Parsed = Parsed(answer: string, reasoning: string)

  /** `parseContent(content)`. `None` stands for the `TypeError` it throws on a
      value that is neither falsy, a string nor an array: such values have no
      `indexOf`. An array has one (comparing elements with `===`): a marker
      element found there leads to `trim` of an array, which throws too. */
  function ParseContent(content: Json): (r: Option<Parsed>)
    ensures !Truthy(content) ==> r == Some(Parsed("", ""))
    ensures content.JStr? ==> r.Some?
    ensures r.None? <==> (Truthy(content) && (content.JNum? || content.JBool? || content.JObj?
      || (content.JArr? && (JStr(ReasoningMarker) in content.items || JStr(AnswerMarker) in content.items))))
  {
    if !Truthy(content) then Some(Parsed("", ""))
    else match content
      case JStr(s) =>
        Some(Parsed(ExtractSection(s, AnswerMarker, CompletedMarker), ExtractSection(s, ReasoningMarker, AnswerMarker)))
      case JArr(items) =>
        if JStr(ReasoningMarker) in items || JStr(AnswerMarker) in items then None
        else Some(Parsed("", ""))
      case _ => None
  }

  /** How the backend lays out a response: reasoning and answer between the markers. */
  function Render(reasoning: string, answer: string): string {
    ReasoningMarker + reasoning + AnswerMarker + answer + CompletedMarker
  }

  /** A text without `[` contains no marker, since every marker starts with `[`. */
  predicate NoBracket(s: string) {
    forall i :: 0 <= i < |s| ==> s[i] != '['
  }

  /** No pattern beginning with `[` occurs at a position holding another character. */
  lemma NoOccurrenceWithoutBracket(s: string, pat: string, lo: nat, hi: nat)
    requires pat != [] && pat[0] == '[' && hi <= |s|
    requires forall j :: lo <= j < hi ==> s[j] != '['
    ensures forall j :: lo <= j < hi ==> !OccursAt(s, pat, j)
  {
    forall j | lo <= j < hi ensures !OccursAt(s, pat, j) {
      if j + |pat| <= |s| {
        assert s[j..j + |pat|][0] == s[j];
      }
    }
  }

  /** Parsing what `Render` produced gives the trimmed answer and reasoning back. */
  lemma ParseRender(reasoning: string, answer: string)
    requires NoBracket(reasoning) && NoBracket(answer)
    ensures ParseContent(JStr(Render(reasoning, answer))) == Some(Parsed(Trim(answer), Trim(reasoning)))
  {
    var s := Render(reasoning, answer);
    var p2 := |ReasoningMarker| + |reasoning|;
    var p3 := p2 + |AnswerMarker| + |answer|;
    RenderLayout(reasoning, answer);
    ReasoningFound(reasoning, answer);
    AnswerFound(reasoning, answer);
    CompletedFound(reasoning, answer);
    assert s != "";
  }

  /** Where the pieces of a rendered text lie. */
  lemma RenderLayout(reasoning: string, answer: string)
    ensures var s := Render(reasoning, answer);
      var p2 := |ReasoningMarker| + |reasoning|;
      var p3 := p2 + |AnswerMarker| + |answer|;
      && |s| == p3 + |CompletedMarker|
      && s[..|ReasoningMarker|] == ReasoningMarker
      && s[|ReasoningMarker|..p2] == reasoning
      && s[p2..p2 + |AnswerMarker|] == AnswerMarker
      && s[p2 + |AnswerMarker|..p3] == answer
      && s[p3..] == CompletedMarker
  {
  }

  lemma ReasoningFound(reasoning: string, answer: string)
    ensures IndexOf(Render(reasoning, answer), ReasoningMarker, 0) == Some(0)
  {
    RenderLayout(reasoning, answer);
    IndexOfIs(Render(reasoning, answer), ReasoningMarker, 0, 0);
  }

  /** The first answer marker, searched from the start or after the reasoning
      marker, is the one that follows the reasoning. */
  lemma AnswerFound(reasoning: string, answer: string)
    requires NoBracket(reasoning)
    ensures var p2 := |ReasoningMarker| + |reasoning|;
      && IndexOf(Render(reasoning, answer), AnswerMarker, 0) == Some(p2)
      && IndexOf(Render(reasoning, answer), AnswerMarker, |ReasoningMarker|) == Some(p2)
  {
    AnswerFoundFrom(reasoning, answer, 0);
    AnswerFoundFrom(reasoning, answer, |ReasoningMarker|);
  }

  lemma AnswerFoundFrom(reasoning: string, answer: string, from: nat)
    requires NoBracket(reasoning) && from <= |ReasoningMarker|
    ensures IndexOf(Render(reasoning, answer), AnswerMarker, from) == Some(|ReasoningMarker| + |reasoning|)
  {
    var s := Render(reasoning, answer);
    var p2 := |ReasoningMarker| + |reasoning|;
    AnswerMarkerAt(reasoning, answer);
    BracketsBeforeAnswer(reasoning, answer);
    NoOccurrenceWithoutBracket(s, AnswerMarker, 2, p2);
    NoAnswerInReasoningMarker(reasoning, answer);
    forall j | from <= j < p2
      ensures !OccursAt(s, AnswerMarker, j)
    {
      assert j < 2 || 2 <= j < p2;
    }
    IndexOfIs(s, AnswerMarker, from, p2);
  }

  lemma AnswerMarkerAt(reasoning: string, answer: string)
    ensures OccursAt(Render(reasoning, answer), AnswerMarker, |ReasoningMarker| + |reasoning|)
  {
    RenderLayout(reasoning, answer);
  }

  /** Between the opening `[[` and the answer marker there is no `[`. */
  lemma BracketsBeforeAnswer(reasoning: string, answer: string)
    requires NoBracket(reasoning)
    ensures var s := Render(reasoning, answer);
      forall j :: 2 <= j < |ReasoningMarker| + |reasoning| ==> s[j] != '['
  {
    var s := Render(reasoning, answer);
    RenderLayout(reasoning, answer);
    forall j | 2 <= j < |ReasoningMarker| + |reasoning| ensures s[j] != '[' {
      if j < |ReasoningMarker| {
        assert s[j] == s[..|ReasoningMarker|][j];
      } else {
        assert s[j] == s[|ReasoningMarker|..|ReasoningMarker| + |reasoning|][j - |ReasoningMarker|];
      }
    }
  }

  /** The answer marker does not start at either `[` of the reasoning marker. */
  lemma NoAnswerInReasoningMarker(reasoning: string, answer: string)
    ensures !OccursAt(Render(reasoning, answer), AnswerMarker, 0)
    ensures !OccursAt(Render(reasoning, answer), AnswerMarker, 1)
  {
    var s := Render(reasoning, answer);
    RenderLayout(reasoning, answer);
    assert s[6] == s[..|ReasoningMarker|][6] == 'r';
    assert s[2] == s[..|ReasoningMarker|][2] == ' ';
    if |AnswerMarker| <= |s| {
      assert s[0..|AnswerMarker|][6] == s[6];
      assert s[1..1 + |AnswerMarker|][1] == s[2];
    }
  }

  /** The first completed marker after the answer marker is the final one. */
  lemma CompletedFound(reasoning: string, answer: string)
    requires NoBracket(answer)
    ensures var p2 := |ReasoningMarker| + |reasoning|;
      var p3 := p2 + |AnswerMarker| + |answer|;
      IndexOf(Render(reasoning, answer), CompletedMarker, p2 + |AnswerMarker|) == Some(p3)
  {
    var s := Render(reasoning, answer);
    var p2 := |ReasoningMarker| + |reasoning|;
    var p3 := p2 + |AnswerMarker| + |answer|;
    RenderLayout(reasoning, answer);
    forall j | p2 + |AnswerMarker| <= j < p3 ensures s[j] != '[' {
      assert s[j] == answer[j - p2 - |AnswerMarker|];
    }
    NoOccurrenceWithoutBracket(s, CompletedMarker, p2 + |AnswerMarker|, p3);
    IndexOfIs(s, CompletedMarker, p2 + |AnswerMarker|, p3);
  }
}
