/** The chat panel's display rules (src/components/ChatPanel.jsx): how the
    streamed reasoning is cut into steps, what follows the message list,
    when the streamed answer is shown, and the input, retry and copy
    actions. */
module ChatPanel {
  import opened Wrappers
  import opened Text
  import opened Stream
  import opened ChatApp

  const StepSep: string := "\n\n"
  const FinalAnswer: string := "final_answer"

  /** The reasoning shown as separate steps: its `"\n\n"`-separated pieces
      that are not blank, in order. */
  function ReasoningSteps(reasoning: string): (r: seq<string>)
    ensures reasoning == "" ==> r == []
    ensures forall k :: 0 <= k < |r| ==> !IsBlank(r[k]) && !Contains(r[k], StepSep)
    ensures reasoning != "" ==> forall k :: 0 <= k < |r| ==> r[k] in Split(reasoning, StepSep)
    ensures reasoning != "" ==> forall p :: p in Split(reasoning, StepSep) && !IsBlank(p) ==> p in r
  {
    if reasoning == "" then []
    else
      SplitPiecesFree(reasoning, StepSep);
      NonBlank(Split(reasoning, StepSep))
  }

  /** Reasoning made of pieces separated by blank lines has exactly the
      non-blank pieces as its steps, in order. A piece may span several
      lines, as long as it holds no blank line and does not end with a
      line break. */
  lemma StepsOfPieces(pieces: seq<string>)
    requires |pieces| >= 1
    requires forall k :: 0 <= k < |pieces| ==>
      !Contains(pieces[k], StepSep) && (pieces[k] == "" || pieces[k][|pieces[k]| - 1] != '\n')
    ensures ReasoningSteps(Join(pieces, StepSep)) == NonBlank(pieces)
  {
    forall k | 0 <= k < |pieces| ensures SepFree(pieces[k], StepSep) {
      OneBreakAfter(pieces[k]);
    }
    SplitJoinSepFree(pieces, StepSep);
    if Join(pieces, StepSep) == "" {
      assert pieces == Split("", StepSep) == [""];
      NonBlankOne("");
    }
  }

  /** A piece with no blank line that does not end with a line break is
      still free of blank lines once a line break follows it. */
  lemma OneBreakAfter(x: string)
    requires !Contains(x, StepSep) && (x == "" || x[|x| - 1] != '\n')
    ensures SepFree(x, StepSep)
  {
    var t := x + StepSep[..1];
    IndexOfFirst(x, StepSep, 0);
    IndexOfFirst(t, StepSep, 0);
    if x != "" {
      forall j | 0 <= j && j + 2 <= |t| ensures !OccursAt(t, StepSep, j) {
        if j + 2 <= |x| {
          assert t[j..j + 2] == x[j..j + 2];
          assert !OccursAt(x, StepSep, j);
        } else {
          assert t[j..j + 2][0] == x[|x| - 1] && StepSep[0] == '\n';
        }
      }
    }
  }

  /** Joining the steps back gives the reasoning when no piece is blank. */
  lemma StepsRejoin(reasoning: string)
    requires reasoning != ""
    requires forall k :: 0 <= k < |Split(reasoning, StepSep)| ==> !IsBlank(Split(reasoning, StepSep)[k])
    ensures Join(ReasoningSteps(reasoning), StepSep) == reasoning
  {
    NonBlankKeepsAll(Split(reasoning, StepSep));
    JoinSplit(reasoning, StepSep);
  }

  /** What the message list renders, in order. */
  datatype Item = Bubble(index: nat) | Thinking | Streaming(content: string, reasoning: string, stepType: string)

  function Bubbles(n: nat): (r: seq<Item>)
    ensures |r| == n && forall k :: 0 <= k < n ==> r[k] == Bubble(k)
  {
    if n == 0 then [] else Bubbles(n - 1) + [Bubble(n - 1)]
  }

  /** One bubble per message; after a trailing user message, the thinking
      indicator while nothing has streamed, the streaming bubble otherwise. */
  function Render(messages: seq<Message>, streamingMessage: string, streamingReasoning: string, stepType: string): (r: seq<Item>)
    ensures |r| >= |messages| && r[..|messages|] == Bubbles(|messages|)
    ensures |messages| > 0 && messages[|messages| - 1].role == User ==> |r| == |messages| + 1
    ensures !(|messages| > 0 && messages[|messages| - 1].role == User) ==> |r| == |messages|
    ensures Thinking in r <==> |messages| > 0 && messages[|messages| - 1].role == User && streamingMessage == "" && streamingReasoning == ""
    ensures (exists k :: 0 <= k < |r| && r[k].Streaming?) <==>
      |messages| > 0 && messages[|messages| - 1].role == User && (streamingMessage != "" || streamingReasoning != "")
  {
    var bubbles := Bubbles(|messages|);
    if |messages| > 0 && messages[|messages| - 1].role == User then
      var extra := if streamingMessage == "" && streamingReasoning == "" then Thinking
                   else Streaming(streamingMessage, streamingReasoning, stepType);
      assert (bubbles + [extra])[|messages|] == extra;
      bubbles + [extra]
    else bubbles
  }

  /** The streaming bubble shows the answer only in the final-answer step. */
  predicate ShowsAnswer(content: string, stepType: string) {
    content != "" && stepType == FinalAnswer
  }

  /** The step type stays empty through a whole exchange, so the streaming
      bubble never shows the streamed answer, only the reasoning. */
  lemma {:induction false} StepTypeStaysEmpty(c: Chat, text: string, es: seq<Event>)
    requires c.streamingStepType == ""
    ensures OnEvents(c, text, es).streamingStepType == ""
    ensures !ShowsAnswer(OnEvents(c, text, es).streamingMessage, OnEvents(c, text, es).streamingStepType)
    decreases |es|
  {
    if es != [] {
      StepTypeStaysEmpty(OnEvent(c, text, es[0]), text, es[1..]);
    }
  }

  lemma StreamedAnswerNeverShown(c: Chat, text: string, es: seq<Event>)
    ensures var r := OnEvents(SendMessage(c, text), text, es);
      !ShowsAnswer(r.streamingMessage, r.streamingStepType)
  {
    StepTypeStaysEmpty(SendMessage(c, text), text, es);
  }

  datatype Submission = Submission(sent: Option<string>, input: string)

  /** `handleSubmit`: the input as typed is sent when it is not blank, and
      the field is cleared; a blank input stays and nothing is sent. */
  function Submit(input: string): (r: Submission)
    ensures r.sent.Some? <==> !IsBlank(input)
    ensures r.sent.Some? ==> r.sent.value == input && r.input == ""
    ensures r.sent.None? ==> r.input == input
  {
    TrimEmptyIffBlank(input);
    if Trim(input) != "" then Submission(Some(input), "") else Submission(None, input)
  }

  /** The retry button: the message's retry text, falling back to its
      content; nothing when both are empty. */
  function RetryText(m: Message): (r: Option<string>)
    ensures r.Some? ==> r.value != "" && (r.value == m.retryContent || (m.retryContent == "" && r.value == m.content))
    ensures r.None? <==> m.retryContent == "" && m.content == ""
  {
    var t := if m.retryContent != "" then m.retryContent else m.content;
    if t != "" then Some(t) else None
  }

  /** Every message the chat appends can be retried with the text that was sent. */
  lemma RetryResends(c: Chat, text: string, e: Event)
    requires text != "" && e.Final()
    ensures var r := OnEvent(c, text, e);
      RetryText(r.messages[|r.messages| - 1]) == Some(text)
  {
  }

  /** The copy button: reasoning and content separated by a blank line, or
      the content alone. */
  function CopyText(content: string, reasoning: Option<string>): (r: string)
    ensures reasoning.None? || reasoning.value == "" ==> r == content
    ensures reasoning.Some? && reasoning.value != "" ==>
      r == reasoning.value + StepSep + content && r[|reasoning.value| + 2..] == content
  {
    match reasoning
    case Some(t) =>
      if t != "" then
        var r := t + StepSep + content;
        assert r[|t| + 2..] == content;
        r
      else content
    case None => content
  }
}
