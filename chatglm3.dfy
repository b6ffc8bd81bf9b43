/** The ChatGLM3 dialect (`Chatglm3` in bert4torch/chat/llm.py). Unlike the
    other dialects it works on the caller's history list in place: building a
    prompt appends the user turn and an empty assistant placeholder, and
    processing a reply overwrites that placeholder. A reply is plain text, a
    named block, or a tool call. The tokenizer's `build_chat_input` is a
    parameter; the `eval` of tool parameters is left out, so a tool call
    carries the parameter text. */
module Chatglm3 {
  import opened Results
  import opened Text
  import Chatglm

  /** An entry of the history list: a `(query, response)` tuple, or a role dict
      with its content, its metadata when it has that key, and whether it has a
      `tools` key. */
  datatype Entry =
    | Pair(query: string, response: string)
    | Turn(role: string, content: string, metadata: Option<string>, tools: bool)

  /** The history list that the methods mutate. */
  class History {
    var entries: seq<Entry>

    constructor (entries: seq<Entry>)
      ensures this.entries == entries
    {
      this.entries := entries;
    }
  }

  /** The exceptions the code can raise: indexing a tuple with a string, an
      unpacking of one value into two names, assigning into an empty list. */
  datatype Fault = TypeError | ValueError | IndexError

  // ---------------------------------------------------------------------------
  // build_prompt

  function UserTurn(query: string): Entry {
    Turn("user", query, None, false)
  }

  /** The empty assistant turn that `process_response` later overwrites. */
  const Placeholder: Entry := Turn("assistant", "", None, false)

  /** The history without a trailing tuple, if it has one. */
  function WithoutTrailingPair(h: seq<Entry>): seq<Entry> {
    if |h| > 0 && h[|h| - 1].Pair? then h[..|h| - 1] else h
  }

  /** The history `build_prompt` leaves behind. */
  function Prepared(h: seq<Entry>, query: string): seq<Entry> {
    WithoutTrailingPair(h) + [UserTurn(query), Placeholder]
  }

  /** `Chatglm3.build_prompt`: drops a trailing tuple, appends the user turn and
      the placeholder, and hands query and history to `build_chat_input`. */
  method BuildPrompt(query: string, history: History, chatInput: (string, seq<Entry>) -> seq<int>)
    returns (ids: seq<int>)
    modifies history
    ensures history.entries == Prepared(old(history.entries), query)
    ensures ids == chatInput(query, history.entries)
  {
    if |history.entries| > 0 && history.entries[|history.entries| - 1].Pair? {
      history.entries := history.entries[..|history.entries| - 1];
    }
    history.entries := history.entries + [UserTurn(query)];
    history.entries := history.entries + [Placeholder];
    ids := chatInput(query, history.entries);
  }

  /** The prepared history ends with the user turn and the empty placeholder;
      before them is the old history, less its last entry exactly when that
      entry was a tuple. */
  lemma PreparedShape(h: seq<Entry>, query: string)
    ensures var r := Prepared(h, query);
      && |r| >= 2
      && r[|r| - 1] == Placeholder
      && r[|r| - 2] == UserTurn(query)
      && r[..|r| - 2] <= h
      && (|r| == |h| + 1 <==> h != [] && h[|h| - 1].Pair?)
      && (|r| == |h| + 2 <==> h == [] || h[|h| - 1].Turn?)
  {
    var r := Prepared(h, query);
    assert r[..|r| - 2] == WithoutTrailingPair(h);
  }

  // ---------------------------------------------------------------------------
  // build_cli_text

  /** What one entry adds to the terminal text: a `User：` or `Assistant：`
      line for those roles, nothing for other roles, and a `TypeError` for a
      tuple, which cannot be indexed by `'role'`. */
  function CliPiece(e: Entry): Result<string, Fault> {
    match e
    case Pair(_, _) => Failure(TypeError)
    case Turn(role, content, _, _) =>
      if role == "user" then Success("\n\nUser：" + content)
      else if role == "assistant" then Success("\n\nAssistant：" + content)
      else Success("")
  }

  /** The terminal text of `init` followed by the entries of `h`. */
  function CliText(init: string, h: seq<Entry>): Result<string, Fault> {
    if h == [] then Success(init)
    else
      var text :- CliText(init, h[..|h| - 1]);
      var piece :- CliPiece(h[|h| - 1]);
      Success(text + piece)
  }

  /** All entries but the last: the one for the reply being generated. */
  function Shown(h: seq<Entry>): seq<Entry> {
    if h == [] then [] else h[..|h| - 1]
  }

  /** `Chatglm3.build_cli_text`, with `init` for the demo's `init_str`. */
  method BuildCliText(init: string, history: History) returns (r: Result<string, Fault>)
    ensures r == CliText(init, Shown(history.entries))
  {
    var shown := Shown(history.entries);
    var prompt := init;
    for i := 0 to |shown|
      invariant CliText(init, shown[..i]) == Success(prompt)
    {
      assert shown[..i + 1][..i] == shown[..i];
      match shown[i]
      case Pair(_, _) =>
        ErrorPersists(init, shown, i + 1);
        return Failure(TypeError);
      case Turn(role, content, _, _) =>
        ghost var piece := CliPiece(shown[i]).value;
        ghost var before := prompt;
        if role == "user" {
          prompt := prompt + "\n\nUser：" + content;
          assert prompt == before + piece;
        } else if role == "assistant" {
          prompt := prompt + "\n\nAssistant：" + content;
          assert prompt == before + piece;
        } else {
          assert prompt == before + piece;
        }
    }
    assert shown[..|shown|] == shown;
    r := Success(prompt);
  }

  /** Once a prefix fails, the whole text fails. */
  lemma {:induction false} ErrorPersists(init: string, h: seq<Entry>, k: nat)
    requires k <= |h| && CliText(init, h[..k]).Failure?
    ensures CliText(init, h) == Failure(TypeError)
    decreases |h| - k
  {
    if k < |h| {
      assert h[..k + 1][..k] == h[..k];
      ErrorPersists(init, h, k + 1);
    } else {
      assert h[..k] == h;
      OnlyTypeError(init, h);
    }
  }

  lemma {:induction false} OnlyTypeError(init: string, h: seq<Entry>)
    ensures CliText(init, h).Failure? ==> CliText(init, h).error == TypeError
    decreases |h|
  {
    if h != [] {
      OnlyTypeError(init, h[..|h| - 1]);
    }
  }

  /** The text fails exactly when some entry is a tuple, and otherwise starts
      with `init`. */
  lemma {:induction false} CliTextFails(init: string, h: seq<Entry>)
    ensures CliText(init, h).Failure? <==> exists i :: 0 <= i < |h| && h[i].Pair?
    ensures CliText(init, h).Success? ==> init <= CliText(init, h).value
    decreases |h|
  {
    if h != [] {
      var front := h[..|h| - 1];
      CliTextFails(init, front);
      if exists i :: 0 <= i < |front| && front[i].Pair? {
        var i :| 0 <= i < |front| && front[i].Pair?;
        assert h[i].Pair?;
      }
      if exists i :: 0 <= i < |h| && h[i].Pair? {
        var i :| 0 <= i < |h| && h[i].Pair?;
        if i < |h| - 1 {
          assert front[i].Pair?;
        }
      }
      if CliText(init, h).Success? {
        var t := CliText(init, front).value;
        var u := CliText(init, h).value;
        PrefixOfConcat(t, CliPiece(h[|h| - 1]).value);
        assert u[..|init|] == t[..|init|];
      }
    }
  }

  /** What the terminal shows after `build_prompt`: the old entries (less a
      trailing tuple) and then the new `User：` line; the placeholder is not
      shown. */
  lemma CliAfterBuildPrompt(init: string, h: seq<Entry>, query: string)
    ensures var before := CliText(init, WithoutTrailingPair(h));
      CliText(init, Shown(Prepared(h, query)))
        == if before.Success? then Success(before.value + "\n\nUser：" + query) else before
  {
    var w, sh := WithoutTrailingPair(h), Shown(Prepared(h, query));
    assert sh == w + [UserTurn(query)];
    assert sh[..|sh| - 1] == w;
    var before := CliText(init, w);
    if before.Success? {
      assert CliText(init, sh) == Success(before.value + ("\n\nUser：" + query));
      assert before.value + ("\n\nUser：" + query) == before.value + "\n\nUser：" + query;
    }
  }

  // ---------------------------------------------------------------------------
  // process_response

  /** The reply: the raw text of an incomplete turn, plain text, a named block,
      or a tool call carrying the parameter text that `eval` would read. */
  datatype Reply =
    | Unchanged(raw: string)
    | Text(text: string)
    | Named(name: string, content: string)
    | ToolCall(name: string, parameters: string)

  /** The history after a call, and what the call returned or raised. */
  datatype Outcome = Outcome(history: seq<Entry>, result: Result<Reply, Fault>)

  const AssistantMark: string := "<|assistant|>"

  /** `not metadata.strip()`. */
  predicate IsBlank(s: string) {
    Strip(s) == []
  }

  /** `"\n".join(content.split("\n")[1:-1])`: the content less its first and
      last lines. */
  function ToolParameters(content: string): string {
    var lines := Split(content, "\n");
    if |lines| < 2 then "" else Join(lines[1..|lines| - 1], "\n")
  }

  /** The assistant entry written over `history[-1]`. */
  function Written(metadata: string, content: string): Entry {
    Turn("assistant", content, Some(metadata), false)
  }

  /** One `<|assistant|>` segment: split off the metadata line, overwrite the
      last entry, and classify the reply. */
  function Step(seg: string, h: seq<Entry>): Outcome {
    match SplitOnce(seg, '\n')
    case None => Outcome(h, Failure(ValueError))
    case Some((metadata, content)) =>
      if h == [] then Outcome(h, Failure(IndexError)) else Handle(metadata, content, h)
  }

  /** A segment split into its metadata line and its content, on a history
      with a last entry: the last entry is overwritten first, then the reply is
      classified, looking at the (possibly just overwritten) first entry. */
  function Handle(metadata: string, content: string, h: seq<Entry>): Outcome
    requires h != []
  {
    var h' := h[|h| - 1 := Written(metadata, Stored(metadata, content))];
    Outcome(h', Classify(metadata, content, h'[0]))
  }

  /** The content written into the history: stripped when the metadata line
      is blank, as it is otherwise. */
  function Stored(metadata: string, content: string): string {
    if IsBlank(metadata) then Strip(content) else content
  }

  /** The reply of a segment, given the first history entry: plain text with
      the training date filled in for a blank metadata line; otherwise a
      `TypeError` for a tuple, a tool call for a system dict with `tools`, and
      a named block for any other dict. */
  function Classify(metadata: string, content: string, first: Entry): Result<Reply, Fault> {
    if IsBlank(metadata) then
      Success(Text(Replace(Strip(content), Chatglm.TrainingDateMarker, Chatglm.TrainingDate)))
    else
      match first
      case Pair(_, _) => Failure(TypeError)
      case Turn(role, _, _, tools) =>
        if role == "system" && tools then Success(ToolCall(Strip(metadata), ToolParameters(content)))
        else Success(Named(Strip(metadata), content))
  }

  /** What a segment may do to the history: keep its length and every entry
      but the last, and, when it completes, leave an assistant entry with
      metadata last. */
  predicate Overwrites(h: seq<Entry>, o: Outcome) {
    && |o.history| == |h|
    && (forall i :: 0 <= i < |h| - 1 ==> o.history[i] == h[i])
    && (o.result.Success? ==>
          h != [] && o.history[|h| - 1].Turn? && o.history[|h| - 1].role == "assistant"
          && o.history[|h| - 1].metadata.Some?)
  }

  /** A history a segment with a line break can complete on: it has a last
      entry to overwrite and a first entry that is a role dict (or is that last
      entry). */
  predicate Ready(h: seq<Entry>) {
    h != [] && (|h| == 1 || h[0].Turn?)
  }

  /** A segment overwrites the last entry and nothing else. */
  lemma StepFrame(seg: string, h: seq<Entry>)
    ensures Overwrites(h, Step(seg, h))
  {
    match SplitOnce(seg, '\n')
    case None =>
      assert Step(seg, h) == Outcome(h, Failure(ValueError));
    case Some((metadata, content)) =>
      if h == [] {
        assert Step(seg, h) == Outcome(h, Failure(IndexError));
      } else {
        var h' := h[|h| - 1 := Written(metadata, Stored(metadata, content))];
        assert Step(seg, h).history == h';
      }
  }

  /** A segment never leaves a reply unchanged; it fails without a line
      break, and with one it completes on a ready history and leaves a ready
      history. */
  lemma StepOutcome(seg: string, h: seq<Entry>)
    ensures var o := Step(seg, h);
      && (o.result.Success? ==> !o.result.value.Unchanged?)
      && ('\n' !in seg ==> o.result.Failure?)
      && ('\n' in seg && Ready(h) ==> o.result.Success? && Ready(o.history))
  {
    match SplitOnce(seg, '\n')
    case None =>
      assert Step(seg, h) == Outcome(h, Failure(ValueError));
    case Some((metadata, content)) =>
      if h == [] {
        assert Step(seg, h) == Outcome(h, Failure(IndexError));
      } else {
        var h' := h[|h| - 1 := Written(metadata, Stored(metadata, content))];
        var c := Classify(metadata, content, h'[0]);
        assert Step(seg, h) == Outcome(h', c);
        ClassifyOutcome(metadata, content, h'[0]);
        if Ready(h) {
          assert h'[0].Turn?;
        }
      }
  }

  /** A classified reply is never the unchanged text, and a role dict as the
      first entry always gives a reply. */
  lemma ClassifyOutcome(metadata: string, content: string, first: Entry)
    ensures var c := Classify(metadata, content, first);
      && (c.Success? ==> !c.value.Unchanged?)
      && (first.Turn? ==> c.Success?)
  {
    if IsBlank(metadata) {
      var text := Replace(Strip(content), Chatglm.TrainingDateMarker, Chatglm.TrainingDate);
      assert Classify(metadata, content, first) == Success(Text(text));
    } else if first.Pair? {
      assert Classify(metadata, content, first) == Failure(TypeError);
    } else if first.role == "system" && first.tools {
      assert Classify(metadata, content, first) == Success(ToolCall(Strip(metadata), ToolParameters(content)));
    } else {
      assert Classify(metadata, content, first) == Success(Named(Strip(metadata), content));
    }
  }

  /** The segments in order, each handled by `step`, stopping at the first
      exception; `last` is the reply of the previous segment. The loop is
      stated for any `step` so that its properties follow from those of one
      step alone. */
  function RunWith(step: (string, seq<Entry>) -> Outcome, segs: seq<string>, h: seq<Entry>, last: Reply): Outcome
    decreases |segs|
  {
    if segs == [] then Outcome(h, Success(last))
    else
      var o := step(segs[0], h);
      if o.result.Failure? then o else RunWith(step, segs[1..], o.history, o.result.value)
  }

  /** The loop of `process_response` over the `<|assistant|>` segments. */
  function Run(segs: seq<string>, h: seq<Entry>, last: Reply): Outcome {
    RunWith(Step, segs, h, last)
  }

  /** A reply that is empty or ends in U+FFFD is still being decoded. */
  predicate Incomplete(response: string) {
    response == [] || response[|response| - 1] == '\U{FFFD}'
  }

  /** What `Chatglm3.process_response` leaves and returns. */
  function Process(response: string, h: seq<Entry>): Outcome {
    if Incomplete(response) then Outcome(h, Success(Unchanged(response)))
    else Run(Split(response, AssistantMark), h, Text(""))
  }

  /** `Chatglm3.process_response`. An exception leaves the history as far as
      the loop had changed it. */
  method ProcessResponse(response: string, history: History) returns (r: Result<Reply, Fault>)
    modifies history
    ensures Outcome(history.entries, r) == Process(response, old(history.entries))
  {
    if response == [] || response[|response| - 1] == '\U{FFFD}' {
      return Success(Unchanged(response));
    }
    var segs := Split(response, AssistantMark);
    var content: Reply := Text("");
    ghost var h0 := history.entries;
    for i := 0 to |segs|
      invariant Run(segs, h0, Text("")) == Run(segs[i..], history.entries, content)
    {
      assert segs[i..][1..] == segs[i + 1..];
      match SplitOnce(segs[i], '\n')
      case None =>
        return Failure(ValueError);
      case Some((metadata, body)) =>
        if history.entries == [] {
          return Failure(IndexError);
        }
        var n := |history.entries|;
        if IsBlank(metadata) {
          var c := Strip(body);
          history.entries := history.entries[n - 1 := Written(metadata, c)];
          content := Text(Replace(c, Chatglm.TrainingDateMarker, Chatglm.TrainingDate));
        } else {
          history.entries := history.entries[n - 1 := Written(metadata, body)];
          match history.entries[0]
          case Pair(_, _) =>
            return Failure(TypeError);
          case Turn(role, _, _, tools) =>
            if role == "system" && tools {
              content := ToolCall(Strip(metadata), ToolParameters(body));
            } else {
              content := Named(Strip(metadata), body);
            }
        }
    }
    assert segs[|segs|..] == [];
    r := Success(content);
  }

  /** A reply is left as it is, with the history untouched, exactly when it is
      incomplete; no decoded segment gives that reply. */
  lemma IncompleteIff(response: string, h: seq<Entry>)
    ensures var o := Process(response, h);
      (o.result == Success(Unchanged(response)) && o.history == h) <==> Incomplete(response)
  {
    if !Incomplete(response) {
      forall seg, g ensures Step(seg, g).result.Success? ==> !Step(seg, g).result.value.Unchanged? {
        StepOutcome(seg, g);
      }
      RunNeverUnchanged(Step, Split(response, AssistantMark), h, Text(""));
    }
  }

  lemma {:induction false} RunNeverUnchanged(step: (string, seq<Entry>) -> Outcome, segs: seq<string>, h: seq<Entry>, last: Reply)
    requires !last.Unchanged?
    requires forall seg, g :: step(seg, g).result.Success? ==> !step(seg, g).result.value.Unchanged?
    ensures var o := RunWith(step, segs, h, last); o.result.Success? ==> !o.result.value.Unchanged?
    decreases |segs|
  {
    if segs != [] {
      var o := step(segs[0], h);
      if o.result.Success? {
        RunNeverUnchanged(step, segs[1..], o.history, o.result.value);
      }
    }
  }

  /** Whatever happens, the history keeps its length and every entry but the
      last; a completed reply leaves an assistant entry with metadata last. */
  lemma ProcessFrame(response: string, h: seq<Entry>)
    ensures var o := Process(response, h);
      && |o.history| == |h|
      && (forall i :: 0 <= i < |h| - 1 ==> o.history[i] == h[i])
      && (!Incomplete(response) && o.result.Success? ==>
            o.history[|h| - 1].Turn? && o.history[|h| - 1].role == "assistant" && o.history[|h| - 1].metadata.Some?)
  {
    if !Incomplete(response) {
      forall seg, g ensures Overwrites(g, Step(seg, g)) {
        StepFrame(seg, g);
      }
      RunFrame(Step, Split(response, AssistantMark), h, Text(""));
    }
  }

  lemma {:induction false} RunFrame(step: (string, seq<Entry>) -> Outcome, segs: seq<string>, h: seq<Entry>, last: Reply)
    requires segs != []
    requires forall seg, g :: Overwrites(g, step(seg, g))
    ensures Overwrites(h, RunWith(step, segs, h, last))
    decreases |segs|
  {
    var o := step(segs[0], h);
    assert Overwrites(h, o);
    if o.result.Success? && |segs| > 1 {
      RunFrame(step, segs[1..], o.history, o.result.value);
    }
  }

  /** The reply comes from the last segment: a completed run returns what the
      last segment gives on the history the earlier segments left. */
  lemma LastSegmentDecides(segs: seq<string>, h: seq<Entry>, last: Reply)
    requires segs != []
    requires Run(segs, h, last).result.Success?
    ensures var before := Run(segs[..|segs| - 1], h, last);
      && before.result.Success?
      && Run(segs, h, last) == Step(segs[|segs| - 1], before.history)
  {
    RunLast(Step, segs, h, last);
  }

  lemma {:induction false} RunLast(step: (string, seq<Entry>) -> Outcome, segs: seq<string>, h: seq<Entry>, last: Reply)
    requires segs != []
    requires RunWith(step, segs, h, last).result.Success?
    ensures var before := RunWith(step, segs[..|segs| - 1], h, last);
      && before.result.Success?
      && RunWith(step, segs, h, last) == step(segs[|segs| - 1], before.history)
    decreases |segs|
  {
    var o := step(segs[0], h);
    var front := segs[..|segs| - 1];
    if |segs| > 1 {
      var t, h1, v := segs[1..], o.history, o.result.value;
      assert front[0] == segs[0];
      assert front[1..] == t[..|t| - 1];
      RunLast(step, t, h1, v);
      assert t[|t| - 1] == segs[|segs| - 1];
    } else {
      assert front == [];
    }
  }

  /** A segment without a line break stops the run with an exception. */
  lemma MissingNewlineFails(segs: seq<string>, h: seq<Entry>, last: Reply, j: nat)
    requires j < |segs| && '\n' !in segs[j]
    ensures Run(segs, h, last).result.Failure?
  {
    forall seg, g | '\n' !in seg ensures Step(seg, g).result.Failure? {
      StepOutcome(seg, g);
    }
    RunFailsAt(Step, segs, h, last, j);
  }

  lemma {:induction false} RunFailsAt(step: (string, seq<Entry>) -> Outcome, segs: seq<string>, h: seq<Entry>, last: Reply, j: nat)
    requires j < |segs| && '\n' !in segs[j]
    requires forall seg, g :: '\n' !in seg ==> step(seg, g).result.Failure?
    ensures RunWith(step, segs, h, last).result.Failure?
    decreases j
  {
    var o := step(segs[0], h);
    if j > 0 && o.result.Success? {
      RunFailsAt(step, segs[1..], o.history, o.result.value, j - 1);
    }
  }

  /** Every segment completes when each has a line break and the history is
      ready: it has a last entry to overwrite and a first entry that is a role
      dict (or is that last entry). */
  lemma RunSucceeds(segs: seq<string>, h: seq<Entry>, last: Reply)
    requires Ready(h)
    requires forall j :: 0 <= j < |segs| ==> '\n' in segs[j]
    ensures Run(segs, h, last).result.Success?
  {
    forall seg, g | '\n' in seg && Ready(g) ensures Step(seg, g).result.Success? && Ready(Step(seg, g).history) {
      StepOutcome(seg, g);
    }
    RunCompletes(Step, segs, h, last);
  }

  lemma {:induction false} RunCompletes(step: (string, seq<Entry>) -> Outcome, segs: seq<string>, h: seq<Entry>, last: Reply)
    requires Ready(h)
    requires forall j :: 0 <= j < |segs| ==> '\n' in segs[j]
    requires forall seg, g :: '\n' in seg && Ready(g) ==> step(seg, g).result.Success? && Ready(step(seg, g).history)
    ensures RunWith(step, segs, h, last).result.Success?
    decreases |segs|
  {
    if segs != [] {
      var o := step(segs[0], h);
      RunCompletes(step, segs[1..], o.history, o.result.value);
    }
  }

  /** A one-segment reply whose metadata line is blank gives the stripped
      content with the training date filled in. */
  lemma PlainReply(response: string, h: seq<Entry>, metadata: string, content: string)
    requires !Incomplete(response) && !Contains(response, AssistantMark)
    requires response == metadata + "\n" + content && '\n' !in metadata
    requires h != [] && IsBlank(metadata)
    ensures Process(response, h).result
         == Success(Text(Replace(Strip(content), Chatglm.TrainingDateMarker, Chatglm.TrainingDate)))
  {
    OneSegment(response, h, metadata, content);
  }

  /** A reply without `<|assistant|>` is one segment, handled on the history
      as it is. */
  lemma OneSegment(response: string, h: seq<Entry>, metadata: string, content: string)
    requires !Incomplete(response) && !Contains(response, AssistantMark)
    requires response == metadata + "\n" + content && '\n' !in metadata
    requires h != []
    ensures Process(response, h) == Handle(metadata, content, h)
  {
    SplitAbsent(response, AssistantMark);
    SplitOnceAt(metadata, content);
    var o := Step(response, h);
    assert o == Handle(metadata, content, h);
    assert Process(response, h) == Run([response], h, Text(""));
    assert [response][1..] == [];
    assert Run([response], h, Text("")) == (if o.result.Failure? then o else Run([], o.history, o.result.value));
  }

  /** A one-segment reply with a tool name on its metadata line, when the first
      entry is a system dict with `tools`, is a call of that tool whose
      parameter text is the content less its first and last lines. */
  lemma ToolReply(response: string, h: seq<Entry>, metadata: string, content: string)
    requires !Incomplete(response) && !Contains(response, AssistantMark)
    requires response == metadata + "\n" + content && '\n' !in metadata
    requires |h| >= 2 && h[0].Turn? && h[0].role == "system" && h[0].tools && !IsBlank(metadata)
    ensures Process(response, h).result == Success(ToolCall(Strip(metadata), ToolParameters(content)))
  {
    OneSegment(response, h, metadata, content);
    var h' := h[|h| - 1 := Written(metadata, Stored(metadata, content))];
    assert h'[0] == h[0];
  }

  lemma {:induction false} SplitOnceAt(a: string, b: string)
    requires '\n' !in a
    ensures SplitOnce(a + "\n" + b, '\n') == Some((a, b))
    decreases |a|
  {
    var s := a + "\n" + b;
    if a == [] {
      assert s == "\n" + b;
    } else {
      assert s[0] == a[0] != '\n';
      assert s[1..] == a[1..] + "\n" + b;
      SplitOnceAt(a[1..], b);
      assert [a[0]] + a[1..] == a;
    }
  }

  /** The parameter text drops the first and the last line: on content whose
      only line break is the first, such as `\ncity='Paris'`, it is empty. */
  lemma ToolParametersOfLines(lines: seq<string>)
    requires |lines| >= 2 && forall i :: 0 <= i < |lines| ==> '\n' !in lines[i]
    ensures ToolParameters(Join(lines, "\n")) == Join(lines[1..|lines| - 1], "\n")
  {
    SplitJoin(lines, '\n');
  }

  lemma ToolParametersOfTwoLines(first: string, second: string)
    requires '\n' !in first && '\n' !in second
    ensures ToolParameters(first + "\n" + second) == ""
  {
    var lines := [first, second];
    assert Join(lines, "\n") == first + "\n" + second;
    ToolParametersOfLines(lines);
  }
}
