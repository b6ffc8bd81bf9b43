/** The InternLM dialect (`InternLM` in bert4torch/chat/llm.py): each past
    exchange is a `<s>`-opened, tagged pair of turns; the reply clean-up deletes
    the four sentinel markers. */
module InternLM {
  import opened Results
  import opened Text
  import opened Conversation

  // ---------------------------------------------------------------------------
  // build_prompt

  /** One past exchange: `<s>` and the tagged pair of turns,
      `<|User|>:{q}<eoh>\n<|Bot|>:{a}<eoa>\n`. */
  function Record(e: Exchange): string {
    "<s>" + (OpenTurn(e.query) + e.answer + "<eoa>\n")
  }

  /** The records of `h`, in history order. */
  function HistoryText(h: seq<Exchange>): string {
    if h == [] then "" else HistoryText(h[..|h| - 1]) + Record(h[|h| - 1])
  }

  /** The turn being asked: `<|User|>:{query}<eoh>\n<|Bot|>:`. */
  function OpenTurn(query: string): string {
    "<|User|>:" + query + "<eoh>\n<|Bot|>:"
  }

  /** What `InternLM.build_prompt` returns: the history records, or a lone
      `<s>` when they are empty, then the open turn when there is a query. */
  function Prompt(history: seq<Exchange>, query: Option<string>): string {
    var past := HistoryText(history);
    var start := if |past| == 0 then past + "<s>" else past;
    if query.Some? then start + OpenTurn(query.value) else start
  }

  /** `InternLM.build_prompt`; `None` stands for `query is None`. */
  method BuildPrompt(history: seq<Exchange>, query: Option<string>) returns (prompt: string)
    ensures prompt == Prompt(history, query)
  {
    prompt := "";
    for i := 0 to |history|
      invariant prompt == HistoryText(history[..i])
    {
      assert history[..i + 1][..i] == history[..i];
      prompt := prompt + Record(history[i]);
    }
    assert history[..|history|] == history;
    if |prompt| == 0 {
      prompt := prompt + "<s>";
    }
    if query.Some? {
      prompt := prompt + OpenTurn(query.value);
    }
  }

  /** The records are empty exactly when the history is: the lone `<s>` is
      emitted only for an empty history, and every prompt opens with `<s>`. */
  lemma {:induction false} HistoryTextEmpty(h: seq<Exchange>)
    ensures HistoryText(h) == [] <==> h == []
    ensures h != [] ==> "<s>" <= HistoryText(h)
    decreases |h|
  {
    if h != [] {
      var init := h[..|h| - 1];
      HistoryTextEmpty(init);
      var last := Record(h[|h| - 1]);
      PrefixOfConcat("<s>", OpenTurn(h[|h| - 1].query) + h[|h| - 1].answer + "<eoa>\n");
      PrefixOfConcat(HistoryText(init), last);
      if init == [] {
        assert HistoryText(h) == last;
      } else {
        PrefixOfConcat("<s>", HistoryText(init)[3..]);
        assert HistoryText(init) == "<s>" + HistoryText(init)[3..];
      }
    }
  }

  /** The shape of the prompt: with an empty history it is `<s>` followed by the
      open turn (or nothing); otherwise the records followed directly by the
      open turn (or nothing), with no `<s>` added. */
  lemma PromptShape(history: seq<Exchange>, query: Option<string>)
    ensures "<s>" <= Prompt(history, query)
    ensures history == [] && query.None? ==> Prompt(history, query) == "<s>"
    ensures history == [] && query.Some? ==> Prompt(history, query) == "<s>" + OpenTurn(query.value)
    ensures history != [] && query.None? ==> Prompt(history, query) == HistoryText(history)
    ensures history != [] && query.Some? ==> Prompt(history, query) == HistoryText(history) + OpenTurn(query.value)
  {
    HistoryTextEmpty(history);
    var p := Prompt(history, query);
    if history == [] {
      assert p[..3] == "<s>";
    } else {
      assert p[..3] == HistoryText(history)[..3];
    }
  }

  /** With an empty history the first prompt plus the answer is exactly the
      record of that exchange, so the conversation text grows by appending. */
  lemma FirstRoundExtends(query: string, answer: string)
    ensures Prompt([], Some(query)) + answer + "<eoa>\n" == HistoryText([Exchange(query, answer)])
  {
    var h := [Exchange(query, answer)];
    assert h[..0] == [];
  }

  /** After the first round the open turn carries no `<s>`, while the record
      that later stands for the same exchange does: the next history text is
      the prompt with `<s>` inserted before the open turn. */
  lemma LaterRoundInsertsStart(h: seq<Exchange>, query: string, answer: string)
    requires h != []
    ensures HistoryText(h + [Exchange(query, answer)])
         == HistoryText(h) + "<s>" + OpenTurn(query) + answer + "<eoa>\n"
    ensures Prompt(h, Some(query)) == HistoryText(h) + OpenTurn(query)
  {
    var h' := h + [Exchange(query, answer)];
    assert h'[..|h'| - 1] == h;
    HistoryTextEmpty(h);
  }

  // ---------------------------------------------------------------------------
  // process_response

  /** The markers deleted, in the order they are deleted. */
  const Markers: seq<string> := ["<s>", "</s>", "<eoh>", "<eoa>"]

  /** The text after the first `k` deletions. */
  function RemoveFirst(s: string, k: nat): (r: string)
    requires k <= |Markers|
    ensures |r| <= |s|
  {
    if k == 0 then s else Replace(RemoveFirst(s, k - 1), Markers[k - 1], "")
  }

  /** What `InternLM.process_response` returns. */
  function Clean(response: string): string {
    RemoveFirst(response, |Markers|)
  }

  /** `InternLM.process_response`: deletes every occurrence of each marker in turn. */
  method ProcessResponse(response: string) returns (r: string)
    ensures r == Clean(response)
    ensures |r| <= |response|
  {
    r := response;
    for k := 0 to |Markers|
      invariant r == RemoveFirst(response, k)
    {
      r := Replace(r, Markers[k], "");
    }
  }

  /** No marker of `Markers` occurs in `s`. */
  ghost predicate MarkerFree(s: string) {
    forall m :: m in Markers ==> !Contains(s, m)
  }

  /** The clean-up changes the text exactly when some marker occurs in it, and
      then shortens it. */
  lemma CleanChangesIffMarker(s: string)
    ensures Clean(s) == s <==> MarkerFree(s)
    ensures !MarkerFree(s) ==> |Clean(s)| < |s|
  {
    if MarkerFree(s) {
      UnchangedUpTo(s, |Markers|);
    } else {
      var k :| 0 <= k < |Markers| && Contains(s, Markers[k]);
      ShrinksFrom(s, k);
    }
  }

  /** Deleting markers that do not occur changes nothing. */
  lemma {:induction false} UnchangedUpTo(s: string, k: nat)
    requires k <= |Markers|
    requires forall j :: 0 <= j < k ==> !Contains(s, Markers[j])
    ensures RemoveFirst(s, k) == s
  {
    if k > 0 {
      UnchangedUpTo(s, k - 1);
      ReplaceAbsent(s, Markers[k - 1], "");
    }
  }

  /** If `Markers[k]` occurs in `s`, the text is shorter from step `k + 1` on. */
  lemma {:induction false} ShrinksFrom(s: string, k: nat)
    requires k < |Markers| && Contains(s, Markers[k])
    ensures |Clean(s)| < |s|
  {
    var k0 :| 0 <= k0 <= k && Contains(s, Markers[k0]) && forall j :: 0 <= j < k0 ==> !Contains(s, Markers[j]) by {
      FirstContained(s, k);
    }
    UnchangedUpTo(s, k0);
    assert Contains(s, Markers[k0]);
    var i :| OccursAt(s, Markers[k0], i);
    ReplaceShrinks(s, Markers[k0], "", i);
    NotLongerAfter(s, k0 + 1, |Markers|);
  }

  /** Some marker at or before index `k` is the first one that occurs in `s`. */
  lemma {:induction false} FirstContained(s: string, k: nat)
    requires k < |Markers| && Contains(s, Markers[k])
    ensures exists k0 :: 0 <= k0 <= k && Contains(s, Markers[k0]) && forall j :: 0 <= j < k0 ==> !Contains(s, Markers[j])
  {
    if k > 0 && exists j :: 0 <= j < k && Contains(s, Markers[j]) {
      var j :| 0 <= j < k && Contains(s, Markers[j]);
      FirstContained(s, j);
    }
  }

  /** Later deletions never lengthen the text. */
  lemma {:induction false} NotLongerAfter(s: string, k: nat, n: nat)
    requires k <= n <= |Markers|
    ensures |RemoveFirst(s, n)| <= |RemoveFirst(s, k)|
    decreases n - k
  {
    if k < n {
      NotLongerAfter(s, k, n - 1);
    }
  }

  /** The result is not always marker-free: deleting `<s>` from `<<s>s>`
      splices the two halves into a new `<s>`. */
  lemma SpliceCreatesMarker()
    ensures Clean("<<s>s>") == "<s>"
    ensures OccursAt(Clean("<<s>s>"), "<s>", 0)
  {
    var s := "<<s>s>";
    assert Replace(">", "<s>", "") == ">";
    assert Replace("s>", "<s>", "") == "s>";
    assert s[1..] == "<s>" + "s>";
    assert Replace(s[1..], "<s>", "") == "s>";
    assert !("<s>" <= s) by {
      assert s[1] != "<s>"[1];
    }
    assert Replace(s, "<s>", "") == "<s>";
    forall k | 1 <= k < |Markers| ensures !Contains("<s>", Markers[k]) {
      forall i ensures !OccursAt("<s>", Markers[k], i) {
      }
    }
    assert RemoveFirst(s, 1) == "<s>";
    ReplaceAbsent("<s>", Markers[1], "");
    assert RemoveFirst(s, 2) == "<s>";
    ReplaceAbsent("<s>", Markers[2], "");
    assert RemoveFirst(s, 3) == "<s>";
    ReplaceAbsent("<s>", Markers[3], "");
  }
}
