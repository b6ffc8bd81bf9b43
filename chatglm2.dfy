/** The ChatGLM2 dialect (`Chatglm2` in bert4torch/chat/llm.py): every round,
    the first included, carries a header, and rounds are numbered from 1 with a
    blank line around the question. The reply clean-up repeats the passes of
    `Chatglm.ProcessResponse`. */
module Chatglm2 {
  import opened Text
  import opened Conversation
  import Chatglm

  /** One finished round: `[Round {i+1}]\n\n问：{q}\n\n答：{a}\n`. */
  function RoundText(i: nat, e: Exchange): string {
    Header(i) + e.query + "\n\n答：" + e.answer + "\n"
  }

  /** The header of the round at index `i`, up to the question mark `问：`. */
  function Header(i: nat): string {
    "[Round " + Decimal(i + 1) + "]\n\n问："
  }

  /** The finished rounds of `h`, the exchange at index `i` numbered `i + 1`. */
  function Rounds(h: seq<Exchange>): string {
    if h == [] then "" else Rounds(h[..|h| - 1]) + RoundText(|h| - 1, h[|h| - 1])
  }

  /** The header of the round being asked, numbered `n + 1` after `n` finished
      rounds, up to the answer mark. */
  function OpenRound(n: nat, query: string): string {
    Header(n) + query + "\n\n答："
  }

  /** What `Chatglm2.build_prompt` returns. */
  function Prompt(query: string, history: seq<Exchange>): string {
    Rounds(history) + OpenRound(|history|, query)
  }

  /** `Chatglm2.build_prompt`: accumulates one round per exchange, then opens
      the round of the query. */
  method BuildPrompt(query: string, history: seq<Exchange>) returns (prompt: string)
    ensures prompt == Prompt(query, history)
    ensures FirstHeader <= prompt
    ensures |prompt| >= |"\n\n答："| && prompt[|prompt| - |"\n\n答："|..] == "\n\n答："
  {
    prompt := "";
    for i := 0 to |history|
      invariant prompt == Rounds(history[..i])
    {
      assert history[..i + 1][..i] == history[..i];
      prompt := prompt + RoundText(i, history[i]);
    }
    assert history[..|history|] == history;
    prompt := prompt + OpenRound(|history|, query);
    StartsWithHeader(query, history);
  }

  /** Unlike ChatGLM, even the first round has a header: the prompt always
      opens with the header of round 1. */
  lemma {:induction false} StartsWithHeader(query: string, history: seq<Exchange>)
    ensures FirstHeader <= Prompt(query, history)
  {
    FirstHeaderIsRoundOne();
    if history == [] {
      assert OpenRound(0, query) == Header(0) + (query + "\n\n答：");
      PrefixOfConcat(Header(0), query + "\n\n答：");
      PrefixOfConcat(OpenRound(0, query), []);
    } else {
      var e := history[0];
      RoundsPrefix(history, 1);
      assert history[..1][..0] == [];
      assert Rounds(history[..1]) == RoundText(0, e);
      assert RoundText(0, e) == Header(0) + (e.query + "\n\n答：" + e.answer + "\n");
      PrefixOfConcat(Header(0), e.query + "\n\n答：" + e.answer + "\n");
      PrefixOfConcat(Rounds(history), OpenRound(|history|, query));
    }
  }

  /** The header of round 1. */
  const FirstHeader: string := "[Round 1]\n\n问："

  lemma FirstHeaderIsRoundOne()
    ensures Header(0) == FirstHeader
  {
    assert Decimal(1) == "1";
  }

  /** The rendering of a longer history extends the rendering of any prefix of
      it. The proof follows `Chatglm.RoundsPrefix`, but is about this dialect's
      `Rounds`: the two dialects render rounds by different functions. */
  lemma {:induction false} RoundsPrefix(h: seq<Exchange>, k: nat)
    requires k <= |h|
    ensures Rounds(h[..k]) <= Rounds(h)
    decreases |h|
  {
    if k < |h| {
      assert h[..|h| - 1][..k] == h[..k];
      RoundsPrefix(h[..|h| - 1], k);
    } else {
      assert h[..k] == h;
    }
  }

  /** For every history, the empty one included, the prompt of one round
      followed by the model's answer is exactly how the next round renders that
      exchange, and so a prefix of the next prompt. */
  lemma NextRoundExtendsPrompt(h: seq<Exchange>, query: string, answer: string, next: string)
    ensures Prompt(query, h) + answer + "\n" == Rounds(h + [Exchange(query, answer)])
    ensures Prompt(query, h) + answer + "\n" <= Prompt(next, h + [Exchange(query, answer)])
  {
    var h' := h + [Exchange(query, answer)];
    assert h'[..|h'| - 1] == h;
  }

  /** `Chatglm2.process_response`: the same strip, placeholder replacement and
      punctuation passes as the first dialect, so the same reply. */
  method ProcessResponse(response: string) returns (r: string)
    ensures r == Chatglm.Postprocess(response)
  {
    r := Strip(response);
    r := Replace(r, Chatglm.TrainingDateMarker, Chatglm.TrainingDate);
    r := Chatglm.Normalize(r);
  }
}
