/** The ChatGLM dialect (`Chatglm` in bert4torch/chat/llm.py): round-numbered
    prompts counted from 0, with the bare query as the prompt of the first
    round, and the reply clean-up that ChatGLM2 shares: strip, restore the
    training-date placeholder, and turn ASCII punctuation next to a CJK
    character into its full-width form. */
module Chatglm {
  import opened Text
  import opened Conversation

  // ---------------------------------------------------------------------------
  // build_prompt

  /** One finished round: `[Round i]\n问：{q}\n答：{a}\n`. */
  function RoundText(i: nat, e: Exchange): string {
    "[Round " + Decimal(i) + "]\n问：" + e.query + "\n答：" + e.answer + "\n"
  }

  /** The finished rounds of `h`, numbered from 0 in history order. */
  function Rounds(h: seq<Exchange>): string {
    if h == [] then "" else Rounds(h[..|h| - 1]) + RoundText(|h| - 1, h[|h| - 1])
  }

  /** The header of the round being asked, with the query, up to the answer mark. */
  function OpenRound(i: nat, query: string): string {
    "[Round " + Decimal(i) + "]\n问：" + query + "\n答："
  }

  /** What `Chatglm.build_prompt` returns: the bare query when there is no
      history, the numbered rounds followed by the open round otherwise. */
  function Prompt(query: string, history: seq<Exchange>): string {
    if history == [] then query else Rounds(history) + OpenRound(|history|, query)
  }

  /** `Chatglm.build_prompt`: accumulates one round per exchange. */
  method BuildPrompt(query: string, history: seq<Exchange>) returns (prompt: string)
    ensures prompt == Prompt(query, history)
    ensures history == [] ==> prompt == query
    ensures history != [] ==> OpenRound(|history|, query) <= prompt[|prompt| - |OpenRound(|history|, query)|..]
  {
    if history == [] {
      prompt := query;
    } else {
      prompt := "";
      for i := 0 to |history|
        invariant prompt == Rounds(history[..i])
      {
        assert history[..i + 1][..i] == history[..i];
        prompt := prompt + RoundText(i, history[i]);
      }
      assert history[..|history|] == history;
      prompt := prompt + OpenRound(|history|, query);
    }
  }

  /** Rounds are numbered by position: the rendering of a longer history
      extends the rendering of any prefix of it. `Chatglm2` proves the same
      fact for its own `Rounds`, whose round text and numbering differ. */
  lemma {:induction false} RoundsPrefix(h: seq<Exchange>, k: nat)
    requires k <= |h|
    ensures Rounds(h[..k]) <= Rounds(h)
    decreases |h|
  {
    if k < |h| {
      assert h[..|h| - 1][..k] == h[..k];
      RoundsPrefix(h[..|h| - 1], k);
    } else {
      assert h[..k] == h;
    }
  }

  /** With a non-empty history, the prompt of one round followed by the
      model's answer is exactly how the next round renders that exchange. */
  lemma NextRoundExtendsPrompt(h: seq<Exchange>, query: string, answer: string, next: string)
    requires h != []
    ensures Prompt(query, h) + answer + "\n" == Rounds(h + [Exchange(query, answer)])
    ensures Prompt(query, h) + answer + "\n" <= Prompt(next, h + [Exchange(query, answer)])
  {
    var h' := h + [Exchange(query, answer)];
    assert h'[..|h'| - 1] == h;
  }

  /** The first round is different: its prompt is the bare query, which is not
      how the second round renders that exchange. */
  lemma FirstRoundIsBare(query: string, answer: string, next: string)
    ensures Prompt(query, []) == query
    ensures Prompt(next, [Exchange(query, answer)])
         == "[Round 0]\n问：" + query + "\n答：" + answer + "\n" + "[Round 1]\n问：" + next + "\n答："
  {
    var e := Exchange(query, answer);
    assert [e][..0] == [];
    assert Decimal(0) == "0" && Decimal(1) == "1";
    calc {
      Prompt(next, [e]);
      Rounds([e]) + OpenRound(1, next);
      { assert Rounds([e]) == RoundText(0, e); }
      RoundText(0, e) + OpenRound(1, next);
    }
  }

  // ---------------------------------------------------------------------------
  // process_response (shared by ChatGLM2)

  /** The character class `[一-鿿]` of the two regular expressions. */
  predicate IsCjk(c: char) {
    '\U{4E00}' <= c <= '\U{9FFF}'
  }

  /** The ordered replacement table: ASCII `, ! : ; ?` and their full-width
      forms U+FF0C, U+FF01, U+FF1A, U+FF1B, U+FF1F. */
  const Punkts: seq<(char, char)> :=
    [(',', '\U{FF0C}'), ('!', '\U{FF01}'), (':', '\U{FF1A}'), (';', '\U{FF1B}'), ('?', '\U{FF1F}')]

  predicate IsAsciiPunct(c: char) {
    c == ',' || c == '!' || c == ':' || c == ';' || c == '?'
  }

  /** The five full-width marks of the table. */
  predicate IsWidePunct(c: char) {
    c == '\U{FF0C}' || c == '\U{FF01}' || c == '\U{FF1A}' || c == '\U{FF1B}' || c == '\U{FF1F}'
  }

  /** The full-width form that the first `k` table entries give `c`, or `c`. */
  function WidenFirst(c: char, k: nat): (w: char)
    requires k <= |Punkts|
    ensures w == c || (IsAsciiPunct(c) && IsWidePunct(w))
  {
    if k == 0 then c
    else if c == Punkts[k - 1].0 then Punkts[k - 1].1
    else WidenFirst(c, k - 1)
  }

  /** The full-width form of an ASCII punctuation mark; other characters map to
      themselves. */
  function Widen(c: char): (w: char)
    ensures IsAsciiPunct(c) ==> IsWidePunct(w)
    ensures !IsAsciiPunct(c) ==> w == c
  {
    WidenAscii(c);
    WidenFirst(c, |Punkts|)
  }

  lemma WidenAscii(c: char)
    ensures IsAsciiPunct(c) ==> IsWidePunct(WidenFirst(c, |Punkts|))
  {
    if c == ',' {
      WidenFirstListed(|Punkts|, 0);
    } else if c == '!' {
      WidenFirstListed(|Punkts|, 1);
    } else if c == ':' {
      WidenFirstListed(|Punkts|, 2);
    } else if c == ';' {
      WidenFirstListed(|Punkts|, 3);
    } else if c == '?' {
      WidenFirstListed(|Punkts|, 4);
    }
  }

  /** A listed mark gets the full-width form its entry names. */
  lemma {:induction false} WidenFirstListed(k: nat, j: nat)
    requires j < k <= |Punkts|
    ensures WidenFirst(Punkts[j].0, k) == Punkts[j].1
    decreases k
  {
    if j < k - 1 {
      PunktsDistinct(k - 1);
      WidenFirstListed(k - 1, j);
    }
  }

  /** Widening a widened character changes nothing. */
  lemma WidenIdempotent(c: char)
    ensures Widen(Widen(c)) == Widen(c)
  {
    if IsAsciiPunct(c) {
      WidePunctIsPlain(Widen(c));
    }
  }

  /** A wide mark is neither CJK, nor whitespace, nor ASCII punctuation. */
  lemma WidePunctIsPlain(c: char)
    requires IsWidePunct(c)
    ensures !IsCjk(c) && !IsSpace(c) && !IsAsciiPunct(c)
  {
  }

  /** Position `i` of `s` has a CJK neighbour on at least one side. */
  predicate NextToCjk(s: string, i: int) {
    (0 < i <= |s| && IsCjk(s[i - 1])) || (0 <= i && i + 1 < |s| && IsCjk(s[i + 1]))
  }

  /** `re.sub(r"([一-鿿])" + p, r"\1" + w, s)`: a left-to-right scan
      that rewrites `p` preceded by a CJK character. */
  function SubAfterCjk(s: string, p: char, w: char): (r: string)
    ensures |r| == |s|
  {
    if |s| < 2 then s
    else if IsCjk(s[0]) && s[1] == p then [s[0], w] + SubAfterCjk(s[2..], p, w)
    else [s[0]] + SubAfterCjk(s[1..], p, w)
  }

  /** Seen position by position, the scan rewrites exactly the `p`s whose left
      neighbour is CJK: no match is missed by the skipping. */
  lemma {:induction false} SubAfterCjkAt(s: string, p: char, w: char, i: int)
    requires !IsCjk(p) && 0 <= i < |s|
    ensures SubAfterCjk(s, p, w)[i] == if s[i] == p && i > 0 && IsCjk(s[i - 1]) then w else s[i]
    decreases |s|
  {
    if |s| >= 2 {
      if IsCjk(s[0]) && s[1] == p {
        if i >= 2 {
          SubAfterCjkAt(s[2..], p, w, i - 2);
          assert i > 2 ==> s[2..][i - 3] == s[i - 1];
        }
      } else if i >= 1 {
        SubAfterCjkAt(s[1..], p, w, i - 1);
        assert i > 1 ==> s[1..][i - 2] == s[i - 1];
      }
    }
  }

  /** `re.sub(p + r"([一-鿿])", w + r"\1", s)`: a left-to-right scan
      that rewrites `p` followed by a CJK character. */
  function SubBeforeCjk(s: string, p: char, w: char): (r: string)
    ensures |r| == |s|
  {
    if |s| < 2 then s
    else if s[0] == p && IsCjk(s[1]) then [w, s[1]] + SubBeforeCjk(s[2..], p, w)
    else [s[0]] + SubBeforeCjk(s[1..], p, w)
  }

  /** Seen position by position, the scan rewrites exactly the `p`s whose right
      neighbour is CJK. */
  lemma {:induction false} SubBeforeCjkAt(s: string, p: char, w: char, i: int)
    requires !IsCjk(p) && 0 <= i < |s|
    ensures SubBeforeCjk(s, p, w)[i] == if s[i] == p && i + 1 < |s| && IsCjk(s[i + 1]) then w else s[i]
    decreases |s|
  {
    if |s| >= 2 {
      if s[0] == p && IsCjk(s[1]) {
        if i >= 2 {
          SubBeforeCjkAt(s[2..], p, w, i - 2);
          assert i + 1 < |s| ==> s[2..][i - 1] == s[i + 1];
        }
      } else if i >= 1 {
        SubBeforeCjkAt(s[1..], p, w, i - 1);
        assert i + 1 < |s| ==> s[1..][i] == s[i + 1];
      }
    }
  }

  /** The first `k` rounds of the loop over the table, both patterns each. */
  function NormalizeUpTo(s: string, k: nat): (r: string)
    requires k <= |Punkts|
    ensures |r| == |s|
  {
    if k == 0 then s
    else SubBeforeCjk(SubAfterCjk(NormalizeUpTo(s, k - 1), Punkts[k - 1].0, Punkts[k - 1].1),
                      Punkts[k - 1].0, Punkts[k - 1].1)
  }

  /** One round of the loop, position by position: with a mark and a
      replacement that are not CJK, both scans together rewrite exactly the
      marks that have a CJK neighbour. */
  lemma RoundAt(t: string, p: char, w: char, i: int)
    requires !IsCjk(p) && !IsCjk(w) && p != w && 0 <= i < |t|
    ensures SubBeforeCjk(SubAfterCjk(t, p, w), p, w)[i] == if t[i] == p && NextToCjk(t, i) then w else t[i]
  {
    var u := SubAfterCjk(t, p, w);
    SubAfterCjkAt(t, p, w, i);
    SubBeforeCjkAt(u, p, w, i);
    if i + 1 < |t| {
      SubAfterCjkAt(t, p, w, i + 1);
    }
  }

  /** Because no rewrite creates or destroys a CJK character, the combined
      effect of the loop is position-wise: a listed mark with a CJK neighbour
      in the input is widened, every other character is kept. */
  lemma {:induction false} NormalizeAt(s: string, k: nat, i: int)
    requires k <= |Punkts| && 0 <= i < |s|
    ensures NormalizeUpTo(s, k)[i] == if NextToCjk(s, i) then WidenFirst(s[i], k) else s[i]
    decreases k, 0
  {
    if k > 0 {
      var p, w := Punkts[k - 1].0, Punkts[k - 1].1;
      assert IsAsciiPunct(p) && !IsCjk(p) && !IsCjk(w) && p != w;
      var t := NormalizeUpTo(s, k - 1);
      assert NormalizeUpTo(s, k) == SubBeforeCjk(SubAfterCjk(t, p, w), p, w);
      RoundAt(t, p, w, i);
      NormalizeAt(s, k - 1, i);
      NeighbourAt(s, k - 1, i);
      if !NextToCjk(s, i) {
        assert t[i] == s[i];
      } else if s[i] == p {
        PunktsDistinct(k - 1);
        WidenFirstUnlisted(p, k - 1);
        assert t[i] == p && WidenFirst(s[i], k) == w;
      } else {
        assert WidenFirst(s[i], k) == WidenFirst(s[i], k - 1) == t[i] != p;
      }
    }
  }

  /** After the first `k` rounds a position has a CJK neighbour exactly when
      it had one before. */
  lemma {:induction false} NeighbourAt(s: string, k: nat, i: int)
    requires k <= |Punkts| && 0 <= i < |s|
    ensures NextToCjk(NormalizeUpTo(s, k), i) <==> NextToCjk(s, i)
    decreases k, 2
  {
    if i > 0 {
      CjkAt(s, k, i - 1);
    }
    if i + 1 < |s| {
      CjkAt(s, k, i + 1);
    }
  }

  /** The first `k` rounds keep every CJK character and create none. */
  lemma {:induction false} CjkAt(s: string, k: nat, j: int)
    requires k <= |Punkts| && 0 <= j < |s|
    ensures IsCjk(NormalizeUpTo(s, k)[j]) <==> IsCjk(s[j])
    decreases k, 1
  {
    NormalizeAt(s, k, j);
  }

  lemma PunktsDistinct(k: nat)
    requires k < |Punkts|
    ensures forall j :: 0 <= j < k ==> Punkts[j].0 != Punkts[k].0
  {
  }

  /** A character that none of the first `k` entries lists is kept. */
  lemma WidenFirstUnlisted(c: char, k: nat)
    requires k <= |Punkts|
    requires forall j :: 0 <= j < k ==> Punkts[j].0 != c
    ensures WidenFirst(c, k) == c
  {
  }

  /** The placeholder the model was trained with, and the text that replaces it. */
  const TrainingDateMarker: string := "[[训练时间]]"
  const TrainingDate: string := "2023年"

  /** The text after the strip and the placeholder replacement. */
  function Prepared(response: string): string {
    Replace(Strip(response), TrainingDateMarker, TrainingDate)
  }

  /** What `process_response` returns for `response`. */
  function Postprocess(response: string): string {
    NormalizeUpTo(Prepared(response), |Punkts|)
  }

  /** `Chatglm.process_response`. */
  method ProcessResponse(response: string) returns (r: string)
    ensures r == Postprocess(response)
  {
    r := Strip(response);
    r := Replace(r, TrainingDateMarker, TrainingDate);
    r := Normalize(r);
  }

  /** The loop of `process_response` over the table, both patterns per entry. */
  method Normalize(s: string) returns (r: string)
    ensures r == NormalizeUpTo(s, |Punkts|)
  {
    r := s;
    for k := 0 to |Punkts|
      invariant r == NormalizeUpTo(s, k)
    {
      var (p, w) := Punkts[k];
      r := SubAfterCjk(r, p, w);
      r := SubBeforeCjk(r, p, w);
    }
  }

  /** Apart from the strip and the placeholder, the clean-up only widens ASCII
      punctuation marks that have a CJK neighbour. */
  lemma PostprocessOnlyWidens(response: string)
    ensures var t, r := Prepared(response), Postprocess(response);
      && |r| == |t|
      && forall i :: 0 <= i < |t| ==> r[i] == if NextToCjk(t, i) then Widen(t[i]) else t[i]
  {
    var t := Prepared(response);
    forall i | 0 <= i < |t| {
      NormalizeAt(t, |Punkts|, i);
    }
  }

  /** The clean-up keeps every CJK character where it was and adds none. */
  lemma CjkKeptAt(t: string, j: int)
    requires 0 <= j < |t|
    ensures IsCjk(NormalizeUpTo(t, |Punkts|)[j]) <==> IsCjk(t[j])
  {
    NormalizeAt(t, |Punkts|, j);
    var w := Widen(t[j]);
    if w != t[j] {
      WidePunctIsPlain(w);
    }
  }

  /** Hence a position has a CJK neighbour after the clean-up exactly when it
      had one before. */
  lemma NextToCjkKept(t: string, i: int)
    ensures NextToCjk(NormalizeUpTo(t, |Punkts|), i) <==> NextToCjk(t, i)
  {
    if 0 < i <= |t| {
      CjkKeptAt(t, i - 1);
    }
    if 0 <= i && i + 1 < |t| {
      CjkKeptAt(t, i + 1);
    }
  }

  /** No ASCII `, ! : ; ?` is left next to a CJK character. */
  lemma PostprocessNoAsciiPunctNextToCjk(response: string)
    ensures var r := Postprocess(response);
      forall i :: 0 <= i < |r| && IsAsciiPunct(r[i]) ==> !NextToCjk(r, i)
  {
    var t, r := Prepared(response), Postprocess(response);
    forall i | 0 <= i < |r| && IsAsciiPunct(r[i])
      ensures !NextToCjk(r, i)
    {
      NormalizeAt(t, |Punkts|, i);
      NextToCjkKept(t, i);
      var w := Widen(t[i]);
      if IsWidePunct(w) {
        WidePunctIsPlain(w);
      }
    }
  }

  /** The training-date placeholder does not survive the clean-up. */
  lemma PostprocessHasNoMarker(response: string)
    ensures !Contains(Postprocess(response), TrainingDateMarker)
  {
    MarkerFacts();
    ReplaceClears(Strip(response), TrainingDateMarker, TrainingDate);
    NormalizeKeepsAbsent(Prepared(response), TrainingDateMarker);
  }

  /** The placeholder and the date share no character, and the placeholder has
      no full-width mark. */
  lemma MarkerFacts()
    ensures TrainingDateMarker != [] && TrainingDate != []
    ensures CharsDisjoint(TrainingDateMarker, TrainingDate)
    ensures Stripped(TrainingDateMarker) && Stripped(TrainingDate)
    ensures forall k :: 0 <= k < |TrainingDateMarker| ==> !IsWidePunct(TrainingDateMarker[k])
  {
  }

  /** Widening cannot create a text without full-width marks. */
  lemma NormalizeKeepsAbsent(t: string, pat: string)
    requires forall k :: 0 <= k < |pat| ==> !IsWidePunct(pat[k])
    requires !Contains(t, pat)
    ensures !Contains(NormalizeUpTo(t, |Punkts|), pat)
  {
    var r := NormalizeUpTo(t, |Punkts|);
    forall i ensures !OccursAt(r, pat, i) {
      if 0 <= i && i + |pat| <= |r| {
        assert !OccursAt(t, pat, i);
        assert t[i..i + |pat|] != pat;
        var k :| 0 <= k < |pat| && t[i..i + |pat|][k] != pat[k];
        assert t[i + k] != pat[k];
        NormalizeAt(t, |Punkts|, i + k);
        assert r[i..i + |pat|][k] == r[i + k];
      }
    }
  }

  /** The cleaned reply has no whitespace at either end: its ends are those of
      the stripped text, or full-width marks. */
  lemma PostprocessStripped(response: string)
    ensures Stripped(Postprocess(response))
  {
    MarkerFacts();
    ReplaceKeepsStripped(Strip(response), TrainingDateMarker, TrainingDate);
    NormalizeKeepsStripped(Prepared(response));
  }

  /** Widening keeps a text without whitespace at its ends so. */
  lemma NormalizeKeepsStripped(t: string)
    requires Stripped(t)
    ensures Stripped(NormalizeUpTo(t, |Punkts|))
  {
    var r := NormalizeUpTo(t, |Punkts|);
    if r != [] {
      NormalizeAt(t, |Punkts|, 0);
      NormalizeAt(t, |Punkts|, |r| - 1);
      var w0, w1 := Widen(t[0]), Widen(t[|r| - 1]);
      if IsWidePunct(w0) { WidePunctIsPlain(w0); }
      if IsWidePunct(w1) { WidePunctIsPlain(w1); }
    }
  }

  /** The clean-up is idempotent: cleaning a cleaned reply changes nothing. */
  lemma PostprocessIdempotent(response: string)
    ensures Postprocess(Postprocess(response)) == Postprocess(response)
  {
    PreparedOfCleaned(response);
    NormalizeIdempotent(Prepared(response));
  }

  /** The strip and the placeholder replacement leave a cleaned reply as it is. */
  lemma PreparedOfCleaned(response: string)
    ensures Prepared(Postprocess(response)) == Postprocess(response)
  {
    var r := Postprocess(response);
    PostprocessStripped(response);
    PostprocessHasNoMarker(response);
    MarkerFacts();
    ReplaceAbsent(r, TrainingDateMarker, TrainingDate);
  }

  /** Widening a widened text changes nothing. */
  lemma NormalizeIdempotent(t: string)
    ensures NormalizeUpTo(NormalizeUpTo(t, |Punkts|), |Punkts|) == NormalizeUpTo(t, |Punkts|)
  {
    var r := NormalizeUpTo(t, |Punkts|);
    var r2 := NormalizeUpTo(r, |Punkts|);
    forall i | 0 <= i < |r| ensures r2[i] == r[i] {
      NormalizeAt(r, |Punkts|, i);
      NormalizeAt(t, |Punkts|, i);
      NextToCjkKept(t, i);
      WidenIdempotent(t[i]);
    }
  }
}
