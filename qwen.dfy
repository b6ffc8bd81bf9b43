/** The Qwen dialect (`Qwen` in bert4torch/chat/llm.py): a ChatML prompt with a
    system block, as many of the newest past exchanges as the token window
    admits, and the open user turn. The tokenizer is a parameter `tokLen`, the
    number of tokens `tokenizer.encode` gives a text. */
module Qwen {
  import opened Text
  import opened Conversation

  /** The two settings of a `Qwen` chat: the system message and the window. */
  datatype Config = Config(system: string, maxWindowSize: int)

  /** The defaults of `Qwen.__init__`: an empty system message and a window of
      6144 tokens. */
  const DefaultConfig: Config := Config("", 6144)

  const ImStart: string := "<|im_start|>"
  const ImEnd: string := "<|im_end|>"

  /** `<|im_start|>system\n{system}<|im_end|>`. */
  function SystemBlock(system: string): string {
    ImStart + "system\n" + system + ImEnd
  }

  /** One past exchange, as it is prepended:
      `\n<|im_start|>user\n{q}<|im_end|>\n<|im_start|>assistant\n{a}<|im_end|>`. */
  function Turn(e: Exchange): string {
    "\n" + ImStart + "user\n" + e.query + ImEnd + "\n" + ImStart + "assistant\n" + e.answer + ImEnd
  }

  /** The open turn: `\n<|im_start|>user\n{query}<|im_end|>\n<|im_start|>assistant\n`. */
  function QueryBlock(query: string): string {
    "\n" + ImStart + "user\n" + query + ImEnd + "\n" + ImStart + "assistant\n"
  }

  /** The turns of `h`, oldest first. */
  function Chat(h: seq<Exchange>): string {
    if h == [] then "" else Turn(h[0]) + Chat(h[1..])
  }

  /** The newest `n` exchanges of `h`. */
  function Newest(h: seq<Exchange>, n: nat): seq<Exchange>
    requires n <= |h|
  {
    h[|h| - n..]
  }

  /** How many of the newest exchanges the walk keeps once it has kept `n`:
      the next older one is added while the text kept so far is shorter than
      the window, measured in tokens. */
  function KeptFrom(h: seq<Exchange>, n: nat, tokLen: string -> nat, window: int): (k: nat)
    requires n <= |h|
    ensures n <= k <= |h|
    decreases |h| - n
  {
    if n == |h| then n
    else if tokLen(Chat(Newest(h, n))) < window then KeptFrom(h, n + 1, tokLen, window)
    else n
  }

  /** The number of exchanges `build_prompt` keeps. */
  function Kept(h: seq<Exchange>, tokLen: string -> nat, window: int): nat {
    KeptFrom(h, 0, tokLen, window)
  }

  /** What `Qwen.build_prompt` returns. */
  function Prompt(cfg: Config, query: string, history: seq<Exchange>, tokLen: string -> nat): string {
    var n := Kept(history, tokLen, cfg.maxWindowSize);
    SystemBlock(cfg.system) + Chat(Newest(history, n)) + QueryBlock(query)
  }

  /** `Qwen.build_prompt`: walks the history newest first, prepending each
      exchange while the text built so far is under the window, and stops at
      the first one that is not. */
  method BuildPrompt(cfg: Config, query: string, history: seq<Exchange>, tokLen: string -> nat)
    returns (prompt: string)
    ensures prompt == Prompt(cfg, query, history, tokLen)
  {
    var raw := "";
    var i := |history|;
    while i > 0
      invariant 0 <= i <= |history|
      invariant raw == Chat(history[i..])
      invariant Kept(history, tokLen, cfg.maxWindowSize) == KeptFrom(history, |history| - i, tokLen, cfg.maxWindowSize)
    {
      assert history[i..] == Newest(history, |history| - i);
      if tokLen(raw) < cfg.maxWindowSize {
        assert history[i - 1..][1..] == history[i..];
        raw := Turn(history[i - 1]) + raw;
        i := i - 1;
      } else {
        break;
      }
    }
    assert history[i..] == Newest(history, |history| - i);
    prompt := SystemBlock(cfg.system) + raw;
    prompt := prompt + QueryBlock(query);
  }

  /** The walk's result, described without the walk: `n` exchanges are kept
      exactly when every shorter newest part is under the window and the part
      of `n` exchanges is the whole history or is not under the window. */
  ghost predicate KeepsExactly(h: seq<Exchange>, n: nat, tokLen: string -> nat, window: int) {
    && n <= |h|
    && (forall m :: 0 <= m < n ==> tokLen(Chat(Newest(h, m))) < window)
    && (n == |h| || tokLen(Chat(Newest(h, n))) >= window)
  }

  lemma KeptCharacterized(h: seq<Exchange>, tokLen: string -> nat, window: int, n: nat)
    ensures Kept(h, tokLen, window) == n <==> KeepsExactly(h, n, tokLen, window)
  {
    KeptFromCharacterized(h, 0, tokLen, window);
    if KeepsExactly(h, n, tokLen, window) {
      KeptFromUnique(h, 0, n, tokLen, window);
    }
  }

  lemma {:induction false} KeptFromUnique(h: seq<Exchange>, n0: nat, n: nat, tokLen: string -> nat, window: int)
    requires n0 <= n && KeepsExactly(h, n, tokLen, window)
    ensures KeptFrom(h, n0, tokLen, window) == n
    decreases n - n0
  {
    if n0 < n {
      assert tokLen(Chat(Newest(h, n0))) < window;
      KeptFromUnique(h, n0 + 1, n, tokLen, window);
    }
  }

  lemma {:induction false} KeptFromCharacterized(h: seq<Exchange>, n: nat, tokLen: string -> nat, window: int)
    requires n <= |h|
    requires forall m :: 0 <= m < n ==> tokLen(Chat(Newest(h, m))) < window
    ensures KeepsExactly(h, KeptFrom(h, n, tokLen, window), tokLen, window)
    decreases |h| - n
  {
    if n < |h| && tokLen(Chat(Newest(h, n))) < window {
      KeptFromCharacterized(h, n + 1, tokLen, window);
    }
  }

  /** The shape of every prompt: the system block first, the open turn last,
      and between them the newest exchanges, contiguous and in history order. */
  lemma PromptShape(cfg: Config, query: string, history: seq<Exchange>, tokLen: string -> nat)
    ensures var p, n := Prompt(cfg, query, history, tokLen), Kept(history, tokLen, cfg.maxWindowSize);
      && SystemBlock(cfg.system) <= p
      && |p| >= |QueryBlock(query)| && p[|p| - |QueryBlock(query)|..] == QueryBlock(query)
      && p == SystemBlock(cfg.system) + Chat(history[|history| - n..]) + QueryBlock(query)
  {
    var n := Kept(history, tokLen, cfg.maxWindowSize);
    PrefixOfConcat(SystemBlock(cfg.system), Chat(Newest(history, n)) + QueryBlock(query));
  }

  /** With a positive window and a tokenizer that gives the empty text no
      tokens, the newest exchange is always kept. */
  lemma NewestAlwaysKept(h: seq<Exchange>, tokLen: string -> nat, window: int)
    requires h != [] && window > 0 && tokLen("") == 0
    ensures Kept(h, tokLen, window) >= 1
  {
    assert Newest(h, 0) == [];
  }

  /** The window bounds the kept text without its oldest exchange, not the
      kept text itself: the check happens before the exchange is added. */
  lemma WindowBoundsAllButOldest(h: seq<Exchange>, tokLen: string -> nat, window: int)
    requires Kept(h, tokLen, window) > 0
    ensures tokLen(Chat(Newest(h, Kept(h, tokLen, window) - 1))) < window
  {
    var n := Kept(h, tokLen, window);
    KeptCharacterized(h, tokLen, window, n);
  }

  /** The kept text can exceed the window: with one token per character and a
      window of one token, a single exchange is kept although its text is
      longer than one token. */
  lemma WindowOvershoot()
    ensures var h, tokLen := [Exchange("", "")], (s: string) => |s|;
      && Kept(h, tokLen, 1) == 1
      && tokLen(Chat(Newest(h, 1))) > 1
  {
    var h, tokLen := [Exchange("", "")], (s: string) => |s|;
    assert Newest(h, 0) == [];
    assert Newest(h, 1) == h;
    assert h[1..] == [];
  }

  /** Exchanges older than the window have no effect: once the walk stops
      before the oldest exchange, putting more history in front of it changes
      neither the kept count nor the prompt. */
  lemma OlderHistoryIgnored(cfg: Config, query: string, older: seq<Exchange>, h: seq<Exchange>, tokLen: string -> nat)
    requires Kept(h, tokLen, cfg.maxWindowSize) < |h|
    ensures Kept(older + h, tokLen, cfg.maxWindowSize) == Kept(h, tokLen, cfg.maxWindowSize)
    ensures Prompt(cfg, query, older + h, tokLen) == Prompt(cfg, query, h, tokLen)
  {
    var w := cfg.maxWindowSize;
    var n := Kept(h, tokLen, w);
    var h' := older + h;
    forall m | 0 <= m <= |h| ensures Newest(h', m) == Newest(h, m) {
      assert h'[|h'| - m..] == h[|h| - m..];
    }
    KeptCharacterized(h, tokLen, w, n);
    KeptCharacterized(h', tokLen, w, n);
  }

  /** Forgetting the oldest exchange never makes the walk keep more: it keeps
      the same exchanges, unless it had kept them all. */
  lemma DropOldest(h: seq<Exchange>, tokLen: string -> nat, window: int)
    requires h != []
    ensures var n := Kept(h, tokLen, window);
      Kept(h[1..], tokLen, window) == if n < |h| then n else |h| - 1
  {
    var n := Kept(h, tokLen, window);
    var t := h[1..];
    var n' := if n < |h| then n else |h| - 1;
    forall m | 0 <= m <= |t| ensures Newest(t, m) == Newest(h, m) {
      assert t[|t| - m..] == h[|h| - m..];
    }
    KeptCharacterized(h, tokLen, window, n);
    KeptCharacterized(t, tokLen, window, n');
  }
}
