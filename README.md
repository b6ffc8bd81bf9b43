# bert4torch chat dialects and checkpoint key remapping, in Dafny

This project models three parts of bert4torch.

- **Chat dialects** (`bert4torch/chat/llm.py`). Each chat model has a
  `build_prompt`, which turns the conversation history and the new query
  into the model's input, and a `process_response`, which turns the decoded
  text into the reply. The dialects modelled are:
  - `Chatglm` and `Chatglm2`: numbered rounds, plus a clean-up that widens
    ASCII punctuation next to CJK characters;
  - `Chatglm3`: edits the caller's history list in place and recognises
    plain replies, named blocks and tool calls;
  - `InternLM`: tagged turns, and removal of the sentinel markers;
  - `Qwen`: ChatML blocks, with the history walked newest-first under a
    token window.
- **LLaMA weight names** (`bert4torch/models/llama.py`). This covers:
  - the map from bert4torch weight names to Hugging Face checkpoint names;
  - splitting Baichuan's fused `W_pack` query/key/value weight on load, and
    recording the unfused "belle" names;
  - fusing q, k and v back into `W_pack` on save.
- **Qwen checkpoint conversion** (`convert_script/convert_Qwen.py`). This
  renames every weight of a Qwen checkpoint to its bert4torch name, and cuts
  each layer's fused attention weight and bias into query, key and value.

How the model is built:

- **Text.** Strings are `seq<char>`. The Python string methods the code uses
  (`strip`, `replace`, `split`, `join`, `split` with `maxsplit=1`, decimal
  formatting of layer indices) are written out in `text.dfy`.
- **Tensors.** A tensor is the sequence of its rows along dimension 0.
  `torch.cat` is concatenation. `torch.split` and `torch.chunk` cut the
  sequence into consecutive pieces, with `torch.chunk`'s exact piece sizes
  (`tensors.dfy`).
- **State.** Code that works step by step is modelled as methods with loops,
  each proved equal to a function that specifies it:
  - the per-layer loops over a state dict;
  - the accumulating prompt loops;
  - the in-place edits of the ChatGLM3 history, held in the `Chatglm3.History`
    class.

  The lemmas are proved about those specification functions.
- **Exceptions.** A raised exception (`KeyError`, `RuntimeError`,
  `TypeError`, `ValueError`, `IndexError`) becomes a `Failure` result.
- **Foreign calls.** The tokenizer is a function parameter: `tokLen` for
  `len(tokenizer.encode(...))` and `chatInput` for
  `tokenizer.build_chat_input`.

Four behaviours of the code are easy to misread, and the model states them as
the code has them:

- **Qwen window.** The code measures the kept text before prepending a turn,
  so the prompt can exceed `max_window_size` tokens by one turn
  (`Qwen.WindowOvershoot`). Only the kept text without its oldest turn is
  bounded by the window (`Qwen.WindowBoundsAllButOldest`).
- **Tool-call parameters.** The code keeps the content minus its first and
  last lines as the parameter text. For `"get_weather\n\ncity='Paris'"` that
  text is empty (`Chatglm3.ToolParametersOfTwoLines`), and the code then
  raises `SyntaxError` in `eval("")`; a line such as `tool_call(city='Paris')`
  raises `NameError` in `eval`, because the module defines no `tool_call`.
  The model stops before `eval` (see "Left out").
- **InternLM markers.** The clean-up removes each sentinel marker with one
  pass of `replace`. Removing one marker can splice a new one together, so the
  output is not always marker-free (`InternLM.SpliceCreatesMarker`).
- **Qwen conversion size.** The conversion writes `3 + 12 * num_hidden_layers`
  entries only when every fused tensor gives three chunks. The code's
  `torch.chunk` gives fewer than three pieces for a fused tensor of 1, 2 or 4
  rows, and `zip` then writes fewer slots (`ConvertQwen.ConvertedSize`).

`Chatglm2.process_response` (bert4torch/chat/llm.py:46-59) repeats the code
of `Chatglm.process_response`; `Chatglm2.ProcessResponse` runs the same passes
and is proved to compute the same `Chatglm.Postprocess`.

## Model

| member | source | states |
|---|---|---|
| Chatglm.BuildPrompt | bert4torch/chat/llm.py:8-16 | An empty history gives the bare query. Otherwise the prompt ends with the open round numbered `len(history)`. The method's loop builds exactly `Chatglm.Prompt`. |
| Chatglm.FirstRoundIsBare | bert4torch/chat/llm.py:9-15 | The first prompt is the query itself. The second prompt starts with `[Round 0]` holding the first exchange, then opens `[Round 1]`. |
| Chatglm.NextRoundExtendsPrompt | bert4torch/chat/llm.py:13-15 | Once history is non-empty, a prompt followed by its answer and a newline is exactly the rounds of the extended history. It is also a prefix of the next prompt. |
| Chatglm.ProcessResponse | bert4torch/chat/llm.py:18-31 | The method's passes compute `Postprocess`: strip, fill in the training date, then the ten `re.sub` passes. |
| Chatglm2.ProcessResponse | bert4torch/chat/llm.py:46-59 | The second dialect's clean-up computes the same `Chatglm.Postprocess` as the first. |
| Chatglm.Widen | bert4torch/chat/llm.py:21-27 | An ASCII `, ! : ; ?` maps to its full-width partner. Every other character is unchanged. |
| Chatglm.WidenIdempotent | bert4torch/chat/llm.py:21-27 | Widening a widened character changes nothing. |
| Chatglm.SubAfterCjkAt | bert4torch/chat/llm.py:29 | The left-to-right scan replaces the mark at `i` exactly when the original character before `i` is CJK. |
| Chatglm.SubBeforeCjkAt | bert4torch/chat/llm.py:30 | The scan replaces the mark at `i` exactly when the original character after `i` is CJK. |
| Chatglm.NormalizeAt | bert4torch/chat/llm.py:28-30 | After the passes for the first `k` marks, a character is widened exactly when it has a CJK neighbour in the input. Other characters are kept. |
| Chatglm.PostprocessOnlyWidens | bert4torch/chat/llm.py:19-30 | After the strip and the date replacement, the length is unchanged. A character changes only by widening, and only when it has a CJK neighbour. |
| Chatglm.PostprocessNoAsciiPunctNextToCjk | bert4torch/chat/llm.py:21-30 | No ASCII `, ! : ; ?` in the result has a CJK character before or after it. |
| Chatglm.PostprocessHasNoMarker | bert4torch/chat/llm.py:20 | The result never contains `[[训练时间]]`. |
| Chatglm.PostprocessStripped | bert4torch/chat/llm.py:19-30 | The result has no leading or trailing whitespace. |
| Chatglm.PostprocessIdempotent | bert4torch/chat/llm.py:18-31 | Cleaning an already cleaned reply returns it unchanged. |
| Chatglm2.BuildPrompt | bert4torch/chat/llm.py:38-44 | The prompt equals `Chatglm2.Prompt`. It always starts with the `[Round 1]` header, even for an empty history, and always ends in `\n\n答：`. |
| Chatglm2.StartsWithHeader | bert4torch/chat/llm.py:40-43 | Every prompt starts with `[Round 1]\n\n问：`, numbering from 1 where `Chatglm` numbers from 0. |
| Chatglm2.NextRoundExtendsPrompt | bert4torch/chat/llm.py:41-43 | A prompt followed by its answer and a newline is the rounds of the extended history, and is a prefix of the next prompt. |
| Chatglm3.BuildPrompt | bert4torch/chat/llm.py:66-73 | The history list becomes `Prepared(old history, query)`: a trailing tuple dropped, then the user turn and the empty assistant turn appended. The ids are `build_chat_input` of the query and the new history. |
| Chatglm3.PreparedShape | bert4torch/chat/llm.py:68-71 | The new history ends with the user turn and the empty assistant placeholder. Everything before them is a prefix of the old history. It grew by one exactly when the old history ended in a tuple, and by two otherwise. |
| Chatglm3.BuildCliText | bert4torch/chat/llm.py:75-85 | The method's loop computes `CliText` over all entries but the last. |
| Chatglm3.CliTextFails | bert4torch/chat/llm.py:78-84 | The text fails exactly when a shown entry is a tuple, which cannot be indexed by `'role'`. A successful text starts with the initial string. |
| Chatglm3.OnlyTypeError | bert4torch/chat/llm.py:79-82 | The only failure is a `TypeError`. |
| Chatglm3.ErrorPersists | bert4torch/chat/llm.py:78-79 | A failure on a prefix of the history is the failure of the whole loop. |
| Chatglm3.CliAfterBuildPrompt | bert4torch/chat/llm.py:70-85 | After `build_prompt`, the terminal shows the previous text followed by `\n\nUser：{query}`. The placeholder is not shown. |
| Chatglm3.ProcessResponse | bert4torch/chat/llm.py:87-106 | The reply and the history left behind equal `Process`. This includes the history as partly rewritten when an exception stops the loop. |
| Chatglm3.IncompleteIff | bert4torch/chat/llm.py:88-89 | The response comes back unchanged, with the history untouched, exactly when it is empty or ends in U+FFFD. |
| Chatglm3.StepFrame | bert4torch/chat/llm.py:93-99 | One segment keeps the history's length and every entry but the last. On success it leaves an assistant entry with metadata last. |
| Chatglm3.ProcessFrame | bert4torch/chat/llm.py:92-105 | Whatever happens, only `history[-1]` can change. A completed reply leaves an assistant entry with metadata there. |
| Chatglm3.LastSegmentDecides | bert4torch/chat/llm.py:92-106 | A completed run returns what the last `<|assistant|>` segment gives, on the history the earlier segments left. |
| Chatglm3.MissingNewlineFails | bert4torch/chat/llm.py:93 | Any segment without a newline makes the call fail, because the unpacking gets one value. |
| Chatglm3.RunSucceeds | bert4torch/chat/llm.py:92-105 | With a non-empty history whose first entry is a dict (or its only entry), and every segment holding a newline, the call succeeds. |
| Chatglm3.PlainReply | bert4torch/chat/llm.py:94-97 | A blank metadata line gives the stripped content, with the training date filled in. |
| Chatglm3.ToolReply | bert4torch/chat/llm.py:99-103 | Given a non-blank metadata line and a system first entry with `tools`, the reply is a tool call. It carries the stripped name and the content minus its first and last lines. |
| Chatglm3.ToolParametersOfLines | bert4torch/chat/llm.py:101 | The parameter text of lines `l0 … ln` is the lines strictly between the first and the last, joined by newlines. |
| Chatglm3.ToolParametersOfTwoLines | bert4torch/chat/llm.py:101 | Content of two lines has the empty parameter text. |
| InternLM.BuildPrompt | bert4torch/chat/llm.py:113-122 | The method's loop builds exactly `InternLM.Prompt`. |
| InternLM.PromptShape | bert4torch/chat/llm.py:114-122 | Every prompt starts with `<s>`. A lone `<s>` appears only for an empty history. Nothing follows the history records when `query is None`, and the open user turn follows them otherwise. |
| InternLM.HistoryTextEmpty | bert4torch/chat/llm.py:115-118 | The history text is empty exactly when the history is, and starts with `<s>` otherwise. |
| InternLM.FirstRoundExtends | bert4torch/chat/llm.py:116-120 | The first prompt plus its answer and `<eoa>\n` is the record of that exchange. |
| InternLM.LaterRoundInsertsStart | bert4torch/chat/llm.py:115-120 | Once there is history, the next record is the prompt's open turn with a new `<s>` in front. |
| InternLM.ProcessResponse | bert4torch/chat/llm.py:124-127 | The method's passes compute `Clean`, and the result is never longer than the input. |
| InternLM.CleanChangesIffMarker | bert4torch/chat/llm.py:125-126 | A reply is left unchanged exactly when it contains none of `<s>`, `</s>`, `<eoh>`, `<eoa>`. Otherwise it gets strictly shorter. |
| InternLM.SpliceCreatesMarker | bert4torch/chat/llm.py:125-126 | `<<s>s>` cleans to `<s>`, so the output is not always marker-free. |
| Qwen.BuildPrompt | bert4torch/chat/llm.py:139-164 | The newest-first walk with its early break builds exactly `Qwen.Prompt`: the system block, the kept newest exchanges, then the open turn. |
| Qwen.KeptCharacterized | bert4torch/chat/llm.py:148-159 | The walk keeps `n` exchanges if and only if every shorter newest part is under the window, and the part of `n` is the whole history or is not under the window. |
| Qwen.PromptShape | bert4torch/chat/llm.py:161-162 | Every prompt starts with the system block and ends with the open user/assistant turn. Between them is a contiguous newest suffix of the history, in history order. |
| Qwen.NewestAlwaysKept | bert4torch/chat/llm.py:155-157 | With a positive window, and a tokenizer that gives the empty text no tokens, the newest exchange is always kept. |
| Qwen.WindowBoundsAllButOldest | bert4torch/chat/llm.py:155-157 | The kept text without its oldest exchange is under the window. |
| Qwen.WindowOvershoot | bert4torch/chat/llm.py:155-157 | A concrete history and tokenizer whose kept text exceeds the window. |
| Qwen.OlderHistoryIgnored | bert4torch/chat/llm.py:148-159 | Once the walk stops early, prepending older history changes neither the kept count nor the prompt. |
| Qwen.DropOldest | bert4torch/chat/llm.py:148-159 | Dropping the oldest exchange leaves the kept count unchanged, unless all were kept, in which case it is one less. It never grows. |
| LLaMA.VariableMapping | bert4torch/models/llama.py:67-87 | The method's loop builds `Mapping(n)`. It has exactly `3 + 6 * n` entries, and no two names share a checkpoint name. |
| LLaMA.MappingCountInjective | bert4torch/models/llama.py:71-87 | `3 + 6 * n` entries and injective, with every indexed name below `n`. |
| LLaMA.LayerMappingSize | bert4torch/models/llama.py:78-86 | Each layer adds six distinct names with six distinct targets. |
| LLaMA.BaseMappingUnindexed | bert4torch/models/llama.py:71-75 | The three base names are distinct, injective, and carry no layer index. |
| LLaMA.AttnKeyInjective | bert4torch/models/llama.py:41 | The q/k/v keys of distinct layers or projections are distinct. |
| LLaMA.LoadTransCkpt | bert4torch/models/llama.py:30-51 | The per-layer loop gives `LoadLayers`: the split state dict and the belle map, or the error of the first fused weight of the wrong size. |
| LLaMA.LoadOutcome | bert4torch/models/llama.py:34-49 | The load succeeds exactly when every present `W_pack` has `3 * hidden_size` rows. See the table notes below for the key-by-key result. |
| LLaMA.LoadFailsAt | bert4torch/models/llama.py:39 | A failed load names the `W_pack` key of a layer below `n`. |
| LLaMA.SplitLayerFrame | bert4torch/models/llama.py:35-42 | One layer's split changes no key outside that layer. |
| LLaMA.SaveTransCkpt | bert4torch/models/llama.py:53-65 | The per-layer loop gives `SaveLayers`. |
| LLaMA.SaveOutcome | bert4torch/models/llama.py:56-64 | Key by key, see the table notes below. |
| LLaMA.GatherContents | bert4torch/models/llama.py:59-63 | Nothing is gathered exactly when none of q, k, v is present. When all are present, they are gathered in q, k, v order. |
| LLaMA.SavedFusedWeight | bert4torch/models/llama.py:64 | A layer with all of q, k, v gets `W_pack` = q + k + v. |
| LLaMA.SaveThenLoad | bert4torch/models/llama.py:35-64 | If every layer has q, k, v of `hidden_size` rows each, saving and then loading succeeds. It gives back the original state dict. |
| Tensors.SplitThree | bert4torch/models/llama.py:39 | The split succeeds exactly when the tensor has `3 * n` rows. It then gives three pieces of `n` rows. |
| Tensors.CatOfSplit | bert4torch/models/llama.py:39 | The three pieces of a split concatenate back to the tensor. |
| Tensors.SplitOfCat | bert4torch/models/llama.py:64 | Splitting the concatenation of three `n`-row tensors gives them back. |
| Tensors.CatOfChunks | convert_script/convert_Qwen.py:38 | The chunks of `torch.chunk(t, 3)` always concatenate back to `t`. |
| Tensors.ChunkCount | convert_script/convert_Qwen.py:38 | There are at most three chunks. There are exactly three unless the tensor has 1, 2 or 4 rows. |
| Tensors.ChunksOfThirds | convert_script/convert_Qwen.py:38 | A tensor of `3 * n` rows chunks into its three equal thirds. |
| ConvertQwen.Convert | convert_script/convert_Qwen.py:15-77 | The method's writes into `new_weights` give `Converted`. That is either the `KeyError` of the first name missing in reading order, or the store of all entries. |
| ConvertQwen.CopyAll | convert_script/convert_Qwen.py:21-30 | The copies fail on the first missing source. Otherwise every destination holds its source tensor. |
| ConvertQwen.ConvertLayer | convert_script/convert_Qwen.py:33-75 | One loop pass fails on the first missing name of the layer. Otherwise it writes exactly that layer's entries. |
| ConvertQwen.WriteZip | convert_script/convert_Qwen.py:39-46 | The `zip` loop writes the chunks into the query, key and value slots in order, as many as there are chunks. |
| ConvertQwen.ConvertedFails | convert_script/convert_Qwen.py:21-77 | The conversion fails if and only if a name it reads is missing. The error is the first missing name, and nothing is saved. |
| ConvertQwen.LayerSourceRead | convert_script/convert_Qwen.py:37-73 | A missing name of any layer below `n` makes the conversion fail. |
| ConvertQwen.ConvertedContents | convert_script/convert_Qwen.py:17-75 | The output has one key per entry, each holding its entry's tensor. Every key starts with `qwen.` and is an entry's name. |
| ConvertQwen.EntriesDistinct | convert_script/convert_Qwen.py:32-75 | No two entries share a name, so nothing is overwritten. |
| ConvertQwen.SuffixesDistinct | convert_script/convert_Qwen.py:40-74 | The twelve per-layer destination suffixes are distinct. |
| ConvertQwen.QkvSuffixes | convert_script/convert_Qwen.py:32-46 | The q/k/v slots are `attention.self.{query,key,value}.{weight,bias}`. |
| ConvertQwen.ConvertedBase | convert_script/convert_Qwen.py:21-30 | Embeddings, lm_head and the final layer norm are copied unchanged under their new names. |
| ConvertQwen.ConvertedCopy | convert_script/convert_Qwen.py:49-75 | Each of the six per-layer copies holds its source tensor unchanged. |
| ConvertQwen.ConvertedFeedForward | convert_script/convert_Qwen.py:58-65 | `mlp.w2` lands in `intermediate.dense` and `mlp.w1` in `intermediate2.dense`. |
| ConvertQwen.ConvertedChunks | convert_script/convert_Qwen.py:37-46 | Chunk `k` of the fused weight (or bias) lands in the `k`-th of the query, key, value slots, for each chunk there is. |
| ConvertQwen.ConvertedQkvRejoin | convert_script/convert_Qwen.py:38-46 | Unless the fused tensor has 1, 2 or 4 rows, query + key + value is the fused tensor. |
| ConvertQwen.ValueSlotUnwritten | convert_script/convert_Qwen.py:38-46 | With 1, 2 or 4 rows, `zip` stops early and the value slot is never written. |
| ConvertQwen.EntriesCount | convert_script/convert_Qwen.py:32-75 | Between `3 + 6 * n` and `3 + 12 * n` entries, exactly `3 + 12 * n` when every fused tensor gives three chunks. |
| ConvertQwen.ConvertedSize | convert_script/convert_Qwen.py:12-75 | The output has between `3 + 6 * n` and `3 + 12 * n` keys. It has exactly `3 + 12 * n`, which is 387 for the 32 layers, when every fused tensor gives three chunks. |

Key-by-key results of the LLaMA load and save:

- `LLaMA.LoadOutcome`: in a loaded state dict, each present `W_pack` is
  replaced by its three `hidden_size`-row blocks under the q, k, v keys, and
  every other key is kept. The belle map records each q/k/v projection that is
  present.
- `LLaMA.SaveOutcome`: in the saved state dict, every layer's q, k, v keys
  are gone. `W_pack` holds their concatenation when any was present, and every
  other key is unchanged.

## Left out

- Tokenizer internals (`tokenizer.encode`, `tokenizer.build_chat_input`). The
  model takes them as function parameters.
- `eval` of a tool call's parameter text. This is dynamic evaluation of Python
  code, so the tool call keeps the text.
- Chatglm3.RunSucceeds: promises success where the code can still raise in
  `eval` (a `SyntaxError` on empty parameter text, a `NameError` on an
  undefined name, any other exception of the evaluated code), because `eval`
  is not modelled.
- Chatglm3.ToolReply: states `Success(ToolCall(...))` with the parameter
  text, where the code raises whenever `eval` of that text raises, because
  `eval` is not modelled.
- Chatglm3.Entry: a history dict without a `'role'` key cannot be
  represented, so the `KeyError` of `history[0]["role"]` and `item['role']`
  (bert4torch/chat/llm.py:79, 100) is not modelled.
- The `Chat` base class, the generation loop, and the CLI, web and
  OpenAI-API decorators with their server and client. None of their code is
  modelled.
- `LLaMA.__init__`. It builds neural network layers.
- `super().load_trans_ckpt` and `modify_variable_mapping`. Their code is not
  part of this model.
  - `LLaMA.LoadTransCkpt` takes the state dict the parent returns.
  - It returns the belle map instead of merging it into `variable_mapping`.
- Tensor numerics and shapes beyond the row count. Only row slicing and
  concatenation along dimension 0 matter to this code, so a `torch.cat` of
  mismatched widths is not modelled.
- `torch.load`, `torch.save`, the hard-coded paths, and the script's
  `__main__` config writing (convert_script/convert_Qwen.py:9-11, 16, 77-116).
  These are file I/O.
- ConvertQwen.Convert: the layer count is a parameter. `NumHiddenLayers`
  (32) is used only for the stated size of the full conversion.
- The shared mutable default `history=[]` of `Chatglm3.build_prompt`. The
  history is always an explicit `Chatglm3.History` object.
- The regular-expression engine. The two `re.sub` patterns are modelled
  directly as left-to-right scans over the CJK range U+4E00–U+9FFF.
- `Qwen.__init__`'s other arguments. `Qwen.Config` holds the system message
  and the window, and `Qwen.DefaultConfig` holds the defaults (empty system
  message, 6144 tokens).
