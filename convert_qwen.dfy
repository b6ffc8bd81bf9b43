/** The renaming of a Qwen checkpoint into bert4torch's names
    (`convert()` in convert_script/convert_Qwen.py): three model-wide weights
    are copied, and per layer the fused attention weight and bias are each
    cut into query, key and value while six more weights are copied. */
module ConvertQwen {
  import opened Results
  import opened Text
  import opened Tensors

  type Weights = map<string, Tensor>

  /** The layer count the script is written for. */
  const NumHiddenLayers: nat := 32

  // ---------------------------------------------------------------------------
  // Names

  /** `transformer.h.{i}{suffix}`: a weight of layer `i` in the checkpoint. */
  function SrcName(i: nat, suffix: string): string {
    IndexedName("transformer.h.", i, suffix)
  }

  const LayerPrefix: string := "qwen.encoder.layer."

  /** `qwen.encoder.layer.{i}{suffix}`: a weight of layer `i` in bert4torch. */
  function DstName(i: nat, suffix: string): string {
    IndexedName(LayerPrefix, i, suffix)
  }

  /** The model-wide weights: checkpoint name and bert4torch name. */
  const BaseCopies: seq<(string, string)> := [
    ("transformer.wte.weight", "qwen.embeddings.word_embeddings.weight"),
    ("lm_head.weight", "qwen.lm_head.weight"),
    ("transformer.ln_f.weight", "qwen.LayerNormFinal.weight")]

  const QkvNames: seq<string> := ["query", "key", "value"]

  const FusedWeight: string := ".attn.c_attn.weight"
  const FusedBias: string := ".attn.c_attn.bias"

  /** The bert4torch suffixes of a layer, by slot: 0-2 the query, key and
      value weights, 3-5 their biases, 6-11 the six weights copied unchanged. */
  const Suffixes: seq<string> := [
    ".attention.self.query.weight", ".attention.self.key.weight", ".attention.self.value.weight",
    ".attention.self.query.bias", ".attention.self.key.bias", ".attention.self.value.bias",
    ".attention.output.dense.weight", ".attention.output.LayerNorm.weight",
    ".intermediate.dense.weight", ".intermediate2.dense.weight",
    ".output.dense.weight", ".output.LayerNorm.weight"]

  /** The checkpoint suffixes of the six copies, for slots 6-11 in the order
      the script copies them. The first feed-forward weight of bert4torch
      comes from `w2`, the second from `w1`. */
  const CopySources: seq<string> := [
    ".attn.c_proj.weight", ".ln_1.weight", ".mlp.w2.weight",
    ".mlp.w1.weight", ".mlp.c_proj.weight", ".ln_2.weight"]

  /** The query, key and value slots are the names `zip` pairs with the
      chunks, spelled as the script builds them. */
  lemma QkvSuffixes()
    ensures forall k :: 0 <= k < 3 ==> Suffixes[k] == ".attention.self." + QkvNames[k] + ".weight"
    ensures forall k :: 0 <= k < 3 ==> Suffixes[3 + k] == ".attention.self." + QkvNames[k] + ".bias"
  {
  }

  lemma SuffixesDistinct()
    ensures forall s, t :: 0 <= s < t < |Suffixes| ==> Suffixes[s] != Suffixes[t]
    ensures forall s :: 0 <= s < |Suffixes| ==> Suffixes[s] != [] && !IsDigit(Suffixes[s][0])
  {
  }

  // ---------------------------------------------------------------------------
  // What the conversion reads, and what it writes

  function Firsts(pairs: seq<(string, string)>): seq<string> {
    seq(|pairs|, t requires 0 <= t < |pairs| => pairs[t].0)
  }

  /** The checkpoint names layer `i` reads, in the order it reads them. */
  function LayerSources(i: nat): seq<string> {
    [FusedName(i, 0), FusedName(i, 3)] + Firsts(LayerPairs(i))
  }

  /** The checkpoint names a conversion of `n` layers reads, in order. */
  function Sources(n: nat): seq<string> {
    if n == 0 then Firsts(BaseCopies) else Sources(n - 1) + LayerSources(n - 1)
  }

  predicate AllPresent(w: Weights, names: seq<string>) {
    forall j :: 0 <= j < |names| ==> names[j] in w
  }

  /** The first of `names` that `w` lacks: the lookup that raises `KeyError`. */
  function FirstMissing(w: Weights, names: seq<string>): Option<string> {
    if names == [] then None
    else if names[0] !in w then Some(names[0])
    else FirstMissing(w, names[1..])
  }

  /** A named tensor written into the new weights. */
  type Entry = (string, Tensor)

  /** The pieces of a chunked weight under the slots from `offset` on, as
      far as `zip` with the three names reaches. */
  function Zip(i: nat, offset: nat, pieces: seq<Tensor>): seq<Entry>
    requires offset == 0 || offset == 3
  {
    var n := if |pieces| < |QkvNames| then |pieces| else |QkvNames|;
    seq(n, k requires 0 <= k < n => (DstName(i, Suffixes[offset + k]), pieces[k]))
  }

  /** The first `n` of `pairs` copied: each destination name with the
      tensor under its source name. */
  function Copies(w: Weights, pairs: seq<(string, string)>, n: nat): seq<Entry>
    requires n <= |pairs|
    requires forall t :: 0 <= t < n ==> pairs[t].0 in w
  {
    seq(n, t requires 0 <= t < n => (pairs[t].1, w[pairs[t].0]))
  }

  /** The six copies of layer `i`, with full names. */
  function LayerPairs(i: nat): seq<(string, string)> {
    seq(|CopySources|, t requires 0 <= t < |CopySources| => (SrcName(i, CopySources[t]), DstName(i, Suffixes[6 + t])))
  }

  /** The fused weight (`offset` 0) or the fused bias (`offset` 3) of layer `i`. */
  function FusedName(i: nat, offset: nat): string {
    SrcName(i, if offset == 0 then FusedWeight else FusedBias)
  }

  /** Every name layer `i` reads is in `w`. */
  predicate LayerPresent(w: Weights, i: nat) {
    && FusedName(i, 0) in w && FusedName(i, 3) in w
    && forall t :: 0 <= t < |CopySources| ==> LayerPairs(i)[t].0 in w
  }

  lemma LayerPresentIff(w: Weights, i: nat)
    ensures AllPresent(w, LayerSources(i)) <==> LayerPresent(w, i)
  {
    var srcs := LayerSources(i);
    assert srcs[0] == FusedName(i, 0) && srcs[1] == FusedName(i, 3);
    assert forall t :: 0 <= t < |CopySources| ==> srcs[2 + t] == LayerPairs(i)[t].0;
    if LayerPresent(w, i) {
      forall j | 0 <= j < |srcs| ensures srcs[j] in w {
        if j >= 2 {
          assert srcs[j] == LayerPairs(i)[j - 2].0;
        }
      }
    }
  }

  /** What layer `i` writes, in order. */
  function LayerEntries(w: Weights, i: nat): seq<Entry>
    requires LayerPresent(w, i)
  {
    Zip(i, 0, ChunkThree(w[FusedName(i, 0)]))
      + Zip(i, 3, ChunkThree(w[FusedName(i, 3)]))
      + Copies(w, LayerPairs(i), |CopySources|)
  }

  lemma SourcesPresent(w: Weights, n: nat)
    requires n > 0 && AllPresent(w, Sources(n))
    ensures AllPresent(w, Sources(n - 1)) && AllPresent(w, LayerSources(n - 1)) && LayerPresent(w, n - 1)
  {
    AllPresentConcat(w, Sources(n - 1), LayerSources(n - 1));
    LayerPresentIff(w, n - 1);
  }

  lemma AllPresentConcat(w: Weights, a: seq<string>, b: seq<string>)
    ensures AllPresent(w, a + b) <==> AllPresent(w, a) && AllPresent(w, b)
  {
    if AllPresent(w, a + b) {
      assert forall j :: 0 <= j < |a| ==> a[j] == (a + b)[j];
      assert forall j :: 0 <= j < |b| ==> b[j] == (a + b)[|a| + j];
    }
  }

  /** What a conversion of `n` layers writes, in order. */
  function Entries(w: Weights, n: nat): seq<Entry>
    requires AllPresent(w, Sources(n))
  {
    if n == 0 then
      assert forall t :: 0 <= t < |BaseCopies| ==> Sources(0)[t] == BaseCopies[t].0;
      Copies(w, BaseCopies, |BaseCopies|)
    else
      SourcesPresent(w, n);
      Entries(w, n - 1) + LayerEntries(w, n - 1)
  }

  /** `out` with the entries written in order. */
  function Store(out: Weights, entries: seq<Entry>): Weights {
    if entries == [] then out
    else
      var last := entries[|entries| - 1];
      Store(out, entries[..|entries| - 1])[last.0 := last.1]
  }

  /** What `convert()` saves: `KeyError` on the first checkpoint name it
      reads and does not find, otherwise every entry written in order into
      an empty dict. */
  function Converted(w: Weights, n: nat): Result<Weights, string> {
    match FirstMissing(w, Sources(n))
    case Some(k) => Failure(k)
    case None =>
      FirstMissingNone(w, Sources(n));
      Success(Store(map[], Entries(w, n)))
  }

  // ---------------------------------------------------------------------------
  // convert()

  /** `convert()` between `torch.load` and `torch.save`: `torchWeights` is the
      loaded checkpoint and the result the dict that is saved. */
  method Convert(torchWeights: Weights, numLayers: nat) returns (r: Result<Weights, string>)
    ensures r == Converted(torchWeights, numLayers)
  {
    // embeddings, lm_head, final layer norm
    r := CopyAll(torchWeights, map[], BaseCopies);
    if r.Failure? {
      BaseFails(torchWeights, numLayers);
      return r;
    }
    BaseStored(torchWeights);
    var newWeights := r.value;
    for i := 0 to numLayers
      invariant AllPresent(torchWeights, Sources(i))
      invariant newWeights == Store(map[], Entries(torchWeights, i))
    {
      r := ConvertLayer(torchWeights, i, newWeights);
      if r.Failure? {
        LayerFails(torchWeights, i, numLayers);
        return r;
      }
      EntriesStep(torchWeights, i);
      newWeights := r.value;
    }
    ConvertedAll(torchWeights, numLayers);
    r := Success(newWeights);
  }

  lemma BaseFails(w: Weights, n: nat)
    requires FirstMissing(w, Firsts(BaseCopies)).Some?
    ensures Converted(w, n) == Failure(FirstMissing(w, Firsts(BaseCopies)).value)
  {
    SourcesPrefix(0, n);
    FirstMissingOfPrefix(w, Sources(0), Sources(n));
  }

  lemma BaseStored(w: Weights)
    requires FirstMissing(w, Firsts(BaseCopies)).None?
    requires forall t :: 0 <= t < |BaseCopies| ==> BaseCopies[t].0 in w
    ensures AllPresent(w, Sources(0))
    ensures Store(map[], Entries(w, 0)) == Store(map[], Copies(w, BaseCopies, |BaseCopies|))
  {
    FirstMissingNone(w, Sources(0));
  }

  lemma LayerFails(w: Weights, i: nat, n: nat)
    requires i < n && AllPresent(w, Sources(i)) && FirstMissing(w, LayerSources(i)).Some?
    ensures Converted(w, n) == Failure(FirstMissing(w, LayerSources(i)).value)
  {
    FirstMissingSkip(w, Sources(i), LayerSources(i));
    SourcesPrefix(i + 1, n);
    FirstMissingOfPrefix(w, Sources(i + 1), Sources(n));
  }

  lemma EntriesStep(w: Weights, i: nat)
    requires AllPresent(w, Sources(i)) && AllPresent(w, LayerSources(i)) && LayerPresent(w, i)
    ensures AllPresent(w, Sources(i + 1))
    ensures Store(map[], Entries(w, i + 1)) == Store(Store(map[], Entries(w, i)), LayerEntries(w, i))
  {
    AllPresentConcat(w, Sources(i), LayerSources(i));
    StoreAppend(map[], Entries(w, i), LayerEntries(w, i));
  }

  lemma ConvertedAll(w: Weights, n: nat)
    requires AllPresent(w, Sources(n))
    ensures Converted(w, n) == Success(Store(map[], Entries(w, n)))
  {
    FirstMissingNone(w, Sources(n));
  }

  /** One pass of the layer loop of `convert()`: the fused weight and bias cut
      into query, key and value, then the six copies, all written into
      `newWeights`. */
  method ConvertLayer(torchWeights: Weights, i: nat, newWeights: Weights) returns (r: Result<Weights, string>)
    ensures FirstMissing(torchWeights, LayerSources(i)).Some? ==>
              r == Failure(FirstMissing(torchWeights, LayerSources(i)).value)
    ensures FirstMissing(torchWeights, LayerSources(i)).None? ==>
              && AllPresent(torchWeights, LayerSources(i)) && LayerPresent(torchWeights, i)
              && r == Success(Store(newWeights, LayerEntries(torchWeights, i)))
  {
    ghost var fused := [FusedName(i, 0), FusedName(i, 3)];
    assert LayerSources(i) == fused + Firsts(LayerPairs(i));
    // q, k, v
    var key := FusedName(i, 0);
    if key !in torchWeights {
      FirstMissingAt(torchWeights, LayerSources(i), 0);
      return Failure(key);
    }
    var ws := ChunkThree(torchWeights[key]);
    var out := WriteZip(newWeights, i, 0, ws);
    key := FusedName(i, 3);
    if key !in torchWeights {
      FirstMissingAt(torchWeights, LayerSources(i), 1);
      return Failure(key);
    }
    var bs := ChunkThree(torchWeights[key]);
    out := WriteZip(out, i, 3, bs);
    // the six copies
    assert AllPresent(torchWeights, fused);
    FirstMissingSkip(torchWeights, fused, Firsts(LayerPairs(i)));
    AllPresentConcat(torchWeights, fused, Firsts(LayerPairs(i)));
    r := CopyAll(torchWeights, out, LayerPairs(i));
    if r.Success? {
      FirstMissingNone(torchWeights, LayerSources(i));
      LayerPresentIff(torchWeights, i);
      StoreAppend(newWeights, Zip(i, 0, ws), Zip(i, 3, bs));
      StoreAppend(newWeights, Zip(i, 0, ws) + Zip(i, 3, bs), Copies(torchWeights, LayerPairs(i), |CopySources|));
    }
  }

  /** The copying statements of `convert()`, one per pair in order: the
      tensor under the source name is written under the destination name. */
  method CopyAll(torchWeights: Weights, newWeights: Weights, pairs: seq<(string, string)>)
    returns (r: Result<Weights, string>)
    ensures FirstMissing(torchWeights, Firsts(pairs)).Some? ==>
              r == Failure(FirstMissing(torchWeights, Firsts(pairs)).value)
    ensures FirstMissing(torchWeights, Firsts(pairs)).None? ==>
              && (forall t :: 0 <= t < |pairs| ==> pairs[t].0 in torchWeights)
              && r == Success(Store(newWeights, Copies(torchWeights, pairs, |pairs|)))
  {
    var out := newWeights;
    ghost var srcs := Firsts(pairs);
    for t := 0 to |pairs|
      invariant forall u :: 0 <= u < t ==> pairs[u].0 in torchWeights
      invariant out == Store(newWeights, Copies(torchWeights, pairs, t))
    {
      var key := pairs[t].0;
      if key !in torchWeights {
        assert srcs[t] == key;
        FirstMissingAt(torchWeights, srcs, t);
        return Failure(key);
      }
      var w := torchWeights[key];
      assert Copies(torchWeights, pairs, t + 1) == Copies(torchWeights, pairs, t) + [(pairs[t].1, w)];
      out := out[pairs[t].1 := w];
    }
    FirstMissingNone(torchWeights, srcs);
    r := Success(out);
  }

  /** `for k, v in zip(qkv, pieces)`: each piece written under its name. */
  method WriteZip(newWeights: Weights, i: nat, offset: nat, pieces: seq<Tensor>) returns (out: Weights)
    requires offset == 0 || offset == 3
    ensures out == Store(newWeights, Zip(i, offset, pieces))
  {
    out := newWeights;
    var n := if |pieces| < |QkvNames| then |pieces| else |QkvNames|;
    for k := 0 to n
      invariant out == Store(newWeights, Zip(i, offset, pieces)[..k])
    {
      ZipAt(i, offset, pieces, k);
      StoreStep(newWeights, Zip(i, offset, pieces), k);
      out := out[DstName(i, Suffixes[offset + k]) := pieces[k]];
    }
    assert Zip(i, offset, pieces)[..n] == Zip(i, offset, pieces);
  }

  lemma ZipAt(i: nat, offset: nat, pieces: seq<Tensor>, k: nat)
    requires (offset == 0 || offset == 3) && k < |pieces| && k < |QkvNames|
    ensures k < |Zip(i, offset, pieces)| && Zip(i, offset, pieces)[k] == (DstName(i, Suffixes[offset + k]), pieces[k])
  {
  }

  /** Storing one more entry is one more dictionary update. */
  lemma StoreStep(out: Weights, z: seq<Entry>, k: nat)
    requires k < |z|
    ensures Store(out, z[..k + 1]) == Store(out, z[..k])[z[k].0 := z[k].1]
  {
    assert z[..k + 1][..k] == z[..k];
  }

  // ---------------------------------------------------------------------------
  // The lookups

  lemma {:induction false} FirstMissingNone(w: Weights, names: seq<string>)
    ensures FirstMissing(w, names) == None <==> AllPresent(w, names)
  {
    if names != [] {
      FirstMissingNone(w, names[1..]);
    }
  }

  /** The first missing name is missing and every name before it is present. */
  lemma {:induction false} FirstMissingIsFirst(w: Weights, names: seq<string>)
    requires FirstMissing(w, names).Some?
    ensures exists j :: && 0 <= j < |names| && names[j] == FirstMissing(w, names).value
                        && names[j] !in w && AllPresent(w, names[..j])
  {
    if names[0] in w {
      FirstMissingIsFirst(w, names[1..]);
      var j :| && 0 <= j < |names[1..]| && names[1..][j] == FirstMissing(w, names).value
               && names[1..][j] !in w && AllPresent(w, names[1..][..j]);
      assert names[..j + 1] == [names[0]] + names[1..][..j];
    } else {
      assert names[..0] == [];
    }
  }

  lemma {:induction false} FirstMissingAt(w: Weights, names: seq<string>, j: nat)
    requires j < |names| && names[j] !in w
    requires forall u :: 0 <= u < j ==> names[u] in w
    ensures FirstMissing(w, names) == Some(names[j])
  {
    if j > 0 {
      FirstMissingAt(w, names[1..], j - 1);
    }
  }

  lemma {:induction false} FirstMissingOfPrefix(w: Weights, p: seq<string>, names: seq<string>)
    requires p <= names && FirstMissing(w, p).Some?
    ensures FirstMissing(w, names) == FirstMissing(w, p)
  {
    if p[0] in w {
      FirstMissingOfPrefix(w, p[1..], names[1..]);
    }
  }

  lemma {:induction false} SourcesPrefix(i: nat, n: nat)
    requires i <= n
    ensures Sources(i) <= Sources(n)
  {
    if i < n {
      SourcesPrefix(i, n - 1);
    }
  }

  /** Names that are all found do not change which name is missing first. */
  lemma {:induction false} FirstMissingSkip(w: Weights, a: seq<string>, b: seq<string>)
    requires AllPresent(w, a)
    ensures FirstMissing(w, a + b) == FirstMissing(w, b)
  {
    if a != [] {
      assert (a + b)[1..] == a[1..] + b;
      FirstMissingSkip(w, a[1..], b);
    } else {
      assert a + b == b;
    }
  }

  // ---------------------------------------------------------------------------
  // Writing entries

  function Names(entries: seq<Entry>): seq<string> {
    seq(|entries|, j requires 0 <= j < |entries| => entries[j].0)
  }

  predicate Distinct(names: seq<string>) {
    forall a, b :: 0 <= a < b < |names| ==> names[a] != names[b]
  }

  lemma {:induction false} StoreAppend(out: Weights, a: seq<Entry>, b: seq<Entry>)
    ensures Store(out, a + b) == Store(Store(out, a), b)
    decreases |b|
  {
    if b == [] {
      assert a + b == a;
    } else {
      var c := a + b;
      assert c[..|c| - 1] == a + b[..|b| - 1];
      StoreAppend(out, a, b[..|b| - 1]);
    }
  }

  /** Every key written is a name of the entries, and every other key keeps
      what `out` had. */
  lemma {:induction false} StoreKeys(out: Weights, entries: seq<Entry>)
    ensures Store(out, entries).Keys == out.Keys + set e | e in entries :: e.0
  {
    if entries != [] {
      var init := entries[..|entries| - 1];
      StoreKeys(out, init);
      assert entries == init + [entries[|entries| - 1]];
    }
  }

  /** With distinct names, each entry's tensor is what ends up under its
      name: nothing is overwritten. */
  lemma {:induction false} StoreHas(out: Weights, entries: seq<Entry>, j: nat)
    requires Distinct(Names(entries)) && j < |entries|
    ensures entries[j].0 in Store(out, entries) && Store(out, entries)[entries[j].0] == entries[j].1
  {
    var last := |entries| - 1;
    if j < last {
      var init := entries[..last];
      assert Names(init) == Names(entries)[..last];
      assert Names(entries)[j] != Names(entries)[last];
      StoreHas(out, init, j);
    }
  }

  /** With distinct names, none already in `out`, each entry adds one key. */
  lemma {:induction false} StoreSize(out: Weights, entries: seq<Entry>)
    requires Distinct(Names(entries))
    requires forall j :: 0 <= j < |entries| ==> entries[j].0 !in out
    ensures |Store(out, entries)| == |out| + |entries|
  {
    if entries != [] {
      var last := |entries| - 1;
      var init := entries[..last];
      assert Names(init) == Names(entries)[..last];
      StoreSize(out, init);
      StoreKeys(out, init);
      forall e | e in init ensures e.0 != entries[last].0 {
        var j :| 0 <= j < last && init[j] == e;
        assert Names(entries)[j] != Names(entries)[last];
      }
      assert entries[last].0 !in Store(out, init);
    }
  }

  lemma StoreHasEntry(out: Weights, entries: seq<Entry>, e: Entry)
    requires Distinct(Names(entries)) && e in entries
    ensures e.0 in Store(out, entries) && Store(out, entries)[e.0] == e.1
  {
    var j :| 0 <= j < |entries| && entries[j] == e;
    StoreHas(out, entries, j);
  }

  // ---------------------------------------------------------------------------
  // The names written

  /** The slot the `j`-th entry of a layer fills when the fused weight gave
      `a` chunks and the fused bias `b`. */
  function SlotOf(a: nat, b: nat, j: nat): nat {
    if j < a then j else if j < a + b then 3 + (j - a) else 6 + (j - a - b)
  }

  /** Entry `j` of `es` is named by the slot `SlotOf(a, b, j)` of layer `i`. */
  predicate NamedSlots(es: seq<Entry>, i: nat, a: nat, b: nat) {
    && |es| == a + b + 6
    && forall j :: 0 <= j < |es| ==> SlotOf(a, b, j) < 12 && es[j].0 == DstName(i, Suffixes[SlotOf(a, b, j)])
  }

  lemma LayerNames(w: Weights, i: nat) returns (a: nat, b: nat)
    requires LayerPresent(w, i)
    ensures a == |ChunkThree(w[FusedName(i, 0)])| && b == |ChunkThree(w[FusedName(i, 3)])|
    ensures a <= 3 && b <= 3 && NamedSlots(LayerEntries(w, i), i, a, b)
  {
    var ws, bs := ChunkThree(w[FusedName(i, 0)]), ChunkThree(w[FusedName(i, 3)]);
    ChunkCount(w[FusedName(i, 0)]);
    ChunkCount(w[FusedName(i, 3)]);
    a, b := |ws|, |bs|;
    ZipNames(i, 0, ws);
    ZipNames(i, 3, bs);
    CopyNames(w, i);
    ThreeNamed(Zip(i, 0, ws), Zip(i, 3, bs), Copies(w, LayerPairs(i), |CopySources|), i);
  }

  lemma ThreeNamed(x: seq<Entry>, y: seq<Entry>, z: seq<Entry>, i: nat)
    requires |x| <= 3 && |y| <= 3 && |z| == 6
    requires forall k :: 0 <= k < |x| ==> x[k].0 == DstName(i, Suffixes[k])
    requires forall k :: 0 <= k < |y| ==> y[k].0 == DstName(i, Suffixes[3 + k])
    requires forall k :: 0 <= k < |z| ==> z[k].0 == DstName(i, Suffixes[6 + k])
    ensures NamedSlots(x + y + z, i, |x|, |y|)
  {
    forall j | 0 <= j < |x| + |y| + |z|
      ensures SlotOf(|x|, |y|, j) < 12 && (x + y + z)[j].0 == DstName(i, Suffixes[SlotOf(|x|, |y|, j)])
    {
      EntryOfThree(x, y, z, j);
    }
  }

  lemma ZipNames(i: nat, offset: nat, pieces: seq<Tensor>)
    requires offset == 0 || offset == 3
    ensures |Zip(i, offset, pieces)| == if |pieces| < 3 then |pieces| else 3
    ensures forall k :: 0 <= k < |Zip(i, offset, pieces)| ==> Zip(i, offset, pieces)[k].0 == DstName(i, Suffixes[offset + k])
  {
  }

  lemma CopyNames(w: Weights, i: nat)
    requires LayerPresent(w, i)
    ensures |Copies(w, LayerPairs(i), |CopySources|)| == 6
    ensures forall t :: 0 <= t < 6 ==> Copies(w, LayerPairs(i), |CopySources|)[t].0 == DstName(i, Suffixes[6 + t])
  {
  }

  lemma EntryOfThree(x: seq<Entry>, y: seq<Entry>, z: seq<Entry>, j: nat)
    requires j < |x| + |y| + |z|
    ensures (x + y + z)[j] == if j < |x| then x[j] else if j < |x| + |y| then y[j - |x|] else z[j - |x| - |y|]
  {
  }

  /** The names a layer writes are distinct and all carry the layer's index. */
  lemma LayerDistinct(w: Weights, i: nat)
    requires LayerPresent(w, i)
    ensures Distinct(Names(LayerEntries(w, i)))
    ensures forall j :: 0 <= j < |LayerEntries(w, i)| ==>
              LayerPrefix <= LayerEntries(w, i)[j].0 && ReadIndex(LayerPrefix, LayerEntries(w, i)[j].0) == Some(i)
  {
    var a, b := LayerNames(w, i);
    var e := LayerEntries(w, i);
    forall j1, j2 | 0 <= j1 < j2 < |e| ensures Names(e)[j1] != Names(e)[j2] {
      DstNameSlot(i, SlotOf(a, b, j1), i, SlotOf(a, b, j2));
    }
    forall j | 0 <= j < |e|
      ensures LayerPrefix <= e[j].0 && ReadIndex(LayerPrefix, e[j].0) == Some(i)
    {
      DstNameIndexed(i, SlotOf(a, b, j));
    }
  }

  /** A layer name determines its layer and its slot. */
  lemma DstNameSlot(i: nat, s: nat, i': nat, s': nat)
    requires s < |Suffixes| && s' < |Suffixes|
    ensures DstName(i, Suffixes[s]) == DstName(i', Suffixes[s']) <==> i == i' && s == s'
  {
    var x, y := Suffixes[s], Suffixes[s'];
    assert x != [] && !IsDigit(x[0]) && y != [] && !IsDigit(y[0]) by {
      SuffixesDistinct();
    }
    assert x == y <==> s == s' by {
      SuffixesDistinct();
    }
    IndexedNameInjective(LayerPrefix, i, x, i', y);
  }

  /** A layer name starts with the layer prefix and carries its index. */
  lemma DstNameIndexed(i: nat, s: nat)
    requires s < |Suffixes|
    ensures LayerPrefix <= DstName(i, Suffixes[s]) && ReadIndex(LayerPrefix, DstName(i, Suffixes[s])) == Some(i)
  {
    var x := Suffixes[s];
    assert x != [] && !IsDigit(x[0]) by {
      SuffixesDistinct();
    }
    IndexedNameRead(LayerPrefix, i, x);
  }

  lemma IndexedNameRead(p: string, i: nat, x: string)
    requires x != [] && !IsDigit(x[0])
    ensures p <= IndexedName(p, i, x) && ReadIndex(p, IndexedName(p, i, x)) == Some(i)
  {
    ReadIndexOf(p, i, x);
    assert IndexedName(p, i, x) == p + (Decimal(i) + x);
    PrefixOfConcat(p, Decimal(i) + x);
  }

  /** Every name of `names` starts with `qwen.` and carries no layer index or
      one below `n`. */
  predicate IndexedBelow(names: seq<string>, n: nat) {
    forall j :: 0 <= j < |names| ==>
      && "qwen." <= names[j]
      && var r := ReadIndex(LayerPrefix, names[j]); r.None? || r.value < n
  }

  lemma BaseNames(w: Weights)
    requires AllPresent(w, Sources(0))
    ensures Distinct(Names(Entries(w, 0))) && IndexedBelow(Names(Entries(w, 0)), 0)
  {
    assert Names(Entries(w, 0)) == ["qwen.embeddings.word_embeddings.weight", "qwen.lm_head.weight", "qwen.LayerNormFinal.weight"];
    assert !(LayerPrefix <= "qwen.embeddings.word_embeddings.weight") by {
      assert "qwen.embeddings.word_embeddings.weight"[6] != LayerPrefix[6];
    }
    assert !(LayerPrefix <= "qwen.lm_head.weight") by {
      assert "qwen.lm_head.weight"[5] != LayerPrefix[5];
    }
    assert !(LayerPrefix <= "qwen.LayerNormFinal.weight") by {
      assert "qwen.LayerNormFinal.weight"[5] != LayerPrefix[5];
    }
  }

  /** Appending the names of layer `n` to names indexed below `n` keeps them
      distinct and indexed below `n + 1`. */
  lemma AppendLayerEntries(a: seq<Entry>, b: seq<Entry>, n: nat)
    requires Distinct(Names(a)) && IndexedBelow(Names(a), n) && Distinct(Names(b))
    requires forall j :: 0 <= j < |b| ==> LayerPrefix <= b[j].0 && ReadIndex(LayerPrefix, b[j].0) == Some(n)
    ensures Distinct(Names(a + b)) && IndexedBelow(Names(a + b), n + 1)
  {
    var na, nb := Names(a), Names(b);
    assert Names(a + b) == na + nb;
    assert forall j :: 0 <= j < |b| ==> nb[j] == b[j].0;
    AppendLayer(na, nb, n);
  }

  lemma AppendLayer(na: seq<string>, nb: seq<string>, n: nat)
    requires Distinct(na) && IndexedBelow(na, n) && Distinct(nb)
    requires forall j :: 0 <= j < |nb| ==> LayerPrefix <= nb[j] && ReadIndex(LayerPrefix, nb[j]) == Some(n)
    ensures Distinct(na + nb) && IndexedBelow(na + nb, n + 1)
  {
    var c := na + nb;
    assert "qwen." <= LayerPrefix;
    forall j1, j2 | 0 <= j1 < j2 < |c| ensures c[j1] != c[j2] {
      if j2 < |na| {
        assert c[j1] == na[j1] && c[j2] == na[j2];
      } else if j1 >= |na| {
        assert c[j1] == nb[j1 - |na|] && c[j2] == nb[j2 - |na|];
      } else {
        assert c[j1] == na[j1] && c[j2] == nb[j2 - |na|];
      }
    }
    forall j | 0 <= j < |c| ensures "qwen." <= c[j] && var r := ReadIndex(LayerPrefix, c[j]); r.None? || r.value < n + 1 {
      if j < |na| {
        assert c[j] == na[j];
      } else {
        assert c[j] == nb[j - |na|];
        PrefixTransitive("qwen.", LayerPrefix, nb[j - |na|]);
      }
    }
  }

  /** No name is written twice, so no tensor is overwritten. */
  lemma {:induction false} EntriesDistinct(w: Weights, n: nat)
    requires AllPresent(w, Sources(n))
    ensures Distinct(Names(Entries(w, n))) && IndexedBelow(Names(Entries(w, n)), n)
  {
    if n == 0 {
      BaseNames(w);
    } else {
      SourcesPresent(w, n);
      var a, b := Entries(w, n - 1), LayerEntries(w, n - 1);
      assert Entries(w, n) == a + b;
      EntriesDistinct(w, n - 1);
      LayerDistinct(w, n - 1);
      AppendLayerEntries(a, b, n - 1);
    }
  }

  lemma PrefixTransitive(a: string, b: string, c: string)
    requires a <= b && b <= c
    ensures a <= c
  {
    assert c[..|a|] == b[..|a|];
  }

  // ---------------------------------------------------------------------------
  // What a conversion guarantees

  /** The conversion fails exactly when the checkpoint lacks a name it reads,
      and the `KeyError` names the first such name in reading order. */
  lemma ConvertedFails(w: Weights, n: nat)
    ensures Converted(w, n).Failure? <==> exists j :: 0 <= j < |Sources(n)| && Sources(n)[j] !in w
    ensures Converted(w, n).Failure? ==>
              exists j :: && 0 <= j < |Sources(n)| && Sources(n)[j] == Converted(w, n).error
                          && Sources(n)[j] !in w && AllPresent(w, Sources(n)[..j])
  {
    FirstMissingNone(w, Sources(n));
    if Converted(w, n).Failure? {
      FirstMissingIsFirst(w, Sources(n));
    }
  }

  /** Every name a layer reads is read by a conversion of more layers, so
      its absence fails the conversion. */
  lemma LayerSourceRead(w: Weights, n: nat, i: nat, t: nat)
    requires i < n && t < |LayerSources(i)|
    requires LayerSources(i)[t] !in w
    ensures Converted(w, n).Failure?
  {
    var a, b := Sources(i), LayerSources(i);
    assert (a + b)[|a| + t] == b[t];
    SourcesPrefix(i + 1, n);
    assert Sources(n)[|a| + t] == b[t];
    ConvertedFails(w, n);
  }

  /** A successful conversion writes each entry under its own name and
      nothing else: one key per entry, every key starting with `qwen.`. */
  lemma ConvertedContents(w: Weights, n: nat)
    requires Converted(w, n).Success?
    ensures AllPresent(w, Sources(n))
    ensures var out, e := Converted(w, n).value, Entries(w, n);
      && |out| == |e|
      && (forall j :: 0 <= j < |e| ==> e[j].0 in out && out[e[j].0] == e[j].1)
      && (forall k :: k in out ==> "qwen." <= k && exists j :: 0 <= j < |e| && e[j].0 == k)
  {
    FirstMissingNone(w, Sources(n));
    var e := Entries(w, n);
    EntriesDistinct(w, n);
    StoreSize(map[], e);
    StoreHasAll(e);
    StoreOnlyEntries(e, n);
  }

  lemma StoreHasAll(e: seq<Entry>)
    requires Distinct(Names(e))
    ensures forall j :: 0 <= j < |e| ==> e[j].0 in Store(map[], e) && Store(map[], e)[e[j].0] == e[j].1
  {
    forall j | 0 <= j < |e| ensures e[j].0 in Store(map[], e) && Store(map[], e)[e[j].0] == e[j].1 {
      StoreHas(map[], e, j);
    }
  }

  lemma StoreOnlyEntries(e: seq<Entry>, n: nat)
    requires IndexedBelow(Names(e), n)
    ensures forall k :: k in Store(map[], e) ==> "qwen." <= k && exists j :: 0 <= j < |e| && e[j].0 == k
  {
    StoreKeys(map[], e);
    forall k | k in Store(map[], e) ensures "qwen." <= k && exists j :: 0 <= j < |e| && e[j].0 == k {
      KeyOfEntry(e, n, k);
    }
  }

  lemma KeyOfEntry(e: seq<Entry>, n: nat, k: string)
    requires IndexedBelow(Names(e), n) && k in set x | x in e :: x.0
    ensures "qwen." <= k && exists j :: 0 <= j < |e| && e[j].0 == k
  {
    var x :| x in e && x.0 == k;
    var j :| 0 <= j < |e| && e[j] == x;
    assert Names(e)[j] == k;
  }

  lemma {:induction false} EntriesGrow(w: Weights, i: nat, n: nat)
    requires i <= n && AllPresent(w, Sources(n))
    ensures AllPresent(w, Sources(i)) && Entries(w, i) <= Entries(w, n)
  {
    if i < n {
      SourcesPresent(w, n);
      EntriesGrow(w, i, n - 1);
    }
  }

  /** An entry of layer `i` ends up in the converted weights. */
  lemma ConvertedHasLayerEntry(w: Weights, n: nat, i: nat, e: Entry)
    requires Converted(w, n).Success? && i < n
    ensures LayerPresent(w, i)
    ensures e in LayerEntries(w, i) ==> e.0 in Converted(w, n).value && Converted(w, n).value[e.0] == e.1
  {
    FirstMissingNone(w, Sources(n));
    SourcesGrow(w, i, n);
    ConvertedAll(w, n);
    if e in LayerEntries(w, i) {
      var j :| 0 <= j < |LayerEntries(w, i)| && LayerEntries(w, i)[j] == e;
      LayerEntryStored(w, n, i, j);
    }
  }

  lemma LayerEntryStored(w: Weights, n: nat, i: nat, j: nat)
    requires i < n && AllPresent(w, Sources(n)) && AllPresent(w, Sources(i)) && LayerPresent(w, i)
    requires j < |LayerEntries(w, i)|
    ensures var e := LayerEntries(w, i)[j];
      e.0 in Store(map[], Entries(w, n)) && Store(map[], Entries(w, n))[e.0] == e.1
  {
    var es, pre, lay := Entries(w, n), Entries(w, i), LayerEntries(w, i);
    EntriesGrow(w, i + 1, n);
    SourcesPresent(w, i + 1);
    assert Entries(w, i + 1) == pre + lay;
    InPrefix(pre, lay, es, j);
    EntriesDistinct(w, n);
    StoredEntry(es, |pre| + j, lay[j]);
  }

  lemma StoredEntry(es: seq<Entry>, k: nat, e: Entry)
    requires Distinct(Names(es)) && k < |es| && es[k] == e
    ensures e.0 in Store(map[], es) && Store(map[], es)[e.0] == e.1
  {
    StoreHas(map[], es, k);
  }

  lemma InPrefix(p: seq<Entry>, q: seq<Entry>, s: seq<Entry>, j: nat)
    requires p + q <= s && j < |q|
    ensures |p| + j < |s| && s[|p| + j] == q[j]
  {
    assert (p + q)[|p| + j] == q[j];
  }

  /** A checkpoint holding what `n` layers read holds what each earlier layer reads. */
  lemma {:induction false} SourcesGrow(w: Weights, i: nat, n: nat)
    requires i < n && AllPresent(w, Sources(n))
    ensures AllPresent(w, Sources(i)) && LayerPresent(w, i)
  {
    SourcesPresent(w, n);
    if i < n - 1 {
      SourcesGrow(w, i, n - 1);
    }
  }

  /** The embeddings, the output projection and the final layer norm are
      copied unchanged. */
  lemma ConvertedBase(w: Weights, n: nat, t: nat)
    requires Converted(w, n).Success? && t < |BaseCopies|
    ensures BaseCopies[t].0 in w
    ensures BaseCopies[t].1 in Converted(w, n).value && Converted(w, n).value[BaseCopies[t].1] == w[BaseCopies[t].0]
  {
    FirstMissingNone(w, Sources(n));
    EntriesGrow(w, 0, n);
    assert Sources(0)[t] == BaseCopies[t].0;
    assert Entries(w, n)[t] == Entries(w, 0)[t] == (BaseCopies[t].1, w[BaseCopies[t].0]);
    EntriesDistinct(w, n);
    StoreHas(map[], Entries(w, n), t);
  }

  /** The six copies of every layer hold the checkpoint's tensors unchanged. */
  lemma ConvertedCopy(w: Weights, n: nat, i: nat, t: nat)
    requires Converted(w, n).Success? && i < n && t < |CopySources|
    ensures SrcName(i, CopySources[t]) in w
    ensures var out := Converted(w, n).value;
      DstName(i, Suffixes[6 + t]) in out && out[DstName(i, Suffixes[6 + t])] == w[SrcName(i, CopySources[t])]
  {
    ConvertedHasLayerEntry(w, n, i, ("", []));
    assert LayerPairs(i)[t].0 == SrcName(i, CopySources[t]);
    var z := Copies(w, LayerPairs(i), |CopySources|);
    assert z[t] == (DstName(i, Suffixes[6 + t]), w[SrcName(i, CopySources[t])]);
    assert z[t] in LayerEntries(w, i);
    ConvertedHasLayerEntry(w, n, i, z[t]);
  }

  /** The feed-forward weights swap places: bert4torch's first dense layer
      is Qwen's `w2` and its second is `w1`. */
  lemma ConvertedFeedForward(w: Weights, n: nat, i: nat)
    requires Converted(w, n).Success? && i < n
    ensures SrcName(i, ".mlp.w2.weight") in w && SrcName(i, ".mlp.w1.weight") in w
    ensures var out := Converted(w, n).value;
      && DstName(i, ".intermediate.dense.weight") in out && DstName(i, ".intermediate2.dense.weight") in out
      && out[DstName(i, ".intermediate.dense.weight")] == w[SrcName(i, ".mlp.w2.weight")]
      && out[DstName(i, ".intermediate2.dense.weight")] == w[SrcName(i, ".mlp.w1.weight")]
  {
    ConvertedCopy(w, n, i, 2);
    ConvertedCopy(w, n, i, 3);
  }

  /** The fused weight (`offset` 0) or bias (`offset` 3) of a layer is cut by
      `torch.chunk` into the query, key and value slots, as many as there are
      chunks; with three chunks, the three concatenate back to the fused
      tensor. */
  lemma ConvertedChunks(w: Weights, n: nat, i: nat, offset: nat)
    requires Converted(w, n).Success? && i < n && (offset == 0 || offset == 3)
    ensures FusedName(i, offset) in w
    ensures var out, chunks := Converted(w, n).value, ChunkThree(w[FusedName(i, offset)]);
      && |chunks| <= 3
      && forall s :: offset <= s < offset + |chunks| ==>
           DstName(i, Suffixes[s]) in out && out[DstName(i, Suffixes[s])] == chunks[s - offset]
  {
    ConvertedHasLayerEntry(w, n, i, ("", []));
    var cs := ChunkThree(w[FusedName(i, offset)]);
    ChunkCount(w[FusedName(i, offset)]);
    var out := Converted(w, n).value;
    forall s | offset <= s < offset + |cs|
      ensures DstName(i, Suffixes[s]) in out && out[DstName(i, Suffixes[s])] == cs[s - offset]
    {
      LayerChunkEntry(w, i, offset, s - offset);
      ConvertedHasLayerEntry(w, n, i, (DstName(i, Suffixes[s]), cs[s - offset]));
    }
  }

  /** Chunk `k` of a fused tensor is an entry of its layer. */
  lemma LayerChunkEntry(w: Weights, i: nat, offset: nat, k: nat)
    requires LayerPresent(w, i) && (offset == 0 || offset == 3)
    requires k < |ChunkThree(w[FusedName(i, offset)])| && k < 3
    ensures (DstName(i, Suffixes[offset + k]), ChunkThree(w[FusedName(i, offset)])[k]) in LayerEntries(w, i)
  {
    var cs := ChunkThree(w[FusedName(i, offset)]);
    ZipAt(i, offset, cs, k);
    var x, y, z := Zip(i, 0, ChunkThree(w[FusedName(i, 0)])), Zip(i, 3, ChunkThree(w[FusedName(i, 3)])), Copies(w, LayerPairs(i), |CopySources|);
    assert LayerEntries(w, i) == x + y + z;
    if offset == 0 {
      InFirstOrSecond(x, y, z, k, true);
    } else {
      InFirstOrSecond(x, y, z, k, false);
    }
  }

  lemma InFirstOrSecond(x: seq<Entry>, y: seq<Entry>, z: seq<Entry>, k: nat, first: bool)
    requires if first then k < |x| else k < |y|
    ensures (if first then x[k] else y[k]) in x + y + z
  {
    if first {
      assert (x + y + z)[k] == x[k];
    } else {
      assert (x + y + z)[|x| + k] == y[k];
    }
  }

  /** When the fused tensor has three chunks (any number of rows but 1, 2
      and 4), query, key and value concatenate back to it. */
  lemma ConvertedQkvRejoin(w: Weights, n: nat, i: nat, offset: nat)
    requires Converted(w, n).Success? && i < n && (offset == 0 || offset == 3)
    ensures FusedName(i, offset) in w
    ensures var out, fused := Converted(w, n).value, w[FusedName(i, offset)];
      |fused| != 1 && |fused| != 2 && |fused| != 4 ==>
        && DstName(i, Suffixes[offset]) in out && DstName(i, Suffixes[offset + 1]) in out
        && DstName(i, Suffixes[offset + 2]) in out
        && out[DstName(i, Suffixes[offset])] + out[DstName(i, Suffixes[offset + 1])] + out[DstName(i, Suffixes[offset + 2])] == fused
  {
    ConvertedChunks(w, n, i, offset);
    var fused := w[FusedName(i, offset)];
    var cs := ChunkThree(fused);
    ChunkCount(fused);
    if |cs| == 3 {
      CatOfChunks(fused);
      CatOfThree(cs[0], cs[1], cs[2]);
      assert cs == [cs[0], cs[1], cs[2]];
    }
  }

  /** When the fused tensor has 1, 2 or 4 rows, `torch.chunk` gives fewer
      than three chunks, `zip` stops early, and the value slot is never
      written. */
  lemma ValueSlotUnwritten(w: Weights, n: nat, i: nat, offset: nat)
    requires Converted(w, n).Success? && i < n && (offset == 0 || offset == 3)
    ensures FusedName(i, offset) in w
    ensures var fused := w[FusedName(i, offset)];
      |fused| == 1 || |fused| == 2 || |fused| == 4 ==> DstName(i, Suffixes[offset + 2]) !in Converted(w, n).value
  {
    ConvertedHasLayerEntry(w, n, i, ("", []));
    ChunkCount(w[FusedName(i, offset)]);
    if |ChunkThree(w[FusedName(i, offset)])| < 3 {
      ConvertedContents(w, n);
      NameAbsent(w, n, i, offset);
      var e := Entries(w, n);
      assert forall j :: 0 <= j < |e| ==> e[j].0 != DstName(i, Suffixes[offset + 2]);
    }
  }

  predicate Lacks(entries: seq<Entry>, name: string) {
    forall j :: 0 <= j < |entries| ==> entries[j].0 != name
  }

  lemma LacksConcat(a: seq<Entry>, b: seq<Entry>, name: string)
    requires Lacks(a, name) && Lacks(b, name)
    ensures Lacks(a + b, name)
  {
    forall j | 0 <= j < |a + b| ensures (a + b)[j].0 != name {
      if j < |a| {
        assert (a + b)[j] == a[j];
      } else {
        assert (a + b)[j] == b[j - |a|];
      }
    }
  }

  /** A layer whose fused tensor gave fewer than three chunks does not write
      the value slot. */
  lemma LayerLacksValue(w: Weights, i: nat, offset: nat)
    requires LayerPresent(w, i) && (offset == 0 || offset == 3)
    requires |ChunkThree(w[FusedName(i, offset)])| < 3
    ensures Lacks(LayerEntries(w, i), DstName(i, Suffixes[offset + 2]))
  {
    var e := LayerEntries(w, i);
    var a, b := LayerNames(w, i);
    forall k | 0 <= k < |e| ensures e[k].0 != DstName(i, Suffixes[offset + 2]) {
      assert SlotOf(a, b, k) != offset + 2;
      DstNameSlot(i, SlotOf(a, b, k), i, offset + 2);
    }
  }

  lemma {:induction false} NameAbsent(w: Weights, n: nat, i: nat, offset: nat)
    requires AllPresent(w, Sources(n)) && i < n && (offset == 0 || offset == 3)
    requires LayerPresent(w, i)
    requires |ChunkThree(w[FusedName(i, offset)])| < 3
    ensures Lacks(Entries(w, n), DstName(i, Suffixes[offset + 2]))
  {
    var name := DstName(i, Suffixes[offset + 2]);
    SourcesPresent(w, n);
    var a, b := Entries(w, n - 1), LayerEntries(w, n - 1);
    assert Entries(w, n) == a + b;
    DstNameIndexed(i, offset + 2);
    if n - 1 == i {
      EntriesDistinct(w, i);
      LacksBelow(a, name, i);
      LayerLacksValue(w, i, offset);
    } else {
      NameAbsent(w, n - 1, i, offset);
      LayerDistinct(w, n - 1);
      LacksOther(b, name, i, n - 1);
    }
    LacksConcat(a, b, name);
  }

  /** Names indexed below layer `i` lack every name of layer `i`. */
  lemma LacksBelow(a: seq<Entry>, name: string, i: nat)
    requires IndexedBelow(Names(a), i) && LayerPrefix <= name && ReadIndex(LayerPrefix, name) == Some(i)
    ensures Lacks(a, name)
  {
    assert forall j :: 0 <= j < |a| ==> Names(a)[j] == a[j].0;
  }

  /** Names of layer `m` lack every name of another layer `i`. */
  lemma LacksOther(b: seq<Entry>, name: string, i: nat, m: nat)
    requires i != m && ReadIndex(LayerPrefix, name) == Some(i)
    requires forall j :: 0 <= j < |b| ==> ReadIndex(LayerPrefix, b[j].0) == Some(m)
    ensures Lacks(b, name)
  {
  }

  /** `torch.chunk` gives three chunks: any number of rows but 1, 2 and 4. */
  predicate ChunksFully(t: Tensor) {
    |t| != 1 && |t| != 2 && |t| != 4
  }

  /** Every fused weight and bias of the first `n` layers chunks fully. */
  predicate FullChunks(w: Weights, n: nat) {
    forall i :: 0 <= i < n ==>
      && (FusedName(i, 0) in w ==> ChunksFully(w[FusedName(i, 0)]))
      && (FusedName(i, 3) in w ==> ChunksFully(w[FusedName(i, 3)]))
  }

  lemma {:induction false} EntriesCount(w: Weights, n: nat)
    requires AllPresent(w, Sources(n))
    ensures 3 + 6 * n <= |Entries(w, n)| <= 3 + 12 * n
    ensures FullChunks(w, n) ==> |Entries(w, n)| == 3 + 12 * n
  {
    if n > 0 {
      SourcesPresent(w, n);
      EntriesCount(w, n - 1);
      var a, b := LayerNames(w, n - 1);
      ChunkCount(w[FusedName(n - 1, 0)]);
      ChunkCount(w[FusedName(n - 1, 3)]);
    }
  }

  /** A conversion writes three tensors plus six to twelve per layer:
      exactly `3 + 12 * n` when every fused tensor chunks fully, so 387 for
      the 32 layers the script is written for. */
  lemma ConvertedSize(w: Weights, n: nat)
    requires Converted(w, n).Success?
    ensures 3 + 6 * n <= |Converted(w, n).value| <= 3 + 12 * n
    ensures FullChunks(w, n) ==> |Converted(w, n).value| == 3 + 12 * n
    ensures n == NumHiddenLayers && FullChunks(w, n) ==> |Converted(w, n).value| == 387
  {
    ConvertedContents(w, n);
    EntriesCount(w, n);
  }
}
