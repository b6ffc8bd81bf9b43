/** The LLaMA weight-name conventions (`LLaMA` in bert4torch/models/llama.py):
    which Hugging Face checkpoint name each bert4torch weight is loaded from,
    and the conversion between the fused `W_pack` query/key/value weight of
    Baichuan checkpoints and bert4torch's three separate weights. A state
    dict is a map from weight names to tensors (`Tensors.Tensor`). */
module LLaMA {
  import opened Results
  import opened Text
  import opened Tensors

  type StateDict = map<string, Tensor>

  // ---------------------------------------------------------------------------
  // Weight names

  /** `decoderLayer.{i}{suffix}`: a bert4torch weight of layer `i`. */
  function LayerName(i: nat, suffix: string): string {
    IndexedName("decoderLayer.", i, suffix)
  }

  /** `model.layers.{i}{suffix}`: a checkpoint weight of layer `i`. */
  function CkptName(i: nat, suffix: string): string {
    IndexedName("model.layers.", i, suffix)
  }

  /** The projections fused in `W_pack`, in their order. */
  const Qkv: string := "qkv"

  /** `model.layers.{i}.self_attn.W_pack.weight`. */
  function WPackKey(i: nat): string {
    CkptName(i, ".self_attn.W_pack.weight")
  }

  /** `decoderLayer.{i}.multiHeadAttention.{p}.weight`. */
  function AttnKey(i: nat, p: char): string {
    LayerName(i, ".multiHeadAttention." + [p] + ".weight")
  }

  /** `model.layers.{i}.self_attn.{p}_proj.weight`, the unfused checkpoint name. */
  function ProjKey(i: nat, p: char): string {
    CkptName(i, ".self_attn." + [p] + "_proj.weight")
  }

  lemma AttnKeyInjective(i: nat, p: char, j: nat, q: char)
    ensures AttnKey(i, p) == AttnKey(j, q) <==> i == j && p == q
  {
    var s, t := ".multiHeadAttention." + [p] + ".weight", ".multiHeadAttention." + [q] + ".weight";
    IndexedNameInjective("decoderLayer.", i, s, j, t);
    assert s[20] == p && t[20] == q;
  }

  lemma WPackKeyInjective(i: nat, j: nat)
    ensures WPackKey(i) == WPackKey(j) <==> i == j
  {
    IndexedNameInjective("model.layers.", i, ".self_attn.W_pack.weight", j, ".self_attn.W_pack.weight");
  }

  // ---------------------------------------------------------------------------
  // variable_mapping

  /** The names outside the layers. */
  const BaseMapping: map<string, string> := map[
    "embeddings.word_embeddings.weight" := "model.embed_tokens.weight",
    "lm_head.weight" := "lm_head.weight",
    "LayerNormFinal.weight" := "model.norm.weight"]

  /** The six names of layer `i`. */
  function LayerMapping(i: nat): map<string, string> {
    map[
      LayerName(i, ".multiHeadAttention.o.weight") := CkptName(i, ".self_attn.o_proj.weight"),
      LayerName(i, ".attnLayerNorm.weight") := CkptName(i, ".input_layernorm.weight"),
      LayerName(i, ".feedForward.intermediateDense.weight") := CkptName(i, ".mlp.gate_proj.weight"),
      LayerName(i, ".feedForward.intermediateDense2.weight") := CkptName(i, ".mlp.up_proj.weight"),
      LayerName(i, ".feedForward.outputDense.weight") := CkptName(i, ".mlp.down_proj.weight"),
      LayerName(i, ".ffnLayerNorm.weight") := CkptName(i, ".post_attention_layernorm.weight")]
  }

  /** What `LLaMA.variable_mapping` returns for `n` layers. */
  function Mapping(n: nat): map<string, string> {
    Merged(BaseMapping, LayerMaps(n))
  }

  /** The names of layers `0` up to `n - 1`, in order. */
  function LayerMaps(n: nat): (layers: seq<map<string, string>>)
    ensures |layers| == n
  {
    if n == 0 then [] else LayerMaps(n - 1) + [LayerMapping(n - 1)]
  }

  /** `base` updated with each of `layers` in turn. */
  function Merged(base: map<string, string>, layers: seq<map<string, string>>): map<string, string> {
    if layers == [] then base else Merged(base, layers[..|layers| - 1]) + layers[|layers| - 1]
  }

  lemma {:induction false} LayerMapsAt(n: nat, j: nat)
    requires j < n
    ensures LayerMaps(n)[j] == LayerMapping(j)
  {
    if j < n - 1 {
      LayerMapsAt(n - 1, j);
    }
  }

  /** One more layer updates the mapping with that layer's names. */
  lemma MappingStep(n: nat)
    ensures Mapping(n + 1) == Mapping(n) + LayerMapping(n)
  {
    assert LayerMaps(n + 1)[..n] == LayerMaps(n);
  }

  /** `LLaMA.variable_mapping`: the base names, updated with the names of each
      layer in turn. */
  method VariableMapping(numLayers: nat) returns (mapping: map<string, string>)
    ensures mapping == Mapping(numLayers)
    ensures |mapping| == 3 + 6 * numLayers
    ensures Injective(mapping)
  {
    mapping := BaseMapping;
    for i := 0 to numLayers
      invariant mapping == Mapping(i)
    {
      MappingStep(i);
      mapping := mapping + LayerMapping(i);
    }
    MappingCountInjective(numLayers);
  }

  /** Every bert4torch name of layer `i` reads back as index `i`; every
      checkpoint name of layer `i` too. */
  lemma LayerMappingIndexed(i: nat)
    ensures IndexedAt(LayerMapping(i), i)
  {
    var k0, k1, k2 := LayerName(i, ".multiHeadAttention.o.weight"), LayerName(i, ".attnLayerNorm.weight"), LayerName(i, ".feedForward.intermediateDense.weight");
    var k3, k4, k5 := LayerName(i, ".feedForward.intermediateDense2.weight"), LayerName(i, ".feedForward.outputDense.weight"), LayerName(i, ".ffnLayerNorm.weight");
    var v0, v1, v2 := CkptName(i, ".self_attn.o_proj.weight"), CkptName(i, ".input_layernorm.weight"), CkptName(i, ".mlp.gate_proj.weight");
    var v3, v4, v5 := CkptName(i, ".mlp.up_proj.weight"), CkptName(i, ".mlp.down_proj.weight"), CkptName(i, ".post_attention_layernorm.weight");
    ReadIndexOf("decoderLayer.", i, ".multiHeadAttention.o.weight");
    ReadIndexOf("decoderLayer.", i, ".attnLayerNorm.weight");
    ReadIndexOf("decoderLayer.", i, ".feedForward.intermediateDense.weight");
    ReadIndexOf("decoderLayer.", i, ".feedForward.intermediateDense2.weight");
    ReadIndexOf("decoderLayer.", i, ".feedForward.outputDense.weight");
    ReadIndexOf("decoderLayer.", i, ".ffnLayerNorm.weight");
    ReadIndexOf("model.layers.", i, ".self_attn.o_proj.weight");
    ReadIndexOf("model.layers.", i, ".input_layernorm.weight");
    ReadIndexOf("model.layers.", i, ".mlp.gate_proj.weight");
    ReadIndexOf("model.layers.", i, ".mlp.up_proj.weight");
    ReadIndexOf("model.layers.", i, ".mlp.down_proj.weight");
    ReadIndexOf("model.layers.", i, ".post_attention_layernorm.weight");
    SixIndexedAt(i, k0, k1, k2, k3, k4, k5, v0, v1, v2, v3, v4, v5);
  }

  /** A map display of six entries whose names and targets all carry index
      `i` is indexed at `i`. */
  lemma SixIndexedAt(i: nat, k0: string, k1: string, k2: string, k3: string, k4: string, k5: string,
                     v0: string, v1: string, v2: string, v3: string, v4: string, v5: string)
    requires var r := Some(i);
      && ReadIndex("decoderLayer.", k0) == r && ReadIndex("decoderLayer.", k1) == r
      && ReadIndex("decoderLayer.", k2) == r && ReadIndex("decoderLayer.", k3) == r
      && ReadIndex("decoderLayer.", k4) == r && ReadIndex("decoderLayer.", k5) == r
    requires var r := Some(i);
      && ReadIndex("model.layers.", v0) == r && ReadIndex("model.layers.", v1) == r
      && ReadIndex("model.layers.", v2) == r && ReadIndex("model.layers.", v3) == r
      && ReadIndex("model.layers.", v4) == r && ReadIndex("model.layers.", v5) == r
    ensures IndexedAt(map[k0 := v0, k1 := v1, k2 := v2, k3 := v3, k4 := v4, k5 := v5], i)
  {
  }

  /** A map display of six entries with distinct names and distinct targets
      has six entries and is injective. */
  lemma SixEntries(k0: string, k1: string, k2: string, k3: string, k4: string, k5: string,
                   v0: string, v1: string, v2: string, v3: string, v4: string, v5: string)
    requires k0 != k1 && k0 != k2 && k0 != k3 && k0 != k4 && k0 != k5
    requires k1 != k2 && k1 != k3 && k1 != k4 && k1 != k5
    requires k2 != k3 && k2 != k4 && k2 != k5 && k3 != k4 && k3 != k5 && k4 != k5
    requires v0 != v1 && v0 != v2 && v0 != v3 && v0 != v4 && v0 != v5
    requires v1 != v2 && v1 != v3 && v1 != v4 && v1 != v5
    requires v2 != v3 && v2 != v4 && v2 != v5 && v3 != v4 && v3 != v5 && v4 != v5
    ensures var m := map[k0 := v0, k1 := v1, k2 := v2, k3 := v3, k4 := v4, k5 := v5];
      && |m| == 6
      && forall a, b :: a in m && b in m && m[a] == m[b] ==> a == b
  {
    var m3 := map[k0 := v0, k1 := v1, k2 := v2];
    assert |m3| == 3;
    var m := m3[k3 := v3][k4 := v4][k5 := v5];
    assert |m| == 6;
    SixInjective(k0, k1, k2, k3, k4, k5, v0, v1, v2, v3, v4, v5);
  }

  lemma SixInjective(k0: string, k1: string, k2: string, k3: string, k4: string, k5: string,
                     v0: string, v1: string, v2: string, v3: string, v4: string, v5: string)
    requires v0 != v1 && v0 != v2 && v0 != v3 && v0 != v4 && v0 != v5
    requires v1 != v2 && v1 != v3 && v1 != v4 && v1 != v5
    requires v2 != v3 && v2 != v4 && v2 != v5 && v3 != v4 && v3 != v5 && v4 != v5
    ensures var m := map[k0 := v0, k1 := v1, k2 := v2, k3 := v3, k4 := v4, k5 := v5];
      forall a, b :: a in m && b in m && m[a] == m[b] ==> a == b
  {
  }

  /** The six names of a layer are distinct, and so are their six targets. */
  lemma LayerMappingSize(i: nat)
    ensures |LayerMapping(i)| == 6
    ensures Injective(LayerMapping(i))
  {
    var d := |Decimal(i)|;
    var k0, k1, k2 := LayerName(i, ".multiHeadAttention.o.weight"), LayerName(i, ".attnLayerNorm.weight"), LayerName(i, ".feedForward.intermediateDense.weight");
    var k3, k4, k5 := LayerName(i, ".feedForward.intermediateDense2.weight"), LayerName(i, ".feedForward.outputDense.weight"), LayerName(i, ".ffnLayerNorm.weight");
    var v0, v1, v2 := CkptName(i, ".self_attn.o_proj.weight"), CkptName(i, ".input_layernorm.weight"), CkptName(i, ".mlp.gate_proj.weight");
    var v3, v4, v5 := CkptName(i, ".mlp.up_proj.weight"), CkptName(i, ".mlp.down_proj.weight"), CkptName(i, ".post_attention_layernorm.weight");
    assert |k0| == 13 + d + 28 && |k1| == 13 + d + 21 && |k2| == 13 + d + 37;
    assert |k3| == 13 + d + 38 && |k4| == 13 + d + 31 && |k5| == 13 + d + 20;
    assert |v0| == 13 + d + 24 && |v1| == 13 + d + 23 && |v2| == 13 + d + 21;
    assert |v3| == 13 + d + 19 && |v4| == 13 + d + 21 && |v5| == 13 + d + 32;
    assert v2 != v4 by {
      IndexedNameInjective("model.layers.", i, ".mlp.gate_proj.weight", i, ".mlp.down_proj.weight");
      assert ".mlp.gate_proj.weight"[5] != ".mlp.down_proj.weight"[5];
    }
    SixEntries(k0, k1, k2, k3, k4, k5, v0, v1, v2, v3, v4, v5);
  }

  /** No base name and no base target carries a layer index, and the three
      base entries have distinct targets. */
  lemma BaseMappingUnindexed()
    ensures |BaseMapping| == 3
    ensures Injective(BaseMapping)
    ensures IndexedBelow(BaseMapping, 0)
  {
    BaseMappingDistinct();
    BaseMappingBelow();
  }

  lemma BaseMappingDistinct()
    ensures |BaseMapping| == 3 && Injective(BaseMapping)
  {
    assert BaseMapping.Keys == {"embeddings.word_embeddings.weight", "lm_head.weight", "LayerNormFinal.weight"};
  }

  lemma BaseMappingBelow()
    ensures IndexedBelow(BaseMapping, 0)
  {
    assert !("decoderLayer." <= "embeddings.word_embeddings.weight") by {
      assert "embeddings.word_embeddings.weight"[0] != "decoderLayer."[0];
    }
    assert !("decoderLayer." <= "lm_head.weight") by {
      assert "lm_head.weight"[0] != "decoderLayer."[0];
    }
    assert !("decoderLayer." <= "LayerNormFinal.weight") by {
      assert "LayerNormFinal.weight"[0] != "decoderLayer."[0];
    }
    assert !("model.layers." <= "model.embed_tokens.weight") by {
      assert "model.embed_tokens.weight"[6] != "model.layers."[6];
    }
    assert !("model.layers." <= "lm_head.weight") by {
      assert "lm_head.weight"[0] != "model.layers."[0];
    }
    assert !("model.layers." <= "model.norm.weight") by {
      assert "model.norm.weight"[6] != "model.layers."[6];
    }
  }

  /** No two names of `m` have the same target. */
  predicate Injective(m: map<string, string>) {
    forall x, y :: x in m && y in m && m[x] == m[y] ==> x == y
  }

  /** Every name of `m` and every target either carries no layer index or an
      index below `n`. */
  predicate IndexedBelow(m: map<string, string>, n: nat) {
    && (forall k :: k in m ==> var r := ReadIndex("decoderLayer.", k); r.None? || r.value < n)
    && (forall k :: k in m ==> var r := ReadIndex("model.layers.", m[k]); r.None? || r.value < n)
  }

  /** Every name of `m` and every target carries the index `n`. */
  predicate IndexedAt(m: map<string, string>, n: nat) {
    && (forall k :: k in m ==> ReadIndex("decoderLayer.", k) == Some(n))
    && (forall k :: k in m ==> ReadIndex("model.layers.", m[k]) == Some(n))
  }

  /** The names of layer `n - 1` are none of the names indexed below `n - 1`. */
  lemma MergeDisjoint(a: map<string, string>, b: map<string, string>, n: nat)
    requires n > 0 && IndexedBelow(a, n - 1) && IndexedAt(b, n - 1)
    ensures a.Keys !! b.Keys
  {
  }

  /** Merging the names of layer `n - 1` into an injective map indexed below
      `n - 1` keeps it injective: their targets differ too. */
  lemma MergeInjective(a: map<string, string>, b: map<string, string>, n: nat)
    requires n > 0 && IndexedBelow(a, n - 1) && IndexedAt(b, n - 1)
    requires Injective(a) && Injective(b)
    ensures Injective(a + b)
  {
    MergeDisjoint(a, b, n);
  }

  /** ... and every index is then below `n`. */
  lemma MergeBelow(a: map<string, string>, b: map<string, string>, n: nat)
    requires n > 0 && IndexedBelow(a, n - 1) && IndexedAt(b, n - 1)
    ensures IndexedBelow(a + b, n)
  {
  }

  /** An update with new names only adds their number of entries. */
  lemma CardOfDisjoint(a: map<string, string>, b: map<string, string>)
    requires a.Keys !! b.Keys
    ensures |a + b| == |a| + |b|
  {
    assert (a + b).Keys == a.Keys + b.Keys;
  }

  /** `variable_mapping` has 3 + 6 entries per layer and is injective: no
      update overwrites a name set before, and no two bert4torch names are
      loaded from the same checkpoint name. */
  lemma MappingCountInjective(n: nat)
    ensures |Mapping(n)| == 3 + 6 * n
    ensures Injective(Mapping(n))
    ensures IndexedBelow(Mapping(n), n)
  {
    var layers := LayerMaps(n);
    forall j | 0 <= j < n
      ensures |layers[j]| == 6 && Injective(layers[j]) && IndexedAt(layers[j], j)
    {
      LayerMapsAt(n, j);
      LayerMappingIndexed(j);
      LayerMappingSize(j);
    }
    BaseMappingUnindexed();
    MergedCount(BaseMapping, layers);
    MergedInjective(BaseMapping, layers);
    MergedBelow(BaseMapping, layers);
  }

  /** Layers whose names carry their own position keep every index below
      the number of layers merged. */
  lemma {:induction false} MergedBelow(base: map<string, string>, layers: seq<map<string, string>>)
    requires IndexedBelow(base, 0)
    requires forall j :: 0 <= j < |layers| ==> IndexedAt(layers[j], j)
    ensures IndexedBelow(Merged(base, layers), |layers|)
  {
    if layers != [] {
      var n := |layers|;
      MergedBelow(base, layers[..n - 1]);
      MergeBelow(Merged(base, layers[..n - 1]), layers[n - 1], n);
    }
  }

  /** Layers of six names each, indexed by their position, add six entries
      per layer. */
  lemma {:induction false} MergedCount(base: map<string, string>, layers: seq<map<string, string>>)
    requires IndexedBelow(base, 0)
    requires forall j :: 0 <= j < |layers| ==> |layers[j]| == 6 && IndexedAt(layers[j], j)
    ensures |Merged(base, layers)| == |base| + 6 * |layers|
  {
    if layers != [] {
      var n := |layers|;
      var a, b := Merged(base, layers[..n - 1]), layers[n - 1];
      MergedCount(base, layers[..n - 1]);
      MergedBelow(base, layers[..n - 1]);
      MergeDisjoint(a, b, n);
      CardOfDisjoint(a, b);
    }
  }

  /** Injective layers, indexed by their position, keep an injective base
      injective. */
  lemma {:induction false} MergedInjective(base: map<string, string>, layers: seq<map<string, string>>)
    requires Injective(base) && IndexedBelow(base, 0)
    requires forall j :: 0 <= j < |layers| ==> Injective(layers[j]) && IndexedAt(layers[j], j)
    ensures Injective(Merged(base, layers))
  {
    if layers != [] {
      var n := |layers|;
      MergedInjective(base, layers[..n - 1]);
      MergedBelow(base, layers[..n - 1]);
      MergeInjective(Merged(base, layers[..n - 1]), layers[n - 1], n);
    }
  }

  // ---------------------------------------------------------------------------
  // The keys the W_pack conversion touches

  /** `k` is one of the q, k, v attention weights of layer `i`. */
  predicate IsAttnKey(k: string, i: nat) {
    k == AttnKey(i, 'q') || k == AttnKey(i, 'k') || k == AttnKey(i, 'v')
  }

  /** `k` is one of the keys of layer `i` the conversion reads or writes: the
      fused weight or one of the three attention weights. */
  predicate InLayer(k: string, i: nat) {
    k == WPackKey(i) || IsAttnKey(k, i)
  }

  /** Which of q, k, v an attention key of layer `i` names, as an index into `Qkv`. */
  function PartIndex(k: string, i: nat): (j: nat)
    ensures j < 3
    ensures IsAttnKey(k, i) ==> k == AttnKey(i, Qkv[j])
  {
    if k == AttnKey(i, 'q') then 0 else if k == AttnKey(i, 'k') then 1 else 2
  }

  lemma PartIndexOf(i: nat, j: nat)
    requires j < 3
    ensures IsAttnKey(AttnKey(i, Qkv[j]), i)
    ensures PartIndex(AttnKey(i, Qkv[j]), i) == j
    ensures AttnKey(i, Qkv[j]) != WPackKey(i)
  {
    AttnKeyInjective(i, Qkv[j], i, 'q');
    AttnKeyInjective(i, Qkv[j], i, 'k');
  }

  /** The layer index a converted key carries: after `model.layers.` for the
      fused weight, after `decoderLayer.` for the attention weights. */
  function LayerIndex(k: string): Option<nat> {
    if k != [] && k[0] == 'm' then ReadIndex("model.layers.", k) else ReadIndex("decoderLayer.", k)
  }

  lemma LayerIndexOf(k: string, i: nat)
    requires InLayer(k, i)
    ensures LayerIndex(k) == Some(i)
    ensures k != WPackKey(i) <==> IsAttnKey(k, i)
  {
    ReadIndexOf("model.layers.", i, ".self_attn.W_pack.weight");
    ReadIndexOf("decoderLayer.", i, ".multiHeadAttention." + ['q'] + ".weight");
    ReadIndexOf("decoderLayer.", i, ".multiHeadAttention." + ['k'] + ".weight");
    ReadIndexOf("decoderLayer.", i, ".multiHeadAttention." + ['v'] + ".weight");
    assert WPackKey(i)[0] == 'm';
    assert AttnKey(i, 'q')[0] == 'd' && AttnKey(i, 'k')[0] == 'd' && AttnKey(i, 'v')[0] == 'd';
  }

  /** The layer below `n` whose converted keys include `k`, if any. */
  function LayerOf(k: string, n: nat): (r: Option<nat>)
    ensures r.Some? ==> r.value < n && InLayer(k, r.value)
  {
    var r := LayerIndex(k);
    if r.Some? && r.value < n && InLayer(k, r.value) then r else None
  }

  lemma LayerOfExact(k: string, i: nat, n: nat)
    requires InLayer(k, i)
    ensures LayerOf(k, n) == if i < n then Some(i) else None
  {
    LayerIndexOf(k, i);
  }

  /** A key outside layer `n - 1` has the same layer among the first `n`
      layers as among the first `n - 1`. */
  lemma LayerOfOutside(k: string, n: nat)
    requires n > 0 && !InLayer(k, n - 1)
    ensures LayerOf(k, n) == LayerOf(k, n - 1)
  {
  }

  /** The unfused checkpoint names belong to no layer's converted keys. */
  lemma ProjKeyOutside(i: nat, j: nat, n: nat)
    requires j < 3
    ensures LayerOf(ProjKey(i, Qkv[j]), n) == None
  {
    ProjKeyIndex(i, j);
    ProjKeyNotInLayer(i, j);
  }

  lemma ProjKeyIndex(i: nat, j: nat)
    requires j < 3
    ensures LayerIndex(ProjKey(i, Qkv[j])) == Some(i)
  {
    var s := ".self_attn." + [Qkv[j]] + "_proj.weight";
    ReadIndexOf("model.layers.", i, s);
    assert ProjKey(i, Qkv[j])[0] == 'm';
  }

  lemma ProjKeyNotInLayer(i: nat, j: nat)
    requires j < 3
    ensures !InLayer(ProjKey(i, Qkv[j]), i)
  {
    var k := ProjKey(i, Qkv[j]);
    var s := ".self_attn." + [Qkv[j]] + "_proj.weight";
    assert k[0] == 'm';
    assert AttnKey(i, 'q')[0] == 'd' && AttnKey(i, 'k')[0] == 'd' && AttnKey(i, 'v')[0] == 'd';
    IndexedNameInjective("model.layers.", i, s, i, ".self_attn.W_pack.weight");
    assert s[11] != ".self_attn.W_pack.weight"[11];
  }

  /** `Some(m[k])` when `k` is present, else `None` (`dict.get`). */
  function Get<V>(m: map<string, V>, k: string): Option<V> {
    if k in m then Some(m[k]) else None
  }

  lemma GetExtensional<V>(a: map<string, V>, b: map<string, V>)
    requires forall k :: Get(a, k) == Get(b, k)
    ensures a == b
  {
    assert a.Keys == b.Keys by {
      forall k ensures k in a <==> k in b {
        assert Get(a, k) == Get(b, k);
      }
    }
    forall k | k in a ensures a[k] == b[k] {
      assert Get(a, k) == Get(b, k);
    }
  }

  // ---------------------------------------------------------------------------
  // load_trans_ckpt

  /** The first `j` of the three pieces written under the q, k, v keys of
      layer `i` (the `zip` of the source). */
  function WriteParts(sd: StateDict, i: nat, parts: seq<Tensor>, j: nat): StateDict
    requires j <= 3 == |parts|
  {
    if j == 0 then sd else WriteParts(sd, i, parts, j - 1)[AttnKey(i, Qkv[j - 1]) := parts[j - 1]]
  }

  /** The W_pack step of layer `i`: without a fused weight nothing happens;
      otherwise it must have `3 * hidden` rows (else the split raises, reported
      as the failing key), its pieces are written and the fused key is
      removed. */
  function SplitLayer(sd: StateDict, i: nat, hidden: nat): Result<StateDict, string> {
    var key := WPackKey(i);
    if key !in sd then Success(sd)
    else
      var parts := SplitThree(sd[key], hidden);
      if parts.None? then Failure(key)
      else Success(WriteParts(sd, i, parts.value, 3) - {key})
  }

  /** The belle step of layer `i` for the first `j` of q, k, v: each unfused
      checkpoint weight present is recorded as the source of the attention
      weight. */
  function BelleEntries(sd: StateDict, i: nat, vmap: map<string, string>, j: nat): map<string, string>
    requires j <= 3
  {
    if j == 0 then vmap
    else
      var v := BelleEntries(sd, i, vmap, j - 1);
      var p := Qkv[j - 1];
      if ProjKey(i, p) in sd then v[AttnKey(i, p) := ProjKey(i, p)] else v
  }

  /** The state dict and the belle map after the first `n` layers, or the
      fused key whose split failed. */
  function LoadLayers(sd: StateDict, n: nat, hidden: nat): Result<(StateDict, map<string, string>), string> {
    if n == 0 then Success((sd, map[]))
    else
      var prev :- LoadLayers(sd, n - 1, hidden);
      var m :- SplitLayer(prev.0, n - 1, hidden);
      Success((m, BelleEntries(m, n - 1, prev.1, 3)))
  }

  /** `LLaMA.load_trans_ckpt` after `super().load_trans_ckpt`: `checkpoint` is
      the state dict that call returned; the result is the converted state
      dict and the belle map handed to `modify_variable_mapping`. */
  method LoadTransCkpt(checkpoint: StateDict, numLayers: nat, hiddenSize: nat)
    returns (r: Result<(StateDict, map<string, string>), string>)
    ensures r == LoadLayers(checkpoint, numLayers, hiddenSize)
  {
    var stateDict := checkpoint;
    var variableMap: map<string, string> := map[];
    for i := 0 to numLayers
      invariant LoadLayers(checkpoint, i, hiddenSize) == Success((stateDict, variableMap))
    {
      var oldKey := WPackKey(i);
      if oldKey in stateDict {
        var qkv := SplitThree(stateDict[oldKey], hiddenSize);
        if qkv.None? {
          LoadFailurePersists(checkpoint, i + 1, numLayers, hiddenSize);
          return Failure(oldKey);
        }
        ghost var packed := stateDict;
        for j := 0 to 3
          invariant stateDict == WriteParts(packed, i, qkv.value, j)
        {
          stateDict := stateDict[AttnKey(i, Qkv[j]) := qkv.value[j]];
        }
        stateDict := stateDict - {oldKey};
      }
      ghost var mapBefore := variableMap;
      for j := 0 to 3
        invariant variableMap == BelleEntries(stateDict, i, mapBefore, j)
      {
        if ProjKey(i, Qkv[j]) in stateDict {
          variableMap := variableMap[AttnKey(i, Qkv[j]) := ProjKey(i, Qkv[j])];
        }
      }
    }
    r := Success((stateDict, variableMap));
  }

  lemma {:induction false} LoadFailurePersists(sd: StateDict, i: nat, n: nat, hidden: nat)
    requires i <= n && LoadLayers(sd, i, hidden).Failure?
    ensures LoadLayers(sd, n, hidden) == LoadLayers(sd, i, hidden)
    decreases n - i
  {
    if i < n {
      LoadFailurePersists(sd, i, n - 1, hidden);
    }
  }

  /** Every fused weight of the first `n` layers that is present has
      `3 * hidden` rows. */
  predicate Fits(sd: StateDict, n: nat, hidden: nat) {
    forall i :: 0 <= i < n && WPackKey(i) in sd ==> |sd[WPackKey(i)]| == 3 * hidden
  }

  /** The loaded state dict, key by key: a layer's fused weight is gone and
      its attention weights are the consecutive `hidden`-row blocks of it in
      q, k, v order; a layer without a fused weight and every other key keep
      what the checkpoint has. */
  function LoadedAt(sd: StateDict, n: nat, hidden: nat, k: string): Option<Tensor>
    requires Fits(sd, n, hidden)
  {
    match LayerOf(k, n)
    case None => Get(sd, k)
    case Some(i) =>
      var packed := WPackKey(i);
      if packed !in sd then Get(sd, k)
      else if k == packed then None
      else
        var j := PartIndex(k, i);
        Some(sd[packed][j * hidden..(j + 1) * hidden])
  }

  /** The belle map, key by key: an attention weight of a layer below `n` is
      mapped to its unfused checkpoint name exactly when the checkpoint has
      that name. */
  function BelleAt(sd: StateDict, n: nat, k: string): Option<string> {
    match LayerOf(k, n)
    case None => None
    case Some(i) =>
      var source := ProjKey(i, Qkv[PartIndex(k, i)]);
      if IsAttnKey(k, i) && source in sd then Some(source) else None
  }

  lemma {:induction false} WritePartsAt(sd: StateDict, i: nat, parts: seq<Tensor>, j: nat, k: string)
    requires j <= 3 == |parts|
    ensures Get(WriteParts(sd, i, parts, j), k)
         == if IsAttnKey(k, i) && PartIndex(k, i) < j then Some(parts[PartIndex(k, i)]) else Get(sd, k)
  {
    if j > 0 {
      WritePartsAt(sd, i, parts, j - 1, k);
      PartIndexOf(i, j - 1);
    }
  }

  lemma {:induction false} BelleEntriesAt(sd: StateDict, i: nat, vmap: map<string, string>, j: nat, k: string)
    requires j <= 3
    ensures Get(BelleEntries(sd, i, vmap, j), k)
         == if IsAttnKey(k, i) && PartIndex(k, i) < j && ProjKey(i, Qkv[PartIndex(k, i)]) in sd
            then Some(ProjKey(i, Qkv[PartIndex(k, i)])) else Get(vmap, k)
  {
    if j > 0 {
      BelleEntriesAt(sd, i, vmap, j - 1, k);
      PartIndexOf(i, j - 1);
    }
  }

  /** The W_pack step of layer `i` changes no key outside that layer. */
  lemma SplitLayerFrame(sd: StateDict, i: nat, hidden: nat, k: string)
    requires SplitLayer(sd, i, hidden).Success? && !InLayer(k, i)
    ensures Get(SplitLayer(sd, i, hidden).value, k) == Get(sd, k)
  {
    if WPackKey(i) in sd {
      WritePartsAt(sd, i, SplitThree(sd[WPackKey(i)], hidden).value, 3, k);
    }
  }

  /** One layer of the load, key by key: given the state after the layers
      below `n - 1`, the step of layer `n - 1` gives the state after `n`
      layers. */
  lemma LoadKeyStep(sd: StateDict, n: nat, hidden: nat, prev: (StateDict, map<string, string>), k: string)
    requires n > 0 && Fits(sd, n, hidden)
    requires forall k :: Get(prev.0, k) == LoadedAt(sd, n - 1, hidden, k)
    requires forall k :: Get(prev.1, k) == BelleAt(sd, n - 1, k)
    requires SplitLayer(prev.0, n - 1, hidden).Success?
    ensures var m := SplitLayer(prev.0, n - 1, hidden).value;
      && Get(m, k) == LoadedAt(sd, n, hidden, k)
      && Get(BelleEntries(m, n - 1, prev.1, 3), k) == BelleAt(sd, n, k)
  {
    if InLayer(k, n - 1) {
      LoadKeyInLayer(sd, n, hidden, prev.0, k);
    } else {
      LoadKeyOutside(sd, n, hidden, prev.0, k);
    }
    BelleKeyStep(sd, n, hidden, prev, k);
  }

  /** The step of layer `n - 1` on a key outside that layer. */
  lemma LoadKeyOutside(sd: StateDict, n: nat, hidden: nat, prev: StateDict, k: string)
    requires n > 0 && Fits(sd, n, hidden) && !InLayer(k, n - 1)
    requires forall k :: Get(prev, k) == LoadedAt(sd, n - 1, hidden, k)
    requires SplitLayer(prev, n - 1, hidden).Success?
    ensures Get(SplitLayer(prev, n - 1, hidden).value, k) == LoadedAt(sd, n, hidden, k)
  {
    SplitLayerFrame(prev, n - 1, hidden, k);
    LayerOfOutside(k, n);
    assert Get(prev, k) == LoadedAt(sd, n - 1, hidden, k);
  }

  /** Before the step of layer `n - 1`, its keys are as in the checkpoint. */
  lemma PrevAtLayer(sd: StateDict, n: nat, hidden: nat, prev: StateDict, k: string)
    requires n > 0 && Fits(sd, n, hidden) && InLayer(k, n - 1)
    requires forall k :: Get(prev, k) == LoadedAt(sd, n - 1, hidden, k)
    ensures Get(prev, k) == Get(sd, k)
  {
    LayerOfExact(k, n - 1, n - 1);
    assert Get(prev, k) == LoadedAt(sd, n - 1, hidden, k);
  }

  /** The loaded value of a key of the last layer. */
  lemma LoadedInLayer(sd: StateDict, n: nat, hidden: nat, k: string)
    requires n > 0 && Fits(sd, n, hidden) && InLayer(k, n - 1)
    ensures var packed := WPackKey(n - 1);
      LoadedAt(sd, n, hidden, k)
      == if packed !in sd then Get(sd, k)
         else if k == packed then None
         else Some(sd[packed][PartIndex(k, n - 1) * hidden..(PartIndex(k, n - 1) + 1) * hidden])
  {
    LayerOfExact(k, n - 1, n);
  }

  /** The W_pack step of layer `i` on one of its own keys. */
  lemma SplitLayerAt(sd: StateDict, i: nat, hidden: nat, k: string)
    requires SplitLayer(sd, i, hidden).Success? && InLayer(k, i)
    ensures var packed := WPackKey(i);
      Get(SplitLayer(sd, i, hidden).value, k)
      == if packed !in sd then Get(sd, k)
         else if k == packed then None
         else Some(SplitThree(sd[packed], hidden).value[PartIndex(k, i)])
  {
    var packed := WPackKey(i);
    if packed in sd && k != packed {
      LayerIndexOf(k, i);
      WritePartsAt(sd, i, SplitThree(sd[packed], hidden).value, 3, k);
    }
  }

  /** The step of layer `n - 1` on one of its own keys. */
  lemma LoadKeyInLayer(sd: StateDict, n: nat, hidden: nat, prev: StateDict, k: string)
    requires n > 0 && Fits(sd, n, hidden) && InLayer(k, n - 1)
    requires forall k :: Get(prev, k) == LoadedAt(sd, n - 1, hidden, k)
    requires SplitLayer(prev, n - 1, hidden).Success?
    ensures Get(SplitLayer(prev, n - 1, hidden).value, k) == LoadedAt(sd, n, hidden, k)
  {
    var i := n - 1;
    var packed := WPackKey(i);
    PrevAtLayer(sd, n, hidden, prev, packed);
    PrevAtLayer(sd, n, hidden, prev, k);
    LoadedInLayer(sd, n, hidden, k);
    SplitLayerAt(prev, i, hidden, k);
    if packed in sd && k != packed {
      SplitThreePiece(sd[packed], hidden, PartIndex(k, i));
    }
  }

  /** The step of layer `n - 1` keeps the unfused checkpoint names of that
      layer as in the checkpoint. */
  lemma SourceKept(sd: StateDict, n: nat, hidden: nat, prev: StateDict, j: nat)
    requires n > 0 && Fits(sd, n, hidden) && j < 3
    requires forall k :: Get(prev, k) == LoadedAt(sd, n - 1, hidden, k)
    requires SplitLayer(prev, n - 1, hidden).Success?
    ensures var source := ProjKey(n - 1, Qkv[j]);
      Get(SplitLayer(prev, n - 1, hidden).value, source) == Get(sd, source)
  {
    var i := n - 1;
    var source := ProjKey(i, Qkv[j]);
    ProjKeyOutside(i, j, n - 1);
    ProjKeyOutside(i, j, n);
    LayerIndexOf(WPackKey(i), i);
    SplitLayerFrame(prev, i, hidden, source);
    assert Get(prev, source) == LoadedAt(sd, n - 1, hidden, source);
  }

  /** The belle step of layer `n - 1`, key by key. */
  lemma BelleKeyStep(sd: StateDict, n: nat, hidden: nat, prev: (StateDict, map<string, string>), k: string)
    requires n > 0 && Fits(sd, n, hidden)
    requires forall k :: Get(prev.0, k) == LoadedAt(sd, n - 1, hidden, k)
    requires forall k :: Get(prev.1, k) == BelleAt(sd, n - 1, k)
    requires SplitLayer(prev.0, n - 1, hidden).Success?
    ensures Get(BelleEntries(SplitLayer(prev.0, n - 1, hidden).value, n - 1, prev.1, 3), k) == BelleAt(sd, n, k)
  {
    var i := n - 1;
    var m := SplitLayer(prev.0, i, hidden).value;
    var j := PartIndex(k, i);
    SourceKept(sd, n, hidden, prev.0, j);
    BelleEntriesAt(m, i, prev.1, 3, k);
    assert Get(prev.1, k) == BelleAt(sd, n - 1, k);
    if InLayer(k, i) {
      LayerOfExact(k, i, n);
      LayerOfExact(k, i, n - 1);
    } else {
      LayerOfOutside(k, n);
    }
  }

  /** The load succeeds exactly when every fused weight present has
      `3 * hidden` rows, and then the state dict and the belle map are the
      ones `LoadedAt` and `BelleAt` describe key by key. */
  lemma {:induction false} LoadOutcome(sd: StateDict, n: nat, hidden: nat)
    ensures LoadLayers(sd, n, hidden).Success? <==> Fits(sd, n, hidden)
    ensures Fits(sd, n, hidden) ==>
      && (forall k :: Get(LoadLayers(sd, n, hidden).value.0, k) == LoadedAt(sd, n, hidden, k))
      && (forall k :: Get(LoadLayers(sd, n, hidden).value.1, k) == BelleAt(sd, n, k))
  {
    if n > 0 {
      LoadOutcome(sd, n - 1, hidden);
      if Fits(sd, n - 1, hidden) {
        var prev := LoadLayers(sd, n - 1, hidden).value;
        var packed := WPackKey(n - 1);
        assert Get(prev.0, packed) == Get(sd, packed) by {
          LayerOfExact(packed, n - 1, n - 1);
        }
        if Fits(sd, n, hidden) {
          forall k
            ensures Get(LoadLayers(sd, n, hidden).value.0, k) == LoadedAt(sd, n, hidden, k)
            ensures Get(LoadLayers(sd, n, hidden).value.1, k) == BelleAt(sd, n, k)
          {
            LoadKeyStep(sd, n, hidden, prev, k);
          }
        }
      }
    }
  }

  /** A failed load names a fused weight with the wrong number of rows, of
      the first such layer. */
  lemma {:induction false} LoadFailsAt(sd: StateDict, n: nat, hidden: nat)
    requires LoadLayers(sd, n, hidden).Failure?
    ensures exists i :: && 0 <= i < n && LoadLayers(sd, n, hidden).error == WPackKey(i)
                        && WPackKey(i) in sd && |sd[WPackKey(i)]| != 3 * hidden && Fits(sd, i, hidden)
  {
    LoadOutcome(sd, n - 1, hidden);
    if LoadLayers(sd, n - 1, hidden).Failure? {
      LoadFailsAt(sd, n - 1, hidden);
    } else {
      var packed := WPackKey(n - 1);
      assert Get(LoadLayers(sd, n - 1, hidden).value.0, packed) == Get(sd, packed) by {
        LayerOfExact(packed, n - 1, n - 1);
      }
    }
  }

  // ---------------------------------------------------------------------------
  // save_trans_ckpt

  /** The q, k, v weights of layer `i` present among the first `j`, in order. */
  function Gather(sd: StateDict, i: nat, j: nat): seq<Tensor>
    requires j <= 3
  {
    if j == 0 then []
    else
      var qkv := Gather(sd, i, j - 1);
      var key := AttnKey(i, Qkv[j - 1]);
      if key in sd then qkv + [sd[key]] else qkv
  }

  /** The state dict with the first `j` of the q, k, v keys of layer `i` popped. */
  function Drop(sd: StateDict, i: nat, j: nat): StateDict
    requires j <= 3
  {
    if j == 0 then sd else Drop(sd, i, j - 1) - {AttnKey(i, Qkv[j - 1])}
  }

  /** The save step of layer `i`: the q, k, v weights present are popped and,
      if there were any, their concatenation is stored under the fused key. */
  function Fuse(sd: StateDict, i: nat): StateDict {
    var qkv := Gather(sd, i, 3);
    if qkv == [] then Drop(sd, i, 3) else Drop(sd, i, 3)[WPackKey(i) := Cat(qkv)]
  }

  /** The state dict after the save step of the first `n` layers. */
  function SaveLayers(sd: StateDict, n: nat): StateDict {
    if n == 0 then sd else Fuse(SaveLayers(sd, n - 1), n - 1)
  }

  /** `LLaMA.save_trans_ckpt`, given `self.state_dict()` as `modelState`. */
  method SaveTransCkpt(modelState: StateDict, numLayers: nat) returns (stateDict: StateDict)
    ensures stateDict == SaveLayers(modelState, numLayers)
  {
    stateDict := modelState;
    for i := 0 to numLayers
      invariant stateDict == SaveLayers(modelState, i)
    {
      ghost var before := stateDict;
      var qkv: seq<Tensor> := [];
      for j := 0 to 3
        invariant qkv == Gather(before, i, j)
        invariant stateDict == Drop(before, i, j)
      {
        var key := AttnKey(i, Qkv[j]);
        DropAt(before, i, j, key);
        PartIndexOf(i, j);
        if key in stateDict {
          qkv := qkv + [stateDict[key]];
          stateDict := stateDict - {key};
        } else {
          assert stateDict - {key} == stateDict;
        }
      }
      if qkv != [] {
        stateDict := stateDict[WPackKey(i) := Cat(qkv)];
      }
    }
  }

  lemma {:induction false} DropAt(sd: StateDict, i: nat, j: nat, k: string)
    requires j <= 3
    ensures Get(Drop(sd, i, j), k) == if IsAttnKey(k, i) && PartIndex(k, i) < j then None else Get(sd, k)
  {
    if j > 0 {
      DropAt(sd, i, j - 1, k);
      PartIndexOf(i, j - 1);
    }
  }

  /** Two state dicts that agree on the q, k, v keys of layer `i` gather the
      same weights. */
  lemma {:induction false} GatherAgree(a: StateDict, b: StateDict, i: nat, j: nat)
    requires j <= 3
    requires forall t :: 0 <= t < j ==> Get(a, AttnKey(i, Qkv[t])) == Get(b, AttnKey(i, Qkv[t]))
    ensures Gather(a, i, j) == Gather(b, i, j)
  {
    if j > 0 {
      GatherAgree(a, b, i, j - 1);
      assert Get(a, AttnKey(i, Qkv[j - 1])) == Get(b, AttnKey(i, Qkv[j - 1]));
    }
  }

  /** Nothing is gathered exactly when none of q, k, v is present; when all
      three are, they are gathered in q, k, v order. */
  lemma {:induction false} GatherContents(sd: StateDict, i: nat, j: nat)
    requires j <= 3
    ensures Gather(sd, i, j) == [] <==> forall t :: 0 <= t < j ==> AttnKey(i, Qkv[t]) !in sd
    ensures (forall t :: 0 <= t < j ==> AttnKey(i, Qkv[t]) in sd)
        ==> Gather(sd, i, j) == seq(j, t requires 0 <= t < j => sd[AttnKey(i, Qkv[t])])
  {
    if j > 0 {
      GatherContents(sd, i, j - 1);
    }
  }

  /** The saved state dict, key by key: the q, k, v weights of every layer
      below `n` are gone; a layer's fused key holds their concatenation in
      q, k, v order when any was present and is untouched otherwise; every
      other key keeps its tensor. */
  function SavedAt(sd: StateDict, n: nat, k: string): Option<Tensor> {
    match LayerOf(k, n)
    case None => Get(sd, k)
    case Some(i) =>
      var qkv := Gather(sd, i, 3);
      if k != WPackKey(i) then None
      else if qkv == [] then Get(sd, k)
      else Some(Cat(qkv))
  }

  /** Before the save step of layer `n - 1`, its q, k, v weights are as in
      the model state. */
  lemma GatherUnsaved(sd: StateDict, n: nat, prev: StateDict)
    requires n > 0
    requires forall k :: Get(prev, k) == SavedAt(sd, n - 1, k)
    ensures Gather(prev, n - 1, 3) == Gather(sd, n - 1, 3)
  {
    var i := n - 1;
    forall t | 0 <= t < 3 ensures Get(prev, AttnKey(i, Qkv[t])) == Get(sd, AttnKey(i, Qkv[t])) {
      UnsavedPart(sd, n, prev, t);
    }
    GatherAgree(prev, sd, i, 3);
  }

  lemma UnsavedPart(sd: StateDict, n: nat, prev: StateDict, t: nat)
    requires n > 0 && t < 3
    requires forall k :: Get(prev, k) == SavedAt(sd, n - 1, k)
    ensures Get(prev, AttnKey(n - 1, Qkv[t])) == Get(sd, AttnKey(n - 1, Qkv[t]))
  {
    var key := AttnKey(n - 1, Qkv[t]);
    PartIndexOf(n - 1, t);
    LayerOfExact(key, n - 1, n - 1);
    assert Get(prev, key) == SavedAt(sd, n - 1, key);
  }

  /** One layer of the save, key by key. */
  lemma SaveKeyStep(sd: StateDict, n: nat, prev: StateDict, k: string)
    requires n > 0
    requires forall k :: Get(prev, k) == SavedAt(sd, n - 1, k)
    ensures Get(Fuse(prev, n - 1), k) == SavedAt(sd, n, k)
  {
    var i := n - 1;
    GatherUnsaved(sd, n, prev);
    DropAt(prev, i, 3, k);
    assert Get(prev, k) == SavedAt(sd, n - 1, k);
    if InLayer(k, i) {
      LayerOfExact(k, i, n);
      LayerOfExact(k, i, n - 1);
      LayerIndexOf(k, i);
    } else {
      LayerOfOutside(k, n);
    }
  }

  /** The save is the key-by-key description `SavedAt`. */
  lemma {:induction false} SaveOutcome(sd: StateDict, n: nat)
    ensures forall k :: Get(SaveLayers(sd, n), k) == SavedAt(sd, n, k)
  {
    if n > 0 {
      SaveOutcome(sd, n - 1);
      forall k ensures Get(SaveLayers(sd, n), k) == SavedAt(sd, n, k) {
        SaveKeyStep(sd, n, SaveLayers(sd, n - 1), k);
      }
    }
  }

  // ---------------------------------------------------------------------------
  // Round trip

  /** Layer `i` has its q, k, v weights, each of `hidden` rows. */
  predicate HasParts(sd: StateDict, i: nat, hidden: nat) {
    && AttnKey(i, 'q') in sd && |sd[AttnKey(i, 'q')]| == hidden
    && AttnKey(i, 'k') in sd && |sd[AttnKey(i, 'k')]| == hidden
    && AttnKey(i, 'v') in sd && |sd[AttnKey(i, 'v')]| == hidden
  }

  /** Every layer below `n` has its q, k, v weights, each of `hidden` rows,
      and no fused weight. */
  predicate Unfused(sd: StateDict, n: nat, hidden: nat) {
    forall i :: 0 <= i < n ==> WPackKey(i) !in sd && HasParts(sd, i, hidden)
  }

  /** After the save, the fused weight of a layer that had all three of
      q, k, v is their concatenation in that order. */
  lemma SavedFusedWeight(sd: StateDict, n: nat, hidden: nat, i: nat)
    requires Unfused(sd, n, hidden) && i < n
    ensures WPackKey(i) in SaveLayers(sd, n)
    ensures SaveLayers(sd, n)[WPackKey(i)] == sd[AttnKey(i, 'q')] + sd[AttnKey(i, 'k')] + sd[AttnKey(i, 'v')]
  {
    assert HasParts(sd, i, hidden);
    var q, k, v := sd[AttnKey(i, 'q')], sd[AttnKey(i, 'k')], sd[AttnKey(i, 'v')];
    SaveOutcome(sd, n);
    assert Get(SaveLayers(sd, n), WPackKey(i)) == SavedAt(sd, n, WPackKey(i));
    LayerOfExact(WPackKey(i), i, n);
    assert Gather(sd, i, 3) == [q, k, v] by {
      GatherContents(sd, i, 3);
    }
    CatOfThree(q, k, v);
  }

  /** Loading a saved key gives the key of the model state back. */
  lemma LoadSavedKey(sd: StateDict, n: nat, hidden: nat, saved: StateDict, k: string)
    requires Unfused(sd, n, hidden) && Fits(saved, n, hidden)
    requires forall i :: 0 <= i < n ==>
      WPackKey(i) in saved && saved[WPackKey(i)] == sd[AttnKey(i, 'q')] + sd[AttnKey(i, 'k')] + sd[AttnKey(i, 'v')]
    requires Get(saved, k) == SavedAt(sd, n, k)
    ensures LoadedAt(saved, n, hidden, k) == Get(sd, k)
  {
    match LayerOf(k, n)
    case None =>
    case Some(i) =>
      LayerIndexOf(k, i);
      assert HasParts(sd, i, hidden);
      ThirdsOfConcat(sd[AttnKey(i, 'q')], sd[AttnKey(i, 'k')], sd[AttnKey(i, 'v')], hidden);
  }

  /** Saving and loading back gives the original state dict: fusing q, k, v
      and splitting the fused weight into `hidden`-row blocks are inverse. */
  lemma SaveThenLoad(sd: StateDict, n: nat, hidden: nat)
    requires Unfused(sd, n, hidden)
    ensures LoadLayers(SaveLayers(sd, n), n, hidden).Success?
    ensures LoadLayers(SaveLayers(sd, n), n, hidden).value.0 == sd
  {
    var saved := SaveLayers(sd, n);
    SaveOutcome(sd, n);
    forall i | 0 <= i < n
      ensures WPackKey(i) in saved
      ensures saved[WPackKey(i)] == sd[AttnKey(i, 'q')] + sd[AttnKey(i, 'k')] + sd[AttnKey(i, 'v')]
    {
      SavedFusedWeight(sd, n, hidden, i);
    }
    assert Fits(saved, n, hidden);
    LoadOutcome(saved, n, hidden);
    var loaded := LoadLayers(saved, n, hidden).value.0;
    forall k ensures Get(loaded, k) == Get(sd, k) {
      assert Get(saved, k) == SavedAt(sd, n, k);
      assert Get(loaded, k) == LoadedAt(saved, n, hidden, k);
      LoadSavedKey(sd, n, hidden, saved, k);
    }
    GetExtensional(loaded, sd);
  }
}
