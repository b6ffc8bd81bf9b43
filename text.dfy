/** The handful of Python string operations that the chat dialects and the
    checkpoint-name builders rely on: `str.strip()`, `str.replace`,
    `str.split`, `str.join`, `split(sep, maxsplit=1)` and the decimal
    rendering of a layer or round number inside a format string. */
module Text {
  import opened Results

  // ---------------------------------------------------------------------------
  // str.strip()

  /** Python's `str.isspace()` for a single character. */
  predicate IsSpace(c: char) {
    || c == ' '
    || ('\t' <= c <= '\r')
    || ('\U{1C}' <= c <= '\U{1F}')
    || c == '\U{85}' || c == '\U{A0}' || c == '\U{1680}'
    || ('\U{2000}' <= c <= '\U{200A}')
    || c == '\U{2028}' || c == '\U{2029}' || c == '\U{202F}' || c == '\U{205F}' || c == '\U{3000}'
  }

  predicate AllSpace(s: string) {
    forall i :: 0 <= i < |s| ==> IsSpace(s[i])
  }

  /** Neither end of `s` is whitespace. */
  predicate Stripped(s: string) {
    s == [] || (!IsSpace(s[0]) && !IsSpace(s[|s| - 1]))
  }

  /** Every character of `s` from index `i` up to `j` is whitespace. */
  predicate SpaceBetween(s: string, i: nat, j: nat)
    requires i <= j <= |s|
  {
    forall k :: i <= k < j ==> IsSpace(s[k])
  }

  /** Where the text starts once the whitespace from `a` on is skipped. */
  function SkipSpace(s: string, a: nat): (b: nat)
    requires a <= |s|
    ensures a <= b <= |s| && SpaceBetween(s, a, b) && (b == |s| || !IsSpace(s[b]))
    decreases |s| - a
  {
    if a < |s| && IsSpace(s[a]) then SkipSpace(s, a + 1) else a
  }

  /** Where the text ends once the whitespace before `b` is dropped, going no
      further back than `a`. */
  function BackSpace(s: string, a: nat, b: nat): (e: nat)
    requires a <= b <= |s|
    ensures a <= e <= b && SpaceBetween(s, e, b) && (e == a || !IsSpace(s[e - 1]))
    decreases b
  {
    if a < b && IsSpace(s[b - 1]) then BackSpace(s, a, b - 1) else b
  }

  /** Python's `str.strip()`: the result has no whitespace at either end, it is
      empty exactly when the input is all whitespace, and it is the input itself
      exactly when the input already had no whitespace at either end. */
  function Strip(s: string): (r: string)
    ensures Stripped(r)
    ensures r == [] <==> AllSpace(s)
    ensures r == s <==> Stripped(s)
  {
    var a := SkipSpace(s, 0);
    var e := BackSpace(s, a, |s|);
    StripBounds(s, a, e);
    s[a..e]
  }

  /** The text between the skipped leading and trailing whitespace has the
      properties `Strip` promises. */
  lemma StripBounds(s: string, a: nat, e: nat)
    requires a <= e <= |s| && SpaceBetween(s, 0, a) && (a == |s| || !IsSpace(s[a]))
    requires SpaceBetween(s, e, |s|) && (e == a || !IsSpace(s[e - 1]))
    ensures Stripped(s[a..e])
    ensures s[a..e] == [] <==> AllSpace(s)
    ensures s[a..e] == s <==> Stripped(s)
  {
    var r := s[a..e];
    if a < e {
      assert r[0] == s[a] && r[|r| - 1] == s[e - 1];
    }
    if a == e {
      assert AllSpace(s);
    }
    if s != [] {
      if a > 0 {
        assert IsSpace(s[0]);
      }
      if e < |s| {
        assert IsSpace(s[|s| - 1]);
      }
      if a == 0 && e == |s| {
        assert r == s;
      }
    }
  }

  lemma StripIdempotent(s: string)
    ensures Strip(Strip(s)) == Strip(s)
  {
  }

  /** A text that starts with `p` is `p` followed by the rest. */
  lemma PrefixThenRest(p: string, s: string)
    requires p <= s
    ensures s == p + s[|p|..]
  {
    assert s == s[..|p|] + s[|p|..];
  }

  /** A text is a prefix of itself followed by anything. */
  lemma PrefixOfConcat(a: string, b: string)
    ensures a <= a + b
  {
    assert (a + b)[..|a|] == a;
  }

  // ---------------------------------------------------------------------------
  // str.replace

  /** `pat` occurs in `s` starting at index `i`. */
  predicate OccursAt(s: string, pat: string, i: int) {
    0 <= i && i + |pat| <= |s| && s[i..i + |pat|] == pat
  }

  ghost predicate Contains(s: string, pat: string) {
    exists i :: OccursAt(s, pat, i)
  }

  /** No character of `a` is a character of `b`. */
  predicate CharsDisjoint(a: string, b: string) {
    forall i, j :: 0 <= i < |a| && 0 <= j < |b| ==> a[i] != b[j]
  }

  /** Python's `str.replace(pat, rep)` for a non-empty `pat`: occurrences are
      found left to right and do not overlap. When `rep` is no longer than
      `pat` the text never grows. */
  function Replace(s: string, pat: string, rep: string): (r: string)
    requires pat != []
    ensures |rep| <= |pat| ==> |r| <= |s|
    ensures |rep| == |pat| ==> |r| == |s|
    decreases |s|
  {
    if s == [] then []
    else if pat <= s then rep + Replace(s[|pat|..], pat, rep)
    else [s[0]] + Replace(s[1..], pat, rep)
  }

  /** An occurrence in a suffix is an occurrence in the whole text, shifted. */
  lemma OccursInSuffix(s: string, pat: string, k: nat, i: int)
    requires k <= |s|
    ensures OccursAt(s[k..], pat, i) <==> i >= 0 && OccursAt(s, pat, i + k)
  {
    if 0 <= i && i + |pat| <= |s| - k {
      assert s[k..][i..i + |pat|] == s[i + k..i + k + |pat|];
    }
  }

  /** Text in which `pat` does not occur is returned unchanged. */
  lemma {:induction false} ReplaceAbsent(s: string, pat: string, rep: string)
    requires pat != []
    requires !Contains(s, pat)
    ensures Replace(s, pat, rep) == s
    decreases |s|
  {
    if s != [] {
      assert !OccursAt(s, pat, 0);
      forall i ensures !OccursAt(s[1..], pat, i) {
        OccursInSuffix(s, pat, 1, i);
      }
      ReplaceAbsent(s[1..], pat, rep);
    }
  }

  /** Conversely, when `rep` is shorter than `pat`, one occurrence is enough to
      make the text strictly shorter. */
  lemma {:induction false} ReplaceShrinks(s: string, pat: string, rep: string, i: int)
    requires pat != [] && |rep| < |pat|
    requires OccursAt(s, pat, i)
    ensures |Replace(s, pat, rep)| < |s|
    decreases |s|
  {
    if !(pat <= s) {
      assert i != 0;
      OccursInSuffix(s, pat, 1, i - 1);
      ReplaceShrinks(s[1..], pat, rep, i - 1);
    }
  }

  /** A prefix of the replaced text that shares no character with `rep` was
      copied from the input. */
  lemma {:induction false} PrefixOfReplace(t: string, pat: string, rep: string, v: string)
    requires pat != [] && rep != []
    requires CharsDisjoint(v, rep)
    ensures v <= Replace(t, pat, rep) ==> v <= t
    decreases |t|
  {
    if t != [] && v != [] && !(pat <= t) {
      var rest := Replace(t[1..], pat, rep);
      assert Replace(t, pat, rep) == [t[0]] + rest;
      assert v <= [t[0]] + rest ==> v[1..] <= rest;
      PrefixOfReplace(t[1..], pat, rep, v[1..]);
    } else if t != [] && v != [] {
      assert Replace(t, pat, rep)[0] == rep[0];
      assert v[0] != rep[0];
    }
  }

  /** When the replacement shares no character with the pattern, no occurrence
      of the pattern survives a replace. */
  lemma {:induction false} ReplaceClears(s: string, pat: string, rep: string)
    requires pat != [] && rep != []
    requires CharsDisjoint(pat, rep)
    ensures !Contains(Replace(s, pat, rep), pat)
    decreases |s|
  {
    var r := Replace(s, pat, rep);
    if s == [] {
      assert forall i :: !OccursAt(r, pat, i);
    } else if pat <= s {
      var rest := Replace(s[|pat|..], pat, rep);
      assert r == rep + rest;
      ReplaceClears(s[|pat|..], pat, rep);
      forall i ensures !OccursAt(r, pat, i) {
        if 0 <= i < |rep| && i + |pat| <= |r| {
          assert r[i..i + |pat|][0] == rep[i];
          assert pat[0] != rep[i];
        } else if |rep| <= i {
          OccursInSuffix(r, pat, |rep|, i - |rep|);
          assert r[|rep|..] == rest;
        }
      }
    } else {
      var rest := Replace(s[1..], pat, rep);
      assert r == [s[0]] + rest;
      ReplaceClears(s[1..], pat, rep);
      forall i ensures !OccursAt(r, pat, i) {
        if i == 0 {
          PrefixOfReplace(s[1..], pat, rep, pat[1..]);
          if |pat| <= |r| {
            assert r[..|pat|] == [s[0]] + rest[..|pat| - 1];
            assert pat == [pat[0]] + pat[1..];
            assert s == [s[0]] + s[1..];
            assert pat[0] != s[0] || !(pat[1..] <= rest);
          }
        } else {
          OccursInSuffix(r, pat, 1, i - 1);
          assert r[1..] == rest;
        }
      }
    }
  }

  /** A replace whose replacement has no whitespace keeps an already stripped
      text stripped. */
  lemma {:induction false} ReplaceKeepsStripped(s: string, pat: string, rep: string)
    requires pat != [] && rep != []
    requires Stripped(pat) && Stripped(rep)
    requires Stripped(s)
    ensures Stripped(Replace(s, pat, rep))
  {
    var r := Replace(s, pat, rep);
    if s != [] {
      ReplaceEnds(s, pat, rep);
    }
  }

  /** The first character of `r` is `s`'s first character or `rep`'s; the last
      one is `s`'s last or `rep`'s. */
  predicate EndsFrom(s: string, r: string, rep: string)
    requires s != [] && rep != []
  {
    && r != []
    && (r[0] == s[0] || r[0] == rep[0])
    && (r[|r| - 1] == s[|s| - 1] || r[|r| - 1] == rep[|rep| - 1])
  }

  /** The ends of a replaced text come from the input or the replacement. */
  lemma {:induction false} ReplaceEnds(s: string, pat: string, rep: string)
    requires pat != [] && rep != [] && s != []
    ensures EndsFrom(s, Replace(s, pat, rep), rep)
    decreases |s|
  {
    var k := if pat <= s then |pat| else 1;
    var t := s[k..];
    if t != [] {
      ReplaceEnds(t, pat, rep);
    }
    ReplaceEndsStep(s, pat, rep, k);
  }

  /** One step of `Replace`: the ends of the replaced rest carry over. */
  lemma ReplaceEndsStep(s: string, pat: string, rep: string, k: nat)
    requires pat != [] && rep != [] && s != []
    requires k == if pat <= s then |pat| else 1
    requires s[k..] != [] ==> EndsFrom(s[k..], Replace(s[k..], pat, rep), rep)
    ensures EndsFrom(s, Replace(s, pat, rep), rep)
  {
    var t := s[k..];
    var rest := Replace(t, pat, rep);
    var head := if pat <= s then rep else [s[0]];
    assert Replace(s, pat, rep) == head + rest;
    if t != [] {
      assert t[|t| - 1] == s[|s| - 1];
    }
    ConcatEnds(head, rest);
  }

  /** The ends of `a + b` for a non-empty `a`. */
  lemma ConcatEnds(a: string, b: string)
    requires a != []
    ensures (a + b)[0] == a[0]
    ensures (a + b)[|a + b| - 1] == if b == [] then a[|a| - 1] else b[|b| - 1]
  {
  }

  // ---------------------------------------------------------------------------
  // str.split, str.join, split(sep, maxsplit=1)

  /** Python's `str.split(sep)` for a non-empty separator: always at least one
      part; the parts glued back with `sep` give the input (`JoinSplit`). */
  function Split(s: string, sep: string): (parts: seq<string>)
    requires sep != []
    ensures |parts| >= 1
    decreases |s|
  {
    if s == [] then [[]]
    else if sep <= s then [[]] + Split(s[|sep|..], sep)
    else
      var rest := Split(s[1..], sep);
      [[s[0]] + rest[0]] + rest[1..]
  }

  /** Python's `sep.join(parts)`. */
  function Join(parts: seq<string>, sep: string): string {
    if |parts| == 0 then []
    else if |parts| == 1 then parts[0]
    else parts[0] + sep + Join(parts[1..], sep)
  }

  lemma {:induction false} JoinSplit(s: string, sep: string)
    requires sep != []
    ensures Join(Split(s, sep), sep) == s
    decreases |s|
  {
    if s == [] {
    } else if sep <= s {
      var tail := Split(s[|sep|..], sep);
      assert Split(s, sep) == [[]] + tail;
      JoinSplit(s[|sep|..], sep);
      JoinAfterSep(s, sep, tail);
    } else {
      var rest := Split(s[1..], sep);
      assert Split(s, sep) == [[s[0]] + rest[0]] + rest[1..];
      JoinSplit(s[1..], sep);
      JoinCons(rest, sep, s[0]);
      assert s == [s[0]] + s[1..];
    }
  }

  /** An empty first part joined before `tail` puts `sep` in front. */
  lemma JoinAfterSep(s: string, sep: string, tail: seq<string>)
    requires sep <= s && |tail| >= 1 && Join(tail, sep) == s[|sep|..]
    ensures Join([[]] + tail, sep) == s
  {
    PrefixThenRest(sep, s);
    var parts: seq<string> := [[]] + tail;
    assert parts[0] == [] && parts[1..] == tail;
    JoinUnfold(parts, sep);
    assert [] + sep == sep;
  }

  lemma JoinUnfold(parts: seq<string>, sep: string)
    requires |parts| >= 2
    ensures Join(parts, sep) == parts[0] + sep + Join(parts[1..], sep)
  {
  }

  /** Gluing a character onto the first part glues it onto the joined text. */
  lemma JoinCons(parts: seq<string>, sep: string, c: char)
    requires |parts| >= 1
    ensures Join([[c] + parts[0]] + parts[1..], sep) == [c] + Join(parts, sep)
  {
    var q := [[c] + parts[0]] + parts[1..];
    if |parts| > 1 {
      assert q[1..] == parts[1..];
    }
  }

  /** Text in which `sep` does not occur is a single part. */
  lemma {:induction false} SplitAbsent(s: string, sep: string)
    requires sep != [] && !Contains(s, sep)
    ensures Split(s, sep) == [s]
    decreases |s|
  {
    if s != [] {
      assert !OccursAt(s, sep, 0);
      forall i ensures !OccursAt(s[1..], sep, i) {
        OccursInSuffix(s, sep, 1, i);
      }
      SplitAbsent(s[1..], sep);
      assert [s[0]] + s[1..] == s;
    }
  }

  /** Splitting on a one-character separator takes off the text before its
      first occurrence as the first part. */
  lemma {:induction false} SplitAtFirst(a: string, c: char, rest: string)
    requires c !in a
    ensures Split(a + [c] + rest, [c]) == [a] + Split(rest, [c])
    ensures Split(a, [c]) == [a]
    decreases |a|
  {
    var s := a + [c] + rest;
    if a == [] {
      assert [c] <= s;
      assert s[1..] == rest;
    } else {
      assert s[0] == a[0] != c;
      assert s[1..] == a[1..] + [c] + rest;
      SplitAtFirst(a[1..], c, rest);
      assert [a[0]] + a[1..] == a;
    }
  }

  /** The other round trip, for a one-character separator: parts that do not
      contain it are recovered from their join. */
  lemma {:induction false} SplitJoin(parts: seq<string>, c: char)
    requires |parts| >= 1
    requires forall i :: 0 <= i < |parts| ==> c !in parts[i]
    ensures Split(Join(parts, [c]), [c]) == parts
    decreases |parts|
  {
    SplitAtFirst(parts[0], c, []);
    if |parts| > 1 {
      SplitJoin(parts[1..], c);
      SplitAtFirst(parts[0], c, Join(parts[1..], [c]));
    }
  }

  /** `s.split(c, maxsplit=1)` unpacked into two names: it fails exactly when
      `c` does not occur; otherwise the text before the first `c` and the rest. */
  function SplitOnce(s: string, c: char): (r: Option<(string, string)>)
    ensures r.None? <==> c !in s
    ensures r.Some? ==> s == r.value.0 + [c] + r.value.1 && c !in r.value.0
    decreases |s|
  {
    if s == [] then None
    else if s[0] == c then Some(([], s[1..]))
    else match SplitOnce(s[1..], c)
      case None => None
      case Some((a, b)) => Some(([s[0]] + a, b))
  }

  // ---------------------------------------------------------------------------
  // Decimal rendering of round and layer numbers ("{}".format(i), f"{i}", "%d" % i)

  predicate IsDigit(c: char) {
    '0' <= c <= '9'
  }

  predicate AllDigits(s: string) {
    forall i :: 0 <= i < |s| ==> IsDigit(s[i])
  }

  function DigitChar(d: nat): (c: char)
    requires d < 10
    ensures IsDigit(c) && c as int - '0' as int == d
  {
    ('0' as int + d) as char
  }

  /** The decimal text of `n`: a non-empty run of digits that reads back as `n`
      (`ParseDecimal`). */
  function Decimal(n: nat): (s: string)
    ensures s != [] && AllDigits(s)
  {
    if n < 10 then [DigitChar(n)] else Decimal(n / 10) + [DigitChar(n % 10)]
  }

  function ParseDecimal(s: string): nat
    requires AllDigits(s)
  {
    if s == [] then 0
    else ParseDecimal(s[..|s| - 1]) * 10 + (s[|s| - 1] as int - '0' as int)
  }

  lemma {:induction false} ParseDecimalOfDecimal(n: nat)
    ensures ParseDecimal(Decimal(n)) == n
  {
    if n >= 10 {
      var s := Decimal(n);
      assert s[..|s| - 1] == Decimal(n / 10);
      ParseDecimalOfDecimal(n / 10);
    }
  }

  lemma DecimalInjective(i: nat, j: nat)
    ensures Decimal(i) == Decimal(j) <==> i == j
  {
    if Decimal(i) == Decimal(j) {
      ParseDecimalOfDecimal(i);
      ParseDecimalOfDecimal(j);
    }
  }

  /** The length of the run of digits that `s` starts with. */
  function LeadingDigits(s: string): nat {
    if s != [] && IsDigit(s[0]) then 1 + LeadingDigits(s[1..]) else 0
  }

  lemma {:induction false} LeadingDigitsOf(a: string, s: string)
    requires AllDigits(a)
    requires s == [] || !IsDigit(s[0])
    ensures LeadingDigits(a + s) == |a|
  {
    if a != [] {
      assert (a + s)[1..] == a[1..] + s;
      LeadingDigitsOf(a[1..], s);
    }
  }

  /** A name with a decimal index between a prefix and a suffix, such as
      `decoderLayer.{i}.attnLayerNorm.weight`. */
  function IndexedName(prefix: string, i: nat, suffix: string): string {
    prefix + Decimal(i) + suffix
  }

  /** When the suffix starts with a non-digit, the index and the suffix can be
      read back from an indexed name: equal names have equal indices and
      equal suffixes. */
  lemma IndexedNameInjective(p: string, i: nat, s: string, j: nat, t: string)
    requires s != [] && t != [] && !IsDigit(s[0]) && !IsDigit(t[0])
    ensures IndexedName(p, i, s) == IndexedName(p, j, t) <==> i == j && s == t
  {
    if IndexedName(p, i, s) == IndexedName(p, j, t) {
      var a, b := Decimal(i), Decimal(j);
      assert p + a + s == p + (a + s);
      assert p + b + t == p + (b + t);
      assert (p + (a + s))[|p|..] == a + s;
      assert (p + (b + t))[|p|..] == b + t;
      var x := a + s;
      assert x == b + t;
      LeadingDigitsOf(a, s);
      LeadingDigitsOf(b, t);
      assert a == x[..|a|] == b;
      assert s == x[|a|..] == t;
      DecimalInjective(i, j);
    }
  }
  lemma {:induction false} LeadingDigitsAreDigits(s: string)
    ensures LeadingDigits(s) <= |s| && AllDigits(s[..LeadingDigits(s)])
  {
    if s != [] && IsDigit(s[0]) {
      LeadingDigitsAreDigits(s[1..]);
      assert s[..LeadingDigits(s)] == [s[0]] + s[1..][..LeadingDigits(s[1..])];
    }
  }

  /** The index an indexed name carries after `prefix`: the number its run of
      digits spells, or `None` when the name does not start with `prefix`. */
  function ReadIndex(prefix: string, name: string): Option<nat> {
    if prefix <= name then
      var rest := name[|prefix|..];
      LeadingDigitsAreDigits(rest);
      Some(ParseDecimal(rest[..LeadingDigits(rest)]))
    else None
  }

  /** Reading the index back from an indexed name gives the index written. */
  lemma ReadIndexOf(p: string, i: nat, s: string)
    requires s == [] || !IsDigit(s[0])
    ensures ReadIndex(p, IndexedName(p, i, s)) == Some(i)
  {
    var name := IndexedName(p, i, s);
    assert name == p + (Decimal(i) + s);
    PrefixOfConcat(p, Decimal(i) + s);
    var rest := name[|p|..];
    assert rest == Decimal(i) + s;
    LeadingDigitsOf(Decimal(i), s);
    assert rest[..LeadingDigits(rest)] == Decimal(i);
    ParseDecimalOfDecimal(i);
  }
}
