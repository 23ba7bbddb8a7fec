/** console_atlas_source_key: what the atlas factory deduplicates glyph
    sources by. Two glyphs with equal keys share one pack box. */
module SourceKeys {

  /** console_atlas::layout::Source, in declaration order. */
  datatype Source = Bitmap | Png | Font

  /** rl::cell_vector2<int> */
  datatype CellVector = CellVector(x: int, y: int)

  datatype SourceKey = SourceKey(
    sourceIndex: nat,
    topLeft: CellVector,
    letterboxed: bool,
    source: Source,
    codepoint: int)

  /** static_cast<int>(source): the enumerator's position. */
  function SourceOrdinal(s: Source): (n: int)
    ensures 0 <= n < 3
  {
    match s
    case Bitmap => 0
    case Png => 1
    case Font => 2
  }

  /** Distinct sources hash as distinct integers. */
  lemma SourceOrdinalInjective(s: Source, t: Source)
    ensures SourceOrdinal(s) == SourceOrdinal(t) <==> s == t
  {
  }

  /** operator==: the five fields compared one by one. The comparison is
      exactly equality of keys, so it is an equivalence. */
  predicate Equal(a: SourceKey, b: SourceKey): (r: bool)
    ensures r <==> a == b
  {
    && a.sourceIndex == b.sourceIndex
    && a.topLeft == b.topLeft
    && a.letterboxed == b.letterboxed
    && a.source == b.source
    && a.codepoint == b.codepoint
  }

  lemma EqualIsEquivalence(a: SourceKey, b: SourceKey, c: SourceKey)
    ensures Equal(a, a)
    ensures Equal(a, b) ==> Equal(b, a)
    ensures Equal(a, b) && Equal(b, c) ==> Equal(a, c)
  {
  }

  /** rl::hash_combine over the std::hash of each field; both are outside
      this model, so the combination is a parameter. */
  type Combine = (nat, CellVector, bool, int, int) -> nat

  /** std::hash<console_atlas_source_key> */
  function Hash(k: SourceKey, combine: Combine): nat {
    combine(k.sourceIndex, k.topLeft, k.letterboxed, SourceOrdinal(k.source), k.codepoint)
  }

  /** The hash reads exactly the compared fields, so keys that compare equal
      hash equal, for every way of combining the field hashes. */
  lemma EqualKeysHashEqual(a: SourceKey, b: SourceKey, combine: Combine)
    requires Equal(a, b)
    ensures Hash(a, combine) == Hash(b, combine)
  {
  }

  /** Field hashes that keep only the codepoint. */
  function CodepointOnly(i: nat, v: CellVector, l: bool, s: int, c: int): nat {
    if c >= 0 then 2 * c else -2 * c - 1
  }

  /** The codepoint takes part in both: changing only the codepoint gives an
      unequal key, and a combination that keeps it tells the hashes apart. */
  lemma CodepointTakesPart(k: SourceKey, c: int)
    requires c != k.codepoint
    ensures !Equal(k, k.(codepoint := c))
    ensures Hash(k, CodepointOnly) != Hash(k.(codepoint := c), CodepointOnly)
  {
  }
}
