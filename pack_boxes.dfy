/** The pack boxes of the atlas builders (rl::pack_box<int>: an identifier, a
    box and a page), the contract assumed of the rectangle packer, and the
    std::sort by identifier that follows packing. */
module PackBoxes {

  datatype PackBox = PackBox(identifier: nat, width: int, height: int, x: int, y: int, page: nat)

  /** What the packer must keep: the identifier and the size of a box. */
  datatype BoxShape = BoxShape(identifier: nat, width: int, height: int)

  function ShapeOf(b: PackBox): BoxShape {
    BoxShape(b.identifier, b.width, b.height)
  }

  function Shapes(bs: seq<PackBox>): (r: seq<BoxShape>)
    ensures |r| == |bs|
    ensures forall i :: 0 <= i < |bs| ==> r[i] == ShapeOf(bs[i])
  {
    if bs == [] then [] else [ShapeOf(bs[0])] + Shapes(bs[1..])
  }

  /** pack_box(identifier, width, height), not yet placed. */
  function NewBox(identifier: nat, width: int, height: int): (b: PackBox)
    ensures ShapeOf(b) == BoxShape(identifier, width, height)
  {
    PackBox(identifier, width, height, 0, 0, 0)
  }

  /** Box i has identifier i. */
  predicate Numbered(bs: seq<PackBox>) {
    forall i :: 0 <= i < |bs| ==> bs[i].identifier == i
  }

  /** rl::Packer::Pack places the boxes and may reorder them, but hands back
      the same boxes: the same identifiers with the same sizes. */
  type Packer = seq<PackBox> -> seq<PackBox>

  ghost predicate Packs(before: seq<PackBox>, after: seq<PackBox>) {
    multiset(Shapes(after)) == multiset(Shapes(before))
  }

  ghost predicate IsPacker(pack: Packer) {
    forall bs :: Packs(bs, pack(bs))
  }

  // ----- std::sort by identifier -----

  /** The sort key: the identifier for an ascending sort (comparator
      a.identifier < b.identifier), its negation for a descending one
      (a.identifier > b.identifier). */
  function Key(b: PackBox, ascending: bool): int {
    if ascending then b.identifier else -(b.identifier as int)
  }

  /** Each box's key is at most the next one's. */
  predicate Ordered(bs: seq<PackBox>, ascending: bool) {
    forall i :: 0 <= i < |bs| - 1 ==> Key(bs[i], ascending) <= Key(bs[i + 1], ascending)
  }

  lemma {:induction false} OrderedPairwise(bs: seq<PackBox>, ascending: bool, i: nat, j: nat)
    requires Ordered(bs, ascending) && i <= j < |bs|
    ensures Key(bs[i], ascending) <= Key(bs[j], ascending)
    decreases j - i
  {
    if i < j {
      OrderedPairwise(bs, ascending, i + 1, j);
    }
  }

  lemma OrderedCons(x: PackBox, rest: seq<PackBox>, ascending: bool)
    requires Ordered(rest, ascending)
    requires rest != [] ==> Key(x, ascending) <= Key(rest[0], ascending)
    ensures Ordered([x] + rest, ascending)
  {
    var r := [x] + rest;
    forall i | 0 <= i < |r| - 1
      ensures Key(r[i], ascending) <= Key(r[i + 1], ascending)
    {
      if i > 0 {
        assert r[i] == rest[i - 1] && r[i + 1] == rest[i];
      }
    }
  }

  /** Insert `b` into a sequence sorted by key, before the first box whose key
      is not smaller. */
  function Insert(b: PackBox, s: seq<PackBox>, ascending: bool): (r: seq<PackBox>)
    ensures |r| == |s| + 1
    ensures r[0] == b || (s != [] && r[0] == s[0])
  {
    if s == [] then [b]
    else if Key(b, ascending) <= Key(s[0], ascending) then [b] + s
    else [s[0]] + Insert(b, s[1..], ascending)
  }

  lemma OrderedTail(s: seq<PackBox>, ascending: bool)
    requires s != [] && Ordered(s, ascending)
    ensures Ordered(s[1..], ascending)
  {
    forall i | 0 <= i < |s| - 2
      ensures Key(s[1..][i], ascending) <= Key(s[1..][i + 1], ascending)
    {
      assert s[1..][i] == s[i + 1] && s[1..][i + 1] == s[i + 2];
    }
  }

  lemma {:induction false} InsertOrdered(b: PackBox, s: seq<PackBox>, ascending: bool)
    requires Ordered(s, ascending)
    ensures Ordered(Insert(b, s, ascending), ascending)
    decreases |s|
  {
    if s != [] {
      if Key(b, ascending) <= Key(s[0], ascending) {
        OrderedCons(b, s, ascending);
      } else {
        OrderedTail(s, ascending);
        InsertOrdered(b, s[1..], ascending);
        OrderedCons(s[0], Insert(b, s[1..], ascending), ascending);
      }
    } else {
      OrderedCons(b, [], ascending);
    }
  }

  /** Insertion keeps every box. */
  lemma {:induction false} InsertKeepsBoxes(b: PackBox, s: seq<PackBox>, ascending: bool)
    ensures multiset(Insert(b, s, ascending)) == multiset(s) + multiset{b}
    decreases |s|
  {
    if s != [] && Key(b, ascending) > Key(s[0], ascending) {
      InsertKeepsBoxes(b, s[1..], ascending);
      assert [s[0]] + s[1..] == s;
    }
  }

  /** std::sort over the boxes with the identifier comparator, as an
      insertion sort. The identifiers it is applied to are distinct, so every
      correct sort yields this same sequence. */
  function SortById(bs: seq<PackBox>, ascending: bool): (r: seq<PackBox>)
    ensures |r| == |bs|
  {
    if bs == [] then [] else Insert(bs[0], SortById(bs[1..], ascending), ascending)
  }

  /** The sort orders the boxes by key. */
  lemma {:induction false} SortOrdered(bs: seq<PackBox>, ascending: bool)
    ensures Ordered(SortById(bs, ascending), ascending)
    decreases |bs|
  {
    if bs != [] {
      SortOrdered(bs[1..], ascending);
      InsertOrdered(bs[0], SortById(bs[1..], ascending), ascending);
    }
  }

  /** The sort keeps every box: it permutes them. */
  lemma {:induction false} SortKeepsBoxes(bs: seq<PackBox>, ascending: bool)
    ensures multiset(SortById(bs, ascending)) == multiset(bs)
    decreases |bs|
  {
    if bs != [] {
      SortKeepsBoxes(bs[1..], ascending);
      InsertKeepsBoxes(bs[0], SortById(bs[1..], ascending), ascending);
      assert [bs[0]] + bs[1..] == bs;
    }
  }

  // ----- Multiset counting -----

  lemma CountAtLeastTwo<T>(s: seq<T>, i: nat, k: nat)
    requires i < k < |s| && s[i] == s[k]
    ensures multiset(s)[s[i]] >= 2
  {
    assert s == s[..i] + [s[i]] + s[i + 1..k] + [s[k]] + s[k + 1..];
  }

  lemma {:induction false} CountOfDistinct<T>(s: seq<T>, j: nat)
    requires j < |s|
    requires forall a, b :: 0 <= a < b < |s| ==> s[a] != s[b]
    ensures multiset(s)[s[j]] == 1
    decreases |s|
  {
    var last := |s| - 1;
    assert s == s[..last] + [s[last]];
    if j == last {
      assert s[j] !in s[..last];
    } else {
      CountOfDistinct(s[..last], j);
    }
  }

  /** Integers strictly increasing within [0, n) at n positions are 0 .. n-1. */
  lemma {:induction false} IncreasingFillsRange(ids: seq<int>)
    requires forall i, j :: 0 <= i < j < |ids| ==> ids[i] < ids[j]
    requires forall i :: 0 <= i < |ids| ==> 0 <= ids[i] < |ids|
    ensures forall i :: 0 <= i < |ids| ==> ids[i] == i
    decreases |ids|
  {
    if |ids| > 0 {
      var last := |ids| - 1;
      var front := ids[..last];
      forall i | 0 <= i < last
        ensures 0 <= front[i] < |front|
      {
        assert ids[i] < ids[last];
      }
      IncreasingFillsRange(front);
      if last > 0 {
        assert ids[last - 1] == last - 1;
      }
    }
  }

  // ----- The sort restores the numbering -----

  /** A box the packer handed back is one of the numbered boxes: its
      identifier is its index there, and its size is that box's. */
  lemma PackedIsNumbered(before: seq<PackBox>, after: seq<PackBox>, i: nat)
    requires Numbered(before) && Packs(before, after) && i < |after|
    ensures after[i].identifier < |before|
    ensures ShapeOf(after[i]) == ShapeOf(before[after[i].identifier])
  {
    var x := Shapes(after)[i];
    assert x in multiset(Shapes(after));
    assert x in Shapes(before);
    var j :| 0 <= j < |before| && Shapes(before)[j] == x;
  }

  /** No two packed boxes share an identifier. */
  lemma PackedDistinct(before: seq<PackBox>, after: seq<PackBox>, i: nat, k: nat)
    requires Numbered(before) && Packs(before, after)
    requires i < k < |after|
    ensures after[i].identifier != after[k].identifier
  {
    PackedIsNumbered(before, after, i);
    PackedIsNumbered(before, after, k);
    if after[i].identifier == after[k].identifier {
      var shapes := Shapes(after);
      CountAtLeastTwo(shapes, i, k);
      var b := Shapes(before);
      CountOfDistinct(b, after[i].identifier);
      assert false;
    }
  }

  /** The packer hands back as many boxes as it was given. */
  lemma PackedLength(before: seq<PackBox>, after: seq<PackBox>)
    requires Packs(before, after)
    ensures |after| == |before|
  {
    var sa, sb := Shapes(after), Shapes(before);
    assert |multiset(sa)| == |sa|;
    assert |multiset(sb)| == |sb|;
  }

  /** A permutation of the packed boxes keeps both facts: each box is one of
      the numbered boxes, and no two share an identifier. */
  lemma PermutedIsNumbered(before: seq<PackBox>, after: seq<PackBox>, s: seq<PackBox>, i: nat)
    requires Numbered(before) && Packs(before, after) && multiset(s) == multiset(after) && i < |s|
    ensures s[i].identifier < |before|
    ensures ShapeOf(s[i]) == ShapeOf(before[s[i].identifier])
  {
    var j := Origin(after, s, i);
    PackedIsNumbered(before, after, j);
  }

  lemma PackedNoDuplicates(before: seq<PackBox>, after: seq<PackBox>)
    requires Numbered(before) && Packs(before, after)
    ensures forall a, b :: 0 <= a < b < |after| ==> after[a] != after[b]
  {
    forall a, b | 0 <= a < b < |after|
      ensures after[a] != after[b]
    {
      PackedDistinct(before, after, a, b);
    }
  }

  /** Where a box of a permutation sits in the original. */
  lemma Origin(after: seq<PackBox>, s: seq<PackBox>, i: nat) returns (j: nat)
    requires multiset(s) == multiset(after) && i < |s|
    ensures j < |after| && after[j] == s[i]
  {
    assert s[i] in multiset(after);
    j :| 0 <= j < |after| && after[j] == s[i];
  }

  lemma PermutedNoDuplicates(before: seq<PackBox>, after: seq<PackBox>, s: seq<PackBox>)
    requires Numbered(before) && Packs(before, after) && multiset(s) == multiset(after)
    ensures forall a, b :: 0 <= a < b < |s| ==> s[a] != s[b]
  {
    PackedNoDuplicates(before, after);
    forall a, b | 0 <= a < b < |s|
      ensures s[a] != s[b]
    {
      if s[a] == s[b] {
        CountAtLeastTwo(s, a, b);
        var j := Origin(after, s, a);
        CountOfDistinct(after, j);
      }
    }
  }

  lemma PermutedDistinct(before: seq<PackBox>, after: seq<PackBox>, s: seq<PackBox>, i: nat, k: nat)
    requires Numbered(before) && Packs(before, after) && multiset(s) == multiset(after)
    requires i < k < |s|
    ensures s[i].identifier != s[k].identifier
  {
    var j1 := Origin(after, s, i);
    var j2 := Origin(after, s, k);
    PermutedNoDuplicates(before, after, s);
    if j1 < j2 {
      PackedDistinct(before, after, j1, j2);
    } else if j2 < j1 {
      PackedDistinct(before, after, j2, j1);
    }
  }

  /** The identifiers of `s`, ascending or mirrored for a descending sort. */
  function Ranks(s: seq<PackBox>, ascending: bool): (r: seq<int>)
    ensures |r| == |s|
    ensures forall i :: 0 <= i < |s| ==> r[i] == if ascending then s[i].identifier else |s| - 1 - s[i].identifier
  {
    seq(|s|, i requires 0 <= i < |s| => if ascending then s[i].identifier else |s| - 1 - s[i].identifier)
  }

  /** The ranks of an ordered permutation of the packed boxes are 0, 1, ...,
      n-1 in order. */
  lemma RanksFill(before: seq<PackBox>, after: seq<PackBox>, s: seq<PackBox>, ascending: bool)
    requires Numbered(before) && Packs(before, after) && multiset(s) == multiset(after)
    requires Ordered(s, ascending) && |s| == |before|
    ensures forall i :: 0 <= i < |s| ==> Ranks(s, ascending)[i] == i
  {
    var r := Ranks(s, ascending);
    forall i | 0 <= i < |s|
      ensures 0 <= r[i] < |r|
    {
      PermutedIsNumbered(before, after, s, i);
    }
    forall i, j | 0 <= i < j < |s|
      ensures r[i] < r[j]
    {
      PermutedDistinct(before, after, s, i, j);
      OrderedPairwise(s, ascending, i, j);
    }
    IncreasingFillsRange(r);
  }

  /** Any ordered permutation of the packed boxes holds box k of the
      numbered boxes at position k (ascending) or n-1-k (descending). */
  lemma OrderedPermutation(before: seq<PackBox>, after: seq<PackBox>, s: seq<PackBox>, ascending: bool)
    requires Numbered(before) && Packs(before, after) && multiset(s) == multiset(after)
    requires Ordered(s, ascending) && |s| == |before|
    ensures forall i :: 0 <= i < |s| ==>
        var k := if ascending then i else |s| - 1 - i;
        s[i].identifier == k && ShapeOf(s[i]) == ShapeOf(before[k])
  {
    RanksFill(before, after, s, ascending);
    forall i | 0 <= i < |s|
      ensures var k := if ascending then i else |s| - 1 - i;
        s[i].identifier == k && ShapeOf(s[i]) == ShapeOf(before[k])
    {
      PermutedIsNumbered(before, after, s, i);
      assert Ranks(s, ascending)[i] == i;
    }
  }

  /** Sorting the packed boxes by identifier puts box i (ascending) or box
      n-1-i (descending) of the numbered boxes at position i, with its
      size. */
  lemma SortedPackedBoxes(before: seq<PackBox>, after: seq<PackBox>, ascending: bool)
    requires Numbered(before) && Packs(before, after)
    ensures var s := SortById(after, ascending);
      |s| == |before| &&
      forall i :: 0 <= i < |s| ==>
        var k := if ascending then i else |s| - 1 - i;
        s[i].identifier == k && ShapeOf(s[i]) == ShapeOf(before[k])
  {
    SortOrdered(after, ascending);
    SortKeepsBoxes(after, ascending);
    PackedLength(before, after);
    OrderedPermutation(before, after, SortById(after, ascending), ascending);
  }
}
