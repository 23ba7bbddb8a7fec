/** The pixel loop shared by every row blit: each destination pixel is the
    converted value of the source pixel with the same x. Source and
    destination are byte ranges of one memory, so a row may be converted in
    place. The per-pixel colour and depth conversion is a parameter: it maps
    the bytes of one source pixel to the bytes of one destination pixel. */
module RowBlit {
  import opened Memory
  import opened Arith

  type Converter = seq<Byte> -> seq<Byte>

  /** The converter yields exactly one destination pixel's bytes. */
  ghost predicate Produces(conv: Converter, n: nat) {
    forall p :: |conv(p)| == n
  }

  /** Where the two rows start, how many pixels they hold, and the byte size
      of one source and one destination pixel. */
  datatype Geometry = Geometry(src: nat, dst: nat, width: nat, srcPixel: nat, dstPixel: nat)

  /** Both rows lie inside a memory of `n` bytes. */
  predicate Fits(g: Geometry, n: nat) {
    g.src + Times(g.width, g.srcPixel) <= n && g.dst + Times(g.width, g.dstPixel) <= n
  }

  /** The loop only ever touches pixels of the row. */
  lemma PixelInside(g: Geometry, n: nat, x: nat)
    requires Fits(g, n) && x < g.width
    ensures g.src + Times(x, g.srcPixel) + g.srcPixel <= n
    ensures g.dst + Times(x, g.dstPixel) + g.dstPixel <= n
  {
    TimesMonotone(x + 1, g.width, g.srcPixel);
    TimesMonotone(x + 1, g.width, g.dstPixel);
  }

  /** The bytes of source pixel `x` in memory `m`. */
  function SourcePixel(m: seq<Byte>, g: Geometry, x: nat): (p: seq<Byte>)
    requires Fits(g, |m|) && x < g.width
    ensures |p| == g.srcPixel
  {
    PixelInside(g, |m|, x);
    var at := g.src + Times(x, g.srcPixel);
    m[at .. at + g.srcPixel]
  }

  /** One iteration of the loop: convert pixel `x` and store it. */
  function Step(m: seq<Byte>, g: Geometry, conv: Converter, x: nat): (r: seq<Byte>)
    requires Produces(conv, g.dstPixel) && Fits(g, |m|) && x < g.width
    ensures |r| == |m|
  {
    PixelInside(g, |m|, x);
    var at := g.dst + Times(x, g.dstPixel);
    m[..at] + conv(SourcePixel(m, g, x)) + m[at + g.dstPixel..]
  }

  /** Memory after the ascending loop has converted pixels 0 .. k-1. */
  function Forward(m: seq<Byte>, g: Geometry, conv: Converter, k: nat): (r: seq<Byte>)
    requires Produces(conv, g.dstPixel) && Fits(g, |m|) && k <= g.width
    ensures |r| == |m|
    decreases k
  {
    if k == 0 then m else Step(Forward(m, g, conv, k - 1), g, conv, k - 1)
  }

  /** Memory after the descending loop has converted pixels width-1 down
      to lo. */
  function Backward(m: seq<Byte>, g: Geometry, conv: Converter, lo: nat): (r: seq<Byte>)
    requires Produces(conv, g.dstPixel) && Fits(g, |m|) && lo <= g.width
    ensures |r| == |m|
    decreases g.width - lo
  {
    if lo == g.width then m else Step(Backward(m, g, conv, lo + 1), g, conv, lo)
  }

  /** The whole loop in the chosen direction. */
  function Run(m: seq<Byte>, g: Geometry, conv: Converter, ascending: bool): (r: seq<Byte>)
    requires Produces(conv, g.dstPixel) && Fits(g, |m|)
    ensures |r| == |m|
  {
    if ascending then Forward(m, g, conv, g.width) else Backward(m, g, conv, 0)
  }

  // ----- Reference: conversion into a separate buffer -----

  /** The converted source pixels lo .. hi-1 of the ORIGINAL memory, in order. */
  function Converted(m: seq<Byte>, g: Geometry, conv: Converter, lo: nat, hi: nat): (r: seq<Byte>)
    requires Produces(conv, g.dstPixel) && Fits(g, |m|) && lo <= hi <= g.width
    ensures |r| == Times(hi - lo, g.dstPixel)
    decreases hi
  {
    if lo == hi then [] else Converted(m, g, conv, lo, hi - 1) + conv(SourcePixel(m, g, hi - 1))
  }

  /** What the blit should produce: the destination row replaced by the
      converted source row, everything else untouched. */
  function Reference(m: seq<Byte>, g: Geometry, conv: Converter): (r: seq<Byte>)
    requires Produces(conv, g.dstPixel) && Fits(g, |m|)
    ensures |r| == |m|
  {
    m[..g.dst] + Converted(m, g, conv, 0, g.width) + m[g.dst + Times(g.width, g.dstPixel)..]
  }

  /** Memory whose destination pixels 0 .. k-1 hold the converted source
      pixels and is otherwise `m`. */
  function ConvertedBelow(m: seq<Byte>, g: Geometry, conv: Converter, k: nat): (r: seq<Byte>)
    requires Produces(conv, g.dstPixel) && Fits(g, |m|) && k <= g.width
    ensures |r| == |m|
  {
    TimesMonotone(k, g.width, g.dstPixel);
    m[..g.dst] + Converted(m, g, conv, 0, k) + m[g.dst + Times(k, g.dstPixel)..]
  }

  /** Memory whose destination pixels lo .. width-1 hold the converted
      source pixels and is otherwise `m`. */
  function ConvertedAbove(m: seq<Byte>, g: Geometry, conv: Converter, lo: nat): (r: seq<Byte>)
    requires Produces(conv, g.dstPixel) && Fits(g, |m|) && lo <= g.width
    ensures |r| == |m|
  {
    TimesMonotone(lo, g.width, g.dstPixel);
    TimesAdd(lo, g.width - lo, g.dstPixel);
    m[..g.dst + Times(lo, g.dstPixel)] + Converted(m, g, conv, lo, g.width) + m[g.dst + Times(g.width, g.dstPixel)..]
  }

  /** Peeling the lowest pixel off a converted range. */
  lemma {:induction false} ConvertedFront(m: seq<Byte>, g: Geometry, conv: Converter, lo: nat, hi: nat)
    requires Produces(conv, g.dstPixel) && Fits(g, |m|) && lo < hi <= g.width
    ensures Converted(m, g, conv, lo, hi) == conv(SourcePixel(m, g, lo)) + Converted(m, g, conv, lo + 1, hi)
    decreases hi
  {
    if lo + 1 < hi {
      ConvertedFront(m, g, conv, lo, hi - 1);
    }
  }

  /** The source row lies wholly below or wholly above the destination row. */
  predicate Disjoint(g: Geometry) {
    g.src + Times(g.width, g.srcPixel) <= g.dst || g.dst + Times(g.width, g.dstPixel) <= g.src
  }

  /** The ascending loop reads every source pixel before it is overwritten:
      the rows are disjoint, or they start together and a source pixel is at
      least as wide as a destination pixel. */
  predicate AscendingSafe(g: Geometry) {
    Disjoint(g) || (g.src == g.dst && g.srcPixel >= g.dstPixel)
  }

  /** The same for the descending loop: the rows are disjoint, or they start
      together and a source pixel is at most as wide as a destination
      pixel. */
  predicate DescendingSafe(g: Geometry) {
    Disjoint(g) || (g.src == g.dst && g.srcPixel <= g.dstPixel)
  }

  /** The direction rule of the row blits: ascending when a source channel
      is at least as wide as a destination channel (sizeof(S) >= sizeof(D)),
      descending otherwise. */
  predicate AscendingFor(srcChannel: nat, dstChannel: nat) {
    srcChannel >= dstChannel
  }

  /** Replacing bytes a .. b-1 of `m` leaves every slice outside them as it
      was. */
  lemma SpliceKeeps(m: seq<Byte>, a: nat, b: nat, x: seq<Byte>, lo: nat, hi: nat)
    requires a <= b <= |m| && |x| == b - a && lo <= hi <= |m| && (hi <= a || b <= lo)
    ensures (m[..a] + x + m[b..])[lo..hi] == m[lo..hi]
  {
    var t := m[..a] + x + m[b..];
    assert |t| == |m|;
    forall i | lo <= i < hi
      ensures t[i] == m[i]
    {
    }
  }

  /** A source pixel outside the replaced bytes a .. b-1 reads as before. */
  lemma SourcePixelAfterSplice(m: seq<Byte>, g: Geometry, x: nat, a: nat, b: nat, t: seq<Byte>)
    requires Fits(g, |m|) && x < g.width && a <= b <= |m| && |t| == b - a
    requires g.src + Times(x, g.srcPixel) + g.srcPixel <= a || b <= g.src + Times(x, g.srcPixel)
    ensures SourcePixel(m[..a] + t + m[b..], g, x) == SourcePixel(m, g, x)
  {
    PixelInside(g, |m|, x);
    var sAt := g.src + Times(x, g.srcPixel);
    SpliceKeeps(m, a, b, t, sAt, sAt + g.srcPixel);
  }

  /** Ascending, source pixel x lies outside destination pixels 0 .. x-1. */
  lemma ForwardSourceOutside(g: Geometry, x: nat)
    requires x < g.width && AscendingSafe(g)
    ensures g.src + Times(x, g.srcPixel) + g.srcPixel <= g.dst
         || g.dst + Times(x, g.dstPixel) <= g.src + Times(x, g.srcPixel)
  {
    TimesMonotone(x, g.width, g.dstPixel);
    TimesMonotone(x + 1, g.width, g.srcPixel);
    if g.src == g.dst && g.dstPixel <= g.srcPixel {
      TimesWider(x, g.dstPixel, g.srcPixel);
    }
  }

  /** Ascending, pixel x is read before anything holding its bytes has been
      written. */
  lemma ForwardReadsOriginal(m: seq<Byte>, g: Geometry, conv: Converter, x: nat)
    requires Produces(conv, g.dstPixel) && Fits(g, |m|) && x < g.width && AscendingSafe(g)
    ensures SourcePixel(ConvertedBelow(m, g, conv, x), g, x) == SourcePixel(m, g, x)
  {
    TimesMonotone(x, g.width, g.dstPixel);
    ForwardSourceOutside(g, x);
    var b := g.dst + Times(x, g.dstPixel);
    var t := Converted(m, g, conv, 0, x);
    assert ConvertedBelow(m, g, conv, x) == m[..g.dst] + t + m[b..];
    SourcePixelAfterSplice(m, g, x, g.dst, b, t);
  }

  /** Before the loop, memory is as it was. */
  lemma NothingConvertedYet(m: seq<Byte>, g: Geometry, conv: Converter)
    requires Produces(conv, g.dstPixel) && Fits(g, |m|)
    ensures ConvertedBelow(m, g, conv, 0) == m
    ensures ConvertedAbove(m, g, conv, g.width) == m
  {
    assert m[..g.dst] + m[g.dst..] == m;
    var e := g.dst + Times(g.width, g.dstPixel);
    assert m[..e] + m[e..] == m;
  }

  /** Converting pixel x of a memory that agrees with `m` from the start of
      destination pixel x on and reads source pixel x as `m` does. */
  lemma StepOverSuffix(prev: seq<Byte>, m: seq<Byte>, g: Geometry, conv: Converter, x: nat, done: seq<Byte>)
    requires Produces(conv, g.dstPixel) && Fits(g, |m|) && x < g.width
    requires g.dst + Times(x + 1, g.dstPixel) <= |m| && |done| == Times(x, g.dstPixel)
    requires prev == m[..g.dst] + done + m[g.dst + Times(x, g.dstPixel)..]
    requires SourcePixel(prev, g, x) == SourcePixel(m, g, x)
    ensures Step(prev, g, conv, x) == m[..g.dst] + (done + conv(SourcePixel(m, g, x))) + m[g.dst + Times(x + 1, g.dstPixel)..]
  {
    var at := g.dst + Times(x, g.dstPixel);
    assert prev[..at] == m[..g.dst] + done;
    assert prev[at + g.dstPixel..] == m[at + g.dstPixel..];
  }

  /** One ascending step: converting pixel x of a memory whose pixels below
      x are done. */
  lemma ForwardStep(m: seq<Byte>, prev: seq<Byte>, g: Geometry, conv: Converter, x: nat)
    requires Produces(conv, g.dstPixel) && Fits(g, |m|) && x < g.width && AscendingSafe(g)
    requires prev == ConvertedBelow(m, g, conv, x)
    ensures Step(prev, g, conv, x) == ConvertedBelow(m, g, conv, x + 1)
  {
    PixelInside(g, |m|, x);
    ForwardReadsOriginal(m, g, conv, x);
    StepOverSuffix(prev, m, g, conv, x, Converted(m, g, conv, 0, x));
  }

  /** Ascending: after k steps the destination holds the first k converted
      pixels and the rest of memory is as it was. */
  lemma {:induction false} ForwardCorrect(m: seq<Byte>, g: Geometry, conv: Converter, k: nat)
    requires Produces(conv, g.dstPixel) && Fits(g, |m|) && k <= g.width && AscendingSafe(g)
    ensures Forward(m, g, conv, k) == ConvertedBelow(m, g, conv, k)
    decreases k
  {
    if k > 0 {
      ForwardCorrect(m, g, conv, k - 1);
      ForwardStep(m, Forward(m, g, conv, k - 1), g, conv, k - 1);
    } else {
      NothingConvertedYet(m, g, conv);
    }
  }

  /** Descending, source pixel lo lies outside destination pixels
      lo+1 .. width-1. */
  lemma BackwardSourceOutside(g: Geometry, lo: nat)
    requires lo < g.width && DescendingSafe(g)
    ensures g.src + Times(lo + 1, g.srcPixel) <= g.dst + Times(lo + 1, g.dstPixel)
         || g.dst + Times(g.width, g.dstPixel) <= g.src + Times(lo, g.srcPixel)
  {
    TimesMonotone(lo + 1, g.width, g.srcPixel);
    TimesMonotone(lo + 1, g.width, g.dstPixel);
    if g.src == g.dst && g.srcPixel <= g.dstPixel {
      TimesWider(lo + 1, g.srcPixel, g.dstPixel);
    }
  }

  /** Descending, pixel lo is read before anything holding its bytes has
      been written. */
  lemma BackwardReadsOriginal(m: seq<Byte>, g: Geometry, conv: Converter, lo: nat)
    requires Produces(conv, g.dstPixel) && Fits(g, |m|) && lo < g.width && DescendingSafe(g)
    ensures SourcePixel(ConvertedAbove(m, g, conv, lo + 1), g, lo) == SourcePixel(m, g, lo)
  {
    var ps, pd, w := g.srcPixel, g.dstPixel, g.width;
    PixelInside(g, |m|, lo);
    TimesMonotone(lo + 1, w, pd);
    TimesAdd(lo + 1, w - (lo + 1), pd);
    BackwardSourceOutside(g, lo);
    var a, b := g.dst + Times(lo + 1, pd), g.dst + Times(w, pd);
    var x := Converted(m, g, conv, lo + 1, w);
    assert ConvertedAbove(m, g, conv, lo + 1) == m[..a] + x + m[b..];
    SourcePixelAfterSplice(m, g, lo, a, b, x);
  }

  /** Converting pixel x of a memory that agrees with `m` below the end of
      destination pixel x and reads source pixel x as `m` does. */
  lemma StepOverPrefix(prev: seq<Byte>, m: seq<Byte>, g: Geometry, conv: Converter, x: nat, done: seq<Byte>, tail: seq<Byte>)
    requires Produces(conv, g.dstPixel) && Fits(g, |m|) && x < g.width
    requires g.dst + Times(x + 1, g.dstPixel) <= |m|
    requires prev == m[..g.dst + Times(x + 1, g.dstPixel)] + done + tail && |prev| == |m|
    requires SourcePixel(prev, g, x) == SourcePixel(m, g, x)
    ensures Step(prev, g, conv, x) == m[..g.dst + Times(x, g.dstPixel)] + (conv(SourcePixel(m, g, x)) + done) + tail
  {
    var at := g.dst + Times(x, g.dstPixel);
    var a := at + g.dstPixel;
    assert prev[..at] == m[..at];
    assert prev[a..] == done + tail;
  }

  /** One descending step: converting pixel lo of a memory whose pixels
      above lo are done. */
  lemma BackwardStep(m: seq<Byte>, prev: seq<Byte>, g: Geometry, conv: Converter, lo: nat)
    requires Produces(conv, g.dstPixel) && Fits(g, |m|) && lo < g.width && DescendingSafe(g)
    requires prev == ConvertedAbove(m, g, conv, lo + 1)
    ensures Step(prev, g, conv, lo) == ConvertedAbove(m, g, conv, lo)
  {
    var d, pd, w := g.dst, g.dstPixel, g.width;
    PixelInside(g, |m|, lo);
    var x, tail := Converted(m, g, conv, lo + 1, w), m[d + Times(w, pd)..];
    BackwardReadsOriginal(m, g, conv, lo);
    StepOverPrefix(prev, m, g, conv, lo, x, tail);
    ConvertedFront(m, g, conv, lo, w);
  }

  /** Descending: once pixels width-1 down to lo are done, they hold their
      converted values and the rest of memory is as it was. */
  lemma {:induction false} BackwardCorrect(m: seq<Byte>, g: Geometry, conv: Converter, lo: nat)
    requires Produces(conv, g.dstPixel) && Fits(g, |m|) && lo <= g.width && DescendingSafe(g)
    ensures Backward(m, g, conv, lo) == ConvertedAbove(m, g, conv, lo)
    decreases g.width - lo
  {
    if lo < g.width {
      BackwardCorrect(m, g, conv, lo + 1);
      BackwardStep(m, Backward(m, g, conv, lo + 1), g, conv, lo);
    } else {
      NothingConvertedYet(m, g, conv);
    }
  }

  /** The loop, run in a direction that is safe for the two rows, computes
      exactly what converting into a separate buffer computes: the
      destination row becomes the converted source row and no other byte
      changes. */
  lemma RunMatchesReference(m: seq<Byte>, g: Geometry, conv: Converter, ascending: bool)
    requires Produces(conv, g.dstPixel) && Fits(g, |m|)
    requires if ascending then AscendingSafe(g) else DescendingSafe(g)
    ensures Run(m, g, conv, ascending) == Reference(m, g, conv)
  {
    if ascending {
      ForwardCorrect(m, g, conv, g.width);
    } else {
      BackwardCorrect(m, g, conv, 0);
    }
  }

  /** Only the bytes of the destination row change. */
  lemma RunChangesOnlyDestination(m: seq<Byte>, g: Geometry, conv: Converter, ascending: bool, i: nat)
    requires Produces(conv, g.dstPixel) && Fits(g, |m|)
    requires if ascending then AscendingSafe(g) else DescendingSafe(g)
    requires i < |m| && (i < g.dst || g.dst + Times(g.width, g.dstPixel) <= i)
    ensures Run(m, g, conv, ascending)[i] == m[i]
  {
    RunMatchesReference(m, g, conv, ascending);
  }

  /** Gray to RGB by replicating the gray value. */
  function GrayToRgb(p: seq<Byte>): (q: seq<Byte>)
    ensures |q| == 3
    ensures |p| > 0 ==> q[0] == q[1] == q[2] == p[0]
  {
    if |p| > 0 then [p[0], p[0], p[0]] else [0, 0, 0]
  }

  /** Two one-byte gray pixels widened in place into two RGB pixels. */
  const GrayWidening := Geometry(0, 0, 2, 1, 3)
  const GrayMemory: seq<Byte> := [10, 20, 0, 0, 0, 0]

  lemma GrayWideningFits()
    ensures Produces(GrayToRgb, 3) && Fits(GrayWidening, |GrayMemory|)
    ensures Times(1, 1) == 1 && Times(1, 3) == 3 && Times(2, 3) == 6
  {
    assert Times(2, 1) == 2;
  }

  /** A separate buffer would hold both gray values widened. */
  lemma GrayWideningReference()
    ensures (GrayWideningFits(); Reference(GrayMemory, GrayWidening, GrayToRgb) == [10, 10, 10, 20, 20, 20])
  {
    GrayWideningFits();
    var g, m := GrayWidening, GrayMemory;
    assert SourcePixel(m, g, 0) == [10];
    assert SourcePixel(m, g, 1) == [20];
    assert Converted(m, g, GrayToRgb, 0, 1) == [10, 10, 10];
    assert Converted(m, g, GrayToRgb, 0, 2) == [10, 10, 10, 20, 20, 20];
  }

  /** The ascending loop widens the first gray value twice. */
  lemma GrayWideningAscending()
    ensures (GrayWideningFits(); Run(GrayMemory, GrayWidening, GrayToRgb, true) == [10, 10, 10, 10, 10, 10])
  {
    GrayWideningFits();
    var g, m := GrayWidening, GrayMemory;
    assert SourcePixel(m, g, 0) == [10];
    var m1 := Step(m, g, GrayToRgb, 0);
    assert m1 == [10, 10, 10, 0, 0, 0];
    assert Forward(m, g, GrayToRgb, 1) == m1;
    assert SourcePixel(m1, g, 1) == [10];
    assert Step(m1, g, GrayToRgb, 1) == [10, 10, 10, 10, 10, 10];
  }

  /** The direction rule of the row blits compares channel widths only. For
      rows of different colour that is not enough: the gray row above passes
      the rule (both channels are one byte wide), yet the ascending loop reads
      the second gray pixel after the first RGB pixel has overwritten it. */
  lemma ChannelRuleNeedsSameColour()
    ensures AscendingFor(1, 1)
    ensures (GrayWideningFits();
      Run(GrayMemory, GrayWidening, GrayToRgb, true) != Reference(GrayMemory, GrayWidening, GrayToRgb))
  {
    GrayWideningFits();
    GrayWideningReference();
    GrayWideningAscending();
    var r := Run(GrayMemory, GrayWidening, GrayToRgb, true);
    assert r[3] == 10;
  }

  // ----- Visiting order -----

  /** The pixels the ascending loop visits: 0, 1, ..., width-1. */
  function AscendingOrder(width: nat): (o: seq<nat>)
    ensures |o| == width
    ensures forall i :: 0 <= i < width ==> o[i] == i
  {
    if width == 0 then [] else AscendingOrder(width - 1) + [width - 1]
  }

  /** The pixels the descending loop visits: width-1, ..., 1, 0. */
  function DescendingOrder(width: nat): (o: seq<nat>)
    ensures |o| == width
    ensures forall i :: 0 <= i < width ==> o[i] == width - 1 - i
  {
    if width == 0 then [] else [width - 1] + DescendingOrder(width - 1)
  }

  /** The descending loop as the row blits write it: the counter starts at
      the width itself and runs down to 0 inclusive. */
  function DescendingOrderAsWritten(width: nat): (o: seq<int>)
    ensures |o| == width + 1
    ensures forall i :: 0 <= i <= width ==> o[i] == width - i
    decreases width
  {
    if width == 0 then [0] else [width] + DescendingOrderAsWritten(width - 1)
  }

  /** The loop as written visits one pixel past the end of the row first,
      and it does so whatever the width, even for an empty row. */
  lemma DescendingAsWrittenStartsPastRow(width: nat)
    ensures DescendingOrderAsWritten(width)[0] == width
    ensures |DescendingOrderAsWritten(width)| == |DescendingOrder(width)| + 1
    ensures DescendingOrderAsWritten(width)[1..] == DescendingOrder(width)
  {
  }

  /** Converting the pixels of `order` one after another. */
  function StepAll(m: seq<Byte>, g: Geometry, conv: Converter, order: seq<nat>): (r: seq<Byte>)
    requires Produces(conv, g.dstPixel) && Fits(g, |m|)
    requires forall i :: 0 <= i < |order| ==> order[i] < g.width
    ensures |r| == |m|
    decreases |order|
  {
    if order == [] then m else StepAll(Step(m, g, conv, order[0]), g, conv, order[1..])
  }

  lemma {:induction false} StepAllSnoc(m: seq<Byte>, g: Geometry, conv: Converter, order: seq<nat>, x: nat)
    requires Produces(conv, g.dstPixel) && Fits(g, |m|) && x < g.width
    requires forall i :: 0 <= i < |order| ==> order[i] < g.width
    ensures StepAll(m, g, conv, order + [x]) == Step(StepAll(m, g, conv, order), g, conv, x)
    decreases |order|
  {
    if order != [] {
      assert (order + [x])[1..] == order[1..] + [x];
      StepAllSnoc(Step(m, g, conv, order[0]), g, conv, order[1..], x);
    }
  }

  /** `Forward` converts the pixels in ascending order. */
  lemma {:induction false} ForwardFollowsAscendingOrder(m: seq<Byte>, g: Geometry, conv: Converter, k: nat)
    requires Produces(conv, g.dstPixel) && Fits(g, |m|) && k <= g.width
    ensures Forward(m, g, conv, k) == StepAll(m, g, conv, AscendingOrder(k))
    decreases k
  {
    if k > 0 {
      ForwardFollowsAscendingOrder(m, g, conv, k - 1);
      StepAllSnoc(m, g, conv, AscendingOrder(k - 1), k - 1);
    }
  }

  /** The pixels the descending loop has visited once it reaches lo:
      width-1, ..., lo. */
  function DescendingFrom(width: nat, lo: nat): (o: seq<nat>)
    requires lo <= width
    ensures |o| == width - lo
    ensures forall i :: 0 <= i < |o| ==> o[i] == width - 1 - i
    decreases width - lo
  {
    if lo == width then [] else DescendingFrom(width, lo + 1) + [lo]
  }

  /** Run down to 0, that is the whole descending order. */
  lemma DescendingFromZero(width: nat)
    ensures DescendingFrom(width, 0) == DescendingOrder(width)
  {
  }

  /** `Backward` converts the pixels in descending order. */
  lemma {:induction false} BackwardFollowsDescendingOrder(m: seq<Byte>, g: Geometry, conv: Converter, lo: nat)
    requires Produces(conv, g.dstPixel) && Fits(g, |m|) && lo <= g.width
    ensures Backward(m, g, conv, lo) == StepAll(m, g, conv, DescendingFrom(g.width, lo))
    decreases g.width - lo
  {
    if lo < g.width {
      BackwardFollowsDescendingOrder(m, g, conv, lo + 1);
      StepAllSnoc(m, g, conv, DescendingFrom(g.width, lo + 1), lo);
    }
  }

  /** The whole descending loop visits width-1, ..., 0, once each. */
  lemma BackwardVisitsDescendingOrder(m: seq<Byte>, g: Geometry, conv: Converter)
    requires Produces(conv, g.dstPixel) && Fits(g, |m|)
    ensures Backward(m, g, conv, 0) == StepAll(m, g, conv, DescendingOrder(g.width))
  {
    BackwardFollowsDescendingOrder(m, g, conv, 0);
    DescendingFromZero(g.width);
  }

  // ----- The loop over a byte array -----

  /** Store the bytes `v` at `at`, one byte at a time. */
  method Store(mem: array<Byte>, at: nat, v: seq<Byte>)
    requires at + |v| <= mem.Length
    modifies mem
    ensures mem[..] == old(mem[..])[..at] + v + old(mem[..])[at + |v|..]
  {
    ghost var m := mem[..];
    var i := 0;
    while i < |v|
      invariant i <= |v|
      invariant forall j :: 0 <= j < mem.Length ==> mem[j] == (if at <= j < at + i then v[j - at] else m[j])
    {
      mem[at + i] := v[i];
      i := i + 1;
    }
    assert mem[..] == m[..at] + v + m[at + |v|..];
  }

  /** Convert pixel `x`: read the whole source pixel, convert it, then store
      the destination pixel byte by byte. */
  method ConvertPixel(mem: array<Byte>, g: Geometry, conv: Converter, x: nat)
    requires Produces(conv, g.dstPixel) && Fits(g, mem.Length) && x < g.width
    modifies mem
    ensures mem[..] == Step(old(mem[..]), g, conv, x)
  {
    PixelInside(g, mem.Length, x);
    var from := g.src + Times(x, g.srcPixel);
    var pixel := mem[from .. from + g.srcPixel];
    assert pixel == SourcePixel(mem[..], g, x);
    var v := conv(pixel);
    Store(mem, g.dst + Times(x, g.dstPixel), v);
  }

  /** The ascending pixel loop: x = 0 .. width-1. */
  method ConvertAscending(mem: array<Byte>, g: Geometry, conv: Converter)
    requires Produces(conv, g.dstPixel) && Fits(g, mem.Length)
    modifies mem
    ensures mem[..] == Forward(old(mem[..]), g, conv, g.width)
  {
    ghost var m := mem[..];
    var x: nat := 0;
    while x < g.width
      invariant x <= g.width
      invariant mem[..] == Forward(m, g, conv, x)
    {
      ConvertPixel(mem, g, conv, x);
      x := x + 1;
    }
  }

  /** The descending pixel loop: x = width-1 .. 0. */
  method ConvertDescending(mem: array<Byte>, g: Geometry, conv: Converter)
    requires Produces(conv, g.dstPixel) && Fits(g, mem.Length)
    modifies mem
    ensures mem[..] == Backward(old(mem[..]), g, conv, 0)
  {
    ghost var m := mem[..];
    var x: nat := g.width;
    while x > 0
      invariant x <= g.width
      invariant mem[..] == Backward(m, g, conv, x)
    {
      x := x - 1;
      ghost var before := mem[..];
      assert before == Backward(m, g, conv, x + 1);
      ConvertPixel(mem, g, conv, x);
      assert Backward(m, g, conv, x) == Step(before, g, conv, x);
    }
  }

  /** The pixel loop of a row blit, ascending or descending. */
  method ConvertRow(mem: array<Byte>, g: Geometry, conv: Converter, ascending: bool)
    requires Produces(conv, g.dstPixel) && Fits(g, mem.Length)
    modifies mem
    ensures mem[..] == Run(old(mem[..]), g, conv, ascending)
  {
    if ascending {
      ConvertAscending(mem, g, conv);
    } else {
      ConvertDescending(mem, g, conv);
    }
  }
}
