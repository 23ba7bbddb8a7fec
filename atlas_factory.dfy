/** ConsoleAtlasFactory::Create: the atlas builder that deduplicates glyph
    sources. Every glyph of every face is given a source key; equal keys
    share one pack box, whose identifier is its index. The boxes are packed,
    sorted back into identifier order and paired with their keys. */
module AtlasFactory {
  import opened Wrappers
  import opened SourceKeys
  import opened PackBoxes

  // ----- The layout this revision of the factory reads -----

  datatype GlyphLayout = GlyphLayout(sourceIndex: nat, source: Source, topLeft: CellVector, codepoint: int)

  /** `font` is the font source whose codepoints fill the rest of the face. */
  datatype FaceLayout = FaceLayout(letterboxed: bool, font: nat, glyphs: seq<GlyphLayout>)

  datatype Layout = Layout(
    pngSources: seq<string>,
    fontSources: seq<string>,
    tileWidth: int,
    tileHeight: int,
    faces: seq<FaceLayout>)

  datatype AtlasFace = AtlasFace(letterboxed: bool)

  datatype Atlas = Atlas(tileWidth: int, tileHeight: int, hasLetterboxing: bool, faces: seq<AtlasFace>)

  /** The runtime_errors Create throws. */
  datatype AtlasError = InvalidTileDimensions | OddLetterboxWidth | DuplicateCodepoint

  // ----- Source keys of glyphs -----

  /** The key of an explicit glyph. Only a Font glyph's codepoint enters the
      key; any other glyph's key has codepoint 0. */
  function GlyphKey(face: FaceLayout, g: GlyphLayout): SourceKey {
    SourceKey(g.sourceIndex, g.topLeft, face.letterboxed, g.source, if g.source == Font then g.codepoint else 0)
  }

  /** The key of a codepoint taken from the face's font. */
  function FontKey(face: FaceLayout, c: int): SourceKey {
    SourceKey(face.font, CellVector(0, 0), face.letterboxed, Font, c)
  }

  /** Two glyphs from the same place of the same source share a key when they
      are not font glyphs, or when they have the same codepoint. */
  lemma GlyphKeysShare(face: FaceLayout, g: GlyphLayout, h: GlyphLayout)
    requires g.sourceIndex == h.sourceIndex && g.source == h.source && g.topLeft == h.topLeft
    ensures GlyphKey(face, g) == GlyphKey(face, h) <==> g.source != Font || g.codepoint == h.codepoint
  {
  }

  // ----- The keys Create registers, in order -----

  /** The keys registered so far, and whether a repeated codepoint stopped the
      registration. */
  datatype Trace = Trace(keys: seq<SourceKey>, duplicate: bool)

  /** The codepoints of a face's explicit glyphs (found_codepoints). */
  function Claimed(gs: seq<GlyphLayout>): set<int> {
    set i | 0 <= i < |gs| :: gs[i].codepoint
  }

  /** The glyph loop: each glyph's key is registered, then the glyph's
      codepoint is checked against the codepoints seen before it. */
  function GlyphTrace(face: FaceLayout, gs: seq<GlyphLayout>): Trace
    decreases |gs|
  {
    if gs == [] then Trace([], false)
    else
      var t := GlyphTrace(face, gs[..|gs| - 1]);
      if t.duplicate then t
      else Trace(t.keys + [GlyphKey(face, gs[|gs| - 1])], gs[|gs| - 1].codepoint in Claimed(gs[..|gs| - 1]))
  }

  /** The font loop: a key for every font codepoint the explicit glyphs did
      not claim. */
  function FontKeys(face: FaceLayout, cps: seq<int>, claimed: set<int>): seq<SourceKey>
    decreases |cps|
  {
    if cps == [] then []
    else
      var c := cps[|cps| - 1];
      FontKeys(face, cps[..|cps| - 1], claimed) + (if c in claimed then [] else [FontKey(face, c)])
  }

  lemma FontKeysStep(face: FaceLayout, cps: seq<int>, claimed: set<int>, c: nat,
                     keys: seq<SourceKey>, before: seq<SourceKey>)
    requires c < |cps|
    requires before == keys + FontKeys(face, cps[..c], claimed)
    ensures cps[c] in claimed ==> before == keys + FontKeys(face, cps[..c + 1], claimed)
    ensures cps[c] !in claimed ==> before + [FontKey(face, cps[c])] == keys + FontKeys(face, cps[..c + 1], claimed)
  {
    assert cps[..c + 1][..c] == cps[..c];
  }

  /** The codepoints of the face's font. An index past the loaded fonts
      reads none: Create never reads it unless the face's explicit glyphs got
      through, and it requires such an index to be in range. */
  function FontCodepoints(face: FaceLayout, fontCodepoints: seq<seq<int>>): seq<int> {
    if face.font < |fontCodepoints| then fontCodepoints[face.font] else []
  }

  function FaceTrace(face: FaceLayout, fontCodepoints: seq<seq<int>>): Trace {
    var t := GlyphTrace(face, face.glyphs);
    if t.duplicate then t
    else Trace(t.keys + FontKeys(face, FontCodepoints(face, fontCodepoints), Claimed(face.glyphs)), false)
  }

  function FacesTrace(faces: seq<FaceLayout>, fontCodepoints: seq<seq<int>>): Trace
    decreases |faces|
  {
    if faces == [] then Trace([], false)
    else
      var t := FacesTrace(faces[..|faces| - 1], fontCodepoints);
      if t.duplicate then t
      else
        var u := FaceTrace(faces[|faces| - 1], fontCodepoints);
        Trace(t.keys + u.keys, u.duplicate)
  }

  // ----- Properties of the traces -----

  /** Some codepoint occurs twice among the glyphs. */
  predicate Repeats(gs: seq<GlyphLayout>) {
    exists i, j :: 0 <= i < j < |gs| && gs[i].codepoint == gs[j].codepoint
  }

  lemma ClaimedStep(gs: seq<GlyphLayout>, i: nat)
    requires i < |gs|
    ensures Claimed(gs[..i + 1]) == Claimed(gs[..i]) + {gs[i].codepoint}
  {
    var front, next := gs[..i], gs[..i + 1];
    forall c | c in Claimed(next)
      ensures c in Claimed(front) + {gs[i].codepoint}
    {
      var k :| 0 <= k < |next| && next[k].codepoint == c;
      if k < i {
        assert front[k] == next[k];
      }
    }
    forall c | c in Claimed(front)
      ensures c in Claimed(next)
    {
      var k :| 0 <= k < i && front[k].codepoint == c;
      assert next[k] == front[k];
    }
  }

  /** One more glyph of the loop, while it has not thrown. */
  lemma GlyphTraceStep(face: FaceLayout, gs: seq<GlyphLayout>, i: nat, keys: seq<SourceKey>, before: seq<SourceKey>)
    requires i < |gs| && !GlyphTrace(face, gs[..i]).duplicate
    requires before == keys + GlyphTrace(face, gs[..i]).keys
    ensures GlyphTrace(face, gs[..i + 1]).keys == GlyphTrace(face, gs[..i]).keys + [GlyphKey(face, gs[i])]
    ensures before + [GlyphKey(face, gs[i])] == keys + GlyphTrace(face, gs[..i + 1]).keys
    ensures GlyphTrace(face, gs[..i + 1]).duplicate <==> gs[i].codepoint in Claimed(gs[..i])
  {
    assert gs[..i + 1][..i] == gs[..i];
  }

  /** Once the glyph loop has stopped it registers nothing more. */
  lemma {:induction false} GlyphTraceStops(face: FaceLayout, gs: seq<GlyphLayout>, n: nat)
    requires n <= |gs| && GlyphTrace(face, gs[..n]).duplicate
    ensures GlyphTrace(face, gs) == GlyphTrace(face, gs[..n])
    decreases |gs| - n
  {
    if n < |gs| {
      var m := |gs| - 1;
      assert gs[..m][..n] == gs[..n];
      GlyphTraceStops(face, gs[..m], n);
    } else {
      assert gs[..n] == gs;
    }
  }

  /** The glyph loop throws exactly when a codepoint repeats among the face's
      glyphs. */
  lemma {:induction false} GlyphTraceDuplicate(face: FaceLayout, gs: seq<GlyphLayout>)
    ensures GlyphTrace(face, gs).duplicate <==> Repeats(gs)
    decreases |gs|
  {
    if gs != [] {
      var n := |gs| - 1;
      var front := gs[..n];
      GlyphTraceDuplicate(face, front);
      if Repeats(front) {
        var i, j :| 0 <= i < j < |front| && front[i].codepoint == front[j].codepoint;
        assert gs[i].codepoint == gs[j].codepoint;
      } else if gs[n].codepoint in Claimed(front) {
        var i :| 0 <= i < n && front[i].codepoint == gs[n].codepoint;
        assert gs[i].codepoint == gs[n].codepoint;
      } else {
        forall i, j | 0 <= i < j < |gs|
          ensures gs[i].codepoint != gs[j].codepoint
        {
          assert front[i] == gs[i];
          if j < n {
            assert front[j] == gs[j];
          } else {
            assert front[i].codepoint in Claimed(front);
          }
        }
      }
    }
  }

  /** Until it throws, the glyph loop registers every glyph's key in order. */
  lemma {:induction false} GlyphTraceKeys(face: FaceLayout, gs: seq<GlyphLayout>)
    ensures var t := GlyphTrace(face, gs);
      && |t.keys| <= |gs|
      && (forall i :: 0 <= i < |t.keys| ==> t.keys[i] == GlyphKey(face, gs[i]))
      && (!t.duplicate ==> |t.keys| == |gs|)
    decreases |gs|
  {
    if gs != [] {
      var n := |gs| - 1;
      GlyphTraceKeys(face, gs[..n]);
      var t := GlyphTrace(face, gs[..n]);
      forall i | 0 <= i < |t.keys|
        ensures t.keys[i] == GlyphKey(face, gs[i])
      {
        assert gs[..n][i] == gs[i];
      }
    }
  }

  /** When the glyph loop throws, the glyph that repeated a codepoint already
      has its key registered: it is the last key. */
  lemma {:induction false} GlyphTraceThrowsLast(face: FaceLayout, gs: seq<GlyphLayout>)
    ensures var t := GlyphTrace(face, gs);
      t.duplicate ==> 0 < |t.keys| <= |gs| && gs[|t.keys| - 1].codepoint in Claimed(gs[..|t.keys| - 1])
    decreases |gs|
  {
    if gs != [] {
      var n := |gs| - 1;
      GlyphTraceThrowsLast(face, gs[..n]);
      GlyphTraceKeys(face, gs[..n]);
      var t := GlyphTrace(face, gs[..n]);
      if t.duplicate {
        assert gs[..n][..|t.keys| - 1] == gs[..|t.keys| - 1];
        assert gs[..n][|t.keys| - 1] == gs[|t.keys| - 1];
      }
    }
  }

  /** The font loop adds the key of a codepoint exactly when the font has it
      and the explicit glyphs did not claim it. */
  lemma {:induction false} FontKeysCover(face: FaceLayout, cps: seq<int>, claimed: set<int>, c: int)
    ensures FontKey(face, c) in FontKeys(face, cps, claimed) <==> c in cps && c !in claimed
    decreases |cps|
  {
    if cps != [] {
      var n := |cps| - 1;
      FontKeysCover(face, cps[..n], claimed, c);
      assert cps == cps[..n] + [cps[n]];
    }
  }

  /** Once a face has thrown, no later face registers anything. */
  lemma {:induction false} FacesTraceStops(faces: seq<FaceLayout>, fontCodepoints: seq<seq<int>>, n: nat)
    requires n <= |faces| && FacesTrace(faces[..n], fontCodepoints).duplicate
    ensures FacesTrace(faces, fontCodepoints) == FacesTrace(faces[..n], fontCodepoints)
    decreases |faces| - n
  {
    if n < |faces| {
      var m := |faces| - 1;
      assert faces[..m][..n] == faces[..n];
      FacesTraceStops(faces[..m], fontCodepoints, n);
    } else {
      assert faces[..n] == faces;
    }
  }

  lemma TakeWhole<T>(s: seq<T>, n: nat)
    requires n == |s|
    ensures s[..n] == s
  {
  }

  lemma ConcatAssociative(a: seq<SourceKey>, b: seq<SourceKey>, c: seq<SourceKey>)
    ensures a + (b + c) == (a + b) + c
  {
  }

  /** One more face, while none has thrown yet. */
  lemma FacesTraceStep(faces: seq<FaceLayout>, fontCodepoints: seq<seq<int>>, f: nat, prev: seq<SourceKey>)
    requires f < |faces|
    requires !FacesTrace(faces[..f], fontCodepoints).duplicate
    requires prev == FacesTrace(faces[..f], fontCodepoints).keys
    ensures FacesTrace(faces[..f + 1], fontCodepoints)
      == Trace(prev + FaceTrace(faces[f], fontCodepoints).keys, FaceTrace(faces[f], fontCodepoints).duplicate)
  {
    assert faces[..f + 1][..f] == faces[..f];
  }

  /** A face whose explicit glyphs do not throw registers them, then its
      font's unclaimed codepoints. */
  lemma FaceTraceKeys(face: FaceLayout, fontCodepoints: seq<seq<int>>)
    requires !GlyphTrace(face, face.glyphs).duplicate
    ensures !FaceTrace(face, fontCodepoints).duplicate
    ensures FaceTrace(face, fontCodepoints).keys
      == GlyphTrace(face, face.glyphs).keys + FontKeys(face, FontCodepoints(face, fontCodepoints), Claimed(face.glyphs))
  {
  }

  /** Some face repeats a codepoint among its explicit glyphs. */
  predicate SomeFaceRepeats(faces: seq<FaceLayout>) {
    exists f :: 0 <= f < |faces| && Repeats(faces[f].glyphs)
  }

  lemma SomeFaceRepeatsGrows(faces: seq<FaceLayout>)
    requires faces != []
    ensures SomeFaceRepeats(faces) <==>
      SomeFaceRepeats(faces[..|faces| - 1]) || Repeats(faces[|faces| - 1].glyphs)
  {
    var n := |faces| - 1;
    if SomeFaceRepeats(faces[..n]) {
      var f :| 0 <= f < n && Repeats(faces[..n][f].glyphs);
      assert faces[f] == faces[..n][f];
    }
    if SomeFaceRepeats(faces) {
      var f :| 0 <= f < |faces| && Repeats(faces[f].glyphs);
      if f < n {
        assert faces[..n][f] == faces[f];
      }
    }
  }

  /** Create throws for a repeated codepoint exactly when some face repeats
      one among its explicit glyphs. */
  lemma {:induction false} FacesTraceDuplicate(faces: seq<FaceLayout>, fontCodepoints: seq<seq<int>>)
    ensures FacesTrace(faces, fontCodepoints).duplicate <==> SomeFaceRepeats(faces)
    decreases |faces|
  {
    if faces != [] {
      var n := |faces| - 1;
      FacesTraceDuplicate(faces[..n], fontCodepoints);
      GlyphTraceDuplicate(faces[n], faces[n].glyphs);
      SomeFaceRepeatsGrows(faces);
    }
  }

  /** Create reads the font of face f (font_sources[face_layout.font]) only
      when no face up to and including f repeats a codepoint among its
      explicit glyphs; those indices, and no others, must be in range. */
  predicate FontsReached(faces: seq<FaceLayout>, fontCodepoints: seq<seq<int>>) {
    forall f :: 0 <= f < |faces| && !SomeFaceRepeats(faces[..f + 1]) ==> faces[f].font < |fontCodepoints|
  }

  /** While no face has thrown, a face whose explicit glyphs get through
      names a font in range. */
  lemma FontReached(faces: seq<FaceLayout>, fontCodepoints: seq<seq<int>>, f: nat)
    requires FontsReached(faces, fontCodepoints) && f < |faces|
    requires !FacesTrace(faces[..f], fontCodepoints).duplicate
    ensures !GlyphTrace(faces[f], faces[f].glyphs).duplicate ==> faces[f].font < |fontCodepoints|
  {
    FacesTraceDuplicate(faces[..f], fontCodepoints);
    GlyphTraceDuplicate(faces[f], faces[f].glyphs);
    assert faces[..f + 1][..f] == faces[..f];
    SomeFaceRepeatsGrows(faces[..f + 1]);
  }

  // ----- The registry: source_vector and glyph_identifiers -----

  datatype Registry = Registry(sources: seq<SourceKey>, glyphs: seq<nat>)

  /** The first position of `k`. */
  function IndexOf(s: seq<SourceKey>, k: SourceKey): (i: nat)
    requires k in s
    ensures i < |s| && s[i] == k
  {
    if s[0] == k then 0 else 1 + IndexOf(s[1..], k)
  }

  /** One glyph: a key already present reuses its identifier; a new key
      takes the next identifier. */
  function Register(r: Registry, k: SourceKey): Registry {
    if k in r.sources then Registry(r.sources, r.glyphs + [IndexOf(r.sources, k)])
    else Registry(r.sources + [k], r.glyphs + [|r.sources|])
  }

  function RegisterAll(keys: seq<SourceKey>): Registry
    decreases |keys|
  {
    if keys == [] then Registry([], [])
    else Register(RegisterAll(keys[..|keys| - 1]), keys[|keys| - 1])
  }

  predicate Distinct(s: seq<SourceKey>) {
    forall i, j :: 0 <= i < j < |s| ==> s[i] != s[j]
  }

  lemma IndexOfDistinct(s: seq<SourceKey>, i: nat)
    requires Distinct(s) && i < |s|
    ensures IndexOf(s, s[i]) == i
  {
  }

  /** Each glyph's identifier names the glyph's own key. */
  predicate Identifies(r: Registry, keys: seq<SourceKey>) {
    && |r.glyphs| == |keys|
    && forall j :: 0 <= j < |keys| ==> r.glyphs[j] < |r.sources| && r.sources[r.glyphs[j]] == keys[j]
  }

  lemma RegisterIdentifies(r: Registry, keys: seq<SourceKey>, k: SourceKey)
    requires Identifies(r, keys)
    ensures Identifies(Register(r, k), keys + [k])
  {
    var r' := Register(r, k);
    forall j | 0 <= j < |keys|
      ensures r'.glyphs[j] < |r'.sources| && r'.sources[r'.glyphs[j]] == (keys + [k])[j]
    {
      assert r'.glyphs[j] == r.glyphs[j];
      assert r'.sources[r.glyphs[j]] == r.sources[r.glyphs[j]];
    }
  }

  /** No key is stored twice. */
  lemma {:induction false} RegisterAllDistinct(keys: seq<SourceKey>)
    ensures Distinct(RegisterAll(keys).sources)
    decreases |keys|
  {
    if keys != [] {
      RegisterAllDistinct(keys[..|keys| - 1]);
    }
  }

  /** Every glyph has an identifier, and the identifier names the glyph's own
      key. */
  lemma {:induction false} RegisterAllIdentifies(keys: seq<SourceKey>)
    ensures Identifies(RegisterAll(keys), keys)
    decreases |keys|
  {
    if keys != [] {
      var n := |keys| - 1;
      RegisterAllIdentifies(keys[..n]);
      RegisterIdentifies(RegisterAll(keys[..n]), keys[..n], keys[n]);
      assert keys[..n] + [keys[n]] == keys;
    }
  }

  lemma RegisterAllSound(keys: seq<SourceKey>)
    ensures var r := RegisterAll(keys);
      && |r.glyphs| == |keys|
      && Distinct(r.sources)
      && (forall j :: 0 <= j < |keys| ==> r.glyphs[j] < |r.sources| && r.sources[r.glyphs[j]] == keys[j])
  {
    RegisterAllDistinct(keys);
    RegisterAllIdentifies(keys);
  }

  /** The stored keys are exactly the glyphs' keys. */
  lemma {:induction false} RegisterAllSources(keys: seq<SourceKey>)
    ensures forall k :: k in RegisterAll(keys).sources <==> k in keys
    decreases |keys|
  {
    if keys != [] {
      var n := |keys| - 1;
      RegisterAllSources(keys[..n]);
      assert keys == keys[..n] + [keys[n]];
    }
  }

  /** In a sequence without duplicates, equal elements sit at one index. */
  lemma DistinctIndex(s: seq<SourceKey>, i: nat, j: nat)
    requires Distinct(s) && i < |s| && j < |s| && s[i] == s[j]
    ensures i == j
  {
  }

  lemma SharedIdentifier(r: Registry, keys: seq<SourceKey>, a: nat, b: nat)
    requires Identifies(r, keys) && Distinct(r.sources) && a < |keys| && b < |keys|
    ensures r.glyphs[a] == r.glyphs[b] <==> keys[a] == keys[b]
  {
    if keys[a] == keys[b] {
      DistinctIndex(r.sources, r.glyphs[a], r.glyphs[b]);
    }
  }

  /** Two glyphs share a box exactly when their keys are equal. */
  lemma GlyphsShareBox(keys: seq<SourceKey>, a: nat, b: nat)
    requires a < |keys| && b < |keys|
    ensures |RegisterAll(keys).glyphs| == |keys|
    ensures RegisterAll(keys).glyphs[a] == RegisterAll(keys).glyphs[b] <==> keys[a] == keys[b]
  {
    RegisterAllIdentifies(keys);
    RegisterAllDistinct(keys);
    SharedIdentifier(RegisterAll(keys), keys, a, b);
  }

  // ----- Pack boxes -----

  /** The box width of a face: half the tile for a letterboxed face. */
  function BoxWidth(tileWidth: int, letterboxed: bool): int {
    if letterboxed then tileWidth / 2 else tileWidth
  }

  /** The boxes allocated for the stored keys, box i for key i. */
  function Boxes(sources: seq<SourceKey>, tileWidth: int, tileHeight: int): (bs: seq<PackBox>)
    ensures |bs| == |sources| && Numbered(bs)
  {
    seq(|sources|, i requires 0 <= i < |sources| => NewBox(i, BoxWidth(tileWidth, sources[i].letterboxed), tileHeight))
  }

  lemma BoxesGrow(sources: seq<SourceKey>, k: SourceKey, tileWidth: int, tileHeight: int)
    ensures Boxes(sources + [k], tileWidth, tileHeight)
      == Boxes(sources, tileWidth, tileHeight) + [NewBox(|sources|, BoxWidth(tileWidth, k.letterboxed), tileHeight)]
  {
    var l := Boxes(sources + [k], tileWidth, tileHeight);
    var r := Boxes(sources, tileWidth, tileHeight) + [NewBox(|sources|, BoxWidth(tileWidth, k.letterboxed), tileHeight)];
    forall i | 0 <= i < |l|
      ensures l[i] == r[i]
    {
      if i < |sources| {
        assert (sources + [k])[i] == sources[i];
      }
    }
  }

  // ----- What Create produces -----

  predicate HasLetterboxedFace(faces: seq<FaceLayout>) {
    exists f :: 0 <= f < |faces| && faces[f].letterboxed
  }

  function FaceFlags(faces: seq<FaceLayout>): (r: seq<AtlasFace>)
    ensures |r| == |faces|
    ensures forall f :: 0 <= f < |faces| ==> r[f].letterboxed == faces[f].letterboxed
  {
    seq(|faces|, f requires 0 <= f < |faces| => AtlasFace(faces[f].letterboxed))
  }

  lemma FaceFlagsStep(faces: seq<FaceLayout>, f: nat, flags: seq<AtlasFace>)
    requires f < |faces|
    requires flags == FaceFlags(faces[..f]) + [AtlasFace(faces[f].letterboxed)]
    ensures flags == FaceFlags(faces[..f + 1])
  {
  }

  /** Create gets past validation and allocates boxes. */
  predicate Validated(layout: Layout) {
    && layout.tileWidth > 0 && layout.tileHeight > 0
    && layout.faces != []
    && !(HasLetterboxedFace(layout.faces) && layout.tileWidth % 2 != 0)
  }

  /** The atlas Create returns, or the error it throws. */
  function Expected(layout: Layout, fontCodepoints: seq<seq<int>>): Result<Atlas, AtlasError>
  {
    if layout.tileWidth <= 0 || layout.tileHeight <= 0 then Err(InvalidTileDimensions)
    else if layout.faces == [] then Ok(Atlas(layout.tileWidth, layout.tileHeight, false, []))
    else if HasLetterboxedFace(layout.faces) && layout.tileWidth % 2 != 0 then Err(OddLetterboxWidth)
    else if FacesTrace(layout.faces, fontCodepoints).duplicate then Err(DuplicateCodepoint)
    else Ok(Atlas(layout.tileWidth, layout.tileHeight, HasLetterboxedFace(layout.faces), FaceFlags(layout.faces)))
  }

  /** The registry Create builds before packing. */
  function Registered(layout: Layout, fontCodepoints: seq<seq<int>>): Registry
  {
    RegisterAll(FacesTrace(layout.faces, fontCodepoints).keys)
  }

  /** The errors, each exactly when the source throws it: invalid tile sizes,
      an odd tile width with a letterboxed face, and a codepoint repeated in a
      face. Otherwise the atlas has one face per layout face. */
  lemma ExpectedMeaning(layout: Layout, fontCodepoints: seq<seq<int>>)
    ensures Expected(layout, fontCodepoints) == Err(InvalidTileDimensions) <==> layout.tileWidth <= 0 || layout.tileHeight <= 0
    ensures Expected(layout, fontCodepoints) == Err(OddLetterboxWidth) <==>
      && layout.tileWidth > 0 && layout.tileHeight > 0
      && (exists f :: 0 <= f < |layout.faces| && layout.faces[f].letterboxed)
      && layout.tileWidth % 2 == 1
    ensures Expected(layout, fontCodepoints) == Err(DuplicateCodepoint) <==>
      && layout.tileWidth > 0 && layout.tileHeight > 0
      && !(HasLetterboxedFace(layout.faces) && layout.tileWidth % 2 != 0)
      && SomeFaceRepeats(layout.faces)
    ensures Expected(layout, fontCodepoints).Ok? ==>
      var a := Expected(layout, fontCodepoints).value;
      && a.tileWidth == layout.tileWidth && a.tileHeight == layout.tileHeight
      && |a.faces| == |layout.faces|
      && (a.hasLetterboxing <==> exists f :: 0 <= f < |layout.faces| && layout.faces[f].letterboxed)
  {
    FacesTraceDuplicate(layout.faces, fontCodepoints);
  }

  /** A face naming a font that was never loaded is harmless when an
      earlier face throws first: with no fonts at all, a first face that
      repeats a codepoint and a second face naming font 3, Create may be
      called and throws for the repeat. */
  lemma ThrowBeforeFontRead(g: GlyphLayout)
    ensures var layout := Layout([], [], 8, 8, [FaceLayout(false, 0, [g, g]), FaceLayout(false, 3, [])]);
      && FontsReached(layout.faces, [])
      && Expected(layout, []) == Err(DuplicateCodepoint)
  {
    var faces := [FaceLayout(false, 0, [g, g]), FaceLayout(false, 3, [])];
    assert Repeats(faces[0].glyphs) by {
      assert faces[0].glyphs[0].codepoint == faces[0].glyphs[1].codepoint;
    }
    assert faces[..1][0] == faces[0] && faces[..2][0] == faces[0];
    assert SomeFaceRepeats(faces[..1]) && SomeFaceRepeats(faces[..2]);
    FacesTraceDuplicate(faces, []);
  }

  /** has_letterboxing: whether any face is letterboxed. */
  method LetterboxFlag(faces: seq<FaceLayout>) returns (has: bool)
    ensures has <==> exists f :: 0 <= f < |faces| && faces[f].letterboxed
  {
    has := false;
    var f := 0;
    while f < |faces|
      invariant 0 <= f <= |faces|
      invariant has <==> exists g :: 0 <= g < f && faces[g].letterboxed
    {
      if faces[f].letterboxed {
        has := true;
      }
      f := f + 1;
    }
  }

  /** source_map sends every stored key, and nothing else, to its index in
      source_vector. */
  ghost predicate MapIndexes(sourceMap: map<SourceKey, nat>, sourceVector: seq<SourceKey>) {
    && (forall k :: k in sourceMap <==> k in sourceVector)
    && (forall k | k in sourceMap :: sourceMap[k] < |sourceVector| && sourceVector[sourceMap[k]] == k)
  }

  class ConsoleAtlasFactory {
    /** The PNG images, by the path each is loaded from. */
    var pngImages: seq<string>
    /** The font sources, by path. */
    var fontSources: seq<string>
    var packBoxes: seq<PackBox>
    var glyphIdentifiers: seq<nat>

    constructor ()
      ensures pngImages == [] && fontSources == [] && packBoxes == [] && glyphIdentifiers == []
    {
      pngImages := [];
      fontSources := [];
      packBoxes := [];
      glyphIdentifiers := [];
    }

    /** The registry after `keys`: source_vector with its glyph identifiers,
        one box per stored key, and source_map sending each stored key to its
        index. */
    ghost predicate Tracks(tileWidth: int, tileHeight: int, sourceMap: map<SourceKey, nat>,
                           sourceVector: seq<SourceKey>, keys: seq<SourceKey>)
      reads this
    {
      && packBoxes == Boxes(sourceVector, tileWidth, tileHeight)
      && MapIndexes(sourceMap, sourceVector)
    }

    /** One glyph's lookup in source_map: reuse the key's identifier, or
        allocate a box for a new key. */
    method AddGlyph(key: SourceKey, boxWidth: int, tileWidth: int, tileHeight: int,
                    sourceMap: map<SourceKey, nat>, sourceVector: seq<SourceKey>, ghost keys: seq<SourceKey>)
      returns (sourceMap': map<SourceKey, nat>, sourceVector': seq<SourceKey>)
      requires Tracks(tileWidth, tileHeight, sourceMap, sourceVector, keys)
      requires Registry(sourceVector, glyphIdentifiers) == RegisterAll(keys)
      requires boxWidth == BoxWidth(tileWidth, key.letterboxed)
      modifies this
      ensures Tracks(tileWidth, tileHeight, sourceMap', sourceVector', keys + [key])
      ensures Registry(sourceVector', glyphIdentifiers) == RegisterAll(keys + [key])
      ensures pngImages == old(pngImages) && fontSources == old(fontSources)
    {
      assert (keys + [key])[..|keys|] == keys;
      if key in sourceMap {
        RegisterAllSound(keys);
        IndexOfDistinct(sourceVector, sourceMap[key]);
        glyphIdentifiers := glyphIdentifiers + [sourceMap[key]];
        sourceMap', sourceVector' := sourceMap, sourceVector;
      } else {
        var actualSource := |packBoxes|;
        sourceMap' := sourceMap[key := actualSource];
        glyphIdentifiers := glyphIdentifiers + [actualSource];
        BoxesGrow(sourceVector, key, tileWidth, tileHeight);
        packBoxes := packBoxes + [NewBox(|packBoxes|, boxWidth, tileHeight)];
        sourceVector' := sourceVector + [key];
      }
    }

    /** The explicit glyphs of a face, each checked for a repeated codepoint
        after its box is allocated. */
    method AddExplicitGlyphs(face: FaceLayout, tileWidth: int, tileHeight: int,
                             sourceMap: map<SourceKey, nat>, sourceVector: seq<SourceKey>, ghost keys: seq<SourceKey>)
      returns (sourceMap': map<SourceKey, nat>, sourceVector': seq<SourceKey>, duplicate: bool,
               ghost keys': seq<SourceKey>)
      requires Tracks(tileWidth, tileHeight, sourceMap, sourceVector, keys)
      requires Registry(sourceVector, glyphIdentifiers) == RegisterAll(keys)
      modifies this
      ensures keys' == keys + GlyphTrace(face, face.glyphs).keys
      ensures duplicate == GlyphTrace(face, face.glyphs).duplicate
      ensures Tracks(tileWidth, tileHeight, sourceMap', sourceVector', keys')
      ensures Registry(sourceVector', glyphIdentifiers) == RegisterAll(keys')
      ensures pngImages == old(pngImages) && fontSources == old(fontSources)
    {
      var boxWidth := if face.letterboxed then tileWidth / 2 else tileWidth;
      var foundCodepoints: set<int> := {};
      sourceMap', sourceVector', keys' := sourceMap, sourceVector, keys;
      var i := 0;
      while i < |face.glyphs|
        invariant 0 <= i <= |face.glyphs|
        invariant foundCodepoints == Claimed(face.glyphs[..i])
        invariant !GlyphTrace(face, face.glyphs[..i]).duplicate
        invariant keys' == keys + GlyphTrace(face, face.glyphs[..i]).keys
        invariant Tracks(tileWidth, tileHeight, sourceMap', sourceVector', keys')
        invariant Registry(sourceVector', glyphIdentifiers) == RegisterAll(keys')
        invariant pngImages == old(pngImages) && fontSources == old(fontSources)
      {
        var glyph := face.glyphs[i];
        var key := GlyphKey(face, glyph);
        sourceMap', sourceVector' := AddGlyph(key, boxWidth, tileWidth, tileHeight, sourceMap', sourceVector', keys');
        ghost var before := keys';
        keys' := keys' + [key];
        GlyphTraceStep(face, face.glyphs, i, keys, before);
        ClaimedStep(face.glyphs, i);
        if glyph.codepoint in foundCodepoints {
          GlyphTraceStops(face, face.glyphs, i + 1);
          duplicate := true;
          return;
        }
        foundCodepoints := foundCodepoints + {glyph.codepoint};
        i := i + 1;
      }
      assert face.glyphs[..i] == face.glyphs;
      duplicate := false;
    }

    /** Codepoint `c` of the font: a box unless an explicit glyph claimed
        it. `keys` extends `base` by the keys of the codepoints before it. */
    method AddFontGlyph(face: FaceLayout, codepoints: seq<int>, c: nat, claimed: set<int>, boxWidth: int,
                        tileWidth: int, tileHeight: int, sourceMap: map<SourceKey, nat>, sourceVector: seq<SourceKey>,
                        ghost base: seq<SourceKey>, ghost keys: seq<SourceKey>)
      returns (sourceMap': map<SourceKey, nat>, sourceVector': seq<SourceKey>, ghost keys': seq<SourceKey>)
      requires c < |codepoints|
      requires keys == base + FontKeys(face, codepoints[..c], claimed)
      requires Tracks(tileWidth, tileHeight, sourceMap, sourceVector, keys)
      requires Registry(sourceVector, glyphIdentifiers) == RegisterAll(keys)
      requires boxWidth == BoxWidth(tileWidth, face.letterboxed)
      modifies this
      ensures keys' == base + FontKeys(face, codepoints[..c + 1], claimed)
      ensures Tracks(tileWidth, tileHeight, sourceMap', sourceVector', keys')
      ensures Registry(sourceVector', glyphIdentifiers) == RegisterAll(keys')
      ensures pngImages == old(pngImages) && fontSources == old(fontSources)
    {
      FontKeysStep(face, codepoints, claimed, c, base, keys);
      sourceMap', sourceVector', keys' := sourceMap, sourceVector, keys;
      var codepoint := codepoints[c];
      if codepoint !in claimed {
        var key := FontKey(face, codepoint);
        sourceMap', sourceVector' := AddGlyph(key, boxWidth, tileWidth, tileHeight, sourceMap, sourceVector, keys);
        keys' := keys + [key];
      }
    }

    /** The font codepoints the explicit glyphs left unclaimed. */
    method AddFontGlyphs(face: FaceLayout, codepoints: seq<int>, claimed: set<int>, tileWidth: int, tileHeight: int,
                         sourceMap: map<SourceKey, nat>, sourceVector: seq<SourceKey>, ghost keys: seq<SourceKey>)
      returns (sourceMap': map<SourceKey, nat>, sourceVector': seq<SourceKey>, ghost keys': seq<SourceKey>)
      requires Tracks(tileWidth, tileHeight, sourceMap, sourceVector, keys)
      requires Registry(sourceVector, glyphIdentifiers) == RegisterAll(keys)
      modifies this
      ensures keys' == keys + FontKeys(face, codepoints, claimed)
      ensures Tracks(tileWidth, tileHeight, sourceMap', sourceVector', keys')
      ensures Registry(sourceVector', glyphIdentifiers) == RegisterAll(keys')
      ensures pngImages == old(pngImages) && fontSources == old(fontSources)
    {
      var boxWidth := if face.letterboxed then tileWidth / 2 else tileWidth;
      sourceMap', sourceVector', keys' := sourceMap, sourceVector, keys;
      var c := 0;
      while c < |codepoints|
        invariant 0 <= c <= |codepoints|
        invariant keys' == keys + FontKeys(face, codepoints[..c], claimed)
        invariant Tracks(tileWidth, tileHeight, sourceMap', sourceVector', keys')
        invariant Registry(sourceVector', glyphIdentifiers) == RegisterAll(keys')
        invariant pngImages == old(pngImages) && fontSources == old(fontSources)
      {
        sourceMap', sourceVector', keys' :=
          AddFontGlyph(face, codepoints, c, claimed, boxWidth, tileWidth, tileHeight, sourceMap', sourceVector', keys, keys');
        c := c + 1;
      }
      TakeWhole(codepoints, c);
    }

    /** One face: its explicit glyphs, then the font's unclaimed codepoints. */
    method AddFace(face: FaceLayout, fontCodepoints: seq<seq<int>>, tileWidth: int, tileHeight: int,
                   sourceMap: map<SourceKey, nat>, sourceVector: seq<SourceKey>, ghost keys: seq<SourceKey>)
      returns (sourceMap': map<SourceKey, nat>, sourceVector': seq<SourceKey>, duplicate: bool,
               ghost keys': seq<SourceKey>)
      requires !GlyphTrace(face, face.glyphs).duplicate ==> face.font < |fontCodepoints|
      requires Tracks(tileWidth, tileHeight, sourceMap, sourceVector, keys)
      requires Registry(sourceVector, glyphIdentifiers) == RegisterAll(keys)
      modifies this
      ensures keys' == keys + FaceTrace(face, fontCodepoints).keys
      ensures duplicate == FaceTrace(face, fontCodepoints).duplicate
      ensures Tracks(tileWidth, tileHeight, sourceMap', sourceVector', keys')
      ensures Registry(sourceVector', glyphIdentifiers) == RegisterAll(keys')
      ensures pngImages == old(pngImages) && fontSources == old(fontSources)
    {
      sourceMap', sourceVector', duplicate, keys' := AddExplicitGlyphs(face, tileWidth, tileHeight, sourceMap, sourceVector, keys);
      if duplicate {
        assert FaceTrace(face, fontCodepoints) == GlyphTrace(face, face.glyphs);
      } else {
        ghost var glyphKeys := GlyphTrace(face, face.glyphs).keys;
        ghost var fontKeys := FontKeys(face, fontCodepoints[face.font], Claimed(face.glyphs));
        FaceTraceKeys(face, fontCodepoints);
        sourceMap', sourceVector', keys' :=
          AddFontGlyphs(face, fontCodepoints[face.font], Claimed(face.glyphs), tileWidth, tileHeight, sourceMap', sourceVector', keys');
        ConcatAssociative(keys, glyphKeys, fontKeys);
      }
    }

    /** The faces in order, until one throws; `flags` is the atlas's faces
        vector, one entry pushed per face before its glyphs. */
    method AddFaces(faces: seq<FaceLayout>, fontCodepoints: seq<seq<int>>, tileWidth: int, tileHeight: int)
      returns (flags: seq<AtlasFace>, sourceVector: seq<SourceKey>, duplicate: bool, ghost keys: seq<SourceKey>)
      requires FontsReached(faces, fontCodepoints)
      requires packBoxes == [] && glyphIdentifiers == []
      modifies this
      ensures keys == FacesTrace(faces, fontCodepoints).keys
      ensures duplicate == FacesTrace(faces, fontCodepoints).duplicate
      ensures !duplicate ==> flags == FaceFlags(faces)
      ensures Registry(sourceVector, glyphIdentifiers) == RegisterAll(keys)
      ensures packBoxes == Boxes(sourceVector, tileWidth, tileHeight)
      ensures pngImages == old(pngImages) && fontSources == old(fontSources)
    {
      flags := [];
      var sourceMap: map<SourceKey, nat> := map[];
      sourceVector := [];
      keys := [];
      var f := 0;
      while f < |faces|
        invariant 0 <= f <= |faces|
        invariant !FacesTrace(faces[..f], fontCodepoints).duplicate
        invariant keys == FacesTrace(faces[..f], fontCodepoints).keys
        invariant Tracks(tileWidth, tileHeight, sourceMap, sourceVector, keys)
        invariant Registry(sourceVector, glyphIdentifiers) == RegisterAll(keys)
        invariant flags == FaceFlags(faces[..f])
        invariant pngImages == old(pngImages) && fontSources == old(fontSources)
      {
        var face := faces[f];
        flags := flags + [AtlasFace(face.letterboxed)];
        ghost var before := keys;
        FacesTraceStep(faces, fontCodepoints, f, before);
        FontReached(faces, fontCodepoints, f);
        sourceMap, sourceVector, duplicate, keys := AddFace(face, fontCodepoints, tileWidth, tileHeight, sourceMap, sourceVector, keys);
        if duplicate {
          FacesTraceStops(faces, fontCodepoints, f + 1);
          return;
        }
        FaceFlagsStep(faces, f, flags);
        f := f + 1;
      }
      assert faces[..f] == faces;
      duplicate := false;
    }

    /** Create: clear the members, validate, register every face's glyphs,
        pack the boxes and sort them back by identifier. `sources` is the
        source_vector the blit loop pairs with the boxes. */
    method Create(layout: Layout, fontCodepoints: seq<seq<int>>, pack: Packer)
      returns (result: Result<Atlas, AtlasError>, sources: seq<SourceKey>)
      requires Validated(layout) ==> FontsReached(layout.faces, fontCodepoints)
      requires IsPacker(pack)
      modifies this
      ensures result == Expected(layout, fontCodepoints)
      ensures !Validated(layout) ==>
        pngImages == [] && fontSources == [] && packBoxes == [] && glyphIdentifiers == [] && sources == []
      ensures Validated(layout) ==>
        && pngImages == layout.pngSources && fontSources == layout.fontSources
        && sources == Registered(layout, fontCodepoints).sources
        && glyphIdentifiers == Registered(layout, fontCodepoints).glyphs
      ensures Validated(layout) && result.Err? ==> packBoxes == Boxes(sources, layout.tileWidth, layout.tileHeight)
      ensures Validated(layout) && result.Ok? ==>
        && packBoxes == SortById(pack(Boxes(sources, layout.tileWidth, layout.tileHeight)), true)
        && |packBoxes| == |sources|
        && forall i :: 0 <= i < |packBoxes| ==>
             packBoxes[i].identifier == i &&
             ShapeOf(packBoxes[i]) == BoxShape(i, BoxWidth(layout.tileWidth, sources[i].letterboxed), layout.tileHeight)
    {
      pngImages := [];
      fontSources := [];
      packBoxes := [];
      glyphIdentifiers := [];
      sources := [];
      var tileWidth, tileHeight := layout.tileWidth, layout.tileHeight;
      if tileWidth <= 0 || tileHeight <= 0 {
        return Err(InvalidTileDimensions), sources;
      }
      if layout.faces == [] {
        return Ok(Atlas(tileWidth, tileHeight, false, [])), sources;
      }
      var hasLetterboxing := LetterboxFlag(layout.faces);
      if hasLetterboxing && tileWidth % 2 != 0 {
        return Err(OddLetterboxWidth), sources;
      }
      pngImages := layout.pngSources;
      fontSources := layout.fontSources;
      var faces, sourceVector, duplicate, keys := AddFaces(layout.faces, fontCodepoints, tileWidth, tileHeight);
      if duplicate {
        return Err(DuplicateCodepoint), sourceVector;
      }
      var built := packBoxes;
      packBoxes := pack(packBoxes);
      packBoxes := SortById(packBoxes, true);
      SortedPackedBoxes(built, pack(built), true);
      sources := sourceVector;
      result := Ok(Atlas(tileWidth, tileHeight, hasLetterboxing, faces));
    }
  }
}
