/** rl::console_atlas::Create, the older atlas builder: validate the tile
    size and the letterbox flags, allocate one pack box per glyph, pack and
    sort the boxes, then take one box per glyph in layout order and blit the
    glyph's picture into it. The atlas image itself is not modelled; the
    atlas records the blits it receives, in order. */
module ConsoleAtlases {
  import opened Wrappers
  import opened SourceKeys
  import opened PackBoxes

  /** console_atlas::layout::glyph */
  datatype GlyphLayout = GlyphLayout(sourceIndex: nat, source: Source, topLeft: Option<CellVector>, codepoint: Option<nat>)

  /** console_atlas::layout::face */
  datatype FaceLayout = FaceLayout(letterboxedWide: bool, letterboxedTall: bool, glyphs: seq<GlyphLayout>)

  /** console_atlas::layout; the bitmap sources are named by their index. */
  datatype Layout = Layout(
    pngSources: seq<string>,
    fontSources: seq<string>,
    tileWidth: int,
    tileHeight: int,
    faces: seq<FaceLayout>)

  /** console_atlas::face, without the texture coordinates (never assigned)
      and the codepoint map (never filled). */
  datatype AtlasFace = AtlasFace(letterboxedWide: bool, letterboxedTall: bool)

  /** What a glyph blits: a whole bitmap or PNG source, a view of one cropped
      at the glyph's top left to the box size, or a font character rendered
      at the box size. */
  datatype Picture =
    | WholeSource(source: Source, sourceIndex: nat)
    | CroppedSource(source: Source, sourceIndex: nat, x: nat, y: nat, width: nat, height: nat)
    | Character(fontIndex: nat, codepoint: nat, pixelWidth: int, pixelHeight: int)

  /** atlas.image.Blit(picture, x, y, page) */
  datatype Blit = Blit(picture: Picture, x: nat, y: nat, page: nat)

  datatype Atlas = Atlas(
    tileWidth: int,
    tileHeight: int,
    hasLetterboxingWide: bool,
    hasLetterboxingTall: bool,
    faces: seq<AtlasFace>,
    blits: seq<Blit>)

  /** The exceptions Create lets escape: the two runtime_errors it throws,
      and std::bad_optional_access from a font glyph without a codepoint. */
  datatype AtlasError = InvalidTileDimensions | OddLetterboxDimension | MissingCodepoint

  /** static_cast<std::size_t> of an int: two's complement wrap-around. */
  const SizeModulus: int := 0x1_0000_0000_0000_0000

  function ToSize(v: int): (r: nat)
    ensures r < SizeModulus
    ensures 0 <= v < SizeModulus ==> r == v
  {
    v % SizeModulus
  }

  // ----- Validation -----

  predicate HasWide(faces: seq<FaceLayout>) {
    exists f :: 0 <= f < |faces| && faces[f].letterboxedWide
  }

  predicate HasTall(faces: seq<FaceLayout>) {
    exists f :: 0 <= f < |faces| && faces[f].letterboxedTall
  }

  /** What Create returns before it allocates any box: the error for bad
      tile dimensions or an odd letterboxed dimension, or the bare atlas
      for a layout without faces. */
  function EarlyExit(layout: Layout): Option<Result<Atlas, AtlasError>> {
    if layout.tileWidth <= 0 || layout.tileHeight <= 0 then Some(Err(InvalidTileDimensions))
    else if layout.faces == [] then Some(Ok(Atlas(layout.tileWidth, layout.tileHeight, false, false, [], [])))
    else if (HasWide(layout.faces) && layout.tileWidth % 2 != 0) || (HasTall(layout.faces) && layout.tileHeight % 2 != 0)
    then Some(Err(OddLetterboxDimension))
    else None
  }

  /** The first loop: each letterbox flag of the atlas is the OR of the
      faces' flags. */
  method LetterboxFlags(faces: seq<FaceLayout>) returns (wide: bool, tall: bool)
    ensures wide <==> HasWide(faces)
    ensures tall <==> HasTall(faces)
  {
    wide, tall := false, false;
    var f := 0;
    while f < |faces|
      invariant 0 <= f <= |faces|
      invariant wide <==> exists g :: 0 <= g < f && faces[g].letterboxedWide
      invariant tall <==> exists g :: 0 <= g < f && faces[g].letterboxedTall
    {
      if faces[f].letterboxedWide {
        wide := true;
      }
      if faces[f].letterboxedTall {
        tall := true;
      }
      f := f + 1;
    }
  }

  // ----- Boxes -----

  /** A glyph together with its face's letterbox flags. */
  datatype Slot = Slot(wide: bool, tall: bool, glyph: GlyphLayout)

  function FaceSlots(face: FaceLayout): (r: seq<Slot>)
    ensures |r| == |face.glyphs|
    ensures forall g :: 0 <= g < |r| ==> r[g] == Slot(face.letterboxedWide, face.letterboxedTall, face.glyphs[g])
  {
    seq(|face.glyphs|, g requires 0 <= g < |face.glyphs| => Slot(face.letterboxedWide, face.letterboxedTall, face.glyphs[g]))
  }

  /** Every glyph of the layout, face by face, in the order both glyph loops
      visit them. */
  function Slots(faces: seq<FaceLayout>): seq<Slot>
    decreases |faces|
  {
    if faces == [] then [] else Slots(faces[..|faces| - 1]) + FaceSlots(faces[|faces| - 1])
  }

  /** The sum of the faces' glyph counts (pack_boxes_capacity). */
  function GlyphCount(faces: seq<FaceLayout>): nat
    decreases |faces|
  {
    if faces == [] then 0 else GlyphCount(faces[..|faces| - 1]) + |faces[|faces| - 1].glyphs|
  }

  /** One slot per glyph: the box count is the sum of the glyph counts. */
  lemma {:induction false} SlotsCount(faces: seq<FaceLayout>)
    ensures |Slots(faces)| == GlyphCount(faces)
    decreases |faces|
  {
    if faces != [] {
      SlotsCount(faces[..|faces| - 1]);
    }
  }

  lemma SlotsStep(faces: seq<FaceLayout>, f: nat)
    requires f < |faces|
    ensures Slots(faces[..f + 1]) == Slots(faces[..f]) + FaceSlots(faces[f])
    ensures GlyphCount(faces[..f + 1]) == GlyphCount(faces[..f]) + |faces[f].glyphs|
  {
    assert faces[..f + 1][..f] == faces[..f];
  }

  /** A prefix of the faces has no more glyphs than all of them. */
  lemma {:induction false} GlyphCountPrefix(faces: seq<FaceLayout>, n: nat)
    requires n <= |faces|
    ensures GlyphCount(faces[..n]) <= GlyphCount(faces)
    decreases |faces| - n
  {
    if n < |faces| {
      var m := |faces| - 1;
      assert faces[..m][..n] == faces[..n];
      GlyphCountPrefix(faces[..m], n);
      assert faces[..|faces|] == faces;
    } else {
      assert faces[..n] == faces;
    }
  }

  /** A face's tile size: halved in a direction it is letterboxed in. */
  function BoxWidth(tileWidth: int, wide: bool): int {
    if wide then tileWidth / 2 else tileWidth
  }

  function BoxHeight(tileHeight: int, tall: bool): int {
    if tall then tileHeight / 2 else tileHeight
  }

  /** The boxes allocated for the slots: box j for slot j, identifier j. */
  function Boxes(slots: seq<Slot>, tileWidth: int, tileHeight: int): (bs: seq<PackBox>)
    ensures |bs| == |slots| && Numbered(bs)
  {
    seq(|slots|, j requires 0 <= j < |slots| =>
      NewBox(j, BoxWidth(tileWidth, slots[j].wide), BoxHeight(tileHeight, slots[j].tall)))
  }

  /** Box j is slot j's: identifier j, its face's tile size. */
  lemma BoxesMeaning(slots: seq<Slot>, tileWidth: int, tileHeight: int, j: nat)
    requires j < |slots|
    ensures j < |Boxes(slots, tileWidth, tileHeight)|
    ensures ShapeOf(Boxes(slots, tileWidth, tileHeight)[j])
      == BoxShape(j, BoxWidth(tileWidth, slots[j].wide), BoxHeight(tileHeight, slots[j].tall))
  {
  }

  lemma BoxesGrow(slots: seq<Slot>, s: Slot, tileWidth: int, tileHeight: int)
    ensures Boxes(slots + [s], tileWidth, tileHeight)
      == Boxes(slots, tileWidth, tileHeight) + [NewBox(|slots|, BoxWidth(tileWidth, s.wide), BoxHeight(tileHeight, s.tall))]
  {
    var l, r := Boxes(slots + [s], tileWidth, tileHeight),
      Boxes(slots, tileWidth, tileHeight) + [NewBox(|slots|, BoxWidth(tileWidth, s.wide), BoxHeight(tileHeight, s.tall))];
    assert |l| == |r|;
    forall j | 0 <= j < |l|
      ensures l[j] == r[j]
    {
      if j < |slots| {
        assert (slots + [s])[j] == slots[j];
      }
    }
  }

  /** One face's glyph loop of the allocation: a box of the face's tile size
      per glyph, numbered by the running box count. */
  method AllocateFaceBoxes(face: FaceLayout, tileWidth: int, tileHeight: int,
                           boxes: seq<PackBox>, ghost slots: seq<Slot>)
    returns (boxes': seq<PackBox>)
    requires boxes == Boxes(slots, tileWidth, tileHeight)
    ensures boxes' == Boxes(slots + FaceSlots(face), tileWidth, tileHeight)
  {
    var width := if face.letterboxedWide then tileWidth / 2 else tileWidth;
    var height := if face.letterboxedTall then tileHeight / 2 else tileHeight;
    boxes' := boxes;
    var g := 0;
    while g < |face.glyphs|
      invariant 0 <= g <= |face.glyphs|
      invariant boxes' == Boxes(slots + FaceSlots(face)[..g], tileWidth, tileHeight)
    {
      var s := Slot(face.letterboxedWide, face.letterboxedTall, face.glyphs[g]);
      assert slots + FaceSlots(face)[..g + 1] == (slots + FaceSlots(face)[..g]) + [s];
      BoxesGrow(slots + FaceSlots(face)[..g], s, tileWidth, tileHeight);
      boxes' := boxes' + [NewBox(|boxes'|, width, height)];
      g := g + 1;
    }
    assert FaceSlots(face)[..g] == FaceSlots(face);
  }

  /** The faces the allocation loop pushes, one per layout face. */
  function FaceFlags(faces: seq<FaceLayout>): (r: seq<AtlasFace>)
    ensures |r| == |faces|
    ensures forall f :: 0 <= f < |faces| ==>
      r[f] == AtlasFace(faces[f].letterboxedWide, faces[f].letterboxedTall)
  {
    seq(|faces|, f requires 0 <= f < |faces| => AtlasFace(faces[f].letterboxedWide, faces[f].letterboxedTall))
  }

  /** The allocation loop: a face per layout face, a box per glyph. */
  method AllocateBoxes(layoutFaces: seq<FaceLayout>, tileWidth: int, tileHeight: int)
    returns (faces: seq<AtlasFace>, boxes: seq<PackBox>)
    ensures faces == FaceFlags(layoutFaces)
    ensures boxes == Boxes(Slots(layoutFaces), tileWidth, tileHeight)
  {
    faces, boxes := [], [];
    var f := 0;
    while f < |layoutFaces|
      invariant 0 <= f <= |layoutFaces|
      invariant faces == FaceFlags(layoutFaces[..f])
      invariant boxes == Boxes(Slots(layoutFaces[..f]), tileWidth, tileHeight)
    {
      var face := layoutFaces[f];
      faces := faces + [AtlasFace(face.letterboxedWide, face.letterboxedTall)];
      boxes := AllocateFaceBoxes(face, tileWidth, tileHeight, boxes, Slots(layoutFaces[..f]));
      SlotsStep(layoutFaces, f);
      f := f + 1;
    }
    assert layoutFaces[..f] == layoutFaces;
  }

  // ----- Placing the glyphs -----

  /** LoadChar(codepoint_o.value()) throws for a font glyph without a
      codepoint. */
  predicate Missing(glyph: GlyphLayout) {
    glyph.source == Font && glyph.codepoint.None?
  }

  /** The blit of one glyph into its box. */
  function Placement(glyph: GlyphLayout, box: PackBox): Blit
    requires !Missing(glyph)
  {
    var picture :=
      if glyph.source == Font then Character(glyph.sourceIndex, glyph.codepoint.value, box.width, box.height)
      else if glyph.topLeft.Some? then
        CroppedSource(glyph.source, glyph.sourceIndex, ToSize(glyph.topLeft.value.x), ToSize(glyph.topLeft.value.y),
                      ToSize(box.width), ToSize(box.height))
      else WholeSource(glyph.source, glyph.sourceIndex);
    Blit(picture, ToSize(box.x), ToSize(box.y), box.page)
  }

  /** A face's glyphs take the boxes from `start` on, one each. */
  function FacePlacements(face: FaceLayout, boxes: seq<PackBox>, start: nat): Result<seq<Blit>, AtlasError>
    requires start + |face.glyphs| <= |boxes|
  {
    if exists g :: 0 <= g < |face.glyphs| && Missing(face.glyphs[g]) then Err(MissingCodepoint)
    else Ok(seq(|face.glyphs|, g requires 0 <= g < |face.glyphs| => Placement(face.glyphs[g], boxes[start + g])))
  }

  function Placements(faces: seq<FaceLayout>, boxes: seq<PackBox>): Result<seq<Blit>, AtlasError>
    requires GlyphCount(faces) <= |boxes|
    decreases |faces|
  {
    if faces == [] then Ok([])
    else
      var front := faces[..|faces| - 1];
      match Placements(front, boxes)
      case Err(e) => Err(e)
      case Ok(bs) =>
        match FacePlacements(faces[|faces| - 1], boxes, GlyphCount(front))
        case Err(e) => Err(e)
        case Ok(cs) => Ok(bs + cs)
  }

  /** The placements throw exactly when some glyph is a font glyph without a
      codepoint; otherwise glyph j, counted across the faces, is blitted into
      box j. */
  lemma PlacementsMeaning(faces: seq<FaceLayout>, boxes: seq<PackBox>)
    requires GlyphCount(faces) <= |boxes|
    ensures |Slots(faces)| == GlyphCount(faces)
    ensures Placements(faces, boxes).Err? <==> exists j :: 0 <= j < |Slots(faces)| && Missing(Slots(faces)[j].glyph)
    ensures Placements(faces, boxes).Err? ==> Placements(faces, boxes).error == MissingCodepoint
    ensures Placements(faces, boxes).Ok? ==>
      var bs := Placements(faces, boxes).value;
      |bs| == |Slots(faces)| &&
      forall j :: 0 <= j < |bs| ==> !Missing(Slots(faces)[j].glyph) && bs[j] == Placement(Slots(faces)[j].glyph, boxes[j])
  {
    PlacementsFail(faces, boxes);
    if Placements(faces, boxes).Ok? {
      PlacementsBlits(faces, boxes);
    }
  }

  lemma {:induction false} PlacementsFail(faces: seq<FaceLayout>, boxes: seq<PackBox>)
    requires GlyphCount(faces) <= |boxes|
    ensures |Slots(faces)| == GlyphCount(faces)
    ensures Placements(faces, boxes).Err? <==> exists j :: 0 <= j < |Slots(faces)| && Missing(Slots(faces)[j].glyph)
    ensures Placements(faces, boxes).Err? ==> Placements(faces, boxes).error == MissingCodepoint
    decreases |faces|
  {
    SlotsCount(faces);
    if faces != [] {
      var front, last := faces[..|faces| - 1], faces[|faces| - 1];
      PlacementsFail(front, boxes);
      var n := GlyphCount(front);
      var all := Slots(faces);
      assert all == Slots(front) + FaceSlots(last);
      if Placements(front, boxes).Err? {
        var j :| 0 <= j < |Slots(front)| && Missing(Slots(front)[j].glyph);
        assert all[j] == Slots(front)[j];
      } else if FacePlacements(last, boxes, n).Err? {
        var g :| 0 <= g < |last.glyphs| && Missing(last.glyphs[g]);
        assert all[n + g].glyph == last.glyphs[g];
      } else {
        forall j | 0 <= j < |all|
          ensures !Missing(all[j].glyph)
        {
          if j < n {
            assert all[j] == Slots(front)[j];
          } else {
            assert all[j].glyph == last.glyphs[j - n];
          }
        }
      }
    }
  }

  lemma {:induction false} PlacementsBlits(faces: seq<FaceLayout>, boxes: seq<PackBox>)
    requires GlyphCount(faces) <= |boxes| && Placements(faces, boxes).Ok?
    ensures |Slots(faces)| == GlyphCount(faces)
    ensures var bs := Placements(faces, boxes).value;
      |bs| == |Slots(faces)| &&
      forall j :: 0 <= j < |bs| ==> !Missing(Slots(faces)[j].glyph) && bs[j] == Placement(Slots(faces)[j].glyph, boxes[j])
    decreases |faces|
  {
    SlotsCount(faces);
    if faces != [] {
      var front, last := faces[..|faces| - 1], faces[|faces| - 1];
      PlacementsBlits(front, boxes);
      var n := GlyphCount(front);
      var all := Slots(faces);
      assert all == Slots(front) + FaceSlots(last);
      var bs, cs := Placements(front, boxes).value, FacePlacements(last, boxes, n).value;
      assert Placements(faces, boxes).value == bs + cs;
      forall j | 0 <= j < |all|
        ensures !Missing(all[j].glyph) && (bs + cs)[j] == Placement(all[j].glyph, boxes[j])
      {
        if j < n {
          assert all[j] == Slots(front)[j];
        } else {
          assert all[j].glyph == last.glyphs[j - n];
        }
      }
    }
  }

  /** Once a face has thrown, the later faces change nothing. */
  lemma {:induction false} PlacementsStop(faces: seq<FaceLayout>, boxes: seq<PackBox>, n: nat)
    requires n <= |faces| && GlyphCount(faces) <= |boxes|
    requires GlyphCount(faces[..n]) <= |boxes| && Placements(faces[..n], boxes).Err?
    ensures Placements(faces, boxes) == Placements(faces[..n], boxes)
    decreases |faces| - n
  {
    if n < |faces| {
      var m := |faces| - 1;
      assert faces[..m][..n] == faces[..n];
      GlyphCountPrefix(faces, m);
      PlacementsStop(faces[..m], boxes, n);
    } else {
      assert faces[..n] == faces;
    }
  }

  lemma PlacementsStep(faces: seq<FaceLayout>, boxes: seq<PackBox>, f: nat, blits: seq<Blit>)
    requires f < |faces| && GlyphCount(faces[..f + 1]) <= |boxes|
    requires GlyphCount(faces[..f]) <= |boxes| && Placements(faces[..f], boxes) == Ok(blits)
    ensures GlyphCount(faces[..f]) + |faces[f].glyphs| <= |boxes|
    ensures Placements(faces[..f + 1], boxes) ==
      match FacePlacements(faces[f], boxes, GlyphCount(faces[..f]))
      case Err(e) => Err(e)
      case Ok(cs) => Ok(blits + cs)
  {
    assert faces[..f + 1][..f] == faces[..f];
    SlotsStep(faces, f);
  }

  /** The inner loop of the second pass over one face: each glyph takes the
      box at pack_box_i, which advances by one per glyph. */
  method PlaceFaceGlyphs(face: FaceLayout, boxes: seq<PackBox>, start: nat)
    returns (result: Result<seq<Blit>, AtlasError>, next: nat)
    requires start + |face.glyphs| <= |boxes|
    ensures result == FacePlacements(face, boxes, start)
    ensures result.Ok? ==> next == start + |face.glyphs|
  {
    var blits: seq<Blit> := [];
    var packBoxI := start;
    var g := 0;
    while g < |face.glyphs|
      invariant 0 <= g <= |face.glyphs| && packBoxI == start + g
      invariant forall k :: 0 <= k < g ==> !Missing(face.glyphs[k])
      invariant |blits| == g
      invariant forall k :: 0 <= k < g ==> blits[k] == Placement(face.glyphs[k], boxes[start + k])
    {
      var glyph := face.glyphs[g];
      var box := boxes[packBoxI];
      packBoxI := packBoxI + 1;
      if Missing(glyph) {
        return Err(MissingCodepoint), packBoxI;
      }
      blits := blits + [Placement(glyph, box)];
      g := g + 1;
    }
    assert blits == seq(|face.glyphs|, k requires 0 <= k < |face.glyphs| => Placement(face.glyphs[k], boxes[start + k]));
    return Ok(blits), packBoxI;
  }

  /** The second pass as intended: the faces are the ones already built, and
      the glyphs take the boxes in order. */
  method PlaceGlyphs(layoutFaces: seq<FaceLayout>, boxes: seq<PackBox>)
    returns (result: Result<seq<Blit>, AtlasError>)
    requires GlyphCount(layoutFaces) <= |boxes|
    ensures result == Placements(layoutFaces, boxes)
  {
    var blits: seq<Blit> := [];
    var packBoxI := 0;
    var f := 0;
    while f < |layoutFaces|
      invariant 0 <= f <= |layoutFaces|
      invariant GlyphCount(layoutFaces[..f]) <= |boxes|
      invariant packBoxI == GlyphCount(layoutFaces[..f])
      invariant Placements(layoutFaces[..f], boxes) == Ok(blits)
    {
      GlyphCountPrefix(layoutFaces, f + 1);
      PlacementsStep(layoutFaces, boxes, f, blits);
      SlotsStep(layoutFaces, f);
      var r;
      r, packBoxI := PlaceFaceGlyphs(layoutFaces[f], boxes, packBoxI);
      if r.Err? {
        PlacementsStop(layoutFaces, boxes, f + 1);
        return r;
      }
      blits := blits + r.value;
      f := f + 1;
    }
    assert layoutFaces[..f] == layoutFaces;
    return Ok(blits);
  }

  /** `n` default-constructed faces. */
  function DefaultFaces(n: nat): (r: seq<AtlasFace>)
    ensures |r| == n && forall f :: 0 <= f < n ==> r[f] == AtlasFace(false, false)
  {
    seq(n, _ => AtlasFace(false, false))
  }

  /** The second pass as written: it also emplaces a new, default face per
      layout face into the atlas. */
  method PlaceGlyphsAsWritten(layoutFaces: seq<FaceLayout>, boxes: seq<PackBox>, faces: seq<AtlasFace>)
    returns (result: Result<seq<Blit>, AtlasError>, faces': seq<AtlasFace>)
    requires GlyphCount(layoutFaces) <= |boxes|
    ensures result == Placements(layoutFaces, boxes)
    ensures result.Ok? ==> faces' == faces + DefaultFaces(|layoutFaces|)
  {
    faces' := faces;
    var blits: seq<Blit> := [];
    var packBoxI := 0;
    var f := 0;
    while f < |layoutFaces|
      invariant 0 <= f <= |layoutFaces|
      invariant GlyphCount(layoutFaces[..f]) <= |boxes|
      invariant packBoxI == GlyphCount(layoutFaces[..f])
      invariant Placements(layoutFaces[..f], boxes) == Ok(blits)
      invariant faces' == faces + DefaultFaces(f)
    {
      faces' := faces' + [AtlasFace(false, false)];
      assert faces' == faces + DefaultFaces(f + 1);
      GlyphCountPrefix(layoutFaces, f + 1);
      PlacementsStep(layoutFaces, boxes, f, blits);
      SlotsStep(layoutFaces, f);
      var r;
      r, packBoxI := PlaceFaceGlyphs(layoutFaces[f], boxes, packBoxI);
      if r.Err? {
        PlacementsStop(layoutFaces, boxes, f + 1);
        return r, faces';
      }
      blits := blits + r.value;
      f := f + 1;
    }
    assert layoutFaces[..f] == layoutFaces;
    return Ok(blits), faces';
  }

  // ----- Create -----

  /** The boxes after Pack and the sort, one per glyph. */
  function Sorted(layout: Layout, pack: Packer, ascending: bool): (s: seq<PackBox>)
    requires IsPacker(pack)
    ensures |s| == GlyphCount(layout.faces)
  {
    var boxes := Boxes(Slots(layout.faces), layout.tileWidth, layout.tileHeight);
    SlotsCount(layout.faces);
    PackedLength(boxes, pack(boxes));
    SortById(pack(boxes), ascending)
  }

  /** The atlas once the glyphs are placed, or the error placing throws. */
  function Finish(layout: Layout, faces: seq<AtlasFace>, boxes: seq<PackBox>): Result<Atlas, AtlasError>
    requires GlyphCount(layout.faces) <= |boxes|
  {
    match Placements(layout.faces, boxes)
    case Err(e) => Err(e)
    case Ok(blits) =>
      Ok(Atlas(layout.tileWidth, layout.tileHeight, HasWide(layout.faces), HasTall(layout.faces), faces, blits))
  }

  /** Create as written: a descending sort, and a second face per layout
      face. */
  function ExpectedAsWritten(layout: Layout, pack: Packer): Result<Atlas, AtlasError>
    requires IsPacker(pack)
  {
    if EarlyExit(layout).Some? then EarlyExit(layout).value
    else Finish(layout, FaceFlags(layout.faces) + DefaultFaces(|layout.faces|), Sorted(layout, pack, false))
  }

  /** Create as intended: an ascending sort, so that glyph j takes box j, and
      one face per layout face. */
  function Expected(layout: Layout, pack: Packer): Result<Atlas, AtlasError>
    requires IsPacker(pack)
  {
    if EarlyExit(layout).Some? then EarlyExit(layout).value
    else Finish(layout, FaceFlags(layout.faces), Sorted(layout, pack, true))
  }

  method CreateAsWritten(layout: Layout, pack: Packer) returns (result: Result<Atlas, AtlasError>)
    requires IsPacker(pack)
    ensures result == ExpectedAsWritten(layout, pack)
  {
    var tileWidth, tileHeight := layout.tileWidth, layout.tileHeight;
    if tileWidth <= 0 || tileHeight <= 0 {
      return Err(InvalidTileDimensions);
    }
    if layout.faces == [] {
      return Ok(Atlas(tileWidth, tileHeight, false, false, [], []));
    }
    var wide, tall := LetterboxFlags(layout.faces);
    if (wide && tileWidth % 2 != 0) || (tall && tileHeight % 2 != 0) {
      return Err(OddLetterboxDimension);
    }
    var faces, packBoxes := AllocateBoxes(layout.faces, tileWidth, tileHeight);
    packBoxes := pack(packBoxes);
    packBoxes := SortById(packBoxes, false);
    assert packBoxes == Sorted(layout, pack, false);
    var placed;
    placed, faces := PlaceGlyphsAsWritten(layout.faces, packBoxes, faces);
    if placed.Err? {
      return Err(placed.error);
    }
    return Ok(Atlas(tileWidth, tileHeight, wide, tall, faces, placed.value));
  }

  method Create(layout: Layout, pack: Packer) returns (result: Result<Atlas, AtlasError>)
    requires IsPacker(pack)
    ensures result == Expected(layout, pack)
  {
    var tileWidth, tileHeight := layout.tileWidth, layout.tileHeight;
    if tileWidth <= 0 || tileHeight <= 0 {
      return Err(InvalidTileDimensions);
    }
    if layout.faces == [] {
      return Ok(Atlas(tileWidth, tileHeight, false, false, [], []));
    }
    var wide, tall := LetterboxFlags(layout.faces);
    if (wide && tileWidth % 2 != 0) || (tall && tileHeight % 2 != 0) {
      return Err(OddLetterboxDimension);
    }
    var faces, packBoxes := AllocateBoxes(layout.faces, tileWidth, tileHeight);
    packBoxes := pack(packBoxes);
    packBoxes := SortById(packBoxes, true);
    assert packBoxes == Sorted(layout, pack, true);
    var placed := PlaceGlyphs(layout.faces, packBoxes);
    if placed.Err? {
      return Err(placed.error);
    }
    return Ok(Atlas(tileWidth, tileHeight, wide, tall, faces, placed.value));
  }

  // ----- What Create promises -----

  /** Each error exactly when the source throws it. */
  lemma ExpectedErrors(layout: Layout, pack: Packer)
    requires IsPacker(pack)
    ensures Expected(layout, pack) == Err(InvalidTileDimensions) <==> layout.tileWidth <= 0 || layout.tileHeight <= 0
    ensures Expected(layout, pack) == Err(OddLetterboxDimension) <==>
      && layout.tileWidth > 0 && layout.tileHeight > 0
      && ((HasWide(layout.faces) && layout.tileWidth % 2 == 1) || (HasTall(layout.faces) && layout.tileHeight % 2 == 1))
    ensures Expected(layout, pack) == Err(MissingCodepoint) <==>
      && EarlyExit(layout).None?
      && exists j :: 0 <= j < |Slots(layout.faces)| && Missing(Slots(layout.faces)[j].glyph)
  {
    if EarlyExit(layout).None? {
      PlacementsMeaning(layout.faces, Sorted(layout, pack, true));
    }
  }

  /** The version as written throws exactly as the intended one does. */
  lemma AsWrittenErrors(layout: Layout, pack: Packer)
    requires IsPacker(pack)
    ensures ExpectedAsWritten(layout, pack).Err? <==> Expected(layout, pack).Err?
    ensures ExpectedAsWritten(layout, pack).Err? ==> ExpectedAsWritten(layout, pack).error == Expected(layout, pack).error
  {
    if EarlyExit(layout).None? {
      PlacementsMeaning(layout.faces, Sorted(layout, pack, true));
      PlacementsMeaning(layout.faces, Sorted(layout, pack, false));
    }
  }

  /** As intended, glyph j, counted across the faces, is blitted into the box
      allocated for it: identifier j, its own face's tile size. The atlas has
      one face per layout face, with that face's flags. */
  lemma CreatePlacesOwnBoxes(layout: Layout, pack: Packer)
    requires IsPacker(pack) && EarlyExit(layout).None? && Expected(layout, pack).Ok?
    ensures Expected(layout, pack).value.faces == FaceFlags(layout.faces)
    ensures var slots, boxes, blits := Slots(layout.faces), Sorted(layout, pack, true), Expected(layout, pack).value.blits;
      |blits| == |slots| == |boxes| &&
      forall j :: 0 <= j < |blits| ==>
        && !Missing(slots[j].glyph)
        && blits[j] == Placement(slots[j].glyph, boxes[j])
        && ShapeOf(boxes[j]) == BoxShape(j, BoxWidth(layout.tileWidth, slots[j].wide), BoxHeight(layout.tileHeight, slots[j].tall))
  {
    var slots := Slots(layout.faces);
    var built := Boxes(slots, layout.tileWidth, layout.tileHeight);
    PlacementsMeaning(layout.faces, Sorted(layout, pack, true));
    SortedPackedBoxes(built, pack(built), true);
  }

  /** As written, the descending sort hands glyph j the box allocated for
      glyph n-1-j, and the atlas ends with twice as many faces as the
      layout. */
  lemma AsWrittenReversesBoxes(layout: Layout, pack: Packer)
    requires IsPacker(pack) && EarlyExit(layout).None? && ExpectedAsWritten(layout, pack).Ok?
    ensures |ExpectedAsWritten(layout, pack).value.faces| == 2 * |layout.faces|
    ensures var slots, boxes, blits := Slots(layout.faces), Sorted(layout, pack, false), ExpectedAsWritten(layout, pack).value.blits;
      |blits| == |slots| == |boxes| &&
      forall j :: 0 <= j < |blits| ==>
        var k := |slots| - 1 - j;
        && !Missing(slots[j].glyph)
        && blits[j] == Placement(slots[j].glyph, boxes[j])
        && ShapeOf(boxes[j]) == BoxShape(k, BoxWidth(layout.tileWidth, slots[k].wide), BoxHeight(layout.tileHeight, slots[k].tall))
  {
    var slots := Slots(layout.faces);
    var built := Boxes(slots, layout.tileWidth, layout.tileHeight);
    PlacementsMeaning(layout.faces, Sorted(layout, pack, false));
    SortedPackedBoxes(built, pack(built), false);
  }

  // ----- A layout that shows the reversal -----

  /** A packer that leaves every box where it is. */
  function KeepPlace(bs: seq<PackBox>): seq<PackBox> {
    bs
  }

  lemma KeepPlaceIsPacker()
    ensures IsPacker(KeepPlace)
  {
  }

  /** A wide-letterboxed face and a plain face, one font glyph each, on 4 by
      4 tiles. */
  function TwoFaces(): Layout {
    var glyph := GlyphLayout(0, Font, None, Some(65));
    Layout([], ["font.ttf"], 4, 4, [FaceLayout(true, false, [glyph]), FaceLayout(false, false, [glyph])])
  }

  /** The two slots of the layout, and it passes validation. */
  lemma TwoFacesSlots()
    ensures EarlyExit(TwoFaces()).None?
    ensures Slots(TwoFaces().faces)
      == [Slot(true, false, GlyphLayout(0, Font, None, Some(65))), Slot(false, false, GlyphLayout(0, Font, None, Some(65)))]
  {
    var faces := TwoFaces().faces;
    assert HasWide(faces) by {
      assert faces[0].letterboxedWide;
    }
    assert faces[..1][..0] == [];
    assert faces[..2] == faces;
  }

  /** As written, the letterboxed face's character is rendered at the full
      4 by 4 tile meant for the plain face, and the atlas has four faces. */
  lemma AsWrittenRendersAtWrongSize()
    ensures IsPacker(KeepPlace)
    ensures ExpectedAsWritten(TwoFaces(), KeepPlace).Ok?
    ensures ExpectedAsWritten(TwoFaces(), KeepPlace).value.blits[0].picture == Character(0, 65, 4, 4)
    ensures |ExpectedAsWritten(TwoFaces(), KeepPlace).value.faces| == 4
  {
    KeepPlaceIsPacker();
    TwoFacesSlots();
    var layout := TwoFaces();
    var boxes := Sorted(layout, KeepPlace, false);
    PlacementsMeaning(layout.faces, boxes);
    assert boxes[0] == NewBox(1, 4, 4);
  }

  /** As intended, it is rendered at the 2 by 4 half tile. */
  lemma CreateRendersAtOwnSize()
    ensures IsPacker(KeepPlace)
    ensures Expected(TwoFaces(), KeepPlace).Ok?
    ensures Expected(TwoFaces(), KeepPlace).value.blits[0].picture == Character(0, 65, 2, 4)
    ensures |Expected(TwoFaces(), KeepPlace).value.faces| == 2
  {
    KeepPlaceIsPacker();
    TwoFacesSlots();
    var layout := TwoFaces();
    var boxes := Sorted(layout, KeepPlace, true);
    PlacementsMeaning(layout.faces, boxes);
    assert boxes[0] == NewBox(0, 2, 4);
  }
}
