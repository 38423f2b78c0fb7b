/** The per-actor screen cache of a view (`View` in View.h/View.cpp): a
    reference frame (block origin, block size, sub-block offset) and one
    `ScreenData` per actor, kept at the same index as the actor store. */
module Views {
  import opened Wrappers
  import opened MachineInts
  import opened ActorStore
  import opened SdlTypes

  /** Identity of an animation the view points at but never owns. */
  type AnimId = nat

  /** A destination rectangle and a non-owning animation pointer (`None`
      for a null pointer). */
  datatype ScreenData = ScreenData(destRect: Rect, anim: Option<AnimId>)

  /** The frame is an integer block origin and block size plus a fractional
      sub-block offset (floats in the engine, exact reals here). */
  datatype View = View(
    blockX: int,
    blockY: int,
    blockSize: int,
    offX: real,
    offY: real,
    screen: seq<ScreenData>)

  /** The constructor: origin (0,0), no sub-block offset, an empty cache.
      The actor-count hint only reserves capacity. */
  function NewView(blockSize: int, numActors: nat): (r: View)
    ensures r.screen == [] && r.blockSize == blockSize
  {
    View(0, 0, blockSize, 0.0, 0.0, [])
  }

  /** A fresh view maps an actor's block straight to pixels and adds the
      truncated sub-block position. */
  lemma FreshViewProjection(blockSize: int, numActors: nat, pd: PositionData)
    ensures WorldToScreen(NewView(blockSize, numActors), pd)
         == (TruncToZero(pd.x) + pd.blockX * blockSize, TruncToZero(pd.y) + pd.blockY * blockSize)
  {
  }

  /** The world-to-screen transform, one axis: the sub-block difference
      truncated toward zero plus the block difference scaled to pixels.
      Within the block the pixel offset is the sub-block difference rounded
      toward zero: same sign, never larger, less than one pixel short. */
  function Project(block: int, sub: real, originBlock: int, originSub: real, blockSize: int): (s: int)
    ensures var t := s - (block - originBlock) * blockSize;
            var d := sub - originSub;
            && (0.0 <= d ==> 0 <= t && t as real <= d < t as real + 1.0)
            && (d < 0.0 ==> t <= 0 && t as real - 1.0 < d <= t as real)
  {
    TruncToZero(sub - originSub) + (block - originBlock) * blockSize
  }

  /** `WorldToScreen`: both axes of the transform in the view's frame. */
  function WorldToScreen(v: View, pd: PositionData): (r: (int, int))
  {
    (Project(pd.blockX, pd.x, v.blockX, v.offX, v.blockSize),
     Project(pd.blockY, pd.y, v.blockY, v.offY, v.blockSize))
  }

  /** `Offset` moves the frame relative to where it is; the cache is not
      touched. */
  function Offset(v: View, dbx: int, dby: int, dx: real, dy: real): (r: View)
    ensures r.screen == v.screen && r.blockSize == v.blockSize
  {
    v.(blockX := v.blockX + dbx, blockY := v.blockY + dby, offX := v.offX + dx, offY := v.offY + dy)
  }

  /** Two offsets compose into one whose arguments are the sums: `Offset`
      is cumulative, not absolute. */
  lemma OffsetIsCumulative(v: View, dbx1: int, dby1: int, dx1: real, dy1: real,
                           dbx2: int, dby2: int, dx2: real, dy2: real)
    ensures Offset(Offset(v, dbx1, dby1, dx1, dy1), dbx2, dby2, dx2, dy2)
         == Offset(v, dbx1 + dbx2, dby1 + dby2, dx1 + dx2, dy1 + dy2)
    ensures Offset(v, 0, 0, 0.0, 0.0) == v
  {
  }

  /** Moving the frame by whole blocks and a sub-block offset shows every
      actor where the unmoved frame would show the actor moved back by the
      same amounts: the frame's block origin and sub-block offset both
      grow by the arguments. */
  lemma OffsetMovesFrame(v: View, pd: PositionData, dbx: int, dby: int, dx: real, dy: real)
    ensures WorldToScreen(Offset(v, dbx, dby, dx, dy), pd)
         == WorldToScreen(v, pd.(blockX := pd.blockX - dbx, blockY := pd.blockY - dby,
                                 x := pd.x - dx, y := pd.y - dy))
  {
  }

  /** Moving the block origin one block to the right moves every actor
      exactly one block width to the left on screen; the other axis stays. */
  lemma BlockShiftMovesByBlockSize(v: View, pd: PositionData)
    ensures WorldToScreen(Offset(v, 1, 0, 0.0, 0.0), pd).0 == WorldToScreen(v, pd).0 - v.blockSize
    ensures WorldToScreen(Offset(v, 1, 0, 0.0, 0.0), pd).1 == WorldToScreen(v, pd).1
  {
  }

  /** An actor at block (2,3), sub-block (5,5), seen from origin (0,0) with
      32-pixel blocks, appears at (69,101). */
  lemma TransformExample()
    ensures WorldToScreen(NewView(32, 0), PositionData(2, 3, 5.0, 5.0, 32, 32)) == (69, 101)
  {
  }

  /** A negative sub-block difference is truncated toward zero, not
      floored: -0.5 lands on pixel 0 of the block, not on -1. */
  lemma TruncationIsTowardZero()
    ensures WorldToScreen(NewView(32, 0), PositionData(0, 0, -0.5, 0.0, 1, 1)) == (0, 0)
  {
    var v := NewView(32, 0);
    assert v == View(0, 0, 32, 0.0, 0.0, []);
    assert TruncToZero(-0.5) == 0;
  }

  /** `AddActor`: one entry appended, placed by the transform, sized by the
      actor's extent, with a null animation; nothing else changes. */
  function AddActor(v: View, pd: PositionData, md: MovementData, at: ActorType, attrib: Attributes): (r: View)
    ensures |r.screen| == |v.screen| + 1
    ensures r.screen[..|v.screen|] == v.screen
    ensures r.screen[|v.screen|].anim.None?
    ensures r.screen[|v.screen|].destRect
         == Rect(WorldToScreen(v, pd).0, WorldToScreen(v, pd).1, pd.w, pd.h)
    ensures r.(screen := v.screen) == v
  {
    var (sx, sy) := WorldToScreen(v, pd);
    v.(screen := v.screen + [ScreenData(Rect(sx, sy, pd.w, pd.h), None)])
  }

  /** Entry `i` shows actor `i` at its current world position. */
  predicate EntryInSync(v: View, actors: Actors, i: nat)
    requires Valid(actors) && i < actors.length && i < |v.screen|
  {
    (v.screen[i].destRect.x, v.screen[i].destRect.y) == WorldToScreen(v, actors.pd[i])
  }

  /** Every live actor's entry shows its current world position. */
  predicate InSync(v: View, actors: Actors)
    requires Valid(actors) && actors.length <= |v.screen|
  {
    forall i: nat :: i < actors.length ==> EntryInSync(v, actors, i)
  }

  /** Entry `e` with its position replaced and everything else kept. */
  function MoveTo(e: ScreenData, p: (int, int)): ScreenData {
    e.(destRect := e.destRect.(x := p.0, y := p.1))
  }

  /** The loop of `UpdateView` from `index` on: entries `index` up to the
      actor count get their position recomputed, one after the other. */
  function UpdateFrom(v: View, actors: Actors, index: nat): (r: View)
    requires Valid(actors) && actors.length <= |v.screen| && index <= actors.length
    ensures r.(screen := v.screen) == v
    ensures |r.screen| == |v.screen|
    ensures forall i :: 0 <= i < index ==> r.screen[i] == v.screen[i]
    ensures forall i :: index <= i < actors.length ==>
      r.screen[i] == MoveTo(v.screen[i], WorldToScreen(v, actors.pd[i]))
    ensures forall i :: actors.length <= i < |v.screen| ==> r.screen[i] == v.screen[i]
    decreases actors.length - index
  {
    if index == actors.length then v
    else
      var e := v.screen[index];
      UpdateFrom(v.(screen := v.screen[index := MoveTo(e, WorldToScreen(v, actors.pd[index]))]),
                 actors, index + 1)
  }

  /** `UpdateView`: every live actor's entry gets its position recomputed
      from the actor's current world position; sizes, animations, the entries
      past the actor count, the cache length and the frame are unchanged.
      `operator[]` is unchecked, so the cache must cover every live actor. */
  function UpdateView(v: View, actors: Actors): (r: View)
    requires Valid(actors) && actors.length <= |v.screen|
    ensures r.(screen := v.screen) == v
    ensures |r.screen| == |v.screen|
    ensures InSync(r, actors)
    ensures forall i :: 0 <= i < |v.screen| ==>
      && r.screen[i].destRect.w == v.screen[i].destRect.w
      && r.screen[i].destRect.h == v.screen[i].destRect.h
      && r.screen[i].anim == v.screen[i].anim
    ensures forall i :: actors.length <= i < |v.screen| ==> r.screen[i] == v.screen[i]
  {
    UpdateFrom(v, actors, 0)
  }

  /** Updating a second time with the same actors changes nothing. */
  lemma UpdateViewIdempotent(v: View, actors: Actors)
    requires Valid(actors) && actors.length <= |v.screen|
    ensures UpdateView(UpdateView(v, actors), actors) == UpdateView(v, actors)
  {
    var r1 := UpdateView(v, actors);
    var r2 := UpdateView(r1, actors);
    forall i | 0 <= i < |r1.screen|
      ensures r2.screen[i] == r1.screen[i]
    {
      if i < actors.length {
        assert EntryInSync(r1, actors, i);
        assert EntryInSync(r2, actors, i);
      }
    }
    assert r2.screen == r1.screen;
  }
}
