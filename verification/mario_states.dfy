/**
 The player's four state objects (`MarioStateIdle`, `MarioStateMove`,
 `MarioStateJump`, `MarioStateFall`) as pure step functions, and the
 per-state dispatch of `update`.

 A step receives the level's entity sequence `m` as it stands when the
 entity is updated, the entity's own index `i`, the entity `e` itself, the
 pressed keys and the frame time `dt` in milliseconds.
 */
module MarioStates {
  import opened Options
  import opened Geometry
  import opened Constants
  import opened Entities

  /** The keys the player states read: space, `a`, `d` and left shift. */
  datatype Keys = Keys(jump: bool, left: bool, right: bool, run: bool)

  const NoKeys := Keys(false, false, false, false)

  /** An entity the jump and fall probes stop at: anything but a player. */
  predicate Blocks(probe: Rect, t: Entity) {
    t.kind != Mario && Overlaps(probe, t.rect)
  }

  /** The first entity from index `j` on that blocks `probe`, as the probe loops find it. */
  function FirstBlocker(m: seq<Entity>, probe: Rect, j: nat): (r: Option<nat>)
    decreases |m| - j
    ensures r.Some? ==> j <= r.value < |m| && Blocks(probe, m[r.value])
    ensures r.Some? ==> forall t :: j <= t < r.value ==> !Blocks(probe, m[t])
    ensures r.None? ==> forall t :: j <= t < |m| ==> !Blocks(probe, m[t])
  {
    if j >= |m| then None
    else if Blocks(probe, m[j]) then Some(j)
    else FirstBlocker(m, probe, j + 1)
  }

  /** Whether some entity other than the one at `i`, from index `j` on, overlaps `probe`. */
  function Supported(m: seq<Entity>, i: nat, probe: Rect, j: nat): (r: bool)
    decreases |m| - j
    ensures r <==> exists t :: j <= t < |m| && t != i && Overlaps(probe, m[t].rect)
  {
    if j >= |m| then false
    else (j != i && Overlaps(probe, m[j].rect)) || Supported(m, i, probe, j + 1)
  }

  /** `MarioStateIdle.execute`: jump wins over moving; left wins over right. */
  function IdleStep(e: Entity, keys: Keys): (r: Entity)
    ensures SameIdentity(e, r) && r.x == e.x && r.y == e.y && r.rect == e.rect
    ensures keys.jump && "jump" in e.allStates ==>
      r.currState == e.allStates["jump"] && r.prevState == e.currState
    ensures keys.jump ==> r.direction == e.direction
    ensures !keys.jump && keys.left ==> r.direction == FacingLeft
    ensures !keys.jump && !keys.left && keys.right ==> r.direction == FacingRight
    ensures !keys.jump && (keys.left || keys.right) && "move" in e.allStates ==>
      r.currState == e.allStates["move"] && r.prevState == e.currState
    ensures !keys.jump && !keys.left && !keys.right ==> r == e
    ensures e.allStates == MarioTable && keys.jump ==>
      && r.dy == 0.0 && r.velocity == LaunchVelocity && r.jumpDx == 0.0 && r.jumpStartHeight == e.y
      && r.moveRun == e.moveRun && r.fallDx == e.fallDx
    ensures e.allStates == MarioTable && !keys.jump && (keys.left || keys.right) ==>
      && !r.moveRun && r.dy == e.dy && r.velocity == e.velocity
      && r.jumpDx == e.jumpDx && r.jumpStartHeight == e.jumpStartHeight && r.fallDx == e.fallDx
    ensures StateOwned(e) ==> StateOwned(r)
  {
    if keys.jump then ChangeState(e, "jump")
    else if keys.left then ChangeState(e.(direction := FacingLeft), "move")
    else if keys.right then ChangeState(e.(direction := FacingRight), "move")
    else e
  }

  /** The other entity a contact index names; the entity being updated sees itself as it is now. */
  function Lookup(m: seq<Entity>, i: nat, e: Entity, c: nat): Option<Entity> {
    if c == i then Some(e) else if c < |m| then Some(m[c]) else None
  }

  /**
   One wall push-out of `MarioStateMove.execute`: a left contact puts the
   left edge on the tile's right edge, otherwise a right contact puts the
   right edge on the tile's left edge. Only `x` is written: the rectangle is
   left as it was.
   */
  function PushOne(e: Entity, tile: Entity): (r: Entity)
    ensures CollisionSides(e, tile).left ==> r.x == tile.x + tile.w as real
    ensures !CollisionSides(e, tile).left && CollisionSides(e, tile).right ==>
      r.x + e.w as real == tile.x
    ensures !CollisionSides(e, tile).left && !CollisionSides(e, tile).right ==> r == e
    ensures r == e.(x := r.x)
  {
    var sides := CollisionSides(e, tile);
    if sides.left then e.(x := tile.x + tile.w as real)
    else if sides.right then e.(x := tile.x - e.w as real)
    else e
  }

  /** The push-out loop over the contact list, in list order. */
  function PushOut(m: seq<Entity>, i: nat, e: Entity, contacts: seq<nat>): (r: Entity)
    decreases |contacts|
    ensures r == e.(x := r.x)
  {
    if contacts == [] then e
    else
      var next := match Lookup(m, i, e, contacts[0])
        case Some(tile) => PushOne(e, tile)
        case None => e;
      PushOut(m, i, next, contacts[1..])
  }

  /**
   A contact listed twice is harmless: pushing out of a tile at whole-pixel
   coordinates a second time changes nothing.
   */
  lemma PushOneIdempotent(e: Entity, tile: Entity, X: int)
    requires tile.x == X as real && tile.rect.x == X && tile.w > 0 && tile.rect.w == tile.w
    requires e.w > 0
    ensures PushOne(PushOne(e, tile), tile) == PushOne(e, tile)
  {
    var once := PushOne(e, tile);
    var s := CollisionSides(e, tile);
    if s.left {
      TruncOfInt(X + tile.w);
      TruncOfInt(X + tile.w + e.w);
      assert !CollisionSides(once, tile).left;
      assert !CollisionSides(once, tile).right;
    } else if s.right {
      TruncOfInt(X - e.w);
      TruncOfInt(X);
      assert Trunc(once.x + e.w as real) == X;
      assert !CollisionSides(once, tile).left;
      assert CollisionSides(once, tile).right;
    }
  }

  /**
   A tile listed twice in a row anywhere in the contact list is harmless:
   the list gives the same result with one of the two entries dropped.
   */
  lemma {:induction false} PushOutDuplicate(
    m: seq<Entity>, i: nat, e: Entity, cs: seq<nat>, c: nat, ds: seq<nat>, X: int)
    requires c != i && c < |m|
    requires m[c].x == X as real && m[c].rect.x == X && m[c].w > 0 && m[c].rect.w == m[c].w
    requires e.w > 0
    decreases |cs|
    ensures PushOut(m, i, e, cs + [c, c] + ds) == PushOut(m, i, e, cs + [c] + ds)
  {
    if cs == [] {
      var once := PushOne(e, m[c]);
      assert cs + [c, c] + ds == [c] + ([c] + ds);
      assert cs + [c] + ds == [c] + ds;
      assert ([c] + ([c] + ds))[1..] == [c] + ds;
      assert ([c] + ds)[1..] == ds;
      PushOneIdempotent(e, m[c], X);
      assert PushOut(m, i, once, [c] + ds) == PushOut(m, i, PushOne(once, m[c]), ds);
    } else {
      var next := match Lookup(m, i, e, cs[0])
        case Some(tile) => PushOne(e, tile)
        case None => e;
      assert (cs + [c, c] + ds)[0] == cs[0] && (cs + [c] + ds)[0] == cs[0];
      assert (cs + [c, c] + ds)[1..] == cs[1..] + [c, c] + ds;
      assert (cs + [c] + ds)[1..] == cs[1..] + [c] + ds;
      PushOutDuplicate(m, i, next, cs[1..], c, ds, X);
    }
  }

  /** The rectangle `MarioStateMove` probes for ground: its own, 10 pixels lower. */
  function Lowered(r: Rect): (l: Rect)
    ensures l.x == r.x && l.y == r.y + GroundProbeOffset && l.w == r.w && l.h == r.h
  {
    r.(y := r.y + GroundProbeOffset)
  }

  /** How far a speed carries in `dt` milliseconds. */
  function Scaled(speed: real, dt: real): real {
    speed * dt
  }

  /** The horizontal distance the move state covers in one frame. */
  function MoveDistance(speed: real, running: bool, dt: real): real {
    if running then Scaled(speed * 2.0, dt) else Scaled(speed, dt)
  }

  /** The player's `x` after the push-out part of the move step. */
  function PushedX(m: seq<Entity>, i: nat, e: Entity): real {
    if e.hasCollision then PushOut(m, i, e, e.collidingObjects).x else e.x
  }

  /**
   The first half of `MarioStateMove.execute`: push out of walls, then lower
   the entity's own rectangle by 10 (the ground probe aliases it, so the
   shift stays) and change to "fall" unless another entity overlaps it.
   */
  function ProbeGround(m: seq<Entity>, i: nat, e: Entity): (r: Entity)
    requires e.allStates == MarioTable
    ensures SameIdentity(e, r)
    ensures r.x == PushedX(m, i, e) && r.y == e.y && r.rect == Lowered(e.rect)
    ensures r.direction == e.direction && r.moveRun == e.moveRun
    ensures r.dy == e.dy && r.velocity == e.velocity && r.jumpDx == e.jumpDx
    ensures r.jumpStartHeight == e.jumpStartHeight
    ensures !Supported(m, i, Lowered(e.rect), 0) ==>
      r.currState == MarioFall && r.prevState == e.currState && r.fallDx == 0.0
    ensures Supported(m, i, Lowered(e.rect), 0) ==> r == e.(x := r.x, rect := r.rect)
    ensures StateOwned(e) ==> StateOwned(r)
  {
    var pushed := if e.hasCollision then PushOut(m, i, e, e.collidingObjects) else e;
    var lowered := pushed.(rect := Lowered(pushed.rect));
    if !Supported(m, i, lowered.rect, 0) then ChangeState(lowered, "fall") else lowered
  }

  /**
   Where walking leaves `x`: `a` moves left by `d`, then `d` moves right by
   `d`, each through `translate`'s clamp.
   */
  function WalkX(kind: Kind, x: real, d: real, keys: Keys): (r: real)
    ensures !keys.left && !keys.right ==> r == x
    ensures keys.left && !keys.right ==> r == ClampedX(kind, x - d)
    ensures keys.right && !keys.left ==> r == ClampedX(kind, x + d)
    ensures keys.left && keys.right ==> r == ClampedX(kind, ClampedX(kind, x - d) + d)
    ensures kind == Mario && (keys.left || keys.right) ==> r >= 0.0
    ensures kind != Mario && keys.left && keys.right ==> r == x
  {
    var l := if keys.left then ClampedX(kind, x - d) else x;
    if keys.right then ClampedX(kind, l + d) else l
  }

  /** The facing walking leaves: the last direction key held wins. */
  function WalkFacing(f: Facing, keys: Keys): Facing {
    if keys.right then FacingRight else if keys.left then FacingLeft else f
  }

  /**
   The walking part of `MarioStateMove.execute`: `a` moves left, then `d`
   moves right, each by the (running) distance, and each sets the facing
   afterwards.
   */
  function Walk(e: Entity, keys: Keys, dt: real): (r: Entity)
    ensures SameIdentity(e, r)
    ensures r.y == e.y
    ensures r.currState == e.currState && r.prevState == e.prevState && r.moveRun == e.moveRun
    ensures r.dy == e.dy && r.velocity == e.velocity && r.jumpDx == e.jumpDx
    ensures r.x == WalkX(e.kind, e.x, MoveDistance(e.speed, e.moveRun, dt), keys)
    ensures r.direction == WalkFacing(e.direction, keys)
    ensures !keys.left && !keys.right ==> r == e
    ensures keys.left || keys.right ==> RectFresh(r)
    ensures StateOwned(e) ==> StateOwned(r)
  {
    var l := if keys.left then Translate(e, -MoveDistance(e.speed, e.moveRun, dt), 0.0).(direction := FacingLeft) else e;
    if keys.right then Translate(l, MoveDistance(l.speed, l.moveRun, dt), 0.0).(direction := FacingRight) else l
  }

  /**
   The second half of `MarioStateMove.execute`: "jump" on space, "run"
   raised by shift, walking, "run" lowered without shift, and "idle" if
   neither direction key is held. A "run" left raised by the previous frame
   still doubles this frame's distance.
   */
  function Act(e: Entity, keys: Keys, dt: real): (r: Entity)
    requires e.allStates == MarioTable
    ensures SameIdentity(e, r)
    ensures r.y == e.y
    ensures r.moveRun == keys.run
    ensures !keys.left && !keys.right ==> r.x == e.x && r.rect == e.rect && r.direction == e.direction
    ensures keys.left || keys.right ==>
      && r.x == WalkX(e.kind, e.x, MoveDistance(e.speed, keys.run || e.moveRun, dt), keys)
      && r.direction == WalkFacing(e.direction, keys) && RectFresh(r)
    ensures r.currState ==
      if !keys.left && !keys.right then MarioIdle
      else if keys.jump then MarioJump
      else e.currState
    ensures keys.jump ==> r.dy == 0.0 && r.velocity == LaunchVelocity && r.jumpDx == 0.0
    ensures !keys.jump ==> r.dy == e.dy && r.velocity == e.velocity && r.jumpDx == e.jumpDx
    ensures keys.jump ==> r.jumpStartHeight == e.y
    ensures !keys.jump ==> r.jumpStartHeight == e.jumpStartHeight
    ensures r.fallDx == e.fallDx
    ensures StateOwned(e) ==> StateOwned(r)
  {
    var s2 := if keys.jump then ChangeState(e, "jump") else e;
    var s3 := if keys.run then s2.(moveRun := true) else s2;
    var s4 := Walk(s3, keys, dt);
    var s5 := if !keys.run then s4.(moveRun := false) else s4;
    if !keys.left && !keys.right then ChangeState(s5, "idle") else s5
  }

  /**
   `MarioStateMove.execute`: the ground probe (and possible change to
   "fall"), then the key handling. Every later part runs even after an
   earlier one has changed the state.
   */
  function MoveStep(m: seq<Entity>, i: nat, e: Entity, keys: Keys, dt: real): (r: Entity)
    requires e.allStates == MarioTable
    ensures SameIdentity(e, r)
    ensures r.y == e.y
    ensures r.moveRun == keys.run
    ensures !keys.left && !keys.right ==>
      r.x == PushedX(m, i, e) && r.rect == Lowered(e.rect) && r.direction == e.direction
    ensures keys.left || keys.right ==>
      && r.x == WalkX(e.kind, PushedX(m, i, e), MoveDistance(e.speed, keys.run || e.moveRun, dt), keys)
      && r.direction == WalkFacing(e.direction, keys) && RectFresh(r)
    ensures r.currState ==
      if !keys.left && !keys.right then MarioIdle
      else if keys.jump then MarioJump
      else if !Supported(m, i, Lowered(e.rect), 0) then MarioFall
      else e.currState
    ensures keys.jump ==> r.dy == 0.0 && r.velocity == LaunchVelocity && r.jumpDx == 0.0
    ensures !keys.jump ==> r.dy == e.dy && r.velocity == e.velocity && r.jumpDx == e.jumpDx
    ensures keys.jump ==> r.jumpStartHeight == e.y
    ensures !keys.jump ==> r.jumpStartHeight == e.jumpStartHeight
    ensures !Supported(m, i, Lowered(e.rect), 0) ==> r.fallDx == 0.0
    ensures Supported(m, i, Lowered(e.rect), 0) ==> r.fallDx == e.fallDx
    ensures StateOwned(e) ==> StateOwned(r)
  {
    var probed := ProbeGround(m, i, e);
    assert probed.kind == e.kind && probed.speed == e.speed && probed.moveRun == e.moveRun;
    assert probed.x == PushedX(m, i, e) && probed.y == e.y && probed.allStates == MarioTable;
    assert probed.jumpStartHeight == e.jumpStartHeight;
    Act(probed, keys, dt)
  }

  /** Shift doubles the in-air speed. */
  function AirSpeed(e: Entity, keys: Keys): real {
    if keys.run then e.speed * 2.0 else e.speed
  }

  /** In-air steering: `d` is read after `a`, so it wins; with neither the old value stays. */
  function Steer(current: real, speed: real, keys: Keys): real {
    if keys.right then speed else if keys.left then -speed else current
  }

  function AirFacing(e: Entity, keys: Keys): Facing {
    if keys.right then FacingRight else if keys.left then FacingLeft else e.direction
  }

  /** Shift scales gravity by 0.9 while jumping. */
  function JumpGravity(keys: Keys): real {
    if keys.run then Gravity * RunGravityFactor else Gravity
  }

  /** The jump state's ceiling probe: the player's box raised by a third of its width. */
  function CeilingProbe(e: Entity): (r: Rect)
    ensures r.w == e.w && r.h == e.h
    ensures e.x == e.x.Floor as real && e.y == e.y.Floor as real ==>
      r.x == e.x.Floor && r.y == e.y.Floor - e.w / 3
  {
    TruncOfInt(e.x.Floor);
    TruncOfInt(e.y.Floor - e.w / 3);
    RectAt(e.x, e.y - (e.w / 3) as real, e.w, e.h)
  }

  /** The fall state's landing probe: the player's box lowered by 10. */
  function FloorProbe(e: Entity): (r: Rect)
    ensures r.w == e.w && r.h == e.h
    ensures e.x == e.x.Floor as real && e.y == e.y.Floor as real ==>
      r.x == e.x.Floor && r.y == e.y.Floor + GroundProbeOffset
  {
    TruncOfInt(e.x.Floor);
    TruncOfInt(e.y.Floor + GroundProbeOffset);
    RectAt(e.x, e.y + GroundProbeOffset as real, e.w, e.h)
  }

  /** The ceiling branch of the jump step: move down by `y - tile.y + h`, then change to "fall". */
  function HitCeiling(e: Entity, tile: Entity): (r: Entity)
    requires e.allStates == MarioTable
    ensures SameIdentity(e, r)
    ensures r.y == e.y + (e.y - tile.y + e.h as real) && r.x == ClampedX(e.kind, e.x) && RectFresh(r)
    ensures r.direction == e.direction
    ensures r.currState == MarioFall && r.prevState == e.currState
    ensures r.dy == e.dy && r.velocity == e.velocity && r.jumpDx == e.jumpDx && r.fallDx == 0.0
    ensures StateOwned(e) ==> StateOwned(r)
  {
    ChangeState(Translate(e, 0.0, e.y - tile.y + e.h as real), "fall")
  }

  /** The free-flight branch of the jump step. */
  function Rise(e: Entity, g: real, dt: real): (r: Entity)
    requires e.allStates == MarioTable
    ensures SameIdentity(e, r) && r.jumpDx == e.jumpDx
    ensures r.dy == e.dy + e.velocity && r.velocity == e.velocity + g
    ensures r.velocity >= 0.0 ==>
      && r.x == e.x && r.y == e.y && r.rect == e.rect && r.direction == e.direction
      && r.currState == MarioFall && r.prevState == e.currState && r.fallDx == 0.0
    ensures r.velocity < 0.0 ==>
      && r.currState == e.currState && r.prevState == e.prevState
      && r.x == ClampedX(e.kind, e.x + Scaled(e.jumpDx, dt)) && r.y == e.y + Scaled(r.dy, dt)
      && RectFresh(r) && r.direction == TurnedBy(e.direction, Scaled(e.jumpDx, dt))
    ensures StateOwned(e) ==> StateOwned(r)
  {
    var next := e.(dy := e.dy + e.velocity, velocity := e.velocity + g);
    if next.velocity >= 0.0 then ChangeState(next, "fall")
    else Translate(next, Scaled(next.jumpDx, dt), Scaled(next.dy, dt))
  }

  /**
   `MarioStateJump.execute`. Steering first; then, if a non-player entity
   overlaps the ceiling probe, the ceiling branch; otherwise `dy += velocity`,
   `velocity += gravity` (x0.9 when running), and a change to "fall" at the
   first tick with `velocity >= 0`, else a move by (dx*dt, dy*dt).
   */
  function JumpStep(m: seq<Entity>, e: Entity, keys: Keys, dt: real): (r: Entity)
    requires e.allStates == MarioTable
    ensures SameIdentity(e, r)
    ensures r.jumpDx == Steer(e.jumpDx, AirSpeed(e, keys), keys)
    ensures FirstBlocker(m, CeilingProbe(e), 0).Some? ==>
      var t := m[FirstBlocker(m, CeilingProbe(e), 0).value];
      && r.y == e.y + (e.y - t.y + e.h as real) && r.x == ClampedX(e.kind, e.x)
      && r.dy == e.dy && r.velocity == e.velocity
      && r.currState == MarioFall && r.prevState == e.currState && r.fallDx == 0.0
      && r.direction == AirFacing(e, keys) && RectFresh(r)
    ensures FirstBlocker(m, CeilingProbe(e), 0).None? ==>
      && r.dy == e.dy + e.velocity
      && r.velocity == e.velocity + JumpGravity(keys)
      && (r.velocity >= 0.0 ==>
            && r.x == e.x && r.y == e.y && r.rect == e.rect
            && r.currState == MarioFall && r.prevState == e.currState && r.fallDx == 0.0
            && r.direction == AirFacing(e, keys))
      && (r.velocity < 0.0 ==>
            && r.currState == e.currState && r.prevState == e.prevState
            && r.x == ClampedX(e.kind, e.x + Scaled(r.jumpDx, dt)) && r.y == e.y + Scaled(r.dy, dt)
            && RectFresh(r) && r.direction == TurnedBy(AirFacing(e, keys), Scaled(r.jumpDx, dt)))
    ensures StateOwned(e) ==> StateOwned(r)
  {
    var steered := e.(direction := AirFacing(e, keys), jumpDx := Steer(e.jumpDx, AirSpeed(e, keys), keys));
    match FirstBlocker(m, CeilingProbe(e), 0)
    case Some(j) =>
      assert steered.x == e.x && steered.kind == e.kind && steered.y == e.y;
      assert steered.w == e.w && steered.h == e.h;
      HitCeiling(steered, m[j])
    case None =>
      var r := Rise(steered, JumpGravity(keys), dt);
      assert steered.x == e.x && steered.kind == e.kind && steered.y == e.y;
      assert steered.rect == e.rect && steered.direction == AirFacing(e, keys);
      r
  }

  /** The fall state's vertical speed update: clamp only when strictly above the cap. */
  function ClampFall(dy: real, velocity: real): (r: real)
    ensures dy > MaxVelocity ==> r == MaxVelocity
    ensures dy <= MaxVelocity ==> r == dy + velocity
  {
    if dy > MaxVelocity then MaxVelocity else dy + velocity
  }

  /** The landing branch of the fall step: change to "idle", then put the bottom on the tile's top. */
  function Land(e: Entity, tile: Entity): (r: Entity)
    requires e.allStates == MarioTable
    ensures SameIdentity(e, r)
    ensures r.y + e.h as real == tile.y && r.x == ClampedX(e.kind, e.x) && RectFresh(r)
    ensures r.direction == e.direction
    ensures r.currState == MarioIdle && r.prevState == e.currState
    ensures r.dy == e.dy && r.velocity == e.velocity && r.fallDx == e.fallDx
    ensures StateOwned(e) ==> StateOwned(r)
  {
    var landed := ChangeState(e, "idle");
    Translate(landed, 0.0, tile.y - landed.y - landed.h as real)
  }

  /** The airborne branch of the fall step. */
  function Drop(e: Entity, dt: real): (r: Entity)
    ensures SameIdentity(e, r) && r.fallDx == e.fallDx
    ensures r.dy == (if e.dy > MaxVelocity then MaxVelocity else e.dy + e.velocity)
    ensures r.velocity == e.velocity + Gravity
    ensures r.x == ClampedX(e.kind, e.x + Scaled(e.fallDx, dt)) && r.y == e.y + Scaled(r.dy, dt) && RectFresh(r)
    ensures r.direction == TurnedBy(e.direction, Scaled(e.fallDx, dt))
    ensures r.currState == e.currState && r.prevState == e.prevState
    ensures StateOwned(e) ==> StateOwned(r)
  {
    var dy := ClampFall(e.dy, e.velocity);
    var next := e.(dy := dy, velocity := e.velocity + Gravity);
    Translate(next, Scaled(next.fallDx, dt), Scaled(dy, dt))
  }

  /**
   `MarioStateFall.execute`. Steering first; then, if a non-player entity
   overlaps the landing probe, the landing branch; otherwise the clamp or
   accumulation of `dy`, gravity added to `velocity`, and a move by
   (dx*dt, dy*dt).
   */
  function FallStep(m: seq<Entity>, e: Entity, keys: Keys, dt: real): (r: Entity)
    requires e.allStates == MarioTable
    ensures SameIdentity(e, r)
    ensures r.fallDx == Steer(e.fallDx, AirSpeed(e, keys), keys)
    ensures FirstBlocker(m, FloorProbe(e), 0).Some? ==>
      var t := m[FirstBlocker(m, FloorProbe(e), 0).value];
      && r.y + e.h as real == t.y && r.x == ClampedX(e.kind, e.x) && RectFresh(r)
      && r.dy == e.dy && r.velocity == e.velocity
      && r.currState == MarioIdle && r.prevState == e.currState
      && r.direction == AirFacing(e, keys)
    ensures FirstBlocker(m, FloorProbe(e), 0).None? ==>
      && r.dy == (if e.dy > MaxVelocity then MaxVelocity else e.dy + e.velocity)
      && r.velocity == e.velocity + Gravity
      && r.x == ClampedX(e.kind, e.x + Scaled(r.fallDx, dt)) && r.y == e.y + Scaled(r.dy, dt)
      && r.currState == e.currState && r.prevState == e.prevState && RectFresh(r)
      && r.direction == TurnedBy(AirFacing(e, keys), Scaled(r.fallDx, dt))
    ensures StateOwned(e) ==> StateOwned(r)
  {
    var steered := e.(direction := AirFacing(e, keys), fallDx := Steer(e.fallDx, AirSpeed(e, keys), keys));
    match FirstBlocker(m, FloorProbe(e), 0)
    case Some(j) => Land(steered, m[j])
    case None => Drop(steered, dt)
  }

  /** Each entity's table is its constructor's and its states are drawn from it. */
  ghost predicate Consistent(e: Entity) {
    e.allStates == StatesOf(e.kind) && StateOwned(e)
  }

  /** A block's table holds its idle state only. */
  lemma BlockTableValues(kind: Kind)
    ensures kind != Mario ==> StatesOf(kind).Values == {StatesOf(kind)["idle"]}
  {
  }

  /** Only the player's table holds player states. */
  lemma PlayerStateMeansPlayerTable(e: Entity)
    requires Consistent(e) && IsMarioState(e.currState)
    ensures e.allStates == MarioTable
  {
    BlockTableValues(e.kind);
  }

  /** `currState.execute(entity, dt)`: the block idle states do nothing. */
  function Execute(m: seq<Entity>, i: nat, e: Entity, keys: Keys, dt: real): (r: Entity)
    requires Consistent(e)
    ensures SameIdentity(e, r)
    ensures Consistent(r)
    ensures !IsMarioState(e.currState) ==> r == e
    ensures e.currState == MarioIdle ==> r == IdleStep(e, keys)
    ensures e.currState == MarioMove && e.allStates == MarioTable ==> r == MoveStep(m, i, e, keys, dt)
    ensures e.currState == MarioJump && e.allStates == MarioTable ==> r == JumpStep(m, e, keys, dt)
    ensures e.currState == MarioFall && e.allStates == MarioTable ==> r == FallStep(m, e, keys, dt)
  {
    if !IsMarioState(e.currState) then e
    else
      PlayerStateMeansPlayerTable(e);
      match e.currState
      case MarioIdle => IdleStep(e, keys)
      case MarioMove => MoveStep(m, i, e, keys, dt)
      case MarioJump => JumpStep(m, e, keys, dt)
      case MarioFall => FallStep(m, e, keys, dt)
  }
}
