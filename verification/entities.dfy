/**
 The `Entity` base class and its subclasses as one immutable record, with
 `translate`, `changeState`, `addCollision`, the edge accessors and
 `collision_sides`.

 Entities refer to one another (in `collidingObjects`) by their index in the
 level's entity sequence, standing in for Python object references.
 */
module Entities {
  import opened Geometry
  import opened Constants

  /** The concrete class of an entity, as tested by `isinstance`. */
  datatype Kind = Mario | GroundBlock | BrickBlock | QuestionBlock | Pipe

  /** One state object of some entity's state table. */
  datatype StateKind =
    | MarioIdle | MarioMove | MarioJump | MarioFall
    | QuestionBlockIdle | BrickBlockIdle | GroundBlockIdle | PipeIdle

  predicate IsMarioState(s: StateKind) {
    s.MarioIdle? || s.MarioMove? || s.MarioJump? || s.MarioFall?
  }

  datatype Color = Color(r: int, g: int, b: int)

  const White := Color(255, 255, 255)
  const Green := Color(0, 255, 0)
  const Gold := Color(255, 215, 0)
  const GroundBrown := Color(160, 82, 45)
  const BrickBrown := Color(205, 133, 63)

  /** The colour by which the level recognises the player. */
  const MarioColor := White

  datatype Facing = FacingLeft | FacingRight

  /**
   An entity. `rect` is a separate field, as in the game: it is rebuilt by
   `Translate` but not by every write of `x`. The player-only attributes
   (`speed` .. `velocity`) and the per-state scratch fields of the player's
   state objects (`moveRun` of the move state, `jumpStartHeight` and
   `jumpDx` of the jump state, `fallDx` of the fall state) are carried by
   every entity and stay at their initial values for blocks.
   */
  datatype Entity = Entity(
    kind: Kind,
    x: real, y: real, w: int, h: int,
    rect: Rect,
    color: Color,
    direction: Facing,
    allStates: map<string, StateKind>,
    currState: StateKind,
    prevState: StateKind,
    collidingObjects: seq<nat>,
    hasCollision: bool,
    speed: real,
    isDead: bool,
    dy: real,
    jumpHeight: int,
    velocity: real,
    moveRun: bool,
    jumpStartHeight: real,
    jumpDx: real,
    fallDx: real)
  {
    function Left(): real { x }
    function Right(): real { x + w as real }
    function Top(): real { y }
    function Bottom(): real { y + h as real }
  }

  const MarioTable: map<string, StateKind> :=
    map["idle" := MarioIdle, "move" := MarioMove, "jump" := MarioJump, "fall" := MarioFall]

  /** The state table each constructor installs. */
  function StatesOf(kind: Kind): map<string, StateKind> {
    match kind
    case Mario => MarioTable
    case GroundBlock => map["idle" := GroundBlockIdle]
    case BrickBlock => map["idle" := BrickBlockIdle]
    case QuestionBlock => map["idle" := QuestionBlockIdle]
    case Pipe => map["idle" := PipeIdle]
  }

  /** A freshly constructed entity: at rest in its "idle" state, touching nothing. */
  function NewEntity(kind: Kind, x: real, y: real, w: int, h: int, color: Color): (e: Entity)
    ensures e.kind == kind && e.x == x && e.y == y && e.w == w && e.h == h && e.color == color
    ensures RectFresh(e)
    ensures "idle" in e.allStates && e.currState == e.allStates["idle"] && e.prevState == e.currState
    ensures StateOwned(e)
    ensures e.collidingObjects == [] && !e.hasCollision
    ensures e.direction == FacingRight
    ensures e.allStates == StatesOf(kind)
    ensures kind == Mario ==>
      && e.speed == MarioSpeed && !e.isDead && e.dy == 0.0 && e.velocity == 0.0
      && e.jumpHeight == MarioJumpHeight
  {
    var idle := StatesOf(kind)["idle"];
    var isMario := kind == Mario;
    Entity(kind, x, y, w, h, RectAt(x, y, w, h), color, FacingRight,
           StatesOf(kind), idle, idle, [], false,
           if isMario then MarioSpeed else 0.0, false, 0.0,
           if isMario then MarioJumpHeight else 0, 0.0,
           false, 0.0, 0.0, 0.0)
  }

  /** The rectangle agrees with the position and size. */
  ghost predicate RectFresh(e: Entity) {
    e.rect == RectAt(e.x, e.y, e.w, e.h)
  }

  /** The current and previous states are objects of the entity's own table. */
  ghost predicate StateOwned(e: Entity) {
    e.currState in e.allStates.Values && e.prevState in e.allStates.Values
  }

  /** What no step of the simulation other than the collision pass changes. */
  ghost predicate SameIdentity(e: Entity, r: Entity) {
    && r.kind == e.kind && r.w == e.w && r.h == e.h && r.color == e.color
    && r.allStates == e.allStates
    && r.collidingObjects == e.collidingObjects && r.hasCollision == e.hasCollision
    && r.speed == e.speed && r.isDead == e.isDead && r.jumpHeight == e.jumpHeight
  }

  /** The left-edge clamp `translate` applies to the player only. */
  function ClampedX(kind: Kind, x: real): real {
    if kind == Mario && x < 0.0 then 0.0 else x
  }

  /** The facing `translate` leaves after a horizontal move by `dx`. */
  function TurnedBy(f: Facing, dx: real): Facing {
    if dx < 0.0 then FacingLeft else if dx > 0.0 then FacingRight else f
  }

  /**
   `Entity.translate`: turns to face the direction of a non-zero `dx`, moves
   by (dx, dy), keeps the player at x >= 0 and rebuilds the rectangle.
   */
  function Translate(e: Entity, dx: real, dy: real): (r: Entity)
    ensures dx < 0.0 ==> r.direction == FacingLeft
    ensures dx > 0.0 ==> r.direction == FacingRight
    ensures dx == 0.0 ==> r.direction == e.direction
    ensures r.direction == TurnedBy(e.direction, dx)
    ensures r.y == e.y + dy
    ensures e.kind == Mario && e.x + dx < 0.0 ==> r.x == 0.0
    ensures !(e.kind == Mario && e.x + dx < 0.0) ==> r.x == e.x + dx
    ensures e.kind == Mario ==> r.x >= 0.0
    ensures RectFresh(r)
    ensures r == e.(direction := r.direction, x := r.x, y := r.y, rect := r.rect)
  {
    var facing := TurnedBy(e.direction, dx);
    var x := e.x + dx;
    var x' := if e.kind == Mario && x < 0.0 then 0.0 else x;
    var y' := e.y + dy;
    e.(direction := facing, x := x', y := y', rect := RectAt(x', y', e.w, e.h))
  }

  /** Two moves of a non-player add up; the facing is the last non-zero move's. */
  lemma TranslateAdds(e: Entity, dx1: real, dy1: real, dx2: real, dy2: real)
    requires e.kind != Mario
    ensures var r := Translate(Translate(e, dx1, dy1), dx2, dy2);
      && r.x == e.x + dx1 + dx2 && r.y == e.y + dy1 + dy2
      && r.direction == Translate(e, if dx2 == 0.0 then dx1 else dx2, 0.0).direction
      && r.rect == RectAt(e.x + dx1 + dx2, e.y + dy1 + dy2, e.w, e.h)
  {
  }

  /** A vertical-only move still pulls a player standing left of the level edge back to x = 0. */
  lemma VerticalTranslateClamps(e: Entity, dy: real)
    requires e.kind == Mario && e.x < 0.0
    ensures Translate(e, 0.0, dy).x == 0.0 && Translate(e, 0.0, dy).direction == e.direction
  {
  }

  /** `exitState`: every state object in the game exits without effect. */
  function ExitState(e: Entity, s: StateKind): (r: Entity)
    ensures r == e
  {
    e
  }

  /**
   `enterState` of each state object: the move state lowers its run flag,
   the jump state launches and records the start height, the fall state
   zeroes its steering, and every other state enters without effect.
   */
  function EnterState(e: Entity, s: StateKind): (r: Entity)
    ensures s == MarioMove ==> r == e.(moveRun := false)
    ensures s == MarioJump ==>
      r == e.(dy := 0.0, velocity := LaunchVelocity, jumpStartHeight := e.y, jumpDx := 0.0)
    ensures s == MarioFall ==> r == e.(fallDx := 0.0)
    ensures s != MarioMove && s != MarioJump && s != MarioFall ==> r == e
  {
    match s
    case MarioMove => e.(moveRun := false)
    case MarioJump =>
      e.(dy := 0.0, velocity := LaunchVelocity, jumpStartHeight := e.y, jumpDx := 0.0)
    case MarioFall => e.(fallDx := 0.0)
    case _ => e
  }

  /**
   `Entity.changeState`: an id missing from the table changes nothing.
   Otherwise the old state exits, the old state becomes the previous one, the
   table's state becomes current and enters, resetting its scratch fields.
   */
  function ChangeState(e: Entity, id: string): (r: Entity)
    ensures id !in e.allStates ==> r == e
    ensures id in e.allStates ==>
      var s := e.allStates[id];
      && r.prevState == e.currState && r.currState == s
      && SameIdentity(e, r)
      && r.x == e.x && r.y == e.y && r.rect == e.rect && r.direction == e.direction
      && r.dy == (if s == MarioJump then 0.0 else e.dy)
      && r.velocity == (if s == MarioJump then LaunchVelocity else e.velocity)
      && r.jumpStartHeight == (if s == MarioJump then e.y else e.jumpStartHeight)
      && r.jumpDx == (if s == MarioJump then 0.0 else e.jumpDx)
      && r.fallDx == (if s == MarioFall then 0.0 else e.fallDx)
      && r.moveRun == (e.moveRun && s != MarioMove)
    ensures StateOwned(e) ==> StateOwned(r)
  {
    if id !in e.allStates then e
    else
      var next := e.allStates[id];
      var exited := ExitState(e, e.currState);
      EnterState(exited.(prevState := exited.currState, currState := next), next)
  }

  /** Changing to the state already current only re-runs its enter. */
  lemma ChangeStateToCurrent(e: Entity, id: string)
    requires id in e.allStates && e.allStates[id] == e.currState
    ensures ChangeState(e, id).currState == e.currState
    ensures ChangeState(e, id).prevState == e.currState
  {
  }

  /** `Entity.addCollision`: appends `other` to the contact list and raises the flag. */
  function AddCollision(e: Entity, other: nat): (r: Entity)
    ensures |r.collidingObjects| == |e.collidingObjects| + 1
    ensures r.collidingObjects[..|e.collidingObjects|] == e.collidingObjects
    ensures r.collidingObjects[|e.collidingObjects|] == other
    ensures r.hasCollision
    ensures r == e.(collidingObjects := r.collidingObjects, hasCollision := true)
  {
    e.(collidingObjects := e.collidingObjects + [other], hasCollision := true)
  }

  /** The probes of `collision_sides`, built from the real-valued edges and truncated. */
  function LeftProbeOf(a: Entity): Rect { RectAt(a.Left(), a.Top() + 1.0, 1, a.h - 2) }
  function RightProbeOf(a: Entity): Rect { RectAt(a.Right(), a.Top() + 1.0, 1, a.h - 2) }
  function TopProbeOf(a: Entity): Rect { RectAt(a.Left() + 1.0, a.Top(), a.w - 2, 1) }
  function BottomProbeOf(a: Entity): Rect { RectAt(a.Left() + 1.0, a.Bottom(), a.w - 2, 1) }

  /**
   `collision_sides(a, b)`: which of `a`'s four inset edge probes overlap
   `b`'s rectangle. Each flag holds iff `b` covers the probe's column (row)
   and reaches into the probe's inset span.
   */
  function CollisionSides(a: Entity, b: Entity): (s: Sides)
    ensures var p := Trunc(a.x); var q := Trunc(a.y + 1.0); var B := b.rect;
      s.left <==> B.x <= p < B.x + B.w && B.y < q + a.h - 2 && q < B.y + B.h
    ensures var p := Trunc(a.x + a.w as real); var q := Trunc(a.y + 1.0); var B := b.rect;
      s.right <==> B.x <= p < B.x + B.w && B.y < q + a.h - 2 && q < B.y + B.h
    ensures var p := Trunc(a.x + 1.0); var q := Trunc(a.y); var B := b.rect;
      s.top <==> B.y <= q < B.y + B.h && B.x < p + a.w - 2 && p < B.x + B.w
    ensures var p := Trunc(a.x + 1.0); var q := Trunc(a.y + a.h as real); var B := b.rect;
      s.bottom <==> B.y <= q < B.y + B.h && B.x < p + a.w - 2 && p < B.x + B.w
  {
    Sides(Overlaps(LeftProbeOf(a), b.rect), Overlaps(RightProbeOf(a), b.rect),
          Overlaps(TopProbeOf(a), b.rect), Overlaps(BottomProbeOf(a), b.rect))
  }

  /** For an entity at whole-pixel coordinates, `collision_sides` is the integer classification of its box. */
  lemma CollisionSidesOnGrid(a: Entity, b: Entity, X: int, Y: int)
    requires a.x == X as real && a.y == Y as real
    ensures CollisionSides(a, b) == SidesOf(Rect(X, Y, a.w, a.h), b.rect)
  {
    TruncOfInt(X);
    TruncOfInt(Y);
    TruncOfInt(X + 1);
    TruncOfInt(Y + 1);
    TruncOfInt(X + a.w);
    TruncOfInt(Y + a.h);
  }
}
