/**
 Multi-tick behaviour of the player state machine under a fixed level: how
 long a jump rises, how the fall-speed clamp behaves over two ticks, and that
 an idle player with no input never moves.
 */
module PlayerPhysics {
  import opened Constants
  import opened Entities
  import opened MarioStates

  /** `f` applied `n` times to `x`. */
  function Iterate<T>(f: T -> T, x: T, n: nat): T {
    if n == 0 then x else f(Iterate(f, x, n - 1))
  }

  /** Applying `f` `a` times and then `b` times is applying it `a + b` times. */
  lemma {:induction false} IterateAdd<T>(f: T -> T, x: T, a: nat, b: nat)
    ensures Iterate(f, Iterate(f, x, a), b) == Iterate(f, x, a + b)
  {
    if b > 0 {
      IterateAdd(f, x, a, b - 1);
    }
  }

  /** One update of the entity at index `i`; an inconsistent entity is left alone. */
  ghost function Tick(m: seq<Entity>, i: nat, keys: Keys, dt: real): Entity -> Entity {
    (p: Entity) => if Consistent(p) then Execute(m, i, p, keys, dt) else p
  }

  /** Every iterate of `Tick` from a consistent entity stays consistent, with the same identity. */
  lemma {:induction false} TickKeeps(m: seq<Entity>, i: nat, e: Entity, keys: Keys, dt: real, n: nat)
    requires Consistent(e)
    ensures var r := Iterate(Tick(m, i, keys, dt), e, n); Consistent(r) && SameIdentity(e, r)
  {
    if n > 0 {
      TickKeeps(m, i, e, keys, dt, n - 1);
    }
  }

  /** `n` consecutive updates of the entity at index `i`, the rest of the level held fixed. */
  ghost function Ticks(m: seq<Entity>, i: nat, e: Entity, keys: Keys, dt: real, n: nat): (r: Entity)
    requires Consistent(e)
    ensures Consistent(r) && SameIdentity(e, r)
  {
    TickKeeps(m, i, e, keys, dt, n);
    Iterate(Tick(m, i, keys, dt), e, n)
  }

  /** Each further tick is one `Execute` of the entity reached so far. */
  lemma TicksStep(m: seq<Entity>, i: nat, e: Entity, keys: Keys, dt: real, n: nat)
    requires Consistent(e)
    ensures Ticks(m, i, e, keys, dt, n + 1) == Execute(m, i, Ticks(m, i, e, keys, dt, n), keys, dt)
  {
  }

  /** Nothing overhead: no tile meets the ceiling probe at any of the first `n` ticks. */
  ghost predicate ClearOverhead(m: seq<Entity>, i: nat, e: Entity, keys: Keys, dt: real, n: nat)
    requires Consistent(e)
  {
    forall t: nat :: t < n ==> FirstBlocker(m, CeilingProbe(Ticks(m, i, e, keys, dt, t)), 0).None?
  }

  /** The number of ticks a jump launched at -0.2 lasts: 10 walking, 12 running. */
  function JumpTicks(keys: Keys): nat {
    if keys.run then 12 else 10
  }

  /** One jump tick with nothing overhead: gravity is added, and the state follows its sign. */
  lemma JumpTick(m: seq<Entity>, i: nat, p: Entity, keys: Keys, dt: real)
    requires Consistent(p) && p.currState == MarioJump
    requires FirstBlocker(m, CeilingProbe(p), 0).None?
    ensures var r := Execute(m, i, p, keys, dt);
      && r.velocity == p.velocity + JumpGravity(keys)
      && (r.velocity < 0.0 ==> r.currState == MarioJump)
      && (r.velocity >= 0.0 ==> r.currState == MarioFall)
  {
    PlayerStateMeansPlayerTable(p);
    assert Execute(m, i, p, keys, dt) == JumpStep(m, p, keys, dt);
  }

  /** `JumpTick` at the `k`-th tick of a run. */
  lemma JumpTickAt(m: seq<Entity>, i: nat, e: Entity, keys: Keys, dt: real, k: nat)
    requires Consistent(e)
    requires Ticks(m, i, e, keys, dt, k).currState == MarioJump
    requires FirstBlocker(m, CeilingProbe(Ticks(m, i, e, keys, dt, k)), 0).None?
    ensures var p, r := Ticks(m, i, e, keys, dt, k), Ticks(m, i, e, keys, dt, k + 1);
      && r.velocity == p.velocity + JumpGravity(keys)
      && (r.velocity < 0.0 ==> r.currState == MarioJump)
      && (r.velocity >= 0.0 ==> r.currState == MarioFall)
  {
    TicksStep(m, i, e, keys, dt, k);
    JumpTick(m, i, Ticks(m, i, e, keys, dt, k), keys, dt);
  }

  /** The acceleration after `n` jump ticks from launch, one gravity step at a time. */
  function RiseVelocity(keys: Keys, n: nat): real {
    if n == 0 then LaunchVelocity else RiseVelocity(keys, n - 1) + JumpGravity(keys)
  }

  /** In closed form: the launch value plus `n` steps of 0.02 walking or 0.02 * 0.9 running. */
  lemma {:induction false} RiseVelocityClosed(keys: Keys, n: nat)
    ensures !keys.run ==> RiseVelocity(keys, n) == -0.2 + (n as real) * 0.02
    ensures keys.run ==> RiseVelocity(keys, n) == -0.2 + (n as real) * 0.018
  {
    if n > 0 {
      RiseVelocityClosed(keys, n - 1);
    }
  }

  /**
   While rising, the acceleration after `n` ticks is the launch value plus
   `n` gravity steps of 0.02 walking or 0.02 * 0.9 running.
   */
  lemma {:induction false} Rising(m: seq<Entity>, i: nat, e: Entity, keys: Keys, dt: real, n: nat)
    requires Consistent(e)
    requires e.currState == MarioJump && e.velocity == LaunchVelocity
    requires n < JumpTicks(keys) && ClearOverhead(m, i, e, keys, dt, n)
    ensures Ticks(m, i, e, keys, dt, n).currState == MarioJump
    ensures Ticks(m, i, e, keys, dt, n).velocity == RiseVelocity(keys, n)
  {
    if n > 0 {
      assert ClearOverhead(m, i, e, keys, dt, n - 1);
      Rising(m, i, e, keys, dt, n - 1);
      JumpTickAt(m, i, e, keys, dt, n - 1);
      RiseVelocityClosed(keys, n);
    }
  }

  /**
   A jump launched at -0.2 with nothing overhead stays in "jump" for fewer
   than `JumpTicks` ticks and changes to "fall" exactly at tick `JumpTicks`,
   the first at which the acceleration is no longer negative, in exact
   arithmetic.
   */
  lemma JumpDuration(m: seq<Entity>, i: nat, e: Entity, keys: Keys, dt: real)
    requires Consistent(e)
    requires e.currState == MarioJump && e.velocity == LaunchVelocity
    requires ClearOverhead(m, i, e, keys, dt, JumpTicks(keys))
    ensures forall n: nat :: n < JumpTicks(keys) ==> Ticks(m, i, e, keys, dt, n).currState == MarioJump
    ensures Ticks(m, i, e, keys, dt, JumpTicks(keys)).currState == MarioFall
  {
    forall n: nat | n < JumpTicks(keys)
      ensures Ticks(m, i, e, keys, dt, n).currState == MarioJump
    {
      Rising(m, i, e, keys, dt, n);
    }
    var k := JumpTicks(keys) - 1;
    Rising(m, i, e, keys, dt, k);
    RiseVelocityClosed(keys, k + 1);
    JumpTickAt(m, i, e, keys, dt, k);
  }

  /** Space pressed while idle: the next tick enters the jump at the launch acceleration. */
  lemma IdleJumpTick(m: seq<Entity>, i: nat, p: Entity, keys: Keys, dt: real)
    requires Consistent(p) && p.currState == MarioIdle && keys.jump
    ensures Execute(m, i, p, keys, dt).currState == MarioJump
    ensures Execute(m, i, p, keys, dt).velocity == LaunchVelocity
  {
    PlayerStateMeansPlayerTable(p);
    assert Execute(m, i, p, keys, dt) == IdleStep(p, keys);
  }

  /** Holding space from rest: one tick enters the jump, which then lasts `JumpTicks` more. */
  lemma JumpFromIdle(m: seq<Entity>, i: nat, e: Entity, keys: Keys, dt: real)
    requires Consistent(e)
    requires e.currState == MarioIdle && keys.jump
    requires ClearOverhead(m, i, Ticks(m, i, e, keys, dt, 1), keys, dt, JumpTicks(keys))
    ensures Ticks(m, i, e, keys, dt, 1).currState == MarioJump
    ensures Ticks(m, i, e, keys, dt, 1 + JumpTicks(keys)).currState == MarioFall
  {
    assert Ticks(m, i, e, keys, dt, 1) == Execute(m, i, e, keys, dt);
    IdleJumpTick(m, i, e, keys, dt);
    JumpDuration(m, i, Ticks(m, i, e, keys, dt, 1), keys, dt);
    TicksAdd(m, i, e, keys, dt, 1, JumpTicks(keys));
  }

  /** Ticking `a` then `b` times is ticking `a + b` times. */
  lemma {:induction false} TicksAdd(m: seq<Entity>, i: nat, e: Entity, keys: Keys, dt: real, a: nat, b: nat)
    requires Consistent(e)
    ensures Ticks(m, i, Ticks(m, i, e, keys, dt, a), keys, dt, b) == Ticks(m, i, e, keys, dt, a + b)
  {
    IterateAdd(Tick(m, i, keys, dt), e, a, b);
  }

  /** An idle player with no key held stays exactly as it is, however many ticks pass. */
  lemma {:induction false} IdleStaysPut(m: seq<Entity>, i: nat, e: Entity, dt: real, n: nat)
    requires Consistent(e) && e.currState == MarioIdle
    ensures Ticks(m, i, e, NoKeys, dt, n) == e
  {
    if n > 0 {
      IdleStaysPut(m, i, e, dt, n - 1);
      TicksStep(m, i, e, NoKeys, dt, n - 1);
    }
  }

  /**
   The fall clamp is strict: at exactly the cap, a positive acceleration
   still carries `dy` past it for one tick, and the next tick clamps it back.
   */
  lemma FallOvershootsOnce(m: seq<Entity>, e: Entity, keys: Keys, dt: real)
    requires e.allStates == MarioTable
    requires e.dy == MaxVelocity && e.velocity > 0.0
    requires FirstBlocker(m, FloorProbe(e), 0).None?
    requires FirstBlocker(m, FloorProbe(FallStep(m, e, keys, dt)), 0).None?
    ensures FallStep(m, e, keys, dt).dy > MaxVelocity
    ensures FallStep(m, FallStep(m, e, keys, dt), keys, dt).dy == MaxVelocity
  {
  }

  /** Above the cap, one fall tick lands exactly on it while the acceleration still grows. */
  lemma FallClampExact(m: seq<Entity>, e: Entity, keys: Keys, dt: real)
    requires e.allStates == MarioTable
    requires e.dy > MaxVelocity
    requires FirstBlocker(m, FloorProbe(e), 0).None?
    ensures FallStep(m, e, keys, dt).dy == MaxVelocity
    ensures FallStep(m, e, keys, dt).velocity == e.velocity + Gravity
  {
  }
}
