# PyGameSMB simulation kernel in Dafny

This project models the deterministic kernel of `SMB.py`, an early draft of a tile-based platformer. Everything it covers is pure: the edge-probe side classification `collision_sides`, the `Entity` record with `translate`, `changeState`, `addCollision` and the edge accessors, the four player states (`MarioStateIdle`, `MarioStateMove`, `MarioStateJump`, `MarioStateFall`), and the `Level` operations `loadItem`, `getMario`, `checkCollisions` and `update`.

## Modules

Each module is in a file of the same name:

- `Options`: the `None` sentinel.
- `Geometry`: integer rectangles, truncation, and the side classification.
- `Constants`: the tuning constants.
- `Entities`: the entity record and its operations.
- `MarioStates`: the player states and the per-state dispatch.
- `Levels`: the entity sequence and its passes.
- `PlayerPhysics`: multi-tick facts about the player under a fixed level.

## Assumptions and representation choices

- **Objects.** Python objects become immutable records. A mutating method becomes a function that returns the updated record.
- **Entity references.** A reference to another entity (the entries of `collidingObjects`, `tile != mario`) becomes that entity's index in the level's entity sequence.
- **`colliderect`.** pygame's `Rect.colliderect` is taken to be strict overlap of half-open integer boxes. For rectangles of positive size, this agrees with pygame.
- **Truncation.** pygame stores integer coordinates, so a `Rect` built from float coordinates truncates them toward zero. This is `Geometry.Trunc` and `Geometry.RectAt`.
- **Floats.** Python floats are idealised as exact reals.
- **Division.** The file is Python 2, so `entity.w/3` is floor division on integers. Dafny's `/` gives the same result for the non-negative widths used here.
- **Inputs.** `pygame.key.get_pressed()` is replaced by a `Keys` record: space, `a`, `d`, left shift. The frame time `dt` is a parameter.
- **Level as a parameter.** The global `level`, which the move, jump and fall states read, is passed in as the sequence `m`.
- **Constants:**
  - tile width 50
  - `gravity` 0.02
  - `maxVelocity` 1
  - launch acceleration -0.2
  - running gravity factor 0.9
  - player speed 0.5
  - jump height 150
  - ground probes 10 pixels down
  - colours as in the file

## Merged fields

The scratch fields of the player's state objects are carried on the entity record:

- `run` of the move state is `moveRun`.
- `startHeight` and `dx` of the jump state are `jumpStartHeight` and `jumpDx`.
- `dx` of the fall state is `fallDx`.

In the game, each entity owns its own state objects, so this merge is exact.

## Behaviour worth knowing

- No `exitState` clears `collidingObjects` or `hasCollision`. Every exit is a no-op, and contact lists only grow (`Levels.UpdateOnlyAppends`).
- The fall clamp tests `dy > maxVelocity` strictly. At exactly `dy == maxVelocity` with a positive acceleration, one tick overshoots the cap (`PlayerPhysics.FallOvershootsOnce`).
- `checkCollisions` tests each entity against the player only. Block pairs are never tested.
- The level file uses `g` for ground, `m` for the player, `b` for a brick block, `q` for a question block and `p` for a pipe. A space and every other character are ignored.

## Quirks kept as written

- The move state's ground probe aliases `entity.rect` and lowers it by 10. The shift stays in the player's rectangle until the next `translate`.
- The wall push-out writes `x` without rebuilding the rectangle.
- The ceiling snap of the jump state moves the player by `y - tile.y + h`.
- Landing keeps `dy` and `velocity`.
- Releasing shift in the move state lowers `run` only after that frame's walk, so the walk of that frame still runs at double speed.
- `translate` clamps the player to x ≥ 0 even on a purely vertical move.
- The left and top probes of `collision_sides` lie inside the entity, so they do not see a flush neighbour. The right and bottom probes lie just outside it and do see one.

## Edge accessors

`Entity.left`, `right`, `top` and `bottom` are the member functions `Left`, `Right`, `Top` and `Bottom` of `Entities.Entity` (SMB.py:74-81). `CollisionSides` builds its probes from them.

## Model

| member | source | states |
|---|---|---|
| Geometry.Trunc | SMB.py:95 | a float coordinate becomes the integer toward zero, within one pixel of it |
| Geometry.RectAt | SMB.py:95 | the rectangle keeps the size and lies within one pixel of the real position, on the side toward zero |
| Geometry.SidesOf | SMB.py:545-562 | each flag holds iff its inset 1-pixel probe overlaps `b`, spelled out as conditions on `b`'s extent |
| Geometry.CornerTouchHasNoSides | SMB.py:545-562 | two boxes meeting only at a corner point get no flag |
| Geometry.FullEdgeContact | SMB.py:545-562 | a flush neighbour along the whole right or bottom edge gets exactly that flag; one along the left or top edge gets none |
| Geometry.LeftColumnContact | SMB.py:545-562 | a neighbour overlapping the leftmost column along the whole edge gets exactly the left flag |
| Geometry.TopRowContact | SMB.py:545-562 | a neighbour overlapping the top row along the whole edge gets exactly the top flag |
| Geometry.SideImpliesNear | SMB.py:545-562 | any flag implies that `b` overlaps `a` grown by one pixel to the right and down |
| Entities.NewEntity | SMB.py:63-72 | a new entity has the given position, size and colour, a fresh rectangle, its constructor's state table with the idle state as current and previous, no contacts, and faces right; a player also has speed 0.5, dy 0, acceleration 0, jump height 150 and is alive (SMB.py:188-196) |
| Entities.Translate | SMB.py:83-95 | facing turns left for dx < 0, right for dx > 0, and is kept for dx = 0; y moves by dy; x moves by dx except that a player ending left of 0 lands on 0; the rectangle is rebuilt; nothing else changes |
| Entities.TranslateAdds | SMB.py:83-95 | two moves of a non-player add up, the last non-zero dx decides the facing, and the rectangle follows |
| Entities.VerticalTranslateClamps | SMB.py:89-93 | a vertical-only move still puts a player left of the edge back at x = 0 and keeps the facing |
| Entities.ExitState | SMB.py:230-231 | every state's exit leaves the entity unchanged (also SMB.py:287-288, 331-332, 369-370) |
| Entities.EnterState | SMB.py:234-236 | entering move lowers the run flag; entering jump (SMB.py:292-296) sets dy 0, acceleration -0.2, start height y and dx 0; entering fall (SMB.py:337-338) sets dx 0; every other enter is a no-op |
| Entities.ChangeState | SMB.py:97-105 | an unknown id changes nothing; a known id makes the old current state the previous one and the table's state current, runs that state's enter (reset of the jump, fall or move scratch fields), and leaves position, rectangle, facing and identity alone |
| Entities.ChangeStateToCurrent | SMB.py:97-105 | changing to the current state keeps it current and also makes it the previous state |
| Entities.AddCollision | SMB.py:107-109 | the contact list grows by one, its old entries are kept as a prefix, the new last entry is the other entity, and the flag is raised |
| Entities.CollisionSides | SMB.py:545-562 | each flag holds iff the truncated probe on that edge of `a` overlaps `b`'s rectangle |
| Entities.CollisionSidesOnGrid | SMB.py:545-562 | at whole-pixel coordinates, `collision_sides` equals the integer classification `SidesOf` of the entity's box |
| MarioStates.FirstBlocker | SMB.py:315-316 | the first non-player entity overlapping the probe: no earlier one does, and with None none does |
| MarioStates.Supported | SMB.py:253-256 | true iff some other entity overlaps the probe |
| MarioStates.IdleStep | SMB.py:219-228 | space changes to jump, entering it with dy 0, acceleration -0.2, dx 0 and start height y; otherwise `a`, then `d`, sets the facing and changes to move, which lowers the run flag; with no key the entity is unchanged; the position never changes |
| MarioStates.PushOne | SMB.py:243-248 | a left contact puts x on the tile's right edge; otherwise a right contact puts the right edge on the tile's left edge; otherwise nothing changes; only x is written |
| MarioStates.PushOut | SMB.py:242-248 | the push-out loop writes only x |
| MarioStates.PushOneIdempotent | SMB.py:243-248 | pushing out of the same whole-pixel tile a second time changes nothing |
| MarioStates.PushOutDuplicate | SMB.py:242-248 | a whole-pixel tile listed twice in a row anywhere in the contact list gives the same result as listed once |
| MarioStates.Lowered | SMB.py:251-252 | the ground probe is the entity's rectangle moved 10 pixels down |
| MarioStates.ProbeGround | SMB.py:241-259 | after the push-out the rectangle is the old one lowered by 10; with no other entity under it the state changes to fall, and otherwise only x and the rectangle change |
| MarioStates.WalkX | SMB.py:267-279 | `a` moves left and then `d` moves right by the distance, each through the left-edge clamp; the player stays at x ≥ 0 |
| MarioStates.Walk | SMB.py:267-279 | walking sets x as `WalkX` says and the facing to the last key held, keeps y and the states, and rebuilds the rectangle when it moves |
| MarioStates.Act | SMB.py:261-285 | the run flag ends equal to shift; a run flag left from the previous frame still doubles the distance; the state becomes idle with no direction key, otherwise jump on space; entering jump launches at -0.2 |
| MarioStates.MoveStep | SMB.py:238-285 | the move step: y kept, push-out then walk for x, the stale lowered rectangle when no direction key is held, the state idle / jump / fall / unchanged in that priority, the jump's launch values on space, and the fall's dx zeroed iff the ground probe found nothing |
| MarioStates.CeilingProbe | SMB.py:314 | the jump probe keeps the player's size and, at whole-pixel positions, is its box raised by a third of its width (floor division) |
| MarioStates.FloorProbe | SMB.py:354 | the fall probe keeps the player's size and, at whole-pixel positions, is its box lowered by 10 |
| MarioStates.HitCeiling | SMB.py:314-319 | the ceiling branch moves by (0, y - tile.y + h) with a rebuilt rectangle and the facing kept, changes to fall, and keeps dy and velocity |
| MarioStates.Rise | SMB.py:321-329 | dy gains the acceleration, the acceleration gains gravity; at acceleration ≥ 0 the state changes to fall, with position, rectangle and facing kept and the fall's dx zeroed; otherwise the entity moves by (dx*dt, dy*dt), turning by the sign of dx, with a rebuilt rectangle |
| MarioStates.JumpStep | SMB.py:298-329 | steering (`d` after `a`) sets dx at the possibly doubled speed and the facing; a blocked ceiling probe gives the ceiling branch; otherwise gravity is scaled by 0.9 when running, with fall at the first acceleration ≥ 0 (rectangle kept) and otherwise a move (rectangle rebuilt, facing turned by dx); both changes to fall record jump as the previous state and zero the fall's dx (SMB.py:337-338) |
| MarioStates.ClampFall | SMB.py:361-364 | dy is set to the cap when it is strictly above it, and otherwise gains the acceleration |
| MarioStates.Land | SMB.py:354-359 | landing changes to idle, puts the bottom edge on the tile's top with the facing kept, and keeps dy and velocity |
| MarioStates.Drop | SMB.py:361-367 | the clamp or accumulation of dy, acceleration plus gravity, and a move by (dx*dt, dy*dt) with dy the new value, turning by the sign of dx |
| MarioStates.FallStep | SMB.py:340-367 | steering sets dx and the facing, then a landing on the first blocking tile under the probe, else the airborne update with the facing turned by dx; the state is kept while airborne |
| MarioStates.BlockTableValues | SMB.py:124-184 | a block's table holds only its idle state |
| MarioStates.PlayerStateMeansPlayerTable | SMB.py:186-196 | an entity whose current state is a player state has the player's four-state table |
| MarioStates.Execute | SMB.py:198-199 | the player's idle, move, jump and fall states run `IdleStep`, `MoveStep`, `JumpStep` and `FallStep`; a block's idle state changes nothing (SMB.py:377-378); the table invariant and identity are kept |
| PlayerPhysics.Ticks | SMB.py:198-199 | repeated updates keep the table invariant and identity |
| PlayerPhysics.JumpTick | SMB.py:321-329 | with no tile meeting the ceiling probe, one jump tick adds the running-scaled gravity, stays in jump while the acceleration is negative, and falls once it is not |
| PlayerPhysics.RiseVelocityClosed | SMB.py:296-323 | n gravity steps from the launch value give -0.2 + 0.02n walking and -0.2 + 0.018n running, in exact arithmetic |
| PlayerPhysics.Rising | SMB.py:292-329 | with the ceiling probe clear at every tick, after n < 10 (12 when running) ticks from launch the player is still in jump, its acceleration the launch value plus n gravity steps |
| PlayerPhysics.JumpDuration | SMB.py:292-329 | with the ceiling probe clear at every tick, in exact arithmetic a jump lasts exactly 10 ticks walking and 12 running before the change to fall |
| PlayerPhysics.IdleJumpTick | SMB.py:219-222 | space from idle enters jump at the launch acceleration |
| PlayerPhysics.JumpFromIdle | SMB.py:219-329 | holding space from rest enters jump after one tick and, with the ceiling probe clear, falls after 10 (12) more in exact arithmetic |
| PlayerPhysics.IdleStaysPut | SMB.py:219-228 | an idle player with no key held is unchanged after any number of ticks |
| PlayerPhysics.FallOvershootsOnce | SMB.py:361-364 | with the landing probe clear on both ticks, at exactly the cap with a positive acceleration, dy exceeds the cap after one tick and is clamped back after the next |
| PlayerPhysics.FallClampExact | SMB.py:361-366 | with the landing probe clear and above the cap, one airborne tick sets dy to the cap while the acceleration still gains gravity |
| Levels.MarioFrom | SMB.py:483-487 | the first entity from an index on in the player colour: no earlier one has it, and with None none does |
| Levels.GetMario | SMB.py:483-487 | the first entity in the player colour, or None if there is none |
| Levels.MarioFromColors | SMB.py:483-487 | the player lookup depends on the colours only |
| Levels.LoadItem | SMB.py:446-466 | a tile character appends one fresh idle entity on its grid cell at 50×50 with no contacts: `g` a ground block in ground brown, `m` the player in white with its initial attributes, `b` a brick block in brick brown, `q` a question block in gold, `p` a pipe in green; the result is the player iff the character is `m`; any other character adds nothing |
| Levels.LoadRow | SMB.py:439-443 | loading a row only appends to the level |
| Levels.LoadRows | SMB.py:438-444 | loading the rows only appends to the level |
| Levels.LoadRowAdds | SMB.py:439-443 | a row adds exactly one fresh tile per tile character |
| Levels.LoadRowsFresh | SMB.py:438-444 | the rows add one entity per tile character, and every entity of a loaded level is a fresh tile |
| Levels.LoadLevel | SMB.py:436-444 | loading a level file gives one fresh tile per tile character of its rows |
| Levels.LoadLevelOk | SMB.py:434-444 | a loaded level satisfies the level invariant |
| Levels.ContactsFromExact | SMB.py:478-481 | the player's new contacts are exactly the other overlapping entities, in strictly increasing level order, each once |
| Levels.Touch | SMB.py:479-481 | one detected contact: the entity gets the player appended and the player gets the entity appended; nothing else changes |
| Levels.CollideFrom | SMB.py:478-481 | the detector loop keeps the level's length |
| Levels.CollideFromOthers | SMB.py:478-481 | after the loop, each other entity has the player appended iff it overlaps the player, and is otherwise unchanged |
| Levels.CollideFromPlayer | SMB.py:478-481 | after the loop, the player's list is its old list followed by the contacts, and its flag is raised iff it was raised or there is a contact |
| Levels.CollideFromPlayerRest | SMB.py:478-481 | the loop changes nothing of the player's but its list and flag |
| Levels.CheckCollisions | SMB.py:474-481 | with no player nothing changes; otherwise overlapping entities and the player record each other once, in level order, and everything else is unchanged |
| Levels.ExecuteFrom | SMB.py:469-470 | the update pass keeps the level's length |
| Levels.PassOne | SMB.py:469-470 | a pass in which every element but one is left alone by its step replaces that one element by its step against the sequence as it stands |
| Levels.ExecuteFromKeepsAt | SMB.py:468-470 | the update pass keeps an entity's identity and table invariant, and leaves it unchanged when it is before the starting index or in a block state |
| Levels.ExecuteFromKeeps | SMB.py:468-470 | the same for every entity of the level at once |
| Levels.ExecuteFromBlocks | SMB.py:468-470 | over entities all in block states the update pass changes nothing |
| Levels.ExecuteFromOnePlayer | SMB.py:468-470 | with one entity in a player state, the update pass replaces it by its own step and leaves the rest alone |
| Levels.UpdateOnePlayer | SMB.py:468-472 | with one entity in a player state, a frame is that entity's step followed by the collision pass |
| Levels.Update | SMB.py:468-472 | a frame keeps the level's length |
| Levels.CheckCollisionsOnlyContacts | SMB.py:474-481 | the collision pass changes each entity only in its contact list and flag |
| Levels.CheckCollisionsOk | SMB.py:474-481 | the collision pass keeps contacts within the level and the flag equal to a non-empty list |
| Levels.UpdateOk | SMB.py:468-472 | a frame keeps the level invariant |
| Levels.UpdateOnlyAppends | SMB.py:468-481 | no frame shortens a contact list or lowers a flag |
| Levels.UpdateKeepsBlocks | SMB.py:468-481 | an entity in a block state changes only in its contacts |
| Levels.UpdateKeepsMario | SMB.py:468-487 | the player found after a frame is the one found before it |

## Left out

- Camera, `draw` and `render`: presentation only.
- The main loop, event polling, `clock.tick` and window setup: I/O and process concerns.
- Reading the level file in `Level.__init__`: I/O. The loops over rows and characters are modelled on a given sequence of lines.
- `Coin`, `Mushroom` and `Goomba`: `loadItem` never creates them; Mushroom's and Goomba's state classes are missing from the file (SMB.py:160, 169), and none of the three sets a current state.
- The block and pipe idle states: these are no-ops, which `Execute` covers.
- `pygame.key.get_pressed()`: replaced by the `Keys` parameter.
- pygame `Rect` beyond the strict-overlap test and truncation.
- IEEE float rounding: the arithmetic is exact.
- PlayerPhysics.JumpDuration: the tick counts hold in exact arithmetic. In IEEE doubles, -0.2 plus ten additions of 0.02 is about -2.1e-17, still negative, so the program's walking jump changes to fall at tick 11, not 10. The running count of 12 is the same in doubles.
- PlayerPhysics.JumpFromIdle: inherits the exact-arithmetic count of `JumpDuration`; in doubles the walking case falls one tick later.
- `newState`: the temporary attribute `changeState` stores on the entity is not kept.
- PlayerPhysics.Ticks: holds the rest of the level fixed while one entity updates repeatedly, which the real loop does not do between frames.
- Levels.Update: its own contract states only the length. The level invariant, append-only lists, unchanged blocks and a stable player are stated by the `Update*` lemmas.
- Levels.ExecuteFrom: its own contract states only the length. What the pass does to each entity is stated by `ExecuteFromKeepsAt`, `ExecuteFromBlocks` and `ExecuteFromOnePlayer`.
- Levels.CollideFrom: its own contract states only the length. Its effect is stated by `CollideFromOthers`, `CollideFromPlayer` and `CollideFromPlayerRest`.
