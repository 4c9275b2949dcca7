/**
 `Level`: the ordered entity sequence (`self.map`), its per-cell loader, the
 player lookup, the collision detector and the per-frame update.
 */
module Levels {
  import opened Options
  import opened Geometry
  import opened Constants
  import opened Entities
  import opened MarioStates

  const BlankTile: char := ' '
  const GroundTile: char := 'g'
  const MarioTile: char := 'm'
  const PipeTile: char := 'p'
  const BlockTile: char := 'b'
  const QuestionTile: char := 'q'

  /** The first entity from index `j` on drawn in the player's colour. */
  function MarioFrom(m: seq<Entity>, j: nat): (r: Option<nat>)
    decreases |m| - j
    ensures r.Some? ==> j <= r.value < |m| && m[r.value].color == MarioColor
    ensures r.Some? ==> forall t :: j <= t < r.value ==> m[t].color != MarioColor
    ensures r.None? ==> forall t :: j <= t < |m| ==> m[t].color != MarioColor
  {
    if j >= |m| then None
    else if m[j].color == MarioColor then Some(j)
    else MarioFrom(m, j + 1)
  }

  /** `Level.getMario`: the first entity in the player's colour, or None. */
  function GetMario(m: seq<Entity>): (r: Option<nat>)
    ensures r.Some? ==> r.value < |m| && m[r.value].color == MarioColor
    ensures r.Some? ==> forall t :: 0 <= t < r.value ==> m[t].color != MarioColor
    ensures r.None? ==> forall t :: 0 <= t < |m| ==> m[t].color != MarioColor
  {
    MarioFrom(m, 0)
  }

  /** The player lookup reads colours only. */
  lemma {:induction false} MarioFromColors(m: seq<Entity>, m': seq<Entity>, j: nat)
    requires |m| == |m'|
    requires forall t :: 0 <= t < |m| ==> m[t].color == m'[t].color
    ensures MarioFrom(m, j) == MarioFrom(m', j)
    decreases |m| - j
  {
    if j < |m| && m[j].color != MarioColor {
      MarioFromColors(m, m', j + 1);
    }
  }

  /** An entity placed on grid cell (`col`, `row`), one tile in size. */
  ghost predicate PlacedAt(e: Entity, col: nat, row: nat) {
    && e.x == (col * TileWidth) as real && e.y == (row * TileWidth) as real
    && e.w == TileWidth && e.h == TileWidth
    && e.rect == Rect(col * TileWidth, row * TileWidth, TileWidth, TileWidth)
  }

  /**
   `Level.loadItem`: one grid character at column `col`, row `row`. The five
   tile characters each append one fresh entity placed on that cell; the
   blank and every other character (a line's newline included) add nothing.
   */
  function LoadItem(m: seq<Entity>, tile: char, col: nat, row: nat): (r: seq<Entity>)
    ensures !IsTile(tile) ==> r == m
    ensures IsTile(tile) ==>
      && |r| == |m| + 1 && r[..|m|] == m
      && PlacedAt(r[|m|], col, row)
      && Consistent(r[|m|]) && r[|m|].currState == r[|m|].allStates["idle"]
      && r[|m|].collidingObjects == [] && !r[|m|].hasCollision
      && (r[|m|].kind == Mario <==> tile == MarioTile)
      && (r[|m|].color == MarioColor <==> tile == MarioTile)
    ensures tile == GroundTile ==> r[|m|].kind == GroundBlock && r[|m|].color == GroundBrown
    ensures tile == MarioTile ==> r[|m|].kind == Mario && r[|m|].color == White
    ensures tile == BlockTile ==> r[|m|].kind == BrickBlock && r[|m|].color == BrickBrown
    ensures tile == QuestionTile ==> r[|m|].kind == QuestionBlock && r[|m|].color == Gold
    ensures tile == PipeTile ==> r[|m|].kind == Pipe && r[|m|].color == Green
    ensures tile == MarioTile ==>
      && r[|m|].speed == MarioSpeed && !r[|m|].isDead && r[|m|].dy == 0.0
      && r[|m|].velocity == 0.0 && r[|m|].jumpHeight == MarioJumpHeight
      && r[|m|].direction == FacingRight
  {
    var xPos := col * TileWidth;
    var yPos := row * TileWidth;
    TruncOfInt(xPos);
    TruncOfInt(yPos);
    var x := xPos as real;
    var y := yPos as real;
    if tile == BlankTile then m
    else if tile == GroundTile then m + [NewEntity(GroundBlock, x, y, TileWidth, TileWidth, GroundBrown)]
    else if tile == MarioTile then m + [NewEntity(Mario, x, y, TileWidth, TileWidth, White)]
    else if tile == BlockTile then m + [NewEntity(BrickBlock, x, y, TileWidth, TileWidth, BrickBrown)]
    else if tile == QuestionTile then m + [NewEntity(QuestionBlock, x, y, TileWidth, TileWidth, Gold)]
    else if tile == PipeTile then m + [NewEntity(Pipe, x, y, TileWidth, TileWidth, Green)]
    else m
  }

  /** The characters `loadItem` turns into an entity. */
  predicate IsTile(c: char) {
    c in {GroundTile, MarioTile, BlockTile, QuestionTile, PipeTile}
  }

  /** The number of tile characters in a row. */
  function TileCount(row: seq<char>): nat {
    if row == [] then 0 else (if IsTile(row[0]) then 1 else 0) + TileCount(row[1..])
  }

  /** A freshly loaded tile: one grid cell in size, idle in its own table, with no contacts. */
  ghost predicate FreshTile(e: Entity) {
    && Consistent(e) && e.w == TileWidth && e.h == TileWidth
    && "idle" in e.allStates && e.currState == e.allStates["idle"]
    && e.collidingObjects == [] && !e.hasCollision
  }

  ghost predicate AllFresh(m: seq<Entity>) {
    forall t :: 0 <= t < |m| ==> FreshTile(m[t])
  }

  /** The inner loop of `Level.__init__`: the characters of one row, from column `col` on. */
  function LoadRow(m: seq<Entity>, row: seq<char>, col: nat, line: nat): (r: seq<Entity>)
    decreases |row|
    ensures |m| <= |r| && r[..|m|] == m
  {
    if row == [] then m
    else LoadRow(LoadItem(m, row[0], col, line), row[1..], col + 1, line)
  }

  /** The outer loop of `Level.__init__`: the rows of the level file, from line `line` on. */
  function LoadRows(m: seq<Entity>, rows: seq<seq<char>>, line: nat): (r: seq<Entity>)
    decreases |rows|
    ensures |m| <= |r| && r[..|m|] == m
  {
    if rows == [] then m
    else LoadRows(LoadRow(m, rows[0], 0, line), rows[1..], line + 1)
  }

  /** The number of tile characters in all the rows. */
  function TilesIn(rows: seq<seq<char>>): nat {
    if rows == [] then 0 else TileCount(rows[0]) + TilesIn(rows[1..])
  }

  /** The entity sequence built from the lines of a level file: one fresh tile per tile character. */
  function LoadLevel(rows: seq<seq<char>>): (r: seq<Entity>)
    ensures |r| == TilesIn(rows)
    ensures AllFresh(r)
  {
    LoadRowsFresh([], rows, 0);
    LoadRows([], rows, 0)
  }

  /** A row adds one fresh tile per tile character and nothing else. */
  lemma {:induction false} LoadRowAdds(m: seq<Entity>, row: seq<char>, col: nat, line: nat)
    requires AllFresh(m)
    decreases |row|
    ensures |LoadRow(m, row, col, line)| == |m| + TileCount(row)
    ensures AllFresh(LoadRow(m, row, col, line))
  {
    if row != [] {
      LoadItemFresh(m, row[0], col, line);
      LoadRowAdds(LoadItem(m, row[0], col, line), row[1..], col + 1, line);
    }
  }

  /** Loading one character keeps every entity a fresh tile. */
  lemma LoadItemFresh(m: seq<Entity>, tile: char, col: nat, line: nat)
    requires AllFresh(m)
    ensures AllFresh(LoadItem(m, tile, col, line))
  {
    var m' := LoadItem(m, tile, col, line);
    if IsTile(tile) {
      assert forall t :: 0 <= t < |m| ==> m'[t] == m[t];
    }
  }

  /** Every entity of a loaded level is a fresh tile, so the level invariant holds from the start. */
  lemma {:induction false} LoadRowsFresh(m: seq<Entity>, rows: seq<seq<char>>, line: nat)
    requires AllFresh(m)
    decreases |rows|
    ensures |LoadRows(m, rows, line)| == |m| + TilesIn(rows)
    ensures AllFresh(LoadRows(m, rows, line))
  {
    if rows != [] {
      LoadRowAdds(m, rows[0], 0, line);
      LoadRowsFresh(LoadRow(m, rows[0], 0, line), rows[1..], line + 1);
    }
  }

  lemma LoadLevelOk(rows: seq<seq<char>>)
    ensures LevelOk(LoadLevel(rows))
  {
    var m := LoadLevel(rows);
    forall t | 0 <= t < |m|
      ensures EntityOk(m[t], |m|)
    {
      assert FreshTile(m[t]);
    }
  }

  /**
   The entities, from index `j` on, other than the player at `k`, whose
   rectangle overlaps the player's: each once, in level order.
   */
  function ContactsFrom(m: seq<Entity>, k: nat, j: nat): (r: seq<nat>)
    requires k < |m|
    decreases |m| - j
  {
    if j >= |m| then []
    else if j != k && Overlaps(m[j].rect, m[k].rect) then [j] + ContactsFrom(m, k, j + 1)
    else ContactsFrom(m, k, j + 1)
  }

  /**
   The contact list holds exactly the other entities from `j` on that overlap
   the player, in strictly increasing index order, so each appears once.
   */
  lemma {:induction false} ContactsFromExact(m: seq<Entity>, k: nat, j: nat)
    requires k < |m|
    decreases |m| - j
    ensures var r := ContactsFrom(m, k, j);
      forall c :: c in r <==> j <= c < |m| && c != k && Overlaps(m[c].rect, m[k].rect)
    ensures var r := ContactsFrom(m, k, j);
      forall a :: 0 <= a < |r| ==> j <= r[a]
    ensures var r := ContactsFrom(m, k, j);
      forall a, b :: 0 <= a < b < |r| ==> r[a] < r[b]
  {
    if j < |m| {
      ContactsFromExact(m, k, j + 1);
      var rest := ContactsFrom(m, k, j + 1);
      if j != k && Overlaps(m[j].rect, m[k].rect) {
        assert ContactsFrom(m, k, j) == [j] + rest;
      } else {
        assert ContactsFrom(m, k, j) == rest;
      }
    }
  }

  /** The contact list depends on the rectangles alone. */
  lemma {:induction false} ContactsSameRects(m: seq<Entity>, m': seq<Entity>, k: nat, j: nat)
    requires k < |m| && |m| == |m'|
    requires forall t :: 0 <= t < |m| ==> m[t].rect == m'[t].rect
    ensures ContactsFrom(m, k, j) == ContactsFrom(m', k, j)
    decreases |m| - j
  {
    if j < |m| {
      ContactsSameRects(m, m', k, j + 1);
    }
  }

  /** One detected contact: the entity at `j` and the player at `k` record each other. */
  function Touch(m: seq<Entity>, k: nat, j: nat): (r: seq<Entity>)
    requires k < |m| && j < |m| && j != k
    ensures |r| == |m|
    ensures r[j] == AddCollision(m[j], k) && r[k] == AddCollision(m[k], j)
    ensures forall t :: 0 <= t < |m| && t != j && t != k ==> r[t] == m[t]
  {
    m[j := AddCollision(m[j], k)][k := AddCollision(m[k], j)]
  }

  /** Recording a contact moves nothing, so the player's contacts are as before. */
  lemma TouchKeepsContacts(m: seq<Entity>, k: nat, j: nat, from: nat)
    requires k < |m| && j < |m| && j != k
    ensures Touch(m, k, j)[k].rect == m[k].rect
    ensures ContactsFrom(Touch(m, k, j), k, from) == ContactsFrom(m, k, from)
  {
    var m' := Touch(m, k, j);
    assert forall t :: 0 <= t < |m| ==> m'[t].rect == m[t].rect;
    ContactsSameRects(m, m', k, from);
  }

  /**
   The detector loop of `checkCollisions` from index `j` on, the player at
   `k`: every other entity overlapping the player gets the player appended,
   and the player gets all of them appended in level order.
   */
  function CollideFrom(m: seq<Entity>, k: nat, j: nat): (r: seq<Entity>)
    requires k < |m|
    decreases |m| - j
    ensures |r| == |m|
  {
    if j >= |m| then m
    else if j != k && Overlaps(m[j].rect, m[k].rect) then CollideFrom(Touch(m, k, j), k, j + 1)
    else CollideFrom(m, k, j + 1)
  }

  /** What the detector loop from index `j` leaves at every index other than the player's. */
  lemma {:induction false} CollideFromOthers(m: seq<Entity>, k: nat, j: nat, t: nat)
    requires k < |m| && t < |m| && t != k
    decreases |m| - j
    ensures CollideFrom(m, k, j)[t]
      == if j <= t && Overlaps(m[t].rect, m[k].rect) then AddCollision(m[t], k) else m[t]
  {
    if j < |m| {
      if j != k && Overlaps(m[j].rect, m[k].rect) {
        var m' := Touch(m, k, j);
        CollideFromOthers(m', k, j + 1, t);
        assert m'[t].rect == m[t].rect && m'[k].rect == m[k].rect;
      } else {
        CollideFromOthers(m, k, j + 1, t);
      }
    }
  }

  /** What the detector loop from index `j` leaves at the player's index. */
  lemma {:induction false} CollideFromPlayer(m: seq<Entity>, k: nat, j: nat)
    requires k < |m|
    decreases |m| - j
    ensures CollideFrom(m, k, j)[k].collidingObjects == m[k].collidingObjects + ContactsFrom(m, k, j)
    ensures CollideFrom(m, k, j)[k].hasCollision == (m[k].hasCollision || ContactsFrom(m, k, j) != [])
  {
    if j < |m| {
      if j != k && Overlaps(m[j].rect, m[k].rect) {
        var m' := Touch(m, k, j);
        TouchKeepsContacts(m, k, j, j + 1);
        CollideFromPlayer(m', k, j + 1);
        var rest := ContactsFrom(m, k, j + 1);
        assert ContactsFrom(m, k, j) == [j] + rest;
        assert m'[k].collidingObjects == m[k].collidingObjects + [j];
        assert (m[k].collidingObjects + [j]) + rest == m[k].collidingObjects + ([j] + rest);
      } else {
        CollideFromPlayer(m, k, j + 1);
      }
    }
  }

  /** The loop changes nothing of the player's but its contact list and flag. */
  lemma {:induction false} CollideFromPlayerRest(m: seq<Entity>, k: nat, j: nat)
    requires k < |m|
    decreases |m| - j
    ensures var p := CollideFrom(m, k, j)[k];
      p == m[k].(collidingObjects := p.collidingObjects, hasCollision := p.hasCollision)
  {
    if j < |m| {
      if j != k && Overlaps(m[j].rect, m[k].rect) {
        CollideFromPlayerRest(Touch(m, k, j), k, j + 1);
      } else {
        CollideFromPlayerRest(m, k, j + 1);
      }
    }
  }

  /**
   `Level.checkCollisions`: with no player, nothing changes. Otherwise each
   other entity overlapping the player gets the player appended once, the
   player gets those entities appended in level order, both get the flag
   raised, and everything else is unchanged.
   */
  function CheckCollisions(m: seq<Entity>): (r: seq<Entity>)
    ensures GetMario(m).None? ==> r == m
    ensures |r| == |m|
    ensures GetMario(m).Some? ==>
      var k := GetMario(m).value;
      && (forall t :: 0 <= t < |m| && t != k ==>
            r[t] == if Overlaps(m[t].rect, m[k].rect) then AddCollision(m[t], k) else m[t])
      && r[k] == m[k].(
           collidingObjects := m[k].collidingObjects + ContactsFrom(m, k, 0),
           hasCollision := m[k].hasCollision || ContactsFrom(m, k, 0) != [])
  {
    match GetMario(m)
    case None => m
    case Some(k) =>
      CollideFromPlayer(m, k, 0);
      CollideFromPlayerRest(m, k, 0);
      assert forall t :: 0 <= t < |m| && t != k ==>
        (CollideFrom(m, k, 0)[t] == if Overlaps(m[t].rect, m[k].rect) then AddCollision(m[t], k) else m[t]) by {
        forall t | 0 <= t < |m| && t != k {
          CollideFromOthers(m, k, 0, t);
        }
      }
      CollideFrom(m, k, 0)
  }

  /** Every entity's own invariant, with contacts naming entities of a level of `n`. */
  ghost predicate EntityOk(e: Entity, n: nat) {
    && Consistent(e)
    && (e.hasCollision <==> |e.collidingObjects| > 0)
    && forall c :: c in e.collidingObjects ==> c < n
  }

  ghost predicate LevelOk(m: seq<Entity>) {
    forall t :: 0 <= t < |m| ==> EntityOk(m[t], |m|)
  }

  /**
   One pass over a sequence from index `i` on: each element in turn is
   replaced by `step` of the sequence as it stands, its index and itself.
   */
  function Pass<T>(step: (seq<T>, nat, T) -> T, m: seq<T>, i: nat): (r: seq<T>)
    decreases |m| - i
    ensures |r| == |m|
  {
    if i >= |m| then m else Pass(step, m[i := step(m, i, m[i])], i + 1)
  }

  /** A pass over elements that `step` leaves alone changes nothing. */
  lemma {:induction false} PassFixed<T>(step: (seq<T>, nat, T) -> T, m: seq<T>, j: nat)
    requires forall t :: j <= t < |m| ==> step(m, t, m[t]) == m[t]
    decreases |m| - j
    ensures Pass(step, m, j) == m
  {
    if j < |m| {
      assert m[j := m[j]] == m;
      PassFixed(step, m, j + 1);
    }
  }

  /**
   A pass in which `step` leaves alone every element but the one at `k`,
   those after `k` whatever the sequence around them, replaces that element
   by its step against the sequence as it stands.
   */
  lemma {:induction false} PassOne<T>(step: (seq<T>, nat, T) -> T, m: seq<T>, k: nat, j: nat)
    requires j <= k < |m|
    requires forall t :: j <= t < k ==> step(m, t, m[t]) == m[t]
    requires forall s: seq<T>, t: nat :: k < t < |m| ==> step(s, t, m[t]) == m[t]
    decreases |m| - j
    ensures Pass(step, m, j) == m[k := step(m, k, m[k])]
  {
    if j < k {
      assert m[j := m[j]] == m;
      PassOne(step, m, k, j + 1);
    } else {
      PassFixedAfter(step, m, k, step(m, k, m[k]));
    }
  }

  /** After `k` is overwritten, the pass over the elements `step` leaves alone changes nothing. */
  lemma PassFixedAfter<T>(step: (seq<T>, nat, T) -> T, m: seq<T>, k: nat, x: T)
    requires k < |m|
    requires forall s: seq<T>, t: nat :: k < t < |m| ==> step(s, t, m[t]) == m[t]
    ensures Pass(step, m[k := x], k + 1) == m[k := x]
  {
    var m' := m[k := x];
    forall t: nat | k + 1 <= t < |m'|
      ensures step(m', t, m'[t]) == m'[t]
    {
      assert m'[t] == m[t];
    }
    PassFixed(step, m', k + 1);
  }

  /** One entity's update within the pass; an inconsistent entity is left alone. */
  ghost function Step(keys: Keys, dt: real): (seq<Entity>, nat, Entity) -> Entity {
    (s: seq<Entity>, t: nat, e: Entity) => if Consistent(e) then Execute(s, t, e, keys, dt) else e
  }

  /** The update pass from index `i` on: each entity's current state executes, in level order. */
  ghost function ExecuteFrom(m: seq<Entity>, i: nat, keys: Keys, dt: real): (r: seq<Entity>)
    requires forall t :: 0 <= t < |m| ==> Consistent(m[t])
    ensures |r| == |m|
  {
    Pass(Step(keys, dt), m, i)
  }

  /**
   The update pass keeps the identity and table invariant of the entity at
   `t`, and leaves it alone when it comes before the starting index or is in
   a block state.
   */
  lemma {:induction false} ExecuteFromKeepsAt(m: seq<Entity>, i: nat, keys: Keys, dt: real, t: nat)
    requires forall t :: 0 <= t < |m| ==> Consistent(m[t])
    requires t < |m|
    decreases |m| - i
    ensures var r := ExecuteFrom(m, i, keys, dt)[t];
      && SameIdentity(m[t], r) && Consistent(r)
      && (t < i || !IsMarioState(m[t].currState) ==> r == m[t])
  {
    if i < |m| {
      var m' := m[i := Execute(m, i, m[i], keys, dt)];
      assert Step(keys, dt)(m, i, m[i]) == Execute(m, i, m[i], keys, dt);
      ExecuteFromKeepsAt(m', i + 1, keys, dt, t);
    }
  }

  /** `ExecuteFromKeepsAt` for every entity at once. */
  lemma ExecuteFromKeeps(m: seq<Entity>, i: nat, keys: Keys, dt: real)
    requires forall t :: 0 <= t < |m| ==> Consistent(m[t])
    ensures var r := ExecuteFrom(m, i, keys, dt);
      && (forall t :: 0 <= t < |m| ==> SameIdentity(m[t], r[t]) && Consistent(r[t]))
      && (forall t :: 0 <= t < |m| && (t < i || !IsMarioState(m[t].currState)) ==> r[t] == m[t])
  {
    forall t | 0 <= t < |m| {
      ExecuteFromKeepsAt(m, i, keys, dt, t);
    }
  }

  /** Over entities all in block states, the update pass changes nothing. */
  lemma ExecuteFromBlocks(m: seq<Entity>, j: nat, keys: Keys, dt: real)
    requires forall t :: 0 <= t < |m| ==> Consistent(m[t])
    requires forall t :: j <= t < |m| ==> !IsMarioState(m[t].currState)
    ensures ExecuteFrom(m, j, keys, dt) == m
  {
    PassFixed(Step(keys, dt), m, j);
  }

  /**
   In a level whose only entity in a player state is at `k`, the update pass
   from any index up to `k` replaces that entity by its own step, taken
   against the level as it stands, and leaves every other entity alone.
   */
  lemma ExecuteFromOnePlayer(m: seq<Entity>, k: nat, j: nat, keys: Keys, dt: real)
    requires forall t :: 0 <= t < |m| ==> Consistent(m[t])
    requires k < |m| && j <= k
    requires forall t :: 0 <= t < |m| && t != k ==> !IsMarioState(m[t].currState)
    ensures ExecuteFrom(m, j, keys, dt) == m[k := Execute(m, k, m[k], keys, dt)]
  {
    var step := Step(keys, dt);
    forall s: seq<Entity>, t | k < t < |m|
      ensures step(s, t, m[t]) == m[t]
    {
    }
    PassOne(step, m, k, j);
    assert step(m, k, m[k]) == Execute(m, k, m[k], keys, dt);
  }

  /** `Level.update`: every entity executes, then the collision pass runs. */
  ghost function Update(m: seq<Entity>, keys: Keys, dt: real): (r: seq<Entity>)
    requires LevelOk(m)
    ensures |r| == |m|
  {
    CheckCollisions(ExecuteFrom(m, 0, keys, dt))
  }

  /** The collision pass keeps the level invariant. */
  lemma CheckCollisionsOk(m: seq<Entity>)
    requires LevelOk(m)
    ensures LevelOk(CheckCollisions(m))
  {
    var r := CheckCollisions(m);
    if GetMario(m).Some? {
      var k := GetMario(m).value;
      forall t | 0 <= t < |m|
        ensures EntityOk(r[t], |r|)
      {
        if t == k {
          ContactsFromExact(m, k, 0);
          assert forall c :: c in r[k].collidingObjects ==>
            c in m[k].collidingObjects || c in ContactsFrom(m, k, 0);
        } else if Overlaps(m[t].rect, m[k].rect) {
          assert forall c :: c in r[t].collidingObjects ==> c in m[t].collidingObjects || c == k;
        }
      }
    }
  }

  /** The collision pass changes no entity but in its contact list and flag. */
  lemma CheckCollisionsOnlyContacts(m: seq<Entity>, t: nat)
    requires t < |m|
    ensures var r := CheckCollisions(m)[t];
      r == m[t].(collidingObjects := r.collidingObjects, hasCollision := r.hasCollision)
  {
    if GetMario(m).Some? {
      var k := GetMario(m).value;
      if t != k && Overlaps(m[t].rect, m[k].rect) {
        assert CheckCollisions(m)[t] == AddCollision(m[t], k);
      }
    }
  }

  /** A frame keeps the level invariant: contacts stay valid and the flag matches the list. */
  lemma UpdateOk(m: seq<Entity>, keys: Keys, dt: real)
    requires LevelOk(m)
    ensures LevelOk(Update(m, keys, dt))
  {
    var s := ExecuteFrom(m, 0, keys, dt);
    ExecuteFromKeeps(m, 0, keys, dt);
    assert LevelOk(s) by {
      forall t | 0 <= t < |s|
        ensures EntityOk(s[t], |s|)
      {
        assert SameIdentity(m[t], s[t]) && EntityOk(m[t], |m|);
      }
    }
    CheckCollisionsOk(s);
  }

  /**
   Nothing in a frame clears a contact list or the contact flag: each list
   after the frame extends the one before it.
   */
  lemma UpdateOnlyAppends(m: seq<Entity>, keys: Keys, dt: real)
    requires LevelOk(m)
    ensures var r := Update(m, keys, dt);
      forall t :: 0 <= t < |m| ==>
        && m[t].collidingObjects <= r[t].collidingObjects
        && (m[t].hasCollision ==> r[t].hasCollision)
  {
    var s := ExecuteFrom(m, 0, keys, dt);
    ExecuteFromKeeps(m, 0, keys, dt);
    var r := CheckCollisions(s);
    forall t | 0 <= t < |m|
      ensures m[t].collidingObjects <= r[t].collidingObjects
      ensures m[t].hasCollision ==> r[t].hasCollision
    {
      assert SameIdentity(m[t], s[t]);
      if GetMario(s).Some? {
        var k := GetMario(s).value;
        if t != k && Overlaps(s[t].rect, s[k].rect) {
          assert r[t].collidingObjects == s[t].collidingObjects + [k];
        }
      }
    }
  }

  /** Blocks never move or change state: a frame only adds to their contacts. */
  lemma UpdateKeepsBlocks(m: seq<Entity>, keys: Keys, dt: real, t: nat)
    requires LevelOk(m) && t < |m| && !IsMarioState(m[t].currState)
    ensures var r := Update(m, keys, dt)[t];
      r == m[t].(collidingObjects := r.collidingObjects, hasCollision := r.hasCollision)
  {
    var s := ExecuteFrom(m, 0, keys, dt);
    ExecuteFromKeeps(m, 0, keys, dt);
    assert s[t] == m[t];
    CheckCollisionsOnlyContacts(s, t);
  }

  /**
   A frame of a level with one entity in a player state: that entity takes
   its own step, and then the collision pass runs.
   */
  lemma UpdateOnePlayer(m: seq<Entity>, k: nat, keys: Keys, dt: real)
    requires LevelOk(m) && k < |m|
    requires forall t :: 0 <= t < |m| && t != k ==> !IsMarioState(m[t].currState)
    ensures Update(m, keys, dt) == CheckCollisions(m[k := Execute(m, k, m[k], keys, dt)])
  {
    ExecuteFromOnePlayer(m, k, 0, keys, dt);
  }

  /** The player found before a frame is the one found after it. */
  lemma UpdateKeepsMario(m: seq<Entity>, keys: Keys, dt: real)
    requires LevelOk(m)
    ensures GetMario(Update(m, keys, dt)) == GetMario(m)
  {
    var s := ExecuteFrom(m, 0, keys, dt);
    ExecuteFromKeeps(m, 0, keys, dt);
    assert forall t :: 0 <= t < |m| ==> s[t].color == m[t].color;
    MarioFromColors(m, s, 0);
    CheckCollisionsKeepsColors(s);
    MarioFromColors(s, CheckCollisions(s), 0);
  }

  /** The collision pass recolours nothing. */
  lemma CheckCollisionsKeepsColors(m: seq<Entity>)
    ensures var r := CheckCollisions(m);
      |r| == |m| && forall t :: 0 <= t < |m| ==> r[t].color == m[t].color
  {
    forall t | 0 <= t < |m|
      ensures CheckCollisions(m)[t].color == m[t].color
    {
      CheckCollisionsOnlyContacts(m, t);
    }
  }
}
