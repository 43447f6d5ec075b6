/** The crane: the per-block lifecycle of the currently controllable block. A block is moved,
    turned and released while kinematic; once dropped the controller waits for it to settle,
    schedules one delayed spawn, and the next block becomes controllable. */
module Crane {
  import opened Scene
  import opened Turns
  import opened PoseFactory

  /** The keys polled in one frame: held keys, and whether the drop key went down this frame. */
  datatype Keys = Keys(
    a: bool, leftArrow: bool, d: bool, rightArrow: bool,
    w: bool, upArrow: bool, s: bool, downArrow: bool,
    q: bool, e: bool,
    spaceDown: bool)

  /** The engine's clamp: below `min` gives `min`, otherwise above `max` gives `max`. */
  function Clamp(value: real, min: real, max: real): (r: real)
    ensures min <= max ==> min <= r <= max
    ensures min <= value <= max ==> r == value
    ensures r == value || r == min || r == max
  {
    if value < min then min else if value > max then max else value
  }

  /** An axis set to 0, then to `firstValue` if `first` holds, then to `secondValue` if
      `second` holds: the later assignment wins. */
  function LastWins(first: bool, firstValue: real, second: bool, secondValue: real): real
  {
    if second then secondValue else if first then firstValue else 0.0
  }

  /** The values an axis can take. */
  predicate IsAxis(v: real) { v == -1.0 || v == 0.0 || v == 1.0 }

  /** Left/right: A or Left Arrow gives -1, D or Right Arrow gives +1. */
  function AxisX(k: Keys): (v: real)
    ensures IsAxis(v)
  {
    LastWins(k.a || k.leftArrow, -1.0, k.d || k.rightArrow, 1.0)
  }

  /** Forward/back: W or Up Arrow gives +1, S or Down Arrow gives -1. */
  function AxisZ(k: Keys): (v: real)
    ensures IsAxis(v)
  {
    LastWins(k.w || k.upArrow, 1.0, k.s || k.downArrow, -1.0)
  }

  /** Turning: Q gives +1, E gives -1, and E is read last, so it wins when both are held. */
  function Turn(k: Keys): (r: real)
    ensures IsAxis(r)
    ensures r == 1.0 <==> k.q && !k.e
    ensures r == -1.0 <==> k.e
  {
    LastWins(k.q, 1.0, k.e, -1.0)
  }

  /** 1/sqrt(2) as single-precision normalisation yields it for a diagonal unit-axis vector. */
  const Diagonal: real := 0.707106769084930419921875

  /** Twice its square lies just below one: within single-precision rounding of sqrt(1/2). */
  lemma DiagonalIsShort()
    ensures 0.99999 < 2.0 * Diagonal * Diagonal <= 1.0
  {
  }

  /** For axis values, the squared length of (x, 0, z) exceeds one exactly when both are non-zero. */
  lemma LongExactlyOnDiagonal(x: real, z: real)
    requires IsAxis(x) && IsAxis(z)
    ensures x * x + z * z > 1.0 <==> x != 0.0 && z != 0.0
  {
  }

  /** The horizontal direction of travel for axis values `x` and `z`: (x, 0, z), scaled by
      1/sqrt(2) on a diagonal, the only case in which its length exceeds one. A single axis
      is left as it is, and a diagonal keeps the signs of both axes. */
  function Direction(x: real, z: real): (dir: Vec3)
    requires IsAxis(x) && IsAxis(z)
    ensures dir.y == 0.0
    ensures x == 0.0 || z == 0.0 ==> dir == Vec3(x, 0.0, z)
  {
    if x != 0.0 && z != 0.0 then Vec3(x * Diagonal, 0.0, z * Diagonal) else Vec3(x, 0.0, z)
  }

  /** The direction of travel is never longer than one, and with any key held it has unit
      length up to single-precision rounding; each component keeps the sign of its axis. */
  lemma DirectionIsShort(x: real, z: real)
    requires IsAxis(x) && IsAxis(z)
    ensures var dir := Direction(x, z); dir.x * dir.x + dir.z * dir.z <= 1.0
    ensures var dir := Direction(x, z); x != 0.0 || z != 0.0 ==> 0.99999 < dir.x * dir.x + dir.z * dir.z
    ensures var dir := Direction(x, z); (dir.x > 0.0 <==> x > 0.0) && (dir.x < 0.0 <==> x < 0.0)
    ensures var dir := Direction(x, z); (dir.z > 0.0 <==> z > 0.0) && (dir.z < 0.0 <==> z < 0.0)
  {
    if x != 0.0 && z != 0.0 {
      DiagonalIsShort();
      ScaledSquare(x, Diagonal);
      ScaledSquare(z, Diagonal);
    }
  }

  /** The direction the held keys ask for. */
  function KeyDirection(k: Keys): (dir: Vec3)
  {
    Direction(AxisX(k), AxisZ(k))
  }

  /** The block position after one frame of movement: a step of `moveSpeed * dt` along the
      direction, then each horizontal coordinate clamped to its symmetric limit. The direction
      has no vertical part, so the height is kept. */
  function Moved(pos: Vec3, dir: Vec3, moveSpeed: real, dt: real, xLimit: real, zLimit: real): (r: Vec3)
    ensures r.y == pos.y
    ensures xLimit >= 0.0 ==> -xLimit <= r.x <= xLimit
    ensures zLimit >= 0.0 ==> -zLimit <= r.z <= zLimit
  {
    Vec3(Clamp(pos.x + dir.x * (moveSpeed * dt), -xLimit, xLimit),
         pos.y,
         Clamp(pos.z + dir.z * (moveSpeed * dt), -zLimit, zLimit))
  }

  /** The squared horizontal distance from `a` to `b`. */
  function Travel(a: Vec3, b: Vec3): real
  {
    (b.x - a.x) * (b.x - a.x) + (b.z - a.z) * (b.z - a.z)
  }

  /** Opposite keys held together: right beats left, back beats forward, E beats Q. */
  lemma LaterKeyWins(k: Keys)
    ensures (k.d || k.rightArrow) ==> AxisX(k) == 1.0
    ensures (k.a || k.leftArrow) && !(k.d || k.rightArrow) ==> AxisX(k) == -1.0
    ensures (k.s || k.downArrow) ==> AxisZ(k) == -1.0
    ensures (k.w || k.upArrow) && !(k.s || k.downArrow) ==> AxisZ(k) == 1.0
    ensures k.e ==> Turn(k) == -1.0
    ensures k.q && !k.e ==> Turn(k) == 1.0
  {
  }

  /** With at most one axis active, the active coordinate moves exactly `moveSpeed * dt`
      (signed by the key) before clamping and the other only gets clamped. */
  lemma SingleAxisStep(pos: Vec3, k: Keys, moveSpeed: real, dt: real, xLimit: real, zLimit: real)
    requires AxisX(k) == 0.0 || AxisZ(k) == 0.0
    ensures Moved(pos, KeyDirection(k), moveSpeed, dt, xLimit, zLimit) ==
      Vec3(Clamp(pos.x + AxisX(k) * moveSpeed * dt, -xLimit, xLimit),
           pos.y,
           Clamp(pos.z + AxisZ(k) * moveSpeed * dt, -zLimit, zLimit))
  {
  }

  lemma SquareMonotone(a: real, b: real)
    requires -b <= a <= b
    ensures a * a <= b * b
  {
    assert b - a >= 0.0 && b + a >= 0.0;
    assert (b - a) * (b + a) >= 0.0;
  }

  /** Clamping a step that starts inside the limits never lengthens it. */
  lemma ClampShortens(p: real, step: real, limit: real)
    requires -limit <= p <= limit
    ensures var d := Clamp(p + step, -limit, limit) - p; d * d <= step * step
  {
    var d := Clamp(p + step, -limit, limit) - p;
    if step >= 0.0 {
      SquareMonotone(d, step);
    } else {
      SquareMonotone(d, -step);
    }
  }

  /** Moving from inside the limits along a direction no longer than one, a frame never
      covers more horizontal distance than `moveSpeed * dt`. */
  lemma {:induction false} StepNoLonger(pos: Vec3, dir: Vec3, moveSpeed: real, dt: real, xLimit: real, zLimit: real)
    requires dir.x * dir.x + dir.z * dir.z <= 1.0
    requires -xLimit <= pos.x <= xLimit && -zLimit <= pos.z <= zLimit
    ensures Travel(pos, Moved(pos, dir, moveSpeed, dt, xLimit, zLimit)) <= (moveSpeed * dt) * (moveSpeed * dt)
  {
    ClampShortens(pos.x, dir.x * (moveSpeed * dt), xLimit);
    ClampShortens(pos.z, dir.z * (moveSpeed * dt), zLimit);
    TravelBound(pos, Moved(pos, dir, moveSpeed, dt, xLimit, zLimit), dir.x, dir.z, moveSpeed * dt);
  }

  /** Two positions whose offsets on each horizontal axis are bounded by a component of a
      vector no longer than one, scaled by `v`, are no further apart than `v`. */
  lemma TravelBound(a: Vec3, b: Vec3, ax: real, az: real, v: real)
    requires (b.x - a.x) * (b.x - a.x) <= (ax * v) * (ax * v)
    requires (b.z - a.z) * (b.z - a.z) <= (az * v) * (az * v)
    requires ax * ax + az * az <= 1.0
    ensures Travel(a, b) <= v * v
  {
    ScaledSquare(ax, v);
    ScaledSquare(az, v);
    ScaledSquareSum(ax * ax, az * az, v * v);
  }

  lemma ScaledSquare(a: real, v: real)
    ensures (a * v) * (a * v) == (a * a) * (v * v)
  {
  }

  lemma ScaledSquareSum(p: real, q: real, w: real)
    requires p + q <= 1.0 && w >= 0.0
    ensures p * w + q * w <= w
  {
    var c := 1.0 - (p + q);
    assert c * w >= 0.0;
    assert w - (p * w + q * w) == c * w;
  }

  /** Whatever keys are held, diagonal input included, a frame starting inside the limits
      covers at most `moveSpeed * dt` horizontally. */
  lemma MoveNoFasterOnDiagonal(pos: Vec3, k: Keys, moveSpeed: real, dt: real, xLimit: real, zLimit: real)
    requires -xLimit <= pos.x <= xLimit && -zLimit <= pos.z <= zLimit
    ensures Travel(pos, Moved(pos, KeyDirection(k), moveSpeed, dt, xLimit, zLimit)) <= (moveSpeed * dt) * (moveSpeed * dt)
  {
    DirectionIsShort(AxisX(k), AxisZ(k));
    StepNoLonger(pos, KeyDirection(k), moveSpeed, dt, xLimit, zLimit);
  }

  /** Right held for one second at speed 4 from (0, 5, 0): (4, 5, 0) within a limit of 6,
      clamped to (3, 5, 0) by a limit of 3. */
  lemma RightForOneSecond(right: Keys)
    requires right == Keys(false, false, true, false, false, false, false, false, false, false, false)
    ensures Moved(Vec3(0.0, 5.0, 0.0), KeyDirection(right), 4.0, 1.0, 6.0, 6.0) == Vec3(4.0, 5.0, 0.0)
    ensures Moved(Vec3(0.0, 5.0, 0.0), KeyDirection(right), 4.0, 1.0, 3.0, 6.0) == Vec3(3.0, 5.0, 0.0)
  {
    assert KeyDirection(right) == Vec3(1.0, 0.0, 0.0);
  }

  datatype CraneSettings = CraneSettings(
    spawnPoint: Option<Vec3>,
    spawnHeightOffset: real,
    moveSpeed: real,
    rotateSpeed: real,
    xLimit: real,
    zLimit: real,
    stopSpeedThreshold: real)

  class CraneController {
    /** Block sources: the factory is preferred; the prefab is the fallback. */
    const poseBlockFactory: PoseBlockFactory?
    const blockPrefab: Option<Prefab>
    const settings: CraneSettings
    /** The controller's own position, the spawn anchor when no spawn point is set. */
    const ownPosition: Vec3

    var currentBlock: Block?
    var currentRb: Body?
    var isDropped: bool
    var isSpawningNext: bool
    /** Delayed spawns that have been started and have not yet run. */
    var pendingSpawns: nat

    /** The lifecycle invariant: the block and its body are present together; the body is
        kinematic exactly until the drop; at most one delayed spawn is pending, and only while
        the guard flag is up; the guard goes up only after a drop. */
    ghost predicate Valid()
      reads this, currentBlock, currentRb
    {
      (currentBlock == null <==> currentRb == null) &&
      (currentBlock != null ==> currentBlock.body == currentRb) &&
      (currentRb != null ==> currentRb.isKinematic == !isDropped) &&
      pendingSpawns <= 1 &&
      (pendingSpawns == 1 ==> isSpawningNext) &&
      (isSpawningNext ==> isDropped)
    }

    /** The current block and body as frames: empty while there is none. */
    function BlockFrame(): set<Block>
      reads this
    {
      if currentBlock == null then {} else {currentBlock}
    }

    function BodyFrame(): set<Body>
      reads this
    {
      if currentRb == null then {} else {currentRb}
    }

    /** Where a new block appears: the spawn point, or the controller itself, raised by the offset. */
    function SpawnPosition(): (p: Vec3)
      reads this
      ensures settings.spawnPoint.Some? ==> p == Add(settings.spawnPoint.value, Vec3(0.0, settings.spawnHeightOffset, 0.0))
      ensures settings.spawnPoint.None? ==> p == Add(ownPosition, Vec3(0.0, settings.spawnHeightOffset, 0.0))
    {
      var anchor := if settings.spawnPoint.Some? then settings.spawnPoint.value else ownPosition;
      Vec3(anchor.x, anchor.y + settings.spawnHeightOffset, anchor.z)
    }

    constructor (factory: PoseBlockFactory?, prefab: Option<Prefab>, settings: CraneSettings, ownPosition: Vec3)
      ensures Valid()
      ensures poseBlockFactory == factory && blockPrefab == prefab
      ensures this.settings == settings && this.ownPosition == ownPosition
      ensures currentBlock == null && currentRb == null
      ensures !isDropped && !isSpawningNext && pendingSpawns == 0
    {
      poseBlockFactory, blockPrefab := factory, prefab;
      this.settings, this.ownPosition := settings, ownPosition;
      currentBlock, currentRb := null, null;
      isDropped, isSpawningNext := false, false;
      pendingSpawns := 0;
    }

    /** The first block is spawned when the controller starts. */
    method Start()
      requires Valid() && pendingSpawns == 0
      modifies this
      ensures Valid() && pendingSpawns == 0
      ensures currentBlock == null <==> poseBlockFactory == null && blockPrefab.None?
      ensures currentBlock == null ==>
        currentRb == null && isDropped == old(isDropped) && isSpawningNext == old(isSpawningNext)
      ensures currentBlock != null ==>
        fresh(currentBlock) && fresh(currentRb) && currentRb.isKinematic &&
        !isDropped && !isSpawningNext &&
        currentBlock.position == SpawnPosition() && currentBlock.yaw == 0.0
      ensures currentBlock != null && poseBlockFactory != null ==>
        currentBlock.name == "PoseBlock" &&
        currentRb.mass == poseBlockFactory.mass &&
        currentRb.linearDamping == poseBlockFactory.drag &&
        currentRb.angularDamping == poseBlockFactory.angularDrag
      ensures currentBlock != null && poseBlockFactory == null ==>
        currentBlock.name == blockPrefab.value.Name() + "(Clone)" &&
        currentBlock.bones[..] == CloneNodes(blockPrefab.value.bones, currentBlock.name)
    {
      SpawnNewBlock();
    }

    /** One frame. Nothing happens once the game is over or while there is no block. Before the
        drop the block is moved and turned, and the drop key releases it; after the drop, the
        first frame on which the guard is down and the body is slower than the threshold raises
        the guard and starts one delayed spawn. */
    method Update(keys: Keys, dt: real, gm: GameManager?)
      requires Valid()
      modifies this`isDropped, this`isSpawningNext, this`pendingSpawns
      modifies BlockFrame()`position, BlockFrame()`yaw, BodyFrame()`isKinematic, gm
      ensures Valid()
      ensures currentBlock == old(currentBlock) && currentRb == old(currentRb)
      // frame skipped: nothing changes
      ensures (old(gm != null && gm.isGameOver) || old(currentBlock) == null) ==>
        unchanged(this) && (currentBlock != null ==> unchanged(currentBlock, currentRb)) && (gm != null ==> unchanged(gm))
      // controlled phase: move, turn, optional drop
      ensures old(gm == null || !gm.isGameOver) && old(currentBlock) != null && !old(isDropped) ==>
        currentBlock.position == Moved(old(currentBlock.position), KeyDirection(keys), settings.moveSpeed, dt, settings.xLimit, settings.zLimit) &&
        currentBlock.yaw == old(currentBlock.yaw) + Turn(keys) * settings.rotateSpeed * dt &&
        (isDropped <==> keys.spaceDown) &&
        isSpawningNext == old(isSpawningNext) && pendingSpawns == old(pendingSpawns) &&
        (gm != null ==> gm.isGameOver == old(gm.isGameOver)) &&
        (gm != null ==> gm.currentPlayer == if keys.spaceDown then NextPlayer(old(gm.currentPlayer)) else old(gm.currentPlayer))
      // dropped phase: block and turn untouched, at most one spawn scheduled
      ensures old(gm == null || !gm.isGameOver) && old(currentBlock) != null && old(isDropped) ==>
        unchanged(currentBlock, currentRb) && (gm != null ==> unchanged(gm)) && isDropped &&
        var schedules := !old(isSpawningNext) && currentRb.speed < settings.stopSpeedThreshold;
        isSpawningNext == (old(isSpawningNext) || schedules) &&
        pendingSpawns == old(pendingSpawns) + (if schedules then 1 else 0)
    {
      if gm != null && gm.isGameOver {
        return;
      }
      if currentBlock == null {
        return;
      }

      if !isDropped {
        HandleMove(keys, dt);
        HandleRotate(keys, dt);
        if keys.spaceDown {
          Drop(gm);
        }
      } else {
        if !isSpawningNext && currentRb != null && currentRb.speed < settings.stopSpeedThreshold {
          isSpawningNext := true;
          pendingSpawns := pendingSpawns + 1;
        }
      }
    }

    /** Reads the movement keys into a direction: the later key of an opposite pair wins, and
        a vector longer than one (a diagonal) is normalised. */
    method MoveDirection(keys: Keys) returns (delta: Vec3)
      ensures delta == KeyDirection(keys)
    {
      var x := 0.0;
      var z := 0.0;

      if keys.a || keys.leftArrow { x := -1.0; }
      if keys.d || keys.rightArrow { x := 1.0; }

      if keys.w || keys.upArrow { z := 1.0; }
      if keys.s || keys.downArrow { z := -1.0; }

      assert x == AxisX(keys) && z == AxisZ(keys);
      delta := Vec3(x, 0.0, z);
      LongExactlyOnDiagonal(x, z);
      if delta.x * delta.x + delta.z * delta.z > 1.0 {
        // only (+-1, 0, +-1) gets here; normalising scales x and z by 1/sqrt(2), y stays 0
        delta := Vec3(delta.x * Diagonal, 0.0, delta.z * Diagonal);
      }
    }

    /** Moves the block one frame in the held direction and clamps it to the limits. */
    method HandleMove(keys: Keys, dt: real)
      requires currentBlock != null
      modifies currentBlock`position
      ensures currentBlock.position == Moved(old(currentBlock.position), KeyDirection(keys), settings.moveSpeed, dt, settings.xLimit, settings.zLimit)
      ensures currentBlock.yaw == old(currentBlock.yaw) && currentBlock.body == old(currentBlock.body)
    {
      var delta := MoveDirection(keys);
      MoveBy(delta, dt);
    }

    /** Steps the block `moveSpeed * dt` along `delta`, which has no vertical part, and clamps
        its horizontal coordinates to the limits. */
    method MoveBy(delta: Vec3, dt: real)
      requires currentBlock != null
      modifies currentBlock`position
      ensures currentBlock.position == Moved(old(currentBlock.position), delta, settings.moveSpeed, dt, settings.xLimit, settings.zLimit)
      ensures currentBlock.yaw == old(currentBlock.yaw) && currentBlock.body == old(currentBlock.body)
    {
      var pos := currentBlock.position;
      var step := settings.moveSpeed * dt;
      pos := pos.(x := pos.x + delta.x * step, z := pos.z + delta.z * step);

      pos := pos.(x := Clamp(pos.x, -settings.xLimit, settings.xLimit));
      pos := pos.(z := Clamp(pos.z, -settings.zLimit, settings.zLimit));

      currentBlock.position := pos;
    }

    /** Turns the block about the vertical axis by `rotateSpeed * dt` degrees per held key direction. */
    method HandleRotate(keys: Keys, dt: real)
      requires currentBlock != null
      modifies currentBlock`yaw
      ensures currentBlock.yaw == old(currentBlock.yaw) + Turn(keys) * settings.rotateSpeed * dt
      ensures currentBlock.position == old(currentBlock.position) && currentBlock.body == old(currentBlock.body)
    {
      var r := 0.0;
      if keys.q { r := 1.0; }
      if keys.e { r := -1.0; }

      currentBlock.yaw := currentBlock.yaw + r * settings.rotateSpeed * dt;
    }

    /** Releases the block to physics and hands the turn over; without a body nothing happens. */
    method Drop(gm: GameManager?)
      requires Valid()
      modifies this`isDropped, BodyFrame()`isKinematic, gm
      ensures Valid()
      ensures currentBlock == old(currentBlock) && currentRb == old(currentRb)
      ensures isSpawningNext == old(isSpawningNext) && pendingSpawns == old(pendingSpawns)
      ensures currentRb == null ==> unchanged(this) && (gm != null ==> unchanged(gm))
      ensures currentRb != null ==> isDropped && !currentRb.isKinematic
      ensures currentRb != null && gm != null ==>
        gm.currentPlayer == NextPlayer(old(gm.currentPlayer)) && gm.isGameOver == old(gm.isGameOver)
    {
      if currentRb == null {
        return;
      }

      currentRb.isKinematic := false;
      isDropped := true;

      if gm != null {
        gm.NextTurn();
      }
    }

    /** The delay of a started spawn has elapsed: the spawn runs, whether or not the game has ended. */
    method SpawnDelayElapsed()
      requires Valid() && pendingSpawns == 1
      modifies this
      ensures Valid() && pendingSpawns == 0
      ensures currentBlock == null <==> poseBlockFactory == null && blockPrefab.None?
      ensures currentBlock == null ==>
        currentRb == null && isDropped == old(isDropped) && isSpawningNext == old(isSpawningNext)
      ensures currentBlock != null ==>
        fresh(currentBlock) && fresh(currentRb) && currentRb.isKinematic &&
        !isDropped && !isSpawningNext &&
        currentBlock.position == SpawnPosition() && currentBlock.yaw == 0.0
      ensures currentBlock != null && poseBlockFactory != null ==>
        currentBlock.name == "PoseBlock" &&
        currentRb.mass == poseBlockFactory.mass &&
        currentRb.linearDamping == poseBlockFactory.drag &&
        currentRb.angularDamping == poseBlockFactory.angularDrag
      ensures currentBlock != null && poseBlockFactory == null ==>
        currentBlock.name == blockPrefab.value.Name() + "(Clone)" &&
        currentBlock.bones[..] == CloneNodes(blockPrefab.value.bones, currentBlock.name)
    {
      pendingSpawns := 0;
      SpawnNewBlock();
    }

    /** Forgets the current block and makes a new one, from the factory if there is one and
        otherwise from the prefab, at the spawn position; the new block's body is kinematic and
        the drop and spawn flags are cleared. With no source, no block is made and the flags
        stay as they were. */
    method SpawnNewBlock()
      requires Valid() && pendingSpawns == 0
      modifies this
      ensures Valid() && pendingSpawns == 0
      ensures currentBlock == null <==> poseBlockFactory == null && blockPrefab.None?
      ensures currentBlock == null ==>
        currentRb == null && isDropped == old(isDropped) && isSpawningNext == old(isSpawningNext)
      ensures currentBlock != null ==>
        fresh(currentBlock) && fresh(currentRb) && currentRb.isKinematic &&
        !isDropped && !isSpawningNext &&
        currentBlock.position == SpawnPosition() && currentBlock.yaw == 0.0
      ensures currentBlock != null && poseBlockFactory != null ==>
        currentBlock.name == "PoseBlock" &&
        currentRb.mass == poseBlockFactory.mass &&
        currentRb.linearDamping == poseBlockFactory.drag &&
        currentRb.angularDamping == poseBlockFactory.angularDrag
      ensures currentBlock != null && poseBlockFactory == null ==>
        currentBlock.name == blockPrefab.value.Name() + "(Clone)" &&
        currentBlock.bones[..] == CloneNodes(blockPrefab.value.bones, currentBlock.name)
    {
      currentBlock := null;
      currentRb := null;

      var p := SpawnPosition();

      var block: Block? := null;

      if poseBlockFactory != null {
        block := poseBlockFactory.CreatePoseBlock(p);
      } else if blockPrefab.Some? {
        block := new Block.Instantiate(blockPrefab.value, p);
      }

      if block == null {
        return;
      }

      var rb := block.body;
      if rb == null {
        rb := new Body(DefaultBody);
        block.body := rb;
      }
      rb.isKinematic := true;

      currentBlock := block;
      currentRb := rb;

      isDropped := false;
      isSpawningNext := false;
    }
  }

  /** Pressing the drop key on two successive frames releases the block once and advances
      the turn once. */
  method DropKeyTwice(crane: CraneController, gm: GameManager, dt: real)
    requires crane.Valid() && crane.currentBlock != null && !crane.isDropped && !gm.isGameOver
    modifies crane, crane.currentBlock, crane.currentRb, gm
    ensures crane.Valid() && crane.currentRb != null && crane.isDropped && !crane.currentRb.isKinematic
    ensures gm.currentPlayer == NextPlayer(old(gm.currentPlayer))
  {
    var space := Keys(false, false, false, false, false, false, false, false, false, false, true);
    crane.Update(space, dt, gm);
    crane.Update(space, dt, gm);
  }

  /** However many frames a dropped block stays below the speed threshold, one spawn is started. */
  method SettledFrames(crane: CraneController, gm: GameManager?, keys: Keys, dt: real, frames: nat)
    requires crane.Valid() && crane.currentBlock != null && crane.isDropped && !crane.isSpawningNext
    requires gm == null || !gm.isGameOver
    requires crane.currentRb.speed < crane.settings.stopSpeedThreshold
    modifies crane, crane.currentBlock, crane.currentRb, gm
    ensures crane.Valid()
    ensures crane.pendingSpawns == (if frames > 0 then old(crane.pendingSpawns) + 1 else old(crane.pendingSpawns))
    ensures frames > 0 ==> crane.isSpawningNext && crane.pendingSpawns == 1
  {
    var i := 0;
    while i < frames
      invariant i <= frames
      invariant crane.Valid() && crane.currentBlock == old(crane.currentBlock) && crane.currentRb == old(crane.currentRb)
      invariant crane.isDropped
      invariant gm == null || !gm.isGameOver
      invariant crane.currentRb.speed == old(crane.currentRb.speed)
      invariant i == 0 ==> !crane.isSpawningNext && crane.pendingSpawns == old(crane.pendingSpawns)
      invariant i > 0 ==> crane.isSpawningNext && crane.pendingSpawns == old(crane.pendingSpawns) + 1
    {
      crane.Update(keys, dt, gm);
      i := i + 1;
    }
  }
}
