# Crane stacking game: a verified model of the gameplay scripts

The game is a two-player tower-building prototype. A crane holds one block at a time.
While the block is held, the current player moves it on the horizontal plane and turns it
about the vertical axis. Space releases it to physics and passes the turn to the other player.
Once the released block has nearly stopped, the crane waits a moment and spawns the next block.
A watcher attached to every block ends the game the first time that block falls below the floor.

Blocks come from a pose factory. The factory clones a preview figure, copies the preview's
current pose onto the clone node by node (matching nodes by name), gives the clone a
kinematic rigid body, and replaces its colliders with one box around all of its renderers.

The model has five modules, one per script plus one for the scene:

- `Scene` (`scene.dfy`) holds the engine objects the scripts touch: vectors, axis-aligned boxes,
  named nodes with an opaque local rotation, rigid bodies (`Body`) and spawned blocks (`Block`).
- `Turns` (`game_manager.dfy`) is the game manager: whose turn it is, the game-over flag, and the
  single-instance registration.
- `Lose` (`lose_checker.dfy`) is the per-block floor watcher.
- `PoseFactory` (`pose_block_factory.dfy`) is the pose block factory. Pose copying is specified by
  `NameIndex` (the name dictionary, last node of a name wins) and `Stamp` (the overwrite loop as a
  fold). Collider sizing is specified by the fold `Union`.
- `Crane` (`crane_controller.dfy`) is the crane controller. It is a class holding the current block,
  its body, the drop flag, the spawn guard and the number of delayed spawns started and not yet run.

Everything that changes state in place is a Dafny class with `modifies` clauses: the game manager,
the watcher, the crane, rigid bodies, blocks and the node array of a block. Each such method is
proved against specification functions (`NextPlayer`, `Moved`, `KeyDirection`, `PoseCopy`,
`SingleBox`). The lemmas beside those functions state what the scripts promise.

Engine time and physics become inputs:

- `Keys` is the keyboard state of one frame and `dt` is the frame time.
- `Body.speed` is the speed the physics engine reports.
- `SpawnDelayElapsed` is the moment a started delayed spawn runs.

The game manager is passed explicitly instead of being reached through its static instance.

## Model

| member | source | states |
|---|---|---|
| Scene.Body.constructor | Assets/Scripts/CraneController.cs:145 | a body added to a block carries the given settings and is at rest |
| Scene.Block.Instantiate | Assets/Scripts/CraneController.cs:135 | a clone of a template is named with the "(Clone)" suffix and placed at the position with no rotation; it has a fresh copy of the template's nodes whose root node, the clone itself, carries the clone's name and the identity rotation, the template's colliders and renderer bounds moved by the position, and a body exactly when the template has one |
| Turns.NextPlayer | Assets/Scripts/GameManager.cs:19 | the next player is always 1 or 2 and always differs from the current value |
| Turns.TwoTurnsRestore | Assets/Scripts/GameManager.cs:19 | two turn changes from player 1 or 2 give the same player back |
| Turns.TurnsFromFirstPlayer | Assets/Scripts/GameManager.cs:19 | starting from player 1, after k turn changes it is player 2's turn exactly when k is odd |
| Turns.TurnsAlternate | Assets/Scripts/GameManager.cs:19 | from any starting value, after at least one change the player is in {1, 2}, differs from the next one and repeats with period two |
| Turns.GameManager.constructor | Assets/Scripts/GameManager.cs:8-9 | the game starts with player 1 to move and not over |
| Turns.GameManager.NextTurn | Assets/Scripts/GameManager.cs:17-21 | the player becomes `NextPlayer` of the old one; the game-over flag is unchanged |
| Turns.GameManager.GameOver | Assets/Scripts/GameManager.cs:23-27 | the game is over afterwards and the current player is unchanged, so a repeated call changes nothing |
| Turns.Registry.constructor | Assets/Scripts/GameManager.cs:6 | no manager is registered at first |
| Turns.Registry.Awake | Assets/Scripts/GameManager.cs:11-15 | a candidate is registered exactly when none is registered yet; an existing registration is never replaced |
| Lose.LoseChecker.constructor | Assets/Scripts/LoseChecker.cs:3-12 | a new watcher is attached to its block and active |
| Lose.LoseChecker.Update | Assets/Scripts/LoseChecker.cs:5-12 | it fires exactly when it is active and the block is strictly below -5; firing ends the game and disables the watcher; the current player and the block position never change, and without firing the game-over flag is unchanged |
| Lose.WatchFrames | Assets/Scripts/LoseChecker.cs:5-12 | over any number of frames a watcher fires at most once, only if it was active, and its firing leaves the game over with the player unchanged |
| PoseFactory.NameIndex | Assets/Scripts/PoseBlockFactory.cs:48-49 | the dictionary holds every node name and maps each name to a node carrying that name |
| PoseFactory.NameIndexLast | Assets/Scripts/PoseBlockFactory.cs:48-49 | no node after the one a name maps to carries that name: duplicate names resolve to the last node |
| PoseFactory.NameIndexAt | Assets/Scripts/PoseBlockFactory.cs:48-49 | a node that no later node shares its name with is the node its name maps to |
| PoseFactory.Stamp | Assets/Scripts/PoseBlockFactory.cs:51-57 | overwriting rotations keeps the number of destination nodes and every node's name |
| PoseFactory.StampAt | Assets/Scripts/PoseBlockFactory.cs:51-57 | a destination node changes exactly when the dictionary points at it and some source node carries its name, and it then takes the rotation of the last such source node |
| PoseFactory.PoseCopyTakesLastSource | Assets/Scripts/PoseBlockFactory.cs:48-57 | the last destination node of a name takes the rotation of the last source node of that name, in source order, and keeps its name |
| PoseFactory.PoseCopyKeepsUnmatched | Assets/Scripts/PoseBlockFactory.cs:53-56 | a destination node whose name no source node carries is left exactly as it was |
| PoseFactory.PoseCopyKeepsShadowed | Assets/Scripts/PoseBlockFactory.cs:48-49 | a destination node followed by another node of the same name is never updated |
| PoseFactory.PoseCopyKeepsShape | Assets/Scripts/PoseBlockFactory.cs:51-57 | the copy keeps the number, order and names of the destination nodes |
| PoseFactory.CloneRootUnposed | Assets/Scripts/PoseBlockFactory.cs:18-22 | a clone renamed "PoseBlock" before the copy keeps the identity rotation it was placed with at its root unless the preview has a node named "PoseBlock", so the preview's own root rotation is never copied onto it |
| PoseFactory.Encapsulate | Assets/Scripts/PoseBlockFactory.cs:73 | growing bounds by a box gives bounds that enclose both the old bounds and the box |
| PoseFactory.Union | Assets/Scripts/PoseBlockFactory.cs:72-73 | the bounds of a single renderer are that renderer's bounds |
| PoseFactory.UnionBounds | Assets/Scripts/PoseBlockFactory.cs:72-73 | the folded bounds enclose every renderer's bounds, and each of their six faces lies on a face of some renderer's bounds |
| PoseFactory.UnionIsLeast | Assets/Scripts/PoseBlockFactory.cs:72-73 | every box enclosing all renderer bounds encloses the folded bounds, so the fold is the least enclosing box |
| PoseFactory.PoseBlockFactory.constructor | Assets/Scripts/PoseBlockFactory.cs:6-13 | the factory holds its template, preview and physics settings |
| PoseFactory.PoseBlockFactory.CreatePoseBlock | Assets/Scripts/PoseBlockFactory.cs:15-36 | the new block is named "PoseBlock", and so is its root node, before the pose is copied; it stands at the position with no rotation; its nodes are the template's, root renamed, posed like the preview (or unposed without a preview); its body is new, kinematic, at rest and has the configured mass and damping; its colliders are the single box around its renderers |
| PoseFactory.PoseBlockFactory.SetUpBody | Assets/Scripts/PoseBlockFactory.cs:25-30 | the block keeps its body or, without one, gets a new body at rest; either way the body is kinematic with the configured mass and damping |
| PoseFactory.PoseBlockFactory.CopyLocalRotations | Assets/Scripts/PoseBlockFactory.cs:38-58 | nothing changes when either root is missing; otherwise the destination nodes become `PoseCopy` of the source and the old destination nodes, and the source nodes are unchanged |
| PoseFactory.PoseBlockFactory.IndexByName | Assets/Scripts/PoseBlockFactory.cs:48-49 | the dictionary filled by the loop over the destination nodes is `NameIndex` of those nodes |
| PoseFactory.PoseBlockFactory.StampRotations | Assets/Scripts/PoseBlockFactory.cs:51-57 | the overwrite loop over the source nodes leaves the destination nodes equal to `Stamp` of the source nodes, the old destination nodes and the dictionary |
| PoseFactory.PoseBlockFactory.EnsureSingleBoxCollider | Assets/Scripts/PoseBlockFactory.cs:60-78 | all old colliders are gone; with no renderer there is no collider, otherwise exactly one box collider whose size is the union's size and whose centre is the union's centre relative to the block; nothing else of the block changes |
| Crane.Clamp | Assets/Scripts/CraneController.cs:86-87 | within a well-formed range the result lies in the range, a value already inside is kept, and the result is always the value or one of the two bounds |
| Crane.ClampShortens | Assets/Scripts/CraneController.cs:86-87 | clamping a step that starts inside the limits never makes it longer |
| Crane.AxisX | Assets/Scripts/CraneController.cs:73-74 | the left/right axis is -1, 0 or 1 |
| Crane.AxisZ | Assets/Scripts/CraneController.cs:77-78 | the forward/back axis is -1, 0 or 1 |
| Crane.Turn | Assets/Scripts/CraneController.cs:94-96 | the turn input is -1, 0 or 1: +1 exactly when Q is held without E, and -1 whenever E is held, since E is read last |
| Crane.LaterKeyWins | Assets/Scripts/CraneController.cs:73-96 | with opposite keys held, right beats left, back beats forward and E beats Q; a key held alone gives its own sign |
| Crane.DiagonalIsShort | Assets/Scripts/CraneController.cs:81 | the single-precision normalisation factor squared and doubled lies just below one |
| Crane.LongExactlyOnDiagonal | Assets/Scripts/CraneController.cs:80-81 | the raw input vector is longer than one exactly when both axes are active |
| Crane.Direction | Assets/Scripts/CraneController.cs:80-81 | the direction has no vertical part, and with at most one axis active it is the raw input |
| Crane.DirectionIsShort | Assets/Scripts/CraneController.cs:80-81 | the direction is never longer than one, has unit length up to rounding whenever a key is held, and keeps the sign of each axis |
| Crane.Moved | Assets/Scripts/CraneController.cs:83-89 | after a move the height is unchanged and, for non-negative limits, x and z lie within their limits |
| Crane.SingleAxisStep | Assets/Scripts/CraneController.cs:80-84 | with at most one axis active, each coordinate moves by its axis value times `moveSpeed * dt` before clamping |
| Crane.StepNoLonger | Assets/Scripts/CraneController.cs:83-89 | from inside the limits, a move along a direction no longer than one covers at most `moveSpeed * dt` horizontally |
| Crane.MoveNoFasterOnDiagonal | Assets/Scripts/CraneController.cs:80-89 | whatever keys are held, diagonals included, a move from inside the limits covers at most `moveSpeed * dt` horizontally |
| Crane.RightForOneSecond | Assets/Scripts/CraneController.cs:83-89 | holding right for one second at speed 4 from the origin reaches x = 4 within a limit of 6 and stops at x = 3 under a limit of 3, at the same height |
| Crane.CraneController.constructor | Assets/Scripts/CraneController.cs:27-32 | a new crane holds no block, is not dropped and has no spawn pending |
| Crane.CraneController.SpawnPosition | Assets/Scripts/CraneController.cs:124-125 | a new block appears at the spawn point when one is set and otherwise at the controller's own position, in both cases raised by the spawn height offset |
| Crane.CraneController.Start | Assets/Scripts/CraneController.cs:34-37 | starting spawns the first block exactly when a source exists, with no spawn pending: with no source the crane holds nothing and its flags are kept; otherwise a fresh kinematic block stands at the spawn position with no rotation and the flags cleared, built by the factory (named "PoseBlock", with the factory's mass and damping) when there is one and cloned from the prefab otherwise |
| Crane.CraneController.Update | Assets/Scripts/CraneController.cs:39-65 | nothing changes once the game is over or with no block; before the drop the block moves to `Moved`, turns by `Turn * rotateSpeed * dt` and is released exactly when the drop key went down, advancing the turn once; after the drop the block and turn are untouched and a spawn is started exactly when no spawn was started for this block and the body is slower than the threshold; at most one spawn is ever pending; the frame lets it change only the flags, the spawn count, the block's position and yaw, the body's kinematic flag and the game manager, so the block's name, node array, colliders and renderer bounds and the body's mass, damping and speed are kept (the turn is held in the yaw alone) |
| Crane.CraneController.MoveDirection | Assets/Scripts/CraneController.cs:69-81 | the direction read from the keys is `KeyDirection` of those keys |
| Crane.CraneController.HandleMove | Assets/Scripts/CraneController.cs:67-90 | the block moves to `Moved` of its old position along the keys' direction; only its position may change, so its rotation, name, body, colliders and renderer bounds are kept |
| Crane.CraneController.MoveBy | Assets/Scripts/CraneController.cs:83-89 | the block moves to `Moved` of its old position along the given direction; only its position may change |
| Crane.CraneController.HandleRotate | Assets/Scripts/CraneController.cs:92-99 | the yaw grows by `Turn * rotateSpeed * dt` degrees; only the yaw may change, so the position, name, body, colliders and renderer bounds are kept |
| Crane.CraneController.Drop | Assets/Scripts/CraneController.cs:101-110 | with no body nothing changes; otherwise the body becomes non-kinematic, the crane is dropped, and the turn advances once when a game manager exists; only the drop flag, the body's kinematic flag and the game manager may change, so the body's mass, damping and speed are kept |
| Crane.CraneController.SpawnDelayElapsed | Assets/Scripts/CraneController.cs:112-116 | the pending spawn runs even when the game is over, leaving no spawn pending, with the same outcome as `SpawnNewBlock`: the new block's spawn position, zero yaw and cleared flags, and whether the factory or the prefab built it |
| Crane.CraneController.SpawnNewBlock | Assets/Scripts/CraneController.cs:118-153 | with no source the crane holds no block and its flags are unchanged; otherwise a new kinematic block stands at the spawn position with the flags cleared, built by the factory when there is one and cloned from the prefab otherwise |
| Crane.DropKeyTwice | Assets/Scripts/CraneController.cs:46-54 | pressing the drop key on two successive frames releases the block once and advances the turn exactly once |
| Crane.SettledFrames | Assets/Scripts/CraneController.cs:59-63 | however many frames a dropped block stays slow, exactly one spawn is started |

## Left out

- The editor property drawer of the input package is not part of this model: it is editor UI with no game logic.
- The keyboard pose preview script is not part of this model. It only turns the preview through engine rotation calls, and the model treats the preview's rotations as given values.
- Log output (`Debug.Log`, `Debug.LogError`) is dropped.
- Coroutine timing: the wait of `nextSpawnDelay` seconds becomes the event `SpawnDelayElapsed`, and `pendingSpawns` counts the spawns started and not yet run.
- Physics: the body's speed is a field the engine writes. Gravity, collisions and damping are not simulated.
- Floating point: positions and times are exact reals. The one constant that depends on rounding, the normalisation factor of a diagonal, is the single-precision value of 1/sqrt(2).
- Quaternion arithmetic: a block's orientation is a yaw angle in degrees about the vertical axis, and node rotations are opaque values that are copied but never composed.
- Scene.Block.Instantiate: the clone's root node gets the identity rotation it is placed with, but afterwards the block's orientation is held in `yaw` alone; turning the block does not update the root node's local rotation, which in the engine is the same transform.
- PoseFactory.PoseBlockFactory.CreatePoseBlock: has no rotation parameter. Its only caller passes the identity rotation.
- PoseFactory.PoseBlockFactory.CreatePoseBlock: the renderer bounds the collider is sized from are the unposed template's bounds moved to the position. In the engine, renderers on nodes the pose copy rotates report posed bounds, so the box can follow the pose; the model has no geometry for nodes and does not recompute bounds after posing, moving or turning a block.
- PoseFactory.PoseBlockFactory.EnsureSingleBoxCollider: requires an unrotated block at unit scale, so `InverseTransformPoint` is a subtraction of the block's position. The removal of old colliders takes effect at once instead of at the end of the frame, as the engine's deferred `Destroy` does.
- PoseFactory.PoseBlockFactory.CopyLocalRotations: requires the two hierarchies to be distinct. At its only call site the destination is a fresh clone.
- A factory with no template makes the engine throw on `Instantiate`; the model always has a template.
- The floor watcher dereferences the game manager's static instance without a null check; the model always passes a manager, so the resulting exception is not modelled.
- The static `GameManager.Instance` is passed explicitly: nullable to the crane, which checks it, and non-null to the watcher. The destruction of a rejected duplicate manager's game object is not modelled.
- The spawn point is a fixed position read when the crane is built, not a transform that may move.
