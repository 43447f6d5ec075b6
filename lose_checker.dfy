/** The per-block watcher that ends the game when its block falls below the floor. */
module Lose {
  import opened Scene
  import opened Turns

  /** A block whose height is strictly below this has fallen off the tower. */
  const FloorHeight: real := -5.0

  class LoseChecker {
    /** The block the watcher is attached to. */
    const block: Block
    /** False once the watcher has removed itself; the engine then no longer calls `Update`. */
    var enabled: bool

    constructor (block: Block)
      ensures this.block == block && enabled
    {
      this.block := block;
      enabled := true;
    }

    /** One frame: when the block is strictly below the floor, the current player is reported
        as the loser and the watcher disables itself. */
    method Update(gm: GameManager) returns (fired: bool)
      modifies this, gm
      ensures fired <==> old(enabled) && block.position.y < FloorHeight
      ensures enabled == (old(enabled) && !fired)
      ensures fired ==> gm.isGameOver
      ensures !fired ==> gm.isGameOver == old(gm.isGameOver)
      ensures gm.currentPlayer == old(gm.currentPlayer)
      ensures block.position == old(block.position)
    {
      fired := false;
      if enabled && block.position.y < FloorHeight {
        gm.GameOver(gm.currentPlayer);
        enabled := false;
        fired := true;
      }
    }
  }

  /** However many frames follow, a watcher that has fired reports nothing more. */
  method WatchFrames(checker: LoseChecker, gm: GameManager, frames: nat) returns (firings: nat)
    modifies checker, gm
    ensures firings <= 1
    ensures firings == 1 ==> gm.isGameOver
    ensures firings == 1 ==> old(checker.enabled)
    ensures gm.currentPlayer == old(gm.currentPlayer)
  {
    firings := 0;
    var i := 0;
    while i < frames
      invariant firings <= 1
      invariant firings == 1 ==> gm.isGameOver && !checker.enabled && old(checker.enabled)
      invariant firings == 0 ==> checker.enabled == old(checker.enabled)
      invariant gm.currentPlayer == old(gm.currentPlayer)
    {
      var fired := checker.Update(gm);
      if fired {
        firings := firings + 1;
      }
      i := i + 1;
    }
  }
}
