/** Turn and game state: whose turn it is (player 1 or 2) and whether the game has ended,
    plus the one-instance registration that makes it reachable from the other scripts. */
module Turns {

  /** The player whose turn follows `p`'s: 1 hands over to 2, every other value to 1. */
  function NextPlayer(p: int): (q: int)
    ensures q == 1 || q == 2
    ensures q != p
  {
    if p == 1 then 2 else 1
  }

  /** The current player after `k` turn advances starting from `p`. */
  function PlayerAfter(p: int, k: nat): int
  {
    if k == 0 then p else NextPlayer(PlayerAfter(p, k - 1))
  }

  /** Two advances from a valid player give that player back. */
  lemma TwoTurnsRestore(p: int)
    requires p == 1 || p == 2
    ensures NextPlayer(NextPlayer(p)) == p
  {
  }

  /** From player 1, after `k` advances it is player 2's turn exactly when `k` is odd. */
  lemma {:induction false} TurnsFromFirstPlayer(k: nat)
    ensures PlayerAfter(1, k) == if k % 2 == 1 then 2 else 1
  {
    if k > 0 {
      TurnsFromFirstPlayer(k - 1);
    }
  }

  /** Whatever value the player field starts from, advances keep it among {1, 2} and
      alternate it with period two. */
  lemma {:induction false} TurnsAlternate(p: int, k: nat)
    ensures k > 0 ==> PlayerAfter(p, k) == 1 || PlayerAfter(p, k) == 2
    ensures k > 0 ==> PlayerAfter(p, k + 1) != PlayerAfter(p, k)
    ensures k > 0 ==> PlayerAfter(p, k + 2) == PlayerAfter(p, k)
  {
    if k > 0 {
      TwoTurnsRestore(PlayerAfter(p, k));
    }
  }

  class GameManager {
    var currentPlayer: int
    var isGameOver: bool

    constructor ()
      ensures currentPlayer == 1 && !isGameOver
    {
      currentPlayer := 1;
      isGameOver := false;
    }

    /** Hands the turn to the other player; the game-over flag is neither read nor changed. */
    method NextTurn()
      modifies this
      ensures currentPlayer == NextPlayer(old(currentPlayer))
      ensures isGameOver == old(isGameOver)
    {
      currentPlayer := if currentPlayer == 1 then 2 else 1;
    }

    /** Ends the game. The loser is only reported, not stored, so a repeated call changes nothing. */
    method GameOver(loser: int)
      modifies this
      ensures isGameOver
      ensures currentPlayer == old(currentPlayer)
    {
      isGameOver := true;
    }
  }

  /** The process-wide slot through which the other scripts reach the game manager. */
  class Registry {
    var instance: GameManager?

    constructor ()
      ensures instance == null
    {
      instance := null;
    }

    /** Registers `candidate` only when no manager is registered yet; otherwise the existing
        one stays and the candidate is discarded (`kept` is false). */
    method Awake(candidate: GameManager) returns (kept: bool)
      modifies this
      ensures kept <==> old(instance) == null
      ensures instance == if kept then candidate else old(instance)
    {
      if instance == null {
        instance := candidate;
        kept := true;
      } else {
        kept := false;
      }
    }
  }
}
