/** The game state of the growing snake (Lab-9/Q2 and Lab-9/Q2-final) as a value,
    and one pass of the main loop as a function of that value. The classes of
    SnakeEngine are proved to follow these functions. */
module SnakeGame {
  import opened Joystick
  import opened SnakeBody

  /** The globals of the game: body (snake_x / snake_y over current_len), the
      fruit, score, game_over, current_dir and next_dir. */
  datatype Game = Game(body: seq<Cell>, fruit: Cell, score: nat, over: bool, cur: Direction, next: Direction)

  /** Points per fruit. */
  const FruitPoints: nat := 10

  /** The length a game has after reaching a given score: one segment per fruit
      on top of the initial 16, capped at MAX_SNAKE_LEN. */
  function LenForScore(score: nat): (n: nat)
    ensures StartLen <= n <= MaxLen
    ensures n == MaxLen <==> score / FruitPoints >= MaxLen - StartLen
  {
    if StartLen + score / FruitPoints < MaxLen then StartLen + score / FruitPoints else MaxLen
  }

  /** The score at which the snake is full: the 84th fruit. */
  const FullScore: nat := (MaxLen - StartLen) * FruitPoints

  /** What every reachable state satisfies: the board is well formed, the length
      follows the score, no direction is STOP, and the body is one chain until
      the first meal at full length. */
  predicate Valid(g: Game)
  {
    && StartLen <= |g.body| <= MaxLen
    && Wellformed(g.body, g.fruit)
    && g.score % FruitPoints == 0
    && |g.body| == LenForScore(g.score)
    && (g.score <= FullScore ==> Connected(g.body))
    && g.cur != Stop && g.next != Stop
  }

  /** init_Game: 16 segments at x = 24 .. 39, y = 16, both directions Right,
      score 0, not over, and a fruit off the body. */
  function Reset(draws: seq<(nat, nat)>): (g: Game)
    requires Covers(draws)
    ensures Valid(g)
    ensures g.body == InitialBody() && g.score == 0 && !g.over
    ensures g.cur == Right && g.next == Right
    ensures HasFree(InitialBody(), draws) && g.fruit == Spawned(InitialBody(), draws)
  {
    CoversHasFree(InitialBody(), draws);
    Game(InitialBody(), Spawned(InitialBody(), draws), 0, false, Right, Right)
  }

  /** The four ways a move can end. */
  datatype Outcome = OffGrid | Bitten | Moved | Ate

  /** The checks of the main loop in their order: bounds, self-collision over
      indices 0 .. len-2, fruit. */
  function Classify(body: seq<Cell>, fruit: Cell, c: Cell): Outcome
    requires |body| > 0
  {
    if !InGrid(c) then OffGrid
    else if Bites(body, c) then Bitten
    else if c == fruit then Ate
    else Moved
  }

  /** The cell the head moves to. */
  function Target(g: Game): Cell
    requires |g.body| > 0
  {
    Advance(Head(g.body), g.next)
  }

  /** One move of a running game with next_dir != STOP: current_dir takes
      next_dir, then the candidate head is bounds-checked, collision-checked and
      either eaten onto or slid onto. */
  function Step(g: Game, draws: seq<(nat, nat)>): (r: Game)
    requires Valid(g) && !g.over && Covers(draws)
    ensures Valid(r)
    ensures r.cur == g.next && r.next == g.next
    ensures r.over <==> !InGrid(Target(g)) || Bites(g.body, Target(g))
    ensures r.over ==> r.body == g.body && r.fruit == g.fruit && r.score == g.score
    ensures !r.over && Target(g) == g.fruit ==>
              r.score == g.score + FruitPoints && r.body == Grow(g.body, Target(g)) &&
              HasFree(r.body, draws) && r.fruit == Spawned(r.body, draws)
    ensures !r.over && Target(g) != g.fruit ==>
              r.score == g.score && r.body == Slide(g.body, Target(g)) && r.fruit == g.fruit
  {
    var c := Target(g);
    var moved := g.(cur := g.next);
    match Classify(g.body, g.fruit, c)
    case OffGrid => moved.(over := true)
    case Bitten => moved.(over := true)
    case Ate =>
      var body' := Grow(g.body, c);
      GrowKeepsBody(g.body, c);
      CoversHasFree(body', draws);
      assert |g.body| < MaxLen ==> Connected(body') by {
        if |g.body| < MaxLen {
          GrowKeepsConnected(g.body, c);
        }
      }
      moved.(body := body', fruit := Spawned(body', draws), score := g.score + FruitPoints)
    case Moved =>
      SlideKeepsWellformed(g.body, g.fruit, c);
      assert g.score <= FullScore ==> Connected(Slide(g.body, c)) by {
        if g.score <= FullScore {
          SlideKeepsConnected(g.body, c);
        }
      }
      moved.(body := Slide(g.body, c))
  }

  /** One pass of the main loop of Lab-9/Q2 and Lab-9/Q2-final: the reset key
      (which re-runs init_Game and then carries on with the same pass), the
      game-over freeze, the joystick filter, and a move when next_dir is not
      STOP. The draws feed spawn_Fruit after a reset and after a meal. */
  function Tick(g: Game, reset: bool, x: Sample, y: Sample,
                resetDraws: seq<(nat, nat)>, draws: seq<(nat, nat)>): (r: Game)
    requires Valid(g) && Covers(resetDraws) && Covers(draws)
    ensures Valid(r)
  {
    var g0 := if reset then Reset(resetDraws) else g;
    if g0.over then g0
    else
      var g1 := g0.(next := HoldFilter(x, y, g0.cur, g0.next));
      if g1.next != Stop then Step(g1, draws) else g1
  }

  /** While game_over is set, a pass without the reset key changes nothing. */
  lemma OverFreezes(g: Game, x: Sample, y: Sample, resetDraws: seq<(nat, nat)>, draws: seq<(nat, nat)>)
    requires Valid(g) && Covers(resetDraws) && Covers(draws) && g.over
    ensures Tick(g, false, x, y, resetDraws, draws) == g
  {
  }

  /** The reset key always restarts: after it the game runs again from the
      initial body, whatever state it was in. */
  lemma ResetRestarts(g: Game, x: Sample, y: Sample, resetDraws: seq<(nat, nat)>, draws: seq<(nat, nat)>)
    requires Valid(g) && Covers(resetDraws) && Covers(draws)
    ensures var r := Tick(g, true, x, y, resetDraws, draws);
            r == Step(Reset(resetDraws).(next := HoldFilter(x, y, Right, Right)), draws)
  {
  }

  /** In a running game next_dir is never STOP, so every pass moves the snake. */
  lemma RunningGameMoves(g: Game, x: Sample, y: Sample, resetDraws: seq<(nat, nat)>, draws: seq<(nat, nat)>)
    requires Valid(g) && Covers(resetDraws) && Covers(draws) && !g.over
    ensures Tick(g, false, x, y, resetDraws, draws) == Step(g.(next := HoldFilter(x, y, g.cur, g.next)), draws)
  {
  }

  /** The head never turns back onto the segment behind it: moving in the
      direction the filter leaves in next_dir never lands on the cell the head
      came from (the previous segment) in a chain of at least two. */
  lemma NoReversalIntoNeck(g: Game, x: Sample, y: Sample)
    requires Valid(g) && g.score <= FullScore
    requires Head(g.body) == Advance(g.body[|g.body| - 2], g.cur)
    requires g.next != Opposite(g.cur)
    ensures var n := HoldFilter(x, y, g.cur, g.next);
            Advance(Head(g.body), n) != g.body[|g.body| - 2]
  {
    var n := HoldFilter(x, y, g.cur, g.next);
    HoldFilterNeverReverses(x, y, g.cur, g.next);
    var neck := g.body[|g.body| - 2];
    if Advance(Head(g.body), n) == neck {
      AdvanceBack(neck, g.cur, n);
      assert false;
    }
  }

  /** If one step in d and then one step in e return to the start, e is the
      reverse of d. */
  lemma AdvanceBack(c: Cell, d: Direction, e: Direction)
    requires d != Stop && e != Stop
    requires Advance(Advance(c, d), e) == c
    ensures e == Opposite(d)
  {
  }

  /** The length follows the score: the snake is full exactly from 840 points on. */
  lemma FullExactlyFromFullScore(g: Game)
    requires Valid(g)
    ensures |g.body| == MaxLen <==> g.score >= FullScore
  {
  }

  /** A meal at full length keeps the length at 100, keeps the first 99
      segments where they were, and drops the old head's cell from the body:
      the chain breaks there. */
  lemma FullMealOverwritesHead(g: Game, draws: seq<(nat, nat)>)
    requires Valid(g) && !g.over && Covers(draws) && g.score == FullScore
    requires InGrid(Target(g)) && !Bites(g.body, Target(g)) && Target(g) == g.fruit
    ensures var r := Step(g, draws);
            |r.body| == MaxLen && r.body[..MaxLen - 1] == g.body[..MaxLen - 1] &&
            Head(g.body) !in r.body && !Connected(r.body)
  {
    var r := Step(g, draws);
    var c := Target(g);
    assert Adjacent(Head(g.body), c);
    FullGrowBreaksChain(g.body, c);
    assert Head(g.body) !in r.body by {
      forall i | 0 <= i < |r.body| ensures r.body[i] != Head(g.body) {
        if i < MaxLen - 1 {
          assert r.body[i] == g.body[i];
        }
      }
    }
  }
}
