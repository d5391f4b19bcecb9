/** The globals of the growing snake and the code of Lab-9/Q2 and
    Lab-9/Q2-final that updates them in place: init_Game,
    update_Joystick_Logic and one move of the main loop. Both programs share
    this code word for word; they differ only in how the score is displayed
    (modules SnakeFinal and SnakeQ2). */
module SnakeEngine {
  import opened Joystick
  import opened SnakeBody
  import opened SnakeGame

  class Engine {
    /** snake_x / snake_y with room for MAX_SNAKE_LEN segments; index 0 is the tail. */
    const xs: array<int>
    const ys: array<int>
    /** current_len */
    var len: nat
    var fruit: Cell
    var score: nat
    /** game_over */
    var over: bool
    /** current_dir / next_dir */
    var cur: Direction
    var next: Direction

    /** The segments in use. */
    ghost function Body(): seq<Cell>
      reads this, xs, ys
      requires len <= xs.Length && len <= ys.Length
    {
      Zip(xs[..len], ys[..len])
    }

    /** The globals as a value of the game model. */
    ghost function Model(): Game
      reads this, xs, ys
      requires len <= xs.Length && len <= ys.Length
    {
      Game(Body(), fruit, score, over, cur, next)
    }

    ghost predicate Valid()
      reads this, xs, ys
    {
      && xs.Length == MaxLen && ys.Length == MaxLen && xs != ys
      && len <= MaxLen
      && SnakeGame.Valid(Model())
    }

    /** Power-on: the arrays exist, then main calls init_Game. */
    constructor (draws: seq<(nat, nat)>)
      requires Covers(draws)
      ensures Valid() && Model() == Reset(draws)
      ensures fresh(xs) && fresh(ys)
    {
      xs := new int[MaxLen];
      ys := new int[MaxLen];
      len := StartLen;
      fruit := Cell(-1, -1);
      new;
      InitGame(draws);
    }

    /** init_Game: lay out the 16 starting segments, reset score, flag and
        directions, then spawn the fruit. */
    method InitGame(draws: seq<(nat, nat)>)
      requires xs.Length == MaxLen && ys.Length == MaxLen && xs != ys
      requires Covers(draws)
      modifies this, xs, ys
      ensures Valid() && Model() == Reset(draws)
    {
      var startX := GridW / 2 - StartLen / 2;
      var startY := GridH / 2;
      for i := 0 to StartLen
        invariant forall k :: 0 <= k < i ==> xs[k] == startX + k && ys[k] == startY
      {
        xs[i] := startX + i;
        ys[i] := startY;
      }
      cur := Right;
      next := Right;
      len := StartLen;
      score := 0;
      over := false;
      assert Body() == InitialBody();
      CoversHasFree(Body(), draws);
      fruit := PickFreeCell(xs, ys, len, draws);
    }

    /** update_Joystick_Logic with the samples X_ADC, Y_ADC: keep next_dir in
        the dead zone and on a reversal, otherwise take the requested direction. */
    method UpdateJoystick(x: Sample, y: Sample)
      requires Valid()
      modifies this
      ensures Valid()
      ensures Model() == old(Model()).(next := HoldFilter(x, y, old(cur), old(next)))
    {
      var dx := x - AdcCenter;
      var dy := y - AdcCenter;
      if dx * dx + dy * dy < AdcThreshold * AdcThreshold {
        return;
      }
      var req: Direction;
      if Abs(dx) > Abs(dy) {
        req := if dx > 0 then Right else Left;
      } else {
        req := if dy > 0 then Down else Up;
      }
      if cur == Right && req == Left { return; }
      if cur == Left && req == Right { return; }
      if cur == Up && req == Down { return; }
      if cur == Down && req == Up { return; }
      next := req;
    }

    /** The body of `if (next_dir != DIR_STOP)` in the main loop: turn, check
        the bounds, scan indices 0 .. len-2 for a bite, then eat (score += 10,
        grow if below 100, store the head at len-1, respawn) or shift. */
    method Step(draws: seq<(nat, nat)>) returns (outcome: Outcome)
      requires Valid() && !over && Covers(draws)
      modifies this, xs, ys
      ensures len <= MaxLen && Model() == SnakeGame.Step(old(Model()), draws)
      ensures Valid()
      ensures outcome == Classify(old(Body()), old(fruit), Target(old(Model())))
    {
      ghost var g := Model();
      var head := Cell(xs[len - 1], ys[len - 1]);
      assert head == Head(g.body);
      cur := next;
      var c := Advance(head, cur);
      outcome := Probe(c);
      match outcome
      case OffGrid =>
        over := true;
      case Bitten =>
        over := true;
      case Ate =>
        Eat(c, draws);
      case Moved =>
        Shift(c);
    }

    /** The bounds check and then the self-collision scan over indices
        0 .. len-2 (the tail included, the current head not), then the fruit test. */
    method Probe(c: Cell) returns (outcome: Outcome)
      requires xs.Length == MaxLen && ys.Length == MaxLen && 0 < len <= MaxLen
      ensures outcome == Classify(Body(), fruit, c)
      ensures outcome == OffGrid <==> !InGrid(c)
      ensures outcome == Bitten <==> InGrid(c) && c in Body()[..len - 1]
    {
      if !InGrid(c) {
        return OffGrid;
      }
      var hit := Occupies(xs, ys, len - 1, c);
      assert Zip(xs[..len - 1], ys[..len - 1]) == Body()[..len - 1] by {
        assert xs[..len - 1] == xs[..len][..len - 1] && ys[..len - 1] == ys[..len][..len - 1];
        ZipTake(xs[..len], ys[..len], len - 1);
      }
      if hit {
        return Bitten;
      }
      outcome := if c == fruit then Ate else Moved;
    }

    /** The eating branch: score += 10, current_len++ below 100, the new head
        stored at current_len-1 without shifting, and a new fruit. */
    method Eat(c: Cell, draws: seq<(nat, nat)>)
      requires xs.Length == MaxLen && ys.Length == MaxLen && xs != ys
      requires 0 < len <= MaxLen && Covers(draws)
      modifies this, xs, ys
      ensures len == (if old(len) < MaxLen then old(len) + 1 else MaxLen)
      ensures Body() == Grow(old(Body()), c)
      ensures HasFree(Body(), draws) && fruit == Spawned(Body(), draws)
      ensures score == old(score) + FruitPoints
      ensures over == old(over) && cur == old(cur) && next == old(next)
    {
      ghost var body := Body();
      ghost var oxs, oys := xs[..], ys[..];
      score := score + FruitPoints;
      if len < MaxLen {
        len := len + 1;
      }
      xs[len - 1] := c.x;
      ys[len - 1] := c.y;
      assert Body() == Grow(body, c) by {
        assert xs[..len] == oxs[..len - 1] + [c.x] && ys[..len] == oys[..len - 1] + [c.y];
        ZipAppend(oxs[..len - 1], oys[..len - 1], c);
        ZipTake(oxs[..|body|], oys[..|body|], len - 1);
        assert oxs[..len - 1] == oxs[..|body|][..len - 1];
        assert oys[..len - 1] == oys[..|body|][..len - 1];
      }
      CoversHasFree(Body(), draws);
      fruit := PickFreeCell(xs, ys, len, draws);
    }

    /** The plain-move branch: the in-place shift and the new head at len-1. */
    method Shift(c: Cell)
      requires xs.Length == MaxLen && ys.Length == MaxLen && xs != ys
      requires 0 < len <= MaxLen
      modifies xs, ys
      ensures Body() == Slide(old(Body()), c)
    {
      ShiftAppend(xs, ys, len, c);
      assert old(xs[1..len]) == old(xs[..len])[1..] && old(ys[1..len]) == old(ys[..len])[1..];
      ZipSlide(old(xs[..len]), old(ys[..len]), c);
    }
  }
}
