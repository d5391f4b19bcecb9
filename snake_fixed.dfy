/** Lab-9/Q1: the first snake. The body has a fixed length of 16, there is no
    fruit and no score, a wall only refuses the move, and a centred stick
    requests STOP, which halts the snake. */
module SnakeFixed {
  import opened Joystick
  import opened SnakeBody

  /** The globals snake_x / snake_y, the local game_over flag of main, and
      current_dir / next_dir. */
  datatype Fixed = Fixed(body: seq<Cell>, over: bool, cur: Direction, next: Direction)

  /** What every reachable state satisfies: 16 distinct in-grid segments forming
      one chain, and a current direction that is never STOP (current_dir only
      takes next_dir when that is not STOP). */
  predicate Invariant(g: Fixed)
  {
    && |g.body| == StartLen
    && AllInGrid(g.body) && Distinct(g.body) && Connected(g.body)
    && g.cur != Stop
  }

  /** init_Snake followed by game_over = 0. */
  function Init(): (g: Fixed)
    ensures Invariant(g)
    ensures g.body == InitialBody() && !g.over && g.cur == Right && g.next == Right
  {
    Fixed(InitialBody(), false, Right, Right)
  }

  /** The cell the head moves to. */
  function Target(g: Fixed): Cell
    requires |g.body| > 0
  {
    Advance(Head(g.body), g.next)
  }

  /** The body of `if (next_dir != DIR_STOP)`: turn, then refuse an off-grid
      head, end the game on a bite of indices 0 .. 14, or shift. */
  function Move(g: Fixed): (r: Fixed)
    requires Invariant(g) && !g.over && g.next != Stop
    ensures Invariant(r)
    ensures r.cur == g.next && r.next == g.next
    ensures !InGrid(Target(g)) ==> r.body == g.body && !r.over
    ensures InGrid(Target(g)) && Bites(g.body, Target(g)) ==> r.body == g.body && r.over
    ensures InGrid(Target(g)) && !Bites(g.body, Target(g)) ==> r.body == Slide(g.body, Target(g)) && !r.over
  {
    var c := Target(g);
    var turned := g.(cur := g.next);
    if !InGrid(c) then turned
    else if Bites(g.body, c) then turned.(over := true)
    else
      SlideKeepsBody(g.body, c);
      SlideKeepsConnected(g.body, c);
      turned.(body := Slide(g.body, c))
  }

  /** One pass of the main loop: the reset key, the game-over freeze, the
      STOP-in-the-dead-zone filter, and a move when next_dir is not STOP. */
  function Pass(g: Fixed, reset: bool, x: Sample, y: Sample): (r: Fixed)
    requires Invariant(g)
    ensures Invariant(r)
  {
    var g0 := if reset then Init() else g;
    if g0.over then g0
    else
      var g1 := g0.(next := StopFilter(x, y, g0.cur, g0.next));
      if g1.next != Stop then Move(g1) else g1
  }

  /** A centred stick halts the snake: the pass only records STOP. */
  lemma DeadZoneHalts(g: Fixed, x: Sample, y: Sample)
    requires Invariant(g) && !g.over && InDeadZone(x, y)
    ensures Pass(g, false, x, y) == g.(next := Stop)
  {
  }

  /** A STOP request leaves current_dir alone, so the snake resumes from its
      old heading: the next move may not reverse it either. */
  lemma StopKeepsHeading(g: Fixed, x: Sample, y: Sample)
    requires Invariant(g) && !g.over
    ensures var f := StopFilter(x, y, g.cur, g.next);
            Pass(g, false, x, y).cur == (if f != Stop then f else g.cur)
  {
  }

  /** While game_over is set, a pass without the reset key changes nothing. */
  lemma OverFreezes(g: Fixed, x: Sample, y: Sample)
    requires Invariant(g) && g.over
    ensures Pass(g, false, x, y) == g
  {
  }

  /** The reset key clears game_over and restarts from the initial body. */
  lemma ResetClears(g: Fixed, x: Sample, y: Sample)
    requires Invariant(g)
    ensures var r := Pass(g, true, x, y);
            r == (if InDeadZone(x, y) then Init().(next := Stop) else Move(Init().(next := StopFilter(x, y, Right, Right))))
  {
    FiltersAgreeOutsideDeadZone(x, y, Right, Right);
  }

  /** A wall never ends this game: the only way to game_over is a bite. */
  lemma OnlyBitesEndTheGame(g: Fixed, x: Sample, y: Sample)
    requires Invariant(g) && !g.over
    ensures var r := Pass(g, false, x, y);
            r.over ==> InGrid(Target(g.(next := r.next))) && Bites(g.body, Target(g.(next := r.next)))
  {
  }

  class Snake {
    /** snake_x / snake_y: exactly SNAKE_LEN entries, index 0 the tail. */
    const xs: array<int>
    const ys: array<int>
    var over: bool
    var cur: Direction
    var next: Direction

    ghost function Model(): Fixed
      reads this, xs, ys
      requires xs.Length == ys.Length
    {
      Fixed(Zip(xs[..], ys[..]), over, cur, next)
    }

    ghost predicate Valid()
      reads this, xs, ys
    {
      && xs.Length == StartLen && ys.Length == StartLen && xs != ys
      && Invariant(Model())
    }

    /** Power-on: game_over = 0, then init_Snake. */
    constructor ()
      ensures Valid() && Model() == Init()
      ensures fresh(xs) && fresh(ys)
    {
      xs := new int[StartLen];
      ys := new int[StartLen];
      new;
      InitSnake();
      over := false;
    }

    /** init_Snake: x = 24 .. 39 at y = 16, both directions Right. */
    method InitSnake()
      requires xs.Length == StartLen && ys.Length == StartLen && xs != ys
      modifies this, xs, ys
      ensures Zip(xs[..], ys[..]) == InitialBody() && cur == Right && next == Right
      ensures over == old(over)
    {
      var startX := GridW / 2 - StartLen / 2;
      var startY := GridH / 2;
      for i := 0 to StartLen
        modifies xs, ys
        invariant forall k :: 0 <= k < i ==> xs[k] == startX + k && ys[k] == startY
      {
        xs[i] := startX + i;
        ys[i] := startY;
      }
      cur := Right;
      next := Right;
      assert xs[..] == xs[..StartLen] && ys[..] == ys[..StartLen];
    }

    /** update_Joystick_Logic of Lab-9/Q1: the dead zone stores STOP. */
    method UpdateJoystick(x: Sample, y: Sample)
      requires Valid()
      modifies this
      ensures Valid()
      ensures Model() == old(Model()).(next := StopFilter(x, y, old(cur), old(next)))
    {
      var dx := x - AdcCenter;
      var dy := y - AdcCenter;
      if dx * dx + dy * dy < AdcThreshold * AdcThreshold {
        next := Stop;
        return;
      }
      var req: Direction;
      if Abs(dx) > Abs(dy) {
        req := if dx > 0 then Right else Left;
      } else {
        req := if dy > 0 then Down else Up;
      }
      if cur == Right && req == Left { return; }
      if cur == Left && req == Right { return; }
      if cur == Up && req == Down { return; }
      if cur == Down && req == Up { return; }
      next := req;
    }

    /** The move of the main loop, with next_dir not STOP. */
    method Step()
      requires Valid() && !over && next != Stop
      modifies this, xs, ys
      ensures Model() == Move(old(Model()))
      ensures Valid()
    {
      ghost var g := Model();
      var head := Cell(xs[StartLen - 1], ys[StartLen - 1]);
      assert head == Head(g.body);
      cur := next;
      var c := Advance(head, cur);
      if !InGrid(c) {
        return;
      }
      var hit := Occupies(xs, ys, StartLen - 1, c);
      assert Zip(xs[..StartLen - 1], ys[..StartLen - 1]) == g.body[..StartLen - 1] by {
        assert xs[..StartLen - 1] == xs[..][..StartLen - 1] && ys[..StartLen - 1] == ys[..][..StartLen - 1];
        ZipTake(xs[..], ys[..], StartLen - 1);
      }
      if hit {
        over := true;
        return;
      }
      ShiftAppend(xs, ys, StartLen, c);
      assert xs[..] == xs[..StartLen] && ys[..] == ys[..StartLen];
      assert old(xs[1..StartLen]) == old(xs[..])[1..] && old(ys[1..StartLen]) == old(ys[..])[1..];
      ZipSlide(old(xs[..]), old(ys[..]), c);
    }

    /** One pass of the main loop. */
    method Tick(reset: bool, x: Sample, y: Sample)
      requires Valid()
      modifies this, xs, ys
      ensures Model() == Pass(old(Model()), reset, x, y)
      ensures Valid()
    {
      if reset {
        InitSnake();
        over := false;
      }
      if over {
        return;
      }
      UpdateJoystick(x, y);
      if next != Stop {
        Step();
      }
    }
  }
}
