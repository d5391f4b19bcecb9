/** Lab-8/Q2: a ball bouncing between the walls of the 128 x 64 LCD, a fixed
    obstacle near the top and a paddle on the bottom row steered by the VR1
    potentiometer. The game runs through three states: INIT (set up, paddle
    follows the knob until a key), PLAYING (one ball step per pass) and
    GAMEOVER (wait for a key). */
module BallGame {
  const LcdW: int := 128
  const LcdH: int := 64
  const BallSize: int := 8
  const PaddleW: int := 16
  const PaddleH: int := 8
  const ObstacleW: int := 16
  const ObstacleH: int := 8
  /** The speed of Init_Game_Data: four pixels per pass on each axis. */
  const Speed: int := 4
  /** Update_Paddle_Pos averages this many conversions. */
  const Conversions: nat := 8
  /** Full scale of the 12-bit converter. */
  const AdcScale: nat := 4096

  datatype GameState = StateInit | StatePlaying | StateGameOver

  /** Rect */
  datatype Rect = Rect(x: int, y: int, w: int, h: int)

  /** BallObj */
  datatype Ball = Ball(x: int, y: int, dx: int, dy: int, w: int, h: int)

  /** Check_Collision(rect, ball) */
  predicate Collides(r: Rect, b: Ball)
  {
    && b.x < r.x + r.w
    && b.x + b.w > r.x
    && b.y < r.y + r.h
    && b.y + b.h > r.y
  }

  /** The pixel (px, py) lies in the w x h box at (x, y), edges excluded on the
      right and bottom. */
  predicate Inside(px: int, py: int, x: int, y: int, w: int, h: int)
  {
    x <= px < x + w && y <= py < y + h
  }

  /** Check_Collision reports exactly the boxes that share a pixel. */
  lemma CollisionIsOverlap(r: Rect, b: Ball)
    requires r.w > 0 && r.h > 0 && b.w > 0 && b.h > 0
    ensures Collides(r, b) <==>
              exists px, py :: Inside(px, py, r.x, r.y, r.w, r.h) && Inside(px, py, b.x, b.y, b.w, b.h)
  {
    if Collides(r, b) {
      var px := if r.x < b.x then b.x else r.x;
      var py := if r.y < b.y then b.y else r.y;
      assert Inside(px, py, r.x, r.y, r.w, r.h) && Inside(px, py, b.x, b.y, b.w, b.h);
    }
  }

  /** Boxes that only touch along an edge do not collide. */
  lemma TouchingIsNoCollision(r: Rect, b: Ball)
    requires b.x + b.w == r.x || r.x + r.w == b.x || b.y + b.h == r.y || r.y + r.h == b.y
    ensures !Collides(r, b)
  {
  }

  /** One conversion result: ADDR[7] & 0xFFF, the low 12 bits of the raw
      register value. */
  function Masked(raw: nat): (v: nat)
    ensures v < AdcScale
  {
    raw % AdcScale
  }

  /** The accumulated adc_val of Update_Paddle_Pos. */
  function SumMasked(raws: seq<nat>): (s: nat)
    ensures s <= (AdcScale - 1) * |raws|
  {
    if raws == [] then 0 else SumMasked(raws[..|raws| - 1]) + Masked(raws[|raws| - 1])
  }

  /** The paddle column of Update_Paddle_Pos: the average of eight conversions
      scaled from 0 .. 4095 to 0 .. 128 - 16, always inside the screen. */
  function PaddleValue(raws: seq<nat>): (x: int)
    requires |raws| == Conversions
    ensures 0 <= x <= LcdW - PaddleW - 1
  {
    (SumMasked(raws) / Conversions) * (LcdW - PaddleW) / AdcScale
  }

  lemma {:induction false} SumOfSteady(raws: seq<nat>, v: nat)
    requires forall i :: 0 <= i < |raws| ==> Masked(raws[i]) == v
    ensures SumMasked(raws) == v * |raws|
    decreases |raws|
  {
    if raws != [] {
      var front := raws[..|raws| - 1];
      assert forall i :: 0 <= i < |front| ==> front[i] == raws[i];
      SumOfSteady(front, v);
    }
  }

  /** A knob held still at v puts the paddle at v * 112 / 4096: 0 for the
      left stop and 111 for the right one. */
  lemma SteadyKnob(raws: seq<nat>, v: nat)
    requires |raws| == Conversions && forall i :: 0 <= i < |raws| ==> Masked(raws[i]) == v
    ensures PaddleValue(raws) == v * (LcdW - PaddleW) / AdcScale
    ensures v == 0 ==> PaddleValue(raws) == 0
    ensures v == AdcScale - 1 ==> PaddleValue(raws) == LcdW - PaddleW - 1
  {
    SumOfSteady(raws, v);
  }

  /** The globals g_ball, g_paddle, g_obstacle and g_state. */
  datatype Table = Table(ball: Ball, paddle: Rect, obstacle: Rect, state: GameState)

  /** The obstacle of Init_Game_Data. */
  const Obstacle: Rect := Rect(56, 8, ObstacleW, ObstacleH)
  /** The paddle row: LCD_H - PADDLE_H. */
  const PaddleY: int := LcdH - PaddleH

  /** A speed of Init_Game_Data from one rand() draw. */
  function Heading(draw: nat): (d: int)
    ensures d == Speed || d == -Speed
    ensures d == Speed <==> draw % 2 == 0
  {
    if draw % 2 == 0 then Speed else -Speed
  }

  /** What holds once Init_Game_Data has run: the sizes and the obstacle are
      fixed, the paddle sits on the bottom row inside the screen, the ball
      moves four pixels per pass on each axis, never leaves the columns
      0 .. 120 nor rises above row 0, and is above row 56 while not over. */
  predicate InPlay(t: Table)
  {
    && t.obstacle == Obstacle
    && t.paddle.y == PaddleY && t.paddle.w == PaddleW && t.paddle.h == PaddleH
    && 0 <= t.paddle.x <= LcdW - PaddleW - 1
    && t.ball.w == BallSize && t.ball.h == BallSize
    && (t.ball.dx == Speed || t.ball.dx == -Speed)
    && (t.ball.dy == Speed || t.ball.dy == -Speed)
    && 0 <= t.ball.x <= LcdW - BallSize
    && 0 <= t.ball.y
    && (t.state == StatePlaying ==> t.ball.y < LcdH - BallSize)
  }

  /** Init_Game_Data with the two rand() draws for dx and dy. */
  function InitData(t: Table, drawX: nat, drawY: nat): (r: Table)
    ensures InPlay(r) && r.state == t.state
    ensures r.ball.x == 60 && r.ball.y == 28 && r.paddle.x == 56
  {
    Table(Ball((LcdW - BallSize) / 2, (LcdH - BallSize) / 2, Heading(drawX), Heading(drawY), BallSize, BallSize),
          Rect(56, PaddleY, PaddleW, PaddleH), Obstacle, t.state)
  }

  /** The ball's move with the side-wall and top-wall checks. */
  function Walls(b: Ball): (r: Ball)
    requires 0 <= b.x <= LcdW - BallSize && 0 <= b.y
    requires (b.dx == Speed || b.dx == -Speed) && (b.dy == Speed || b.dy == -Speed)
    ensures r.w == b.w && r.h == b.h
    ensures 0 <= r.x <= LcdW - BallSize && 0 <= r.y
    ensures r.dx == (if b.x + b.dx <= 0 || b.x + b.dx >= LcdW - BallSize then -b.dx else b.dx)
    ensures r.dy == (if b.y + b.dy <= 0 then -b.dy else b.dy)
    ensures 0 < b.x + b.dx < LcdW - BallSize ==> r.x == b.x + b.dx
    ensures b.y + b.dy > 0 ==> r.y == b.y + b.dy
    ensures b.x + b.dx <= 0 ==> r.x == 0
    ensures b.x + b.dx >= LcdW - BallSize ==> r.x == LcdW - BallSize
    ensures b.y + b.dy <= 0 ==> r.y == 0
  {
    var m := b.(x := b.x + b.dx, y := b.y + b.dy);
    var h := if m.x <= 0 then m.(x := 0, dx := -m.dx)
             else if m.x >= LcdW - BallSize then m.(x := LcdW - BallSize, dx := -m.dx)
             else m;
    if h.y <= 0 then h.(y := 0, dy := -h.dy) else h
  }

  /** The STATE_PLAYING branch of main with the knob's conversions: paddle,
      move and walls, the game-over row, the paddle bounce, the obstacle
      bounce. */
  function Play(t: Table, raws: seq<nat>): (r: Table)
    requires InPlay(t) && t.state == StatePlaying && |raws| == Conversions
    ensures InPlay(r) && r.state != StateInit
    ensures r.paddle == t.paddle.(x := PaddleValue(raws)) && r.obstacle == t.obstacle
  {
    var paddle := t.paddle.(x := PaddleValue(raws));
    var b1 := Walls(t.ball);
    var state := if b1.y >= LcdH - BallSize then StateGameOver else t.state;
    var b2 := if Collides(paddle, b1) then b1.(dy := -b1.dy, y := paddle.y - BallSize) else b1;
    var b3 := if Collides(t.obstacle, b2) then b2.(dy := -b2.dy) else b2;
    Table(b3, paddle, t.obstacle, state)
  }

  /** Reaching row 56 ends the game even when the paddle is under the ball:
      the game-over check runs before the paddle check. */
  lemma BottomEndsGame(t: Table, raws: seq<nat>)
    requires InPlay(t) && t.state == StatePlaying && |raws| == Conversions
    requires Walls(t.ball).y >= LcdH - BallSize
    ensures Play(t, raws).state == StateGameOver
  {
  }

  /** Above row 56 the game goes on. */
  lemma AboveBottomContinues(t: Table, raws: seq<nat>)
    requires InPlay(t) && t.state == StatePlaying && |raws| == Conversions
    requires Walls(t.ball).y < LcdH - BallSize
    ensures Play(t, raws).state == StatePlaying
  {
  }

  /** A paddle hit sends the ball up from just above the paddle, and the
      obstacle cannot then be hit in the same pass. */
  lemma PaddleBounce(t: Table, raws: seq<nat>)
    requires InPlay(t) && t.state == StatePlaying && |raws| == Conversions
    requires Collides(t.paddle.(x := PaddleValue(raws)), Walls(t.ball))
    ensures var r := Play(t, raws);
            r.ball == Walls(t.ball).(dy := -Walls(t.ball).dy, y := PaddleY - BallSize)
  {
  }

  /** An obstacle hit only turns the vertical speed round. */
  lemma ObstacleBounce(t: Table, raws: seq<nat>)
    requires InPlay(t) && t.state == StatePlaying && |raws| == Conversions
    requires !Collides(t.paddle.(x := PaddleValue(raws)), Walls(t.ball)) && Collides(t.obstacle, Walls(t.ball))
    ensures Play(t, raws).ball == Walls(t.ball).(dy := -Walls(t.ball).dy)
  {
  }

  /** Without a hit the ball keeps the course the walls gave it. */
  lemma FreeFlight(t: Table, raws: seq<nat>)
    requires InPlay(t) && t.state == StatePlaying && |raws| == Conversions
    requires !Collides(t.paddle.(x := PaddleValue(raws)), Walls(t.ball)) && !Collides(t.obstacle, Walls(t.ball))
    ensures Play(t, raws).ball == Walls(t.ball)
  {
  }

  /** The paddle positions the INIT branch leaves: the one of Init_Game_Data,
      then one per pass of the wait-for-key loop. */
  function FollowKnob(x: int, waits: seq<seq<nat>>): (r: int)
    requires forall i :: 0 <= i < |waits| ==> |waits[i]| == Conversions
    requires 0 <= x <= LcdW - PaddleW - 1
    ensures 0 <= r <= LcdW - PaddleW - 1
    ensures waits == [] ==> r == x
    ensures waits != [] ==> r == PaddleValue(waits[|waits| - 1])
  {
    if waits == [] then x else PaddleValue(waits[|waits| - 1])
  }

  /** A well-formed key-wait history: eight conversions per pass. */
  predicate Waits(waits: seq<seq<nat>>)
  {
    forall i :: 0 <= i < |waits| ==> |waits[i]| == Conversions
  }

  /** One pass of main's `while (1)`, choosing the branch by g_state. INIT
      runs Init_Game_Data, follows the knob while no key is down and starts
      play; PLAYING runs one ball step; GAMEOVER waits for a key and goes back
      to INIT. */
  function Pass(t: Table, drawX: nat, drawY: nat, waits: seq<seq<nat>>, raws: seq<nat>): (r: Table)
    requires t.state == StateInit || InPlay(t)
    requires Waits(waits) && |raws| == Conversions
    ensures r.state == StateInit || InPlay(r)
    ensures t.state == StateInit ==> r.state == StatePlaying
    ensures t.state == StatePlaying ==> r.state != StateInit
    ensures t.state == StateGameOver ==> r == t.(state := StateInit)
  {
    match t.state
    case StateInit =>
      var d := InitData(t, drawX, drawY);
      d.(paddle := d.paddle.(x := FollowKnob(d.paddle.x, waits)), state := StatePlaying)
    case StatePlaying => Play(t, raws)
    case StateGameOver => t.(state := StateInit)
  }

  /** A fresh game from INIT starts with the ball at (60, 28) and the paddle under the knob. */
  lemma InitStartsPlay(t: Table, drawX: nat, drawY: nat, waits: seq<seq<nat>>, raws: seq<nat>)
    requires t.state == StateInit && Waits(waits) && |raws| == Conversions
    ensures var r := Pass(t, drawX, drawY, waits, raws);
            r.state == StatePlaying && r.ball.x == 60 && r.ball.y == 28
            && r.ball.dx == Heading(drawX) && r.ball.dy == Heading(drawY)
            && r.paddle == Rect(FollowKnob(56, waits), PaddleY, PaddleW, PaddleH)
  {
  }

  class Console {
    /** g_ball */
    var ball: Ball
    /** g_paddle */
    var paddle: Rect
    /** g_obstacle */
    var obstacle: Rect
    /** g_state */
    var state: GameState

    ghost function Model(): Table
      reads this
    {
      Table(ball, paddle, obstacle, state)
    }

    ghost predicate Valid()
      reads this
    {
      state == StateInit || InPlay(Model())
    }

    /** The globals at power-on: zeroed structs, g_state = STATE_INIT. */
    constructor ()
      ensures Valid() && state == StateInit
      ensures Model() == Table(Ball(0, 0, 0, 0, 0, 0), Rect(0, 0, 0, 0), Rect(0, 0, 0, 0), StateInit)
    {
      ball := Ball(0, 0, 0, 0, 0, 0);
      paddle := Rect(0, 0, 0, 0);
      obstacle := Rect(0, 0, 0, 0);
      state := StateInit;
    }

    /** Init_Game_Data. */
    method InitGameData(drawX: nat, drawY: nat)
      modifies this
      ensures Model() == InitData(old(Model()), drawX, drawY)
    {
      var speed := Speed;
      obstacle := Rect(56, 8, ObstacleW, ObstacleH);
      paddle := Rect(56, LcdH - PaddleH, PaddleW, PaddleH);
      ball := Ball((LcdW - BallSize) / 2, (LcdH - BallSize) / 2, 0, 0, BallSize, BallSize);
      ball := ball.(dx := if drawX % 2 == 0 then speed else -speed);
      ball := ball.(dy := if drawY % 2 == 0 then speed else -speed);
    }

    /** Update_Paddle_Pos with the eight raw conversion results. */
    method UpdatePaddlePos(raws: seq<nat>)
      requires |raws| == Conversions
      modifies this
      ensures Model() == old(Model()).(paddle := old(paddle).(x := PaddleValue(raws)))
    {
      var adcVal := 0;
      for i := 0 to Conversions
        invariant adcVal == SumMasked(raws[..i])
      {
        assert raws[..i + 1][..i] == raws[..i];
        adcVal := adcVal + raws[i] % AdcScale;
      }
      assert raws[..Conversions] == raws;
      adcVal := adcVal / Conversions;
      paddle := paddle.(x := adcVal * (LcdW - PaddleW) / AdcScale);
    }

    /** The STATE_PLAYING branch of main. */
    method PlayStep(raws: seq<nat>)
      requires Valid() && state == StatePlaying && |raws| == Conversions
      modifies this
      ensures Model() == Play(old(Model()), raws)
      ensures Valid()
    {
      UpdatePaddlePos(raws);
      ball := ball.(x := ball.x + ball.dx);
      ball := ball.(y := ball.y + ball.dy);
      if ball.x <= 0 {
        ball := ball.(x := 0);
        ball := ball.(dx := -ball.dx);
      } else if ball.x >= LcdW - BallSize {
        ball := ball.(x := LcdW - BallSize);
        ball := ball.(dx := -ball.dx);
      }
      if ball.y <= 0 {
        ball := ball.(y := 0);
        ball := ball.(dy := -ball.dy);
      }
      if ball.y >= LcdH - BallSize {
        state := StateGameOver;
      }
      if Collides(paddle, ball) {
        ball := ball.(dy := -ball.dy);
        ball := ball.(y := paddle.y - BallSize);
      }
      if Collides(obstacle, ball) {
        ball := ball.(dy := -ball.dy);
      }
    }

    /** One pass of main's `while (1)`: the key waits of INIT and GAMEOVER are
        given as the knob readings taken while no key was down. */
    method Tick(drawX: nat, drawY: nat, waits: seq<seq<nat>>, raws: seq<nat>)
      requires Valid() && Waits(waits) && |raws| == Conversions
      modifies this
      ensures Model() == Pass(old(Model()), drawX, drawY, waits, raws)
      ensures Valid()
    {
      if state == StateInit {
        InitGameData(drawX, drawY);
        for i := 0 to |waits|
          invariant InPlay(Model()) && state == StateInit
          invariant Model() == InitData(old(Model()), drawX, drawY).(paddle := Model().paddle)
          invariant paddle.x == FollowKnob(56, waits[..i])
        {
          UpdatePaddlePos(waits[i]);
        }
        state := StatePlaying;
      } else if state == StatePlaying {
        PlayStep(raws);
      } else {
        state := StateInit;
      }
    }
  }
}
