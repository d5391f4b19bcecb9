/** Lab-9/Q2: the snake engine with the score shown by a blocking scan loop
    (Game_Delay_and_Scan) that doubles as the delay of every pass. The
    globals are exactly those of the engine. */
module SnakeQ2 {
  import opened Joystick
  import opened SnakeBody
  import opened SnakeGame
  import opened ScoreDigits
  import opened SnakeEngine

  /** Game_Delay_and_Scan(500000) after a reset: 125 scan passes. */
  const ResetDelay: nat := 500000
  /** Game_Delay_and_Scan(200000) at the end of every pass: 50 scan passes. */
  const PassDelay: nat := 200000

  /** One pass of the main loop. The digits lit during the pass are: after a
      reset, 125 frames of score 0; then, whether the game is over or not, 50
      frames of the score as the pass leaves it. */
  method Tick(e: Engine, reset: bool, x: Sample, y: Sample, resetDraws: seq<(nat, nat)>, draws: seq<(nat, nat)>)
      returns (shows: seq<Show>)
    requires e.Valid() && Covers(resetDraws) && Covers(draws)
    modifies e, e.xs, e.ys
    ensures e.len <= MaxLen && e.Model() == SnakeGame.Tick(old(e.Model()), reset, x, y, resetDraws, draws)
    ensures e.Valid()
    ensures shows == (if reset then Repeat(Frame(0), 125) else []) + Repeat(Frame(e.score), 50)
  {
    assert ResetDelay / 4000 == 125 && PassDelay / 4000 == 50;
    shows := [];
    if reset {
      e.InitGame(resetDraws);
      shows := DelayAndScan(e.score, ResetDelay);
    }
    if e.over {
      var pass := DelayAndScan(e.score, PassDelay);
      shows := shows + pass;
      return;
    }
    e.UpdateJoystick(x, y);
    if e.next != Stop {
      var _ := e.Step(draws);
    }
    var pass := DelayAndScan(e.score, PassDelay);
    shows := shows + pass;
  }
}
