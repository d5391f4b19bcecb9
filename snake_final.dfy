/** Lab-9/Q2-final: the snake engine plus the interrupt-driven score display.
    Update_Score_Display fills the four-slot buffer g_DisplayBuf; the Timer0
    interrupt lights one slot per call, walking g_ScanIndex round the four
    positions. The interrupt is modelled as a method run between passes of
    the main loop. */
module SnakeFinal {
  import opened Joystick
  import opened SnakeBody
  import opened SnakeGame
  import opened ScoreDigits
  import opened SnakeEngine

  class Console {
    const engine: Engine
    /** g_DisplayBuf */
    const buf: array<int>
    /** g_ScanIndex */
    var scanIndex: nat

    /** The buffer always holds the digits of the current score. */
    ghost predicate Valid()
      reads this, engine, engine.xs, engine.ys, buf
    {
      && engine.Valid()
      && buf.Length == Digits && buf != engine.xs && buf != engine.ys
      && scanIndex < Digits
      && buf[..] == Slots(engine.score)
    }

    /** Power-on: the globals with their initialisers (the buffer all blank,
        scan index 0), then init_Game. */
    constructor (draws: seq<(nat, nat)>)
      requires Covers(draws)
      ensures Valid() && engine.Model() == Reset(draws) && scanIndex == 0
      ensures buf[..] == [0, Blank, Blank, Blank]
    {
      engine := new Engine(draws);
      buf := new int[Digits](_ => Blank);
      scanIndex := 0;
      new;
      UpdateScoreDisplay(0);
    }

    /** Update_Score_Display(val): the ones digit always, each higher digit
        only when val reaches its place value. */
    method UpdateScoreDisplay(val: nat)
      requires buf.Length == Digits
      modifies buf
      ensures buf[..] == Slots(val)
    {
      buf[0] := val % 10;
      if val >= 10 { buf[1] := (val / 10) % 10; } else { buf[1] := Blank; }
      if val >= 100 { buf[2] := (val / 100) % 10; } else { buf[2] := Blank; }
      if val >= 1000 { buf[3] := (val / 1000) % 10; } else { buf[3] := Blank; }
    }

    /** init_Game, which ends with Update_Score_Display(score). */
    method InitGame(draws: seq<(nat, nat)>)
      requires Valid() && Covers(draws)
      modifies engine, engine.xs, engine.ys, buf
      ensures Valid() && engine.Model() == Reset(draws)
      ensures buf[..] == [0, Blank, Blank, Blank]
    {
      engine.InitGame(draws);
      UpdateScoreDisplay(engine.score);
    }

    /** TMR0_IRQHandler: light the current slot unless it is blank, then step
        the scan index, wrapping from 4 to 0. */
    method TimerTick() returns (shown: seq<Show>)
      requires Valid()
      modifies this
      ensures Valid()
      ensures shown == ScanShow(buf[..], old(scanIndex))
      ensures scanIndex == NextScan(old(scanIndex))
    {
      if buf[scanIndex] != Blank {
        shown := [Show(scanIndex, buf[scanIndex])];
      } else {
        shown := [];
      }
      scanIndex := scanIndex + 1;
      if scanIndex >= Digits {
        scanIndex := 0;
      }
    }

    /** One pass of the main loop: reset key, game-over freeze, joystick,
        move; a meal refreshes the display buffer. */
    method Tick(reset: bool, x: Sample, y: Sample, resetDraws: seq<(nat, nat)>, draws: seq<(nat, nat)>)
      requires Valid() && Covers(resetDraws) && Covers(draws)
      modifies engine, engine.xs, engine.ys, buf
      ensures Valid()
      ensures engine.Model() == SnakeGame.Tick(old(engine.Model()), reset, x, y, resetDraws, draws)
    {
      if reset {
        InitGame(resetDraws);
      }
      if engine.over {
        return;
      }
      engine.UpdateJoystick(x, y);
      if engine.next != Stop {
        var outcome := engine.Step(draws);
        if outcome == Ate {
          UpdateScoreDisplay(engine.score);
        }
      }
    }
  }
}
