/** Decimal decomposition of the score for the 4-digit seven-segment display:
    the buffer written by Update_Score_Display and read by the timer interrupt
    (Lab-9/Q2-final), and the per-frame digits shown by Game_Delay_and_Scan
    (Lab-9/Q2). Digit 0 is the ones digit. */
module ScoreDigits {
  import opened Arith

  /** The "no digit" marker of g_DisplayBuf. */
  const Blank: int := -1
  /** Number of digit positions on the display. */
  const Digits: nat := 4

  /** Update_Score_Display(val): the four slots of g_DisplayBuf. */
  function Slots(val: nat): (buf: seq<int>)
    ensures |buf| == Digits
    ensures buf[0] == val % 10
    ensures forall k :: 1 <= k < Digits ==> (buf[k] == Blank <==> val < Pow10(k))
    ensures forall k :: 1 <= k < Digits && val >= Pow10(k) ==> buf[k] == (val / Pow10(k)) % 10
  {
    assert Pow10(1) == 10 && Pow10(2) == 100 && Pow10(3) == 1000;
    [ val % 10,
      if val >= 10 then (val / 10) % 10 else Blank,
      if val >= 100 then (val / 100) % 10 else Blank,
      if val >= 1000 then (val / 1000) % 10 else Blank ]
  }

  /** The number a reader sees on positions 0 .. k-1 of a buffer: blank slots count as 0. */
  function ShownValue(buf: seq<int>, k: nat): int
    requires k <= |buf|
  {
    if k == 0 then 0
    else ShownValue(buf, k - 1) + (if buf[k - 1] == Blank then 0 else buf[k - 1]) * Pow10(k - 1)
  }

  /** Digit i of n (0 is the ones digit). */
  function DigitAt(n: nat, i: nat): int
  {
    (n / Pow10(i)) % 10
  }

  /** The first k digits of n. */
  function DigitSeq(n: nat, k: nat): (r: seq<int>)
    ensures |r| == k && forall i :: 0 <= i < k ==> r[i] == DigitAt(n, i)
  {
    seq(k, i requires 0 <= i => DigitAt(n, i))
  }

  /** The digits (n / 10^i) % 10 of positions 0 .. k-1 add back up to n mod 10^k. */
  lemma {:induction false} DigitSum(n: nat, k: nat)
    ensures ShownValue(DigitSeq(n, k), k) == n % Pow10(k)
  {
    var buf := DigitSeq(n, k);
    if k > 0 {
      var prev := DigitSeq(n, k - 1);
      var p := Pow10(k - 1);
      var d := DigitAt(n, k - 1);
      DigitSum(n, k - 1);
      assert buf[..k - 1] == prev[..k - 1];
      PrefixShown(buf, prev, k - 1);
      assert buf[k - 1] == d && 0 <= d < 10;
      assert ShownValue(buf, k) == n % p + d * p;
      ModSplit(n, p, 10);
      assert Pow10(k) == p * 10;
      assert d * p == p * d;
    }
  }

  /** ShownValue only looks at the first k positions. */
  lemma {:induction false} PrefixShown(a: seq<int>, b: seq<int>, k: nat)
    requires k <= |a| && k <= |b| && a[..k] == b[..k]
    ensures ShownValue(a, k) == ShownValue(b, k)
  {
    if k > 0 {
      assert a[k - 1] == a[..k][k - 1] == b[..k][k - 1] == b[k - 1];
      assert a[..k - 1] == a[..k][..k - 1];
      assert b[..k - 1] == b[..k][..k - 1];
      PrefixShown(a, b, k - 1);
    }
  }

  /** Reading the buffer back gives the score modulo 10000: the display shows the
      last four decimal digits of the score (10000 reads as 0). */
  lemma SlotsShowScore(val: nat)
    ensures ShownValue(Slots(val), Digits) == val % 10000
  {
    var full := DigitSeq(val, 4);
    DigitSum(val, 4);
    assert Pow10(4) == 10000;
    var buf := Slots(val);
    // A blank slot sits where the full decomposition has a leading zero.
    forall k | 1 <= k < 4 && val < Pow10(k) ensures full[k] == 0 {
      assert val / Pow10(k) == 0;
    }
    assert ShownValue(buf, 1) == ShownValue(full, 1);
    assert ShownValue(buf, 2) == ShownValue(full, 2);
    assert ShownValue(buf, 3) == ShownValue(full, 3);
    assert ShownValue(buf, 4) == ShownValue(full, 4);
  }

  /** Blank slots are exactly the leading positions, and below 10000 the highest
      lit position never shows a leading zero. */
  lemma SlotsNoLeadingZero(val: nat)
    ensures forall k :: 1 <= k < Digits - 1 && Slots(val)[k] == Blank ==> Slots(val)[k + 1] == Blank
    ensures 0 < val < 10000 ==>
              exists top :: 0 <= top < Digits && Slots(val)[top] != Blank && Slots(val)[top] != 0 &&
                (forall k :: top < k < Digits ==> Slots(val)[k] == Blank)
  {
    assert Pow10(1) == 10 && Pow10(2) == 100 && Pow10(3) == 1000;
    var buf := Slots(val);
    if 0 < val < 10000 {
      if val < 10 {
        assert buf[0] != Blank && buf[0] != 0;
      } else if val < 100 {
        assert buf[1] == val / 10 % 10 && val / 10 < 10;
        assert buf[1] != 0;
      } else if val < 1000 {
        DivDiv(val, 10, 10);
        assert buf[2] == val / 100 % 10 && val / 100 < 10;
        assert buf[2] != 0;
      } else {
        assert buf[3] == val / 1000 % 10 && val / 1000 < 10;
        assert buf[3] != 0;
      }
    }
  }

  // ---------------------------------------------------------------------
  // The timer interrupt of Lab-9/Q2-final
  // ---------------------------------------------------------------------

  /** A ShowSevenSegment(position, digit) call. */
  datatype Show = Show(pos: nat, digit: int)

  /** g_ScanIndex++, wrapped to 0 once it reaches 4. */
  function NextScan(i: nat): (r: nat)
    requires i < Digits
    ensures r < Digits && r == (i + 1) % Digits
  {
    if i + 1 >= Digits then 0 else i + 1
  }

  /** At most one digit lit per interrupt: slot i, unless it is blank. */
  function ScanShow(buf: seq<int>, i: nat): (r: seq<Show>)
    requires i < |buf|
    ensures |r| <= 1
    ensures r == [] <==> buf[i] == Blank
    ensures r != [] ==> r[0] == Show(i, buf[i])
  {
    if buf[i] != Blank then [Show(i, buf[i])] else []
  }

  /** Four interrupts visit every position once and return to the start. */
  lemma ScanRoundRobin(i: nat)
    requires i < Digits
    ensures NextScan(NextScan(NextScan(NextScan(i)))) == i
    ensures {i, NextScan(i), NextScan(NextScan(i)), NextScan(NextScan(NextScan(i)))} == {0, 1, 2, 3}
  {
  }

  /** What four interrupts starting at position 0 put on the display. */
  function ScanCycle(buf: seq<int>): seq<Show>
    requires |buf| == Digits
  {
    ScanShow(buf, 0) + ScanShow(buf, 1) + ScanShow(buf, 2) + ScanShow(buf, 3)
  }

  // ---------------------------------------------------------------------
  // Game_Delay_and_Scan of Lab-9/Q2
  // ---------------------------------------------------------------------

  /** One pass of the scan loop: digit 0 always, digit k only when score >= 10^k. */
  function Frame(score: nat): seq<Show>
  {
    [Show(0, score % 10)]
    + (if score >= 10 then [Show(1, (score / 10) % 10)] else [])
    + (if score >= 100 then [Show(2, (score / 100) % 10)] else [])
    + (if score >= 1000 then [Show(3, (score / 1000) % 10)] else [])
  }

  /** The loop-based display of Lab-9/Q2 lights, per pass, exactly the digits that
      the interrupt-driven display of Lab-9/Q2-final lights over one cycle. */
  lemma FrameMatchesBuffer(score: nat)
    ensures Frame(score) == ScanCycle(Slots(score))
  {
  }

  function Repeat(f: seq<Show>, n: nat): (r: seq<Show>)
    ensures |r| == n * |f|
    ensures n > 0 ==> r[..|f|] == f && r[|r| - |f|..] == f
    ensures forall i :: |f| <= i < |r| ==> r[i] == r[i - |f|]
  {
    if n == 0 then [] else Repeat(f, n - 1) + f
  }

  /** Game_Delay_and_Scan(delay_cnt): delay_cnt / 4000 passes of the scan loop. */
  method DelayAndScan(score: nat, delayCnt: nat) returns (shows: seq<Show>)
    ensures shows == Repeat(Frame(score), delayCnt / 4000)
    ensures |shows| >= delayCnt / 4000
  {
    var loopCount := delayCnt / 4000;
    var digit0 := score % 10;
    var digit1 := (score / 10) % 10;
    var digit2 := (score / 100) % 10;
    var digit3 := (score / 1000) % 10;
    shows := [];
    for i := 0 to loopCount
      invariant shows == Repeat(Frame(score), i)
    {
      var pass := ScanPass(score, digit0, digit1, digit2, digit3);
      shows := shows + pass;
    }
  }

  /** One pass of the scan loop over the digits computed before it: digit 0 always,
      each higher digit once the score reaches it. */
  method ScanPass(score: nat, digit0: nat, digit1: nat, digit2: nat, digit3: nat) returns (pass: seq<Show>)
    requires digit0 == score % 10 && digit1 == (score / 10) % 10
    requires digit2 == (score / 100) % 10 && digit3 == (score / 1000) % 10
    ensures pass == Frame(score)
    ensures |pass| >= 1 && pass[0] == Show(0, score % 10)
  {
    pass := [Show(0, digit0)];
    if score >= 10 {
      pass := pass + [Show(1, digit1)];
    }
    if score >= 100 {
      pass := pass + [Show(2, digit2)];
    }
    if score >= 1000 {
      pass := pass + [Show(3, digit3)];
    }
  }
}
