/** Lab-6/Q1: four random two-digit numbers on the LCD, a cursor moved with
    UP/DOWN, SELECT adding the marked number to a running sum (at most four
    times), BACK undoing the last selection, CLEAR and RESET, and four LEDs
    counting the selections. Keys act when they are released. */
module NumberPicker {
  import opened Arith
  import opened DecimalText

  // Keypad codes of the six keys.
  const KeyUp: nat := 4
  const KeyDown: nat := 6
  const KeySelect: nat := 5
  const KeyReset: nat := 7
  const KeyBack: nat := 8
  const KeyClear: nat := 9

  /** Numbers on the list, selections allowed, LEDs. */
  const Slots: nat := 4

  // ---------------------------------------------------------------------
  // my_rand: a linear congruential generator on a uint32 seed
  // ---------------------------------------------------------------------

  const LcgMul: nat := 1103515245
  const LcgInc: nat := 12345
  const Two31: nat := 0x8000_0000
  const Two32: nat := 0x1_0000_0000

  /** The seed after one my_rand call: a zero seed is first replaced by 1; the
      result, which my_rand also returns, is (1103515245 * seed + 12345) mod 2^31. */
  function LcgNext(seed: nat): (r: nat)
    ensures r < Two31
    ensures seed != 0 ==> r == (LcgMul * seed + LcgInc) % Two31
    ensures seed == 0 ==> r == (LcgMul + LcgInc) % Two31
  {
    var s := if seed == 0 then 1 else seed;
    (LcgMul * s + LcgInc) % Two31
  }

  /** The C computation wraps the product and the sum to 32 bits and then masks
      with 0x7FFFFFFF; for an unsigned 32-bit value the mask keeps the residue
      modulo 2^31, and the two wraps do not change that residue. */
  lemma WrapThenMask(s: nat)
    ensures ((LcgMul * s % Two32 + LcgInc) % Two32) % Two31 == (LcgMul * s + LcgInc) % Two31
  {
    var p := LcgMul * s;
    var t1 := p % Two32;
    var q := p / Two32;
    assert p == Two32 * q + t1;
    ModMod(t1 + LcgInc, Two31, 2);
    assert t1 + LcgInc == (p + LcgInc) + Two31 * (-2 * q);
    ModWrap(p + LcgInc, Two31, -2 * q);
  }

  /** The seed after n calls. */
  function SeedAfter(seed: nat, n: nat): (r: nat)
    ensures n > 0 ==> r < Two31
    ensures n == 0 ==> r == seed
  {
    if n == 0 then seed else LcgNext(SeedAfter(seed, n - 1))
  }

  /** The numbers generate_numbers writes with n calls: my_rand() % 90 + 10. */
  function Draws(seed: nat, n: nat): (r: seq<int>)
    ensures |r| == n
    ensures forall i :: 0 <= i < n ==> 10 <= r[i] <= 99
  {
    if n == 0 then [] else Draws(seed, n - 1) + [SeedAfter(seed, n) % 90 + 10]
  }

  /** The i-th generated number comes from the (i+1)-th seed. */
  lemma {:induction false} DrawsAt(seed: nat, n: nat, i: nat)
    requires i < n
    ensures Draws(seed, n)[i] == SeedAfter(seed, i + 1) % 90 + 10
  {
    if i < n - 1 {
      DrawsAt(seed, n - 1, i);
    }
  }

  // ---------------------------------------------------------------------
  // The key handler as a function of the state
  // ---------------------------------------------------------------------

  /** numbers[], selected_numbers[0 .. selected_count), sum, cursor_pos,
      view_offset and g_seed. */
  datatype Picker = Picker(numbers: seq<int>, selected: seq<int>, sum: int, cursor: int, offset: int, seed: nat)

  function Sum(s: seq<int>): int
  {
    if s == [] then 0 else Sum(s[..|s| - 1]) + s[|s| - 1]
  }

  predicate TwoDigit(v: int)
  {
    10 <= v <= 99
  }

  /** What every reachable state satisfies: four two-digit numbers, at most
      four two-digit selections whose total is sum, the cursor on one of the
      four rows, and the three-row window scrolled by one exactly when the
      cursor is on the last row. */
  predicate Inv(p: Picker)
  {
    && |p.numbers| == Slots && (forall i :: 0 <= i < Slots ==> TwoDigit(p.numbers[i]))
    && |p.selected| <= Slots && (forall i :: 0 <= i < |p.selected| ==> TwoDigit(p.selected[i]))
    && p.sum == Sum(p.selected)
    && 0 <= p.cursor < Slots && p.offset == (if p.cursor == 3 then 1 else 0)
    && p.seed < Two32
  }

  /** The switch on the released key; count is the loop counter used as seed
      by RESET. */
  function OnRelease(p: Picker, key: nat, count: nat): (r: Picker)
    requires Inv(p) && count < Two32
    ensures Inv(r)
    ensures key != KeySelect && key != KeyBack && key != KeyClear && key != KeyReset ==>
              r.sum == p.sum && r.selected == p.selected && r.numbers == p.numbers
    ensures key != KeyUp && key != KeyDown && key != KeyReset ==> r.cursor == p.cursor
  {
    if key == KeyUp then
      if p.cursor > 0 then
        var c := p.cursor - 1;
        p.(cursor := c, offset := if c == 3 then 1 else 0)
      else p
    else if key == KeyDown then
      if p.cursor < 3 then
        var c := p.cursor + 1;
        p.(cursor := c, offset := if c == 3 then 1 else 0)
      else p
    else if key == KeySelect then
      if |p.selected| < Slots then
        var v := p.numbers[p.cursor];
        var sel := p.selected + [v];
        assert sel[..|sel| - 1] == p.selected;
        p.(sum := p.sum + v, selected := sel)
      else p
    else if key == KeyReset then
      Picker(Draws(count, Slots), [], 0, 0, 0, SeedAfter(count, Slots))
    else if key == KeyBack then
      if |p.selected| > 0 then
        var n := |p.selected| - 1;
        p.(selected := p.selected[..n], sum := p.sum - p.selected[n])
      else p
    else if key == KeyClear then
      p.(sum := 0, selected := [])
    else p
  }

  /** SELECT followed by BACK restores the state exactly. */
  lemma SelectThenBack(p: Picker, count: nat)
    requires Inv(p) && count < Two32 && |p.selected| < Slots
    ensures OnRelease(OnRelease(p, KeySelect, count), KeyBack, count) == p
  {
    var q := OnRelease(p, KeySelect, count);
    assert q.selected[..|q.selected| - 1] == p.selected;
  }

  /** SELECT adds the marked number, and only while fewer than four are chosen. */
  lemma SelectAddsMarked(p: Picker, count: nat)
    requires Inv(p) && count < Two32
    ensures var r := OnRelease(p, KeySelect, count);
            if |p.selected| < Slots then
              r.selected == p.selected + [p.numbers[p.cursor]] && r.sum == p.sum + p.numbers[p.cursor]
            else r == p
  {
  }

  /** BACK with nothing selected changes nothing. */
  lemma BackOnEmpty(p: Picker, count: nat)
    requires Inv(p) && count < Two32 && p.selected == []
    ensures OnRelease(p, KeyBack, count) == p
  {
  }

  /** CLEAR drops the selections and the sum and keeps everything else. */
  lemma ClearKeepsView(p: Picker, count: nat)
    requires Inv(p) && count < Two32
    ensures OnRelease(p, KeyClear, count) == p.(selected := [], sum := 0)
  {
  }

  /** RESET also puts the cursor and the window at the top and draws four new
      numbers from the seed count. */
  lemma ResetRedraws(p: Picker, count: nat)
    requires Inv(p) && count < Two32
    ensures var r := OnRelease(p, KeyReset, count);
            r.selected == [] && r.sum == 0 && r.cursor == 0 && r.offset == 0 &&
            (forall i :: 0 <= i < Slots ==> r.numbers[i] == SeedAfter(count, i + 1) % 90 + 10)
  {
    forall i | 0 <= i < Slots ensures Draws(count, Slots)[i] == SeedAfter(count, i + 1) % 90 + 10 {
      DrawsAt(count, Slots, i);
    }
  }

  /** The sum of n two-digit selections lies between 10n and 99n, so the sum
      never exceeds 396 and always has at most three digits. */
  lemma {:induction false} SumRange(s: seq<int>)
    requires forall i :: 0 <= i < |s| ==> TwoDigit(s[i])
    ensures 10 * |s| <= Sum(s) <= 99 * |s|
  {
    if s != [] {
      SumRange(s[..|s| - 1]);
    }
  }

  // ---------------------------------------------------------------------
  // LEDs and the LCD
  // ---------------------------------------------------------------------

  /** update_leds: PC12 + k is driven low (lit) when selected_count > k. */
  function LedLevels(count: nat): (pins: seq<int>)
    ensures |pins| == Slots
  {
    seq(Slots, k => if count > k then 0 else 1)
  }

  /** Exactly the first selected_count LEDs are lit. */
  lemma LedsCountSelections(count: nat)
    requires count <= Slots
    ensures LedLevels(count) == seq(count, _ => 0) + seq(Slots - count, _ => 1)
  {
  }

  /** Line 0: "SUM = " and the sum. */
  function SumLine(sum: int): seq<char>
  {
    Fit("SUM = " + Decimal(sum))
  }

  /** Line j + 1: the cursor mark, a blank, and numbers[j + view_offset]. */
  function RowLine(p: Picker, j: nat): seq<char>
    requires Inv(p) && j < 3
  {
    Fit([if j + p.offset == p.cursor then '>' else ' ', ' '] + Decimal(p.numbers[j + p.offset]))
  }

  /** The four lines update_display prints. */
  function Screen(p: Picker): (lines: seq<seq<char>>)
    requires Inv(p)
    ensures |lines| == 4 && forall i :: 0 <= i < 4 ==> |lines[i]| == LineWidth
  {
    [SumLine(p.sum), RowLine(p, 0), RowLine(p, 1), RowLine(p, 2)]
  }

  /** The window always shows the cursor: exactly one of the three rows carries
      the '>' mark, on the row holding numbers[cursor_pos]; every row shows a
      valid index 0 .. 3. */
  lemma CursorVisible(p: Picker)
    requires Inv(p)
    ensures 0 <= p.offset && p.offset + 2 < Slots
    ensures 0 <= p.cursor - p.offset < 3
    ensures forall j :: 0 <= j < 3 ==> (RowLine(p, j)[0] == '>' <==> j + p.offset == p.cursor)
    ensures forall j :: 0 <= j < 3 ==> Screen(p)[j + 1] == RowLine(p, j)
  {
  }

  /** Line 0 reads back the sum: the digits fit after "SUM = " and are padded
      with blanks. */
  lemma SumLineReadsBack(p: Picker)
    requires Inv(p)
    ensures var line := Screen(p)[0];
            var n := |Decimal(p.sum)|;
            line[..6] == "SUM = " && 1 <= n <= 3 && Parse(line[6..6 + n]) == p.sum &&
            (forall i :: 6 + n <= i < LineWidth ==> line[i] == ' ')
  {
    SumRange(p.selected);
    var n := |Decimal(p.sum)|;
    DecimalShape(p.sum);
    if p.sum >= 100 {
      DigitsOfLength(p.sum, 3);
    } else if p.sum >= 10 {
      DigitsOfLength(p.sum, 2);
    }
    var line := Screen(p)[0];
    assert line[6..6 + n] == Decimal(p.sum);
    DecimalParses(p.sum);
  }

  // ---------------------------------------------------------------------
  // The program's globals
  // ---------------------------------------------------------------------

  class Board {
    const numbers: array<int>
    /** selected_numbers; only the first selected_count entries are live. */
    const selected: array<int>
    /** selected_count */
    var picked: nat
    var sum: int
    /** cursor_pos and view_offset */
    var cursor: int
    var offset: int
    /** g_seed */
    var seed: nat
    /** Output levels of PC12 .. PC15. */
    var pins: seq<int>
    /** count and last_keyin, the locals of main's loop. */
    var ticks: nat
    var lastKey: nat

    ghost function Model(): Picker
      reads this, numbers, selected
      requires picked <= selected.Length
    {
      Picker(numbers[..], selected[..picked], sum, cursor, offset, seed)
    }

    ghost predicate Valid()
      reads this, numbers, selected
    {
      && numbers.Length == Slots && selected.Length == Slots && numbers != selected
      && picked <= Slots
      && Inv(Model())
      && pins == LedLevels(picked)
      && ticks < Two32
    }

    /** Power-on: the globals' initial values, LEDs off (init_leds), then
        generate_numbers. */
    constructor ()
      ensures Valid()
      ensures Model() == Picker(Draws(0, Slots), [], 0, 0, 0, SeedAfter(0, Slots))
      ensures ticks == 0 && lastKey == 0
    {
      numbers := new int[Slots];
      selected := new int[Slots];
      picked := 0;
      sum := 0;
      cursor := 0;
      offset := 0;
      seed := 0;
      pins := [1, 1, 1, 1];
      ticks := 0;
      lastKey := 0;
      new;
      GenerateNumbers();
    }

    /** my_rand */
    method MyRand() returns (r: int)
      requires seed < Two32
      modifies this
      ensures seed == LcgNext(old(seed)) && r == seed
      ensures picked == old(picked) && sum == old(sum) && cursor == old(cursor) && offset == old(offset)
      ensures pins == old(pins) && ticks == old(ticks) && lastKey == old(lastKey)
    {
      if seed == 0 {
        seed := 1;
      }
      WrapThenMask(seed);
      var t := (LcgMul * seed) % Two32;
      t := (t + LcgInc) % Two32;
      seed := t % Two31;
      r := seed;
    }

    /** generate_numbers: four my_rand() % 90 + 10. */
    method GenerateNumbers()
      requires numbers.Length == Slots && seed < Two32
      modifies this, numbers
      ensures numbers[..] == Draws(old(seed), Slots) && seed == SeedAfter(old(seed), Slots)
      ensures picked == old(picked) && sum == old(sum) && cursor == old(cursor) && offset == old(offset)
      ensures pins == old(pins) && ticks == old(ticks) && lastKey == old(lastKey)
    {
      ghost var s0 := seed;
      for i := 0 to Slots
        invariant numbers[..i] == Draws(s0, i) && seed == SeedAfter(s0, i) && seed < Two32
        invariant picked == old(picked) && sum == old(sum) && cursor == old(cursor) && offset == old(offset)
        invariant pins == old(pins) && ticks == old(ticks) && lastKey == old(lastKey)
      {
        var r := MyRand();
        numbers[i] := r % 90 + 10;
        assert numbers[..i + 1] == numbers[..i] + [numbers[i]];
      }
      assert numbers[..] == numbers[..Slots];
    }

    /** update_leds */
    method UpdateLeds()
      modifies this
      ensures pins == LedLevels(picked)
      ensures picked == old(picked) && sum == old(sum) && cursor == old(cursor) && offset == old(offset)
      ensures seed == old(seed) && ticks == old(ticks) && lastKey == old(lastKey)
    {
      pins := [if picked > 0 then 0 else 1, if picked > 1 then 0 else 1,
               if picked > 2 then 0 else 1, if picked > 3 then 0 else 1];
    }

    /** The switch of main's loop for the released key. */
    method HandleKey(key: nat)
      requires Valid()
      modifies this, numbers, selected
      ensures Valid()
      ensures Model() == OnRelease(old(Model()), key, old(ticks))
      ensures ticks == old(ticks) && lastKey == old(lastKey)
    {
      if key == KeyUp {
        if cursor > 0 {
          cursor := cursor - 1;
          offset := if cursor == 3 then 1 else 0;
        }
      } else if key == KeyDown {
        if cursor < 3 {
          cursor := cursor + 1;
          offset := if cursor == 3 then 1 else 0;
        }
      } else if key == KeySelect {
        Select();
      } else if key == KeyReset {
        Reset();
      } else if key == KeyBack {
        Back();
      } else if key == KeyClear {
        sum := 0;
        picked := 0;
        UpdateLeds();
      }
    }

    /** KEY_S: below four selections, record numbers[cursor_pos] and add it. */
    method Select()
      requires Valid()
      modifies this, selected
      ensures Valid()
      ensures Model() == OnRelease(old(Model()), KeySelect, old(ticks))
      ensures ticks == old(ticks) && lastKey == old(lastKey)
    {
      if picked < Slots {
        var v := numbers[cursor];
        sum := sum + v;
        selected[picked] := v;
        picked := picked + 1;
        assert selected[..picked] == old(selected[..picked]) + [v];
        UpdateLeds();
      }
    }

    /** KEY_R: reseed with the loop counter, redraw the numbers, clear the
        selections and put the cursor at the top. */
    method Reset()
      requires Valid()
      modifies this, numbers
      ensures Valid()
      ensures Model() == OnRelease(old(Model()), KeyReset, old(ticks))
      ensures ticks == old(ticks) && lastKey == old(lastKey)
    {
      seed := ticks;
      GenerateNumbers();
      sum := 0;
      picked := 0;
      cursor := 0;
      offset := 0;
      UpdateLeds();
    }

    /** KEY_B: drop the last selection and subtract it. */
    method Back()
      requires Valid()
      modifies this
      ensures Valid()
      ensures Model() == OnRelease(old(Model()), KeyBack, old(ticks))
      ensures ticks == old(ticks) && lastKey == old(lastKey)
    {
      if picked > 0 {
        picked := picked - 1;
        sum := sum - selected[picked];
        assert selected[..picked + 1][..picked] == selected[..picked];
        UpdateLeds();
      }
    }

    /** update_display: the four lines, each built by simple_itoa and the
        copy loop. */
    method UpdateDisplay() returns (lines: seq<seq<char>>)
      requires Valid()
      ensures lines == Screen(Model())
    {
      SumRange(Model().selected);
      var text := SimpleItoa(sum);
      var line := RenderLine("SUM = ", text);
      lines := [line];
      for j := 0 to 3
        invariant |lines| == j + 1
        invariant lines[0] == SumLine(sum)
        invariant forall k :: 0 <= k < j ==> lines[k + 1] == RowLine(Model(), k)
      {
        var index := j + offset;
        var mark := if index == cursor then '>' else ' ';
        text := SimpleItoa(numbers[index]);
        line := RenderLine([mark, ' '], text);
        lines := lines + [line];
      }
    }

    /** One turn of main's loop with the key code ScanKey returned: count++,
        and on the release of a key its action followed by a redraw. */
    method Poll(keyin: nat) returns (lines: seq<seq<char>>)
      requires Valid()
      modifies this, numbers, selected
      ensures Valid()
      ensures ticks == (old(ticks) + 1) % Two32 && lastKey == keyin
      ensures keyin == 0 && old(lastKey) != 0 ==>
                Model() == OnRelease(old(Model()), old(lastKey), ticks) && lines == Screen(Model())
      ensures !(keyin == 0 && old(lastKey) != 0) ==> Model() == old(Model()) && lines == []
    {
      ticks := (ticks + 1) % Two32;
      lines := [];
      if keyin == 0 && lastKey != 0 {
        HandleKey(lastKey);
        lines := UpdateDisplay();
      }
      lastKey := keyin;
    }
  }
}
