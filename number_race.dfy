/** The Lab-8 number race (Lab-8/Q1_LanceVer.c and Lab8/Q1.c, which share
    the same game logic). Four distinct digits 1 .. 9 start at column 0; the
    larger the digit the larger its speed (8, 6, 4 or 2 columns per step);
    each step moves the digits still running, stops them at RIGHT_BOUND, and
    the first digit to arrive lights its LED. */
module NumberRace {
  /** RIGHT_BOUND: the finishing column. */
  const RightBound: int := 120
  /** The size of obj[4]. */
  const Racers: nat := 4

  /** The MOVING record; `reached` is the C int flag. */
  datatype Moving = Moving(num: int, x: int, speed: int, reached: bool)

  /** Which digit, if any, arrives first in one step. */
  datatype Arrival = NoArrival | First(index: nat)

  /** rand() % 9 + 1 for a raw draw. */
  function DigitOf(d: nat): (r: int)
    ensures 1 <= r <= 9
  {
    d % 9 + 1
  }

  /** Pairwise distinct digits 1 .. 9. */
  predicate DistinctDigits(s: seq<int>)
  {
    && (forall i :: 0 <= i < |s| ==> 1 <= s[i] <= 9)
    && (forall i, j :: 0 <= i < j < |s| ==> s[i] != s[j])
  }

  /** Step 1 of generate_numbers read as a function of the raw draws: each
      draw whose digit is still unused is kept, others are drawn again, until
      four digits are held. */
  function Picked(draws: seq<nat>, acc: seq<int>): (r: seq<int>)
    requires |acc| <= Racers
    ensures |acc| <= |r| <= Racers && r[..|acc|] == acc
    ensures DistinctDigits(acc) ==> DistinctDigits(r)
    ensures |r| < Racers ==> forall k :: 0 <= k < |draws| ==> DigitOf(draws[k]) in r
    decreases |draws|
  {
    if |acc| == Racers || draws == [] then acc
    else if DigitOf(draws[0]) in acc then Picked(draws[1..], acc)
    else
      var acc' := acc + [DigitOf(draws[0])];
      var r := Picked(draws[1..], acc');
      assert r[..|acc|] == acc'[..|acc|];
      assert |r| < Racers ==> DigitOf(draws[0]) == r[|acc|];
      assert forall k :: 1 <= k < |draws| ==> draws[k] == draws[1..][k - 1];
      r
  }

  /** Non-increasing order. */
  predicate Descending(s: seq<int>)
  {
    forall i, j :: 0 <= i < j < |s| ==> s[i] >= s[j]
  }

  predicate Distinct(s: seq<int>)
  {
    forall i, j :: 0 <= i < j < |s| ==> s[i] != s[j]
  }

  /** A value occurs at most once among distinct values. */
  lemma {:induction false} DistinctOnce(s: seq<int>, v: int)
    requires Distinct(s)
    ensures multiset(s)[v] <= 1
    decreases |s|
  {
    if s != [] {
      var t := s[..|s| - 1];
      assert s == t + [s[|s| - 1]];
      assert forall j :: 0 <= j < |t| ==> t[j] == s[j];
      DistinctOnce(t, v);
      assert s[|s| - 1] !in t;
    }
  }

  /** Reordering distinct values keeps them distinct. */
  lemma PermutationKeepsDistinct(s: seq<int>, t: seq<int>)
    requires Distinct(s) && multiset(s) == multiset(t)
    ensures Distinct(t)
  {
    forall p, q | 0 <= p < q < |t|
      ensures t[p] != t[q]
    {
      DistinctOnce(s, t[q]);
      assert t == t[..q] + [t[q]] + t[q + 1..];
      assert t[..q][p] == t[p];
      assert t[p] in multiset(t[..q]);
    }
  }

  /** Step 3 of generate_numbers: the exchange sort of sorted[4], moving the
      largest remaining value to position i by swaps with every later one. */
  method ExchangeSort(a: array<int>)
    requires a.Length == Racers
    modifies a
    ensures Descending(a[..]) && multiset(a[..]) == multiset(old(a[..]))
  {
    for i := 0 to Racers - 1
      invariant forall p, q :: 0 <= p < i && p < q < Racers ==> a[p] >= a[q]
      invariant multiset(a[..]) == multiset(old(a[..]))
    {
      for j := i + 1 to Racers
        invariant forall p, q :: 0 <= p < i && p < q < Racers ==> a[p] >= a[q]
        invariant forall q :: i < q < j ==> a[i] >= a[q]
        invariant multiset(a[..]) == multiset(old(a[..]))
      {
        if a[j] > a[i] {
          a[i], a[j] := a[j], a[i];
        }
      }
    }
  }

  /** Step 4 of generate_numbers: speed 8 for sorted[0], 6 for sorted[1], 4 for
      sorted[2], 2 otherwise. */
  function SpeedOf(n: int, sorted: seq<int>): int
    requires |sorted| == Racers
  {
    if n == sorted[0] then 8 else if n == sorted[1] then 6 else if n == sorted[2] then 4 else 2
  }

  /** Against a strictly descending ranking, the k-th largest value gets
      speed 8 - 2k. */
  lemma SpeedOfRank(sorted: seq<int>, k: nat)
    requires |sorted| == Racers && Descending(sorted) && Distinct(sorted) && k < Racers
    ensures SpeedOf(sorted[k], sorted) == 8 - 2 * k
  {
  }

  /** Some digit runs at speed v. */
  predicate HasSpeed(objs: seq<Moving>, v: int)
  {
    exists i :: 0 <= i < |objs| && objs[i].speed == v
  }

  /** The speeds are 8, 6, 4, 2, each used once, and follow the digits: a
      larger digit is strictly faster. */
  predicate SpeedsRanked(objs: seq<Moving>)
  {
    && (forall i :: 0 <= i < |objs| ==> objs[i].speed in {2, 4, 6, 8})
    && (forall i, j :: 0 <= i < |objs| && 0 <= j < |objs| && objs[i].num > objs[j].num ==> objs[i].speed > objs[j].speed)
    && HasSpeed(objs, 8) && HasSpeed(objs, 6) && HasSpeed(objs, 4) && HasSpeed(objs, 2)
  }

  /** The digits of the racers. */
  function Nums(objs: seq<Moving>): (r: seq<int>)
    ensures |r| == |objs| && forall i :: 0 <= i < |objs| ==> r[i] == objs[i].num
  {
    seq(|objs|, i requires 0 <= i < |objs| => objs[i].num)
  }

  /** What every state of the race keeps: four distinct digits ranked by speed,
      each between column 0 and RIGHT_BOUND, flagged as arrived exactly when
      it stands at RIGHT_BOUND. */
  predicate Field(objs: seq<Moving>)
  {
    && |objs| == Racers
    && DistinctDigits(Nums(objs))
    && SpeedsRanked(objs)
    && forall i :: 0 <= i < |objs| ==> 0 <= objs[i].x <= RightBound && (objs[i].reached <==> objs[i].x == RightBound)
  }

  /** Step 4 against a descending copy of distinct digits gives ranked
      speeds: each of 8, 6, 4, 2 is used and a larger digit is faster. */
  lemma SpeedsFromSort(objs: seq<Moving>, s: seq<int>)
    requires |objs| == Racers && |s| == Racers
    requires DistinctDigits(Nums(objs))
    requires Descending(s) && multiset(s) == multiset(Nums(objs))
    requires forall i :: 0 <= i < Racers ==> objs[i].speed == SpeedOf(objs[i].num, s)
    ensures SpeedsRanked(objs)
  {
    PermutationKeepsDistinct(Nums(objs), s);
    forall i, j | 0 <= i < Racers && 0 <= j < Racers && objs[i].num > objs[j].num
      ensures objs[i].speed > objs[j].speed
    {
      SpeedsFollowDigits(objs, s, i, j);
    }
    forall k | 0 <= k < Racers
      ensures HasSpeed(objs, 8 - 2 * k)
    {
      SpeedUsed(objs, s, k);
    }
    assert HasSpeed(objs, 8 - 2 * 0) && HasSpeed(objs, 8 - 2 * 1) && HasSpeed(objs, 8 - 2 * 2) && HasSpeed(objs, 8 - 2 * 3);
  }

  lemma SpeedsFollowDigits(objs: seq<Moving>, s: seq<int>, i: nat, j: nat)
    requires |objs| == Racers && |s| == Racers && i < Racers && j < Racers
    requires Descending(s) && Distinct(s) && multiset(s) == multiset(Nums(objs))
    requires objs[i].speed == SpeedOf(objs[i].num, s) && objs[j].speed == SpeedOf(objs[j].num, s)
    requires objs[i].num > objs[j].num
    ensures objs[i].speed > objs[j].speed
  {
    var nums := Nums(objs);
    assert nums[i] in multiset(s) && nums[j] in multiset(s);
    var a :| 0 <= a < Racers && s[a] == nums[i];
    var b :| 0 <= b < Racers && s[b] == nums[j];
    SpeedOfRank(s, a);
    SpeedOfRank(s, b);
  }

  lemma SpeedUsed(objs: seq<Moving>, s: seq<int>, k: nat)
    requires |objs| == Racers && |s| == Racers && k < Racers
    requires Descending(s) && Distinct(s) && multiset(s) == multiset(Nums(objs))
    requires forall i :: 0 <= i < Racers ==> objs[i].speed == SpeedOf(objs[i].num, s)
    ensures HasSpeed(objs, 8 - 2 * k)
  {
    var nums := Nums(objs);
    assert s[k] in multiset(nums);
    var i :| 0 <= i < Racers && nums[i] == s[k];
    SpeedOfRank(s, k);
    assert objs[i].speed == 8 - 2 * k;
  }

  /** The fastest digit is the largest. */
  lemma {:induction false} FastestIsLargest(objs: seq<Moving>, w: nat)
    requires Field(objs) && w < Racers && objs[w].speed == 8
    ensures forall j :: 0 <= j < Racers ==> objs[j].num <= objs[w].num
  {
    forall j | 0 <= j < Racers
      ensures objs[j].num <= objs[w].num
    {
      assert Nums(objs)[j] == objs[j].num;
    }
  }

  /** The largest digit runs at speed 8. */
  lemma {:induction false} LargestIsFastest(objs: seq<Moving>, w: nat)
    requires Field(objs) && w < Racers
    requires forall j :: 0 <= j < Racers ==> objs[j].num <= objs[w].num
    ensures objs[w].speed == 8
  {
    var f :| 0 <= f < |objs| && objs[f].speed == 8;
    if f != w {
      assert Nums(objs)[f] != Nums(objs)[w] || f == w;
      assert objs[w].num > objs[f].num;
    }
  }

  /** Is a running digit going to reach the bound in this step? */
  predicate Arrives(o: Moving)
  {
    !o.reached && o.x + o.speed >= RightBound
  }

  /** One iteration of the race loop's body for one digit: a running digit
      advances by its speed and is stopped at RIGHT_BOUND, flagged as
      arrived; an arrived digit stays. */
  function Move(o: Moving): (r: Moving)
    ensures r.num == o.num && r.speed == o.speed
    ensures o.reached ==> r == o
    ensures r.reached <==> o.reached || Arrives(o)
    ensures 0 <= o.x <= RightBound && (o.reached <==> o.x == RightBound) && o.speed > 0 ==>
              0 <= r.x <= RightBound && (r.reached <==> r.x == RightBound) && (!o.reached ==> r.x > o.x)
  {
    if o.reached then o
    else if o.x + o.speed >= RightBound then o.(x := RightBound, reached := true)
    else o.(x := o.x + o.speed)
  }

  /** Every digit after one step. */
  function Advanced(objs: seq<Moving>): (r: seq<Moving>)
    ensures |r| == |objs| && forall i :: 0 <= i < |objs| ==> r[i] == Move(objs[i])
  {
    seq(|objs|, i requires 0 <= i < |objs| => Move(objs[i]))
  }

  /** A step keeps the race field's invariant. */
  lemma AdvancedKeepsField(objs: seq<Moving>)
    requires Field(objs)
    ensures Field(Advanced(objs)) && Nums(Advanced(objs)) == Nums(objs)
  {
    var r := Advanced(objs);
    assert forall i :: 0 <= i < |r| ==> Nums(r)[i] == Nums(objs)[i];
    assert Nums(r) == Nums(objs);
    assert forall v :: HasSpeed(objs, v) ==> HasSpeed(r, v) by {
      forall v | HasSpeed(objs, v)
        ensures HasSpeed(r, v)
      {
        var i :| 0 <= i < |objs| && objs[i].speed == v;
        assert r[i].speed == v;
      }
    }
  }

  /** The lowest index whose digit arrives in this step. */
  function FirstArrival(objs: seq<Moving>): (r: Arrival)
    ensures r.First? ==> r.index < |objs| && Arrives(objs[r.index]) && forall j :: 0 <= j < r.index ==> !Arrives(objs[j])
    ensures r == NoArrival <==> forall j :: 0 <= j < |objs| ==> !Arrives(objs[j])
  {
    if objs == [] then NoArrival
    else if Arrives(objs[0]) then First(0)
    else match FirstArrival(objs[1..]) {
      case NoArrival => NoArrival
      case First(k) => First(k + 1)
    }
  }

  /** Extending the scanned prefix by one digit: the earlier winner stays,
      otherwise the new digit wins if it arrives. */
  lemma FirstArrivalExtend(objs: seq<Moving>, i: nat)
    requires i < |objs|
    ensures FirstArrival(objs[..i + 1]) ==
              (if FirstArrival(objs[..i]).First? then FirstArrival(objs[..i])
               else if Arrives(objs[i]) then First(i) else NoArrival)
  {
    assert forall j :: 0 <= j < i ==> objs[..i + 1][j] == objs[..i][j];
    assert objs[..i + 1][i] == objs[i];
  }

  /** The levels LED_On(idx) writes to PC12 .. PC15: exactly the idx-th pin
      low (lit), every other pin high. */
  function LitOnly(idx: int): (pins: seq<int>)
    ensures |pins| == Racers
    ensures forall k :: 0 <= k < Racers ==> (pins[k] == 0 <==> k == idx) && (pins[k] == 0 || pins[k] == 1)
  {
    [if idx == 0 then 0 else 1, if idx == 1 then 0 else 1, if idx == 2 then 0 else 1, if idx == 3 then 0 else 1]
  }

  /** The levels LED_OffAll writes: every LED dark. */
  const AllOff: seq<int> := [1, 1, 1, 1]

  /** The column of a digit of speed s after t steps of a race started at 0. */
  function Reach(s: int, t: nat): (x: int)
    requires s in {2, 4, 6, 8}
    ensures 0 <= x <= RightBound
    ensures x == RightBound <==> s * t >= RightBound
  {
    if s * t >= RightBound then RightBound else s * t
  }

  /** A digit that has run t steps moves to where it stands after t + 1. */
  lemma ReachStep(o: Moving, t: nat)
    requires o.speed in {2, 4, 6, 8} && o.x == Reach(o.speed, t) && (o.reached <==> o.x == RightBound)
    ensures Move(o) == o.(x := Reach(o.speed, t + 1), reached := Reach(o.speed, t + 1) == RightBound)
    ensures Arrives(o) <==> (o.speed * t < RightBound <= o.speed * (t + 1))
  {
    assert o.speed * (t + 1) == o.speed * t + o.speed;
  }

  /** Speed s reaches the bound at step 120 / s: 15, 20, 30 or 60. */
  lemma ArrivalStep(s: int, t: nat)
    requires s in {2, 4, 6, 8}
    ensures (s * t < RightBound <= s * (t + 1)) <==> t + 1 == RightBound / s
    ensures s * t >= RightBound <==> t >= RightBound / s
  {
    if s == 2 {
    } else if s == 4 {
    } else if s == 6 {
    } else {
    }
  }

  /** A race t steps after leaving the start line: every racer stands where
      its speed has taken it. */
  predicate RaceAt(objs: seq<Moving>, t: nat)
  {
    && Field(objs)
    && forall i :: 0 <= i < |objs| ==> objs[i].speed in {2, 4, 6, 8} && objs[i].x == Reach(objs[i].speed, t)
  }

  /** A step of a race under way: the racers move on to step t + 1; nobody
      arrives before step 15, and at step 15 the first arrival is the speed-8
      racer. */
  lemma {:induction false} RaceAdvances(objs: seq<Moving>, t: nat)
    requires RaceAt(objs, t)
    ensures RaceAt(Advanced(objs), t + 1) && Nums(Advanced(objs)) == Nums(objs)
    ensures forall i :: 0 <= i < |objs| ==> Advanced(objs)[i].speed == objs[i].speed
    ensures t + 1 < RightBound / 8 ==> FirstArrival(objs) == NoArrival
    ensures t + 1 == RightBound / 8 ==> FirstArrival(objs).First? && objs[FirstArrival(objs).index].speed == 8
  {
    AdvancedKeepsField(objs);
    forall i | 0 <= i < |objs|
      ensures Advanced(objs)[i].x == Reach(objs[i].speed, t + 1)
      ensures Arrives(objs[i]) <==> t + 1 == RightBound / objs[i].speed
    {
      ReachStep(objs[i], t);
      ArrivalStep(objs[i].speed, t);
    }
    if t + 1 == RightBound / 8 {
      var w :| 0 <= w < |objs| && objs[w].speed == 8;
      assert Arrives(objs[w]);
    }
  }

  /** all_done holds t steps into a race exactly from step 60 on, when the
      speed-2 racer arrives. */
  lemma {:induction false} DoneAt(objs: seq<Moving>, t: nat)
    requires RaceAt(objs, t)
    ensures (forall i :: 0 <= i < |objs| ==> objs[i].reached) <==> t >= RightBound / 2
  {
    forall i | 0 <= i < |objs|
      ensures objs[i].reached <==> t >= RightBound / objs[i].speed
    {
      ArrivalStep(objs[i].speed, t);
    }
    var slow :| 0 <= slow < |objs| && objs[slow].speed == 2;
    assert objs[slow].reached <==> t >= RightBound / 2;
  }

  /** The predicate RacingAt of the race loop carried across one pass: the
      positions, the led_shown flag, the lit LED and the all_done verdict. */
  lemma TimedStepFacts(before: seq<Moving>, t: nat, shown0: bool, leds0: seq<int>, shown1: bool, leds1: seq<int>)
    requires RaceAt(before, t)
    requires shown0 <==> t >= RightBound / 8
    requires t >= RightBound / 8 ==> exists w :: 0 <= w < Racers && leds0 == LitOnly(w) && before[w].speed == 8
    requires shown1 == (shown0 || FirstArrival(before).First?)
    requires leds1 == (if !shown0 && FirstArrival(before).First? then LitOnly(FirstArrival(before).index) else leds0)
    ensures RaceAt(Advanced(before), t + 1) && Nums(Advanced(before)) == Nums(before)
    ensures shown1 <==> t + 1 >= RightBound / 8
    ensures t + 1 >= RightBound / 8 ==> exists w :: 0 <= w < Racers && leds1 == LitOnly(w) && Advanced(before)[w].speed == 8
    ensures (forall i :: 0 <= i < Racers ==> Advanced(before)[i].reached) <==> t + 1 >= RightBound / 2
  {
    RaceAdvances(before, t);
    DoneAt(Advanced(before), t + 1);
    if t >= RightBound / 8 {
      var w :| 0 <= w < Racers && leds0 == LitOnly(w) && before[w].speed == 8;
      assert Advanced(before)[w].speed == 8;
    } else if t + 1 == RightBound / 8 {
      var w := FirstArrival(before).index;
      assert Advanced(before)[w].speed == 8;
    }
  }

  class Race {
    /** obj[4] */
    const obj: array<Moving>
    /** led_shown of main */
    var ledShown: bool
    /** PC12 .. PC15; 0 lights an LED */
    var leds: seq<int>

    ghost predicate Valid()
      reads this, obj
    {
      obj.Length == Racers && |leds| == Racers && Field(obj[..])
    }

    /** Power-on: LED_OffAll, then the first round's generate_numbers. */
    constructor (draws: seq<nat>)
      requires |Picked(draws, [])| == Racers
      ensures Valid() && fresh(obj)
      ensures !ledShown && leds == AllOff
      ensures Nums(obj[..]) == Picked(draws, [])
      ensures forall i :: 0 <= i < Racers ==> obj[i].x == 0 && !obj[i].reached
    {
      obj := new Moving[Racers](_ => Moving(0, 0, 0, false));
      ledShown := false;
      leds := AllOff;
      new;
      GenerateNumbers(draws);
    }

    /** LED_On(idx). */
    method LedOn(idx: int)
      modifies this
      ensures leds == LitOnly(idx) && ledShown == old(ledShown)
    {
      leds := [if idx == 0 then 0 else 1, if idx == 1 then 0 else 1, if idx == 2 then 0 else 1, if idx == 3 then 0 else 1];
    }

    /** LED_OffAll, run when a key ends the round. */
    method LedOffAll()
      modifies this
      ensures leds == AllOff && ledShown == old(ledShown)
    {
      leds := [1, 1, 1, 1];
    }

    /** Step 1 of generate_numbers: draw until a digit is unused (the used[]
        marks), record it, and put its racer on the start line. */
    method PickDigits(draws: seq<nat>) returns (numbers: array<int>)
      requires obj.Length == Racers && |Picked(draws, [])| == Racers
      modifies obj
      ensures fresh(numbers) && numbers.Length == Racers
      ensures numbers[..] == Picked(draws, [])
      ensures forall i :: 0 <= i < Racers ==> obj[i] == old(obj[i]).(num := numbers[i], x := 0, reached := false)
    {
      var used := new bool[10](_ => false);
      numbers := new int[Racers];
      var k := 0;
      for i := 0 to Racers
        invariant 0 <= k <= |draws|
        invariant Picked(draws[k..], numbers[..i]) == Picked(draws, [])
        invariant forall v :: 0 <= v < 10 ==> (used[v] <==> v in numbers[..i])
        invariant forall m :: 0 <= m < i ==> obj[m] == old(obj[m]).(num := numbers[m], x := 0, reached := false)
        invariant forall m :: i <= m < Racers ==> obj[m] == old(obj[m])
      {
        var r;
        r, k := DrawUnused(draws, k, used, numbers[..i]);
        used[r] := true;
        numbers[i] := r;
        assert numbers[..i + 1] == numbers[..i] + [r];
        obj[i] := obj[i].(num := r, x := 0, reached := false);
      }
      assert numbers[..] == numbers[..Racers];
    }

    /** The `do { r = rand() % 9 + 1; } while (used[r]);` loop, reading the
        draws from index k on. */
    static method DrawUnused(draws: seq<nat>, k: nat, used: array<bool>, acc: seq<int>) returns (r: int, k': nat)
      requires used.Length == 10 && |acc| < Racers && k <= |draws|
      requires forall v :: 0 <= v < 10 ==> (used[v] <==> v in acc)
      requires |Picked(draws[k..], acc)| == Racers
      ensures k < k' <= |draws| && r == DigitOf(draws[k' - 1]) && r !in acc
      ensures Picked(draws[k'..], acc + [r]) == Picked(draws[k..], acc)
    {
      assert |Picked([], acc)| == |acc|;
      r := DigitOf(draws[k]);
      k' := k + 1;
      assert draws[k..][1..] == draws[k'..];
      while used[r]
        invariant k < k' <= |draws| && r == DigitOf(draws[k' - 1])
        invariant Picked(draws[k' - 1..], acc) == Picked(draws[k..], acc)
        decreases |draws| - k'
      {
        assert draws[k' - 1..][1..] == draws[k'..];
        assert |Picked([], acc)| == |acc|;
        r := DigitOf(draws[k']);
        k' := k' + 1;
      }
      assert draws[k' - 1..][1..] == draws[k'..];
    }

    /** Step 4 of generate_numbers: each racer's speed from the rank of its
        digit in `sorted`. */
    method AssignSpeeds(sorted: array<int>)
      requires obj.Length == Racers && sorted.Length == Racers
      modifies obj
      ensures forall i :: 0 <= i < Racers ==> obj[i] == old(obj[i]).(speed := SpeedOf(old(obj[i]).num, sorted[..]))
    {
      for i := 0 to Racers
        invariant forall m :: 0 <= m < i ==> obj[m] == old(obj[m]).(speed := SpeedOf(old(obj[m]).num, sorted[..]))
        invariant forall m :: i <= m < Racers ==> obj[m] == old(obj[m])
      {
        var s;
        if obj[i].num == sorted[0] {
          s := 8;
        } else if obj[i].num == sorted[1] {
          s := 6;
        } else if obj[i].num == sorted[2] {
          s := 4;
        } else {
          s := 2;
        }
        obj[i] := obj[i].(speed := s);
      }
    }
  
    /** generate_numbers: four distinct digits from the draws, a sorted copy,
        and the speeds by rank; every racer back on the start line. */
    method GenerateNumbers(draws: seq<nat>)
      requires obj.Length == Racers && |Picked(draws, [])| == Racers
      modifies obj
      ensures Field(obj[..])
      ensures Nums(obj[..]) == Picked(draws, [])
      ensures forall i :: 0 <= i < Racers ==> obj[i].x == 0 && !obj[i].reached
    {
      var numbers := PickDigits(draws);
      ghost var nums := numbers[..];
      assert DistinctDigits(nums);
      var sorted := new int[Racers];
      for i := 0 to Racers
        modifies sorted
        invariant forall m :: 0 <= m < i ==> sorted[m] == numbers[m]
      {
        sorted[i] := numbers[i];
      }
      assert sorted[..] == nums;
      ExchangeSort(sorted);
      ghost var s := sorted[..];
      AssignSpeeds(sorted);
      assert Nums(obj[..]) == nums by {
        assert forall i :: 0 <= i < Racers ==> Nums(obj[..])[i] == nums[i];
      }
      SpeedsFromSort(obj[..], s);
    }

    /** all_done: 1 exactly when every racer has arrived. */
    method AllDone() returns (done: bool)
      requires obj.Length == Racers
      ensures done <==> forall i :: 0 <= i < Racers ==> obj[i].reached
    {
      for i := 0 to Racers
        invariant forall m :: 0 <= m < i ==> obj[m].reached
      {
        if !obj[i].reached {
          return false;
        }
      }
      return true;
    }

    /** One pass of the `for (i = 0; i < 4; i++)` race loop: every racer
        moves, and the lowest-index racer arriving in this pass lights its LED
        unless an LED is already lit in this round. */
    method RaceStep()
      requires Valid()
      modifies this, obj
      ensures Valid()
      ensures obj[..] == Advanced(old(obj[..]))
      ensures ledShown == (old(ledShown) || FirstArrival(old(obj[..])).First?)
      ensures leds == (if !old(ledShown) && FirstArrival(old(obj[..])).First?
                       then LitOnly(FirstArrival(old(obj[..])).index) else old(leds))
    {
      AdvancedKeepsField(obj[..]);
      MoveAll();
    }

    /** The race loop itself, on any four racers. */
    method MoveAll()
      requires obj.Length == Racers
      modifies this, obj
      ensures obj[..] == Advanced(old(obj[..]))
      ensures ledShown == (old(ledShown) || FirstArrival(old(obj[..])).First?)
      ensures leds == (if !old(ledShown) && FirstArrival(old(obj[..])).First?
                       then LitOnly(FirstArrival(old(obj[..])).index) else old(leds))
    {
      ghost var before := obj[..];
      ghost var shown0 := ledShown;
      ghost var leds0 := leds;
      for i := 0 to Racers
        invariant forall m :: 0 <= m < i ==> obj[m] == Move(before[m])
        invariant forall m :: i <= m < Racers ==> obj[m] == before[m]
        invariant ledShown == (shown0 || FirstArrival(before[..i]).First?)
        invariant leds == (if !shown0 && FirstArrival(before[..i]).First? then LitOnly(FirstArrival(before[..i]).index) else leds0)
      {
        FirstArrivalExtend(before, i);
        MoveRacer(i);
      }
      assert before[..Racers] == before;
      assert obj[..] == Advanced(before);
    }

    /** The loop body for racer i. */
    method MoveRacer(i: nat)
      requires obj.Length == Racers && i < Racers
      modifies this, obj
      ensures obj[..] == old(obj[..])[i := Move(old(obj[i]))]
      ensures ledShown == (old(ledShown) || Arrives(old(obj[i])))
      ensures leds == (if !old(ledShown) && Arrives(old(obj[i])) then LitOnly(i) else old(leds))
    {
      if !obj[i].reached {
        obj[i] := obj[i].(x := obj[i].x + obj[i].speed);
        if obj[i].x >= RightBound {
          obj[i] := obj[i].(x := RightBound, reached := true);
          if !ledShown {
            LedOn(i);
            ledShown := true;
          }
        }
      }
    }

    /** The state t steps into a race from the start line: the racers where
        their speeds have taken them, and from step 15 on the LED of the
        speed-8 racer lit. */
    ghost predicate RacingAt(t: nat)
      reads this, obj
    {
      && Valid() && RaceAt(obj[..], t)
      && (ledShown <==> t >= RightBound / 8)
      && (t >= RightBound / 8 ==> exists w :: 0 <= w < Racers && leds == LitOnly(w) && obj[w].speed == 8)
    }

    /** One pass of the race loop t steps into a race. */
    method TimedStep(ghost t: nat) returns (done: bool)
      requires RacingAt(t)
      modifies this, obj
      ensures RacingAt(t + 1) && Nums(obj[..]) == old(Nums(obj[..]))
      ensures done <==> t + 1 >= RightBound / 2
    {
      ghost var before := obj[..];
      ghost var shown0 := ledShown;
      ghost var leds0 := leds;
      RaceStep();
      TimedStepFacts(before, t, shown0, leds0, ledShown, leds);
      done := AllDone();
    }

    /** The `while (1)` race loop, from the start signal to all_done. A race
        from the start line lasts exactly 60 steps (120 / 2, the slowest
        racer), and exactly one LED ends up lit: that of the largest digit,
        the speed-8 racer, which alone arrives first, at step 15. */
    method RunRace() returns (ghost steps: nat)
      requires Valid() && !ledShown
      requires forall i :: 0 <= i < Racers ==> obj[i].x == 0
      modifies this, obj
      ensures Valid() && steps == RightBound / 2
      ensures Nums(obj[..]) == old(Nums(obj[..]))
      ensures forall i :: 0 <= i < Racers ==> obj[i].reached
      ensures ledShown
      ensures exists w :: 0 <= w < Racers && leds == LitOnly(w) && forall j :: 0 <= j < Racers ==> obj[j].num <= obj[w].num
    {
      ghost var nums := Nums(obj[..]);
      steps := 0;
      assert RaceAt(obj[..], 0);
      var done := false;
      while !done
        invariant RacingAt(steps) && Nums(obj[..]) == nums
        invariant done <==> steps >= RightBound / 2
        invariant steps <= RightBound / 2
        decreases RightBound / 2 - steps
      {
        done := TimedStep(steps);
        steps := steps + 1;
      }
      DoneAt(obj[..], steps);
      var w :| 0 <= w < Racers && leds == LitOnly(w) && obj[w].speed == 8;
      FastestIsLargest(obj[..], w);
    }

    /** One round of main's outer loop up to the key press: led_shown = 0,
        generate_numbers, the start signal, the race. */
    method PlayRound(draws: seq<nat>) returns (ghost steps: nat)
      requires Valid() && |Picked(draws, [])| == Racers
      modifies this, obj
      ensures Valid() && steps == RightBound / 2
      ensures Nums(obj[..]) == Picked(draws, [])
      ensures forall i :: 0 <= i < Racers ==> obj[i].reached
      ensures exists w :: 0 <= w < Racers && leds == LitOnly(w) && forall j :: 0 <= j < Racers ==> obj[j].num <= obj[w].num
    {
      ledShown := false;
      GenerateNumbers(draws);
      steps := RunRace();
    }
  }
}
