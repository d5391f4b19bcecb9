/** Decimal text for the 16-column LCD of Lab-6/Q1: simple_itoa and the
    fixed-width lines built by update_display. */
module DecimalText {
  import opened Arith

  /** Characters per LCD line. */
  const LineWidth: nat := 16

  /** One decimal digit 0 .. 9 as its character. */
  function DigitChar(d: int): (c: char)
    requires 0 <= d < 10
    ensures '0' <= c <= '9' && c as int - '0' as int == d
  {
    ('0' as int + d) as char
  }

  /** The digits of v > 0, most significant first; empty for v <= 0. */
  function DigitsOf(v: int): (s: seq<char>)
    decreases v
  {
    if v <= 0 then [] else DigitsOf(v / 10) + [DigitChar(v % 10)]
  }

  /** What simple_itoa writes before the terminating NUL: "0" for zero, the
      digits for a positive value, nothing for a negative one (its digit loop
      never runs). */
  function Decimal(v: int): seq<char>
  {
    if v == 0 then "0" else DigitsOf(v)
  }

  /** Reading a digit string back as a number. */
  function Parse(s: seq<char>): int
  {
    if s == [] then 0 else Parse(s[..|s| - 1]) * 10 + (s[|s| - 1] as int - '0' as int)
  }

  predicate AllDigits(s: seq<char>)
  {
    forall i :: 0 <= i < |s| ==> '0' <= s[i] <= '9'
  }

  /** The digit string of a positive value parses back to it. */
  lemma {:induction false} DigitsOfParses(v: nat)
    ensures Parse(DigitsOf(v)) == v
    decreases v
  {
    if v > 0 {
      var s := DigitsOf(v);
      DigitsOfParses(v / 10);
      assert s[..|s| - 1] == DigitsOf(v / 10);
    }
  }

  /** The text written for a non-negative value parses back to it. */
  lemma DecimalParses(v: nat)
    ensures Parse(Decimal(v)) == v
  {
    if v > 0 {
      DigitsOfParses(v);
    }
  }

  /** Only digit characters, and no leading zero unless the value is zero. */
  lemma {:induction false} DecimalShape(v: nat)
    ensures AllDigits(Decimal(v)) && |Decimal(v)| >= 1
    ensures v > 0 ==> Decimal(v)[0] != '0'
    decreases v
  {
    if v >= 10 {
      DecimalShape(v / 10);
      assert DigitsOf(v) == DigitsOf(v / 10) + [DigitChar(v % 10)];
      assert DigitsOf(v)[0] == DigitsOf(v / 10)[0];
    } else if v > 0 {
      assert DigitsOf(v / 10) == [];
      assert DigitsOf(v) == [DigitChar(v)];
    }
  }

  /** The number of digits written: exactly k when 10^(k-1) <= v < 10^k. */
  lemma {:induction false} DigitsOfLength(v: nat, k: nat)
    requires Pow10(k) / 10 <= v < Pow10(k) && v > 0
    ensures |DigitsOf(v)| == k
    decreases v
  {
    if v >= 10 {
      assert k >= 2;
      DigitsOfLength(v / 10, k - 1);
    }
  }

  /** The digits in reverse order. */
  function Reverse(s: seq<char>): (r: seq<char>)
    ensures |r| == |s|
    ensures forall i :: 0 <= i < |s| ==> r[i] == s[|s| - 1 - i]
  {
    if s == [] then [] else [s[|s| - 1]] + Reverse(s[..|s| - 1])
  }

  /** simple_itoa for a 32-bit int: peel digits least significant first into
      temp[10], then copy them back in reverse. */
  method SimpleItoa(val: int) returns (s: seq<char>)
    requires val < 0x8000_0000
    ensures s == Decimal(val)
  {
    if val == 0 {
      return "0";
    }
    var temp := new char[10];
    var j := 0;
    var v := val;
    assert Pow10(10) == 10_000_000_000;
    while v > 0
      invariant 0 <= j <= 10
      invariant v > 0 ==> v < Pow10(10 - j)
      invariant DigitsOf(val) == DigitsOf(v) + Reverse(temp[..j])
      decreases v
    {
      ghost var old_j := j;
      temp[j] := DigitChar(v % 10);
      j := j + 1;
      assert temp[..j][..old_j] == temp[..old_j];
      v := v / 10;
    }
    s := [];
    ghost var n := j;
    while j > 0
      invariant 0 <= j <= n
      invariant s + Reverse(temp[..j]) == Reverse(temp[..n])
    {
      j := j - 1;
      assert temp[..j + 1][..j] == temp[..j];
      s := s + [temp[j]];
    }
  }

  /** A line of exactly 16 characters: the text cut at 16 or padded with blanks. */
  function Fit(s: seq<char>): (line: seq<char>)
    ensures |line| == LineWidth
    ensures forall i :: 0 <= i < LineWidth ==> line[i] == (if i < |s| then s[i] else ' ')
  {
    if |s| >= LineWidth then s[..LineWidth] else s + seq(LineWidth - |s|, _ => ' ')
  }

  /** The line-building code of update_display: a blank line, a fixed head
      written at its start, then the text copied after it while it fits. */
  method RenderLine(head: seq<char>, text: seq<char>) returns (line: seq<char>)
    requires |head| <= LineWidth
    ensures line == Fit(head + text)
  {
    var buf := new char[LineWidth](_ => ' ');
    for i := 0 to |head|
      invariant forall k :: 0 <= k < i ==> buf[k] == head[k]
      invariant forall k :: i <= k < LineWidth ==> buf[k] == ' '
    {
      buf[i] := head[i];
    }
    var i := 0;
    while i < |text| && |head| + i < LineWidth
      invariant 0 <= i <= |text| && |head| + i <= LineWidth
      invariant forall k :: 0 <= k < |head| + i ==> buf[k] == (head + text)[k]
      invariant forall k :: |head| + i <= k < LineWidth ==> buf[k] == ' '
    {
      buf[|head| + i] := text[i];
      i := i + 1;
    }
    line := buf[..];
  }
}
