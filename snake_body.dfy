/** The snake's body on the 64 x 32 grid: cells, the movement rules shared by
    the three snake programs (Lab-9/Q1, Lab-9/Q2, Lab-9/Q2-final), and the loops
    that work on the parallel coordinate arrays snake_x / snake_y
    (index 0 is the tail, the last used index is the head). */
module SnakeBody {
  import opened Joystick
  import Counting

  const GridW: int := 64
  const GridH: int := 32
  /** MAX_SNAKE_LEN of the growing variants. */
  const MaxLen: nat := 100
  /** SNAKE_LEN of Lab-9/Q1 and the initial current_len of the growing variants. */
  const StartLen: nat := 16

  datatype Cell = Cell(x: int, y: int)

  predicate InGrid(c: Cell)
  {
    0 <= c.x < GridW && 0 <= c.y < GridH
  }

  /** The candidate head one cell away from c in direction d (the switch in main). */
  function Advance(c: Cell, d: Direction): (r: Cell)
    ensures Abs(r.x - c.x) + Abs(r.y - c.y) == (if d == Stop then 0 else 1)
    ensures d == Up ==> r.y < c.y
    ensures d == Down ==> r.y > c.y
    ensures d == Left ==> r.x < c.x
    ensures d == Right ==> r.x > c.x
  {
    match d
    case Stop => c
    case Up => Cell(c.x, c.y - 1)
    case Down => Cell(c.x, c.y + 1)
    case Left => Cell(c.x - 1, c.y)
    case Right => Cell(c.x + 1, c.y)
  }

  /** Stepping back in the opposite direction returns to the start cell: why a
      reversal would run the head straight into the segment behind it. */
  lemma AdvanceOpposite(c: Cell, d: Direction)
    ensures Advance(Advance(c, d), Opposite(d)) == c
  {
  }

  predicate AllInGrid(body: seq<Cell>)
  {
    forall i :: 0 <= i < |body| ==> InGrid(body[i])
  }

  predicate Distinct(body: seq<Cell>)
  {
    forall i, j :: 0 <= i < j < |body| ==> body[i] != body[j]
  }

  /** A well-formed board: the body inside the grid without overlaps, and the
      fruit a free grid cell. */
  predicate Wellformed(body: seq<Cell>, fruit: Cell)
  {
    AllInGrid(body) && Distinct(body) && InGrid(fruit) && fruit !in body
  }

  function Head(body: seq<Cell>): Cell
    requires |body| > 0
  {
    body[|body| - 1]
  }

  /** The self-collision scan compares against indices 0 .. |body|-2: the tail is
      included, the current head is not. */
  predicate Bites(body: seq<Cell>, c: Cell)
    requires |body| > 0
  {
    c in body[..|body| - 1]
  }

  /** A plain move: drop the tail, append the new head. */
  function Slide(body: seq<Cell>, c: Cell): (r: seq<Cell>)
    requires |body| > 0
    ensures |r| == |body| && Head(r) == c
    ensures forall i :: 0 <= i < |body| - 1 ==> r[i] == body[i + 1]
  {
    body[1..] + [c]
  }

  /** Eating: below MAX_SNAKE_LEN the body grows by the new head; at capacity the
      new head is written over the slot of the old head, the tail staying put. */
  function Grow(body: seq<Cell>, c: Cell): (r: seq<Cell>)
    requires 0 < |body| <= MaxLen
    ensures |r| == (if |body| < MaxLen then |body| + 1 else MaxLen) && Head(r) == c
    ensures |body| < MaxLen ==> r[..|body|] == body
    ensures |body| == MaxLen ==> r[..MaxLen - 1] == body[..MaxLen - 1]
  {
    if |body| < MaxLen then body + [c] else body[..|body| - 1] + [c]
  }

  /** A move onto an in-grid cell that is neither bitten nor the head keeps the
      body inside the grid and free of overlaps. */
  lemma SlideKeepsBody(body: seq<Cell>, c: Cell)
    requires |body| > 0 && AllInGrid(body) && Distinct(body)
    requires InGrid(c) && !Bites(body, c) && c != Head(body)
    ensures AllInGrid(Slide(body, c)) && Distinct(Slide(body, c))
  {
    var r := Slide(body, c);
    forall i, j | 0 <= i < j < |r| ensures r[i] != r[j] {
      if j == |r| - 1 {
        assert r[i] == body[i + 1];
        if i + 1 < |body| - 1 {
          assert body[i + 1] in body[..|body| - 1];
        }
      }
    }
  }

  /** A well-formed board stays well formed after a move onto a free in-grid cell
      that is not the fruit. */
  lemma SlideKeepsWellformed(body: seq<Cell>, fruit: Cell, c: Cell)
    requires |body| > 0 && Wellformed(body, fruit)
    requires InGrid(c) && !Bites(body, c) && c != fruit
    requires c != Head(body)
    ensures Wellformed(Slide(body, c), fruit)
  {
    SlideKeepsBody(body, c);
    var r := Slide(body, c);
    assert fruit !in r by {
      forall i | 0 <= i < |r| ensures r[i] != fruit {
        if i < |r| - 1 {
          assert r[i] == body[i + 1];
        }
      }
    }
  }

  /** Growing keeps the body inside the grid and free of overlaps. */
  lemma GrowKeepsBody(body: seq<Cell>, c: Cell)
    requires 0 < |body| <= MaxLen && AllInGrid(body) && Distinct(body)
    requires InGrid(c) && !Bites(body, c) && c != Head(body)
    ensures AllInGrid(Grow(body, c)) && Distinct(Grow(body, c))
  {
    var r := Grow(body, c);
    forall i, j | 0 <= i < j < |r| ensures r[i] != r[j] {
      if j == |r| - 1 {
        assert r[i] == body[i];
        if i < |body| - 1 {
          assert body[i] in body[..|body| - 1];
        }
      } else {
        assert r[i] == body[i] && r[j] == body[j];
      }
    }
    forall i | 0 <= i < |r| ensures InGrid(r[i]) {
      if i < |r| - 1 {
        assert r[i] == body[i];
      }
    }
  }

  /** Two cells one grid step apart. */
  predicate Adjacent(a: Cell, b: Cell)
  {
    Abs(a.x - b.x) + Abs(a.y - b.y) == 1
  }

  /** Consecutive segments are neighbours: the body is one unbroken chain. */
  predicate Connected(body: seq<Cell>)
  {
    forall i :: 0 <= i < |body| - 1 ==> Adjacent(body[i], body[i + 1])
  }

  /** A plain move onto a neighbour of the head keeps the chain unbroken. */
  lemma SlideKeepsConnected(body: seq<Cell>, c: Cell)
    requires |body| > 0 && Connected(body) && Adjacent(Head(body), c)
    ensures Connected(Slide(body, c))
  {
    var r := Slide(body, c);
    forall i | 0 <= i < |r| - 1 ensures Adjacent(r[i], r[i + 1]) {
      if i + 1 < |r| - 1 {
        assert r[i] == body[i + 1] && r[i + 1] == body[i + 2];
      } else {
        assert r[i] == Head(body);
      }
    }
  }

  /** Growing below capacity keeps the chain unbroken. */
  lemma GrowKeepsConnected(body: seq<Cell>, c: Cell)
    requires 0 < |body| < MaxLen && Connected(body) && Adjacent(Head(body), c)
    ensures Connected(Grow(body, c))
  {
    var r := Grow(body, c);
    forall i | 0 <= i < |r| - 1 ensures Adjacent(r[i], r[i + 1]) {
      assert r[i] == body[i];
      if i + 1 < |r| - 1 {
        assert r[i + 1] == body[i + 1];
      }
    }
  }

  /** A step between neighbours flips the parity of x + y. */
  lemma AdjacentParity(a: Cell, b: Cell)
    requires Adjacent(a, b)
    ensures (a.x + a.y) % 2 != (b.x + b.y) % 2
  {
  }

  /** Eating at capacity writes the new head over the old head's slot, so the
      new head follows the segment that was behind the old head: two cells that
      are both neighbours of the old head, hence never neighbours of each other.
      The body is no longer one chain after that meal. */
  lemma FullGrowBreaksChain(body: seq<Cell>, c: Cell)
    requires |body| == MaxLen && Connected(body) && Adjacent(Head(body), c)
    ensures !Connected(Grow(body, c))
  {
    var r := Grow(body, c);
    var behind := body[MaxLen - 2];
    assert r[MaxLen - 2] == behind && r[MaxLen - 1] == c;
    assert Adjacent(behind, Head(body));
    AdjacentParity(behind, Head(body));
    AdjacentParity(Head(body), c);
    if Adjacent(behind, c) {
      AdjacentParity(behind, c);
    }
  }

  /** The body that starts every game: 16 segments at x = 24 .. 39, y = 16,
      heading right (start_x = GRID_W/2 - 16/2, start_y = GRID_H/2). */
  function InitialBody(): (b: seq<Cell>)
    ensures |b| == StartLen
    ensures forall i :: 0 <= i < StartLen ==> b[i] == Cell(24 + i, 16)
    ensures AllInGrid(b) && Distinct(b) && Connected(b)
  {
    seq(StartLen, i => Cell(GridW / 2 - StartLen / 2 + i, GridH / 2))
  }

  /** The cells held by the parallel coordinate arrays. */
  function Zip(xs: seq<int>, ys: seq<int>): (r: seq<Cell>)
    requires |xs| == |ys|
    ensures |r| == |xs|
    ensures forall i :: 0 <= i < |r| ==> r[i] == Cell(xs[i], ys[i])
  {
    seq(|xs|, i requires 0 <= i < |xs| => Cell(xs[i], ys[i]))
  }

  /** Shifting both arrays down by one and storing the new head is a Slide. */
  lemma ZipSlide(xs: seq<int>, ys: seq<int>, c: Cell)
    requires |xs| == |ys| > 0
    ensures Zip(xs[1..] + [c.x], ys[1..] + [c.y]) == Slide(Zip(xs, ys), c)
  {
    var l := Zip(xs[1..] + [c.x], ys[1..] + [c.y]);
    var r := Slide(Zip(xs, ys), c);
    assert |l| == |r|;
    forall i | 0 <= i < |l| ensures l[i] == r[i] {
    }
  }

  /** The first n cells are held by the first n coordinates. */
  lemma ZipTake(xs: seq<int>, ys: seq<int>, n: nat)
    requires |xs| == |ys| && n <= |xs|
    ensures Zip(xs[..n], ys[..n]) == Zip(xs, ys)[..n]
  {
  }

  /** Storing one more coordinate pair appends one cell. */
  lemma ZipAppend(xs: seq<int>, ys: seq<int>, c: Cell)
    requires |xs| == |ys|
    ensures Zip(xs + [c.x], ys + [c.y]) == Zip(xs, ys) + [c]
  {
    var l := Zip(xs + [c.x], ys + [c.y]);
    var r := Zip(xs, ys) + [c];
    assert |l| == |r|;
    forall i | 0 <= i < |l| ensures l[i] == r[i] {
    }
  }

  // ---------------------------------------------------------------------
  // Loops over the coordinate arrays
  // ---------------------------------------------------------------------

  /** The scan loop: does one of the first n segments sit on cell c?
      Used with n = len - 1 for self-collision and n = len by the spawner. */
  method Occupies(xs: array<int>, ys: array<int>, n: nat, c: Cell) returns (hit: bool)
    requires n <= xs.Length && n <= ys.Length
    ensures hit <==> c in Zip(xs[..n], ys[..n])
  {
    var i := 0;
    while i < n
      invariant 0 <= i <= n
      invariant forall k :: 0 <= k < i ==> Cell(xs[k], ys[k]) != c
    {
      if xs[i] == c.x && ys[i] == c.y {
        assert Zip(xs[..n], ys[..n])[i] == c;
        return true;
      }
      i := i + 1;
    }
    hit := false;
  }

  /** The in-place shift of a plain move: body[i] := body[i+1] for i < n-1, then
      the new head goes to index n-1; the slots from n on are untouched. */
  method ShiftAppend(xs: array<int>, ys: array<int>, n: nat, c: Cell)
    requires 0 < n <= xs.Length && n <= ys.Length && xs != ys
    modifies xs, ys
    ensures xs[..n] == old(xs[1..n]) + [c.x] && ys[..n] == old(ys[1..n]) + [c.y]
    ensures xs[n..] == old(xs[n..]) && ys[n..] == old(ys[n..])
  {
    var i := 0;
    while i < n - 1
      invariant 0 <= i <= n - 1
      invariant forall k :: 0 <= k < i ==> xs[k] == old(xs[k + 1]) && ys[k] == old(ys[k + 1])
      invariant forall k :: i <= k < xs.Length ==> xs[k] == old(xs[k])
      invariant forall k :: i <= k < ys.Length ==> ys[k] == old(ys[k])
    {
      xs[i] := xs[i + 1];
      ys[i] := ys[i + 1];
      i := i + 1;
    }
    xs[n - 1] := c.x;
    ys[n - 1] := c.y;
  }

  // ---------------------------------------------------------------------
  // The fruit spawner: rejection sampling over supplied rand() values
  // ---------------------------------------------------------------------

  /** One spawn attempt: the pair of rand() results reduced to a grid cell
      (rand() % GRID_W, rand() % GRID_H). */
  function Reduce(d: (nat, nat)): (c: Cell)
    ensures InGrid(c)
  {
    Cell(d.0 % GridW, d.1 % GridH)
  }

  /** Some attempt lands on a cell the body does not occupy. */
  predicate HasFree(body: seq<Cell>, draws: seq<(nat, nat)>)
  {
    exists k :: 0 <= k < |draws| && Reduce(draws[k]) !in body
  }

  /** The index of the first accepted attempt. */
  function FirstFreeIndex(body: seq<Cell>, draws: seq<(nat, nat)>): (k: nat)
    requires HasFree(body, draws)
    ensures k < |draws| && Reduce(draws[k]) !in body
    ensures forall j :: 0 <= j < k ==> Reduce(draws[j]) in body
    decreases |draws|
  {
    if Reduce(draws[0]) !in body then 0
    else
      assert HasFree(body, draws[1..]) by {
        var k :| 0 <= k < |draws| && Reduce(draws[k]) !in body;
        assert draws[1..][k - 1] == draws[k];
      }
      1 + FirstFreeIndex(body, draws[1..])
  }

  /** The cell spawn_Fruit settles on. */
  function Spawned(body: seq<Cell>, draws: seq<(nat, nat)>): (c: Cell)
    requires HasFree(body, draws)
    ensures InGrid(c) && c !in body
  {
    Reduce(draws[FirstFreeIndex(body, draws)])
  }

  /** The draws reach more distinct cells than a snake can occupy. */
  predicate Covers(draws: seq<(nat, nat)>)
  {
    |set k | 0 <= k < |draws| :: Reduce(draws[k])| > MaxLen
  }

  /** With such draws the rejection loop always finds a free cell. */
  lemma CoversHasFree(body: seq<Cell>, draws: seq<(nat, nat)>)
    requires Covers(draws) && |body| <= MaxLen
    ensures HasFree(body, draws)
  {
    var reached := set k | 0 <= k < |draws| :: Reduce(draws[k]);
    Counting.Pigeonhole(reached, body);
    var c :| c in reached && c !in body;
    var k :| 0 <= k < |draws| && Reduce(draws[k]) == c;
  }

  /** spawn_Fruit: draw until a cell off the first n segments comes up. */
  method PickFreeCell(xs: array<int>, ys: array<int>, n: nat, draws: seq<(nat, nat)>) returns (fruit: Cell)
    requires n <= xs.Length && n <= ys.Length
    requires HasFree(Zip(xs[..n], ys[..n]), draws)
    ensures fruit == Spawned(Zip(xs[..n], ys[..n]), draws)
  {
    ghost var body := Zip(xs[..n], ys[..n]);
    // The first attempt, then one more attempt per rejected cell.
    fruit := Reduce(draws[0]);
    var hit := Occupies(xs, ys, n, fruit);
    var k := 1;
    while hit
      invariant 1 <= k <= FirstFreeIndex(body, draws) + 1
      invariant fruit == Reduce(draws[k - 1])
      invariant hit <==> fruit in body
      invariant forall j :: 0 <= j < k - 1 ==> Reduce(draws[j]) in body
      decreases FirstFreeIndex(body, draws) + 1 - k
    {
      fruit := Reduce(draws[k]);
      hit := Occupies(xs, ys, n, fruit);
      k := k + 1;
    }
  }
}
