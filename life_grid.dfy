/** The Game of Life grid of life/main.go: cells, the Moore neighbourhood,
    the live-neighbour count and the synchronous generation step. */
module LifeGrid {

  /** Window size in pixels; the step scans ScreenWidth / cellSize columns
      and ScreenHeight / cellSize rows. */
  const ScreenWidth: int := 720
  const ScreenHeight: int := 720

  /** Side of one cell in pixels, as the global grid is initialised. */
  const CellSize: int := 20

  /** A grid position (column, row). Any pair of integers is a key; nothing wraps. */
  datatype Cell = Cell(x: int, y: int)

  /** A Go map lookup yields false for a missing key, so a cell is alive
      iff it is present and maps to true. */
  predicate IsAlive(m: map<Cell, bool>, c: Cell): (alive: bool)
    ensures c !in m ==> !alive
    ensures c in m ==> alive == m[c]
  {
    c in m && m[c]
  }

  ghost predicate NoneAlive(m: map<Cell, bool>) {
    forall c :: !IsAlive(m, c)
  }

  /** The eight Moore neighbours of c, in the order in which the nested
      loops of getNeighbours append them. */
  function Neighbours(c: Cell): (r: seq<Cell>)
    ensures |r| == 8
  {
    [Cell(c.x - 1, c.y - 1), Cell(c.x - 1, c.y), Cell(c.x - 1, c.y + 1),
     Cell(c.x, c.y - 1), Cell(c.x, c.y + 1),
     Cell(c.x + 1, c.y - 1), Cell(c.x + 1, c.y), Cell(c.x + 1, c.y + 1)]
  }

  /** The neighbours are eight distinct cells, exactly those other than c
      that differ from it by at most 1 in each coordinate. */
  lemma NeighboursAreMoore(c: Cell)
    ensures forall i, j :: 0 <= i < j < 8 ==> Neighbours(c)[i] != Neighbours(c)[j]
    ensures forall d :: d in Neighbours(c) <==> d != c && -1 <= d.x - c.x <= 1 && -1 <= d.y - c.y <= 1
  {
  }

  /** How many cells the loops of getNeighbours have appended before the
      offset (dx, dy) is visited. */
  function Appended(dx: int, dy: int): int {
    var k := 3 * (dx + 1) + (dy + 1);
    if k > 4 then k - 1 else k
  }

  /** getNeighbours: offsets -1..1 in both coordinates, skipping (0, 0),
      with no bounds check. */
  method GetNeighbours(c: Cell) returns (neighbours: seq<Cell>)
    ensures neighbours == Neighbours(c)
  {
    neighbours := [];
    for dx := -1 to 2
      invariant neighbours == Neighbours(c)[..Appended(dx, -1)]
    {
      for dy := -1 to 2
        invariant neighbours == Neighbours(c)[..Appended(dx, dy)]
      {
        if dx == 0 && dy == 0 {
          continue;
        }
        neighbours := neighbours + [Cell(c.x + dx, c.y + dy)];
      }
    }
  }

  /** How many cells of s are alive in m; s[i] is counted once per occurrence. */
  function LiveCount(m: map<Cell, bool>, s: seq<Cell>): (n: nat)
    ensures n <= |s|
  {
    if s == [] then 0
    else LiveCount(m, s[..|s| - 1]) + (if IsAlive(m, s[|s| - 1]) then 1 else 0)
  }

  /** The live cells of m that occur in s. */
  function LiveSet(m: map<Cell, bool>, s: seq<Cell>): set<Cell> {
    set d | d in s && IsAlive(m, d)
  }

  /** The count update takes for cell c from the map m. */
  function LiveNeighbours(m: map<Cell, bool>, c: Cell): (n: nat)
    ensures n <= 8
  {
    LiveCount(m, Neighbours(c))
  }

  /** The test on life/main.go:116. Go binds && tighter than ||, so it reads
      (isAlive && n == 2) || n == 3: standard Conway life, B3/S23. */
  function Survives(alive: bool, n: int): (r: bool)
    ensures r <==> if alive then n == 2 || n == 3 else n == 3
  {
    (alive && n == 2) || n == 3
  }

  predicate InDomain(c: Cell, w: int, h: int) {
    0 <= c.x < w && 0 <= c.y < h
  }

  /** The cells update visits: [0, w) x [0, h). */
  function Domain(w: int, h: int): set<Cell> {
    set x, y | 0 <= x < w && 0 <= y < h :: Cell(x, y)
  }

  /** The generation update computes from the snapshot m over the domain
      [0, w) x [0, h): only live cells are stored, each mapped to true. */
  function NextGen(m: map<Cell, bool>, w: int, h: int): (r: map<Cell, bool>)
    ensures forall c :: c in r ==> r[c]
    ensures forall c :: IsAlive(r, c) <==> InDomain(c, w, h) && Survives(IsAlive(m, c), LiveNeighbours(m, c))
  {
    map c | c in Domain(w, h) && Survives(IsAlive(m, c), LiveNeighbours(m, c)) :: true
  }

  /** The global grid. Only liveCells changes; the layout fields are fixed
      by the initialiser and only cellSize is used by the step. */
  class Grid {
    const startX: int := 60
    const startY: int := 60
    const rows: int := 30
    const cols: int := 30
    const cellSize: int := CellSize
    const edgeWidth: int := 1

    var liveCells: map<Cell, bool>

    constructor ()
      ensures liveCells == map[]
    {
      liveCells := map[];
    }

    /** The inner loop of update: count the neighbours alive in liveCells. */
    method CountLiveNeighbours(neighbours: seq<Cell>) returns (n: int)
      ensures n == LiveCount(liveCells, neighbours)
    {
      n := 0;
      for i := 0 to |neighbours|
        invariant n == LiveCount(liveCells, neighbours[..i])
      {
        assert neighbours[..i + 1][..i] == neighbours[..i];
        if IsAlive(liveCells, neighbours[i]) {
          n := n + 1;
        }
      }
      assert neighbours[..|neighbours|] == neighbours;
    }

    /** update: fill a fresh nextGen map column by column, reading only the
        old liveCells, then replace the field. */
    method Update()
      modifies this
      ensures liveCells == NextGen(old(liveCells), ScreenWidth / cellSize, ScreenHeight / cellSize)
    {
      var w, h := ScreenWidth / cellSize, ScreenHeight / cellSize;
      ghost var m := liveCells;
      var nextGen: map<Cell, bool> := map[];
      for x := 0 to w
        invariant liveCells == m
        invariant forall c :: c in nextGen ==> nextGen[c]
        invariant forall c :: c in nextGen <==> Scanned(c, x, 0, h) && Survives(IsAlive(m, c), LiveNeighbours(m, c))
      {
        for y := 0 to h
          invariant liveCells == m
          invariant forall c :: c in nextGen ==> nextGen[c]
          invariant forall c :: c in nextGen <==> Scanned(c, x, y, h) && Survives(IsAlive(m, c), LiveNeighbours(m, c))
        {
          var neighbours := GetNeighbours(Cell(x, y));
          var liveNeighborCount := CountLiveNeighbours(neighbours);
          var isAlive := IsAlive(liveCells, Cell(x, y));
          if (isAlive && liveNeighborCount == 2) || liveNeighborCount == 3 {
            nextGen := nextGen[Cell(x, y) := true];
          } else if !isAlive && liveNeighborCount == 3 {
            // Unreachable: the first test already admits every count of 3.
            assert false;
          }
        }
      }
      SameLiveCellsSameMap(nextGen, NextGen(m, w, h));
      liveCells := nextGen;
    }
  }

  /** Cell c comes before (x, y) in update's column-major scan of [0, ?) x [0, h). */
  predicate Scanned(c: Cell, x: int, y: int, h: int) {
    (0 <= c.x < x && 0 <= c.y < h) || (c.x == x && 0 <= c.y < y)
  }

  /** Two maps that store only true entries are equal once they agree on
      which cells are alive. */
  lemma SameLiveCellsSameMap(a: map<Cell, bool>, b: map<Cell, bool>)
    requires forall c :: c in a ==> a[c]
    requires forall c :: c in b ==> b[c]
    requires forall c :: IsAlive(a, c) <==> IsAlive(b, c)
    ensures a == b
  {
    assert a.Keys == b.Keys by {
      forall c | c in a ensures c in b { assert IsAlive(a, c); }
      forall c | c in b ensures c in a { assert IsAlive(b, c); }
    }
  }

  /** For a sequence without repetitions the count is the number of
      distinct live cells in it. */
  lemma {:induction false} LiveCountIsCardinality(m: map<Cell, bool>, s: seq<Cell>)
    requires forall i, j :: 0 <= i < j < |s| ==> s[i] != s[j]
    ensures LiveCount(m, s) == |LiveSet(m, s)|
  {
    if s == [] {
      assert LiveSet(m, s) == {};
    } else {
      var p, e := s[..|s| - 1], s[|s| - 1];
      LiveCountIsCardinality(m, p);
      assert e !in p;
      assert e !in LiveSet(m, p);
      if IsAlive(m, e) {
        assert LiveSet(m, s) == LiveSet(m, p) + {e};
      } else {
        assert LiveSet(m, s) == LiveSet(m, p);
      }
    }
  }

  /** Every live neighbour is counted exactly once. */
  lemma LiveNeighboursIsCardinality(m: map<Cell, bool>, c: Cell)
    ensures LiveNeighbours(m, c) == |set d | d in Neighbours(c) && IsAlive(m, d)|
  {
    LiveCountIsCardinality(m, Neighbours(c));
  }

  /** The count reads m only at the cells of s. */
  lemma {:induction false} LiveCountLocal(m1: map<Cell, bool>, m2: map<Cell, bool>, s: seq<Cell>)
    requires forall d :: d in s ==> IsAlive(m1, d) == IsAlive(m2, d)
    ensures LiveCount(m1, s) == LiveCount(m2, s)
  {
    if s != [] {
      LiveCountLocal(m1, m2, s[..|s| - 1]);
    }
  }

  /** Whether a cell lives in the next generation depends only on its own
      state and its eight neighbours in the old map. */
  lemma NextGenIsLocal(m1: map<Cell, bool>, m2: map<Cell, bool>, c: Cell, w: int, h: int)
    requires IsAlive(m1, c) == IsAlive(m2, c)
    requires forall d :: d in Neighbours(c) ==> IsAlive(m1, d) == IsAlive(m2, d)
    ensures IsAlive(NextGen(m1, w, h), c) == IsAlive(NextGen(m2, w, h), c)
  {
    LiveCountLocal(m1, m2, Neighbours(c));
  }

  lemma {:induction false} LiveCountNoneAlive(m: map<Cell, bool>, s: seq<Cell>)
    requires NoneAlive(m)
    ensures LiveCount(m, s) == 0
  {
    if s != [] {
      LiveCountNoneAlive(m, s[..|s| - 1]);
    }
  }

  /** An all-dead grid stays all-dead, and nothing is stored. */
  lemma EmptyStaysEmpty(m: map<Cell, bool>, w: int, h: int)
    requires NoneAlive(m)
    ensures NextGen(m, w, h) == map[]
  {
    forall c ensures !IsAlive(NextGen(m, w, h), c) {
      LiveCountNoneAlive(m, Neighbours(c));
    }
  }

  /** A lone live cell dies of underpopulation and no cell is born. */
  lemma LoneCellDies(m: map<Cell, bool>, c: Cell, w: int, h: int)
    requires IsAlive(m, c)
    requires forall d :: d != c ==> !IsAlive(m, d)
    ensures NextGen(m, w, h) == map[]
  {
    forall d ensures !IsAlive(NextGen(m, w, h), d) {
      LiveNeighboursIsCardinality(m, d);
      var live := set e | e in Neighbours(d) && IsAlive(m, e);
      assert live <= {c};
      assert |live| <= 1 by {
        if c in live { assert live == {c}; } else { assert live == {}; }
      }
    }
  }

  function Indicator(m: map<Cell, bool>, d: Cell): int {
    if IsAlive(m, d) then 1 else 0
  }

  lemma LiveCountSnoc(m: map<Cell, bool>, s: seq<Cell>, e: Cell)
    ensures LiveCount(m, s + [e]) == LiveCount(m, s) + Indicator(m, e)
  {
    assert (s + [e])[..|s|] == s;
  }

  /** The count of c written out over its eight neighbours. */
  lemma LiveNeighboursUnfolded(m: map<Cell, bool>, c: Cell)
    ensures LiveNeighbours(m, c) ==
      Indicator(m, Cell(c.x - 1, c.y - 1)) + Indicator(m, Cell(c.x - 1, c.y)) + Indicator(m, Cell(c.x - 1, c.y + 1)) +
      Indicator(m, Cell(c.x, c.y - 1)) + Indicator(m, Cell(c.x, c.y + 1)) +
      Indicator(m, Cell(c.x + 1, c.y - 1)) + Indicator(m, Cell(c.x + 1, c.y)) + Indicator(m, Cell(c.x + 1, c.y + 1))
  {
    var n := Neighbours(c);
    LiveCountSnoc(m, [], n[0]);
    assert [] + [n[0]] == n[..1];
    LiveCountSnoc(m, n[..1], n[1]);
    assert n[..1] + [n[1]] == n[..2];
    LiveCountSnoc(m, n[..2], n[2]);
    assert n[..2] + [n[2]] == n[..3];
    LiveCountSnoc(m, n[..3], n[3]);
    assert n[..3] + [n[3]] == n[..4];
    LiveCountSnoc(m, n[..4], n[4]);
    assert n[..4] + [n[4]] == n[..5];
    LiveCountSnoc(m, n[..5], n[5]);
    assert n[..5] + [n[5]] == n[..6];
    LiveCountSnoc(m, n[..6], n[6]);
    assert n[..6] + [n[6]] == n[..7];
    LiveCountSnoc(m, n[..7], n[7]);
    assert n[..7] + [n[7]] == n;
  }

  /** A vertical line of three cells centred on (cx, cy). */
  function Vertical(cx: int, cy: int): map<Cell, bool> {
    map[Cell(cx, cy - 1) := true, Cell(cx, cy) := true, Cell(cx, cy + 1) := true]
  }

  /** A horizontal line of three cells centred on (cx, cy). */
  function Horizontal(cx: int, cy: int): map<Cell, bool> {
    map[Cell(cx - 1, cy) := true, Cell(cx, cy) := true, Cell(cx + 1, cy) := true]
  }

  lemma VerticalAlive(cx: int, cy: int, d: Cell)
    ensures IsAlive(Vertical(cx, cy), d) <==> d.x == cx && cy - 1 <= d.y <= cy + 1
  {
  }

  lemma HorizontalAlive(cx: int, cy: int, d: Cell)
    ensures IsAlive(Horizontal(cx, cy), d) <==> d.y == cy && cx - 1 <= d.x <= cx + 1
  {
  }

  lemma VerticalTurnsHorizontalAt(cx: int, cy: int, w: int, h: int, c: Cell)
    requires 1 <= cx < w - 1 && 1 <= cy < h - 1
    ensures IsAlive(NextGen(Vertical(cx, cy), w, h), c) <==> IsAlive(Horizontal(cx, cy), c)
  {
    var v := Vertical(cx, cy);
    LiveNeighboursUnfolded(v, c);
    VerticalAlive(cx, cy, Cell(c.x - 1, c.y - 1));
    VerticalAlive(cx, cy, Cell(c.x - 1, c.y));
    VerticalAlive(cx, cy, Cell(c.x - 1, c.y + 1));
    VerticalAlive(cx, cy, Cell(c.x, c.y - 1));
    VerticalAlive(cx, cy, Cell(c.x, c.y + 1));
    VerticalAlive(cx, cy, Cell(c.x + 1, c.y - 1));
    VerticalAlive(cx, cy, Cell(c.x + 1, c.y));
    VerticalAlive(cx, cy, Cell(c.x + 1, c.y + 1));
    HorizontalAlive(cx, cy, c);
  }

  lemma HorizontalTurnsVerticalAt(cx: int, cy: int, w: int, h: int, c: Cell)
    requires 1 <= cx < w - 1 && 1 <= cy < h - 1
    ensures IsAlive(NextGen(Horizontal(cx, cy), w, h), c) <==> IsAlive(Vertical(cx, cy), c)
  {
    var hz := Horizontal(cx, cy);
    LiveNeighboursUnfolded(hz, c);
    HorizontalAlive(cx, cy, Cell(c.x - 1, c.y - 1));
    HorizontalAlive(cx, cy, Cell(c.x - 1, c.y));
    HorizontalAlive(cx, cy, Cell(c.x - 1, c.y + 1));
    HorizontalAlive(cx, cy, Cell(c.x, c.y - 1));
    HorizontalAlive(cx, cy, Cell(c.x, c.y + 1));
    HorizontalAlive(cx, cy, Cell(c.x + 1, c.y - 1));
    HorizontalAlive(cx, cy, Cell(c.x + 1, c.y));
    HorizontalAlive(cx, cy, Cell(c.x + 1, c.y + 1));
    VerticalAlive(cx, cy, c);
  }

  /** The blinker away from the domain edge: a vertical line turns
      horizontal and back again, so it has period 2. */
  lemma BlinkerHasPeriodTwo(cx: int, cy: int, w: int, h: int)
    requires 1 <= cx < w - 1 && 1 <= cy < h - 1
    ensures NextGen(Vertical(cx, cy), w, h) == Horizontal(cx, cy)
    ensures NextGen(NextGen(Vertical(cx, cy), w, h), w, h) == Vertical(cx, cy)
  {
    var v, hz := Vertical(cx, cy), Horizontal(cx, cy);
    forall c ensures IsAlive(NextGen(v, w, h), c) <==> IsAlive(hz, c) {
      VerticalTurnsHorizontalAt(cx, cy, w, h, c);
    }
    SameLiveCellsSameMap(NextGen(v, w, h), hz);
    forall c ensures IsAlive(NextGen(hz, w, h), c) <==> IsAlive(v, c) {
      HorizontalTurnsVerticalAt(cx, cy, w, h, c);
    }
    SameLiveCellsSameMap(NextGen(hz, w, h), v);
  }
}
