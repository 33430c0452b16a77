/** The per-frame controller of life/main.go (Game.Update): a mouse press
    toggles the cell under the cursor, C clears the grid, Space starts or
    pauses, and a running game steps at most once every 200 ms. */
module LifeGame {
  import opened LifeGrid
  import opened LifeInput

  /** Minimum time between two steps, in milliseconds. */
  const StepInterval: int := 200

  /** What the framework reports for one frame: the press durations, in
      frames, of the left mouse button, of C and of Space; the cursor
      position in pixels; and the clock, in milliseconds. */
  datatype Input = Input(mouseDuration: int, cDuration: int, spaceDuration: int,
                         cursorX: int, cursorY: int, now: int)

  /** The package-level state: the grid's cells, the run flag and the time
      of the last step. */
  datatype State = State(liveCells: map<Cell, bool>, start: bool, lastUpdatedTime: int)

  /** Go's integer division, which truncates toward zero: it agrees with
      Dafny's on a non-negative dividend. */
  function TruncDiv(a: int, b: int): (r: int)
    requires b > 0
    ensures 0 <= a ==> r == a / b
  {
    if a >= 0 then a / b else -((-a) / b)
  }

  /** Truncation is symmetric about zero: negating the dividend negates
      the quotient, which Dafny's own division does not do. */
  lemma TruncDivIsOdd(a: int, b: int)
    requires b > 0
    ensures TruncDiv(-a, b) == -TruncDiv(a, b)
  {
  }

  /** The cell under the cursor: pixel over cell size, with no origin
      offset and no bounds check. */
  function CursorCell(mx: int, my: int): (c: Cell)
    ensures 0 <= mx ==> CellSize * c.x <= mx < CellSize * (c.x + 1)
    ensures mx < 0 ==> CellSize * (c.x - 1) < mx <= CellSize * c.x
    ensures 0 <= my ==> CellSize * c.y <= my < CellSize * (c.y + 1)
    ensures my < 0 ==> CellSize * (c.y - 1) < my <= CellSize * c.y
  {
    Cell(TruncDiv(mx, CellSize), TruncDiv(my, CellSize))
  }

  /** `liveCells[c] = !liveCells[c]`: flips c and stores an entry for it
      even when that entry is false. */
  function Toggle(m: map<Cell, bool>, c: Cell): (r: map<Cell, bool>)
    ensures r.Keys == m.Keys + {c}
    ensures IsAlive(r, c) == !IsAlive(m, c)
    ensures forall d :: d != c ==> IsAlive(r, d) == IsAlive(m, d)
  {
    m[c := !IsAlive(m, c)]
  }

  /** The run flag after this frame's Space test. */
  function StartAfter(s: State, i: Input): bool {
    if RepeatPressed(i.spaceDuration) then !s.start else s.start
  }

  /** The frame reaches grid.update: no mouse press and no C fired, the game
      is running after the Space test, and 200 ms have passed. */
  predicate Steps(s: State, i: Input) {
    && !RepeatPressed(i.mouseDuration)
    && !RepeatPressed(i.cDuration)
    && StartAfter(s, i)
    && i.now - s.lastUpdatedTime >= StepInterval
  }

  /** One frame of Game.Update on the package-level state. */
  function Tick(s: State, i: Input): (t: State)
    ensures RepeatPressed(i.mouseDuration) ==>
      && t.start == s.start && t.lastUpdatedTime == s.lastUpdatedTime
      && (forall c :: IsAlive(t.liveCells, c) <==> (IsAlive(s.liveCells, c) != (c == CursorCell(i.cursorX, i.cursorY))))
    ensures !RepeatPressed(i.mouseDuration) && RepeatPressed(i.cDuration) ==>
      && t.start == s.start && t.lastUpdatedTime == s.lastUpdatedTime
      && NoneAlive(t.liveCells)
    ensures !RepeatPressed(i.mouseDuration) && !RepeatPressed(i.cDuration) ==>
      t.start == (s.start != RepeatPressed(i.spaceDuration))
    ensures Steps(s, i) ==>
      t.lastUpdatedTime == i.now && t.liveCells == NextGen(s.liveCells, ScreenWidth / CellSize, ScreenHeight / CellSize)
    ensures !RepeatPressed(i.mouseDuration) && !RepeatPressed(i.cDuration) && !Steps(s, i) ==>
      t.liveCells == s.liveCells && t.lastUpdatedTime == s.lastUpdatedTime
  {
    if RepeatPressed(i.mouseDuration) then
      s.(liveCells := Toggle(s.liveCells, CursorCell(i.cursorX, i.cursorY)))
    else if RepeatPressed(i.cDuration) then
      s.(liveCells := map[])
    else if !Steps(s, i) then
      s.(start := StartAfter(s, i))
    else
      State(NextGen(s.liveCells, ScreenWidth / CellSize, ScreenHeight / CellSize), StartAfter(s, i), i.now)
  }

  /** The program starts paused, with an empty grid. */
  function Initial(now: int): (s: State)
    ensures !s.start && NoneAlive(s.liveCells)
  {
    State(map[], false, now)
  }

  /** Toggling the same cell twice restores every cell's aliveness. */
  lemma ToggleTwiceRestores(m: map<Cell, bool>, c: Cell)
    ensures forall d :: IsAlive(Toggle(Toggle(m, c), c), d) == IsAlive(m, d)
  {
  }

  /** Two frames in which only Space fires give back the original run flag. */
  lemma SpaceTwiceRestoresStart(s: State, i1: Input, i2: Input)
    requires !RepeatPressed(i1.mouseDuration) && !RepeatPressed(i1.cDuration) && RepeatPressed(i1.spaceDuration)
    requires !RepeatPressed(i2.mouseDuration) && !RepeatPressed(i2.cDuration) && RepeatPressed(i2.spaceDuration)
    ensures Tick(Tick(s, i1), i2).start == s.start
  {
  }

  /** Two frames less than StepInterval apart step the grid at most once. */
  lemma AtMostOneStepPerInterval(s: State, i1: Input, i2: Input)
    requires i2.now - i1.now < StepInterval
    ensures !(Steps(s, i1) && Steps(Tick(s, i1), i2))
  {
  }

  /** While paused and Space is not pressed, no frame steps the grid. */
  lemma PausedNeverSteps(s: State, i: Input)
    requires !s.start && !RepeatPressed(i.spaceDuration)
    ensures !Steps(s, i)
    ensures !Tick(s, i).start
  {
  }

  /** Game.Update with the globals start, lastUpdatedTime and grid. */
  class Game {
    var start: bool
    var lastUpdatedTime: int
    const grid: Grid

    /** The package-level initialisers, with the clock read once at `now`. */
    constructor (now: int)
      ensures Current() == Initial(now)
      ensures fresh(grid)
    {
      start := false;
      lastUpdatedTime := now;
      grid := new Grid();
    }

    ghost function Current(): State
      reads this, grid
    {
      State(grid.liveCells, start, lastUpdatedTime)
    }

    method Update(input: Input)
      modifies this, grid
      ensures Current() == Tick(old(Current()), input)
    {
      var mx, my := input.cursorX, input.cursorY;

      var cx := TruncDiv(mx, grid.cellSize);
      var cy := TruncDiv(my, grid.cellSize);

      if RepeatPressed(input.mouseDuration) {
        var cell := Cell(cx, cy);
        grid.liveCells := grid.liveCells[cell := !IsAlive(grid.liveCells, cell)];
        return;
      }

      if RepeatPressed(input.cDuration) {
        grid.liveCells := map[];
        return;
      }

      if RepeatPressed(input.spaceDuration) {
        start := !start;
      }

      if !start {
        return;
      }

      var timeDelta := input.now - lastUpdatedTime;
      if timeDelta < StepInterval {
        return;
      } else {
        lastUpdatedTime := input.now;
      }

      grid.Update();
    }
  }
}
