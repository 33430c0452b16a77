/** dot/main.go: a point moved one pixel per frame by the arrow keys and
    kept inside the window by clamping. */
module Dot {

  const ScreenWidth: int := 640
  const ScreenHeight: int := 480
  const BlockSize: int := 3

  /** Largest coordinates the clamps allow: 637 and 477. */
  const MaxX: int := ScreenWidth - BlockSize
  const MaxY: int := ScreenHeight - BlockSize

  /** The keys Update tells apart; every other key is Other. */
  datatype Key = ArrowDown | ArrowUp | ArrowRight | ArrowLeft | Other

  datatype Pos = Pos(x: int, y: int)

  function Max(a: int, b: int): (r: int)
    ensures r >= a && r >= b
    ensures r == a || r == b
  {
    if a > b then a else b
  }

  function Min(a: int, b: int): (r: int)
    ensures r <= a && r <= b
    ensures r == a || r == b
  {
    if a < b then a else b
  }

  predicate InBounds(p: Pos) {
    0 <= p.x <= MaxX && 0 <= p.y <= MaxY
  }

  /** One iteration of the loop over the pressed keys. */
  function Step(p: Pos, key: Key): (q: Pos)
    ensures key.ArrowDown? ==> q.x == p.x && q.y == (if p.y < MaxY then p.y + 1 else MaxY)
    ensures key.ArrowUp? ==> q.x == p.x && q.y == (if p.y > 0 then p.y - 1 else 0)
    ensures key.ArrowRight? ==> q.y == p.y && q.x == (if p.x < MaxX then p.x + 1 else MaxX)
    ensures key.ArrowLeft? ==> q.y == p.y && q.x == (if p.x > 0 then p.x - 1 else 0)
    ensures key.Other? ==> q == p
  {
    match key
    case ArrowDown => p.(y := Min(ScreenHeight - BlockSize, p.y + 1))
    case ArrowUp => p.(y := Max(0, p.y - 1))
    case ArrowRight => p.(x := Min(ScreenWidth - BlockSize, p.x + 1))
    case ArrowLeft => p.(x := Max(0, p.x - 1))
    case Other => p
  }

  /** The position after the keys are processed in order. */
  function Walk(p: Pos, keys: seq<Key>): Pos {
    if keys == [] then p else Step(Walk(p, keys[..|keys| - 1]), keys[|keys| - 1])
  }

  /** A single key never leaves the window. */
  lemma StepStaysInBounds(p: Pos, key: Key)
    requires InBounds(p)
    ensures InBounds(Step(p, key))
  {
  }

  /** Any sequence of keys keeps an in-bounds point in bounds. */
  lemma {:induction false} WalkStaysInBounds(p: Pos, keys: seq<Key>)
    requires InBounds(p)
    ensures InBounds(Walk(p, keys))
  {
    if keys != [] {
      WalkStaysInBounds(p, keys[..|keys| - 1]);
      StepStaysInBounds(Walk(p, keys[..|keys| - 1]), keys[|keys| - 1]);
    }
  }

  /** From the initial (100, 100) the point stays inside the window
      whatever keys are pressed over any number of frames. */
  lemma ReachableInBounds(frames: seq<seq<Key>>)
    ensures InBounds(WalkFrames(Pos(100, 100), frames))
  {
    WalkFramesStaysInBounds(Pos(100, 100), frames);
  }

  /** The position after several frames, each with its own pressed keys. */
  function WalkFrames(p: Pos, frames: seq<seq<Key>>): Pos {
    if frames == [] then p else Walk(WalkFrames(p, frames[..|frames| - 1]), frames[|frames| - 1])
  }

  lemma {:induction false} WalkFramesStaysInBounds(p: Pos, frames: seq<seq<Key>>)
    requires InBounds(p)
    ensures InBounds(WalkFrames(p, frames))
  {
    if frames != [] {
      WalkFramesStaysInBounds(p, frames[..|frames| - 1]);
      WalkStaysInBounds(WalkFrames(p, frames[..|frames| - 1]), frames[|frames| - 1]);
    }
  }

  /** The package-level variables x and y, updated once per frame. */
  class Game {
    var x: int
    var y: int

    constructor ()
      ensures x == 100 && y == 100
    {
      x, y := 100, 100;
    }

    method Update(pressedKeys: seq<Key>)
      modifies this
      ensures Pos(x, y) == Walk(old(Pos(x, y)), pressedKeys)
      ensures old(InBounds(Pos(x, y))) ==> InBounds(Pos(x, y))
    {
      ghost var p := Pos(x, y);
      for i := 0 to |pressedKeys|
        invariant Pos(x, y) == Walk(p, pressedKeys[..i])
      {
        assert pressedKeys[..i + 1][..i] == pressedKeys[..i];
        match pressedKeys[i]
        case ArrowDown => y := Min(ScreenHeight - BlockSize, y + 1);
        case ArrowUp => y := Max(0, y - 1);
        case ArrowRight => x := Min(ScreenWidth - BlockSize, x + 1);
        case ArrowLeft => x := Max(0, x - 1);
        case Other =>
      }
      assert pressedKeys[..|pressedKeys|] == pressedKeys;
      if InBounds(p) {
        WalkStaysInBounds(p, pressedKeys);
      }
    }
  }
}
