/** Files of FXSlideShow: a list of file names with a position that may wrap around. */
module FileCursor {
  import opened Wire
  import opened Arithmetic

  /** The list with the position in it. */
  datatype Cursor = Cursor(files: seq<string>, at: nat, loop: bool)

  predicate IsCursor(c: Cursor) {
    c.at < |c.files|
  }

  /** The position after and before the current one, -1 if there is none. */
  function NextOf(c: Cursor): int {
    if c.at + 1 < |c.files| then c.at + 1 else if c.loop then 0 else -1
  }

  function PrevOf(c: Cursor): int {
    if c.at > 0 then c.at - 1 else if c.loop then |c.files| - 1 else -1
  }

  function Target(c: Cursor, forward: bool): int {
    if forward then NextOf(c) else PrevOf(c)
  }

  function Moved(c: Cursor, forward: bool): Cursor
    requires IsCursor(c)
  {
    if Target(c, forward) < 0 then c else c.(at := Target(c, forward))
  }

  function MovedAll(c: Cursor, moves: seq<bool>): (r: Cursor)
    requires IsCursor(c)
    ensures IsCursor(r) && r.files == c.files && r.loop == c.loop
  {
    if |moves| == 0 then c else Moved(MovedAll(c, moves[..|moves| - 1]), moves[|moves| - 1])
  }

  /** How far a run of moves goes, if nothing stops it. */
  function Net(moves: seq<bool>): int {
    if |moves| == 0 then 0 else Net(moves[..|moves| - 1]) + if moves[|moves| - 1] then 1 else -1
  }

  lemma ModStep(x: int, d: int, n: nat)
    requires n > 0
    ensures (x % n + d) % n == (x + d) % n
  {
    var q, r := x / n, x % n;
    assert x + d == q * n + (r + d);
    ModOfSum(q, r + d, n);
  }

  lemma {:induction false} ModOfSum(q: int, y: int, n: nat)
    requires n > 0
    ensures (q * n + y) % n == y % n
    decreases if q < 0 then -q else q
  {
    if q > 0 {
      ModOfSum(q - 1, y, n);
      ModPlus((q - 1) * n + y, n);
      assert q * n + y == (q - 1) * n + y + n;
    } else if q < 0 {
      ModOfSum(q + 1, y, n);
      ModPlus(q * n + y, n);
      assert (q + 1) * n + y == q * n + y + n;
    }
  }

  lemma ModPlus(z: int, n: nat)
    requires n > 0
    ensures (z + n) % n == z % n
  {
    DivMod(z + n, z / n + 1, z % n, n);
  }

  /** In loop mode any moves forward and back end at the net distance, around the list. */
  lemma {:induction false} LoopPosition(c: Cursor, moves: seq<bool>)
    requires IsCursor(c) && c.loop
    ensures MovedAll(c, moves).at == (c.at + Net(moves)) % |c.files|
    decreases |moves|
  {
    hide Moved;
    var n := |c.files|;
    if |moves| == 0 {
      DivMod(c.at, 0, c.at, n);
    } else {
      var front, last := moves[..|moves| - 1], moves[|moves| - 1];
      LoopPosition(c, front);
      LoopStep(MovedAll(c, front), last);
      ModStep(c.at + Net(front), if last then 1 else -1, n);
    }
  }

  lemma LoopStep(c: Cursor, forward: bool)
    requires IsCursor(c) && c.loop
    ensures Moved(c, forward).at == (c.at + if forward then 1 else -1) % |c.files|
  {
    var n := |c.files|;
    var to := Moved(c, forward).at;
    if forward {
      DivMod(c.at + 1, if to == 0 then 1 else 0, to, n);
    } else {
      DivMod(c.at - 1, if to == n - 1 && c.at == 0 then -1 else 0, to, n);
    }
  }

  /** A move can be taken back, if and only if it was one. */
  lemma ThereAndBack(c: Cursor, forward: bool)
    requires IsCursor(c)
    ensures Moved(Moved(c, forward), !forward) == c <==> Target(c, forward) >= 0 || |c.files| == 1
  {
  }

  class Files {
    const theFiles: seq<string>
    var prev: int
    var current: int
    var next: int
    var loop: bool

    constructor (theFiles: seq<string>)
      ensures this.theFiles == theFiles && current == 0 && !loop
    {
      this.theFiles := theFiles;
      prev, current, next, loop := -1, 0, 1, false;
    }

    ghost function At(): Cursor
      reads this
      requires current >= 0
    {
      Cursor(theFiles, current, loop)
    }

    /** The position is in the list, and its neighbours are known. */
    ghost predicate Valid()
      reads this
    {
      0 <= current < |theFiles| && next == NextOf(At()) && prev == PrevOf(At())
    }

    function Url(i: int): (r: Option<string>)
      ensures 0 <= i < |theFiles| ==> r == Some(theFiles[i])
    {
      if 0 <= i < |theFiles| then Some(theFiles[i]) else None
    }

    method CurrentFilePath() returns (r: string)
      requires Valid()
      ensures r == theFiles[current]
    {
      r := theFiles[current];
    }

    method NextFilePath() returns (r: Option<string>)
      requires Valid()
      ensures r == Url(NextOf(At()))
    {
      r := if next >= 0 then Some(theFiles[next]) else None;
    }

    method PrevFilePath() returns (r: Option<string>)
      requires Valid()
      ensures r == Url(PrevOf(At()))
    {
      r := if prev >= 0 then Some(theFiles[prev]) else None;
    }

    method GetPrev() returns (p: int)
      requires 0 <= current < |theFiles|
      ensures p == PrevOf(At())
    {
      p := current - 1;
      if p < 0 {
        p := if loop then |theFiles| - 1 else -1;
      }
    }

    method GetNext() returns (n: int)
      requires 0 <= current < |theFiles|
      ensures n == NextOf(At())
    {
      n := current + 1;
      if n >= |theFiles| {
        n := if loop then 0 else -1;
      }
    }

    method Next() returns (moved: bool)
      requires Valid()
      modifies this
      ensures Valid() && At() == Moved(old(At()), true) && moved == (NextOf(old(At())) >= 0)
    {
      if current + 1 < |theFiles| {
        current := current + 1;
      } else if loop {
        current := 0;
      } else {
        return false;
      }
      next := GetNext();
      prev := GetPrev();
      return true;
    }

    method Previous() returns (moved: bool)
      requires Valid()
      modifies this
      ensures Valid() && At() == Moved(old(At()), false) && moved == (PrevOf(old(At())) >= 0)
    {
      if current > 0 {
        current := current - 1;
      } else if loop {
        current := |theFiles| - 1;
      } else {
        return false;
      }
      next := GetNext();
      prev := GetPrev();
      return true;
    }

    method SetLoop(loop: bool)
      requires 0 <= current < |theFiles|
      modifies this
      ensures Valid() && At() == old(At()).(loop := loop)
    {
      this.loop := loop;
      prev := GetPrev();
      next := GetNext();
    }
  }
}
