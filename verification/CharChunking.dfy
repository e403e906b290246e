/**
 The newline-seeking character slider of app/domain/services/chunking_service.py.

 Starts can go negative when the overlap exceeds a window, and then Python's slice and rfind read
 them from the end of the string; the model keeps that reading.
 */
module CharChunking {
  import opened Numbers
  import opened Text
  import opened Chunks

  // ---------------------------------------------------------------- one turn of the loop

  /** Where the window that starts at `start` ends. */
  function End(content: string, size: int, start: int): int {
    var end := Min(start + size, |content|);
    if end < |content| then
      var newline := RFind(content, '\n', start, end);
      if newline > start then newline + 1 else end
    else end
  }

  /** Where the next window starts, guard included. */
  function Next(content: string, size: int, overlap: int, start: int): int {
    After(|content|, overlap, End(content, size, start))
  }

  function After(n: int, overlap: int, end: int): int {
    var next := if end < n then end - overlap else end;
    if next >= end then end else next
  }

  /** Turn k's start; a start at or past the end of the content means the loop is over. */
  function Orbit(content: string, size: int, overlap: int, k: nat): int {
    if k == 0 then 0
    else
      var start := Orbit(content, size, overlap, k - 1);
      if start < |content| then Next(content, size, overlap, start) else start
  }

  ghost predicate Terminates(content: string, size: int, overlap: int) {
    exists k: nat :: Orbit(content, size, overlap, k) >= |content|
  }

  /** The window at `x` stops before the end of the content. */
  predicate Inner(content: string, size: int, x: int) {
    x + size < |content|
  }

  // ---------------------------------------------------------------- windows at non-negative starts

  lemma {:induction false} EndBounds(content: string, size: int, x: nat)
    requires size >= 1 && x < |content|
    ensures x < End(content, size, x) <= Min(x + size, |content|)
    ensures Inner(content, size, x) <==> End(content, size, x) < |content|
  {}

  /**
   The window reaches the end of the content; or ends just after the last newline that comes after its
   first character; or, there being none, is full.
   */
  ghost predicate BreaksAfterLastNewline(content: string, size: int, start: nat, end: int) {
    if start + size >= |content| then end == |content|
    else
      && start < end <= start + size
      && (forall i :: end <= i < start + size ==> content[i] != '\n')
      && if exists i :: start < i < start + size && content[i] == '\n'
         then end - 1 > start && content[end - 1] == '\n'
         else end == start + size
  }

  lemma {:induction false} EndIsAfterLastNewline(content: string, size: int, start: nat)
    requires size >= 1 && start < |content|
    ensures BreaksAfterLastNewline(content, size, start, End(content, size, start))
  {
    if start + size < |content| {
      forall i: nat | start <= i < start + size && content[i] == '\n'
        ensures i <= LastIn(content, '\n', start, start + size)
      {
        LastInIsLast(content, '\n', start, start + size, i);
      }
      LastInIsLast(content, '\n', start, start + size, 0);
    }
  }

  /** A later start never ends earlier. */
  lemma {:induction false} EndMonotone(content: string, size: int, x: nat, y: nat)
    requires size >= 1 && x <= y < |content|
    ensures End(content, size, x) <= End(content, size, y)
  {
    EndBounds(content, size, x);
    EndBounds(content, size, y);
    if Inner(content, size, y) {
      var p, q := RFind(content, '\n', x, x + size), RFind(content, '\n', y, y + size);
      LastInIsLast(content, '\n', y, y + size, Max(0, p));
      LastInIsLast(content, '\n', x, x + size, Max(0, q));
      assert p > y ==> p <= q;
      assert y < q < x + size ==> q <= p;
    }
  }

  /** The next-start map is monotone on non-negative starts. */
  lemma {:induction false} NextMonotone(content: string, size: int, overlap: int, x: nat, y: nat)
    requires size >= 1 && x <= y < |content|
    ensures Next(content, size, overlap, x) <= Next(content, size, overlap, y)
  {
    EndMonotone(content, size, x, y);
  }

  /** A start the loop never leaves: an inner window exactly as long as the overlap. */
  predicate FixedPoint(content: string, size: int, overlap: int, x: int) {
    0 <= x && Inner(content, size, x) && End(content, size, x) - x == overlap
  }

  lemma {:induction false} FixedPointIsStuck(content: string, size: int, overlap: int, x: int)
    requires size >= 1 && FixedPoint(content, size, overlap, x)
    ensures Next(content, size, overlap, x) == x
  {
    EndBounds(content, size, x);
  }

  /** From `x` on, no position has an inner window exactly as long as the overlap. */
  ghost predicate NoFixedPointFrom(content: string, size: int, overlap: int, x: int) {
    forall y: int :: x <= y ==> !FixedPoint(content, size, overlap, y)
  }

  /** At `x` the loop is over or moves strictly forward. */
  predicate Advances(content: string, size: int, overlap: int, x: int) {
    x < |content| ==> x < Next(content, size, overlap, x)
  }

  /** Nothing stands in the way from `x` on. */
  ghost predicate Clear(content: string, size: int, overlap: int, x: int) {
    0 <= x && Advances(content, size, overlap, x) && NoFixedPointFrom(content, size, overlap, x)
  }

  /** By monotonicity, a loop that has moved forward once keeps moving forward. */
  lemma {:induction false} ClearStep(content: string, size: int, overlap: int, x: nat)
    requires size >= 1 && x < |content| && Clear(content, size, overlap, x)
    ensures x < Next(content, size, overlap, x) && Clear(content, size, overlap, Next(content, size, overlap, x))
  {
    var y := Next(content, size, overlap, x);
    if y < |content| {
      NextMonotone(content, size, overlap, x, y);
      EndBounds(content, size, y);
      assert !FixedPoint(content, size, overlap, y);
    }
  }

  /** From the start of the content: what that means for the first window. */
  lemma {:induction false} ClearFromStart(content: string, size: int, overlap: int)
    requires size >= 1 && content != ""
    ensures Clear(content, size, overlap, 0) <==>
            && (Inner(content, size, 0) ==> End(content, size, 0) >= overlap)
            && NoFixedPointFrom(content, size, overlap, 0)
  {
    EndBounds(content, size, 0);
    assert FixedPoint(content, size, overlap, 0) <==> Inner(content, size, 0) && End(content, size, 0) == overlap;
  }

  // ---------------------------------------------------------------- windows at negative starts

  /** No window that stops short of the content's length ends at it. */
  lemma {:induction false} EndBelow(content: string, size: int, x: int)
    requires Inner(content, size, x) && content != ""
    ensures End(content, size, x) < |content|
  {}

  /** At -1 Python searches an empty slice; not finding a newline is not "after" -1. */
  lemma {:induction false} FromMinusOne(content: string, size: int, overlap: int)
    requires 1 <= size < |content|
    ensures End(content, size, -1) == size - 1
    ensures Slice(content, -1, size - 1) == ""
    ensures Next(content, size, overlap, -1) == size - 1 - Max(0, overlap)
  {}

  /** Further left the same failure, -1, does count as after the start, and the window ends at 0. */
  lemma {:induction false} FromFurtherLeft(content: string, size: int, x: int)
    requires 1 <= size < |content| && -size <= x <= -2
    ensures End(content, size, x) == 0
  {}

  // ---------------------------------------------------------------- exactly when the loop ends

  /** Where the loop goes on after it has been at -1. */
  function Rebound(size: int, overlap: int): int { size - 1 - overlap }

  /** The first window is one short of the overlap, and from where the loop rebounds to all is clear. */
  ghost predicate Recovers(content: string, size: int, overlap: int) {
    && Inner(content, size, 0) && End(content, size, 0) == overlap - 1
    && Rebound(size, overlap) > 0 && Clear(content, size, overlap, Rebound(size, overlap))
  }

  ghost predicate Sound(content: string, size: int, overlap: int) {
    size >= 1 && Clear(content, size, overlap, 0)
  }

  /** The loop stands somewhere from which it will end. */
  ghost predicate Live(content: string, size: int, overlap: int, x: int) {
    && size >= 1
    && (Clear(content, size, overlap, x) || (Recovers(content, size, overlap) && (x == 0 || x == -1)))
  }

  ghost function Rank(content: string, size: int, overlap: int, x: int): nat {
    if Clear(content, size, overlap, x) then 0 else if x == -1 then 1 else 2
  }

  /** What is left to do, as a bound on the number of turns. */
  ghost function Left(content: string, size: int, overlap: int, x: int): nat {
    Max(0, if Rank(content, size, overlap, x) == 0 then |content| - x
           else |content| + Rank(content, size, overlap, x))
  }

  lemma {:induction false} RecoveryTurns(content: string, size: int, overlap: int)
    requires size >= 1 && Recovers(content, size, overlap)
    ensures size < |content| && 2 <= overlap < size
    ensures Next(content, size, overlap, 0) == -1
    ensures Next(content, size, overlap, -1) == Rebound(size, overlap)
    ensures !Clear(content, size, overlap, 0)
  {
    EndBounds(content, size, 0);
    FromMinusOne(content, size, overlap);
  }

  lemma {:induction false} LiveStep(content: string, size: int, overlap: int, x: int)
    requires Live(content, size, overlap, x) && x < |content|
    ensures var y := Next(content, size, overlap, x);
            Live(content, size, overlap, y) && Left(content, size, overlap, y) < Left(content, size, overlap, x)
  {
    if Clear(content, size, overlap, x) {
      ClearStep(content, size, overlap, x);
    } else {
      RecoveryTurns(content, size, overlap);
    }
  }

  lemma {:induction false} LiveEnds(content: string, size: int, overlap: int, k: nat)
    requires Live(content, size, overlap, 0) && content != ""
    ensures var x := Orbit(content, size, overlap, k);
            Live(content, size, overlap, x) && (x < |content| ==> Left(content, size, overlap, x) + k <= |content| + 2)
  {
    if k > 0 {
      LiveEnds(content, size, overlap, k - 1);
      var x := Orbit(content, size, overlap, k - 1);
      if x < |content| {
        LiveStep(content, size, overlap, x);
      }
    }
  }

  lemma {:induction false} LiveTerminates(content: string, size: int, overlap: int)
    requires Live(content, size, overlap, 0) && content != ""
    ensures Terminates(content, size, overlap)
  {
    var k := |content| + 3;
    LiveEnds(content, size, overlap, k);
    assert Orbit(content, size, overlap, k) >= |content|;
  }

  // ---------------------------------------------------------------- and when it does not

  lemma {:induction false} SmallSizeRunsForever(content: string, size: int, overlap: int, k: nat)
    requires size <= 0 && content != ""
    ensures Orbit(content, size, overlap, k) < |content|
  {
    if k > 0 {
      SmallSizeRunsForever(content, size, overlap, k - 1);
      EndBelow(content, size, Orbit(content, size, overlap, k - 1));
    }
  }

  /** An overlap beyond the window size: no start ever gets within one window of the end. */
  lemma {:induction false} LargeOverlapRunsForever(content: string, size: int, overlap: int, k: nat)
    requires 1 <= size < overlap && size < |content|
    ensures Orbit(content, size, overlap, k) < |content| - size
  {
    if k > 0 {
      LargeOverlapRunsForever(content, size, overlap, k - 1);
      EndBelow(content, size, Orbit(content, size, overlap, k - 1));
    }
  }

  /** A first window two or more short of the overlap: stuck at -overlap from the third turn on. */
  lemma {:induction false} FarShortRunsForever(content: string, size: int, overlap: int, k: nat)
    requires 1 <= size < |content| && overlap <= size && End(content, size, 0) <= overlap - 2
    ensures var x := Orbit(content, size, overlap, k); x == 0 || -overlap <= x <= -2
  {
    EndBounds(content, size, 0);
    if k > 0 {
      FarShortRunsForever(content, size, overlap, k - 1);
      var x := Orbit(content, size, overlap, k - 1);
      if x < 0 {
        FromFurtherLeft(content, size, x);
      }
    }
  }

  /** Below a start that does not advance, nothing gets past it. */
  ghost predicate Barrier(content: string, size: int, overlap: int, b: int) {
    && 0 <= b < |content| && Next(content, size, overlap, b) <= b
    && Next(content, size, overlap, 0) >= -1
    && (Next(content, size, overlap, 0) == -1 ==> Rebound(size, overlap) <= b)
  }

  lemma {:induction false} BarrierStep(content: string, size: int, overlap: int, b: int, x: int)
    requires 1 <= size < |content| && 1 <= overlap <= size && Barrier(content, size, overlap, b)
    requires 0 <= x <= b || (x == -1 && Next(content, size, overlap, 0) == -1)
    ensures var y := Next(content, size, overlap, x);
            0 <= y <= b || (y == -1 && Next(content, size, overlap, 0) == -1)
  {
    if x >= 0 {
      NextMonotone(content, size, overlap, 0, x);
      NextMonotone(content, size, overlap, x, b);
    } else {
      FromMinusOne(content, size, overlap);
    }
  }

  lemma {:induction false} BarrierHolds(content: string, size: int, overlap: int, b: int, k: nat)
    requires 1 <= size < |content| && 1 <= overlap <= size && Barrier(content, size, overlap, b)
    ensures var x := Orbit(content, size, overlap, k);
            0 <= x <= b || (x == -1 && Next(content, size, overlap, 0) == -1)
  {
    if k > 0 {
      BarrierHolds(content, size, overlap, b, k - 1);
      BarrierStep(content, size, overlap, b, Orbit(content, size, overlap, k - 1));
    }
  }

  /** If neither all is clear nor the loop recovers, there is a barrier. */
  lemma {:induction false} FindBarrier(content: string, size: int, overlap: int) returns (b: int)
    requires 1 <= size < |content| && 1 <= overlap <= size && End(content, size, 0) >= overlap - 1
    requires !Clear(content, size, overlap, 0) && !Recovers(content, size, overlap)
    ensures Barrier(content, size, overlap, b)
  {
    EndBounds(content, size, 0);
    ClearFromStart(content, size, overlap);
    var from := if End(content, size, 0) >= overlap then 0 else Max(0, Rebound(size, overlap));
    if Next(content, size, overlap, from) <= from {
      b := from;
    } else {
      assert !NoFixedPointFrom(content, size, overlap, from);
      b :| from <= b && FixedPoint(content, size, overlap, b);
      FixedPointIsStuck(content, size, overlap, b);
    }
  }

  lemma {:induction false} OneWindowIsClear(content: string, size: int, overlap: int)
    requires 1 <= |content| <= size
    ensures Clear(content, size, overlap, 0)
  {}

  lemma {:induction false} NotLiveRunsForever(content: string, size: int, overlap: int, k: nat)
    requires content != "" && !Live(content, size, overlap, 0)
    ensures Orbit(content, size, overlap, k) < |content|
  {
    if size <= 0 {
      SmallSizeRunsForever(content, size, overlap, k);
    } else if size < |content| {
      EndBounds(content, size, 0);
      if overlap > size {
        LargeOverlapRunsForever(content, size, overlap, k);
      } else if End(content, size, 0) <= overlap - 2 {
        FarShortRunsForever(content, size, overlap, k);
      } else {
        OverlapIsPositive(content, size, overlap);
        var b := FindBarrier(content, size, overlap);
        BarrierHolds(content, size, overlap, b, k);
      }
    } else {
      OneWindowIsClear(content, size, overlap);
    }
  }

  /** Without overlap there is nothing to check: every positive size is sound. */
  lemma {:induction false} NoOverlapIsSound(content: string, size: int, overlap: int)
    requires content != "" && size >= 1 && overlap <= 0
    ensures Sound(content, size, overlap)
  {
    EndBounds(content, size, 0);
    forall x: int ensures !FixedPoint(content, size, overlap, x) {
      if 0 <= x < |content| {
        EndBounds(content, size, x);
      }
    }
  }

  lemma {:induction false} OverlapIsPositive(content: string, size: int, overlap: int)
    requires content != "" && size >= 1 && !Clear(content, size, overlap, 0)
    ensures overlap >= 1
  {
    if overlap <= 0 {
      NoOverlapIsSound(content, size, overlap);
    }
  }

  /**
   Exact termination, for every content, size and overlap: the loop ends if and only if the size is
   positive and either the first window is not shorter than the overlap and no position of the
   content, reached or not, has an inner window exactly as long as the overlap; or the first window is
   exactly one character short of the overlap and the same holds from size - 1 - overlap on.
   */
  lemma {:induction false} TerminatesExactly(content: string, size: int, overlap: int)
    requires content != ""
    ensures Terminates(content, size, overlap) <==>
            size >= 1 && (Clear(content, size, overlap, 0) || Recovers(content, size, overlap))
  {
    if Live(content, size, overlap, 0) {
      LiveTerminates(content, size, overlap);
    } else {
      forall k: nat ensures Orbit(content, size, overlap, k) < |content| {
        NotLiveRunsForever(content, size, overlap, k);
      }
    }
  }

  // ---------------------------------------------------------------- the method and its windows

  function WindowOf(content: string, start: int, end: int): Window {
    var text := Slice(content, start, end);
    Window(text, start, end, Words(Strip(text)))
  }

  function WindowAt(content: string, size: int, x: int): Window { WindowOf(content, x, End(content, size, x)) }

  /** The windows of a run that stands at `x`. */
  ghost function WindowsFrom(content: string, size: int, overlap: int, x: int): seq<Window>
    requires Live(content, size, overlap, x)
    decreases Left(content, size, overlap, x)
  {
    if x >= |content| then []
    else
      LiveStep(content, size, overlap, x);
      [WindowAt(content, size, x)] + WindowsFrom(content, size, overlap, Next(content, size, overlap, x))
  }

  lemma {:induction false} NextWindow(content: string, size: int, overlap: int, x: int)
    requires Live(content, size, overlap, x) && x < |content|
    ensures var y := Next(content, size, overlap, x);
            && Live(content, size, overlap, y) && Left(content, size, overlap, y) < Left(content, size, overlap, x)
            && WindowsFrom(content, size, overlap, x) ==
               [WindowAt(content, size, x)] + WindowsFrom(content, size, overlap, y)
  {
    LiveStep(content, size, overlap, x);
  }

  ghost function AllWindows(content: string, size: int, overlap: int): seq<Window>
    requires Live(content, size, overlap, 0)
  {
    WindowsFrom(content, size, overlap, 0)
  }

  /** Defined on exactly the inputs on which the source returns. */
  method Chunk(content: string, size: int, overlap: int) returns (chunks: seq<ChunkData>)
    requires Blank(content) || Terminates(content, size, overlap)
    ensures Blank(content) ==> chunks == []
    ensures !Blank(content) ==> Live(content, size, overlap, 0) && chunks == Emit(AllWindows(content, size, overlap))
  {
    if Blank(content) {
      return [];
    }
    TerminatesExactly(content, size, overlap);
    chunks := Slide(content, size, overlap);
  }

  /** The while loop. */
  method Slide(content: string, size: int, overlap: int) returns (chunks: seq<ChunkData>)
    requires Live(content, size, overlap, 0)
    ensures chunks == Emit(AllWindows(content, size, overlap))
  {
    chunks := [];
    var start := 0;
    ghost var done: seq<Window> := [];
    ghost var todo := AllWindows(content, size, overlap);
    while start < |content|
      invariant Live(content, size, overlap, start)
      invariant todo == WindowsFrom(content, size, overlap, start)
      invariant done + todo == AllWindows(content, size, overlap)
      invariant chunks == Emit(done)
      decreases Left(content, size, overlap, start)
    {
      NextWindow(content, size, overlap, start);
      EmitAppend(done, todo[0]);
      Shift(done, todo);
      done, todo := done + [todo[0]], todo[1..];
      var end := FindEnd(content, size, start);
      chunks := Append(chunks, content, start, end);
      start := MoveOn(|content|, overlap, end);
    }
    assert done + [] == done;
  }

  lemma {:induction false} Shift(done: seq<Window>, todo: seq<Window>)
    requires todo != []
    ensures (done + [todo[0]]) + todo[1..] == done + todo
  {}

  /** Step back by the overlap unless this was the last window; the guard only catches overlap <= 0. */
  method MoveOn(n: int, overlap: int, end: int) returns (start: int)
    ensures start == After(n, overlap, end)
  {
    start := if end < n then end - overlap else end;
    if start >= end {
      start := end;
    }
  }

  /** Look backward from the full window for a newline to break after. */
  method FindEnd(content: string, size: int, start: int) returns (end: int)
    ensures end == End(content, size, start)
    ensures 0 <= start < |content| && size >= 1 ==> BreaksAfterLastNewline(content, size, start, end)
  {
    if 0 <= start < |content| && size >= 1 {
      EndIsAfterLastNewline(content, size, start);
    }
    end := Min(start + size, |content|);
    if end < |content| {
      var newline := RFind(content, '\n', start, end);
      if newline > start {
        end := newline + 1;
      }
    }
  }

  method Append(before: seq<ChunkData>, content: string, start: int, end: int) returns (chunks: seq<ChunkData>)
    ensures chunks == Add(before, WindowOf(content, start, end))
  {
    chunks := before;
    var chunkContent := Strip(Slice(content, start, end));
    if chunkContent != "" {
      chunks := chunks + [ChunkData(chunkContent, start, end, |chunks|, Words(chunkContent))];
    }
  }

  // ---------------------------------------------------------------- coverage

  ghost predicate Fits(content: string, size: int, w: Window) {
    && 0 <= w.start < w.end <= |content| && w.end - w.start <= size
    && w.text == content[w.start..w.end]
  }

  /** `w` starts `overlap` before the end of `v`, later than `v` does, and ends later. */
  ghost predicate Follows(overlap: int, v: Window, w: Window) {
    w.start == v.end - Max(0, overlap) && v.start < w.start && v.end < w.end
  }

  ghost predicate Linked(content: string, size: int, overlap: int, ws: seq<Window>) {
    && (forall k :: 0 <= k < |ws| ==> Fits(content, size, ws[k]))
    && (forall k :: 0 < k < |ws| ==> Follows(overlap, ws[k - 1], ws[k]))
  }

  lemma {:induction false} WindowsAreLinked(content: string, size: int, overlap: int, x: nat)
    requires size >= 1 && Clear(content, size, overlap, x) && x < |content|
    ensures var ws := WindowsFrom(content, size, overlap, x);
            ws != [] && ws[0] == WindowAt(content, size, x) &&
            Linked(content, size, overlap, ws) && ws[|ws| - 1].end == |content|
    decreases |content| - x
  {
    ClearStep(content, size, overlap, x);
    NextWindow(content, size, overlap, x);
    var w, y := WindowAt(content, size, x), Next(content, size, overlap, x);
    WindowFits(content, size, overlap, x);
    if y < |content| {
      WindowsAreLinked(content, size, overlap, y);
      NeighboursLink(content, size, overlap, x);
      LinkedCons(content, size, overlap, w, WindowsFrom(content, size, overlap, y));
    }
  }

  lemma {:induction false} WindowFits(content: string, size: int, overlap: int, x: nat)
    requires size >= 1 && x < |content|
    ensures Fits(content, size, WindowAt(content, size, x))
    ensures Next(content, size, overlap, x) >= |content| ==> End(content, size, x) == |content|
  {
    EndBounds(content, size, x);
  }

  lemma {:induction false} NeighboursLink(content: string, size: int, overlap: int, x: nat)
    requires size >= 1 && x < |content|
    requires var y := Next(content, size, overlap, x); x < y < |content| && y < Next(content, size, overlap, y)
    ensures Follows(overlap, WindowAt(content, size, x), WindowAt(content, size, Next(content, size, overlap, x)))
  {
    EndBounds(content, size, x);
    EndBounds(content, size, Next(content, size, overlap, x));
  }

  lemma {:induction false} LinkedCons(content: string, size: int, overlap: int, w: Window, rest: seq<Window>)
    requires Linked(content, size, overlap, rest) && Fits(content, size, w) && rest != []
    requires Follows(overlap, w, rest[0])
    ensures Linked(content, size, overlap, [w] + rest)
  {
    var ws := [w] + rest;
    forall k | 0 <= k < |ws| ensures Fits(content, size, ws[k]) {
      if k > 0 {
        assert Fits(content, size, rest[k - 1]);
      }
    }
    forall k | 0 < k < |ws| ensures Follows(overlap, ws[k - 1], ws[k]) {
      if k > 1 {
        assert Follows(overlap, rest[k - 2], rest[k - 1]);
      }
    }
  }

  /** The windows run over the whole content without a gap, each at most `size` long. */
  lemma {:induction false} WindowsCover(content: string, size: int, overlap: int)
    requires content != "" && Sound(content, size, overlap)
    ensures Linked(content, size, overlap, AllWindows(content, size, overlap))
    ensures Covers(content, AllWindows(content, size, overlap))
  {
    WindowsAreLinked(content, size, overlap, 0);
  }

  /** The first window followed by each later one without what it shares with the one before. */
  function Stitched(overlap: int, ws: seq<Window>): string {
    if ws == [] then ""
    else if |ws| == 1 then ws[0].text
    else
      var w := ws[|ws| - 1];
      Stitched(overlap, ws[..|ws| - 1]) + Slice(w.text, Max(0, overlap), |w.text|)
  }

  lemma {:induction false} StitchedPrefix(content: string, size: int, overlap: int, ws: seq<Window>)
    requires Linked(content, size, overlap, ws) && ws != [] && ws[0].start == 0
    ensures Stitched(overlap, ws) == content[..ws[|ws| - 1].end]
  {
    if |ws| > 1 {
      StitchedPrefix(content, size, overlap, ws[..|ws| - 1]);
      StitchedStep(content, size, overlap, ws);
    }
  }

  lemma {:induction false} StitchedStep(content: string, size: int, overlap: int, ws: seq<Window>)
    requires Linked(content, size, overlap, ws) && |ws| > 1
    requires Stitched(overlap, ws[..|ws| - 1]) == content[..ws[|ws| - 2].end]
    ensures Stitched(overlap, ws) == content[..ws[|ws| - 1].end]
  {
    NewPart(content, ws[|ws| - 1], Max(0, overlap), ws[|ws| - 2].end);
  }

  /** What a window adds to the content before `e`, of which it repeats the last `v` characters. */
  lemma {:induction false} NewPart(content: string, w: Window, v: nat, e: nat)
    requires 0 <= w.start <= w.end <= |content| && w.text == content[w.start..w.end] && w.start == e - v && e <= w.end
    ensures content[..e] + Slice(w.text, v, |w.text|) == content[..w.end]
  {
    assert Slice(w.text, v, |w.text|) == content[e..w.end];
  }

  /** Stitching gives the content back; without overlap that is plain concatenation: the windows tile. */
  lemma {:induction false} StitchingGivesBackContent(content: string, size: int, overlap: int)
    requires content != "" && Sound(content, size, overlap)
    ensures Stitched(overlap, AllWindows(content, size, overlap)) == content
  {
    var ws := AllWindows(content, size, overlap);
    assert Linked(content, size, overlap, ws) && ws != [] && ws[0].start == 0 && ws[|ws| - 1].end == |content| by {
      WindowsCover(content, size, overlap);
    }
    StitchedPrefix(content, size, overlap, ws);
    assert content[..|content|] == content;
  }

  lemma {:induction false} LinkedEnds(content: string, size: int, overlap: int, ws: seq<Window>, j: nat, k: nat)
    requires Linked(content, size, overlap, ws) && j < k < |ws|
    ensures ws[j].end < ws[k].end
  {
    assert ws[k - 1].end < ws[k].end;
    if j < k - 1 {
      LinkedEnds(content, size, overlap, ws, j, k - 1);
    }
  }

  // ---------------------------------------------------------------- what is lost

  ghost predicate Seen(content: string, ws: seq<Window>, p: int) {
    exists k :: 0 <= k < |ws| && Within(content, ws[k], p)
  }

  lemma {:induction false} LinkedSees(content: string, size: int, overlap: int, ws: seq<Window>, p: nat, k: nat)
    requires Linked(content, size, overlap, ws) && k < |ws| && ws[0].start <= p < ws[k].end
    ensures Seen(content, ws, p)
  {
    if ws[k].start <= p {
      assert Fits(content, size, ws[k]) && Within(content, ws[k], p);
    } else {
      LinkedSees(content, size, overlap, ws, p, k - 1);
    }
  }

  lemma {:induction false} LinkedStarts(content: string, size: int, overlap: int, ws: seq<Window>, k: nat)
    requires Linked(content, size, overlap, ws) && k < |ws|
    ensures ws[0].start <= ws[k].start
  {
    if k > 0 {
      LinkedStarts(content, size, overlap, ws, k - 1);
    }
  }

  /** Linked windows that reach the end see exactly what lies from their first start on. */
  lemma {:induction false} LinkedSeen(content: string, size: int, overlap: int, ws: seq<Window>, p: nat)
    requires Linked(content, size, overlap, ws) && ws != [] && ws[|ws| - 1].end == |content| && p < |content|
    ensures Seen(content, ws, p) <==> ws[0].start <= p
  {
    if ws[0].start <= p {
      LinkedSees(content, size, overlap, ws, p, |ws| - 1);
    }
    forall k | 0 <= k < |ws| ensures Within(content, ws[k], p) ==> ws[0].start <= p {
      LinkedStarts(content, size, overlap, ws, k);
      assert Fits(content, size, ws[k]);
    }
  }

  lemma {:induction false} SeenFrom(content: string, size: int, overlap: int, x: nat, p: nat)
    requires size >= 1 && Clear(content, size, overlap, x) && x < |content| && p < |content|
    ensures Seen(content, WindowsFrom(content, size, overlap, x), p) <==> x <= p
  {
    WindowsAreLinked(content, size, overlap, x);
    LinkedSeen(content, size, overlap, WindowsFrom(content, size, overlap, x), p);
  }

  /** A run that recovers takes its first window, an empty one, and then those from the rebound on. */
  lemma {:induction false} RecoveryWindows(content: string, size: int, overlap: int)
    requires size >= 1 && Recovers(content, size, overlap)
    ensures var first, empty := WindowAt(content, size, 0), WindowAt(content, size, -1);
            AllWindows(content, size, overlap) ==
            [first] + ([empty] + WindowsFrom(content, size, overlap, Rebound(size, overlap)))
  {
    RecoveryTurns(content, size, overlap);
    NextWindow(content, size, overlap, 0);
    NextWindow(content, size, overlap, -1);
  }

  lemma {:induction false} RecoveryHolds(content: string, size: int, overlap: int, p: int)
    requires size >= 1 && Recovers(content, size, overlap)
    ensures Within(content, WindowAt(content, size, 0), p) <==> 0 <= p < overlap - 1
    ensures !Within(content, WindowAt(content, size, -1), p)
  {
    RecoveryTurns(content, size, overlap);
    FromMinusOne(content, size, overlap);
  }

  lemma {:induction false} SeenCons(content: string, w: Window, rest: seq<Window>, p: int)
    ensures Seen(content, [w] + rest, p) <==> Within(content, w, p) || Seen(content, rest, p)
  {
    var ws := [w] + rest;
    if Within(content, w, p) {
      assert Within(content, ws[0], p);
    }
    if Seen(content, rest, p) {
      var k :| 0 <= k < |rest| && Within(content, rest[k], p);
      assert ws[k + 1] == rest[k];
    }
  }

  /** Between the first window and the rebound of a run that recovers. */
  ghost predicate Lost(content: string, size: int, overlap: int, p: int) {
    Recovers(content, size, overlap) && overlap - 1 <= p < Rebound(size, overlap)
  }


  /** Exact coverage, for every run that ends: a position is in some window unless it is lost. */
  lemma {:induction false} LostExactly(content: string, size: int, overlap: int, p: nat)
    requires content != "" && Terminates(content, size, overlap) && p < |content|
    ensures Live(content, size, overlap, 0)
    ensures Seen(content, AllWindows(content, size, overlap), p) <==> !Lost(content, size, overlap, p)
  {
    TerminatesExactly(content, size, overlap);
    if Clear(content, size, overlap, 0) {
      SeenFrom(content, size, overlap, 0, p);
      if Recovers(content, size, overlap) {
        RecoveryTurns(content, size, overlap);
      }
    } else {
      var x := Rebound(size, overlap);
      RecoveryTurns(content, size, overlap);
      RecoveryWindows(content, size, overlap);
      RecoveryHolds(content, size, overlap, p);
      SeenFrom(content, size, overlap, x, p);
      var first, empty := WindowAt(content, size, 0), WindowAt(content, size, -1);
      var later := WindowsFrom(content, size, overlap, x);
      SeenCons(content, empty, later, p);
      SeenCons(content, first, [empty] + later, p);
    }
  }

  /** So nothing is lost exactly when the run needs no recovery or the size is at most twice the overlap. */
  lemma {:induction false} NothingLostExactly(content: string, size: int, overlap: int)
    requires content != "" && Terminates(content, size, overlap)
    ensures Live(content, size, overlap, 0)
    ensures (forall p :: 0 <= p < |content| ==> Seen(content, AllWindows(content, size, overlap), p)) <==>
            !(Recovers(content, size, overlap) && size > 2 * overlap)
  {
    TerminatesExactly(content, size, overlap);
    if Recovers(content, size, overlap) && size > 2 * overlap {
      RecoveryTurns(content, size, overlap);
      LostExactly(content, size, overlap, overlap - 1);
    } else {
      forall p | 0 <= p < |content| ensures Seen(content, AllWindows(content, size, overlap), p) {
        LostExactly(content, size, overlap, p);
      }
    }
  }

  // ---------------------------------------------------------------- the chunker as a whole

  /** Windows take the slices they say they take, and the non-blank ones end later and later. */
  ghost predicate InSequence(content: string, ws: seq<Window>) {
    && AllPlaced(content, ws)
    && forall j, k :: 0 <= j < k < |ws| && ws[j].text != "" && ws[k].text != "" ==> ws[j].end < ws[k].end
  }

  lemma {:induction false} LinkedInSequence(content: string, size: int, overlap: int, ws: seq<Window>)
    requires Linked(content, size, overlap, ws)
    ensures InSequence(content, ws)
  {
    forall j, k | 0 <= j < k < |ws| ensures ws[j].end < ws[k].end {
      LinkedEnds(content, size, overlap, ws, j, k);
    }
    forall k | 0 <= k < |ws| ensures Placed(content, ws[k]) {
      assert Fits(content, size, ws[k]);
    }
  }

  lemma {:induction false} InSequenceCons(content: string, w: Window, rest: seq<Window>)
    requires InSequence(content, rest) && Placed(content, w)
    requires w.text == "" || forall k :: 0 <= k < |rest| && rest[k].text != "" ==> w.end < rest[k].end
    ensures InSequence(content, [w] + rest)
  {
    var ws := [w] + rest;
    forall k | 0 <= k < |ws| ensures Placed(content, ws[k]) {
      assert k > 0 ==> ws[k] == rest[k - 1];
    }
    forall j, k | 0 <= j < k < |ws| && ws[j].text != "" && ws[k].text != "" ensures ws[j].end < ws[k].end {
      assert ws[k] == rest[k - 1];
      assert j > 0 ==> ws[j] == rest[j - 1];
    }
  }

  /** After a rebound every window ends beyond the first one. */
  lemma {:induction false} ReboundEndsLater(content: string, size: int, overlap: int)
    requires size >= 1 && Recovers(content, size, overlap)
    ensures var later := WindowsFrom(content, size, overlap, Rebound(size, overlap));
            forall k :: 0 <= k < |later| ==> overlap - 1 < later[k].end
  {
    var x := Rebound(size, overlap);
    var later := WindowsFrom(content, size, overlap, x);
    RecoveryTurns(content, size, overlap);
    WindowsAreLinked(content, size, overlap, x);
    EndBounds(content, size, x);
    forall k | 0 < k < |later| ensures later[0].end < later[k].end {
      LinkedEnds(content, size, overlap, later, 0, k);
    }
  }

  lemma {:induction false} RecoveryInSequence(content: string, size: int, overlap: int)
    requires size >= 1 && Recovers(content, size, overlap)
    ensures InSequence(content, AllWindows(content, size, overlap))
  {
    var x := Rebound(size, overlap);
    var first, empty := WindowAt(content, size, 0), WindowAt(content, size, -1);
    var later := WindowsFrom(content, size, overlap, x);
    RecoveryTurns(content, size, overlap);
    RecoveryWindows(content, size, overlap);
    FromMinusOne(content, size, overlap);
    WindowsAreLinked(content, size, overlap, x);
    LinkedInSequence(content, size, overlap, later);
    InSequenceCons(content, empty, later);
    WindowFits(content, size, overlap, 0);
    ReboundEndsLater(content, size, overlap);
    var rest := [empty] + later;
    forall k | 0 <= k < |rest| && rest[k].text != "" ensures first.end < rest[k].end {
      assert rest[k] == later[k - 1];
    }
    InSequenceCons(content, first, rest);
  }

  lemma {:induction false} RunInSequence(content: string, size: int, overlap: int)
    requires content != "" && Live(content, size, overlap, 0)
    ensures InSequence(content, AllWindows(content, size, overlap))
  {
    if Clear(content, size, overlap, 0) {
      WindowsAreLinked(content, size, overlap, 0);
      LinkedInSequence(content, size, overlap, AllWindows(content, size, overlap));
    } else {
      RecoveryInSequence(content, size, overlap);
    }
  }

  /** On every run that ends, chunks end strictly later, one after the other. */
  lemma {:induction false} ChunkEndsIncrease(content: string, size: int, overlap: int)
    requires content != "" && Terminates(content, size, overlap)
    ensures Live(content, size, overlap, 0)
    ensures var chunks := Emit(AllWindows(content, size, overlap));
            forall i, j :: 0 <= i < j < |chunks| ==> chunks[i].endChar < chunks[j].endChar
  {
    TerminatesExactly(content, size, overlap);
    var ws := AllWindows(content, size, overlap);
    RunInSequence(content, size, overlap);
    KeptIncreases(ws);
    EmitIsKept(ws);
    forall i, j | 0 <= i < j < |Emit(ws)| ensures Emit(ws)[i].endChar < Emit(ws)[j].endChar {
      var a, b := Kept(ws)[i], Kept(ws)[j];
      assert ws[a].text != "" && ws[b].text != "";
    }
  }

  lemma {:induction false} WindowsCountWords(content: string, size: int, overlap: int, x: int, k: nat)
    requires Live(content, size, overlap, x) && k < |WindowsFrom(content, size, overlap, x)|
    ensures var w := WindowsFrom(content, size, overlap, x)[k]; w.tokens == Words(Strip(w.text))
    decreases k
  {
    NextWindow(content, size, overlap, x);
    if k > 0 {
      WindowsCountWords(content, size, overlap, Next(content, size, overlap, x), k - 1);
    }
  }

  lemma {:induction false} ChunkCountsWords(content: string, size: int, overlap: int, i: nat)
    requires Live(content, size, overlap, 0) && i < |Emit(AllWindows(content, size, overlap))|
    ensures var c := Emit(AllWindows(content, size, overlap))[i]; c.tokenCount == |WordStarts(c.content)|
  {
    var ws := AllWindows(content, size, overlap);
    EmitIsKept(ws);
    KeptIncreases(ws);
    WindowsCountWords(content, size, overlap, 0, Kept(ws)[i]);
    WordsAreCounted(Emit(ws)[i].content);
  }

  /**
   The chunker as a whole, on every run that ends: chunks are numbered, each is the stripped slice it
   claims to be with its number of words, a non-whitespace character is in some chunk exactly when it is
   not lost, and there are no chunks exactly when all of them are.
   */
  lemma {:induction false} ChunkerIsExact(content: string, size: int, overlap: int)
    requires content != "" && Terminates(content, size, overlap)
    ensures Live(content, size, overlap, 0)
    ensures var chunks := Emit(AllWindows(content, size, overlap));
            && (forall i :: 0 <= i < |chunks| ==>
                  && chunks[i].chunkIndex == i
                  && 0 <= chunks[i].startChar <= chunks[i].endChar <= |content|
                  && chunks[i].content == Strip(content[chunks[i].startChar..chunks[i].endChar])
                  && chunks[i].tokenCount == |WordStarts(chunks[i].content)|)
            && (forall p :: 0 <= p < |content| && !IsSpace(content[p]) ==>
                  ((exists c :: c in chunks && Keeps(content, c, p)) <==> !Lost(content, size, overlap, p)))
            && (chunks == [] <==>
                forall p :: 0 <= p < |content| && !IsSpace(content[p]) ==> Lost(content, size, overlap, p))
  {
    TerminatesExactly(content, size, overlap);
    var ws := AllWindows(content, size, overlap);
    var chunks := Emit(ws);
    RunInSequence(content, size, overlap);
    forall i | 0 <= i < |chunks|
      ensures && chunks[i].chunkIndex == i
              && 0 <= chunks[i].startChar <= chunks[i].endChar <= |content|
              && chunks[i].content == Strip(content[chunks[i].startChar..chunks[i].endChar])
              && chunks[i].tokenCount == |WordStarts(chunks[i].content)|
    {
      ChunksAreSound(content, ws, i);
      ChunkCountsWords(content, size, overlap, i);
    }
    forall p | 0 <= p < |content| && !IsSpace(content[p])
      ensures (exists c :: c in chunks && Keeps(content, c, p)) <==> !Lost(content, size, overlap, p)
    {
      KeptExactly(content, ws, p);
      LostExactly(content, size, overlap, p);
    }
    if chunks != [] {
      var p := ChunkKeepsSomething(content, ws, 0);
    }
  }

  /** A concrete case: the letter after the first line is in no window. */
  lemma {:induction false} LosesALetter()
    ensures var c := "a\nXbbbbbb";
            Terminates(c, 7, 3) && Live(c, 7, 3, 0) && !Seen(c, AllWindows(c, 7, 3), 2)
  {
    var c := "a\nXbbbbbb";
    assert LastIn(c, '\n', 0, 2) == 1;
    assert LastIn(c, '\n', 0, 7) == 1;
    assert End(c, 7, 0) == 2;
    assert Next(c, 7, 3, 3) == 9;
    assert Recovers(c, 7, 3);
    TerminatesExactly(c, 7, 3);
    LostExactly(c, 7, 3, 2);
  }
}
