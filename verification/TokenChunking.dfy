/**
 The token-window slider of app/domain/services/token_aware_chunking.py.

 The tokenizer is a pair of functions handed in from outside; nothing is assumed about it except
 where a lemma says so.
 */
module TokenChunking {
  import opened Options
  import opened Numbers
  import opened Text
  import opened Chunks

  type Token = int

  const MAX_TOKENS := 8000

  // ---------------------------------------------------------------- the loop, one turn at a time

  function Size(chunkSize: int): int { Min(chunkSize, MAX_TOKENS) }

  function Overlap(chunkSize: int, chunkOverlap: int): int { Min(chunkOverlap, Size(chunkSize) / 2) }

  function Turn(n: int, size: int, overlap: int, start: int): Option<int> {
    var end := Min(start + size, n);
    if end >= n then None
    else if end - overlap >= end then Some(end) else Some(end - overlap)
  }

  /** Where turn `k` of the loop starts, or None once the loop has ended. */
  function Orbit(n: int, size: int, overlap: int, k: nat): Option<int> {
    if k == 0 then (if 0 < n then Some(0) else None)
    else
      match Orbit(n, size, overlap, k - 1)
      case None => None
      case Some(start) => Turn(n, size, overlap, start)
  }

  // ---------------------------------------------------------------- closed form

  /** How far consecutive windows really overlap: a negative setting behaves like zero. */
  function Shared(chunkSize: int, chunkOverlap: int): (v: nat)
    requires chunkSize >= 1
    ensures 2 * v <= Size(chunkSize)
  {
    Max(0, Overlap(chunkSize, chunkOverlap))
  }

  function Stride(chunkSize: int, chunkOverlap: int): (d: nat)
    requires chunkSize >= 1
    ensures 1 <= d <= Size(chunkSize) <= 2 * d
  {
    Size(chunkSize) - Shared(chunkSize, chunkOverlap)
  }

  /** The slider's settings once clamped: windows of `size`, each starting `stride` after the last. */
  ghost predicate Settings(size: nat, stride: nat) {
    1 <= stride <= size <= 2 * stride
  }

  function Start(stride: nat, k: nat): nat { if k == 0 then 0 else Start(stride, k - 1) + stride }

  function End(n: nat, size: nat, stride: nat, k: nat): nat { Min(Start(stride, k) + size, n) }

  /** The number of windows: one if everything fits in one, else one more than without the first stride. */
  function Windows(n: int, size: nat, stride: nat): (m: nat)
    ensures m >= 1
    decreases n
  {
    if n <= size || stride == 0 then 1 else 1 + Windows(n - stride, size, stride)
  }

  lemma {:induction false} MulLe(a: nat, b: nat, d: nat)
    requires a <= b
    ensures a * d <= b * d
  {}

  lemma {:induction false} LessFromMul(a: nat, b: nat, d: nat)
    requires a * d < b * d
    ensures a < b
  {
    if b <= a {
      MulLe(b, a, d);
    }
  }

  lemma {:induction false} StartIsProduct(stride: nat, k: nat)
    ensures Start(stride, k) == k * stride
  {
    if k > 0 {
      StartIsProduct(stride, k - 1);
      assert k * stride == (k - 1) * stride + stride;
    }
  }

  /** The last window is the first that reaches the end. */
  lemma {:induction false} WindowsReachEnd(n: nat, size: nat, stride: nat, k: nat)
    requires Settings(size, stride) && k < Windows(n, size, stride)
    ensures Start(stride, k) + size >= n <==> k == Windows(n, size, stride) - 1
    decreases n
  {
    if n > size && k > 0 {
      WindowsReachEnd(n - stride, size, stride, k - 1);
    }
  }

  /** The count in closed form: m - 1 is (n - size) / stride rounded up, for n > size. */
  lemma {:induction false} WindowsIsCeiling(n: nat, size: nat, stride: nat)
    requires Settings(size, stride)
    ensures var m := Windows(n, size, stride);
            if n <= size then m == 1 else m >= 2 && (m - 2) * stride < n - size <= (m - 1) * stride
  {
    var m := Windows(n, size, stride);
    WindowsReachEnd(n, size, stride, m - 1);
    StartIsProduct(stride, m - 1);
    if n > size {
      WindowsReachEnd(n, size, stride, m - 2);
      StartIsProduct(stride, m - 2);
    }
  }

  lemma {:induction false} StartsInside(n: nat, size: nat, stride: nat, k: nat)
    requires Settings(size, stride) && k < Windows(n, size, stride) && 1 <= n
    ensures Start(stride, k) < n
    ensures k > 0 ==> Start(stride, k) == Start(stride, k - 1) + stride && Start(stride, k - 1) + size < n
    ensures Start(stride, k) < End(n, size, stride, k) <= n
  {
    if k > 0 {
      WindowsReachEnd(n, size, stride, k - 1);
    }
  }

  /**
   Turn k starts at k * (size - overlap), the loop takes exactly Windows(n) turns, and it does so for
   every chunk_size >= 1 and every overlap, negative and oversized ones included.
   */
  lemma {:induction false} OrbitIsArithmetic(n: nat, chunkSize: int, chunkOverlap: int, k: nat)
    requires chunkSize >= 1 && 1 <= n
    ensures var size, stride := Size(chunkSize), Stride(chunkSize, chunkOverlap);
            Orbit(n, size, Overlap(chunkSize, chunkOverlap), k) ==
            if k < Windows(n, size, stride) then Some(k * stride) else None
  {
    StartIsProduct(Stride(chunkSize, chunkOverlap), k);
    var size, stride := Size(chunkSize), Stride(chunkSize, chunkOverlap);
    if k > 0 {
      OrbitIsArithmetic(n, chunkSize, chunkOverlap, k - 1);
      StartIsProduct(stride, k - 1);
      if k <= Windows(n, size, stride) {
        WindowsReachEnd(n, size, stride, k - 1);
      }
    }
  }

  ghost predicate Terminates(n: int, size: int, overlap: int) {
    exists k: nat :: Orbit(n, size, overlap, k) == None
  }

  lemma {:induction false} StuckBelowOne(n: int, chunkSize: int, chunkOverlap: int, k: nat)
    requires chunkSize <= 0 && 1 <= n
    ensures var o := Orbit(n, Size(chunkSize), Overlap(chunkSize, chunkOverlap), k); o.Some? && o.value <= 0
  {
    if k > 0 {
      StuckBelowOne(n, chunkSize, chunkOverlap, k - 1);
    }
  }

  /** The loop ends exactly when there is nothing to slide over or the window holds a token. */
  lemma {:induction false} TerminatesExactly(n: nat, chunkSize: int, chunkOverlap: int)
    ensures Terminates(n, Size(chunkSize), Overlap(chunkSize, chunkOverlap)) <==> n == 0 || chunkSize >= 1
  {
    var size, overlap := Size(chunkSize), Overlap(chunkSize, chunkOverlap);
    if n == 0 {
      assert Orbit(n, size, overlap, 0) == None;
    } else if chunkSize >= 1 {
      var m := Windows(n, size, Stride(chunkSize, chunkOverlap));
      OrbitIsArithmetic(n, chunkSize, chunkOverlap, m);
      assert Orbit(n, size, overlap, m) == None;
    } else {
      forall k: nat ensures Orbit(n, size, overlap, k) != None {
        StuckBelowOne(n, chunkSize, chunkOverlap, k);
      }
    }
  }

  // ---------------------------------------------------------------- the method

  function Cut(tokens: seq<Token>, a: int, b: int): seq<Token> {
    if 0 <= a <= b <= |tokens| then tokens[a..b] else []
  }

  function Tokens(tokens: seq<Token>, size: nat, stride: nat, k: nat): seq<Token> {
    Cut(tokens, Start(stride, k), End(|tokens|, size, stride, k))
  }

  /** What the loop body sees: decoded text and character positions from decoded prefixes. */
  function WindowOf(tokens: seq<Token>, decode: seq<Token> -> string, start: int, end: int): Window {
    var text, startChar := decode(Cut(tokens, start, end)), |decode(Cut(tokens, 0, start))|;
    Window(text, startChar, startChar + |text|, |Cut(tokens, start, end)|)
  }

  function WindowAt(tokens: seq<Token>, decode: seq<Token> -> string, size: nat, stride: nat, k: nat): Window {
    WindowOf(tokens, decode, Start(stride, k), End(|tokens|, size, stride, k))
  }

  function FirstWindows(tokens: seq<Token>, decode: seq<Token> -> string, size: nat, stride: nat, m: nat): seq<Window> {
    if m == 0 then []
    else FirstWindows(tokens, decode, size, stride, m - 1) + [WindowAt(tokens, decode, size, stride, m - 1)]
  }

  lemma {:induction false} FirstWindowsAt(
    tokens: seq<Token>, decode: seq<Token> -> string, size: nat, stride: nat, m: nat)
    ensures |FirstWindows(tokens, decode, size, stride, m)| == m
    ensures forall k :: 0 <= k < m ==>
              FirstWindows(tokens, decode, size, stride, m)[k] == WindowAt(tokens, decode, size, stride, k)
  {
    if m > 0 {
      FirstWindowsAt(tokens, decode, size, stride, m - 1);
    }
  }

  function AllWindows(tokens: seq<Token>, decode: seq<Token> -> string, size: nat, stride: nat): seq<Window> {
    FirstWindows(tokens, decode, size, stride, Windows(|tokens|, size, stride))
  }

  /** The chunks emitted by the first k turns. */
  function ChunksAfter(tokens: seq<Token>, decode: seq<Token> -> string, size: nat, stride: nat, k: nat)
    : seq<ChunkData>
  {
    if k == 0 then []
    else Add(ChunksAfter(tokens, decode, size, stride, k - 1), WindowAt(tokens, decode, size, stride, k - 1))
  }

  lemma {:induction false} ChunksAfterIsEmit(
    tokens: seq<Token>, decode: seq<Token> -> string, size: nat, stride: nat, k: nat)
    ensures ChunksAfter(tokens, decode, size, stride, k) == Emit(FirstWindows(tokens, decode, size, stride, k))
  {
    if k > 0 {
      ChunksAfterIsEmit(tokens, decode, size, stride, k - 1);
      EmitAppend(FirstWindows(tokens, decode, size, stride, k - 1), WindowAt(tokens, decode, size, stride, k - 1));
    }
  }

  lemma {:induction false} ChunksAfterNext(
    tokens: seq<Token>, decode: seq<Token> -> string, size: nat, stride: nat, k: nat, start: nat, end: nat)
    requires start == Start(stride, k) && end == End(|tokens|, size, stride, k)
    ensures ChunksAfter(tokens, decode, size, stride, k + 1) ==
            Add(ChunksAfter(tokens, decode, size, stride, k), WindowOf(tokens, decode, start, end))
  {}

  lemma {:induction false} TurnPositions(n: nat, size: nat, stride: nat, k: nat)
    requires Settings(size, stride) && 1 <= n && k < Windows(n, size, stride)
    ensures var start, end := Start(stride, k), End(n, size, stride, k);
            && start < end <= n
            && (end == n <==> k == Windows(n, size, stride) - 1)
            && (end < n ==> Start(stride, k + 1) == end - (size - stride))
  {
    StartsInside(n, size, stride, k);
    WindowsReachEnd(n, size, stride, k);
  }

  method Chunk(content: string, encode: string -> seq<Token>, decode: seq<Token> -> string,
               chunkSize: int, chunkOverlap: int) returns (chunks: seq<ChunkData>)
    requires chunkSize >= 1 || Blank(content) || encode(content) == []
    ensures Blank(content) || encode(content) == [] ==> chunks == []
    ensures !Blank(content) && encode(content) != [] ==>
              chunks == Emit(AllWindows(encode(content), decode, Size(chunkSize), Stride(chunkSize, chunkOverlap)))
    ensures !Blank(content) && encode(content) != [] ==>
              exists starts: seq<nat>, ends: seq<nat>, kept: seq<nat> ::
                && SlidesAsSet(|encode(content)|, chunkSize, chunkOverlap, starts, ends)
                && ChunksOf(chunks, encode(content), decode, starts, ends, kept)
  {
    if Blank(content) {
      return [];
    }
    var effectiveSize := Min(chunkSize, MAX_TOKENS);
    var effectiveOverlap := Min(chunkOverlap, effectiveSize / 2);
    var tokens := encode(content);
    if tokens == [] {
      return [];
    }
    ghost var starts, ends, kept := ChunkedOutright(tokens, decode, chunkSize, chunkOverlap);
    chunks := Slide(tokens, decode, effectiveSize, effectiveOverlap, Stride(chunkSize, chunkOverlap));
    ChunksAfterIsEmit(tokens, decode, effectiveSize, Stride(chunkSize, chunkOverlap),
                      Windows(|tokens|, effectiveSize, Stride(chunkSize, chunkOverlap)));
  }

  /** The while loop. */
  method Slide(tokens: seq<Token>, decode: seq<Token> -> string, size: nat, overlap: int, ghost stride: nat)
    returns (chunks: seq<ChunkData>)
    requires tokens != [] && Settings(size, stride) && stride == size - Max(0, overlap)
    ensures chunks == ChunksAfter(tokens, decode, size, stride, Windows(|tokens|, size, stride))
  {
    chunks := [];
    var start := 0;
    ghost var k: nat, m := 0, Windows(|tokens|, size, stride);
    while start < |tokens|
      invariant start < |tokens| ==> k < m && start == Start(stride, k)
      invariant start >= |tokens| ==> k == m
      invariant chunks == ChunksAfter(tokens, decode, size, stride, k)
      decreases m - k
    {
      TurnPositions(|tokens|, size, stride, k);
      var end := Min(start + size, |tokens|);
      ChunksAfterNext(tokens, decode, size, stride, k, start, end);
      chunks := Append(chunks, tokens, decode, start, end);
      k := k + 1;
      if end >= |tokens| {
        break;
      }
      start := end - overlap;
      if start >= end {
        start := end;
      }
      TurnPositions(|tokens|, size, stride, k);
    }
  }

  /** The body of the loop: decode, test for blank, record positions, append. */
  method Append(before: seq<ChunkData>, tokens: seq<Token>, decode: seq<Token> -> string, start: nat, end: nat)
    returns (chunks: seq<ChunkData>)
    requires start <= end <= |tokens|
    ensures chunks == Add(before, WindowOf(tokens, decode, start, end))
  {
    chunks := before;
    var chunkTokens := tokens[start..end];
    var text := decode(chunkTokens);
    if Strip(text) != "" {
      var startChar := |decode(tokens[..start])|;
      var endChar := startChar + |text|;
      chunks := chunks + [ChunkData(Strip(text), startChar, endChar, |chunks|, |chunkTokens|)];
    }
  }

  // ---------------------------------------------------------------- stitching and conservation

  /** The first window followed by each later one without its first `size - stride` tokens. */
  function Stitched(tokens: seq<Token>, size: nat, stride: nat, m: nat): seq<Token> {
    if m <= 1 then Tokens(tokens, size, stride, 0)
    else
      var w := Tokens(tokens, size, stride, m - 1);
      Stitched(tokens, size, stride, m - 1) + Cut(w, size - stride, |w|)
  }

  function TotalLength(tokens: seq<Token>, size: nat, stride: nat, m: nat): nat {
    if m == 0 then 0
    else TotalLength(tokens, size, stride, m - 1) + |Tokens(tokens, size, stride, m - 1)|
  }

  /** Window m picks up `size - stride` tokens before the end of window m - 1 and ends later. */
  lemma {:induction false} NextWindow(tokens: seq<Token>, size: nat, stride: nat, m: nat)
    requires Settings(size, stride) && tokens != [] && 1 <= m < Windows(|tokens|, size, stride)
    ensures var v, e, e' := size - stride, End(|tokens|, size, stride, m - 1), End(|tokens|, size, stride, m);
            var w := Tokens(tokens, size, stride, m);
            && v <= e < e' <= |tokens|
            && |w| == e' - e + v
            && Cut(w, v, |w|) == tokens[e..e']
  {
    StartsInside(|tokens|, size, stride, m);
    var v, e, e' := size - stride, End(|tokens|, size, stride, m - 1), End(|tokens|, size, stride, m);
    var w := Tokens(tokens, size, stride, m);
    assert w == tokens[e - v..e'];
    assert w[v..|w|] == tokens[e..e'];
  }

  lemma {:induction false} FirstWindow(tokens: seq<Token>, size: nat, stride: nat)
    requires Settings(size, stride)
    ensures Tokens(tokens, size, stride, 0) == tokens[..End(|tokens|, size, stride, 0)]
  {
    assert Start(stride, 0) == 0;
  }

  lemma {:induction false} StitchOne(tokens: seq<Token>, size: nat, stride: nat, m: nat, e: nat, e': nat)
    requires m >= 2 && e <= e' <= |tokens|
    requires Stitched(tokens, size, stride, m - 1) == tokens[..e]
    requires var w := Tokens(tokens, size, stride, m - 1); Cut(w, size - stride, |w|) == tokens[e..e']
    ensures Stitched(tokens, size, stride, m) == tokens[..e']
  {
    Glue(tokens, e, e');
  }

  lemma {:induction false} StitchedPrefix(tokens: seq<Token>, size: nat, stride: nat, m: nat)
    requires Settings(size, stride) && tokens != [] && 1 <= m <= Windows(|tokens|, size, stride)
    ensures Stitched(tokens, size, stride, m) == tokens[..End(|tokens|, size, stride, m - 1)]
  {
    if m == 1 {
      FirstWindow(tokens, size, stride);
    } else {
      StitchedPrefix(tokens, size, stride, m - 1);
      StitchedStep(tokens, size, stride, m);
    }
  }

  lemma {:induction false} StitchedStep(tokens: seq<Token>, size: nat, stride: nat, m: nat)
    requires Settings(size, stride) && tokens != [] && 2 <= m <= Windows(|tokens|, size, stride)
    requires Stitched(tokens, size, stride, m - 1) == tokens[..End(|tokens|, size, stride, m - 2)]
    ensures Stitched(tokens, size, stride, m) == tokens[..End(|tokens|, size, stride, m - 1)]
  {
    NextWindow(tokens, size, stride, m - 1);
    StitchOne(tokens, size, stride, m, End(|tokens|, size, stride, m - 2), End(|tokens|, size, stride, m - 1));
  }

  lemma {:induction false} Glue(s: seq<Token>, a: nat, b: nat)
    requires a <= b <= |s|
    ensures s[..a] + s[a..b] == s[..b]
  {}

  lemma {:induction false} LengthsAddUp(tokens: seq<Token>, size: nat, stride: nat, m: nat)
    requires Settings(size, stride) && tokens != [] && 1 <= m <= Windows(|tokens|, size, stride)
    ensures TotalLength(tokens, size, stride, m) == End(|tokens|, size, stride, m - 1) + (m - 1) * (size - stride)
  {
    if m == 1 {
      FirstWindow(tokens, size, stride);
      assert TotalLength(tokens, size, stride, 0) == 0;
    } else {
      LengthsAddUp(tokens, size, stride, m - 1);
      NextWindow(tokens, size, stride, m - 1);
      assert (m - 1) * (size - stride) == (m - 2) * (size - stride) + (size - stride);
    }
  }

  /**
   Stitching gives the document back; the window lengths sum to n + (m-1) * overlap; and no window
   exceeds min(chunk_size, 8000) tokens.
   */
  lemma {:induction false} StitchingGivesBackTokens(tokens: seq<Token>, chunkSize: int, chunkOverlap: int)
    requires tokens != [] && chunkSize >= 1
    ensures var size, stride := Size(chunkSize), Stride(chunkSize, chunkOverlap);
            var m := Windows(|tokens|, size, stride);
            && Stitched(tokens, size, stride, m) == tokens
            && TotalLength(tokens, size, stride, m) == |tokens| + (m - 1) * Shared(chunkSize, chunkOverlap)
            && forall k :: 0 <= k < m ==> 1 <= |Tokens(tokens, size, stride, k)| <= Min(chunkSize, 8000)
  {
    var size, stride := Size(chunkSize), Stride(chunkSize, chunkOverlap);
    var m := Windows(|tokens|, size, stride);
    AllStitched(tokens, size, stride);
    AllLengths(tokens, size, stride);
    forall k | 0 <= k < m ensures 1 <= |Tokens(tokens, size, stride, k)| <= size {
      WindowLength(tokens, size, stride, k);
    }
  }

  lemma {:induction false} AllStitched(tokens: seq<Token>, size: nat, stride: nat)
    requires Settings(size, stride) && tokens != []
    ensures Stitched(tokens, size, stride, Windows(|tokens|, size, stride)) == tokens
  {
    var m := Windows(|tokens|, size, stride);
    WindowsReachEnd(|tokens|, size, stride, m - 1);
    StitchedPrefix(tokens, size, stride, m);
    assert tokens[..|tokens|] == tokens;
  }

  lemma {:induction false} AllLengths(tokens: seq<Token>, size: nat, stride: nat)
    requires Settings(size, stride) && tokens != []
    ensures var m := Windows(|tokens|, size, stride);
            TotalLength(tokens, size, stride, m) == |tokens| + (m - 1) * (size - stride)
  {
    var m := Windows(|tokens|, size, stride);
    WindowsReachEnd(|tokens|, size, stride, m - 1);
    LengthsAddUp(tokens, size, stride, m);
  }

  lemma {:induction false} WindowLength(tokens: seq<Token>, size: nat, stride: nat, k: nat)
    requires Settings(size, stride) && tokens != [] && k < Windows(|tokens|, size, stride)
    ensures 1 <= |Tokens(tokens, size, stride, k)| <= size
  {
    StartsInside(|tokens|, size, stride, k);
  }

  /** The windows that contain token i. */
  function Holding(n: nat, size: nat, stride: nat, i: nat): set<nat> {
    set k: nat | k < Windows(n, size, stride) && Start(stride, k) <= i < End(n, size, stride, k)
  }

  lemma {:induction false} FirstHolding(n: nat, size: nat, stride: nat, i: nat, m: nat) returns (k: nat)
    requires Settings(size, stride) && 1 <= m <= Windows(n, size, stride) && i < n && i < End(n, size, stride, m - 1)
    ensures k < m && k in Holding(n, size, stride, i)
  {
    StartsInside(n, size, stride, m - 1);
    if Start(stride, m - 1) <= i {
      k := m - 1;
    } else {
      k := FirstHolding(n, size, stride, i, m - 1);
    }
  }

  lemma {:induction false} HoldersAreAdjacent(n: nat, size: nat, stride: nat, i: nat, j: nat, k: nat)
    requires Settings(size, stride) && j in Holding(n, size, stride, i) && k in Holding(n, size, stride, i) && j < k
    ensures k == j + 1
  {
    StartIsProduct(stride, j);
    StartIsProduct(stride, k);
    assert (j + 2) * stride == j * stride + 2 * stride;
    LessFromMul(k, j + 2, stride);
  }

  /** Every token is in one window or in two neighbouring ones. */
  lemma {:induction false} EveryTokenOnceOrTwice(n: nat, size: nat, stride: nat, i: nat)
    requires Settings(size, stride) && i < n
    ensures exists k: nat :: Holding(n, size, stride, i) == {k} || Holding(n, size, stride, i) == {k, k + 1}
  {
    var m := Windows(n, size, stride);
    WindowsReachEnd(n, size, stride, m - 1);
    var h := Holding(n, size, stride, i);
    var k := FirstHolding(n, size, stride, i, m);
    forall a, b | a in h && b in h && a < b ensures b == a + 1 {
      HoldersAreAdjacent(n, size, stride, i, a, b);
    }
    if k + 1 in h {
      assert h == {k, k + 1};
    } else if k > 0 && k - 1 in h {
      assert h == {k - 1, (k - 1) + 1};
    } else {
      assert h == {k};
    }
  }

  // ---------------------------------------------------------------- characters

  /** What has to hold of the tokenizer for character positions to be exact. */
  ghost predicate Distributes(decode: seq<Token> -> string) {
    forall a: seq<Token>, b: seq<Token> {:trigger decode(a + b)} :: decode(a + b) == decode(a) + decode(b)
  }

  lemma {:induction false} DecodeCut(tokens: seq<Token>, decode: seq<Token> -> string, a: nat, b: nat)
    requires Distributes(decode) && a <= b <= |tokens|
    ensures |decode(tokens[..a])| <= |decode(tokens[..b])| <= |decode(tokens)|
    ensures decode(tokens[a..b]) == decode(tokens)[|decode(tokens[..a])|..|decode(tokens[..b])|]
    ensures |decode(tokens[a..b])| == |decode(tokens[..b])| - |decode(tokens[..a])|
  {
    assert tokens[..a] + tokens[a..b] == tokens[..b];
    assert tokens[..b] + tokens[b..] == tokens;
    assert decode(tokens[..b]) == decode(tokens[..a]) + decode(tokens[a..b]);
    assert decode(tokens) == decode(tokens[..b]) + decode(tokens[b..]);
  }

  lemma {:induction false} DecodeNothing(decode: seq<Token> -> string)
    requires Distributes(decode)
    ensures decode([]) == ""
  {
    var none: seq<Token> := [];
    assert none + none == none;
    assert decode(none + none) == decode(none) + decode(none);
  }

  lemma {:induction false} WindowEnd(tokens: seq<Token>, decode: seq<Token> -> string, size: nat, stride: nat, k: nat)
    requires Settings(size, stride) && tokens != [] && Distributes(decode) && k < Windows(|tokens|, size, stride)
    ensures k < |AllWindows(tokens, decode, size, stride)| && Start(stride, k) <= |tokens|
    ensures var w := AllWindows(tokens, decode, size, stride)[k];
            && w.start == |decode(tokens[..Start(stride, k)])|
            && w.end == |decode(tokens[..End(|tokens|, size, stride, k)])|
            && w.start <= w.end <= |decode(tokens)|
            && w.text == decode(tokens)[w.start..w.end]
  {
    FirstWindowsAt(tokens, decode, size, stride, Windows(|tokens|, size, stride));
    StartsInside(|tokens|, size, stride, k);
    DecodeCut(tokens, decode, Start(stride, k), End(|tokens|, size, stride, k));
  }

  /** With a distributing decoder that inverts the encoder, the windows cover the content. */
  lemma {:induction false} WindowsCover(
    content: string, tokens: seq<Token>, decode: seq<Token> -> string, size: nat, stride: nat)
    requires Settings(size, stride) && tokens != [] && Distributes(decode) && decode(tokens) == content
    ensures Covers(content, AllWindows(tokens, decode, size, stride))
  {
    var n, ws := |tokens|, AllWindows(tokens, decode, size, stride);
    var m := Windows(n, size, stride);
    FirstWindowsAt(tokens, decode, size, stride, m);
    forall k | 0 <= k < m
      ensures 0 <= ws[k].start <= ws[k].end <= |content|
      ensures ws[k].text == content[ws[k].start..ws[k].end]
    {
      WindowEnd(tokens, decode, size, stride, k);
    }
    forall k | 0 < k < m ensures ws[k].start <= ws[k - 1].end {
      NoGap(tokens, decode, size, stride, k);
    }
    FirstAndLast(tokens, decode, size, stride);
  }

  lemma {:induction false} NoGap(tokens: seq<Token>, decode: seq<Token> -> string, size: nat, stride: nat, k: nat)
    requires Settings(size, stride) && tokens != [] && Distributes(decode) && 0 < k < Windows(|tokens|, size, stride)
    ensures var ws := AllWindows(tokens, decode, size, stride); k < |ws| && ws[k].start <= ws[k - 1].end
  {
    WindowEnd(tokens, decode, size, stride, k);
    WindowEnd(tokens, decode, size, stride, k - 1);
    StartsInside(|tokens|, size, stride, k);
    DecodeCut(tokens, decode, Start(stride, k), End(|tokens|, size, stride, k - 1));
  }

  lemma {:induction false} FirstAndLast(tokens: seq<Token>, decode: seq<Token> -> string, size: nat, stride: nat)
    requires Settings(size, stride) && tokens != [] && Distributes(decode)
    ensures var ws := AllWindows(tokens, decode, size, stride);
            |ws| == Windows(|tokens|, size, stride) && ws[0].start == 0 && ws[|ws| - 1].end == |decode(tokens)|
  {
    FirstWindowsAt(tokens, decode, size, stride, Windows(|tokens|, size, stride));
    FirstStart(tokens, decode, size, stride);
    LastEnd(tokens, decode, size, stride);
  }

  lemma {:induction false} FirstStart(tokens: seq<Token>, decode: seq<Token> -> string, size: nat, stride: nat)
    requires Settings(size, stride) && tokens != [] && Distributes(decode)
    ensures var ws := AllWindows(tokens, decode, size, stride); 0 < |ws| && ws[0].start == 0
  {
    DecodeNothing(decode);
    WindowEnd(tokens, decode, size, stride, 0);
    assert tokens[..Start(stride, 0)] == [];
  }

  lemma {:induction false} LastEnd(tokens: seq<Token>, decode: seq<Token> -> string, size: nat, stride: nat)
    requires Settings(size, stride) && tokens != [] && Distributes(decode)
    ensures var ws, m := AllWindows(tokens, decode, size, stride), Windows(|tokens|, size, stride);
            m <= |ws| && ws[m - 1].end == |decode(tokens)|
  {
    var m := Windows(|tokens|, size, stride);
    WindowEnd(tokens, decode, size, stride, m - 1);
    WindowsReachEnd(|tokens|, size, stride, m - 1);
    assert tokens[..End(|tokens|, size, stride, m - 1)] == tokens;
  }

  // ---------------------------------------------------------------- the chunks, said outright

  /** Windows of `size` from 0 to n, each but the first beginning `shared` before the one before it ends. */
  ghost predicate Slides(n: nat, size: int, shared: int, starts: seq<nat>, ends: seq<nat>) {
    && |starts| == |ends| > 0 && starts[0] == 0 && ends[|ends| - 1] == n
    && (forall k :: 0 <= k < |ends| ==> starts[k] < ends[k] <= n && ends[k] - starts[k] <= size)
    && (forall k :: 0 <= k < |ends| - 1 ==> ends[k] == starts[k] + size && starts[k + 1] == ends[k] - shared)
  }

  /** At most 8000 tokens a window, and at most half of it shared. */
  ghost predicate SlidesAsSet(n: nat, chunkSize: int, chunkOverlap: int, starts: seq<nat>, ends: seq<nat>) {
    var size := if chunkSize <= 8000 then chunkSize else 8000;
    var shared := if chunkOverlap <= 0 then 0 else if chunkOverlap <= size / 2 then chunkOverlap else size / 2;
    Slides(n, size, shared, starts, ends)
  }

  /** Chunk j is that of the j-th window with any text, window `kept[j]`. */
  ghost predicate ChunkOf(chunk: ChunkData, j: nat, tokens: seq<Token>, decode: seq<Token> -> string,
                          start: nat, end: nat)
  {
    && start <= end <= |tokens|
    && var text := decode(tokens[start..end]);
       && !Blank(text) && chunk.content == Strip(text) && chunk.chunkIndex == j && chunk.tokenCount == end - start
       && chunk.startChar == |decode(tokens[..start])| && chunk.endChar == chunk.startChar + |text|
  }

  ghost predicate ChunksOf(chunks: seq<ChunkData>, tokens: seq<Token>, decode: seq<Token> -> string,
                           starts: seq<nat>, ends: seq<nat>, kept: seq<nat>)
  {
    && |kept| == |chunks| && |starts| == |ends|
    && (forall i, j :: 0 <= i < j < |kept| ==> kept[i] < kept[j])
    && (forall j :: 0 <= j < |kept| ==> kept[j] < |ends|)
    && (forall j :: 0 <= j < |kept| ==> ChunkOf(chunks[j], j, tokens, decode, starts[kept[j]], ends[kept[j]]))
    && (forall k :: 0 <= k < |ends| && starts[k] <= ends[k] <= |tokens| && !Blank(decode(tokens[starts[k]..ends[k]]))
          ==> k in kept)
  }

  function Starts(stride: nat, m: nat): (r: seq<nat>)
    ensures |r| == m
  {
    seq(m, k requires 0 <= k < m => Start(stride, k))
  }

  function Ends(n: nat, size: nat, stride: nat, m: nat): (r: seq<nat>)
    ensures |r| == m
  {
    seq(m, k requires 0 <= k < m => End(n, size, stride, k))
  }

  lemma {:induction false} OneSlide(n: nat, size: nat, stride: nat, k: nat)
    requires Settings(size, stride) && n >= 1 && k < Windows(n, size, stride)
    ensures Start(stride, k) < End(n, size, stride, k) <= n && End(n, size, stride, k) - Start(stride, k) <= size
    ensures k == Windows(n, size, stride) - 1 ==> End(n, size, stride, k) == n
    ensures k < Windows(n, size, stride) - 1 ==>
              End(n, size, stride, k) == Start(stride, k) + size
              && Start(stride, k + 1) == End(n, size, stride, k) - (size - stride)
  {
    StartsInside(n, size, stride, k);
    WindowsReachEnd(n, size, stride, k);
  }

  lemma {:induction false} WindowsSlide(n: nat, size: nat, stride: nat)
    requires Settings(size, stride) && n >= 1
    ensures var m := Windows(n, size, stride);
            Slides(n, size, size - stride, Starts(stride, m), Ends(n, size, stride, m))
  {
    var m := Windows(n, size, stride);
    forall k | 0 <= k < m
      ensures Start(stride, k) < End(n, size, stride, k) <= n && End(n, size, stride, k) - Start(stride, k) <= size
      ensures k == m - 1 ==> End(n, size, stride, k) == n
      ensures k < m - 1 ==> End(n, size, stride, k) == Start(stride, k) + size
                            && Start(stride, k + 1) == End(n, size, stride, k) - (size - stride)
    {
      OneSlide(n, size, stride, k);
    }
    var starts, ends := Starts(stride, m), Ends(n, size, stride, m);
    forall k | 0 <= k < |ends| - 1
      ensures ends[k] == starts[k] + size && starts[k + 1] == ends[k] - (size - stride)
    {
      OneSlide(n, size, stride, k);
    }
  }

  /** The emitted chunks are those of the windows with text, in order. */
  lemma {:induction false} EmittedChunks(tokens: seq<Token>, decode: seq<Token> -> string, size: nat, stride: nat)
    requires Settings(size, stride) && tokens != []
    ensures var m, ws := Windows(|tokens|, size, stride), AllWindows(tokens, decode, size, stride);
            ChunksOf(Emit(ws), tokens, decode, Starts(stride, m), Ends(|tokens|, size, stride, m), Kept(ws))
  {
    var n, m := |tokens|, Windows(|tokens|, size, stride);
    var ws := AllWindows(tokens, decode, size, stride);
    var starts, ends := Starts(stride, m), Ends(n, size, stride, m);
    FirstWindowsAt(tokens, decode, size, stride, m);
    EmitIsKept(ws);
    KeptIncreases(ws);
    forall j | 0 <= j < |Kept(ws)|
      ensures ChunkOf(Emit(ws)[j], j, tokens, decode, starts[Kept(ws)[j]], ends[Kept(ws)[j]])
    {
      WindowTexts(tokens, decode, size, stride, Kept(ws)[j]);
    }
    forall k | 0 <= k < m && starts[k] <= ends[k] <= |tokens| && !Blank(decode(tokens[starts[k]..ends[k]]))
      ensures k in Kept(ws)
    {
      WindowTexts(tokens, decode, size, stride, k);
      NonBlankIsKept(ws, k);
    }
  }

  lemma {:induction false} WindowTexts(tokens: seq<Token>, decode: seq<Token> -> string, size: nat, stride: nat, k: nat)
    requires Settings(size, stride) && tokens != [] && k < Windows(|tokens|, size, stride)
    ensures var start, end := Start(stride, k), End(|tokens|, size, stride, k);
            && start < end <= |tokens|
            && var w := WindowAt(tokens, decode, size, stride, k);
               && w.text == decode(tokens[start..end]) && w.tokens == end - start
               && w.start == |decode(tokens[..start])| && w.end == w.start + |w.text|
  {
    StartsInside(|tokens|, size, stride, k);
  }

  /**
   The whole method, said outright for every size from 1 and every overlap: windows of min(size, 8000)
   tokens that share the overlap, cut to between 0 and half of that, and of each one with any text its
   stripped text, its place by decoded prefixes and its exact number of tokens.
   */
  lemma {:induction false} ChunkedOutright(
    tokens: seq<Token>, decode: seq<Token> -> string, chunkSize: int, chunkOverlap: int)
    returns (starts: seq<nat>, ends: seq<nat>, kept: seq<nat>)
    requires tokens != [] && chunkSize >= 1
    ensures SlidesAsSet(|tokens|, chunkSize, chunkOverlap, starts, ends)
    ensures ChunksOf(Emit(AllWindows(tokens, decode, Size(chunkSize), Stride(chunkSize, chunkOverlap))),
                     tokens, decode, starts, ends, kept)
  {
    var size, stride := Size(chunkSize), Stride(chunkSize, chunkOverlap);
    var m := Windows(|tokens|, size, stride);
    WindowsSlide(|tokens|, size, stride);
    EmittedChunks(tokens, decode, size, stride);
    starts, ends, kept :=
      Starts(stride, m), Ends(|tokens|, size, stride, m), Kept(AllWindows(tokens, decode, size, stride));
  }

  lemma {:induction false} TokenEndsIncrease(n: nat, size: nat, stride: nat, j: nat, k: nat)
    requires Settings(size, stride) && 1 <= n && j < k < Windows(n, size, stride)
    ensures End(n, size, stride, j) < End(n, size, stride, k)
  {
    StartsInside(n, size, stride, k);
    if j < k - 1 {
      TokenEndsIncrease(n, size, stride, j, k - 1);
    }
  }

  /** Window ends never go back, and move forward exactly when the tokens added have any text. */
  lemma {:induction false} EndsIncrease(
    tokens: seq<Token>, decode: seq<Token> -> string, size: nat, stride: nat, j: nat, k: nat)
    requires Settings(size, stride) && tokens != [] && Distributes(decode)
    requires j < k < Windows(|tokens|, size, stride)
    ensures var e, e' := End(|tokens|, size, stride, j), End(|tokens|, size, stride, k);
            var ws := AllWindows(tokens, decode, size, stride);
            && e < e' <= |tokens| && k < |ws|
            && ws[j].end <= ws[k].end
            && (ws[j].end < ws[k].end <==> decode(tokens[e..e']) != "")
  {
    TokenEndsIncrease(|tokens|, size, stride, j, k);
    WindowEnd(tokens, decode, size, stride, j);
    WindowEnd(tokens, decode, size, stride, k);
    DecodeCut(tokens, decode, End(|tokens|, size, stride, j), End(|tokens|, size, stride, k));
  }

  /** No token decodes to nothing. */
  ghost predicate TokensHaveText(decode: seq<Token> -> string) {
    forall t: Token :: decode([t]) != ""
  }

  lemma {:induction false} SomeTokensSomeText(decode: seq<Token> -> string, ts: seq<Token>)
    requires Distributes(decode) && TokensHaveText(decode) && ts != []
    ensures decode(ts) != ""
  {
    var t := ts[0];
    assert ts == [t] + ts[1..];
    assert decode([t] + ts[1..]) == decode([t]) + decode(ts[1..]);
    assert |decode([t])| > 0;
  }

  /**
   Chunk ends never go back, and of two chunks the later ends strictly later exactly when the tokens its
   window adds have any text: always, if no token decodes to nothing.
   */
  lemma {:induction false} ChunkEndsIncrease(
    tokens: seq<Token>, decode: seq<Token> -> string, size: nat, stride: nat, i: nat, j: nat)
    requires Settings(size, stride) && tokens != [] && Distributes(decode)
    requires i < j < |Emit(AllWindows(tokens, decode, size, stride))|
    ensures var ws, n := AllWindows(tokens, decode, size, stride), |tokens|;
            && i < j < |Kept(ws)| && Kept(ws)[i] < Kept(ws)[j] < Windows(n, size, stride)
            && var e, e' := End(n, size, stride, Kept(ws)[i]), End(n, size, stride, Kept(ws)[j]);
               && e < e' <= n && Emit(ws)[i].endChar <= Emit(ws)[j].endChar
               && (Emit(ws)[i].endChar < Emit(ws)[j].endChar <==> decode(tokens[e..e']) != "")
               && (TokensHaveText(decode) ==> Emit(ws)[i].endChar < Emit(ws)[j].endChar)
  {
    var ws := AllWindows(tokens, decode, size, stride);
    FirstWindowsAt(tokens, decode, size, stride, Windows(|tokens|, size, stride));
    KeptIncreases(ws);
    EmitIsKept(ws);
    var a, b := Kept(ws)[i], Kept(ws)[j];
    EndsIncrease(tokens, decode, size, stride, a, b);
    if TokensHaveText(decode) {
      SomeTokensSomeText(decode, tokens[End(|tokens|, size, stride, a)..End(|tokens|, size, stride, b)]);
    }
  }

  /**
   The whole chunker on a document that is not blank, under an exact tokenizer: there is at least one
   chunk, each is the stripped slice of the document it claims to be, and no character but whitespace
   is lost.
   */
  lemma {:induction false} ChunkerIsExact(content: string, tokens: seq<Token>, decode: seq<Token> -> string,
                       chunkSize: int, chunkOverlap: int, chunks: seq<ChunkData>)
    requires chunkSize >= 1 && !Blank(content) && Distributes(decode) && decode(tokens) == content
    requires chunks == Emit(AllWindows(tokens, decode, Size(chunkSize), Stride(chunkSize, chunkOverlap)))
    ensures chunks != []
    ensures forall i :: 0 <= i < |chunks| ==>
              && chunks[i].chunkIndex == i
              && 0 <= chunks[i].startChar <= chunks[i].endChar <= |content|
              && chunks[i].content == Strip(content[chunks[i].startChar..chunks[i].endChar])
    ensures forall p :: 0 <= p < |content| && !IsSpace(content[p]) ==> exists c :: c in chunks && Keeps(content, c, p)
  {
    DecodeNothing(decode);
    var ws := AllWindows(tokens, decode, Size(chunkSize), Stride(chunkSize, chunkOverlap));
    WindowsCover(content, tokens, decode, Size(chunkSize), Stride(chunkSize, chunkOverlap));
    CoveredChunksAreExact(content, ws);
  }
}
