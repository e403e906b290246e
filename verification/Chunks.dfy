/**
 What both chunkers share: they slide windows over the content and emit the non-blank ones,
 stripped and numbered.  If the windows leave no gap, the chunks lose nothing but whitespace.
 */
module Chunks {
  import opened Text

  datatype ChunkData = ChunkData(content: string, startChar: int, endChar: int, chunkIndex: nat, tokenCount: nat)

  /** One window before the blank test: its text, where it lies in the content, its recorded size. */
  datatype Window = Window(text: string, start: int, end: int, tokens: nat)

  function Make(w: Window, index: nat): ChunkData {
    ChunkData(Strip(w.text), w.start, w.end, index, w.tokens)
  }

  /** The append in the body of both loops. */
  function Add(before: seq<ChunkData>, w: Window): seq<ChunkData> {
    if Blank(w.text) then before else before + [Make(w, |before|)]
  }

  function Emit(ws: seq<Window>): seq<ChunkData> {
    if ws == [] then [] else Add(Emit(ws[..|ws| - 1]), ws[|ws| - 1])
  }

  lemma {:induction false} EmitAppend(ws: seq<Window>, w: Window)
    ensures Emit(ws + [w]) == Add(Emit(ws), w)
  {
    assert (ws + [w])[..|ws + [w]| - 1] == ws;
  }

  /** The indices of the windows that are not blank. */
  function Kept(ws: seq<Window>): seq<nat> {
    if ws == [] then []
    else Kept(ws[..|ws| - 1]) + if Blank(ws[|ws| - 1].text) then [] else [|ws| - 1]
  }

  lemma {:induction false} KeptIncreases(ws: seq<Window>)
    ensures forall i :: 0 <= i < |Kept(ws)| ==> Kept(ws)[i] < |ws| && !Blank(ws[Kept(ws)[i]].text)
    ensures forall i, j :: 0 <= i < j < |Kept(ws)| ==> Kept(ws)[i] < Kept(ws)[j]
  {
    if ws != [] {
      KeptIncreases(ws[..|ws| - 1]);
    }
  }

  lemma {:induction false} NonBlankIsKept(ws: seq<Window>, k: nat)
    requires k < |ws| && !Blank(ws[k].text)
    ensures k in Kept(ws)
  {
    if k < |ws| - 1 {
      NonBlankIsKept(ws[..|ws| - 1], k);
    }
  }

  /** Chunks are the non-blank windows in order, numbered 0, 1, 2, ... */
  lemma {:induction false} EmitIsKept(ws: seq<Window>)
    ensures |Emit(ws)| == |Kept(ws)|
    ensures forall i :: 0 <= i < |Emit(ws)| ==> Kept(ws)[i] < |ws| && Emit(ws)[i] == Make(ws[Kept(ws)[i]], i)
  {
    if ws != [] {
      EmitIsKept(ws[..|ws| - 1]);
    }
  }

  /** The windows run from one end of the content to the other without a gap. */
  ghost predicate Covers(content: string, ws: seq<Window>) {
    && ws != []
    && ws[0].start == 0 && ws[|ws| - 1].end == |content|
    && (forall k :: 0 <= k < |ws| ==> 0 <= ws[k].start <= ws[k].end <= |content|)
    && (forall k :: 0 <= k < |ws| ==> ws[k].text == content[ws[k].start..ws[k].end])
    && (forall k :: 0 < k < |ws| ==> ws[k].start <= ws[k - 1].end)
  }

  lemma {:induction false} SomeWindowHas(content: string, ws: seq<Window>, i: nat, n: nat) returns (k: nat)
    requires Covers(content, ws) && n < |ws| && i < ws[n].end
    ensures k < |ws| && ws[k].start <= i < ws[k].end
  {
    if ws[n].start <= i {
      k := n;
    } else {
      k := SomeWindowHas(content, ws, i, n - 1);
    }
  }

  /** Chunk `c` keeps the character at position `i` of the content. */
  predicate Keeps(content: string, c: ChunkData, i: nat)
    requires i < |content|
  {
    && 0 <= c.startChar <= i < c.endChar <= |content|
    && var offset := i - c.startChar - Lead(content[c.startChar..c.endChar]);
       0 <= offset < |c.content| && c.content[offset] == content[i]
  }

  /** The window takes the slice of the content that it says it takes, or nothing at all. */
  ghost predicate Placed(content: string, w: Window) {
    w.text == "" || (0 <= w.start <= w.end <= |content| && w.text == content[w.start..w.end])
  }

  ghost predicate AllPlaced(content: string, ws: seq<Window>) {
    forall k :: 0 <= k < |ws| ==> Placed(content, ws[k])
  }

  /** The window holds the character at position `p`. */
  ghost predicate Within(content: string, w: Window, p: int) {
    0 <= w.start <= p < w.end <= |content| && w.text == content[w.start..w.end]
  }

  lemma {:induction false} HeldIsKept(content: string, ws: seq<Window>, k: nat, p: nat)
    requires k < |ws| && p < |content| && Within(content, ws[k], p) && !IsSpace(content[p])
    ensures exists c :: c in Emit(ws) && Keeps(content, c, p)
  {
    WindowKeeps(content, ws[k], p, 0);
    var c := EmittedFrom(ws, k);
    WindowKeeps(content, ws[k], p, c.chunkIndex);
  }

  lemma {:induction false} WindowKeeps(content: string, w: Window, p: nat, index: nat)
    requires p < |content| && Within(content, w, p) && !IsSpace(content[p])
    ensures !Blank(w.text) && Keeps(content, Make(w, index), p)
  {
    assert w.text[p - w.start] == content[p];
    StripKeeps(w.text, p - w.start);
  }

  lemma {:induction false} KeptIsHeld(content: string, ws: seq<Window>, i: nat, p: nat)
    requires AllPlaced(content, ws) && p < |content| && i < |Emit(ws)| && Keeps(content, Emit(ws)[i], p)
    ensures exists k :: 0 <= k < |ws| && Within(content, ws[k], p)
  {
    EmitIsKept(ws);
    KeptIncreases(ws);
    var k := Kept(ws)[i];
    assert Placed(content, ws[k]) && Emit(ws)[i] == Make(ws[k], i);
    assert Within(content, ws[k], p);
  }

  /** A character that is not whitespace is in some chunk if and only if it is in some window. */
  lemma {:induction false} KeptExactly(content: string, ws: seq<Window>, p: nat)
    requires AllPlaced(content, ws) && p < |content| && !IsSpace(content[p])
    ensures (exists c :: c in Emit(ws) && Keeps(content, c, p)) <==>
            (exists k :: 0 <= k < |ws| && Within(content, ws[k], p))
  {
    forall k | 0 <= k < |ws| && Within(content, ws[k], p) ensures exists c :: c in Emit(ws) && Keeps(content, c, p) {
      HeldIsKept(content, ws, k, p);
    }
    forall i | 0 <= i < |Emit(ws)| && Keeps(content, Emit(ws)[i], p)
      ensures exists k :: 0 <= k < |ws| && Within(content, ws[k], p)
    {
      KeptIsHeld(content, ws, i, p);
    }
  }

  /** Every character that is not whitespace survives in some chunk. */
  lemma {:induction false} EveryCharacterKept(content: string, ws: seq<Window>, i: nat)
    requires Covers(content, ws) && i < |content| && !IsSpace(content[i])
    ensures exists c :: c in Emit(ws) && Keeps(content, c, i)
  {
    var k := SomeWindowHas(content, ws, i, |ws| - 1);
    HeldIsKept(content, ws, k, i);
  }

  /** A chunk begins with a character that is not whitespace, which it keeps. */
  lemma {:induction false} ChunkKeepsSomething(content: string, ws: seq<Window>, i: nat) returns (p: nat)
    requires AllPlaced(content, ws) && i < |Emit(ws)|
    ensures p < |content| && !IsSpace(content[p]) && Keeps(content, Emit(ws)[i], p)
  {
    ChunksAreSound(content, ws, i);
    var c := Emit(ws)[i];
    var text := content[c.startChar..c.endChar];
    p := c.startChar + Lead(text);
    assert c.content[0] == text[Lead(text)] == content[p];
  }

  lemma {:induction false} EmittedFrom(ws: seq<Window>, k: nat) returns (c: ChunkData)
    requires k < |ws| && !Blank(ws[k].text)
    ensures c in Emit(ws) && c == Make(ws[k], c.chunkIndex)
  {
    NonBlankIsKept(ws, k);
    EmitIsKept(ws);
    var e :| 0 <= e < |Kept(ws)| && Kept(ws)[e] == k;
    c := Emit(ws)[e];
  }

  /** Each chunk is numbered by its position and is the stripped slice it says it is. */
  lemma {:induction false} ChunksAreSound(content: string, ws: seq<Window>, i: nat)
    requires AllPlaced(content, ws) && i < |Emit(ws)|
    ensures var c := Emit(ws)[i];
            && c.chunkIndex == i
            && 0 <= c.startChar <= c.endChar <= |content|
            && c.content == Strip(content[c.startChar..c.endChar]) && c.content != ""
  {
    EmitIsKept(ws);
    KeptIncreases(ws);
    assert Placed(content, ws[Kept(ws)[i]]) && Emit(ws)[i] == Make(ws[Kept(ws)[i]], i);
  }

  /** Nothing is emitted exactly when there is nothing but whitespace. */
  lemma {:induction false} EmptyIffBlank(content: string, ws: seq<Window>)
    requires Covers(content, ws)
    ensures Emit(ws) == [] <==> Blank(content)
  {
    if !Blank(content) {
      var i :| 0 <= i < |content| && !IsSpace(content[i]);
      EveryCharacterKept(content, ws, i);
    } else {
      BlankEmitsNothing(ws);
    }
  }

  lemma {:induction false} BlankEmitsNothing(ws: seq<Window>)
    requires forall k :: 0 <= k < |ws| ==> Blank(ws[k].text)
    ensures Emit(ws) == []
  {
    if ws != [] {
      BlankEmitsNothing(ws[..|ws| - 1]);
    }
  }

  lemma {:induction false} CoveredChunksAreExact(content: string, ws: seq<Window>)
    requires Covers(content, ws)
    ensures Emit(ws) == [] <==> Blank(content)
    ensures forall i :: 0 <= i < |Emit(ws)| ==>
              && Emit(ws)[i].chunkIndex == i
              && 0 <= Emit(ws)[i].startChar <= Emit(ws)[i].endChar <= |content|
              && Emit(ws)[i].content == Strip(content[Emit(ws)[i].startChar..Emit(ws)[i].endChar])
    ensures forall p :: 0 <= p < |content| && !IsSpace(content[p]) ==> exists c :: c in Emit(ws) && Keeps(content, c, p)
  {
    EmptyIffBlank(content, ws);
    forall i | 0 <= i < |Emit(ws)|
      ensures && Emit(ws)[i].chunkIndex == i
              && 0 <= Emit(ws)[i].startChar <= Emit(ws)[i].endChar <= |content|
              && Emit(ws)[i].content == Strip(content[Emit(ws)[i].startChar..Emit(ws)[i].endChar])
    {
      ChunksAreSound(content, ws, i);
    }
    forall p | 0 <= p < |content| && !IsSpace(content[p]) ensures exists c :: c in Emit(ws) && Keeps(content, c, p) {
      EveryCharacterKept(content, ws, p);
    }
  }
}
