/** The few Python string operations the chunkers use. */
module Text {
  datatype Range = Range(lo: char, hi: char)

  /** The code points for which Python's str.isspace holds. */
  const WHITESPACE: seq<Range> := [
    Range('\t', '\r'), Range('\U{1C}', ' '), Range('\U{85}', '\U{85}'), Range('\U{A0}', '\U{A0}'),
    Range('\U{1680}', '\U{1680}'), Range('\U{2000}', '\U{200A}'), Range('\U{2028}', '\U{2029}'),
    Range('\U{202F}', '\U{202F}'), Range('\U{205F}', '\U{205F}'), Range('\U{3000}', '\U{3000}')]

  predicate InRanges(c: char, ranges: seq<Range>) {
    ranges != [] && (ranges[0].lo <= c <= ranges[0].hi || InRanges(c, ranges[1..]))
  }

  predicate IsSpace(c: char) { InRanges(c, WHITESPACE) }

  predicate Blank(s: string) {
    forall i :: 0 <= i < |s| ==> IsSpace(s[i])
  }

  /** Length of the whitespace at the front. */
  function Lead(s: string): (k: nat)
    ensures k <= |s| && (forall i :: 0 <= i < k ==> IsSpace(s[i])) && (k < |s| ==> !IsSpace(s[k]))
  {
    if s == "" || !IsSpace(s[0]) then 0 else 1 + Lead(s[1..])
  }

  /** Length of the text up to the last character that is not whitespace. */
  function Body(s: string): (k: nat)
    ensures k <= |s| && (forall i :: k <= i < |s| ==> IsSpace(s[i])) && (k > 0 ==> !IsSpace(s[k - 1]))
  {
    if s == "" || !IsSpace(s[|s| - 1]) then |s| else Body(s[..|s| - 1])
  }

  /** str.strip: what is left without the whitespace at both ends. */
  function Strip(s: string): (r: string)
    ensures r == "" <==> Blank(s)
    ensures r != "" ==> !IsSpace(r[0]) && !IsSpace(r[|r| - 1])
  {
    if Lead(s) < Body(s) then s[Lead(s)..Body(s)] else ""
  }

  /** Stripping keeps every character that is not whitespace, in place. */
  lemma {:induction false} StripKeeps(s: string, i: nat)
    requires i < |s| && !IsSpace(s[i])
    ensures Lead(s) <= i < Lead(s) + |Strip(s)| && Strip(s)[i - Lead(s)] == s[i]
  {
    var lead, body := Lead(s), Body(s);
    assert lead <= i < body;
    assert s[lead..body][i - lead] == s[i];
  }

  /** len(s.split()): the number of maximal runs of non-whitespace. */
  function Words(s: string): nat {
    if s == "" then 0
    else Words(s[..|s| - 1]) + if !IsSpace(s[|s| - 1]) && (|s| == 1 || IsSpace(s[|s| - 2])) then 1 else 0
  }

  /** Where the maximal runs of non-whitespace begin. */
  ghost function WordStarts(s: string): set<int> {
    set p | 0 <= p < |s| && BeginsWord(s, p)
  }

  predicate BeginsWord(s: string, p: int)
    requires 0 <= p < |s|
  {
    !IsSpace(s[p]) && (p == 0 || IsSpace(s[p - 1]))
  }

  lemma {:induction false} WordsAreCounted(s: string)
    ensures Words(s) == |WordStarts(s)|
  {
    if s == "" {
      assert WordStarts(s) == {};
    } else {
      var n := |s| - 1;
      WordsAreCounted(s[..n]);
      forall p | 0 <= p < n ensures BeginsWord(s[..n], p) <==> BeginsWord(s, p) {}
      if BeginsWord(s, n) {
        assert WordStarts(s) == WordStarts(s[..n]) + {n};
      } else {
        assert WordStarts(s) == WordStarts(s[..n]);
      }
    }
  }

  lemma {:induction false} NotThere(c: char, ranges: seq<Range>, k: nat)
    requires k <= |ranges| && forall i :: k <= i < |ranges| ==> c < ranges[i].lo
    ensures !InRanges(c, ranges[k..])
    decreases |ranges| - k
  {
    if k < |ranges| {
      NotThere(c, ranges, k + 1);
      assert ranges[k..][1..] == ranges[k + 1..];
    }
  }

  /** What counts as whitespace among the characters of plain text. */
  lemma {:induction false} WhitespaceInPlainText(c: char)
    requires c < '\U{80}'
    ensures IsSpace(c) <==> c == ' ' || '\t' <= c <= '\r' || '\U{1C}' <= c <= '\U{1F}'
  {
    NotThere(c, WHITESPACE, 2);
    var rest := WHITESPACE[1..];
    assert IsSpace(c) <==> '\t' <= c <= '\r' || InRanges(c, rest);
    assert InRanges(c, rest) <==> '\U{1C}' <= c <= ' ' || InRanges(c, rest[1..]);
    assert rest[1..] == WHITESPACE[2..];
  }

  /** How Python reads a slice bound on a sequence of length n. */
  function Bound(i: int, n: nat): (k: nat)
    ensures k <= n && (0 <= i <= n ==> k == i)
  {
    if i < 0 then (if n + i < 0 then 0 else n + i) else if i > n then n else i
  }

  /** s[a:b]. */
  function Slice(s: string, a: int, b: int): (r: string)
    ensures 0 <= a <= b <= |s| ==> r == s[a..b]
  {
    var lo, hi := Bound(a, |s|), Bound(b, |s|);
    if lo < hi then s[lo..hi] else ""
  }

  /** Highest index of c in s[lo..hi], or -1. */
  function LastIn(s: string, c: char, lo: nat, hi: nat): (p: int)
    requires hi <= |s|
    ensures p == -1 || lo <= p < hi
    decreases hi
  {
    if hi <= lo then -1 else if s[hi - 1] == c then hi - 1 else LastIn(s, c, lo, hi - 1)
  }

  /** It is an index of c if it is one at all, and no later index is. */
  lemma {:induction false} LastInIsLast(s: string, c: char, lo: nat, hi: nat, i: nat)
    requires hi <= |s|
    ensures LastIn(s, c, lo, hi) >= 0 ==> s[LastIn(s, c, lo, hi)] == c
    ensures lo <= i < hi && s[i] == c ==> i <= LastIn(s, c, lo, hi)
  {
    if lo < hi && s[hi - 1] != c {
      LastInIsLast(s, c, lo, hi - 1, i);
    }
  }

  /** s.rfind(c, a, b). */
  function RFind(s: string, c: char, a: int, b: int): int {
    LastIn(s, c, Bound(a, |s|), Bound(b, |s|))
  }
}
