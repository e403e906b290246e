/**
 The context window and its citations: app/application/services/context_service.py and the source list
 of app/application/use_cases/rag_chat.py.

 The tokenizer and the percent formatting of a score are arbitrary functions.
 */
module Context {
  import opened Budget

  datatype SearchResult = SearchResult(
    chunkId: string,
    documentId: string,
    content: string,
    score: real,
    title: string,
    chunkIndex: int)

  datatype Source = Source(
    index: int,
    chunkId: string,
    documentId: string,
    title: string,
    content: string,
    score: real)

  datatype Env = Env(count: string -> nat, percent: real -> string)

  // ---------------------------------------------------------------- labels

  function Digit(d: nat): (c: char)
    requires d < 10
    ensures IsDigit(c) && Value(c) == d
  {
    ('0' as int + d) as char
  }

  function Value(c: char): int { c as int - '0' as int }

  function Digits(n: nat): string {
    if n < 10 then [Digit(n)] else Digits(n / 10) + [Digit(n % 10)]
  }

  function Decimal(n: int): string { if n < 0 then "-" + Digits(-n) else Digits(n) }

  predicate IsDigit(c: char) { '0' <= c <= '9' }

  function ReadDigits(s: string): int {
    if s == "" then 0 else 10 * ReadDigits(s[..|s| - 1]) + Value(s[|s| - 1])
  }

  function DigitRun(s: string): (n: nat)
    ensures n <= |s|
  {
    if s == "" || !IsDigit(s[0]) then 0 else 1 + DigitRun(s[1..])
  }

  /** The number a reader of the text sees in the bracket it starts with. */
  function Label(text: string): int {
    if text == "" then 0 else var t := text[1..]; ReadDigits(t[..DigitRun(t)])
  }

  lemma {:induction false} ReadLast(s: string, c: char)
    ensures ReadDigits(s + [c]) == 10 * ReadDigits(s) + Value(c)
  {
    assert (s + [c])[..|s|] == s;
  }

  lemma {:induction false} DigitsReadBack(n: nat)
    ensures forall c :: c in Digits(n) ==> IsDigit(c)
    ensures ReadDigits(Digits(n)) == n
  {
    if n < 10 {
      ReadLast("", Digit(n));
      assert "" + [Digit(n)] == Digits(n);
    } else {
      DigitsReadBack(n / 10);
      ReadLast(Digits(n / 10), Digit(n % 10));
    }
  }

  lemma {:induction false} DigitRunStops(s: string, rest: string)
    requires forall c :: c in s ==> IsDigit(c)
    requires rest != "" && !IsDigit(rest[0])
    ensures DigitRun(s + rest) == |s|
  {
    if s == "" {
      assert s + rest == rest;
    } else {
      assert (s + rest)[0] == s[0];
      assert (s + rest)[1..] == s[1..] + rest;
      DigitRunStops(s[1..], rest);
    }
  }

  function Title(r: SearchResult): string { if r.title == "" then "Untitled" else r.title }

  function Details(env: Env, r: SearchResult): string {
    "(chunk " + Decimal(r.chunkIndex) + ", relevance " + env.percent(r.score) + ")\n"
  }

  /** A citation block, after its label. */
  function Citation(env: Env, r: SearchResult): string {
    " Source: \"" + Title(r) + "\" " + Details(env, r) + r.content
  }

  function FormatBlock(env: Env, index: nat, r: SearchResult): string {
    "[" + Digits(index) + "]" + Citation(env, r)
  }

  /** Reading a decimal back, sign and all. */
  function ReadDecimal(s: string): int {
    if s != "" && s[0] == '-' then -ReadDigits(s[1..]) else ReadDigits(s)
  }

  lemma {:induction false} DecimalReadsBack(n: int)
    ensures ReadDecimal(Decimal(n)) == n
  {
    DigitsReadBack(if n < 0 then -n else n);
    assert Decimal(n) != "" && (n >= 0 ==> Decimal(n)[0] in Digits(n));
    assert n < 0 ==> Decimal(n)[1..] == Digits(-n);
  }

  ghost predicate IsLaidOut(block: string, before: string, number: string, rendering: string, content: string) {
    block == before + ("\" (chunk " + number + ", relevance " + rendering + ")\n") + content
  }

  /** Just before the content a block shows the chunk index, which reads back, and the score's rendering. */
  lemma {:induction false} BlockShowsDetails(env: Env, index: nat, r: SearchResult)
    returns (before: string, number: string)
    ensures ReadDecimal(number) == r.chunkIndex
    ensures IsLaidOut(FormatBlock(env, index, r), before, number, env.percent(r.score), r.content)
  {
    DecimalReadsBack(r.chunkIndex);
    var tag, source := "[" + Digits(index) + "]", " Source: \"";
    number := Decimal(r.chunkIndex);
    var rest := number + ", relevance " + env.percent(r.score) + ")\n";
    before := tag + source + Title(r);
    Regroup(tag, source, Title(r), "\" ", Details(env, r), r.content);
    assert Details(env, r) == "(chunk " + rest;
    assert "\" " + ("(chunk " + rest) == "\" (chunk " + rest;
  }

  /** A block closes with the whole content, and before it shows the title, or a stand-in for a missing one. */
  lemma {:induction false} BlockShowsResult(env: Env, index: nat, r: SearchResult)
    ensures var block, n := FormatBlock(env, index, r), |r.content|;
            && n <= |block| && block[|block| - n..] == r.content
            && var at, title := |Digits(index)| + 12, if r.title == "" then "Untitled" else r.title;
               at + |title| <= |block| - n && block[at..at + |title|] == title
  {
    var tag, source := "[" + Digits(index) + "]", " Source: \"";
    var title, closing, details := Title(r), "\" ", Details(env, r);
    assert |tag + source| == |Digits(index)| + 12;
    Regroup(tag, source, title, closing, details, r.content);
    BetweenTwo(tag + source, title, closing + details, r.content, FormatBlock(env, index, r));
  }

  lemma {:induction false} Regroup(a: string, b: string, c: string, d: string, e: string, f: string)
    ensures a + (b + c + d + e + f) == (a + b) + c + (d + e) + f
  {
    assert b + c + d + e + f == b + (c + (d + e) + f);
  }

  lemma {:induction false} BetweenTwo(a: string, title: string, b: string, content: string, block: string)
    requires block == a + title + b + content
    ensures |content| <= |block| && block[|block| - |content|..] == content
    ensures |a| + |title| <= |block| - |content| && block[|a|..|a| + |title|] == title
  {}

  /** Whatever the result's title, score and content are, and whatever follows, the label reads back. */
  lemma {:induction false} LabelReadsBack(env: Env, index: nat, r: SearchResult, text: string)
    requires FormatBlock(env, index, r) <= text
    ensures Label(text) == index
  {
    var digits, block := Digits(index), FormatBlock(env, index, r);
    var rest := "]" + Citation(env, r) + text[|block|..];
    assert text == block + text[|block|..];
    assert text[1..] == digits + rest;
    DigitsReadBack(index);
    DigitRunStops(digits, rest);
    assert (digits + rest)[..|digits|] == digits;
  }

  // ---------------------------------------------------------------- the score threshold

  function Relevant(results: seq<SearchResult>, threshold: real): seq<SearchResult> {
    if results == [] then []
    else
      var n := |results| - 1;
      var before := Relevant(results[..n], threshold);
      if results[n].score >= threshold then before + [results[n]] else before
  }

  /** The places of the results that pass, ascending. */
  function Passing(results: seq<SearchResult>, threshold: real): (kept: seq<nat>)
    ensures forall j :: 0 <= j < |kept| ==> kept[j] < |results| && results[kept[j]].score >= threshold
  {
    if results == [] then []
    else
      var n := |results| - 1;
      var before := Passing(results[..n], threshold);
      if results[n].score >= threshold then before + [n] else before
  }

  lemma {:induction false} PassingIsAll(results: seq<SearchResult>, threshold: real, i: nat)
    requires i < |results| && results[i].score >= threshold
    ensures i in Passing(results, threshold)
  {
    if i < |results| - 1 {
      PassingIsAll(results[..|results| - 1], threshold, i);
    }
  }

  lemma {:induction false} PassingAscends(results: seq<SearchResult>, threshold: real)
    ensures forall i, j :: 0 <= i < j < |Passing(results, threshold)| ==>
              Passing(results, threshold)[i] < Passing(results, threshold)[j]
  {
    if results != [] {
      PassingAscends(results[..|results| - 1], threshold);
    }
  }

  /** The filter keeps exactly the results at those places, in that order. */
  lemma {:induction false} RelevantExactly(results: seq<SearchResult>, threshold: real)
    ensures |Relevant(results, threshold)| == |Passing(results, threshold)|
    ensures forall j :: 0 <= j < |Passing(results, threshold)| ==>
              Relevant(results, threshold)[j] == results[Passing(results, threshold)[j]]
  {
    if results != [] {
      RelevantExactly(results[..|results| - 1], threshold);
    }
  }

  ghost predicate ScoreSorted(results: seq<SearchResult>) {
    forall i, j :: 0 <= i < j < |results| ==> results[i].score >= results[j].score
  }

  /** On results sorted by score the filter is a cut. */
  lemma {:induction false} SortedFilterIsPrefix(results: seq<SearchResult>, threshold: real)
    requires ScoreSorted(results)
    ensures var relevant := Relevant(results, threshold);
            && |relevant| <= |results| && relevant == results[..|relevant|]
            && (forall i :: 0 <= i < |results| ==> (results[i].score >= threshold <==> i < |relevant|))
  {
    if results != [] {
      var n := |results| - 1;
      SortedFilterIsPrefix(results[..n], threshold);
      var k := |Relevant(results[..n], threshold)|;
      assert results[..n][..k] == results[..k];
      if k < n {
        assert results[k].score < threshold;
      }
    }
  }

  // ---------------------------------------------------------------- the token budget

  function Blocks(env: Env, used: seq<SearchResult>): seq<string> {
    seq(|used|, i requires 0 <= i < |used| => FormatBlock(env, i + 1, used[i]))
  }

  lemma {:induction false} BlocksAppend(env: Env, used: seq<SearchResult>, r: SearchResult)
    ensures Blocks(env, used + [r]) == Blocks(env, used) + [FormatBlock(env, |used| + 1, r)]
  {}

  /** What the result would cost as block n. */
  function Pricer(env: Env): (nat, SearchResult) -> nat {
    (n: nat, r: SearchResult) => env.count(FormatBlock(env, n, r))
  }

  // ---------------------------------------------------------------- the text

  function Join(blocks: seq<string>): string {
    if blocks == [] then ""
    else if |blocks| == 1 then blocks[0]
    else Join(blocks[..|blocks| - 1]) + "\n\n" + blocks[|blocks| - 1]
  }

  /** Where block i begins in the joined text. */
  function Offset(blocks: seq<string>, i: nat): nat
    requires i < |blocks|
  {
    if i == 0 then 0 else |Join(blocks[..i])| + 2
  }

  /** The joined text holds each block whole at its offset. */
  lemma {:induction false} JoinHoldsBlocks(blocks: seq<string>, i: nat)
    requires i < |blocks|
    ensures Offset(blocks, i) <= |Join(blocks)|
    ensures blocks[i] <= Join(blocks)[Offset(blocks, i)..]
    ensures i == 0 ==> Offset(blocks, i) == 0
    ensures i == |blocks| - 1 ==> Offset(blocks, i) + |blocks[i]| == |Join(blocks)|
  {
    var n := |blocks|;
    if n > 1 {
      var front := blocks[..n - 1];
      var whole := Join(blocks);
      assert whole == Join(front) + ("\n\n" + blocks[n - 1]);
      if i < n - 1 {
        JoinHoldsBlocks(front, i);
        assert front[..i] == blocks[..i];
        assert whole[Offset(blocks, i)..] == Join(front)[Offset(blocks, i)..] + ("\n\n" + blocks[n - 1]);
      }
    }
  }

  /** Between two blocks there is one blank line and nothing else. */
  lemma {:induction false} BlankLineBetween(blocks: seq<string>, i: nat)
    requires i + 1 < |blocks|
    ensures var end := Offset(blocks, i) + |blocks[i]|;
            && Offset(blocks, i + 1) == end + 2 <= |Join(blocks)|
            && Join(blocks)[end..end + 2] == "\n\n"
  {
    var front := blocks[..i + 1];
    JoinHoldsBlocks(front, i);
    assert front[..i] == blocks[..i] && front[i] == blocks[i];
    assert Offset(front, i) == Offset(blocks, i);
    var two := blocks[..i + 2];
    assert two[..i + 1] == front;
    assert Join(two) == Join(front) + "\n\n" + blocks[i + 1];
    JoinPrefix(blocks, i + 2);
  }

  lemma {:induction false} JoinPrefix(blocks: seq<string>, n: nat)
    requires n <= |blocks|
    ensures Join(blocks[..n]) <= Join(blocks)
  {
    if n < |blocks| {
      var front := blocks[..|blocks| - 1];
      JoinPrefix(front, n);
      assert front[..n] == blocks[..n];
      assert Join(front) <= Join(blocks);
    } else {
      assert blocks[..n] == blocks;
    }
  }

  /** A larger budget only adds to the end of the text. */
  lemma {:induction false} LargerBudgetExtendsText(
    env: Env, relevant: seq<SearchResult>, b: int, b': int, k: nat, k': nat)
    requires b <= b' && LongestFit(Pricer(env), relevant, b, k) && LongestFit(Pricer(env), relevant, b', k')
    ensures k <= k' && Join(Blocks(env, relevant[..k])) <= Join(Blocks(env, relevant[..k']))
  {
    LargerBudgetExtends(Pricer(env), relevant, b, b', k, k');
    assert Blocks(env, relevant[..k'])[..k] == Blocks(env, relevant[..k]);
    JoinPrefix(Blocks(env, relevant[..k']), k);
  }

  method BuildContext(env: Env, results: seq<SearchResult>, threshold: real, budget: int)
    returns (context: string, used: seq<SearchResult>)
    ensures var relevant := Relevant(results, threshold);
            && LongestFit(Pricer(env), relevant, budget, |used|)
            && used == relevant[..|used|]
    ensures context == Join(Blocks(env, used))
  {
    if results == [] {
      return "", [];
    }
    var relevant := Relevant(results, threshold);
    if relevant == [] {
      return "", [];
    }
    var blocks;
    blocks, used := FillBudget(env, relevant, budget);
    context := Join(blocks);
  }

  /** The loop of `build_context`: take blocks until one does not fit. */
  method FillBudget(env: Env, relevant: seq<SearchResult>, budget: int)
    returns (blocks: seq<string>, used: seq<SearchResult>)
    ensures LongestFit(Pricer(env), relevant, budget, |used|) && used == relevant[..|used|]
    ensures blocks == Blocks(env, used)
  {
    used, blocks := [], [];
    var current := 0;
    for i := 0 to |relevant|
      invariant used == relevant[..i]
      invariant blocks == Blocks(env, used)
      invariant current == Cost(Pricer(env), relevant, i)
      invariant i > 0 ==> current <= budget
    {
      var block := FormatBlock(env, i + 1, relevant[i]);
      var tokens := env.count(block);
      assert Cost(Pricer(env), relevant, i + 1) == current + tokens;
      if current + tokens > budget {
        FitFromEdge(Pricer(env), relevant, budget, i);
        return;
      }
      BlocksAppend(env, used, relevant[i]);
      blocks := blocks + [block];
      used := used + [relevant[i]];
      current := current + tokens;
    }
    FitFromEdge(Pricer(env), relevant, budget, |relevant|);
  }

  // ---------------------------------------------------------------- citations

  function Preview(s: string): string { if |s| <= 200 then s else s[..200] }

  ghost predicate Cites(source: Source, r: SearchResult) {
    && source.chunkId == r.chunkId && source.documentId == r.documentId
    && source.title == r.title && source.score == r.score
    && source.content == Preview(r.content)
  }

  method BuildSources(results: seq<SearchResult>) returns (sources: seq<Source>)
    ensures |sources| == |results|
    ensures forall i :: 0 <= i < |sources| ==> sources[i].index == i + 1 && Cites(sources[i], results[i])
    ensures forall i :: 0 <= i < |sources| ==>
              && sources[i].content <= results[i].content
              && |sources[i].content| == if |results[i].content| <= 200 then |results[i].content| else 200
  {
    sources := [];
    for i := 0 to |results|
      invariant |sources| == i
      invariant forall j :: 0 <= j < i ==> sources[j].index == j + 1 && Cites(sources[j], results[j])
      invariant forall j :: 0 <= j < i ==>
                  && sources[j].content <= results[j].content
                  && |sources[j].content| == if |results[j].content| <= 200 then |results[j].content| else 200
    {
      var r := results[i];
      sources := sources + [Source(i + 1, r.chunkId, r.documentId, r.title, Preview(r.content), r.score)];
    }
  }

  /**
   What a reader may rely on: at the place of the i-th block, the context text shows label i + 1
   followed by that very result, and a returned source carries that number exactly when it cites it
   from the same position.
   */
  ghost predicate CitationsAgree(env: Env, context: string, sources: seq<Source>, used: seq<SearchResult>, i: nat)
    requires i < |used|
  {
    var blocks := Blocks(env, used);
    var at := Offset(blocks, i);
    && at <= |context| && |sources| == |used|
    && FormatBlock(env, i + 1, used[i]) <= context[at..]
    && Label(context[at..]) == sources[i].index
    && Cites(sources[i], used[i])
    && forall j :: 0 <= j < |sources| && sources[j].index == Label(context[at..]) ==> j == i
  }

  lemma {:induction false} LabelsDenoteSources(env: Env, used: seq<SearchResult>, sources: seq<Source>, i: nat)
    requires |sources| == |used| && i < |used|
    requires forall j :: 0 <= j < |sources| ==> sources[j].index == j + 1 && Cites(sources[j], used[j])
    ensures CitationsAgree(env, Join(Blocks(env, used)), sources, used, i)
  {
    var blocks := Blocks(env, used);
    assert blocks[i] == FormatBlock(env, i + 1, used[i]);
    JoinHoldsBlocks(blocks, i);
    LabelReadsBack(env, i + 1, used[i], Join(blocks)[Offset(blocks, i)..]);
  }

  /** The two calls together, as the chat use case makes them. */
  method Cite(env: Env, results: seq<SearchResult>, threshold: real, budget: int)
    returns (context: string, sources: seq<Source>, used: seq<SearchResult>)
    ensures LongestFit(Pricer(env), Relevant(results, threshold), budget, |used|)
    ensures used == Relevant(results, threshold)[..|used|]
    ensures |sources| == |used|
    ensures forall i :: 0 <= i < |used| ==> CitationsAgree(env, context, sources, used, i)
    ensures ScoreSorted(results) ==> used <= results
  {
    context, used := BuildContext(env, results, threshold, budget);
    sources := BuildSources(used);
    forall i | 0 <= i < |used| ensures CitationsAgree(env, context, sources, used, i) {
      LabelsDenoteSources(env, used, sources, i);
    }
    if ScoreSorted(results) {
      SortedFilterIsPrefix(results, threshold);
    }
  }
}
