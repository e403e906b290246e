/**
 Cache-aside batch embedding: app/infrastructure/llm/openai_embedding.py over the embedding part of
 app/infrastructure/cache/redis_cache.py.

 The cache is shared, so before every touch of it anything may have been evicted and other tasks may
 have written; a `Gap` says what.
 */
module EmbeddingCache {
  import opened Numbers
  import opened Options

  type Vector = seq<real>
  type Cache = map<string, Vector>

  datatype Gap = Gap(evicted: set<string>, written: Cache)

  /** What the outside does during one call; gaps past the end of a list are empty. */
  datatype Env = Env(
    beforeLookup: seq<Gap>,
    lookupRaises: Option<nat>,          // the first lookup that raises, if one does
    reply: Option<seq<Vector>>,         // None: the API call raises
    beforeWrite: seq<Gap>,
    writeFails: set<nat>)

  function GapAt(gaps: seq<Gap>, i: nat): Gap {
    if i < |gaps| then gaps[i] else Gap({}, map[])
  }

  function Interfere(c: Cache, g: Gap): Cache { (c - g.evicted) + g.written }

  // ---------------------------------------------------------------- specification

  /** The cache after the first n gaps; lookup i finds it after i + 1. */
  function View(c: Cache, gaps: seq<Gap>, n: nat): Cache {
    if n == 0 then c else Interfere(View(c, gaps, n - 1), GapAt(gaps, n - 1))
  }

  function Hit(enabled: bool, key: string -> string, c: Cache, gaps: seq<Gap>, text: string, i: nat): Option<Vector> {
    var v := View(c, gaps, i + 1);
    if enabled && key(text) in v then Some(v[key(text)]) else None
  }

  /** The first n slots of the result as the lookups leave them. */
  function Hits(enabled: bool, key: string -> string, c: Cache, gaps: seq<Gap>, texts: seq<string>, n: nat)
    : (r: seq<Option<Vector>>)
    requires n <= |texts|
    ensures |r| == n
  {
    if n == 0 then []
    else Hits(enabled, key, c, gaps, texts, n - 1) + [Hit(enabled, key, c, gaps, texts[n - 1], n - 1)]
  }

  /** The slots still empty. */
  function Misses(hits: seq<Option<Vector>>): (r: seq<nat>)
    ensures forall j :: 0 <= j < |r| ==> r[j] < |hits|
  {
    if hits == [] then []
    else Misses(hits[..|hits| - 1]) + if hits[|hits| - 1].None? then [|hits| - 1] else []
  }

  lemma {:induction false} MissesAppend(hits: seq<Option<Vector>>, h: Option<Vector>)
    ensures Misses(hits + [h]) == if h.None? then Misses(hits) + [|hits|] else Misses(hits)
  {
    assert (hits + [h])[..|hits + [h]| - 1] == hits;
  }

  /** The texts at those slots, in order: what is sent. */
  function Pick(texts: seq<string>, indices: seq<nat>): (r: seq<string>)
    requires forall j :: 0 <= j < |indices| ==> indices[j] < |texts|
    ensures |r| == |indices| && forall j :: 0 <= j < |r| ==> r[j] == texts[indices[j]]
  {
    seq(|indices|, j requires 0 <= j < |indices| => texts[indices[j]])
  }

  /** The first m vectors of the reply put where they belong. */
  function Fill(slots: seq<Option<Vector>>, indices: seq<nat>, reply: seq<Vector>, m: nat): (r: seq<Option<Vector>>)
    requires m <= |indices| && m <= |reply|
    requires forall j :: 0 <= j < |indices| ==> indices[j] < |slots|
    ensures |r| == |slots|
  {
    if m == 0 then slots else Fill(slots, indices, reply, m - 1)[indices[m - 1] := Some(reply[m - 1])]
  }

  /** The cache after the first m write-backs. */
  function Written(c: Cache, key: string -> string, sent: seq<string>, reply: seq<Vector>, env: Env, m: nat): Cache
    requires m <= |sent| && m <= |reply|
  {
    if m == 0 then c
    else
      var before := Interfere(Written(c, key, sent, reply, env, m - 1), GapAt(env.beforeWrite, m - 1));
      if m - 1 in env.writeFails then before else before[key(sent[m - 1]) := reply[m - 1]]
  }

  /** One of the lookups raises. */
  predicate LookupFails(enabled: bool, texts: seq<string>, env: Env) {
    enabled && env.lookupRaises.Some? && env.lookupRaises.value < |texts|
  }

  /** What goes to the API: the texts not found, in order. */
  function Sent(enabled: bool, key: string -> string, c: Cache, gaps: seq<Gap>, texts: seq<string>): seq<string> {
    var hits := Hits(enabled, key, c, gaps, texts, |texts|);
    Pick(texts, Misses(hits))
  }

  /** The cache when the call is over, however it ended. */
  function CacheAfter(enabled: bool, key: string -> string, c: Cache, texts: seq<string>, env: Env): Cache {
    if texts == [] || !enabled then c
    else if LookupFails(enabled, texts, env) then View(c, env.beforeLookup, env.lookupRaises.value + 1)
    else
      var looked := View(c, env.beforeLookup, |texts|);
      var sent := Sent(true, key, c, env.beforeLookup, texts);
      if sent == [] || env.reply.None? then looked
      else Written(looked, key, sent, env.reply.value, env, Min(|sent|, |env.reply.value|))
  }

  class OpenAIEmbeddingService {
    const enabled: bool
    var cache: Cache

    constructor (enabled: bool)
      ensures this.enabled == enabled && cache == map[]
    {
      this.enabled, cache := enabled, map[];
    }

    /** None stands for a raised exception; an empty slot for a text the reply was too short for. */
    method EmbedBatch(texts: seq<string>, key: string -> string, env: Env)
      returns (results: Option<seq<Option<Vector>>>, sent: seq<string>)
      modifies this`cache
      ensures LookupFails(enabled, texts, env) ==> results == None && sent == []
      ensures !LookupFails(enabled, texts, env) ==>
                var hits := Hits(enabled, key, old(cache), env.beforeLookup, texts, |texts|);
                var misses := Misses(hits);
                && sent == Pick(texts, misses)
                && (misses == [] ==> results == Some(hits))
                && (misses != [] && env.reply.None? ==> results == None)
                && (misses != [] && env.reply.Some? ==>
                      results == Some(Fill(hits, misses, env.reply.value, Min(|misses|, |env.reply.value|))))
      ensures cache == CacheAfter(enabled, key, old(cache), texts, env)
    {
      if texts == [] {
        return Some([]), [];
      }
      var slots, indices, ok := LookUpAll(texts, key, env);
      if !ok {
        return None, [];
      }
      sent := Pick(texts, indices);
      if sent == [] {
        return Some(slots), sent;
      }
      if env.reply.None? {
        return None, sent;
      }
      slots := WriteBackAll(slots, indices, sent, env.reply.value, key, env);
      results := Some(slots);
    }

    /**
     `embed_batch` against the embedding function E on the texts U: whatever happens, the cache stays
     coherent; it raises exactly when a lookup does or when there is something to send and the API call
     does; and if it returns, every slot is right, or empty because the reply was too short.
     */
    method EmbedPointwise(texts: seq<string>, key: string -> string, env: Env,
                          ghost E: string -> Vector, ghost U: set<string>)
      returns (results: Option<seq<Option<Vector>>>, sent: seq<string>)
      requires Trustworthy(enabled, key, cache, texts, env, E, U)
      modifies this`cache
      ensures Coherent(cache, key, E, U)
      ensures results.None? <==>
              || (enabled && env.lookupRaises.Some? && env.lookupRaises.value < |texts|)
              || (sent != [] && env.reply.None?)
      ensures results.Some? ==> sent == Sent(enabled, key, old(cache), env.beforeLookup, texts)
      ensures results.Some? ==> RightOrEmpty(results.value, texts, E)
      ensures results.Some? && (sent == [] || |env.reply.value| >= |sent|) ==> AllRight(results.value, texts, E)
    {
      ghost var c := cache;
      ghost var reply := if env.reply.Some? then env.reply.value else [];
      if texts != [] && !LookupFails(enabled, texts, env) {
        BatchIsPointwise(enabled, key, c, texts, env.beforeLookup, reply, E, U);
      }
      results, sent := EmbedBatch(texts, key, env);
      CallKeepsCoherence(enabled, key, c, texts, env, E, U);
    }

    /** `embed`: the batch of one. */
    method Embed(text: string, key: string -> string, env: Env, ghost E: string -> Vector, ghost U: set<string>)
      returns (vector: Option<Vector>)
      requires Trustworthy(enabled, key, cache, [text], env, E, U)
      modifies this`cache
      ensures Coherent(cache, key, E, U)
      ensures vector.Some? ==> vector.value == E(text)
    {
      var results, sent := EmbedPointwise([text], key, env, E, U);
      vector := if results.Some? then results.value[0] else None;
    }

    /** Part 1: separate cached from uncached. */
    method LookUpAll(texts: seq<string>, key: string -> string, env: Env)
      returns (slots: seq<Option<Vector>>, indices: seq<nat>, ok: bool)
      requires texts != []
      modifies this`cache
      ensures ok <==> !LookupFails(enabled, texts, env)
      ensures ok ==> slots == Hits(enabled, key, old(cache), env.beforeLookup, texts, |texts|)
      ensures ok ==> indices == Misses(slots)
      ensures ok ==> cache == if enabled then View(old(cache), env.beforeLookup, |texts|) else old(cache)
      ensures !ok ==> cache == View(old(cache), env.beforeLookup, env.lookupRaises.value + 1)
    {
      if enabled {
        slots, indices, ok := LookUpEach(texts, key, env);
      } else {
        slots, indices := MissAll(texts, key, env);
        ok := true;
      }
    }

    method LookUpEach(texts: seq<string>, key: string -> string, env: Env)
      returns (slots: seq<Option<Vector>>, indices: seq<nat>, ok: bool)
      requires texts != []
      modifies this`cache
      ensures ok <==> !LookupFails(true, texts, env)
      ensures ok ==> slots == Hits(true, key, old(cache), env.beforeLookup, texts, |texts|) && indices == Misses(slots)
      ensures ok ==> cache == View(old(cache), env.beforeLookup, |texts|)
      ensures !ok ==> cache == View(old(cache), env.beforeLookup, env.lookupRaises.value + 1)
    {
      slots, indices, ok := [], [], true;
      ghost var c := cache;
      var i: nat := 0;
      while i < |texts|
        invariant i <= |texts|
        invariant env.lookupRaises.Some? ==> i <= env.lookupRaises.value
        invariant slots == Hits(true, key, c, env.beforeLookup, texts, i)
        invariant indices == Misses(slots)
        invariant cache == View(c, env.beforeLookup, i)
      {
        slots, indices, ok := LookUpOne(texts, i, slots, indices, key, env, c);
        if !ok {
          return;
        }
        i := i + 1;
      }
    }

    method LookUpOne(texts: seq<string>, i: nat, slots: seq<Option<Vector>>, indices: seq<nat>,
                     key: string -> string, env: Env, ghost c: Cache)
      returns (slots': seq<Option<Vector>>, indices': seq<nat>, ok: bool)
      requires i < |texts| && cache == View(c, env.beforeLookup, i)
      requires slots == Hits(true, key, c, env.beforeLookup, texts, i) && indices == Misses(slots)
      modifies this`cache
      ensures cache == View(c, env.beforeLookup, i + 1)
      ensures ok == (env.lookupRaises != Some(i))
      ensures ok ==> slots' == Hits(true, key, c, env.beforeLookup, texts, i + 1) && indices' == Misses(slots')
    {
      slots', indices', ok := slots, indices, env.lookupRaises != Some(i);
      var cached := Get(texts[i], i, key, env, c);
      if ok {
        slots', indices' := Record(slots, indices, cached);
      }
    }

    /** One turn's bookkeeping: the slot, and the index if it stays empty. */
    method Record(slots: seq<Option<Vector>>, indices: seq<nat>, cached: Option<Vector>)
      returns (slots': seq<Option<Vector>>, indices': seq<nat>)
      requires indices == Misses(slots)
      ensures slots' == slots + [cached] && indices' == Misses(slots')
    {
      MissesAppend(slots, cached);
      slots' := slots + [cached];
      indices' := if cached.None? then indices + [|slots|] else indices;
    }

    method Get(text: string, i: nat, key: string -> string, env: Env, ghost c: Cache) returns (cached: Option<Vector>)
      requires cache == View(c, env.beforeLookup, i)
      modifies this`cache
      ensures cache == View(c, env.beforeLookup, i + 1)
      ensures cached == Hit(true, key, c, env.beforeLookup, text, i)
    {
      cache := Interfere(cache, GapAt(env.beforeLookup, i));
      var k := key(text);
      cached := if k in cache then Some(cache[k]) else None;
    }

    /** No cache configured: everything is a miss. */
    method MissAll(texts: seq<string>, key: string -> string, env: Env)
      returns (slots: seq<Option<Vector>>, indices: seq<nat>)
      ensures slots == Hits(false, key, cache, env.beforeLookup, texts, |texts|) && indices == Misses(slots)
    {
      slots, indices := [], [];
      for i := 0 to |texts|
        invariant slots == Hits(false, key, cache, env.beforeLookup, texts, i) && indices == Misses(slots)
      {
        slots, indices := Record(slots, indices, None);
      }
    }

    /** Parts 2 and 3: place each fresh vector and write it back, whatever becomes of the write. */
    method WriteBackAll(slots: seq<Option<Vector>>, indices: seq<nat>, sent: seq<string>, reply: seq<Vector>,
                        key: string -> string, env: Env) returns (filled: seq<Option<Vector>>)
      requires |sent| == |indices| && forall j :: 0 <= j < |indices| ==> indices[j] < |slots|
      modifies this`cache
      ensures filled == Fill(slots, indices, reply, Min(|indices|, |reply|))
      ensures cache == if enabled
                       then Written(old(cache), key, sent, reply, env, Min(|indices|, |reply|)) else old(cache)
    {
      filled := slots;
      var j := 0;
      while j < |indices| && j < |reply|
        invariant 0 <= j <= Min(|indices|, |reply|)
        invariant filled == Fill(slots, indices, reply, j)
        invariant cache == if enabled then Written(old(cache), key, sent, reply, env, j) else old(cache)
      {
        filled := filled[indices[j] := Some(reply[j])];
        if enabled {
          WriteBack(j, sent, reply, key, env, old(cache));
        }
        j := j + 1;
      }
    }

    method WriteBack(j: nat, sent: seq<string>, reply: seq<Vector>, key: string -> string, env: Env, ghost c: Cache)
      requires j < |sent| && j < |reply| && cache == Written(c, key, sent, reply, env, j)
      modifies this`cache
      ensures cache == Written(c, key, sent, reply, env, j + 1)
    {
      cache := Interfere(cache, GapAt(env.beforeWrite, j));
      if j !in env.writeFails {
        cache := cache[key(sent[j]) := reply[j]];
      }
    }
  }

  // ---------------------------------------------------------------- agreement with the uncached function

  /** E is the embedding function, U the texts in use. */
  ghost predicate Coherent(c: Cache, key: string -> string, E: string -> Vector, U: set<string>) {
    forall t :: t in U && key(t) in c ==> c[key(t)] == E(t)
  }

  /** Texts that share a cache key share an embedding; in particular any key injective on U. */
  ghost predicate KeyRespects(key: string -> string, E: string -> Vector, U: set<string>) {
    forall t, u :: t in U && u in U && key(t) == key(u) ==> E(t) == E(u)
  }

  ghost predicate CoherentGaps(gaps: seq<Gap>, key: string -> string, E: string -> Vector, U: set<string>) {
    forall i :: 0 <= i < |gaps| ==> Coherent(gaps[i].written, key, E, U)
  }

  /** An order-preserving answer, as far as it goes. */
  ghost predicate Truthful(reply: seq<Vector>, sent: seq<string>, E: string -> Vector) {
    forall j :: 0 <= j < |sent| && j < |reply| ==> reply[j] == E(sent[j])
  }

  lemma {:induction false} InterfereCoherent(
    c: Cache, gaps: seq<Gap>, i: nat, key: string -> string, E: string -> Vector, U: set<string>)
    requires Coherent(c, key, E, U) && CoherentGaps(gaps, key, E, U)
    ensures Coherent(Interfere(c, GapAt(gaps, i)), key, E, U)
  {}

  lemma {:induction false} ViewCoherent(c: Cache, gaps: seq<Gap>, n: nat,
                                        key: string -> string, E: string -> Vector, U: set<string>)
    requires Coherent(c, key, E, U) && CoherentGaps(gaps, key, E, U)
    ensures Coherent(View(c, gaps, n), key, E, U)
  {
    if n > 0 {
      ViewCoherent(c, gaps, n - 1, key, E, U);
      InterfereCoherent(View(c, gaps, n - 1), gaps, n - 1, key, E, U);
    }
  }

  lemma {:induction false} WrittenCoherent(c: Cache, key: string -> string, sent: seq<string>, reply: seq<Vector>,
                                           env: Env, m: nat, E: string -> Vector, U: set<string>)
    requires m <= |sent| && m <= |reply| && Truthful(reply, sent, E)
    requires forall j :: 0 <= j < |sent| ==> sent[j] in U
    requires Coherent(c, key, E, U) && CoherentGaps(env.beforeWrite, key, E, U) && KeyRespects(key, E, U)
    ensures Coherent(Written(c, key, sent, reply, env, m), key, E, U)
  {
    if m > 0 {
      var before := Written(c, key, sent, reply, env, m - 1);
      WrittenCoherent(c, key, sent, reply, env, m - 1, E, U);
      InterfereCoherent(before, env.beforeWrite, m - 1, key, E, U);
      PutCoherent(Interfere(before, GapAt(env.beforeWrite, m - 1)), key, sent[m - 1], E, U);
    }
  }

  lemma {:induction false} PutCoherent(c: Cache, key: string -> string, t: string, E: string -> Vector, U: set<string>)
    requires Coherent(c, key, E, U) && KeyRespects(key, E, U) && t in U
    ensures Coherent(c[key(t) := E(t)], key, E, U)
  {}

  /** A slot after the lookups: empty and missed, or already right. */
  lemma {:induction false} HitsAreRight(enabled: bool, key: string -> string, c: Cache, gaps: seq<Gap>,
                                        texts: seq<string>, n: nat, E: string -> Vector, U: set<string>)
    requires n <= |texts| && forall i :: 0 <= i < |texts| ==> texts[i] in U
    requires Coherent(c, key, E, U) && CoherentGaps(gaps, key, E, U)
    ensures var hits := Hits(enabled, key, c, gaps, texts, n);
            forall i :: 0 <= i < n ==> hits[i].None? || hits[i] == Some(E(texts[i]))
  {
    if n > 0 {
      HitsAreRight(enabled, key, c, gaps, texts, n - 1, E, U);
      ViewCoherent(c, gaps, n, key, E, U);
    }
  }

  /** Misses lists the empty slots, each once and in order. */
  lemma {:induction false} MissesAreTheEmptySlots(hits: seq<Option<Vector>>)
    ensures forall j :: 0 <= j < |Misses(hits)| ==> hits[Misses(hits)[j]].None?
    ensures forall i, j :: 0 <= i < j < |Misses(hits)| ==> Misses(hits)[i] < Misses(hits)[j]
    ensures forall i :: 0 <= i < |hits| && hits[i].None? ==> i in Misses(hits)
  {
    if hits != [] {
      MissesAreTheEmptySlots(hits[..|hits| - 1]);
    }
  }

  lemma {:induction false} FillAt(slots: seq<Option<Vector>>, indices: seq<nat>, reply: seq<Vector>, m: nat, i: nat)
    requires m <= |indices| && m <= |reply| && i < |slots|
    requires forall j :: 0 <= j < |indices| ==> indices[j] < |slots|
    requires forall j, k :: 0 <= j < k < |indices| ==> indices[j] < indices[k]
    ensures (forall j :: 0 <= j < m ==> indices[j] != i) ==> Fill(slots, indices, reply, m)[i] == slots[i]
    ensures forall j :: 0 <= j < m && indices[j] == i ==> Fill(slots, indices, reply, m)[i] == Some(reply[j])
  {
    if m > 0 {
      FillAt(slots, indices, reply, m - 1, i);
    }
  }

  lemma {:induction false} SlotIsRight(
    hits: seq<Option<Vector>>, texts: seq<string>, reply: seq<Vector>, E: string -> Vector, i: nat)
    requires |hits| == |texts| && i < |texts| && (hits[i].None? || hits[i] == Some(E(texts[i])))
    requires Truthful(reply, Pick(texts, Misses(hits)), E)
    ensures var misses := Misses(hits);
            var slot := Fill(hits, misses, reply, Min(|misses|, |reply|))[i];
            && (slot.None? || slot == Some(E(texts[i])))
            && (|reply| >= |misses| ==> slot.Some?)
  {
    var misses, m := Misses(hits), Min(|Misses(hits)|, |reply|);
    MissesAreTheEmptySlots(hits);
    FillAt(hits, misses, reply, m, i);
    if hits[i].None? {
      var j :| 0 <= j < |misses| && misses[j] == i;
      if j < m {
        assert reply[j] == E(Pick(texts, misses)[j]);
      } else {
        assert forall k :: 0 <= k < m ==> misses[k] < misses[j];
      }
    } else {
      assert forall k :: 0 <= k < m ==> misses[k] != i;
    }
  }

  /** Each slot is empty or holds the embedding of its text. */
  ghost predicate RightOrEmpty(slots: seq<Option<Vector>>, texts: seq<string>, E: string -> Vector) {
    |slots| == |texts| && forall i :: 0 <= i < |texts| ==> slots[i].None? || slots[i] == Some(E(texts[i]))
  }

  ghost predicate AllRight(slots: seq<Option<Vector>>, texts: seq<string>, E: string -> Vector) {
    |slots| == |texts| && forall i :: 0 <= i < |texts| ==> slots[i] == Some(E(texts[i]))
  }

  /**
   The batch agrees with the embedding function text by text, duplicates included, whatever was cached,
   evicted or written by others, and however short the reply: a slot is right or empty, and only a short
   reply leaves one empty.
   */
  lemma {:induction false} BatchIsPointwise(
    enabled: bool, key: string -> string, c: Cache, texts: seq<string>, gaps: seq<Gap>, reply: seq<Vector>,
    E: string -> Vector, U: set<string>)
    requires forall i :: 0 <= i < |texts| ==> texts[i] in U
    requires Coherent(c, key, E, U) && CoherentGaps(gaps, key, E, U)
    requires Truthful(reply, Pick(texts, Misses(Hits(enabled, key, c, gaps, texts, |texts|))), E)
    ensures var hits := Hits(enabled, key, c, gaps, texts, |texts|);
            var misses := Misses(hits);
            var slots := Fill(hits, misses, reply, Min(|misses|, |reply|));
            RightOrEmpty(slots, texts, E) && (|reply| >= |misses| ==> AllRight(slots, texts, E))
  {
    var hits := Hits(enabled, key, c, gaps, texts, |texts|);
    HitsAreRight(enabled, key, c, gaps, texts, |texts|, E, U);
    forall i | 0 <= i < |texts|
      ensures var slot := Fill(hits, Misses(hits), reply, Min(|Misses(hits)|, |reply|))[i];
              (slot.None? || slot == Some(E(texts[i]))) && (|reply| >= |Misses(hits)| ==> slot.Some?)
    {
      SlotIsRight(hits, texts, reply, E, i);
    }
  }

  /** What has to be true of a call for its result to be right: see `EmbedPointwise`. */
  ghost predicate Trustworthy(enabled: bool, key: string -> string, c: Cache, texts: seq<string>, env: Env,
                              E: string -> Vector, U: set<string>)
  {
    && (forall i :: 0 <= i < |texts| ==> texts[i] in U)
    && Coherent(c, key, E, U) && KeyRespects(key, E, U)
    && CoherentGaps(env.beforeLookup, key, E, U) && CoherentGaps(env.beforeWrite, key, E, U)
    && (env.reply.Some? ==>
          Truthful(env.reply.value, Pick(texts, Misses(Hits(enabled, key, c, env.beforeLookup, texts, |texts|))), E))
  }

  /** Whatever becomes of a call, it leaves the cache coherent, so the next one starts where this one did. */
  lemma {:induction false} CallKeepsCoherence(
    enabled: bool, key: string -> string, c: Cache, texts: seq<string>, env: Env, E: string -> Vector,
    U: set<string>)
    requires Trustworthy(enabled, key, c, texts, env, E, U)
    ensures Coherent(CacheAfter(enabled, key, c, texts, env), key, E, U)
  {
    if texts != [] && enabled {
      if LookupFails(enabled, texts, env) {
        ViewCoherent(c, env.beforeLookup, env.lookupRaises.value + 1, key, E, U);
      } else {
        var looked := View(c, env.beforeLookup, |texts|);
        ViewCoherent(c, env.beforeLookup, |texts|, key, E, U);
        var misses := Misses(Hits(true, key, c, env.beforeLookup, texts, |texts|));
        PickedFrom(texts, misses, U);
        if env.reply.Some? {
          var sent, reply := Pick(texts, misses), env.reply.value;
          WrittenCoherent(looked, key, sent, reply, env, Min(|sent|, |reply|), E, U);
        }
      }
    }
  }

  lemma {:induction false} PickedFrom(texts: seq<string>, indices: seq<nat>, U: set<string>)
    requires forall j :: 0 <= j < |indices| ==> indices[j] < |texts|
    requires forall i :: 0 <= i < |texts| ==> texts[i] in U
    ensures forall j :: 0 <= j < |indices| ==> Pick(texts, indices)[j] in U
  {}

  /** Texts do not share keys: equal keys, equal texts. */
  ghost predicate KeysApart(key: string -> string, texts: seq<string>) {
    forall i, j :: 0 <= i < |texts| && 0 <= j < |texts| && key(texts[i]) == key(texts[j]) ==> texts[i] == texts[j]
  }

  /** Nobody else touches the cache, no write-back fails. */
  predicate Quiet(env: Env) {
    env.beforeLookup == [] && env.beforeWrite == [] && env.writeFails == {} && env.lookupRaises == None
  }

  lemma {:induction false} QuietView(c: Cache, n: nat)
    ensures View(c, [], n) == c
  {
    if n > 0 {
      QuietView(c, n - 1);
    }
  }

  /** After m quiet write-backs the cache has what was written, and what it had before for other keys. */
  lemma {:induction false} QuietlyWritten(
    c: Cache, key: string -> string, sent: seq<string>, reply: seq<Vector>, env: Env, m: nat,
    E: string -> Vector, t: string)
    requires Quiet(env) && m <= |sent| && m <= |reply| && Truthful(reply, sent, E)
    requires forall j :: 0 <= j < |sent| && key(sent[j]) == key(t) ==> sent[j] == t
    ensures var w := Written(c, key, sent, reply, env, m);
            && ((exists j :: 0 <= j < m && sent[j] == t) ==> key(t) in w && w[key(t)] == E(t))
            && ((forall j :: 0 <= j < m ==> sent[j] != t) ==>
                  (key(t) in w <==> key(t) in c) && (key(t) in c ==> w[key(t)] == c[key(t)]))
  {
    if m > 0 {
      QuietlyWritten(c, key, sent, reply, env, m - 1, E, t);
      var before := Written(c, key, sent, reply, env, m - 1);
      assert Interfere(before, GapAt([], m - 1)) == before;
    }
  }

  /** Slot i of the lookups on an undisturbed cache. */
  lemma {:induction false} QuietHit(key: string -> string, c: Cache, texts: seq<string>, n: nat, i: nat)
    requires i < n <= |texts|
    ensures Hits(true, key, c, [], texts, n)[i] == if key(texts[i]) in c then Some(c[key(texts[i])]) else None
  {
    if i < n - 1 {
      QuietHit(key, c, texts, n - 1, i);
    } else {
      QuietView(c, n);
    }
  }

  lemma {:induction false} NothingMissed(hits: seq<Option<Vector>>)
    requires forall i :: 0 <= i < |hits| ==> hits[i].Some?
    ensures Misses(hits) == []
  {
    if hits != [] {
      NothingMissed(hits[..|hits| - 1]);
    }
  }

  lemma {:induction false} QuietCacheAfter(key: string -> string, c: Cache, texts: seq<string>, env: Env)
    requires Quiet(env)
    ensures var sent := Sent(true, key, c, [], texts);
            CacheAfter(true, key, c, texts, env) ==
            if texts == [] || sent == [] || env.reply.None? then c
            else Written(c, key, sent, env.reply.value, env, Min(|sent|, |env.reply.value|))
  {
    QuietView(c, |texts|);
  }

  /** A text is cached or sent. */
  lemma {:induction false} CachedOrSent(key: string -> string, c: Cache, texts: seq<string>, i: nat)
    requires i < |texts|
    ensures key(texts[i]) in c || texts[i] in Sent(true, key, c, [], texts)
  {
    var hits := Hits(true, key, c, [], texts, |texts|);
    var misses := Misses(hits);
    QuietHit(key, c, texts, |texts|, i);
    MissesAreTheEmptySlots(hits);
    if hits[i].None? {
      var j :| 0 <= j < |misses| && misses[j] == i;
      assert Pick(texts, misses)[j] == texts[i];
    }
  }

  lemma {:induction false} SentAreTexts(
    enabled: bool, key: string -> string, c: Cache, gaps: seq<Gap>, texts: seq<string>)
    ensures forall j :: 0 <= j < |Sent(enabled, key, c, gaps, texts)| ==> Sent(enabled, key, c, gaps, texts)[j] in texts
  {}

  /** What a quiet call with a full reply has cached for one of its texts. */
  lemma {:induction false} CachedAfterwards(
    key: string -> string, c: Cache, texts: seq<string>, env: Env, E: string -> Vector, U: set<string>, i: nat)
    requires Trustworthy(true, key, c, texts, env, E, U) && Quiet(env) && KeysApart(key, texts) && i < |texts|
    requires var sent := Sent(true, key, c, [], texts); sent != [] ==> env.reply.Some? && |env.reply.value| >= |sent|
    ensures var after := CacheAfter(true, key, c, texts, env);
            key(texts[i]) in after && after[key(texts[i])] == E(texts[i])
  {
    var sent, t := Sent(true, key, c, [], texts), texts[i];
    QuietCacheAfter(key, c, texts, env);
    CachedOrSent(key, c, texts, i);
    SentAreTexts(true, key, c, [], texts);
    if sent != [] {
      assert Truthful(env.reply.value, sent, E);
      SameKeySameText(key, texts, sent, t);
      QuietlyWritten(c, key, sent, env.reply.value, env, |sent|, E, t);
    }
  }

  lemma {:induction false} SameKeySameText(key: string -> string, texts: seq<string>, sent: seq<string>, t: string)
    requires KeysApart(key, texts) && t in texts && forall j :: 0 <= j < |sent| ==> sent[j] in texts
    ensures forall j :: 0 <= j < |sent| && key(sent[j]) == key(t) ==> sent[j] == t
  {}

  /**
   A second call is free: after an undisturbed call with a full reply, on texts that do not share keys, the
   same call again finds every text, sends nothing, and returns the embedding of each, API or no API.
   */
  lemma {:induction false} SecondCallIsFree(
    key: string -> string, c: Cache, texts: seq<string>, env: Env, E: string -> Vector, U: set<string>)
    requires Trustworthy(true, key, c, texts, env, E, U) && KeysApart(key, texts)
    requires env.beforeLookup == [] && env.beforeWrite == [] && env.writeFails == {} && env.lookupRaises == None
    requires var sent := Sent(true, key, c, [], texts); sent != [] ==> env.reply.Some? && |env.reply.value| >= |sent|
    ensures var after := CacheAfter(true, key, c, texts, env);
            && Sent(true, key, after, [], texts) == []
            && AllRight(Hits(true, key, after, [], texts, |texts|), texts, E)
  {
    var after := CacheAfter(true, key, c, texts, env);
    var hits := Hits(true, key, after, [], texts, |texts|);
    forall i | 0 <= i < |texts| ensures hits[i] == Some(E(texts[i])) {
      CachedAfterwards(key, c, texts, env, E, U, i);
      QuietHit(key, after, texts, |texts|, i);
    }
    NothingMissed(hits);
  }

  /**
   The key condition cannot be weakened: two texts with one key and different embeddings, asked for one
   after the other on an empty cache, and the second gets the first one's vector without any API call.
   */
  lemma {:induction false} CollisionServesTheWrongVector(
    key: string -> string, E: string -> Vector, t: string, u: string)
    requires key(t) == key(u) && E(t) != E(u)
    ensures var quiet := Env([], None, Some([E(t)]), [], {});
            var c1 := Written(View(map[], [], 1), key, [t], [E(t)], quiet, 1);
            && Hits(true, key, map[], [], [t], 1) == [None]
            && Hits(true, key, c1, [], [u], 1) == [Some(E(t))]
            && Misses(Hits(true, key, c1, [], [u], 1)) == []
            && Hits(true, key, c1, [], [u], 1)[0] != Some(E(u))
  {
    var quiet := Env([], None, Some([E(t)]), [], {});
    var empty: Cache := map[];
    assert View(empty, [], 0) == empty && View(empty, [], 1) == empty;
    assert Hits(true, key, empty, [], [t], 0) == [];
    var c1 := Written(empty, key, [t], [E(t)], quiet, 1);
    assert Interfere(Written(empty, key, [t], [E(t)], quiet, 0), Gap({}, map[])) == empty;
    assert c1 == map[key(t) := E(t)];
    assert View(c1, [], 0) == c1 && View(c1, [], 1) == c1;
    assert Hits(true, key, c1, [], [u], 0) == [];
    var h := Hits(true, key, c1, [], [u], 1);
    assert h[..0] == [];
  }
}
