/**
 * The embedding cache over its record file (cmd/cortexdb-bench/embedder.go):
 * the rules of one batch, and the class that follows them.
 */
module EmbedCache {
  import opened Wrappers
  import Texts
  import opened EmbedLog

  /** The model behind the cache, the hash that names a text, and what a name stands for. */
  datatype Model = Model(dim: nat, keyOf: string -> Key, embed: string -> Vec, meaning: Key -> Vec)

  /**
   * What is taken of the model and of SHA-256: keys are 32 bytes, vectors have
   * the model's dimension, and texts of one key have one embedding.
   */
  ghost predicate Faithful(m: Model) {
    forall t :: |m.keyOf(t)| == KEY_LEN && |m.embed(t)| == m.dim && m.embed(t) == m.meaning(m.keyOf(t))
  }

  // ------------------------------------------------------- one batch, in parts

  predicate InRange(places: seq<nat>, n: nat) {
    forall j :: 0 <= j < |places| ==> places[j] < n
  }

  /** The places of the texts the map does not hold. */
  function Misses(keyOf: string -> Key, vectors: map<Key, Vec>, texts: seq<string>): (miss: seq<nat>)
    ensures forall i :: i in miss <==> 0 <= i < |texts| && keyOf(texts[i]) !in vectors
    ensures InRange(miss, |texts|) && |miss| <= |texts|
  {
    if texts == [] then []
    else
      var n := |texts| - 1;
      assert forall i :: 0 <= i < n ==> texts[..n][i] == texts[i];
      Misses(keyOf, vectors, texts[..n]) + if keyOf(texts[n]) in vectors then [] else [n]
  }

  function Hits(keyOf: string -> Key, vectors: map<Key, Vec>, texts: seq<string>): (out: seq<Vec>)
    ensures |out| == |texts|
  {
    seq(|texts|, i requires 0 <= i < |texts| => if keyOf(texts[i]) in vectors then vectors[keyOf(texts[i])] else [])
  }

  function At(texts: seq<string>, places: seq<nat>): (s: seq<string>)
    requires InRange(places, |texts|)
    ensures |s| == |places|
  {
    seq(|places|, j requires 0 <= j < |places| => texts[places[j]])
  }

  function Filled(out: seq<Vec>, places: seq<nat>, vs: seq<Vec>): (r: seq<Vec>)
    requires |places| == |vs| && InRange(places, |out|)
    ensures |r| == |out|
  {
    if places == [] then out
    else
      var n := |places| - 1;
      Filled(out, places[..n], vs[..n])[places[n] := vs[n]]
  }

  /** The records a batch adds: one for each key that is new when its turn comes. */
  function Added(keyOf: string -> Key, vectors: map<Key, Vec>, texts: seq<string>, vs: seq<Vec>): seq<Record>
    requires |texts| == |vs|
  {
    if texts == [] then []
    else
      var n := |texts| - 1;
      var before := Added(keyOf, vectors, texts[..n], vs[..n]);
      var k := keyOf(texts[n]);
      if k in vectors || k in MapOf(before) then before else before + [Record(k, vs[n])]
  }

  /** r is the model's embedding of each text, in order. */
  ghost predicate Embeds(m: Model, texts: seq<string>, r: seq<Vec>) {
    |r| == |texts| && forall i :: 0 <= i < |texts| ==> r[i] == m.embed(texts[i])
  }

  /** Every record is the embedding of a text its key stands for. */
  ghost predicate Sound(m: Model, log: seq<Record>) {
    forall i :: 0 <= i < |log| ==> SoundRecord(m, log[i])
  }

  ghost predicate SoundRecord(m: Model, r: Record) {
    r.vector == m.meaning(r.key) && exists t :: m.keyOf(t) == r.key
  }

  /** A log the cache may hold: sized, sound, and no key twice. */
  ghost predicate GoodLog(m: Model, log: seq<Record>) {
    Sized(log, m.dim) && Sound(m, log) && DistinctKeys(log)
  }

  lemma {:induction false} MapOfAppend(a: seq<Record>, b: seq<Record>)
    ensures MapOf(a + b) == MapOf(a) + MapOf(b)
  {
    if b == [] {
      assert a + b == a;
    } else {
      var n := |b| - 1;
      assert (a + b)[..|a + b| - 1] == a + b[..n];
      MapOfAppend(a, b[..n]);
    }
  }

  lemma {:induction false} LogBytesAppend(a: seq<Record>, b: seq<Record>)
    ensures LogBytes(a + b) == LogBytes(a) + LogBytes(b)
  {
    if b == [] {
      assert a + b == a;
    } else {
      var n := |b| - 1;
      LogBytesAppend(a, b[..n]);
      assert (a + b)[..|a + b| - 1] == a + b[..n] && (a + b)[|a + b| - 1] == b[n];
      Associative(LogBytes(a), LogBytes(b[..n]), RecordBytes(b[n]));
    }
  }

  /** What a batch adds keeps the log good, and afterwards the map holds every key asked for. */
  lemma {:induction false} AddedKeepsLog(m: Model, log: seq<Record>, texts: seq<string>, vs: seq<Vec>)
    requires Faithful(m) && GoodLog(m, log) && Embeds(m, texts, vs)
    ensures GoodLog(m, log + Added(m.keyOf, MapOf(log), texts, vs))
    ensures forall i :: 0 <= i < |texts| ==> m.keyOf(texts[i]) in MapOf(log + Added(m.keyOf, MapOf(log), texts, vs))
  {
    var all := log + Added(m.keyOf, MapOf(log), texts, vs);
    if texts == [] {
      assert all == log;
    } else {
      var n := |texts| - 1;
      AddedKeepsLog(m, log, texts[..n], vs[..n]);
      var before := log + Added(m.keyOf, MapOf(log), texts[..n], vs[..n]);
      var k := m.keyOf(texts[n]);
      MapOfAppend(log, Added(m.keyOf, MapOf(log), texts[..n], vs[..n]));
      if k in MapOf(before) {
        assert all == before;
      } else {
        assert all == before + [Record(k, vs[n])];
        OneMoreRecord(m, before, texts[n]);
      }
      forall i | 0 <= i < |texts| ensures m.keyOf(texts[i]) in MapOf(all) {
        if i < n {
          assert texts[..n][i] == texts[i];
        }
      }
    }
  }

  lemma OneMoreRecord(m: Model, log: seq<Record>, t: string)
    requires Faithful(m) && GoodLog(m, log) && m.keyOf(t) !in MapOf(log)
    ensures GoodLog(m, log + [Record(m.keyOf(t), m.embed(t))])
    ensures MapOf(log + [Record(m.keyOf(t), m.embed(t))]) == MapOf(log)[m.keyOf(t) := m.embed(t)]
  {
    var r := Record(m.keyOf(t), m.embed(t));
    var longer := log + [r];
    assert longer[..|log|] == log;
    assert SoundRecord(m, r);
    MapHasRecorded(log, r.key);
    forall i, j | 0 <= i < j < |longer| ensures longer[i].key != longer[j].key {
      assert longer[i] == log[i];
    }
  }

  /** vs are the embeddings of the texts at these places. */
  ghost predicate AnswersAt(m: Model, texts: seq<string>, places: seq<nat>, vs: seq<Vec>) {
    InRange(places, |texts|) && |places| == |vs| && forall j :: 0 <= j < |places| ==> vs[j] == m.embed(texts[places[j]])
  }

  lemma {:induction false} FilledAt(m: Model, texts: seq<string>, out: seq<Vec>, places: seq<nat>, vs: seq<Vec>, i: nat)
    requires |out| == |texts| && AnswersAt(m, texts, places, vs) && i < |texts|
    ensures Filled(out, places, vs)[i] == if i in places then m.embed(texts[i]) else out[i]
  {
    if places != [] {
      var n := |places| - 1;
      FilledAt(m, texts, out, places[..n], vs[..n], i);
      assert i in places <==> i in places[..n] || i == places[n];
    }
  }

  /** Hits and answers together are the embeddings of the batch, in order, repeats included. */
  lemma FilledEmbeds(m: Model, texts: seq<string>, out: seq<Vec>, places: seq<nat>, vs: seq<Vec>)
    requires |out| == |texts| && AnswersAt(m, texts, places, vs)
    requires forall i :: 0 <= i < |texts| && i !in places ==> out[i] == m.embed(texts[i])
    ensures Embeds(m, texts, Filled(out, places, vs))
  {
    forall i | 0 <= i < |texts| ensures Filled(out, places, vs)[i] == m.embed(texts[i]) {
      FilledAt(m, texts, out, places, vs, i);
    }
  }

  lemma HitsAreRight(m: Model, log: seq<Record>, texts: seq<string>)
    requires Faithful(m) && GoodLog(m, log)
    ensures forall i :: 0 <= i < |texts| && i !in Misses(m.keyOf, MapOf(log), texts) ==>
              Hits(m.keyOf, MapOf(log), texts)[i] == m.embed(texts[i])
  {
    forall i | 0 <= i < |texts| && i !in Misses(m.keyOf, MapOf(log), texts)
      ensures Hits(m.keyOf, MapOf(log), texts)[i] == m.embed(texts[i])
    {
      // A vector of the map is the embedding of every text of its key.
      assert MapOf(log)[m.keyOf(texts[i])] == m.embed(texts[i]) by {
        MapValues(log, m.keyOf(texts[i]));
        var r :| r in log && r.key == m.keyOf(texts[i]) && r.vector == MapOf(log)[m.keyOf(texts[i])];
        assert SoundRecord(m, r);
      }
    }
  }

  lemma NoMisses(m: Model, log: seq<Record>, texts: seq<string>)
    requires Faithful(m) && GoodLog(m, log) && Misses(m.keyOf, MapOf(log), texts) == []
    ensures Embeds(m, texts, Hits(m.keyOf, MapOf(log), texts))
    ensures forall i :: 0 <= i < |texts| ==> m.keyOf(texts[i]) in MapOf(log)
  {
    HitsAreRight(m, log, texts);
    assert forall i :: 0 <= i < |texts| ==> i !in Misses(m.keyOf, MapOf(log), texts);
  }

  /** A whole batch over one log, from the misses the first part found. */
  lemma WholeBatch(m: Model, log: seq<Record>, texts: seq<string>, vs: seq<Vec>)
    requires Faithful(m) && GoodLog(m, log) && Embeds(m, At(texts, Misses(m.keyOf, MapOf(log), texts)), vs)
    ensures var miss := Misses(m.keyOf, MapOf(log), texts);
            var all := log + Added(m.keyOf, MapOf(log), At(texts, miss), vs);
            && Embeds(m, texts, Filled(Hits(m.keyOf, MapOf(log), texts), miss, vs))
            && forall i :: 0 <= i < |texts| ==> m.keyOf(texts[i]) in MapOf(all)
  {
    var miss := Misses(m.keyOf, MapOf(log), texts);
    var missTexts := At(texts, miss);
    HitsAreRight(m, log, texts);
    FilledEmbeds(m, texts, Hits(m.keyOf, MapOf(log), texts), miss, vs);
    AddedKeepsLog(m, log, missTexts, vs);
    MapOfAppend(log, Added(m.keyOf, MapOf(log), missTexts, vs));
    var all := log + Added(m.keyOf, MapOf(log), missTexts, vs);
    forall i | 0 <= i < |texts| ensures m.keyOf(texts[i]) in MapOf(all) {
      if i in miss {
        var j :| 0 <= j < |miss| && miss[j] == i;
        assert missTexts[j] == texts[i];
      } else {
        assert m.keyOf(texts[i]) in MapOf(log) + MapOf(Added(m.keyOf, MapOf(log), missTexts, vs));
      }
    }
  }

  // ------------------------------------------------------------------ the class

  /** The words of a text joined by single spaces (strings.Fields, strings.Join). */
  function Joined(words: seq<string>): string {
    Texts.Join(words, " ")
  }

  const FACADE_CHUNK_WORDS: nat := 120
  const FACADE_CHUNK_RUNES: nat := 480
  const WARM_STEP: nat := 512
  const INNER_BATCH: nat := 32

  /** The one chunk a short document becomes; None for a longer one. */
  function PredictedChunk(fields: string -> seq<string>, content: string): Option<string> {
    var words := fields(content);
    if words == [] || |words| > FACADE_CHUNK_WORDS || |Joined(words)| > FACADE_CHUNK_RUNES then None
    else Some(Joined(words))
  }

  /** Where the i-th word stands, when one character separates each from the next. */
  function Start(words: seq<string>, i: nat): nat
    requires i <= |words|
  {
    if i == 0 then 0 else Start(words, i - 1) + |words[i - 1]| + 1
  }

  lemma {:induction false} StartAfterFirst(words: seq<string>, i: nat)
    requires 0 < i <= |words|
    ensures Start(words, i) == |words[0]| + 1 + Start(words[1..], i - 1)
    decreases i
  {
    if i > 1 {
      StartAfterFirst(words, i - 1);
      assert words[1..][i - 2] == words[i - 1];
    }
  }

  /** The i-th word stands in its place in text, with a space after it unless it is the last. */
  ghost predicate StandsIn(words: seq<string>, text: string, i: nat)
    requires i < |words|
  {
    var at, end := Start(words, i), Start(words, i) + |words[i]|;
    end <= |text| && text[at..end] == words[i] && (i + 1 < |words| ==> end < |text| && text[end] == ' ')
  }

  lemma {:induction false} JoinedLength(words: seq<string>)
    requires words != []
    ensures |Joined(words)| + 1 == Start(words, |words|)
  {
    StartAfterFirst(words, |words|);
    if |words| > 1 {
      JoinedLength(words[1..]);
    }
  }

  lemma StandsFirst(words: seq<string>, rest: string)
    requires words != []
    ensures StandsIn(words, words[0] + " " + rest, 0)
  {
    var text := words[0] + " " + rest;
    assert text[0..|words[0]|] == words[0] && text[|words[0]|] == ' ';
  }

  lemma StandsAfter(words: seq<string>, rest: string, i: nat)
    requires 0 < i < |words| && StandsIn(words[1..], rest, i - 1)
    ensures StandsIn(words, words[0] + " " + rest, i)
  {
    var n, at := |words[0]| + 1, Start(words[1..], i - 1);
    StartAfterFirst(words, i);
    ShiftedSlice(words[0] + " ", rest, at, at + |words[1..][i - 1]|);
  }

  lemma ShiftedSlice(front: string, rest: string, lo: nat, hi: nat)
    requires lo <= hi <= |rest|
    ensures (front + rest)[|front| + lo..|front| + hi] == rest[lo..hi]
    ensures hi < |rest| ==> (front + rest)[|front| + hi] == rest[hi]
  {
  }

  lemma {:induction false} JoinedAt(words: seq<string>, i: nat)
    requires i < |words|
    ensures StandsIn(words, Joined(words), i)
    decreases |words|
  {
    if |words| > 1 {
      if i == 0 {
        StandsFirst(words, Joined(words[1..]));
      } else {
        JoinedAt(words[1..], i - 1);
        StandsAfter(words, Joined(words[1..]), i);
      }
    }
  }

  /**
   * What Warm embeds of a document: the one chunk it becomes, when it has a word,
   * at most 120 of them and at most 480 characters; the words as they stand, one
   * space between each and the next.
   */
  lemma PredictedExactly(fields: string -> seq<string>, content: string)
    ensures var words, chunk := fields(content), PredictedChunk(fields, content);
            && (chunk.Some? <==> 0 < |words| <= 120 && Start(words, |words|) - 1 <= 480)
            && (chunk.Some? ==>
                  && |chunk.value| == Start(words, |words|) - 1
                  && forall i: nat :: i < |words| ==> StandsIn(words, chunk.value, i))
  {
    var words := fields(content);
    if words != [] {
      JoinedLength(words);
      forall i: nat | i < |words| ensures StandsIn(words, Joined(words), i) {
        JoinedAt(words, i);
      }
    }
  }

  /** One request to the model: its vectors, or an error. Only the right vectors count as an answer. */
  type Call = seq<string> -> Option<seq<Vec>>

  ghost predicate Answers(m: Model, call: Call) {
    forall texts :: call(texts).Some? ==> Embeds(m, texts, call(texts).value)
  }

  /** The texts of the k-th request for a batch. */
  function RequestAt(texts: seq<string>, k: nat): seq<string>
    requires INNER_BATCH * k <= |texts|
  {
    texts[INNER_BATCH * k..if INNER_BATCH * (k + 1) < |texts| then INNER_BATCH * (k + 1) else |texts|]
  }

  ghost predicate Answered(call: Call, texts: seq<string>, k: nat)
    requires INNER_BATCH * k <= |texts|
  {
    call(RequestAt(texts, k)).Some?
  }

  /**
   * The model asked in batches of 32: the vectors of all texts in order, exactly
   * when every request is answered. asked is how many were made: none for no
   * texts, and never more than there are 32s of texts begun.
   */
  method InnerEmbedBatch(ghost m: Model, call: Call, texts: seq<string>) returns (r: Option<seq<Vec>>, ghost asked: nat)
    requires Answers(m, call)
    ensures r.Some? ==> Embeds(m, texts, r.value)
    ensures r.Some? <==> forall k: nat :: INNER_BATCH * k < |texts| ==> Answered(call, texts, k)
    ensures 32 * asked < |texts| + 32 && (r.Some? ==> |texts| <= 32 * asked)
  {
    var out: seq<Vec> := [];
    var start := 0;
    asked := 0;
    while start < |texts|
      invariant start == INNER_BATCH * asked && start < |texts| + INNER_BATCH
      invariant Embeds(m, texts[..if start < |texts| then start else |texts|], out)
      invariant forall k: nat :: k < asked ==> Answered(call, texts, k)
    {
      var end := if start + INNER_BATCH < |texts| then start + INNER_BATCH else |texts|;
      assert RequestAt(texts, asked) == texts[start..end];
      var vs := call(texts[start..end]);
      asked := asked + 1;
      if vs.None? {
        assert !Answered(call, texts, asked - 1);
        return None, asked;
      }
      assert texts[..end] == texts[..start] + texts[start..end];
      out := out + vs.value;
      start := start + INNER_BATCH;
    }
    assert texts[..|texts|] == texts;
    r := Some(out);
  }

  /** What the first part has found after i texts. */
  ghost predicate FoundIn(keyOf: string -> Key, vectors: map<Key, Vec>, texts: seq<string>,
                          out: seq<Vec>, miss: seq<nat>, missTexts: seq<string>) {
    && out == Hits(keyOf, vectors, texts)
    && miss == Misses(keyOf, vectors, texts)
    && missTexts == At(texts, miss)
  }

  lemma FoundOneMore(keyOf: string -> Key, vectors: map<Key, Vec>, texts: seq<string>, i: nat,
                     out: seq<Vec>, miss: seq<nat>, missTexts: seq<string>)
    requires i < |texts| && FoundIn(keyOf, vectors, texts[..i], out, miss, missTexts)
    ensures var k := keyOf(texts[i]);
            if k in vectors then FoundIn(keyOf, vectors, texts[..i + 1], out + [vectors[k]], miss, missTexts)
            else FoundIn(keyOf, vectors, texts[..i + 1], out + [[]], miss + [i], missTexts + [texts[i]])
  {
    assert texts[..i + 1] == texts[..i] + [texts[i]];
    HitsOneMore(keyOf, vectors, texts[..i], texts[i]);
    MissesOneMore(keyOf, vectors, texts[..i], texts[i]);
    AtOneMore(texts[..i], texts[i], miss);
  }

  lemma HitsOneMore(keyOf: string -> Key, vectors: map<Key, Vec>, texts: seq<string>, t: string)
    ensures Hits(keyOf, vectors, texts + [t])
         == Hits(keyOf, vectors, texts) + [if keyOf(t) in vectors then vectors[keyOf(t)] else []]
  {
  }

  lemma MissesOneMore(keyOf: string -> Key, vectors: map<Key, Vec>, texts: seq<string>, t: string)
    ensures Misses(keyOf, vectors, texts + [t])
         == Misses(keyOf, vectors, texts) + if keyOf(t) in vectors then [] else [|texts|]
  {
    assert (texts + [t])[..|texts|] == texts;
  }

  lemma AtOneMore(texts: seq<string>, t: string, places: seq<nat>)
    requires InRange(places, |texts|)
    ensures At(texts + [t], places) == At(texts, places)
    ensures At(texts + [t], places + [|texts|]) == At(texts, places) + [t]
  {
  }

  method LookupAll(keyOf: string -> Key, vectors: map<Key, Vec>, texts: seq<string>)
    returns (out: seq<Vec>, miss: seq<nat>, missTexts: seq<string>, found: nat)
    ensures FoundIn(keyOf, vectors, texts, out, miss, missTexts) && found == |texts| - |miss|
  {
    out, miss, missTexts, found := [], [], [], 0;
    for i := 0 to |texts|
      invariant FoundIn(keyOf, vectors, texts[..i], out, miss, missTexts) && found == i - |miss|
    {
      FoundOneMore(keyOf, vectors, texts, i, out, miss, missTexts);
      var k := keyOf(texts[i]);
      if k in vectors {
        out := out + [vectors[k]];
        found := found + 1;
      } else {
        out := out + [[]];
        missTexts := missTexts + [texts[i]];
        miss := miss + [i];
      }
    }
    assert texts[..|texts|] == texts;
  }

  /** The loop that puts the answers in place, and keeps and writes those whose key is new. */
  method StoreAll(keyOf: string -> Key, held: map<Key, Vec>, out0: seq<Vec>, miss: seq<nat>, missTexts: seq<string>, vs: seq<Vec>)
    returns (out: seq<Vec>, vectors: map<Key, Vec>, written: seq<Byte>, count: nat)
    requires |miss| == |missTexts| == |vs| && InRange(miss, |out0|)
    ensures out == Filled(out0, miss, vs)
    ensures Stored(keyOf, held, missTexts, vs, vectors, written, count)
  {
    out, vectors, written, count := out0, held, [], 0;
    for j := 0 to |miss|
      invariant out == Filled(out0, miss[..j], vs[..j])
      invariant Stored(keyOf, held, missTexts[..j], vs[..j], vectors, written, count)
    {
      assert Filled(out0, miss[..j + 1], vs[..j + 1]) == Filled(out0, miss[..j], vs[..j])[miss[j] := vs[j]] by {
        var p, v := miss[..j + 1], vs[..j + 1];
        assert |p| == j + 1 && p[..j] == miss[..j] && v[..j] == vs[..j] && p[j] == miss[j] && v[j] == vs[j];
      }
      StoredSnoc(keyOf, held, missTexts, vs, j, vectors, written, count);
      out := out[miss[j] := vs[j]];
      var k := keyOf(missTexts[j]);
      if k in vectors {
        continue;
      }
      vectors := vectors[k := vs[j]];
      count := count + 1;
      var bytes := VectorBytes(vs[j]);
      written := written + (k + bytes);
    }
    assert miss[..|miss|] == miss && vs[..|miss|] == vs && missTexts[..|miss|] == missTexts;
  }

  /** The map, the bytes and the count after a number of answers. */
  ghost predicate Stored(keyOf: string -> Key, held: map<Key, Vec>, texts: seq<string>, vs: seq<Vec>,
                         vectors: map<Key, Vec>, written: seq<Byte>, count: nat)
    requires |texts| == |vs|
  {
    var added := Added(keyOf, held, texts, vs);
    vectors == held + MapOf(added) && written == LogBytes(added) && count == |added|
  }

  lemma StoredSnoc(keyOf: string -> Key, held: map<Key, Vec>, texts: seq<string>, vs: seq<Vec>, j: nat,
                   vectors: map<Key, Vec>, written: seq<Byte>, count: nat)
    requires |texts| == |vs| && j < |texts| && Stored(keyOf, held, texts[..j], vs[..j], vectors, written, count)
    ensures var k := keyOf(texts[j]);
            if k in vectors then Stored(keyOf, held, texts[..j + 1], vs[..j + 1], vectors, written, count)
            else Stored(keyOf, held, texts[..j + 1], vs[..j + 1],
                        vectors[k := vs[j]], written + (k + VecBytes(vs[j])), count + 1)
  {
    assert texts[..j + 1][..j] == texts[..j] && vs[..j + 1][..j] == vs[..j];
    var before, r := Added(keyOf, held, texts[..j], vs[..j]), Record(keyOf(texts[j]), vs[j]);
    assert (before + [r])[..|before|] == before;
    assert held + MapOf(before + [r]) == (held + MapOf(before))[r.key := r.vector];
  }

  /** One vector, four bytes a component. */
  method VectorBytes(v: Vec) returns (bytes: seq<Byte>)
    ensures bytes == VecBytes(v)
  {
    bytes := [];
    for i := 0 to |v|
      invariant bytes == VecBytes(v[..i])
    {
      assert v[..i + 1][..i] == v[..i];
      bytes := bytes + PutUint32(v[i]);
    }
    assert v[..|v|] == v;
  }

  /** Opening a torn log: the whole records are a good log, and the file is cut to exactly their bytes. */
  lemma OpenedLog(m: Model, written: seq<Record>, data: seq<Byte>)
    requires Faithful(m) && GoodLog(m, written) && data <= LogBytes(written)
    ensures var n := Whole(|data|, m.dim);
            && n <= |written| && GoodLog(m, written[..n])
            && MapOf(Parsed(data, n, m.dim)) == MapOf(written[..n]) && |MapOf(written[..n])| == n
            && data[..Span(n, m.dim)] == LogBytes(written[..n])
  {
    TornLog(written, data, m.dim);
    GoodPrefix(m, written, Whole(|data|, m.dim));
  }

  lemma GoodPrefix(m: Model, log: seq<Record>, n: nat)
    requires GoodLog(m, log) && n <= |log|
    ensures GoodLog(m, log[..n]) && |MapOf(log[..n])| == n
  {
    MapOfDistinct(log[..n]);
  }

  /** The length a file is cut to. */
  method WholeBytes(size: nat, dim: nat) returns (whole: nat)
    ensures whole == Span(Whole(size, dim), dim)
  {
    SpanOfWhole(size, dim);
    whole := size - size % RecLen(dim);
  }

  /** One vector, read back. */
  method ReadVector(data: seq<Byte>, off: nat, dim: nat) returns (v: Vec)
    requires off + 4 * dim <= |data|
    ensures v == VecAt(data, off, dim)
  {
    v := [];
    for i := 0 to dim
      invariant v == VecAt(data, off, i)
    {
      v := v + [Uint32(data[off + 4 * i..off + 4 * i + 4])];
    }
  }

  method ReadRecord(data: seq<Byte>, off: nat, dim: nat) returns (k: Key, v: Vec)
    requires off + RecLen(dim) <= |data|
    ensures Record(k, v) == RecordAt(data, off, dim)
  {
    k := data[off..off + KEY_LEN];
    v := ReadVector(data, off + KEY_LEN, dim);
  }

  lemma ParsedOneMore(data: seq<Byte>, n: nat, dim: nat)
    requires Span(n + 1, dim) <= |data|
    ensures Span(n, dim) + RecLen(dim) == Span(n + 1, dim)
    ensures MapOf(Parsed(data, n + 1, dim))
         == (var r := RecordAt(data, Span(n, dim), dim); MapOf(Parsed(data, n, dim))[r.key := r.vector])
  {
    MapOfOneMore(Parsed(data, n, dim), RecordAt(data, Span(n, dim), dim));
  }

  lemma MapOfOneMore(log: seq<Record>, r: Record)
    ensures MapOf(log + [r]) == MapOf(log)[r.key := r.vector]
  {
    assert (log + [r])[..|log|] == log;
  }

  /** What the loop has after n records. */
  ghost predicate Loaded(data: seq<Byte>, dim: nat, n: nat, off: nat, vectors: map<Key, Vec>) {
    off == Span(n, dim) <= |data| && vectors == MapOf(Parsed(data, n, dim))
  }

  lemma LoadedOneMore(data: seq<Byte>, dim: nat, count: nat, n: nat, off: nat, vectors: map<Key, Vec>)
    requires Loaded(data, dim, n, off, vectors) && n <= count && off < Span(count, dim) <= |data|
    ensures n < count && off + RecLen(dim) <= |data|
    ensures var r := RecordAt(data, off, dim); Loaded(data, dim, n + 1, off + RecLen(dim), vectors[r.key := r.vector])
  {
    SpanMono(n + 1, count, dim);
    ParsedOneMore(data, n, dim);
  }

  lemma LoadedAll(data: seq<Byte>, dim: nat, count: nat, n: nat, off: nat, vectors: map<Key, Vec>)
    requires Loaded(data, dim, n, off, vectors) && n <= count && Span(count, dim) <= off
    ensures n == count
  {
    SpanMono(n, count, dim);
  }

  /** The loop over a file's whole records. */
  method LoadRecords(data: seq<Byte>, whole: nat, dim: nat) returns (vectors: map<Key, Vec>)
    requires whole == Span(Whole(|data|, dim), dim)
    ensures vectors == MapOf(Parsed(data, Whole(|data|, dim), dim))
  {
    vectors := map[];
    ghost var count := Whole(|data|, dim);
    var off: nat := 0;
    ghost var n: nat := 0;
    while off < whole
      invariant n <= count && Loaded(data, dim, n, off, vectors)
      decreases count - n
    {
      LoadedOneMore(data, dim, count, n, off, vectors);
      var k, v := ReadRecord(data, off, dim);
      vectors := vectors[k := v];
      off := off + RecLen(dim);
      n := n + 1;
    }
    LoadedAll(data, dim, count, n, off, vectors);
  }

  lemma Associative(a: seq<Byte>, b: seq<Byte>, c: seq<Byte>)
    ensures a + (b + c) == a + b + c
  {
  }

  /** A map, the bytes of the file and the buffer together, and a count, are those of one good log. */
  ghost predicate Consistent(m: Model, log: seq<Record>, vectors: map<Key, Vec>, bytes: seq<Byte>, count: nat) {
    GoodLog(m, log) && vectors == MapOf(log) && bytes == LogBytes(log) && |vectors| == count
  }

  /** The map holds the key of every one of these texts. */
  ghost predicate AllIn(m: Model, vectors: map<Key, Vec>, texts: seq<string>) {
    forall i :: 0 <= i < |texts| ==> m.keyOf(texts[i]) in vectors
  }

  lemma StaysConsistent(m: Model, log: seq<Record>, vectors: map<Key, Vec>, file: seq<Byte>, pending: seq<Byte>, count: nat,
                        texts: seq<string>, vs: seq<Vec>)
    requires Faithful(m) && Consistent(m, log, vectors, file + pending, count) && Embeds(m, texts, vs)
    ensures var added := Added(m.keyOf, vectors, texts, vs);
            Consistent(m, log + added, vectors + MapOf(added), file + (pending + LogBytes(added)), count + |added|)
  {
    var added := Added(m.keyOf, vectors, texts, vs);
    // The second locked part, over whatever log stands by then.
    assert var added := Added(m.keyOf, MapOf(log), texts, vs);
      && GoodLog(m, log + added)
      && MapOf(log) + MapOf(added) == MapOf(log + added)
      && LogBytes(log) + LogBytes(added) == LogBytes(log + added)
      && |MapOf(log + added)| == |MapOf(log)| + |added|
    by {
      var added := Added(m.keyOf, MapOf(log), texts, vs);
      AddedKeepsLog(m, log, texts, vs);
      MapOfAppend(log, added);
      LogBytesAppend(log, added);
      MapOfDistinct(log);
      MapOfDistinct(log + added);
    }
    Associative(file, pending, LogBytes(added));
  }

  class CachedEmbedder {
    const model: Model
    var vectors: map<Key, Vec>
    var file: seq<Byte>
    var pending: seq<Byte>
    var hits: nat
    var computed: nat
    ghost var log: seq<Record>
    ghost var loaded: nat
    // the requests made of the model so far
    ghost var asked: nat

    /** The file and the buffer together are the records of the map, each key once. */
    ghost predicate Valid()
      reads this
    {
      Faithful(model) && Consistent(model, log, vectors, file + pending, loaded + computed)
    }

    /** Open over a file that holds, whole or torn, a log the cache wrote. */
    constructor (m: Model, data: seq<Byte>, ghost written: seq<Record>)
      requires Faithful(m) && GoodLog(m, written) && data <= LogBytes(written)
      ensures Valid() && model == m && pending == [] && hits == 0 && computed == 0
      ensures loaded == Whole(|data|, m.dim) <= |written| && log == written[..loaded]
      ensures file == data[..Span(loaded, m.dim)]
    {
      var whole := WholeBytes(|data|, m.dim);
      OpenedLog(m, written, data);
      ghost var count := Whole(|data|, m.dim);
      model := m;
      var loading := LoadRecords(data, whole, m.dim);
      vectors := loading;
      file, pending := data[..whole], [];
      hits, computed := 0, 0;
      log, loaded, asked := written[..count], count, 0;
    }

    /** Under the lock: what the map answers, and the places it does not. */
    method Lookup(texts: seq<string>) returns (out: seq<Vec>, miss: seq<nat>, missTexts: seq<string>)
      modifies this`hits
      ensures out == Hits(model.keyOf, vectors, texts) && miss == Misses(model.keyOf, vectors, texts)
      ensures missTexts == At(texts, miss)
      ensures hits == old(hits) + |texts| - |miss|
    {
      var found: nat;
      out, miss, missTexts, found := LookupAll(model.keyOf, vectors, texts);
      hits := hits + found;
    }

    /** Under the lock again: the model's answers put in place, and the new ones recorded. */
    method Store(out0: seq<Vec>, miss: seq<nat>, missTexts: seq<string>, vs: seq<Vec>) returns (out: seq<Vec>)
      requires |miss| == |missTexts| == |vs| && InRange(miss, |out0|)
      modifies this`vectors, this`pending, this`computed
      ensures out == Filled(out0, miss, vs)
      ensures var added := Added(model.keyOf, old(vectors), missTexts, vs);
              && vectors == old(vectors) + MapOf(added)
              && pending == old(pending) + LogBytes(added)
              && computed == old(computed) + |added|
    {
      var count: nat, bytes: seq<Byte>;
      out, vectors, bytes, count := StoreAll(model.keyOf, vectors, out0, miss, missTexts, vs);
      pending := pending + bytes;
      computed := computed + count;
    }

    /** Store, with what it means for the log: every record it adds is a new key's, and sound. */
    method Commit(texts: seq<string>, out0: seq<Vec>, miss: seq<nat>, missTexts: seq<string>, vs: seq<Vec>)
      returns (out: seq<Vec>)
      requires Valid() && Embeds(model, missTexts, vs) && |miss| == |vs| && InRange(miss, |out0|)
      modifies this`vectors, this`pending, this`computed, this`log
      ensures Valid() && out == Filled(out0, miss, vs)
      ensures log == old(log) + Added(model.keyOf, old(vectors), missTexts, vs)
    {
      ghost var added := Added(model.keyOf, vectors, missTexts, vs);
      ghost var longer := log + added;
      ghost var now, bytes, count := vectors + MapOf(added), file + (pending + LogBytes(added)), loaded + computed + |added|;
      assert Consistent(model, longer, now, bytes, count) by {
        StaysConsistent(model, log, vectors, file, pending, loaded + computed, missTexts, vs);
      }
      out := Store(out0, miss, missTexts, vs);
      log := longer;
      assert vectors == now && file + pending == bytes && loaded + computed == count;
    }

    /**
     * A batch with nothing else running between its two locked parts. It
     * returns the model's embedding of every text in order, makes no request of
     * the model when the map holds them all, and adds no record on an error.
     */
    method EmbedBatch(call: Call, texts: seq<string>) returns (r: Option<seq<Vec>>)
      requires Valid() && Answers(model, call)
      modifies this`vectors, this`pending, this`computed, this`log, this`hits, this`asked
      ensures Valid()
      ensures r.Some? ==> Embeds(model, texts, r.value)
      ensures r.Some? ==> Held(texts)
      ensures old(Held(texts)) ==> r.Some? && log == old(log) && asked == old(asked)
      ensures (forall ts :: call(ts).Some?) ==> r.Some?
      ensures old(log) <= log && (r.None? ==> log == old(log))
    {
      var out, miss, missTexts := Lookup(texts);
      if missTexts == [] {
        NoMisses(model, log, texts);
        return Some(out);
      }
      MissIsNotHeld(texts, miss);
      r := EmbedMisses(call, texts, out, miss, missTexts);
    }

    /** The rest of a batch that missed some texts: the model asked for them, and what it answers recorded. */
    method EmbedMisses(call: Call, texts: seq<string>, out: seq<Vec>, miss: seq<nat>, missTexts: seq<string>)
      returns (r: Option<seq<Vec>>)
      requires Valid() && Answers(model, call)
      requires FoundIn(model.keyOf, vectors, texts, out, miss, missTexts)
      modifies this`vectors, this`pending, this`computed, this`log, this`asked
      ensures Valid()
      ensures r.Some? ==> Embeds(model, texts, r.value) && Held(texts)
      ensures (forall ts :: call(ts).Some?) ==> r.Some?
      ensures old(log) <= log && (r.None? ==> log == old(log))
    {
      ghost var requests: nat;
      var vs: Option<seq<Vec>>;
      vs, requests := InnerEmbedBatch(model, call, missTexts);
      asked := asked + requests;
      if vs.None? {
        return None;
      }
      ghost var all := log + Added(model.keyOf, vectors, missTexts, vs.value);
      assert Embeds(model, texts, Filled(out, miss, vs.value)) && AllIn(model, MapOf(all), texts) by {
        WholeBatch(model, log, texts, vs.value);
      }
      var filled := Commit(texts, out, miss, missTexts, vs.value);
      assert log == all && AllIn(model, vectors, texts);
      r := Some(filled);
    }

    ghost predicate Held(texts: seq<string>)
      reads this
    {
      AllIn(model, vectors, texts)
    }

    lemma MissIsNotHeld(texts: seq<string>, miss: seq<nat>)
      requires miss == Misses(model.keyOf, vectors, texts) && miss != []
      ensures !Held(texts)
    {
      assert miss[0] in miss;
    }

    /** The texts worth warming: the predicted chunks the map does not hold, each key once. */
    method Predicted(fields: string -> seq<string>, contents: seq<string>) returns (texts: seq<string>)
      ensures forall i :: 0 <= i < |contents| && PredictedChunk(fields, contents[i]).Some? ==>
                var k := model.keyOf(PredictedChunk(fields, contents[i]).value);
                k in vectors || exists j :: 0 <= j < |texts| && model.keyOf(texts[j]) == k
      ensures forall j :: 0 <= j < |texts| ==>
                && model.keyOf(texts[j]) !in vectors
                && exists i :: 0 <= i < |contents| && PredictedChunk(fields, contents[i]) == Some(texts[j])
      ensures forall i, j :: 0 <= i < j < |texts| ==> model.keyOf(texts[i]) != model.keyOf(texts[j])
    {
      texts := [];
      var seen: set<Key> := {};
      for i := 0 to |contents|
        invariant forall k :: k in seen <==> exists j :: 0 <= j < |texts| && model.keyOf(texts[j]) == k
        invariant forall j :: 0 <= j < |texts| ==>
                    && model.keyOf(texts[j]) !in vectors
                    && exists n :: 0 <= n < |contents| && PredictedChunk(fields, contents[n]) == Some(texts[j])
        invariant forall n, j :: 0 <= n < j < |texts| ==> model.keyOf(texts[n]) != model.keyOf(texts[j])
        invariant forall n :: 0 <= n < i && PredictedChunk(fields, contents[n]).Some? ==>
                    var k := model.keyOf(PredictedChunk(fields, contents[n]).value); k in vectors || k in seen
      {
        var text := PredictedChunk(fields, contents[i]);
        if text.None? {
          continue;
        }
        var k := model.keyOf(text.value);
        if k in vectors || k in seen {
          continue;
        }
        seen := seen + {k};
        var longer := texts + [text.value];
        assert longer[|texts|] == text.value;
        assert forall j :: 0 <= j < |texts| ==> longer[j] == texts[j];
        texts := longer;
      }
    }

    /**
     * Warm embeds the predicted chunks in batches of 512. After a success the
     * map holds the key of every one of them, so that a batch of predicted
     * chunks makes no request of the model (EmbedBatch).
     */
    method Warm(fields: string -> seq<string>, call: Call, contents: seq<string>) returns (ok: bool)
      requires Valid() && Answers(model, call)
      modifies this`vectors, this`pending, this`computed, this`log, this`hits, this`asked
      ensures Valid() && old(log) <= log
      ensures (forall ts :: call(ts).Some?) ==> ok
      ensures ok ==> forall i :: 0 <= i < |contents| && PredictedChunk(fields, contents[i]).Some? ==>
                       model.keyOf(PredictedChunk(fields, contents[i]).value) in vectors
    {
      var texts := Predicted(fields, contents);
      ghost var before := vectors;
      assert forall i :: 0 <= i < |contents| && PredictedChunk(fields, contents[i]).Some? ==>
               KeyAmong(before, texts, model.keyOf(PredictedChunk(fields, contents[i]).value));
      ok := EmbedSteps(call, texts);
    }

    /** The map holds this key, or it is one of these texts'. */
    ghost predicate KeyAmong(held: map<Key, Vec>, texts: seq<string>, k: Key) {
      k in held || exists j :: 0 <= j < |texts| && model.keyOf(texts[j]) == k
    }

    /** Batches of 512, until one fails. */
    method EmbedSteps(call: Call, texts: seq<string>) returns (ok: bool)
      requires Valid() && Answers(model, call)
      modifies this`vectors, this`pending, this`computed, this`log, this`hits, this`asked
      ensures Valid() && old(log) <= log
      ensures (forall ts :: call(ts).Some?) ==> ok
      ensures ok ==> forall k :: KeyAmong(old(vectors), texts, k) ==> k in vectors
    {
      var start := 0;
      while start < |texts|
        invariant Valid() && old(log) <= log
        invariant forall j :: 0 <= j < start && j < |texts| ==> model.keyOf(texts[j]) in vectors
        invariant forall k :: k in old(vectors) ==> k in vectors
      {
        var end := if start + WARM_STEP < |texts| then start + WARM_STEP else |texts|;
        ghost var before := log;
        var step := texts[start..end];
        var r := EmbedBatch(call, step);
        if r.None? {
          return false;
        }
        HeldStays(before, log);
        forall j | 0 <= j < end ensures model.keyOf(texts[j]) in vectors {
          if j >= start {
            assert step[j - start] == texts[j];
          }
        }
        start := start + WARM_STEP;
      }
      ok := true;
    }

    lemma HeldStays(before: seq<Record>, after: seq<Record>)
      requires before <= after
      ensures forall k :: k in MapOf(before) ==> k in MapOf(after)
    {
      assert after == before + after[|before|..];
      MapOfAppend(before, after[|before|..]);
    }

    /** Close flushes: the file is then the bytes of every record of the map. */
    method Close()
      requires Valid()
      modifies this`file, this`pending
      ensures Valid() && file == LogBytes(log) && pending == []
    {
      file := file + pending;
      pending := [];
      assert file + pending == file;
    }
  }

  /** A clean close and the next open: the whole map comes back. */
  method CloseAndOpen(c: CachedEmbedder) returns (d: CachedEmbedder)
    requires c.Valid()
    modifies c`file, c`pending
    ensures c.Valid() && d.Valid() && fresh(d) && d.vectors == c.vectors && d.file == c.file
  {
    c.Close();
    WholeLogIsRead(c.log, c.model.dim);
    d := new CachedEmbedder(c.model, c.file, c.log);
    assert c.log[..|c.log|] == c.log;
  }
}
