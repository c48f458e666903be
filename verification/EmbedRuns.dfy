/**
 * Every run of the embedding cache: any number of batches around the unlocked
 * call to the model, a buffer the operating system empties byte by byte, writes
 * that fail, closes, crashes at any byte, and opens again.
 */
module EmbedRuns {
  import opened Wrappers
  import opened EmbedLog
  import opened EmbedCache

  datatype Batch =
    | Looked(texts: seq<string>, out: seq<Vec>, miss: seq<nat>)
    | Answered(texts: seq<string>, out: seq<Vec>, miss: seq<nat>, vs: seq<Vec>)
    | Returned(texts: seq<string>, result: Option<seq<Vec>>)

  /**
   * A process that has the cache open. A write that failed is sticky: the
   * buffered writer takes nothing more. loaded counts what Open read.
   */
  datatype Process = Process(vectors: map<Key, Vec>, pending: seq<Byte>, failed: bool,
                             hits: nat, computed: nat, loaded: nat, batches: map<nat, Batch>)

  /** The file, the process if one is up, and the records its map and file stand for. */
  datatype State = State(file: seq<Byte>, process: Option<Process>, log: seq<Record>)

  datatype Event =
    | Open
    | Lookup(t: nat, texts: seq<string>)
    | Answer(t: nat, vs: seq<Vec>)
    | AnswerFails(t: nat)
    | Store(t: nat)
    | StoreFails(t: nat, kept: nat, size: nat)
    | Flush(bytes: nat)
    | Close
    | CloseFails(bytes: nat)
    | OpenFails
    | Crash

  function NewRecords(m: Model, p: Process, b: Batch): seq<Record>
    requires b.Answered? && InRange(b.miss, |b.texts|) && |b.miss| == |b.vs|
  {
    Added(m.keyOf, p.vectors, At(b.texts, b.miss), b.vs)
  }

  /** What reaches the writer when the first n new records are given to it. */
  function Stream(file: seq<Byte>, p: Process, records: seq<Record>): seq<Byte> {
    file + p.pending + LogBytes(records)
  }

  ghost predicate InBatch(s: State, t: nat) {
    s.process.Some? && t in s.process.value.batches
  }

  ghost predicate CanHappen(m: Model, s: State, e: Event) {
    match e
    case Open => s.process.None?
    case Lookup(t, texts) => s.process.Some? && (InBatch(s, t) ==> s.process.value.batches[t].Returned?)
    case Answer(t, vs) =>
      InBatch(s, t) && s.process.value.batches[t].Looked?
      && InRange(s.process.value.batches[t].miss, |s.process.value.batches[t].texts|)
      && Embeds(m, At(s.process.value.batches[t].texts, s.process.value.batches[t].miss), vs)
    case AnswerFails(t) => InBatch(s, t) && s.process.value.batches[t].Looked?
    case Store(t) =>
      InBatch(s, t) && Storable(s.process.value.batches[t])
      && (s.process.value.failed ==> NewRecords(m, s.process.value, s.process.value.batches[t]) == [])
    case StoreFails(t, kept, size) =>
      InBatch(s, t) && Storable(s.process.value.batches[t])
      && kept < |NewRecords(m, s.process.value, s.process.value.batches[t])|
      && |s.file| <= size
      && size <= (if s.process.value.failed then |s.file|
                  else |Stream(s.file, s.process.value, NewRecords(m, s.process.value, s.process.value.batches[t])[..kept + 1])|)
    case Flush(bytes) => s.process.Some? && bytes <= |s.process.value.pending|
    case Close => s.process.Some?
    case CloseFails(bytes) => s.process.Some? && bytes <= |s.process.value.pending|
    case OpenFails => s.process.None?
    case Crash => s.process.Some?
  }

  predicate Storable(b: Batch) {
    b.Answered? && InRange(b.miss, |b.texts|) && |b.miss| == |b.vs| && |b.out| == |b.texts|
  }

  function WithBatch(p: Process, t: nat, b: Batch): Process {
    p.(batches := p.batches[t := b])
  }

  /** The process after a failed write: the map holds what was added, the writer takes nothing more. */
  function FailedProcess(p: Process, t: nat, texts: seq<string>, added: seq<Record>): Process {
    WithBatch(p, t, Returned(texts, None)).(vectors := p.vectors + MapOf(added), pending := [], failed := true,
                                            computed := p.computed + |added|)
  }

  ghost function After(m: Model, s: State, e: Event): State
    requires CanHappen(m, s, e)
  {
    match e
    case Open =>
      var n := Whole(|s.file|, m.dim);
      var read := Parsed(s.file, n, m.dim);
      State(s.file[..Span(n, m.dim)], Some(Process(MapOf(read), [], false, 0, 0, n, map[])), read)
    case Lookup(t, texts) =>
      var p := s.process.value;
      var out, miss := Hits(m.keyOf, p.vectors, texts), Misses(m.keyOf, p.vectors, texts);
      var b := if miss == [] then Returned(texts, Some(out)) else Looked(texts, out, miss);
      s.(process := Some(WithBatch(p, t, b).(hits := p.hits + |texts| - |miss|)))
    case Answer(t, vs) =>
      var Looked(texts, out, miss) := s.process.value.batches[t];
      s.(process := Some(WithBatch(s.process.value, t, Answered(texts, out, miss, vs))))
    case AnswerFails(t) =>
      s.(process := Some(WithBatch(s.process.value, t, Returned(s.process.value.batches[t].texts, None))))
    case Store(t) =>
      var p := s.process.value;
      var b := p.batches[t];
      var added := NewRecords(m, p, b);
      var q := WithBatch(p, t, Returned(b.texts, Some(Filled(b.out, b.miss, b.vs))));
      s.(log := s.log + added,
         process := Some(q.(vectors := p.vectors + MapOf(added), pending := p.pending + LogBytes(added),
                            computed := p.computed + |added|)))
    case StoreFails(t, kept, size) =>
      var p := s.process.value;
      var added := NewRecords(m, p, p.batches[t])[..kept + 1];
      State(if p.failed then s.file else Stream(s.file, p, added)[..size],
            Some(FailedProcess(p, t, p.batches[t].texts, added)), s.log + added)
    case Flush(bytes) =>
      var p := s.process.value;
      s.(file := s.file + p.pending[..bytes], process := Some(p.(pending := p.pending[bytes..])))
    case Close => s.(file := s.file + s.process.value.pending, process := None)
    case CloseFails(bytes) => s.(file := s.file + s.process.value.pending[..bytes], process := None)
    case OpenFails => s
    case Crash => s.(process := None)
  }

  ghost predicate CanRun(m: Model, s: State, events: seq<Event>)
    decreases |events|
  {
    events == [] || (CanHappen(m, s, events[0]) && CanRun(m, After(m, s, events[0]), events[1..]))
  }

  ghost function Run(m: Model, s: State, events: seq<Event>): State
    requires CanRun(m, s, events)
    decreases |events|
  {
    if events == [] then s else Run(m, After(m, s, events[0]), events[1..])
  }

  const START := State([], None, [])

  // ------------------------------------------------------------- invariants

  ghost predicate BatchKept(m: Model, b: Batch) {
    match b
    case Looked(texts, out, miss) => PartRight(m, texts, out, miss)
    case Answered(texts, out, miss, vs) => PartRight(m, texts, out, miss) && Embeds(m, At(texts, miss), vs)
    case Returned(texts, result) => result.Some? ==> Embeds(m, texts, result.value)
  }

  /** Away from the misses, what the map answered is right. */
  ghost predicate PartRight(m: Model, texts: seq<string>, out: seq<Vec>, miss: seq<nat>) {
    && |out| == |texts| && InRange(miss, |texts|)
    && forall i :: 0 <= i < |texts| && i !in miss ==> out[i] == m.embed(texts[i])
  }

  ghost predicate ProcessKept(m: Model, s: State, p: Process) {
    && p.vectors == MapOf(s.log)
    && |p.vectors| == p.loaded + p.computed
    && (if p.failed then p.pending == [] && s.file <= LogBytes(s.log) else s.file + p.pending == LogBytes(s.log))
    && forall t :: t in p.batches ==> BatchKept(m, p.batches[t])
  }

  /** The file is always a prefix of whole valid records, no key twice. */
  ghost predicate Invariant(m: Model, s: State) {
    && GoodLog(m, s.log)
    && s.file <= LogBytes(s.log)
    && (s.process.Some? ==> ProcessKept(m, s, s.process.value))
  }

  /** Records that may follow a log: what the map, the bytes and the count then are. */
  ghost predicate Follows(m: Model, log: seq<Record>, added: seq<Record>) {
    && GoodLog(m, log + added)
    && MapOf(log) + MapOf(added) == MapOf(log + added)
    && LogBytes(log) + LogBytes(added) == LogBytes(log + added)
    && |MapOf(log + added)| == |MapOf(log)| + |added|
  }

  lemma GoodPrefix(m: Model, log: seq<Record>, all: seq<Record>, kept: nat)
    requires GoodLog(m, log + all) && kept <= |all|
    ensures GoodLog(m, log + all[..kept])
  {
    var longer, shorter := log + all, log + all[..kept];
    assert shorter == longer[..|log| + kept];
    assert forall r :: r in shorter ==> r in longer;
  }

  /** Every prefix of what a batch adds may follow the log. */
  lemma SomeAdded(m: Model, log: seq<Record>, texts: seq<string>, vs: seq<Vec>, kept: nat)
    requires Faithful(m) && GoodLog(m, log) && Embeds(m, texts, vs)
    requires kept <= |Added(m.keyOf, MapOf(log), texts, vs)|
    ensures Follows(m, log, Added(m.keyOf, MapOf(log), texts, vs)[..kept])
  {
    var all := Added(m.keyOf, MapOf(log), texts, vs);
    AddedKeepsLog(m, log, texts, vs);
    GoodPrefix(m, log, all, kept);
    MapOfAppend(log, all[..kept]);
    LogBytesAppend(log, all[..kept]);
    MapOfDistinct(log);
    MapOfDistinct(log + all[..kept]);
  }

  /** The map, the writer and the file after records reached the writer. */
  lemma WrittenThrough(file: seq<Byte>, pending: seq<Byte>, log: seq<Byte>, added: seq<Byte>)
    requires file + pending == log
    ensures file + (pending + added) == log + added
    ensures file + pending + added == log + added
    ensures file <= log + added
  {
  }

  lemma OneBatchReturns(m: Model, s: State, s': State, p: Process, p': Process, t: nat, b: Batch)
    requires ProcessKept(m, s, p) && BatchKept(m, b)
    requires GoodLog(m, s'.log) && p'.vectors == MapOf(s'.log) && |p'.vectors| == p'.loaded + p'.computed
    requires p'.batches == p.batches[t := b]
    requires if p'.failed then p'.pending == [] && s'.file <= LogBytes(s'.log) else s'.file + p'.pending == LogBytes(s'.log)
    ensures ProcessKept(m, s', p')
  {
  }

  lemma OpenKeeps(m: Model, s: State)
    requires Faithful(m) && Invariant(m, s) && s.process.None?
    ensures Invariant(m, After(m, s, Open))
  {
    OpenedLog(m, s.log, s.file);
    TornLog(s.log, s.file, m.dim);
    var n := After(m, s, Open);
    assert n.file + [] == n.file;
  }

  lemma LookupKeeps(m: Model, s: State, t: nat, texts: seq<string>)
    requires Faithful(m) && Invariant(m, s) && CanHappen(m, s, Lookup(t, texts))
    ensures Invariant(m, After(m, s, Lookup(t, texts)))
  {
    var p, s' := s.process.value, After(m, s, Lookup(t, texts));
    var b := s'.process.value.batches[t];
    // What the first locked part leaves of a batch: returned if it missed nothing, else right away from its misses.
    assert BatchKept(m, b) by {
      if Misses(m.keyOf, MapOf(s.log), texts) == [] {
        NoMisses(m, s.log, texts);
      } else {
        HitsAreRight(m, s.log, texts);
      }
    }
    OneBatchReturns(m, s, s', p, s'.process.value, t, b);
  }

  lemma FlushKeeps(m: Model, s: State, bytes: nat)
    requires Invariant(m, s) && CanHappen(m, s, Flush(bytes))
    ensures Invariant(m, After(m, s, Flush(bytes)))
  {
    var p := s.process.value;
    assert p.pending == p.pending[..bytes] + p.pending[bytes..];
    Associative(s.file, p.pending[..bytes], p.pending[bytes..]);
  }

  lemma StoreKeeps(m: Model, s: State, t: nat)
    requires Faithful(m) && Invariant(m, s) && CanHappen(m, s, Store(t))
    ensures Invariant(m, After(m, s, Store(t)))
  {
    var p := s.process.value;
    var b := p.batches[t];
    assert BatchKept(m, b);
    var added := NewRecords(m, p, b);
    SomeAdded(m, s.log, At(b.texts, b.miss), b.vs, |added|);
    assert added[..|added|] == added;
    FilledEmbeds(m, b.texts, b.out, b.miss, b.vs);
    var s' := After(m, s, Store(t));
    if p.failed {
      assert added == [] && s.log + added == s.log && p.pending + LogBytes(added) == p.pending;
    } else {
      WrittenThrough(s.file, p.pending, LogBytes(s.log), LogBytes(added));
    }
    OneBatchReturns(m, s, s', p, s'.process.value, t, Returned(b.texts, Some(Filled(b.out, b.miss, b.vs))));
  }

  /** What a failed write leaves of the file is still a prefix of the log's bytes. */
  lemma FailedFile(file: seq<Byte>, pending: seq<Byte>, log: seq<Byte>, added: seq<Byte>, failed: bool, size: nat)
    requires if failed then file <= log else file + pending == log
    requires !failed ==> size <= |file + pending + added|
    ensures (if failed then file else (file + pending + added)[..size]) <= log + added
  {
    if !failed {
      assert file + pending + added == log + added;
    }
  }

  lemma FailedWriteKeeps(m: Model, s: State, t: nat, texts: seq<string>, added: seq<Record>, file: seq<Byte>)
    requires s.process.Some? && ProcessKept(m, s, s.process.value) && Follows(m, s.log, added)
    requires file <= LogBytes(s.log + added)
    ensures Invariant(m, State(file, Some(FailedProcess(s.process.value, t, texts, added)), s.log + added))
  {
    var p := s.process.value;
    var q := FailedProcess(p, t, texts, added);
    OneBatchReturns(m, s, State(file, Some(q), s.log + added), p, q, t, Returned(texts, None));
  }

  lemma StoreFailsKeeps(m: Model, s: State, t: nat, kept: nat, size: nat)
    requires Faithful(m) && Invariant(m, s) && CanHappen(m, s, StoreFails(t, kept, size))
    ensures Invariant(m, After(m, s, StoreFails(t, kept, size)))
  {
    var p := s.process.value;
    var b := p.batches[t];
    assert BatchKept(m, b);
    var added := NewRecords(m, p, b)[..kept + 1];
    SomeAdded(m, s.log, At(b.texts, b.miss), b.vs, kept + 1);
    var file := if p.failed then s.file else Stream(s.file, p, added)[..size];
    FailedFile(s.file, p.pending, LogBytes(s.log), LogBytes(added), p.failed, size);
    FailedWriteKeeps(m, s, t, b.texts, added, file);
    assert After(m, s, StoreFails(t, kept, size)) == State(file, Some(FailedProcess(p, t, b.texts, added)), s.log + added);
  }

  /** Every event keeps the invariant, whatever it interleaves with. */
  lemma InvariantAfter(m: Model, s: State, e: Event)
    requires Faithful(m) && Invariant(m, s) && CanHappen(m, s, e)
    ensures Invariant(m, After(m, s, e))
  {
    match e
    case Open => OpenKeeps(m, s);
    case Lookup(t, texts) => LookupKeeps(m, s, t, texts);
    case Answer(t, vs) =>
      assert Invariant(m, After(m, s, Answer(t, vs))) by {
        var p := s.process.value;
        var Looked(texts, out, miss) := p.batches[t];
        assert BatchKept(m, p.batches[t]);
        var s' := After(m, s, Answer(t, vs));
        OneBatchReturns(m, s, s', p, s'.process.value, t, Answered(texts, out, miss, vs));
      }
    case AnswerFails(t) =>
      OneBatchReturns(m, s, After(m, s, e), s.process.value, After(m, s, e).process.value, t,
                      Returned(s.process.value.batches[t].texts, None));
    case Store(t) => StoreKeeps(m, s, t);
    case StoreFails(t, kept, size) => StoreFailsKeeps(m, s, t, kept, size);
    case Flush(bytes) => FlushKeeps(m, s, bytes);
    case Close =>
    case CloseFails(bytes) => FlushKeeps(m, s, bytes);
    case OpenFails =>
    case Crash =>
  }

  lemma {:induction false} InvariantAlways(m: Model, s: State, events: seq<Event>)
    requires Faithful(m) && Invariant(m, s) && CanRun(m, s, events)
    ensures Invariant(m, Run(m, s, events))
    decreases |events|
  {
    if events != [] {
      InvariantAfter(m, s, events[0]);
      InvariantAlways(m, After(m, s, events[0]), events[1..]);
    }
  }

  // ------------------------------------------------------------ whole runs

  /**
   * In every run, at every moment, the file is the first bytes of a log of
   * whole records, no key twice, each the embedding of a text of its key; and
   * opening it loads exactly its whole records and cuts it to them, so that the
   * next append starts a record.
   */
  lemma FileIsAlwaysRecords(m: Model, events: seq<Event>)
    requires Faithful(m) && CanRun(m, START, events)
    ensures var s := Run(m, START, events);
            var n := Whole(|s.file|, m.dim);
            && GoodLog(m, s.log) && s.file <= LogBytes(s.log) && n <= |s.log|
            && (s.process.None? ==>
                  var up := After(m, s, Open);
                  && up.log == s.log[..n] && up.process.value.vectors == MapOf(s.log[..n])
                  && up.file == LogBytes(s.log[..n]) && |up.file| % RecLen(m.dim) == 0
                  && up.process.value.loaded == |up.process.value.vectors| == n)
  {
    InvariantAlways(m, START, events);
    var s := Run(m, START, events);
    TornLog(s.log, s.file, m.dim);
    if s.process.None? {
      OpenedLog(m, s.log, s.file);
      var n := Whole(|s.file|, m.dim);
      SpanIsProduct(n, m.dim);
      if RecLen(m.dim) > 0 {
        ModIs(Span(n, m.dim), RecLen(m.dim), n, 0);
      }
    }
  }

  /** A batch that returns a result returns the model's embedding of each text, in order. */
  lemma EveryBatchIsRight(m: Model, events: seq<Event>, t: nat)
    requires Faithful(m) && CanRun(m, START, events) && InBatch(Run(m, START, events), t)
    requires Run(m, START, events).process.value.batches[t].Returned?
    ensures var b := Run(m, START, events).process.value.batches[t];
            b.result.Some? ==> Embeds(m, b.texts, b.result.value)
  {
    InvariantAlways(m, START, events);
    assert BatchKept(m, Run(m, START, events).process.value.batches[t]);
  }

  /** However batches interleave, the map holds what was loaded and what was computed, each key once. */
  lemma CountsAddUp(m: Model, events: seq<Event>)
    requires Faithful(m) && CanRun(m, START, events) && Run(m, START, events).process.Some?
    ensures var s := Run(m, START, events);
            var p := s.process.value;
            && |p.vectors| == p.loaded + p.computed == |s.log|
            && DistinctKeys(s.log)
            && forall k :: k in p.vectors ==> p.vectors[k] == m.meaning(k) && exists t :: m.keyOf(t) == k
  {
    InvariantAlways(m, START, events);
    var s := Run(m, START, events);
    MapOfDistinct(s.log);
    forall k | k in MapOf(s.log) ensures MapOf(s.log)[k] == m.meaning(k) && exists t :: m.keyOf(t) == k {
      MapValues(s.log, k);
      var r :| r in s.log && r.key == k && r.vector == MapOf(s.log)[k];
      assert SoundRecord(m, r);
    }
  }

  /**
   * A close followed by an open brings the whole map back when no write failed;
   * after a failed write exactly when the bytes of every record still reached
   * the file, because the map also holds the keys whose record was lost.
   */
  lemma CloseAndOpenRestores(m: Model, events: seq<Event>)
    requires Faithful(m) && CanRun(m, START, events) && Run(m, START, events).process.Some?
    ensures var s := Run(m, START, events);
            var again := After(m, After(m, s, Close), Open);
            && (!s.process.value.failed ==> again.process.value.vectors == s.process.value.vectors)
            && (again.process.value.vectors == s.process.value.vectors <==>
                  s.file + s.process.value.pending == LogBytes(s.log))
  {
    InvariantAlways(m, START, events);
    ReopenedHolds(m, Run(m, START, events));
  }

  lemma ReopenedHolds(m: Model, s: State)
    requires Invariant(m, s) && s.process.Some?
    ensures var again := After(m, After(m, s, Close), Open).process.value.vectors;
            && (!s.process.value.failed ==> again == s.process.value.vectors)
            && (again == s.process.value.vectors <==> s.file + s.process.value.pending == LogBytes(s.log))
  {
    var data := s.file + s.process.value.pending;
    assert data <= LogBytes(s.log) by {
      if s.process.value.failed {
        assert data == s.file;
      }
    }
    ReopenedMap(m, s.log, data);
    assert After(m, After(m, s, Close), Open).process.value.vectors == MapOf(Parsed(data, Whole(|data|, m.dim), m.dim));
  }

  /** The map read from a prefix of a log's bytes is the log's exactly when it is all of them. */
  lemma ReopenedMap(m: Model, log: seq<Record>, file: seq<Byte>)
    requires GoodLog(m, log) && file <= LogBytes(log)
    ensures var n := Whole(|file|, m.dim);
            n <= |log| && (MapOf(Parsed(file, n, m.dim)) == MapOf(log) <==> file == LogBytes(log))
  {
    var n := Whole(|file|, m.dim);
    TornLog(log, file, m.dim);
    LogLength(log, m.dim);
    MapOfDistinct(log);
    MapOfDistinct(log[..n]);
    if file == LogBytes(log) {
      WholeLogIsRead(log, m.dim);
    } else if n == |log| {
      assert false;
    }
  }

  // ------------------------------------------------------------- warm batches

  ghost predicate AllHeld(m: Model, s: State, texts: seq<string>) {
    s.process.Some? && AllIn(m, s.process.value.vectors, texts)
  }

  /** Neither closed nor crashed on the way. */
  ghost predicate StaysUp(events: seq<Event>) {
    forall e :: e in events ==> !e.Close? && !e.CloseFails? && !e.Crash?
  }

  lemma {:induction false} HeldAlways(m: Model, s: State, events: seq<Event>, texts: seq<string>)
    requires AllHeld(m, s, texts) && CanRun(m, s, events) && StaysUp(events)
    ensures AllHeld(m, Run(m, s, events), texts)
    decreases |events|
  {
    if events != [] {
      assert AllHeld(m, After(m, s, events[0]), texts);
      HeldAlways(m, After(m, s, events[0]), events[1..], texts);
    }
  }

  /** A text of a batch that the map answered, now or when the batch looked, is in it. */
  ghost predicate LookedUp(m: Model, vectors: map<Key, Vec>, texts: seq<string>, miss: seq<nat>) {
    forall i :: 0 <= i < |texts| && i !in miss ==> m.keyOf(texts[i]) in vectors
  }

  ghost predicate BatchHeld(m: Model, vectors: map<Key, Vec>, b: Batch) {
    match b
    case Looked(texts, _, miss) => LookedUp(m, vectors, texts, miss)
    case Answered(texts, _, miss, _) => LookedUp(m, vectors, texts, miss)
    case Returned(texts, result) => result.Some? ==> LookedUp(m, vectors, texts, [])
  }

  ghost predicate BatchesHeld(m: Model, s: State) {
    s.process.Some? ==>
      forall t :: t in s.process.value.batches ==> BatchHeld(m, s.process.value.vectors, s.process.value.batches[t])
  }

  /** What a store adds holds the texts the batch had missed. */
  lemma StoredIsHeld(m: Model, log: seq<Record>, vectors: map<Key, Vec>, b: Batch)
    requires Faithful(m) && GoodLog(m, log) && vectors == MapOf(log)
    requires Storable(b) && BatchKept(m, b) && BatchHeld(m, vectors, b)
    ensures var now := vectors + MapOf(Added(m.keyOf, vectors, At(b.texts, b.miss), b.vs));
            LookedUp(m, now, b.texts, [])
  {
    var missed := At(b.texts, b.miss);
    var added := Added(m.keyOf, vectors, missed, b.vs);
    AddedKeepsLog(m, log, missed, b.vs);
    MapOfAppend(log, added);
    forall i | 0 <= i < |b.texts| ensures m.keyOf(b.texts[i]) in vectors + MapOf(added) {
      if i in b.miss {
        var j :| 0 <= j < |b.miss| && b.miss[j] == i;
        assert missed[j] == b.texts[i];
      }
    }
  }

  lemma BatchesHeldAfter(m: Model, s: State, e: Event)
    requires Faithful(m) && Invariant(m, s) && BatchesHeld(m, s) && CanHappen(m, s, e)
    ensures BatchesHeld(m, After(m, s, e))
  {
    if s.process.Some? && After(m, s, e).process.Some? {
      var p, q := s.process.value, After(m, s, e).process.value;
      assert p.vectors.Keys <= q.vectors.Keys;
      forall t | t in q.batches ensures BatchHeld(m, q.vectors, q.batches[t]) {
        if t in p.batches && q.batches[t] == p.batches[t] {
          BatchStaysHeld(m, p.vectors, q.vectors, p.batches[t]);
        } else {
          MovedBatchIsHeld(m, s, e, t);
        }
      }
    }
  }

  lemma BatchStaysHeld(m: Model, vectors: map<Key, Vec>, more: map<Key, Vec>, b: Batch)
    requires vectors.Keys <= more.Keys && BatchHeld(m, vectors, b)
    ensures BatchHeld(m, more, b)
  {
    assert forall k :: k in vectors.Keys ==> k in more.Keys;
  }

  /** The batch that an event moves. */
  lemma MovedBatchIsHeld(m: Model, s: State, e: Event, t: nat)
    requires Faithful(m) && Invariant(m, s) && BatchesHeld(m, s) && CanHappen(m, s, e)
    requires s.process.Some? && After(m, s, e).process.Some? && t in After(m, s, e).process.value.batches
    requires t in s.process.value.batches ==> After(m, s, e).process.value.batches[t] != s.process.value.batches[t]
    ensures BatchHeld(m, After(m, s, e).process.value.vectors, After(m, s, e).process.value.batches[t])
  {
    var p := s.process.value;
    if t in p.batches {
      assert BatchKept(m, p.batches[t]) && BatchHeld(m, p.vectors, p.batches[t]);
    }
    match e
    case Store(_) => StoredIsHeld(m, s.log, p.vectors, p.batches[t]);
    case _ =>
  }

  lemma {:induction false} BatchesHeldAlways(m: Model, s: State, events: seq<Event>)
    requires Faithful(m) && Invariant(m, s) && BatchesHeld(m, s) && CanRun(m, s, events)
    ensures BatchesHeld(m, Run(m, s, events))
    decreases |events|
  {
    if events != [] {
      InvariantAfter(m, s, events[0]);
      BatchesHeldAfter(m, s, events[0]);
      BatchesHeldAlways(m, After(m, s, events[0]), events[1..]);
    }
  }

  /** The texts of a batch that returned their embeddings, as every batch of a successful Warm does, are held. */
  lemma ReturnedBatchIsHeld(m: Model, events: seq<Event>, t: nat)
    requires Faithful(m) && CanRun(m, START, events) && InBatch(Run(m, START, events), t)
    requires var b := Run(m, START, events).process.value.batches[t]; b.Returned? && b.result.Some?
    ensures AllHeld(m, Run(m, START, events), Run(m, START, events).process.value.batches[t].texts)
  {
    BatchesHeldAlways(m, START, events);
    assert BatchHeld(m, Run(m, START, events).process.value.vectors, Run(m, START, events).process.value.batches[t]);
  }

  lemma SomeMember(places: seq<nat>)
    ensures places == [] || exists i :: i in places
  {
    if places != [] {
      assert places[0] in places;
    }
  }

  /** texts are all texts of batches that have returned their embeddings. */
  ghost predicate AllReturned(s: State, texts: seq<string>) {
    s.process.Some? && forall x :: x in texts ==> exists t :: t in s.process.value.batches && Gave(s.process.value.batches[t], x)
  }

  predicate Gave(b: Batch, text: string) {
    b.Returned? && b.result.Some? && text in b.texts
  }

  /**
   * Once batches have returned the embeddings of some texts, as those of a
   * successful Warm have, and whatever batches run meanwhile, a batch of those
   * texts returns from its first locked part with every embedding, and so makes
   * no inner call.
   */
  lemma ReturnedBatchAsksNothing(m: Model, before: seq<Event>, events: seq<Event>, t: nat, texts: seq<string>)
    requires Faithful(m) && CanRun(m, START, before) && AllReturned(Run(m, START, before), texts)
    requires CanRun(m, Run(m, START, before), events) && StaysUp(events)
    requires CanHappen(m, Run(m, Run(m, START, before), events), Lookup(t, texts))
    ensures var b := After(m, Run(m, Run(m, START, before), events), Lookup(t, texts)).process.value.batches[t];
            b.Returned? && b.texts == texts && b.result.Some? && Embeds(m, texts, b.result.value)
  {
    var s := Run(m, START, before);
    InvariantAlways(m, START, before);
    forall i | 0 <= i < |texts| ensures m.keyOf(texts[i]) in s.process.value.vectors {
      assert texts[i] in texts;
      var u :| u in s.process.value.batches && Gave(s.process.value.batches[u], texts[i]);
      ReturnedBatchIsHeld(m, before, u);
    }
    HeldBatchAsksNothing(m, before, events, t, texts);
  }

  /**
   * Once the map holds the keys of some texts, loaded or computed, and whatever
   * batches run meanwhile, a batch of those texts returns from its first locked
   * part with every embedding, and so makes no inner call.
   */
  lemma HeldBatchAsksNothing(m: Model, before: seq<Event>, events: seq<Event>, t: nat, texts: seq<string>)
    requires Faithful(m) && CanRun(m, START, before) && AllHeld(m, Run(m, START, before), texts)
    requires CanRun(m, Run(m, START, before), events) && StaysUp(events)
    requires CanHappen(m, Run(m, Run(m, START, before), events), Lookup(t, texts))
    ensures var b := After(m, Run(m, Run(m, START, before), events), Lookup(t, texts)).process.value.batches[t];
            b.Returned? && b.texts == texts && b.result.Some? && Embeds(m, texts, b.result.value)
  {
    var s := Run(m, START, before);
    InvariantAlways(m, START, before);
    InvariantAlways(m, s, events);
    HeldAlways(m, s, events, texts);
    var n := Run(m, s, events);
    var miss := Misses(m.keyOf, n.process.value.vectors, texts);
    SomeMember(miss);
    NoMisses(m, n.log, texts);
  }
}
