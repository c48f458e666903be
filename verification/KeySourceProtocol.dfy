/**
 * Every interleaving of Current calls with changes of the file.
 *
 * What a file system can do is what CanHappen allows: the clock never goes back;
 * a change in place at time t stamps a time greater than t - RACY_WINDOW; a file
 * put at the path brings an inode that was never there before, or such a stamp.
 * What the source takes for granted beyond that is Orderly: no event brings
 * other keys under a stat that a snapshot trusts.
 */
module KeySourceProtocol {
  import opened Wrappers
  import opened Authz
  import opened KeySources

  datatype Opening = NotRead(readAt: int) | Read(readAt: int, data: string) | Opened

  /** How a call came to its answer. */
  datatype How = TrustedStat | FailedStat | LockedRead

  datatype Phase =
    | Loaded(snap: Snapshot)
    | Waiting(stat: Stat)
    | Locked(stat: Stat, snap: Snapshot, readAt: int)
    | Stored(next: Snapshot, failure: Option<FailKey>)
    | Returned(keys: KeySet, how: How)

  /** One call of Current: where it stands, and the instant its first step left. */
  datatype Call = Call(phase: Phase, began: nat)

  /** One reread, in lock order: its failure, and whether it was reported. */
  datatype Outcome = Outcome(failure: Option<FailKey>, warned: bool)

  datatype Machine = Machine(
    now: int, place: Place,
    opening: Opening, cur: Option<Snapshot>, failed: Option<FailKey>, lock: Option<nat>,
    calls: map<nat, Call>,
    // history: the inodes and texts that were at the path, the keys the last
    // locked read left in force, the right answer at each instant, the rereads
    inodes: set<nat>, held: set<string>, inForce: KeySet, answers: seq<KeySet>, log: seq<Outcome>)

  datatype Event =
    | OpenRead | OpenStat
    | Advance(ns: nat)
    | Write(mtime: int, size: nat, body: Body)
    | Rename(file: File)
    | Remove(error: string)
    | Permit(readable: bool)
    | Start(t: nat) | LookAt(t: nat) | Lock(t: nat) | ReadFile(t: nat) | Store(t: nat)

  const REFUSE_ALL := KeySet([], true)

  /**
   * What a lookup should be answered with at one instant: the keys of the text
   * at the path if it parses, and otherwise the keys last in force.
   */
  ghost function Answer(decode: Decoder, m: Machine): KeySet {
    var body := BodyOf(m.place);
    if body.Text? && Parse(decode, body.text).Some? then Parse(decode, body.text).value else m.inForce
  }

  ghost predicate Initial(m: Machine) {
    && m.opening == NotRead(m.now) && m.cur == None && m.failed == None && m.lock == None
    && m.calls == map[] && m.inForce == REFUSE_ALL && m.answers == [] && m.log == []
    && m.inodes == (if m.place.Present? then {m.place.file.inode} else {})
    && m.held == TextAt(m.place)
    && (m.place.Missing? ==> m.place.error != "")
  }

  function TextAt(p: Place): set<string> {
    if BodyOf(p).Text? then {BodyOf(p).text} else {}
  }

  ghost predicate CanHappen(decode: Decoder, m: Machine, e: Event) {
    match e
    case OpenRead => m.opening.NotRead? && BodyOf(m.place).Text? && Parse(decode, BodyOf(m.place).text).Some?
    case OpenStat => m.opening.Read?
    case Advance(_) => true
    case Write(mtime, size, body) => m.place.Present? && mtime > m.now - RACY_WINDOW
    case Rename(file) => file.inode !in m.inodes || file.mtime > m.now - RACY_WINDOW
    case Remove(error) => error != ""
    case Permit(readable) => m.place.Present? && m.place.file.readable != readable
    case Start(t) => m.cur.Some? && (t in m.calls ==> m.calls[t].phase.Returned?)
    case LookAt(t) => t in m.calls && m.calls[t].phase.Loaded?
    case Lock(t) => t in m.calls && m.calls[t].phase.Waiting? && m.lock == None && m.cur.Some?
    case ReadFile(t) => t in m.calls && m.calls[t].phase.Locked?
    case Store(t) => t in m.calls && m.calls[t].phase.Stored?
  }

  function Moved(m: Machine, t: nat, p: Phase): Machine
    requires t in m.calls
  {
    m.(calls := m.calls[t := Call(p, m.calls[t].began)])
  }

  function Placed(m: Machine, p: Place): Machine {
    m.(place := p, held := m.held + TextAt(p), inodes := m.inodes + if p.Present? then {p.file.inode} else {})
  }

  /** What an event does, before the instant is recorded. */
  ghost function Effect(decode: Decoder, m: Machine, e: Event): Machine
    requires CanHappen(decode, m, e)
  {
    match e
    case OpenRead =>
      var data := BodyOf(m.place).text;
      m.(opening := Read(m.opening.readAt, data), inForce := Parse(decode, data).value)
    case OpenStat =>
      var stat := StatOf(m.place);
      m.(opening := Opened,
      cur := Some(Snapshot(m.inForce, m.opening.data, if stat.Found? then Some(stat.info) else None, m.opening.readAt, "")))
    case Advance(ns) => m.(now := m.now + ns)
    case Write(mtime, size, body) => Placed(m, Present(File(m.place.file.inode, mtime, size, body, m.place.file.readable)))
    case Rename(file) => Placed(m, Present(file))
    case Remove(error) => Placed(m, Missing(error))
    case Permit(readable) => Placed(m, Present(m.place.file.(readable := readable)))
    case Start(t) => m.(calls := m.calls[t := Call(Loaded(m.cur.value), |m.answers|)])
    case LookAt(t) =>
      var snap, stat := m.calls[t].phase.snap, StatOf(m.place);
      Moved(m, t, if Unchanged(snap, stat) then Returned(snap.keys, if stat.Found? then TrustedStat else FailedStat)
                  else Waiting(stat))
    case Lock(t) =>
      Moved(m.(lock := Some(t)), t, Locked(m.calls[t].phase.stat, m.cur.value, m.now))
    case ReadFile(t) =>
      var Locked(stat, snap, readAt) := m.calls[t].phase;
      var next := NextSnapshot(decode, snap, stat, readAt, BodyOf(m.place));
      Moved(m.(inForce := next.keys), t, Stored(next, FailureOf(decode, snap, stat, BodyOf(m.place))))
    case Store(t) =>
      var Stored(next, failure) := m.calls[t].phase;
      Moved(m.(cur := Some(next), lock := None, failed := failure,
               log := m.log + [Outcome(failure, Warns(m.failed, failure))]),
            t, Returned(next.keys, LockedRead))
  }

  /** One instant: the event, and then the answer that is right. */
  ghost function After(decode: Decoder, m: Machine, e: Event): Machine
    requires CanHappen(decode, m, e)
  {
    var n := Effect(decode, m, e);
    n.(answers := n.answers + [Answer(decode, n)])
  }

  /** Some snapshot, current or about to be, or the stat of the opening, is trusted for a file so stamped. */
  ghost predicate Trusted(m: Machine, i: Info) {
    || (m.opening.Read? && i.mtime < m.opening.readAt - RACY_WINDOW)
    || (m.cur.Some? && Unchanged(m.cur.value, Found(i)))
    || (m.lock.Some? && m.lock.value in m.calls && m.calls[m.lock.value].phase.Stored?
        && Unchanged(m.calls[m.lock.value].phase.next, Found(i)))
  }

  /**
   * What the source takes for granted. A file moved to the path between the
   * read and the stat of the opening, and a file whose permissions change, asks
   * for the keys in force if its stat is trusted.
   */
  ghost predicate Orderly(decode: Decoder, m: Machine, e: Event)
    requires CanHappen(decode, m, e)
  {
    match e
    case Rename(file) =>
      m.opening.Read? && file.mtime < m.opening.readAt - RACY_WINDOW ==> Answer(decode, After(decode, m, e)) == m.inForce
    case Permit(_) =>
      Trusted(m, StatOf(m.place).info) ==> Answer(decode, After(decode, m, e)) == m.inForce
    case _ => true
  }

  ghost predicate CanRun(decode: Decoder, m: Machine, events: seq<Event>)
    decreases |events|
  {
    events == [] ||
    (CanHappen(decode, m, events[0]) && CanRun(decode, After(decode, m, events[0]), events[1..]))
  }

  ghost function Run(decode: Decoder, m: Machine, events: seq<Event>): Machine
    requires CanRun(decode, m, events)
    decreases |events|
  {
    if events == [] then m else Run(decode, After(decode, m, events[0]), events[1..])
  }

  ghost predicate AllOrderly(decode: Decoder, m: Machine, events: seq<Event>)
    requires CanRun(decode, m, events)
    decreases |events|
  {
    events == [] || (Orderly(decode, m, events[0]) && AllOrderly(decode, After(decode, m, events[0]), events[1..]))
  }

  // ------------------------------------------------------------- invariants

  /**
   * The heart of the protocol: while a stat of the path would be trusted for
   * this snapshot, its keys are both the right answer and the keys in force.
   */
  ghost predicate Sound(decode: Decoder, m: Machine, snap: Snapshot) {
    m.place.Present? && Unchanged(snap, StatOf(m.place)) ==>
      snap.keys == Answer(decode, m) && snap.keys == m.inForce
  }

  /** What holds of every snapshot that was ever current. */
  ghost predicate Formed(decode: Decoder, m: Machine, snap: Snapshot) {
    && snap.readAt <= m.now
    && (snap.info.Some? ==> snap.info.value.inode in m.inodes)
    && (snap.statErr != "" ==> snap.info.None?)
    && Parse(decode, snap.data) == Some(snap.keys)
    && snap.data in m.held
  }

  /** And while it is current. */
  ghost predicate Kept(decode: Decoder, m: Machine, snap: Snapshot) {
    Sound(decode, m, snap) && Formed(decode, m, snap)
  }

  /** The answers that were right at an instant of the call so far. */
  ghost predicate RightSince(m: Machine, began: nat, keys: KeySet) {
    exists i :: began <= i < |m.answers| && m.answers[i] == keys
  }

  /** The keys were parsed from a text that stood at the path. */
  ghost predicate ParsedHere(decode: Decoder, m: Machine, keys: KeySet) {
    exists text :: text in m.held && Parse(decode, text) == Some(keys)
  }

  ghost predicate CallKept(decode: Decoder, m: Machine, t: nat)
    requires t in m.calls
  {
    var Call(phase, began) := m.calls[t];
    && began < |m.answers|
    && (phase.Locked? || phase.Stored? <==> m.lock == Some(t))
    && match phase
       case Loaded(snap) => Formed(decode, m, snap) && (RightSince(m, began, snap.keys) || Sound(decode, m, snap))
       case Waiting(stat) => StatKept(m, began, stat)
       case Locked(stat, snap, readAt) =>
         && StatKept(m, began, stat) && readAt <= m.now
         && m.cur == Some(snap) && m.inForce == snap.keys
       case Stored(next, _) =>
         && Kept(decode, m, next) && m.inForce == next.keys && RightSince(m, began, next.keys)
       case Returned(keys, how) =>
         // a trusted stat and a locked read answer as of an instant of the call
         && (!how.FailedStat? ==> RightSince(m, began, keys))
         && ParsedHere(decode, m, keys)
  }

  ghost predicate StatKept(m: Machine, began: nat, stat: Stat) {
    match stat
    case Found(i) => i.inode in m.inodes
    case Failed(e) => e != "" && RightSince(m, began, m.inForce)
  }

  ghost predicate OpeningKept(decode: Decoder, m: Machine) {
    match m.opening
    case NotRead(readAt) => readAt <= m.now && m.cur == None && m.calls == map[]
    case Read(readAt, data) =>
      && readAt <= m.now && m.cur == None && m.calls == map[]
      && Parse(decode, data) == Some(m.inForce) && data in m.held
      && (m.place.Present? && m.place.file.mtime < readAt - RACY_WINDOW ==> Answer(decode, m) == m.inForce)
    case Opened => m.cur.Some? && Kept(decode, m, m.cur.value)
  }

  ghost predicate Invariant(decode: Decoder, m: Machine) {
    && (m.place.Present? ==> m.place.file.inode in m.inodes)
    && (m.place.Missing? ==> m.place.error != "")
    && TextAt(m.place) <= m.held
    && (m.answers != [] ==> m.answers[|m.answers| - 1] == Answer(decode, m))
    && OpeningKept(decode, m)
    && (m.lock == None && m.cur.Some? ==> m.inForce == m.cur.value.keys)
    && (forall t :: m.lock == Some(t) ==> t in m.calls)
    && (forall t :: t in m.calls ==> CallKept(decode, m, t))
    && LogKept(m)
  }

  /** The failure the first n rereads end with, if the last of them failed. */
  function LastFailure(log: seq<Outcome>, n: nat): Option<FailKey>
    requires n <= |log|
  {
    if n == 0 then None else log[n - 1].failure
  }

  /** The remembered failure is the last reread's, and a report is made exactly on a change of it. */
  ghost predicate LogKept(m: Machine) {
    && m.failed == LastFailure(m.log, |m.log|)
    && forall i :: 0 <= i < |m.log| ==> m.log[i].warned == Warns(LastFailure(m.log, i), m.log[i].failure)
  }

  /** Only a change of the file can make a stat match that did not, and none that does can be trusted. */
  lemma SoundAfter(decode: Decoder, m: Machine, e: Event, snap: Snapshot)
    requires Invariant(decode, m) && CanHappen(decode, m, e)
    requires Kept(decode, m, snap)
    requires e.Permit? && Unchanged(snap, StatOf(m.place)) ==> Answer(decode, After(decode, m, e)) == m.inForce
    ensures Kept(decode, After(decode, m, e), snap)
  {
    var n := After(decode, m, e);
    if n.place.Present? && Unchanged(snap, StatOf(n.place)) {
      match e
      case Write(_, _, _) =>
        assert false;
      case Rename(_) =>
        assert false;
      case ReadFile(t) =>
        assert CallKept(decode, m, t);
      case _ =>
    }
  }

  /** A snapshot whose stat would be trusted now holds the answer of the last instant. */
  lemma SoundIsRight(decode: Decoder, m: Machine, began: nat, snap: Snapshot)
    requires Invariant(decode, m) && began < |m.answers| && (RightSince(m, began, snap.keys) || Sound(decode, m, snap))
    ensures m.place.Present? && Unchanged(snap, StatOf(m.place)) ==> RightSince(m, began, snap.keys)
  {
    if !RightSince(m, began, snap.keys) {
      assert m.answers[|m.answers| - 1] == Answer(decode, m);
    }
  }

  lemma RightSinceAfter(decode: Decoder, m: Machine, e: Event, began: nat, keys: KeySet)
    requires CanHappen(decode, m, e) && began <= |m.answers|
    requires RightSince(m, began, keys) || keys == Answer(decode, After(decode, m, e))
    ensures RightSince(After(decode, m, e), began, keys)
  {
    var n := After(decode, m, e);
    if RightSince(m, began, keys) {
      var i :| began <= i < |m.answers| && m.answers[i] == keys;
      assert n.answers[i] == keys;
    } else {
      assert n.answers[|m.answers|] == keys;
    }
  }

  predicate Moves(e: Event, t: nat) {
    match e
    case Start(u) => t == u
    case LookAt(u) => t == u
    case Lock(u) => t == u
    case ReadFile(u) => t == u
    case Store(u) => t == u
    case _ => false
  }

  lemma StatKeptAfter(decode: Decoder, m: Machine, e: Event, began: nat, stat: Stat)
    requires Invariant(decode, m) && CanHappen(decode, m, e)
    requires StatKept(m, began, stat) && began <= |m.answers| && m.cur.Some? && !m.opening.Read?
    ensures StatKept(After(decode, m, e), began, stat)
  {
    var n := After(decode, m, e);
    if stat.Failed? {
      if e.ReadFile? {
        assert CallKept(decode, m, e.t);
        assert n.inForce == Answer(decode, n) || n.inForce == m.inForce;
      } else {
        assert n.inForce == m.inForce;
      }
      RightSinceAfter(decode, m, e, began, n.inForce);
    }
  }

  /** A call that an event does not move keeps what holds of it. */
  lemma OtherCallAfter(decode: Decoder, m: Machine, e: Event, t: nat)
    requires Invariant(decode, m) && CanHappen(decode, m, e) && Orderly(decode, m, e) && t in m.calls && !Moves(e, t)
    ensures t in After(decode, m, e).calls && CallKept(decode, After(decode, m, e), t)
  {
    var n := After(decode, m, e);
    assert CallKept(decode, m, t);
    assert n.calls[t] == m.calls[t];
    var Call(phase, began) := m.calls[t];
    match phase
    case Loaded(snap) =>
      // A snapshot that a call loaded stays trustworthy, or its keys were right during the call.
      assert var n := After(decode, m, e);
        && Formed(decode, n, snap)
        && (RightSince(n, began, snap.keys) || Sound(decode, n, snap))
      by {
        SoundIsRight(decode, m, began, snap);
        if RightSince(m, began, snap.keys) {
          RightSinceAfter(decode, m, e, began, snap.keys);
        } else {
          SoundAfter(decode, m, e, snap);
        }
      }
    case Waiting(stat) => StatKeptAfter(decode, m, e, began, stat);
    case Locked(stat, snap, readAt) =>
      StatKeptAfter(decode, m, e, began, stat);
      OnlyHolderReads(decode, m, e, t);
    case Stored(next, failure) =>
      SoundAfter(decode, m, e, next);
      RightSinceAfter(decode, m, e, began, next.keys);
      OnlyHolderReads(decode, m, e, t);
    case Returned(keys, how) =>
      if !how.FailedStat? {
        RightSinceAfter(decode, m, e, began, keys);
      }
      var text :| text in m.held && Parse(decode, text) == Some(keys);
      assert text in n.held;
  }

  /** While a call holds the lock, no other event changes the snapshot or the keys in force. */
  lemma OnlyHolderReads(decode: Decoder, m: Machine, e: Event, t: nat)
    requires Invariant(decode, m) && CanHappen(decode, m, e)
    requires t in m.calls && m.lock == Some(t) && !Moves(e, t)
    ensures After(decode, m, e).lock == m.lock
    ensures After(decode, m, e).cur == m.cur && After(decode, m, e).inForce == m.inForce
  {
    assert forall u :: u in m.calls && (m.calls[u].phase.Locked? || m.calls[u].phase.Stored?) ==> u == t;
  }

  /** The call an event moves arrives where its invariant says. */
  lemma MovedCallAfter(decode: Decoder, m: Machine, e: Event, t: nat)
    requires Invariant(decode, m) && CanHappen(decode, m, e) && Moves(e, t)
    ensures t in After(decode, m, e).calls && CallKept(decode, After(decode, m, e), t)
  {
    var n := After(decode, m, e);
    match e
    case Start(_) =>
      SoundAfter(decode, m, e, m.cur.value);
      if t in m.calls { assert CallKept(decode, m, t); }
    case LookAt(_) =>
      assert CallKept(decode, m, t);
      var Call(phase, began) := m.calls[t];
      SoundIsRight(decode, m, began, phase.snap);
      RightSinceAfter(decode, m, e, began, Answer(decode, n));
      if RightSince(m, began, phase.snap.keys) {
        RightSinceAfter(decode, m, e, began, phase.snap.keys);
      }
      assert m.calls[t].phase.snap.data in n.held;
    case Lock(_) =>
      assert CallKept(decode, m, t);
      StatKeptAfter(decode, m, e, m.calls[t].began, m.calls[t].phase.stat);
    case ReadFile(_) =>
      ReadArrives(decode, m, t);
    case Store(_) =>
      assert CallKept(decode, m, t);
      RightSinceAfter(decode, m, e, m.calls[t].began, m.calls[t].phase.next.keys);
      assert m.calls[t].phase.next.data in n.held;
  }

  /** The locked read: the snapshot about to be stored is sound, and its keys are right by now. */
  lemma ReadArrives(decode: Decoder, m: Machine, t: nat)
    requires Invariant(decode, m) && CanHappen(decode, m, ReadFile(t))
    ensures CallKept(decode, After(decode, m, ReadFile(t)), t)
  {
    var n := After(decode, m, ReadFile(t));
    assert CallKept(decode, m, t);
    var Locked(stat, snap, readAt) := m.calls[t].phase;
    var next := n.calls[t].phase.next;
    assert Kept(decode, m, snap);
    if stat.Found? {
      assert Answer(decode, n) == next.keys;
    }
    RightSinceAfter(decode, m, ReadFile(t), m.calls[t].began, next.keys);
  }

  /** Every event keeps the invariant. */
  lemma InvariantAfter(decode: Decoder, m: Machine, e: Event)
    requires Invariant(decode, m) && CanHappen(decode, m, e) && Orderly(decode, m, e)
    ensures Invariant(decode, After(decode, m, e))
  {
    var n := After(decode, m, e);
    forall t | t in n.calls ensures CallKept(decode, n, t) {
      if Moves(e, t) {
        MovedCallAfter(decode, m, e, t);
      } else {
        OtherCallAfter(decode, m, e, t);
      }
    }
    PlaceAfter(decode, m, e);
    LockAfter(decode, m, e);
    OpeningAfter(decode, m, e);
    LogAfter(decode, m, e);
  }

  /** What stands at the path, and the texts and answers recorded of it. */
  lemma PlaceAfter(decode: Decoder, m: Machine, e: Event)
    requires Invariant(decode, m) && CanHappen(decode, m, e)
    ensures var n := After(decode, m, e);
            && (n.place.Present? ==> n.place.file.inode in n.inodes) && (n.place.Missing? ==> n.place.error != "")
            && TextAt(n.place) <= n.held && n.answers[|n.answers| - 1] == Answer(decode, n)
  {
  }

  /** Without a holder of the lock, the keys in force are the snapshot's. */
  lemma LockAfter(decode: Decoder, m: Machine, e: Event)
    requires Invariant(decode, m) && CanHappen(decode, m, e)
    ensures var n := After(decode, m, e);
            && (n.lock == None && n.cur.Some? ==> n.inForce == n.cur.value.keys)
            && (forall t :: n.lock == Some(t) ==> t in n.calls)
  {
    match e
    case ReadFile(t) => assert CallKept(decode, m, t);
    case Store(t) => assert CallKept(decode, m, t);
    case _ =>
  }

  lemma OpeningAfter(decode: Decoder, m: Machine, e: Event)
    requires Invariant(decode, m) && CanHappen(decode, m, e) && Orderly(decode, m, e)
    ensures OpeningKept(decode, After(decode, m, e))
  {
    if m.cur.Some? {
      SoundAfter(decode, m, e, m.cur.value);
    }
    match e
    case Store(t) =>
      assert CallKept(decode, m, t);
      SoundAfter(decode, m, e, m.calls[t].phase.next);
    case _ =>
  }

  lemma LogAfter(decode: Decoder, m: Machine, e: Event)
    requires LogKept(m) && CanHappen(decode, m, e)
    ensures LogKept(After(decode, m, e))
  {
    var n := After(decode, m, e);
    if e.Store? {
      var last := n.log[|m.log|];
      assert n.log == m.log + [last] && last.warned == Warns(m.failed, last.failure);
      assert LastFailure(n.log, |m.log|) == m.failed;
      forall i | 0 <= i < |m.log| ensures n.log[i].warned == Warns(LastFailure(n.log, i), n.log[i].failure) {
        assert n.log[i] == m.log[i] && LastFailure(n.log, i) == LastFailure(m.log, i);
      }
    } else {
      assert n.log == m.log && n.failed == m.failed;
    }
  }

  lemma {:induction false} InvariantAlways(decode: Decoder, m: Machine, events: seq<Event>)
    requires Invariant(decode, m) && CanRun(decode, m, events) && AllOrderly(decode, m, events)
    ensures Invariant(decode, Run(decode, m, events))
    decreases |events|
  {
    if events != [] {
      InvariantAfter(decode, m, events[0]);
      InvariantAlways(decode, After(decode, m, events[0]), events[1..]);
    }
  }

  // ------------------------------------------------------------ whole runs

  lemma {:induction false} RunSnoc(decode: Decoder, m: Machine, events: seq<Event>, e: Event)
    requires CanRun(decode, m, events) && CanHappen(decode, Run(decode, m, events), e)
    ensures CanRun(decode, m, events + [e])
    ensures Run(decode, m, events + [e]) == After(decode, Run(decode, m, events), e)
    decreases |events|
  {
    var longer := events + [e];
    if events == [] {
      assert longer[1..] == [];
    } else {
      RunSnoc(decode, After(decode, m, events[0]), events[1..], e);
      assert longer[0] == events[0] && longer[1..] == events[1..] + [e];
    }
  }

  /** Every event records an answer. */
  lemma {:induction false} AnswersGrow(decode: Decoder, m: Machine, events: seq<Event>)
    requires CanRun(decode, m, events)
    ensures m.answers <= Run(decode, m, events).answers
    ensures |Run(decode, m, events).answers| == |m.answers| + |events|
    decreases |events|
  {
    if events != [] {
      AnswersGrow(decode, After(decode, m, events[0]), events[1..]);
    }
  }

  /** The recorded answers are the right answers, instant by instant. */
  lemma {:induction false} AnswersAreRight(decode: Decoder, m: Machine, events: seq<Event>, i: nat)
    requires CanRun(decode, m, events) && i < |events|
    ensures CanRun(decode, m, events[..i + 1])
    ensures |Run(decode, m, events).answers| == |m.answers| + |events|
    ensures Run(decode, m, events).answers[|m.answers| + i] == Answer(decode, Run(decode, m, events[..i + 1]))
    ensures Run(decode, m, events).answers[..|m.answers|] == m.answers
    decreases |events|
  {
    var n, rest := After(decode, m, events[0]), events[1..];
    AnswersGrow(decode, m, events);
    if i > 0 {
      AnswersAreRight(decode, n, rest, i - 1);
    } else {
      AnswersGrow(decode, n, rest);
      assert rest[..0] == [] && n.answers[|m.answers|] == Answer(decode, n);
    }
    RunCons(decode, m, events[0], rest[..i]);
    assert events[..i + 1] == [events[0]] + rest[..i];
  }

  lemma RunCons(decode: Decoder, m: Machine, e: Event, rest: seq<Event>)
    requires CanHappen(decode, m, e) && CanRun(decode, After(decode, m, e), rest)
    ensures CanRun(decode, m, [e] + rest) && Run(decode, m, [e] + rest) == Run(decode, After(decode, m, e), rest)
  {
    assert ([e] + rest)[1..] == rest;
  }

  /** keys were the right answer after one of the events from the given one on. */
  ghost predicate RightAtOneInstant(decode: Decoder, m: Machine, events: seq<Event>, from: nat, keys: KeySet) {
    exists i :: from <= i < |events| && RightAfter(decode, m, events, i, keys)
  }

  /** keys is the right answer once events[i] has happened. */
  ghost predicate RightAfter(decode: Decoder, m: Machine, events: seq<Event>, i: nat, keys: KeySet)
    requires i < |events|
  {
    CanRun(decode, m, events[..i + 1]) && Answer(decode, Run(decode, m, events[..i + 1])) == keys
  }

  /**
   * Whatever the interleaving, a call that returned by a trusted stat or by a
   * locked read answered as of one instant between its first step and its last.
   */
  lemma CurrentAnswersAsOfOneInstant(decode: Decoder, m: Machine, events: seq<Event>, t: nat)
    requires Initial(m) && CanRun(decode, m, events) && AllOrderly(decode, m, events)
    requires t in Run(decode, m, events).calls && Run(decode, m, events).calls[t].phase.Returned?
    requires !Run(decode, m, events).calls[t].phase.how.FailedStat?
    ensures var call := Run(decode, m, events).calls[t];
            RightAtOneInstant(decode, m, events, call.began, call.phase.keys)
  {
    var n := Run(decode, m, events);
    InvariantAlways(decode, m, events);
    assert CallKept(decode, n, t);
    var call := n.calls[t];
    var i :| call.began <= i < |n.answers| && n.answers[i] == call.phase.keys;
    RecordedAnswer(decode, m, events, i);
    assert RightAfter(decode, m, events, i, call.phase.keys);
  }

  lemma RecordedAnswer(decode: Decoder, m: Machine, events: seq<Event>, i: nat)
    requires m.answers == [] && CanRun(decode, m, events) && i < |Run(decode, m, events).answers|
    ensures i < |events| && RightAfter(decode, m, events, i, Run(decode, m, events).answers[i])
  {
    if events != [] {
      AnswersAreRight(decode, m, events, 0);
      AnswersAreRight(decode, m, events, i);
    }
  }

  /**
   * A stat trusted outside the racy window never hides a change: the current
   * snapshot's keys are the right answer at that instant, and those of a
   * snapshot that a call loaded were right at an instant of the call.
   */
  lemma TrustedStatHidesNoChange(decode: Decoder, m: Machine, events: seq<Event>)
    requires Initial(m) && CanRun(decode, m, events) && AllOrderly(decode, m, events)
    ensures var n := Run(decode, m, events);
            n.place.Present? ==>
              && (n.cur.Some? && Unchanged(n.cur.value, StatOf(n.place)) ==> n.cur.value.keys == Answer(decode, n))
              && forall t :: t in n.calls && n.calls[t].phase.Loaded? && Unchanged(n.calls[t].phase.snap, StatOf(n.place)) ==>
                   RightSince(n, n.calls[t].began, n.calls[t].phase.snap.keys)
  {
    InvariantAlways(decode, m, events);
    var n := Run(decode, m, events);
    forall t | t in n.calls && n.calls[t].phase.Loaded? && n.place.Present? && Unchanged(n.calls[t].phase.snap, StatOf(n.place))
      ensures RightSince(n, n.calls[t].began, n.calls[t].phase.snap.keys)
    {
      assert CallKept(decode, n, t);
      SoundIsRight(decode, n, n.calls[t].began, n.calls[t].phase.snap);
    }
  }

  /** Every answer, however it was come by, is a set of at least one key that parsed from a text the file held. */
  lemma ServedKeysWereDeclared(decode: Decoder, m: Machine, events: seq<Event>, t: nat)
    requires Initial(m) && CanRun(decode, m, events) && AllOrderly(decode, m, events)
    requires t in Run(decode, m, events).calls && Run(decode, m, events).calls[t].phase.Returned?
    ensures var n := Run(decode, m, events);
            var keys := n.calls[t].phase.keys;
            ParsedHere(decode, n, keys) && Enabled(keys) && keys.keys != [] && ValidKeys(keys.keys)
  {
    InvariantAlways(decode, m, events);
    assert CallKept(decode, Run(decode, m, events), t);
  }

  /** A reread is reported exactly when it failed and the one before it did not fail of the same change. */
  lemma EveryNewFailureIsReported(decode: Decoder, m: Machine, events: seq<Event>, i: nat)
    requires Initial(m) && CanRun(decode, m, events) && AllOrderly(decode, m, events)
    requires i < |Run(decode, m, events).log|
    ensures var log := Run(decode, m, events).log;
            log[i].warned <==> log[i].failure.Some? && (i == 0 || log[i - 1].failure != log[i].failure)
  {
    InvariantAlways(decode, m, events);
    var log := Run(decode, m, events).log;
    assert log[i].warned == Warns(LastFailure(log, i), log[i].failure);
  }

  /**
   * What a locked read that finishes puts on record: no failure exactly when
   * the stat found a file, its text could be read, and it is the text in force
   * or parses; otherwise the error of the stat, or the file's time and size.
   */
  lemma RecordedFailure(decode: Decoder, m: Machine, t: nat)
    requires Invariant(decode, m) && CanHappen(decode, m, ReadFile(t))
    ensures var Locked(stat, snap, _) := m.calls[t].phase;
            var n := After(decode, After(decode, m, ReadFile(t)), Store(t));
            var readable := m.place.Present? && m.place.file.readable && m.place.file.body.Text?;
            && |n.log| == |m.log| + 1 && n.log[..|m.log|] == m.log
            && (n.log[|m.log|].failure == None <==>
                  && stat.Found? && readable
                  && (m.place.file.body.text == snap.data || Parse(decode, m.place.file.body.text).Some?))
            && (n.log[|m.log|].failure.Some? ==>
                  n.log[|m.log|].failure.value
                  == if stat.Failed? then StatKey(stat.error) else FileKey(stat.info.mtime, stat.info.size))
  {
  }

  /**
   * No failed change is reported twice in a row: between two reports of the
   * same change there is a success or a failure of another change.
   */
  lemma ReportedOncePerChange(decode: Decoder, m: Machine, events: seq<Event>, i: nat, j: nat)
    requires Initial(m) && CanRun(decode, m, events) && AllOrderly(decode, m, events)
    requires i < j < |Run(decode, m, events).log|
    requires var log := Run(decode, m, events).log;
             log[i].warned && log[j].warned && log[i].failure == log[j].failure
    ensures exists k :: i < k < j && Run(decode, m, events).log[k].failure != Run(decode, m, events).log[i].failure
  {
    InvariantAlways(decode, m, events);
    var log := Run(decode, m, events).log;
    assert log[j].warned == Warns(LastFailure(log, j), log[j].failure);
    assert log[j - 1].failure != log[i].failure;
  }
}
