/**
 * Where the key source can answer wrongly, and exactly when
 * (pkg/authz/key_source.go): a stat that fails as the loaded snapshot's did, a
 * file moved to the path while the source opens, and a change of permissions.
 */
module KeySourceFailures {
  import opened Wrappers
  import opened Authz
  import opened KeySources
  import opened KeySourceProtocol

  // ------------------------------------------------------------ parts of runs

  /** Some run leads from a to b, by orderly events only if so asked. */
  ghost predicate Leads(decode: Decoder, orderly: bool, a: Machine, b: Machine) {
    exists events :: LeadsBy(decode, orderly, a, b, events)
  }

  ghost predicate LeadsBy(decode: Decoder, orderly: bool, a: Machine, b: Machine, events: seq<Event>) {
    && CanRun(decode, a, events) && Run(decode, a, events) == b
    && (orderly ==> AllOrderly(decode, a, events))
  }

  /** Some run from an initial state ends here. */
  ghost predicate Possible(decode: Decoder, orderly: bool, n: Machine) {
    exists m :: Initial(m) && Leads(decode, orderly, m, n)
  }

  lemma {:induction false} OrderlySnoc(decode: Decoder, m: Machine, events: seq<Event>, e: Event)
    requires CanRun(decode, m, events) && CanHappen(decode, Run(decode, m, events), e)
    requires AllOrderly(decode, m, events) && Orderly(decode, Run(decode, m, events), e)
    ensures CanRun(decode, m, events + [e]) && AllOrderly(decode, m, events + [e])
    decreases |events|
  {
    RunSnoc(decode, m, events, e);
    var longer := events + [e];
    if events == [] {
      assert longer[1..] == [];
    } else {
      OrderlySnoc(decode, After(decode, m, events[0]), events[1..], e);
      assert longer[0] == events[0] && longer[1..] == events[1..] + [e];
    }
  }

  lemma LeadsAfter(decode: Decoder, orderly: bool, a: Machine, b: Machine, e: Event)
    requires Leads(decode, orderly, a, b) && CanHappen(decode, b, e) && (orderly ==> Orderly(decode, b, e))
    ensures Leads(decode, orderly, a, After(decode, b, e))
  {
    var events :| LeadsBy(decode, orderly, a, b, events);
    RunSnoc(decode, a, events, e);
    if orderly {
      OrderlySnoc(decode, a, events, e);
    }
    assert LeadsBy(decode, orderly, a, After(decode, b, e), events + [e]);
  }

  lemma LeadsToItself(decode: Decoder, orderly: bool, a: Machine)
    ensures Leads(decode, orderly, a, a)
  {
    assert LeadsBy(decode, orderly, a, a, []);
  }

  lemma PossibleIsInvariant(decode: Decoder, n: Machine)
    requires Possible(decode, true, n)
    ensures Invariant(decode, n)
  {
    var m :| Initial(m) && Leads(decode, true, m, n);
    var events :| LeadsBy(decode, true, m, n, events);
    InvariantAlways(decode, m, events);
  }

  /** A call that returned keys that were right at no instant of it. */
  ghost predicate WrongAnswer(m: Machine, t: nat) {
    t in m.calls && m.calls[t].phase.Returned? && !RightSince(m, m.calls[t].began, m.calls[t].phase.keys)
  }

  lemma UpToLock(decode: Decoder, orderly: bool, a: Machine, n: Machine, t: nat) returns (locked: Machine)
    requires Leads(decode, orderly, a, n)
    requires n.cur.Some? && n.lock == None && t !in n.calls && !Unchanged(n.cur.value, StatOf(n.place))
    ensures Leads(decode, orderly, a, locked)
    ensures locked == n.(lock := Some(t),
                         calls := n.calls[t := Call(Locked(StatOf(n.place), n.cur.value, n.now), |n.answers|)],
                         answers := n.answers + [Answer(decode, n), Answer(decode, n), Answer(decode, n)])
  {
    LeadsAfter(decode, orderly, a, n, Start(t));
    var begun := After(decode, n, Start(t));
    LeadsAfter(decode, orderly, a, begun, LookAt(t));
    var looked := After(decode, begun, LookAt(t));
    LeadsAfter(decode, orderly, a, looked, Lock(t));
    locked := After(decode, looked, Lock(t));
    var right := Answer(decode, n);
    assert Answer(decode, begun) == right && Answer(decode, looked) == right && Answer(decode, locked) == right;
    ThreeMore(n.answers, right);
  }

  lemma ThreeMore(answers: seq<KeySet>, right: KeySet)
    ensures answers + [right] + [right] + [right] == answers + [right, right, right]
  {
  }

  /** A call run from its start to its return with nothing in between, its stat not trusted. */
  lemma WholeReread(decode: Decoder, orderly: bool, a: Machine, n: Machine, t: nat) returns (after: Machine)
    requires Leads(decode, orderly, a, n)
    requires n.cur.Some? && n.lock == None && t !in n.calls && !Unchanged(n.cur.value, StatOf(n.place))
    ensures Leads(decode, orderly, a, after)
    ensures var next := NextSnapshot(decode, n.cur.value, StatOf(n.place), n.now, BodyOf(n.place));
            && after.cur == Some(next) && after.inForce == next.keys && after.lock == None
            && after.place == n.place && after.inodes == n.inodes && after.now == n.now && after.opening == n.opening
            && after.calls == n.calls[t := Call(Returned(next.keys, LockedRead), |n.answers|)]
            && after.answers == n.answers + [Answer(decode, n), Answer(decode, n), Answer(decode, n),
                                             Answer(decode, after), Answer(decode, after)]
  {
    var locked := UpToLock(decode, orderly, a, n, t);
    LeadsAfter(decode, orderly, a, locked, ReadFile(t));
    var done := After(decode, locked, ReadFile(t));
    LeadsAfter(decode, orderly, a, done, Store(t));
    after := After(decode, done, Store(t));
    var before, now := Answer(decode, n), Answer(decode, after);
    assert Answer(decode, done) == now;
    assert n.answers + [before, before, before] + [now] + [now] == n.answers + [before, before, before, now, now];
  }

  // ------------------------------------------------------------ the failed stat

  /** The call that began at an instant, if it returned by a failed stat, answered rightly. */
  ghost predicate FailedStatOk(m: Machine, t: nat, began: nat) {
    t in m.calls && m.calls[t].began == began && m.calls[t].phase.Returned? && m.calls[t].phase.how.FailedStat? ==>
      RightSince(m, began, m.calls[t].phase.keys)
  }

  /** However things go on, a call started now that answers by a failed stat answers as of one of its instants. */
  ghost predicate FailedStatsRight(decode: Decoder, n: Machine, t: nat)
    requires CanHappen(decode, n, Start(t))
  {
    forall m :: Leads(decode, false, After(decode, n, Start(t)), m) ==> FailedStatOk(m, t, |n.answers|)
  }

  /** The call still has the snapshot it loaded, or answered from it, or is a later one. */
  ghost predicate Holds(m: Machine, t: nat, began: nat, snap: Snapshot) {
    && (m.place.Missing? ==> m.place.error != "")
    && t in m.calls && began <= m.calls[t].began < |m.answers|
    && (m.calls[t].began == began ==>
          match m.calls[t].phase
          case Loaded(s) => s == snap
          case Returned(keys, FailedStat) => keys == snap.keys && snap.statErr != ""
          case _ => true)
  }

  lemma {:induction false} HoldsAlways(decode: Decoder, m: Machine, events: seq<Event>, t: nat, began: nat, snap: Snapshot)
    requires Holds(m, t, began, snap) && CanRun(decode, m, events)
    ensures Holds(Run(decode, m, events), t, began, snap) && m.answers <= Run(decode, m, events).answers
    decreases |events|
  {
    if events != [] {
      assert Holds(After(decode, m, events[0]), t, began, snap) && m.answers <= After(decode, m, events[0]).answers;
      HoldsAlways(decode, After(decode, m, events[0]), events[1..], t, began, snap);
    }
  }

  /**
   * A stat error equal to the loaded snapshot's is trusted. However the file
   * and the other calls go on, a call that then answers by such a stat answers
   * as of one of its instants, exactly when at its start the current snapshot
   * is not one of a failed stat, or holds the right answer.
   */
  lemma FailedStatAnswer(decode: Decoder, n: Machine, t: nat)
    requires Possible(decode, true, n) && CanHappen(decode, n, Start(t))
    ensures FailedStatsRight(decode, n, t) <==> (n.cur.value.statErr == "" || Answer(decode, n) == n.cur.value.keys)
  {
    PossibleIsInvariant(decode, n);
    if n.cur.value.statErr == "" || Answer(decode, n) == n.cur.value.keys {
      forall m | Leads(decode, false, After(decode, n, Start(t)), m) ensures FailedStatOk(m, t, |n.answers|) {
        RightAtItsStart(decode, n, t, m);
      }
    } else {
      LeadsToItself(decode, false, After(decode, n, Start(t)));
      WrongInTheEnd(decode, false, After(decode, n, Start(t)), n, t);
    }
  }

  lemma RightAtItsStart(decode: Decoder, n: Machine, t: nat, m: Machine)
    requires Possible(decode, true, n) && CanHappen(decode, n, Start(t)) && Invariant(decode, n)
    requires n.cur.value.statErr == "" || Answer(decode, n) == n.cur.value.keys
    requires Leads(decode, false, After(decode, n, Start(t)), m)
    ensures FailedStatOk(m, t, |n.answers|)
  {
    var begun := After(decode, n, Start(t));
    var events :| LeadsBy(decode, false, begun, m, events);
    HoldsAlways(decode, begun, events, t, |n.answers|, n.cur.value);
    assert m.answers[|n.answers|] == begun.answers[|n.answers|] == Answer(decode, n);
  }

  /** Another call than t, of which nothing is under way. */
  lemma {:induction false} FreshCall(calls: map<nat, Call>) returns (u: nat)
    ensures forall t :: t in calls ==> t < u
    decreases |calls|
  {
    if calls == map[] {
      u := 0;
    } else {
      var t :| t in calls;
      var v := FreshCall(calls - {t});
      u := if v <= t then t + 1 else v;
      forall x | x in calls ensures x < u {
        assert x == t || x in calls - {t};
      }
    }
  }

  /** The same answer at every instant since. */
  ghost predicate OnlyMore(before: seq<KeySet>, after: seq<KeySet>, right: KeySet) {
    before <= after && forall i :: |before| <= i < |after| ==> after[i] == right
  }

  /** Whoever holds the lock finishes, while the file stands with a text that parses. */
  lemma Unlock(decode: Decoder, orderly: bool, a: Machine, m: Machine, t: nat, right: KeySet) returns (free: Machine)
    requires Leads(decode, orderly, a, m) && Invariant(decode, m) && m.cur.Some? && t in m.calls && m.calls[t].phase.Loaded?
    requires BodyOf(m.place).Text? && Parse(decode, BodyOf(m.place).text) == Some(right)
    ensures Leads(decode, orderly, a, free) && Invariant(decode, free) && free.lock == None && free.cur.Some?
    ensures free.place == m.place && t in free.calls && free.calls[t] == m.calls[t]
    ensures OnlyMore(m.answers, free.answers, right)
  {
    free := m;
    if m.lock.Some? {
      var u := m.lock.value;
      assert u in m.calls && (m.calls[u].phase.Locked? || m.calls[u].phase.Stored?) by {
        assert CallKept(decode, m, u);
      }
      if m.calls[u].phase.Locked? {
        free := HolderStep(decode, orderly, a, m, ReadFile(u), t, right);
      }
      var stored := free;
      free := HolderStep(decode, orderly, a, stored, Store(u), t, right);
    }
  }

  lemma HolderStep(decode: Decoder, orderly: bool, a: Machine, m: Machine, e: Event, t: nat, right: KeySet) returns (n: Machine)
    requires Leads(decode, orderly, a, m) && Invariant(decode, m) && m.cur.Some? && t in m.calls
    requires (e.ReadFile? || e.Store?) && CanHappen(decode, m, e) && e.t != t
    requires BodyOf(m.place).Text? && Parse(decode, BodyOf(m.place).text) == Some(right)
    ensures n == After(decode, m, e) && Leads(decode, orderly, a, n) && Invariant(decode, n) && n.cur.Some?
    ensures n.place == m.place && t in n.calls && n.calls[t] == m.calls[t] && OnlyMore(m.answers, n.answers, right)
    ensures if e.Store? then n.lock == None else CanHappen(decode, n, Store(e.t))
  {
    LeadsAfter(decode, orderly, a, m, e);
    InvariantAfter(decode, m, e);
    n := After(decode, m, e);
    HolderLeaves(decode, m, e, t, right);
  }

  lemma HolderLeaves(decode: Decoder, m: Machine, e: Event, t: nat, right: KeySet)
    requires m.cur.Some? && t in m.calls && (e.ReadFile? || e.Store?) && CanHappen(decode, m, e) && e.t != t
    requires BodyOf(m.place).Text? && Parse(decode, BodyOf(m.place).text) == Some(right)
    ensures var n := After(decode, m, e);
            && n.cur.Some? && n.place == m.place && t in n.calls && n.calls[t] == m.calls[t]
            && OnlyMore(m.answers, n.answers, right)
            && if e.Store? then n.lock == None else CanHappen(decode, n, Store(e.t))
  {
  }

  /** The keys of the text at the path come into force, if need be by one more call. */
  lemma Serve(decode: Decoder, orderly: bool, a: Machine, free: Machine, t: nat, right: KeySet) returns (served: Machine)
    requires Leads(decode, orderly, a, free) && Invariant(decode, free) && free.lock == None && free.cur.Some? && t in free.calls
    requires BodyOf(free.place).Text? && Parse(decode, BodyOf(free.place).text) == Some(right)
    ensures Leads(decode, orderly, a, served) && served.inForce == right && t in served.calls && served.calls[t] == free.calls[t]
    ensures OnlyMore(free.answers, served.answers, right)
  {
    served := free;
    if free.inForce != right {
      assert Kept(decode, free, free.cur.value);
      var u := FreshCall(free.calls);
      served := WholeReread(decode, orderly, a, free, u);
    }
  }

  /** Other calls put the right keys in force, the file goes missing as before, and this one answers from what it loaded. */
  lemma WrongInTheEnd(decode: Decoder, orderly: bool, a: Machine, n: Machine, t: nat)
    requires Invariant(decode, n) && CanHappen(decode, n, Start(t))
    requires Leads(decode, orderly, a, After(decode, n, Start(t)))
    requires n.cur.value.statErr != "" && Answer(decode, n) != n.cur.value.keys
    ensures exists m :: Leads(decode, orderly, a, m) && !FailedStatOk(m, t, |n.answers|) && WrongAnswer(m, t)
  {
    var begun, right := After(decode, n, Start(t)), Answer(decode, n);
    var served := begun;
    if n.inForce == n.cur.value.keys {
      InvariantAfter(decode, n, Start(t));
      var free := Unlock(decode, orderly, a, begun, t, right);
      served := Serve(decode, orderly, a, free, t, right);
    }
    GoneAgain(decode, orderly, a, served, t, |n.answers|, n.cur.value);
  }

  lemma GoneAgain(decode: Decoder, orderly: bool, a: Machine, served: Machine, t: nat, began: nat, snap: Snapshot)
    requires Leads(decode, orderly, a, served)
    requires t in served.calls && served.calls[t] == Call(Loaded(snap), began) && began <= |served.answers|
    requires snap.statErr != "" && served.inForce != snap.keys
    requires forall i :: began <= i < |served.answers| ==> served.answers[i] != snap.keys
    ensures exists m :: Leads(decode, orderly, a, m) && !FailedStatOk(m, t, began) && WrongAnswer(m, t)
  {
    LeadsAfter(decode, orderly, a, served, Remove(snap.statErr));
    var gone := After(decode, served, Remove(snap.statErr));
    assert gone.answers == served.answers + [served.inForce];
    LeadsAfter(decode, orderly, a, gone, LookAt(t));
    var m := After(decode, gone, LookAt(t));
    assert m.answers == gone.answers + [served.inForce];
    assert WrongAnswer(m, t) && !FailedStatOk(m, t, began);
  }

  /** A machine about to open a file that holds a text. */
  function Before(a: string): Machine {
    Machine(0, Present(File(1, 0, |a|, Text(a), true)), NotRead(0), None, None, None, map[], {1}, {a}, REFUSE_ALL, [], [])
  }

  lemma Opening(decode: Decoder, orderly: bool, a: string) returns (n: Machine)
    requires Parse(decode, a).Some?
    ensures Initial(Before(a)) && Leads(decode, orderly, Before(a), n)
    ensures n.opening == Opened && n.lock == None && n.inodes == {1} && n.calls == map[] && n.now == 0
    ensures n.inForce == Parse(decode, a).value && n.cur == Some(OpeningSnapshot(n.inForce, a, StatOf(n.place), 0))
    ensures n.place == Before(a).place
  {
    LeadsToItself(decode, orderly, Before(a));
    LeadsAfter(decode, orderly, Before(a), Before(a), OpenRead);
    n := After(decode, Before(a), OpenRead);
    LeadsAfter(decode, orderly, Before(a), n, OpenStat);
    n := After(decode, n, OpenStat);
  }

  /**
   * Such a run, for any two texts that parse to different keys: the file goes
   * missing, that snapshot is stored, and the file comes back with b.
   */
  lemma FailedStatCanAnswerWithReplacedKeys(decode: Decoder, a: string, b: string)
    requires Parse(decode, a).Some? && Parse(decode, b).Some? && Parse(decode, a) != Parse(decode, b)
    ensures exists n :: Possible(decode, true, n) && WrongAnswer(n, 1)
  {
    var open := Opening(decode, true, a);
    LeadsAfter(decode, true, Before(a), open, Remove("gone"));
    var lost := WholeReread(decode, true, Before(a), After(decode, open, Remove("gone")), 0);
    var file := File(2, 0, |b|, Text(b), true);
    LeadsAfter(decode, true, Before(a), lost, Rename(file));
    var back := After(decode, lost, Rename(file));
    LeadsAfter(decode, true, Before(a), back, Start(1));
    assert Possible(decode, true, back);
    PossibleIsInvariant(decode, back);
    WrongInTheEnd(decode, true, Before(a), back, 1);
  }

  // -------------------------------------------- what the source takes for granted

  /** A call started now whose stat follows at once. */
  ghost function Asked(decode: Decoder, m: Machine, t: nat): Machine
    requires CanHappen(decode, m, Start(t))
  {
    After(decode, After(decode, m, Start(t)), LookAt(t))
  }

  /**
   * The opening window. Once a file has been moved to the path between the
   * read and the stat of the opening, the first call answers wrongly exactly
   * when the file is stamped before the racy window and asks for other keys.
   */
  lemma OpeningNeedsItsAssumption(decode: Decoder, m: Machine, file: File, t: nat)
    requires Invariant(decode, m) && m.opening.Read? && CanHappen(decode, m, Rename(file))
    ensures var served := After(decode, After(decode, m, Rename(file)), OpenStat);
            WrongAnswer(Asked(decode, served, t), t) <==> !Orderly(decode, m, Rename(file))
  {
    var moved := After(decode, m, Rename(file));
    var served := After(decode, moved, OpenStat);
    AskedAnswers(decode, served, t);
  }

  /** Nothing changes during such a call, so it is right if it gives the one right answer. */
  lemma AskedAnswers(decode: Decoder, m: Machine, t: nat)
    requires CanHappen(decode, m, Start(t))
    ensures WrongAnswer(Asked(decode, m, t), t)
            <==> Unchanged(m.cur.value, StatOf(m.place)) && m.cur.value.keys != Answer(decode, m)
  {
    var begun := After(decode, m, Start(t));
    var n := Asked(decode, m, t);
    var right := Answer(decode, m);
    assert Answer(decode, begun) == right && Answer(decode, n) == right;
    assert n.answers == m.answers + [right, right];
    if n.calls[t].phase.Returned? && m.cur.value.keys == right {
      assert n.answers[|m.answers|] == right;
    }
  }

  /**
   * Permissions. Once they change, the next call answers wrongly exactly when
   * a trusted stat covers the file and it now asks for other keys: that is,
   * when it became readable, was stored as unreadable and stamped before the
   * window, and its text parses to keys other than those in force.
   */
  lemma PermissionNeedsItsAssumption(decode: Decoder, m: Machine, readable: bool, t: nat)
    requires Invariant(decode, m) && m.lock == None && m.cur.Some? && CanHappen(decode, m, Permit(readable))
    requires CanHappen(decode, m, Start(t))
    ensures var n := After(decode, m, Permit(readable));
            && (WrongAnswer(Asked(decode, n, t), t) <==> !Orderly(decode, m, Permit(readable)))
            && (WrongAnswer(Asked(decode, n, t), t) <==>
                  && readable && Unchanged(m.cur.value, StatOf(m.place))
                  && m.place.file.body.Text? && Parse(decode, m.place.file.body.text).Some?
                  && Parse(decode, m.place.file.body.text).value != m.cur.value.keys)
  {
    var n := After(decode, m, Permit(readable));
    AskedAnswers(decode, n, t);
  }

  /** A run in which the opening window is hit, for any two texts that parse to different keys. */
  lemma OpeningCanServeReplacedKeys(decode: Decoder, a: string, b: string)
    requires Parse(decode, a).Some? && Parse(decode, b).Some? && Parse(decode, a) != Parse(decode, b)
    ensures exists n :: Possible(decode, false, n) && WrongAnswer(n, 1)
  {
    var m := Before(a);
    LeadsToItself(decode, false, m);
    LeadsAfter(decode, false, m, m, OpenRead);
    var read := After(decode, m, OpenRead);
    InvariantAfter(decode, m, OpenRead);
    var file := File(2, -RACY_WINDOW - 1, |b|, Text(b), true);
    LeadsAfter(decode, false, m, read, Rename(file));
    var moved := After(decode, read, Rename(file));
    LeadsAfter(decode, false, m, moved, OpenStat);
    var served := After(decode, moved, OpenStat);
    OpeningNeedsItsAssumption(decode, read, file, 1);
    AskedIsReached(decode, m, served, 1);
  }

  lemma AskedIsReached(decode: Decoder, m: Machine, n: Machine, t: nat)
    requires Initial(m) && Leads(decode, false, m, n) && CanHappen(decode, n, Start(t))
    ensures Possible(decode, false, Asked(decode, n, t))
  {
    LeadsAfter(decode, false, m, n, Start(t));
    LeadsAfter(decode, false, m, After(decode, n, Start(t)), LookAt(t));
  }

  /** A run in which a file is moved in unreadable, with an old stamp, and made readable once it was stored so. */
  lemma PermissionCanHideAChange(decode: Decoder, a: string, b: string)
    requires Parse(decode, a).Some? && Parse(decode, b).Some? && Parse(decode, a) != Parse(decode, b)
    ensures exists n :: Possible(decode, false, n) && WrongAnswer(n, 1)
  {
    var open := Opening(decode, true, a);
    var file := File(2, -RACY_WINDOW - 1, |b|, Text(b), false);
    LeadsAfter(decode, true, Before(a), open, Rename(file));
    var stored := WholeReread(decode, true, Before(a), After(decode, open, Rename(file)), 0);
    StoredUnreadable(decode, Before(a), stored, 1, b);
  }

  /** An unreadable file of an old stamp is stored; then it may be read. */
  lemma StoredUnreadable(decode: Decoder, m: Machine, stored: Machine, t: nat, b: string)
    requires Initial(m) && Leads(decode, true, m, stored) && stored.lock == None && stored.cur.Some? && t !in stored.calls
    requires stored.place.Present? && !stored.place.file.readable && stored.place.file.body == Text(b)
    requires Unchanged(stored.cur.value, StatOf(stored.place))
    requires Parse(decode, b).Some? && Parse(decode, b).value != stored.cur.value.keys
    ensures exists n :: Possible(decode, false, n) && WrongAnswer(n, t)
  {
    assert Possible(decode, true, stored);
    PossibleIsInvariant(decode, stored);
    var events :| LeadsBy(decode, true, m, stored, events);
    assert LeadsBy(decode, false, m, stored, events);
    LeadsAfter(decode, false, m, stored, Permit(true));
    PermissionNeedsItsAssumption(decode, stored, true, t);
    AskedIsReached(decode, m, After(decode, stored, Permit(true)), t);
  }
}
