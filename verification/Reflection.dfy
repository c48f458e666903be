/**
 * Reflect (pkg/agentmem/reflect.go): observations saved one after another,
 * each superseding at most one older observation of the same bank.
 */
module Reflection {
  import opened Wrappers
  import opened Texts
  import opened Memories
  import opened MemoryRules

  datatype Observation = Observation(content: string, confidence: real, evidence: seq<string>, conflicting: bool, update: string)

  ghost predicate Current(row: Row) {
    row.validTo.None? && row.supersededBy == ""
  }

  ghost predicate Active(row: Row, bank: string) {
    row.bank == bank && !row.archived && Current(row)
  }

  ghost function ActiveIn(t: Tables, bank: string): set<string> {
    set id | id in t.memories && Active(t.memories[id], bank)
  }

  ghost function ActiveOf(t: Tables, bank: string, kind: string): set<string> {
    set id | id in t.memories && Active(t.memories[id], bank) && t.memories[id].kind == kind
  }

  /** What some memories rest on. */
  ghost function UsedBy(t: Tables, ids: set<string>): set<string> {
    set r | r in t.evidence && r.0 in ids :: r.1
  }

  /** The active facts of a bank that no active observation of it rests on. */
  ghost function NewFacts(t: Tables, bank: string): set<string> {
    ActiveOf(t, bank, FACT) - UsedBy(t, ActiveOf(t, bank, OBSERVATION))
  }

  predicate Skipped(o: Observation) {
    o.content == "" || |o.evidence| < 2
  }

  predicate Ignored(existing: set<string>, o: Observation) {
    o.update != "" && o.update !in existing
  }

  function NewMemory(scope: Scope, o: Observation, id: string, now: Now): Memory {
    Memory(id, scope, OBSERVATION, o.content, o.confidence, [], [], CONSOLIDATED, o.confidence, o.evidence,
           now, None, "", o.conflicting, false, None, "", 0, 0, now, 0, [])
  }

  /** The tables and the result so far; ok is false once a save failed. */
  datatype Progress = Progress(tables: Tables, newIDs: seq<string>, created: nat, updated: nat, ignored: seq<string>, ok: bool)

  /** Fresh identifiers and clock readings, in the order they are drawn. */
  datatype Supply = Supply(ids: nat -> string, clock: nat -> Now)

  ghost predicate Fresh(t: Tables, s: Supply) {
    && (forall k: nat :: s.ids(k) != "" && s.ids(k) !in t.memories)
    && forall j: nat, k: nat :: j < k ==> s.ids(j) != s.ids(k)
  }

  ghost function StepSave(space: Spaces, scope: Scope, t: Tables, o: Observation, k: nat, s: Supply): (Option<Error>, Tables) {
    Apply(space, t, Save(NewMemory(scope, o, s.ids(k), s.clock(0)), s.ids(k)), s.clock(2 * k + 1))
  }

  /** The rest of a turn, from what its save gave. */
  ghost function StepFrom(space: Spaces, existing: set<string>, p: Progress, o: Observation, id: string,
                          saved: (Option<Error>, Tables), now: Now): Progress {
    var ignored := if Ignored(existing, o) then p.ignored + [o.update] else p.ignored;
    if saved.0.Some? then p.(ok := false)
    else if Ignored(existing, o) || o.update == "" then
      Progress(saved.1, p.newIDs + [id], p.created + 1, p.updated, ignored, true)
    else
      var stale := Apply(space, saved.1, MarkStale(o.update, id), now);
      if stale.0.Some? then p.(tables := saved.1, ok := false)
      else Progress(stale.1, p.newIDs + [id], p.created, p.updated + 1, ignored, true)
  }

  /** One turn of the loop, on the k-th observation. */
  ghost function Step(space: Spaces, scope: Scope, existing: set<string>, p: Progress, o: Observation, k: nat, s: Supply): Progress {
    if !p.ok || Skipped(o) then p
    else StepFrom(space, existing, p, o, s.ids(k), StepSave(space, scope, p.tables, o, k, s), s.clock(2 * k + 2))
  }

  ghost function Steps(space: Spaces, scope: Scope, existing: set<string>, t: Tables, obs: seq<Observation>, s: Supply): Progress {
    if obs == [] then Progress(t, [], 0, 0, [], true)
    else
      var n := |obs| - 1;
      Step(space, scope, existing, Steps(space, scope, existing, t, obs[..n], s), obs[n], n, s)
  }

  // ----------------------------------------------------- what Reflect changes

  /** The row of a superseded memory: when, by which new memory, and nothing else. */
  ghost predicate SupersededAmong(before: Row, after: Row, newIDs: seq<string>) {
    && after.validTo.Some? && after.supersededBy in newIDs
    && after == before.(validTo := after.validTo, supersededBy := after.supersededBy, updatedAt := after.updatedAt)
  }

  ghost predicate KeptOrSuperseded(t: Tables, p: Progress, id: string) {
    && id in t.memories && id in p.tables.memories
    && (About(p.tables, id) == About(t, id) || SupersededAmong(t.memories[id], p.tables.memories[id], p.newIDs))
  }

  /** An observation Reflect added: current, in the bank, and of the generator's naming. */
  ghost predicate AddedTo(t: Tables, bank: string, id: string) {
    id in t.memories && t.memories[id].kind == OBSERVATION && Active(t.memories[id], bank)
  }

  /** Everything Reflect may do, up to the n-th observation. */
  ghost predicate Reflected(t: Tables, bank: string, existing: set<string>, p: Progress, s: Supply, n: nat) {
    && (forall id :: id in p.tables.memories <==> id in t.memories || id in p.newIDs)
    && (forall id :: id !in existing && id !in p.newIDs ==> About(p.tables, id) == About(t, id))
    && (forall id :: id in existing ==> KeptOrSuperseded(t, p, id))
    && (forall id :: id in p.newIDs ==> AddedTo(p.tables, bank, id))
    && Named(t, p, s, n)
  }

  ghost predicate Named(t: Tables, p: Progress, s: Supply, n: nat) {
    && p.created + p.updated == |p.newIDs|
    && (forall id :: id in p.newIDs ==> exists k: nat :: k < n && id == s.ids(k))
    && forall i, j :: 0 <= i < j < |p.newIDs| ==> p.newIDs[i] != p.newIDs[j]
  }

  function ObservationMemory(scope: Scope, o: Observation, k: nat, s: Supply): Memory {
    Completed(NewMemory(scope, o, s.ids(k), s.clock(0)), s.clock(2 * k + 1), s.ids(k))
  }

  lemma SavedObservation(space: Spaces, scope: Scope, t: Tables, o: Observation, k: nat, s: Supply)
    requires scope == NormalScope(scope) && s.ids(k) != "" && s.ids(k) !in t.memories && Trim(space, o.content) != ""
    ensures StepSave(space, scope, t, o, k, s) == (None, Saved(space, t, ObservationMemory(scope, o, k, s)))
    ensures AddedTo(Saved(space, t, ObservationMemory(scope, o, k, s)), BankID(space, scope), s.ids(k))
    ensures Saved(space, t, ObservationMemory(scope, o, k, s)).memories.Keys == t.memories.Keys + {s.ids(k)}
    ensures forall id :: id != s.ids(k) ==> About(Saved(space, t, ObservationMemory(scope, o, k, s)), id) == About(t, id)
  {
    var m, after := ObservationMemory(scope, o, k, s), Saved(space, t, ObservationMemory(scope, o, k, s));
    var row := Upserted(space, None, m);
    assert m.id == s.ids(k) && row.kind == OBSERVATION && Active(row, BankID(space, scope));
    assert AddedTo(after, BankID(space, scope), m.id) by {
      assert after.memories[m.id] == row;
    }
    assert after.memories.Keys == t.memories.Keys + {m.id};
    forall id | id != m.id ensures About(after, id) == About(t, id) {
      SaveIsLocal(space, t, m, id);
    }
  }

  lemma MarkedStale(space: Spaces, t: Tables, id: string, heir: string, now: Now)
    requires id != "" && id in t.memories
    ensures var after := Apply(space, t, MarkStale(id, heir), now).1;
            && after.memories == t.memories[id := StaleRow(t.memories[id], heir, now)]
            && forall x :: x != id ==> About(after, x) == About(t, x)
  {
    forall x | x != id ensures About(Apply(space, t, MarkStale(id, heir), now).1, x) == About(t, x) {
      OperationsAreLocal(space, t, MarkStale(id, heir), now, x);
    }
  }

  // The two kinds of turn, from what one save and one mark do.

  lemma KeptIsKept(t: Tables, p: Progress, q: Progress, id: string)
    requires KeptOrSuperseded(t, p, id) && About(q.tables, id) == About(p.tables, id) && p.newIDs <= q.newIDs
    ensures KeptOrSuperseded(t, q, id)
  {
    assert RowOf(q.tables, id) == RowOf(p.tables, id) == Some(p.tables.memories[id]);
    if SupersededAmong(t.memories[id], p.tables.memories[id], p.newIDs) {
      var i :| 0 <= i < |p.newIDs| && p.newIDs[i] == p.tables.memories[id].supersededBy;
      assert q.newIDs[i] == p.newIDs[i];
    }
  }

  lemma AddedStays(t: Tables, u: Tables, bank: string, id: string)
    requires AddedTo(t, bank, id) && About(u, id) == About(t, id)
    ensures AddedTo(u, bank, id)
  {
    assert RowOf(u, id) == RowOf(t, id) == Some(t.memories[id]);
  }

  /** A save alone: the tables grew by the new observation. */
  lemma SaveTurn(t: Tables, bank: string, existing: set<string>, p: Progress, q: Progress, s: Supply, n: nat)
    requires Fresh(t, s) && Reflected(t, bank, existing, p, s, n) && existing <= t.memories.Keys
    requires q.newIDs == p.newIDs + [s.ids(n)] && q.created + q.updated == p.created + p.updated + 1
    requires AddedTo(q.tables, bank, s.ids(n)) && q.tables.memories.Keys == p.tables.memories.Keys + {s.ids(n)}
    requires forall id :: id != s.ids(n) ==> About(q.tables, id) == About(p.tables, id)
    ensures Reflected(t, bank, existing, q, s, n + 1)
  {
    assert s.ids(n) !in p.newIDs && Named(t, q, s, n + 1) by {
      assert s.ids(n) !in p.newIDs;
      forall id | id in q.newIDs ensures exists k: nat :: k < n + 1 && id == s.ids(k) {
        if id != s.ids(n) {
          assert id in p.newIDs;
        }
      }
    }
    forall id ensures id in q.tables.memories <==> id in t.memories || id in q.newIDs {
      assert id in q.tables.memories.Keys <==> id in p.tables.memories.Keys || id == s.ids(n);
    }
    forall id | id in existing ensures KeptOrSuperseded(t, q, id) {
      KeptIsKept(t, p, q, id);
    }
    forall id | id in q.newIDs ensures AddedTo(q.tables, bank, id) {
      if id != s.ids(n) {
        assert id in p.newIDs;
        AddedStays(p.tables, q.tables, bank, id);
      }
    }
    forall id | id !in existing && id !in q.newIDs ensures About(q.tables, id) == About(t, id) {
      assert q.newIDs[|p.newIDs|] == s.ids(n);
      assert id !in p.newIDs;
    }
  }

  /** A mark: one row of the bank's observations now names its successor. */
  lemma MarkTurn(t: Tables, bank: string, existing: set<string>, p: Progress, q: Progress, s: Supply, n: nat,
                 id: string, heir: string, now: Now)
    requires Fresh(t, s) && Reflected(t, bank, existing, p, s, n) && existing <= t.memories.Keys
    requires id in existing && heir in p.newIDs && id in p.tables.memories
    requires q.newIDs == p.newIDs && q.created + q.updated == p.created + p.updated
    requires q.tables.memories == p.tables.memories[id := StaleRow(p.tables.memories[id], heir, now)]
    requires forall x :: x != id ==> About(q.tables, x) == About(p.tables, x)
    ensures Reflected(t, bank, existing, q, s, n)
  {
    assert id !in p.newIDs;
    assert KeptOrSuperseded(t, p, id);
    assert RowOf(p.tables, id) == Some(p.tables.memories[id]);
    assert RowOf(t, id) == Some(t.memories[id]);
    forall x | x in existing ensures KeptOrSuperseded(t, q, x) {
      if x != id {
        KeptIsKept(t, p, q, x);
      }
    }
    forall x | x in q.newIDs ensures AddedTo(q.tables, bank, x) {
      AddedStays(p.tables, q.tables, bank, x);
    }
  }

  /** The progress after one more save, whichever count it goes to. */
  function Grown(p: Progress, after: Tables, id: string): Progress {
    Progress(after, p.newIDs + [id], p.created + 1, p.updated, [], true)
  }

  lemma NameIsFresh(t: Tables, p: Progress, s: Supply, n: nat)
    requires Fresh(t, s) && Named(t, p, s, n)
    requires forall id :: id in p.tables.memories <==> id in t.memories || id in p.newIDs
    ensures s.ids(n) !in p.tables.memories
  {
    assert forall k: nat :: k < n ==> s.ids(n) != s.ids(k);
  }

  lemma SavingTurn(space: Spaces, scope: Scope, t: Tables, existing: set<string>, p: Progress, o: Observation, n: nat, s: Supply)
    requires scope == NormalScope(scope) && Fresh(t, s) && existing <= t.memories.Keys && Trim(space, o.content) != ""
    requires Reflected(t, BankID(space, scope), existing, p, s, n)
    ensures StepSave(space, scope, p.tables, o, n, s) == (None, Saved(space, p.tables, ObservationMemory(scope, o, n, s)))
    ensures Reflected(t, BankID(space, scope), existing,
                      Grown(p, Saved(space, p.tables, ObservationMemory(scope, o, n, s)), s.ids(n)), s, n + 1)
  {
    NameIsFresh(t, p, s, n);
    SavedObservation(space, scope, p.tables, o, n, s);
    SaveTurn(t, BankID(space, scope), existing, p, Grown(p, Saved(space, p.tables, ObservationMemory(scope, o, n, s)), s.ids(n)), s, n);
  }

  /** after is before with one row marked stale, and a revision of that id's more. */
  ghost predicate MarkedIn(before: Tables, after: Tables, id: string, heir: string, now: Now) {
    && id in before.memories
    && after.memories == before.memories[id := StaleRow(before.memories[id], heir, now)]
    && forall x :: x != id ==> About(after, x) == About(before, x)
  }

  lemma StepUpdates(space: Spaces, existing: set<string>, p: Progress, o: Observation, id: string, after: Tables, now: Now)
    requires !Ignored(existing, o) && o.update != "" && o.update in after.memories
    ensures var r := StepFrom(space, existing, p, o, id, (None, after), now);
            && MarkedIn(after, r.tables, o.update, id, now)
            && r == Progress(r.tables, p.newIDs + [id], p.created, p.updated + 1, p.ignored, true)
  {
    MarkedStale(space, after, o.update, id, now);
  }

  lemma StepCreates(space: Spaces, existing: set<string>, p: Progress, o: Observation, id: string, after: Tables, now: Now)
    requires Ignored(existing, o) || o.update == ""
    ensures var r := StepFrom(space, existing, p, o, id, (None, after), now);
            && r == Progress(after, p.newIDs + [id], p.created + 1, p.updated, r.ignored, true)
            && r.ignored == if o.update == "" then p.ignored else p.ignored + [o.update]
  {
  }

  /** A turn that saves and then marks a memory superseded. */
  lemma MarkingTurn(space: Spaces, t: Tables, bank: string, existing: set<string>, p: Progress, o: Observation, n: nat,
                    s: Supply, after: Tables)
    requires Fresh(t, s) && "" !in existing && existing <= t.memories.Keys && !Ignored(existing, o) && o.update != ""
    requires Reflected(t, bank, existing, Grown(p, after, s.ids(n)), s, n + 1)
    ensures Reflected(t, bank, existing, StepFrom(space, existing, p, o, s.ids(n), (None, after), s.clock(2 * n + 2)), s, n + 1)
  {
    var q := Grown(p, after, s.ids(n));
    assert KeptOrSuperseded(t, q, o.update) && q.newIDs[|p.newIDs|] == s.ids(n);
    StepUpdates(space, existing, p, o, s.ids(n), after, s.clock(2 * n + 2));
    MarkTurn(t, bank, existing, q, StepFrom(space, existing, p, o, s.ids(n), (None, after), s.clock(2 * n + 2)), s, n + 1,
             o.update, s.ids(n), s.clock(2 * n + 2));
  }

  /** A turn that saves only. */
  lemma CreatingTurn(space: Spaces, t: Tables, bank: string, existing: set<string>, p: Progress, o: Observation, n: nat,
                     s: Supply, after: Tables)
    requires Ignored(existing, o) || o.update == ""
    requires Reflected(t, bank, existing, Grown(p, after, s.ids(n)), s, n + 1)
    ensures Reflected(t, bank, existing, StepFrom(space, existing, p, o, s.ids(n), (None, after), s.clock(2 * n + 2)), s, n + 1)
  {
    var r := StepFrom(space, existing, p, o, s.ids(n), (None, after), s.clock(2 * n + 2));
    StepCreates(space, existing, p, o, s.ids(n), after, s.clock(2 * n + 2));
    SameRest(t, bank, existing, Grown(p, after, s.ids(n)), r, s, n + 1);
  }

  /** A turn that takes nothing. */
  lemma IdleTurn(t: Tables, bank: string, existing: set<string>, p: Progress, r: Progress, s: Supply, n: nat)
    requires Reflected(t, bank, existing, p, s, n)
    requires r.tables == p.tables && r.newIDs == p.newIDs && r.created == p.created && r.updated == p.updated
    ensures Reflected(t, bank, existing, r, s, n + 1)
  {
    SameRest(t, bank, existing, p, r, s, n);
    forall id | id in r.newIDs ensures exists k: nat :: k < n + 1 && id == s.ids(k) {
      var k: nat :| k < n && id == s.ids(k);
      assert k < n + 1;
    }
  }

  /** One turn of the loop keeps to what Reflect may do. */
  lemma TurnKeeps(space: Spaces, scope: Scope, t: Tables, existing: set<string>, p: Progress, o: Observation, n: nat, s: Supply)
    requires scope == NormalScope(scope) && Fresh(t, s) && "" !in existing && existing <= t.memories.Keys
    requires Reflected(t, BankID(space, scope), existing, p, s, n)
    ensures Reflected(t, BankID(space, scope), existing, Step(space, scope, existing, p, o, n, s), s, n + 1)
  {
    var bank, r := BankID(space, scope), Step(space, scope, existing, p, o, n, s);
    if !p.ok || Skipped(o) || Trim(space, o.content) == "" {
      IdleTurn(t, bank, existing, p, r, s, n);
    } else {
      var after := Saved(space, p.tables, ObservationMemory(scope, o, n, s));
      SavingTurn(space, scope, t, existing, p, o, n, s);
      assert r == StepFrom(space, existing, p, o, s.ids(n), (None, after), s.clock(2 * n + 2));
      if !Ignored(existing, o) && o.update != "" {
        MarkingTurn(space, t, bank, existing, p, o, n, s, after);
      } else {
        CreatingTurn(space, t, bank, existing, p, o, n, s, after);
      }
    }
  }

  lemma SameRest(t: Tables, bank: string, existing: set<string>, p: Progress, q: Progress, s: Supply, n: nat)
    requires Reflected(t, bank, existing, p, s, n)
    requires p.tables == q.tables && p.newIDs == q.newIDs && p.created + p.updated == q.created + q.updated
    ensures Reflected(t, bank, existing, q, s, n)
  {
    forall id | id in existing ensures KeptOrSuperseded(t, q, id) {
      assert KeptOrSuperseded(t, p, id);
    }
  }

  lemma {:induction false} StepsKeep(space: Spaces, scope: Scope, t: Tables, existing: set<string>, obs: seq<Observation>, s: Supply)
    requires scope == NormalScope(scope) && Fresh(t, s) && "" !in existing && existing <= t.memories.Keys
    ensures Reflected(t, BankID(space, scope), existing, Steps(space, scope, existing, t, obs, s), s, |obs|)
  {
    if obs == [] {
      forall id | id in existing ensures KeptOrSuperseded(t, Progress(t, [], 0, 0, [], true), id) {
      }
    } else {
      var n := |obs| - 1;
      StepsKeep(space, scope, t, existing, obs[..n], s);
      TurnKeeps(space, scope, t, existing, Steps(space, scope, existing, t, obs[..n], s), obs[n], n, s);
    }
  }

  /** Reflect: nothing at all with fewer than two new facts, otherwise its loop. */
  ghost function AfterReflect(space: Spaces, scope: Scope, t: Tables, obs: seq<Observation>, s: Supply): Progress {
    var bank := BankID(space, NormalScope(scope));
    if |NewFacts(t, bank)| < 2 then Progress(t, [], 0, 0, [], true)
    else Steps(space, NormalScope(scope), ActiveOf(t, bank, OBSERVATION), t, obs, s)
  }

  /**
   * Whatever the reflector answers, and even when it stops half way, Reflect
   * adds exactly the memories it numbers, each a current observation of its
   * bank; supersedes only observations that were active in that bank at the
   * start, each by one of the new ones; and leaves every other row of every
   * table as it was, whichever bank it is in.
   */
  lemma ReflectStaysInItsBank(space: Spaces, scope: Scope, t: Tables, obs: seq<Observation>, s: Supply)
    requires Agree(space, t) && Fresh(t, s)
    ensures var bank := BankID(space, scope);
            var p := AfterReflect(space, scope, t, obs, s);
            && |p.tables.memories| == |t.memories| + |p.newIDs| && p.created + p.updated == |p.newIDs|
            && (forall id :: id in p.newIDs ==> id !in t.memories && AddedTo(p.tables, bank, id))
            && (forall id :: id in p.tables.memories <==> id in t.memories || id in p.newIDs)
            && (forall id :: id in ActiveOf(t, bank, OBSERVATION) ==> KeptOrSuperseded(t, p, id))
            && (forall id :: id !in ActiveOf(t, bank, OBSERVATION) && id !in p.newIDs ==> About(p.tables, id) == About(t, id))
  {
    var bank := BankID(space, scope);
    NormalScopeIsNormal(scope);
    assert BankID(space, NormalScope(scope)) == bank;
    var existing := ActiveOf(t, bank, OBSERVATION);
    assert ViewOk(space, "", About(t, ""));
    assert "" !in existing;
    var p := AfterReflect(space, scope, t, obs, s);
    if |NewFacts(t, bank)| < 2 {
      StepsKeep(space, NormalScope(scope), t, existing, [], s);
    } else {
      StepsKeep(space, NormalScope(scope), t, existing, obs, s);
    }
    forall id | id in p.newIDs ensures id !in t.memories {
      var k: nat :| id == s.ids(k);
    }
    CountGrew(t.memories.Keys, p.tables.memories.Keys, p.newIDs);
  }

  lemma {:induction false} CountGrew(before: set<string>, after: set<string>, added: seq<string>)
    requires forall id :: id in after <==> id in before || id in added
    requires forall id :: id in added ==> id !in before
    requires forall i, j :: 0 <= i < j < |added| ==> added[i] != added[j]
    ensures |after| == |before| + |added|
    decreases |added|
  {
    if added == [] {
      assert after == before;
    } else {
      var n := |added| - 1;
      var front := added[..n];
      assert forall id :: id in added <==> id in front || id == added[n];
      CountGrew(before, after - {added[n]}, front);
    }
  }
}
