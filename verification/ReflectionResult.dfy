/** What a Reflect that ran to its end reports and records, observation by observation (pkg/agentmem/reflect.go). */
module ReflectionResult {
  import opened Wrappers
  import opened Texts
  import opened Memories
  import opened MemoryRules
  import opened Reflection

  /** The identifiers of the observations taken, in order. */
  function TakenIDs(obs: seq<Observation>, s: Supply): seq<string> {
    if obs == [] then []
    else
      var n := |obs| - 1;
      TakenIDs(obs[..n], s) + if Skipped(obs[n]) then [] else [s.ids(n)]
  }

  /** The targets dropped, in order. */
  function Dropped(existing: set<string>, obs: seq<Observation>): seq<string> {
    if obs == [] then []
    else
      var n := |obs| - 1;
      Dropped(existing, obs[..n]) + if !Skipped(obs[n]) && Ignored(existing, obs[n]) then [obs[n].update] else []
  }

  /** An observation that supersedes id. */
  predicate Names(existing: set<string>, o: Observation, id: string) {
    !Skipped(o) && id != "" && id in existing && o.update == id
  }

  /** How many observations supersede one. */
  function Updates(existing: set<string>, obs: seq<Observation>): nat {
    if obs == [] then 0
    else
      var n := |obs| - 1;
      Updates(existing, obs[..n]) + if Names(existing, obs[n], obs[n].update) then 1 else 0
  }

  /** The last observation that names id is its successor. */
  function Successor(existing: set<string>, obs: seq<Observation>, s: Supply, id: string): Option<string> {
    if obs == [] then None
    else
      var n := |obs| - 1;
      if Names(existing, obs[n], id) then Some(s.ids(n)) else Successor(existing, obs[..n], s, id)
  }

  /**
   * The memory holds what the observation said, its evidence normal, its confidence for its
   * importance, dated to the start of the reflection, and no more.
   */
  ghost predicate Records(space: Spaces, t: Tables, id: string, o: Observation, at: Now) {
    var v := About(t, id);
    && v.row.Some? && v.row.value.content == o.content && v.row.value.conflicting == o.conflicting
    && v.row.value.confidence == o.confidence && v.row.value.source == CONSOLIDATED
    && v.row.value.importance == (if o.confidence == 0.0 then 0.5 else o.confidence)
    && v.row.value.kind == "observation" && v.evidence == Normal(space, o.evidence)
    && v.row.value.validFrom == Some(at) && v.row.value.createdAt == at
    && v.tags == {} && v.keywords == {} && v.revisions == map[]
  }

  ghost predicate SupersededBy(t: Tables, id: string, heir: string) {
    id in t.memories && t.memories[id].supersededBy == heir && t.memories[id].validTo.Some?
  }

  ghost predicate HeirOk(t: Tables, u: Tables, id: string, heir: Option<string>) {
    match heir
    case None => About(u, id) == About(t, id)
    case Some(h) => SupersededBy(u, id, h)
  }

  ghost predicate Reports(existing: set<string>, obs: seq<Observation>, s: Supply, p: Progress) {
    && p.newIDs == TakenIDs(obs, s) && p.ignored == Dropped(existing, obs) && p.updated == Updates(existing, obs)
  }

  ghost predicate AllRecorded(space: Spaces, obs: seq<Observation>, s: Supply, t: Tables) {
    forall k :: 0 <= k < |obs| && !Skipped(obs[k]) ==> Records(space, t, s.ids(k), obs[k], s.clock(0))
  }

  ghost predicate AllHeirs(existing: set<string>, obs: seq<Observation>, s: Supply, t: Tables, u: Tables) {
    forall id :: id in existing ==> HeirOk(t, u, id, Successor(existing, obs, s, id))
  }

  lemma RecordedStays(space: Spaces, obs: seq<Observation>, s: Supply, t: Tables, u: Tables, changed: string)
    requires AllRecorded(space, obs, s, t)
    requires forall x :: x != changed ==> About(u, x) == About(t, x)
    requires forall k: nat :: k < |obs| ==> s.ids(k) != changed
    ensures AllRecorded(space, obs, s, u)
  {
    forall k | 0 <= k < |obs| && !Skipped(obs[k]) ensures Records(space, u, s.ids(k), obs[k], s.clock(0)) {
      assert Records(space, t, s.ids(k), obs[k], s.clock(0));
    }
  }

  lemma HeirStays(t: Tables, u: Tables, w: Tables, id: string, heir: Option<string>)
    requires HeirOk(t, u, id, heir) && About(w, id) == About(u, id)
    ensures HeirOk(t, w, id, heir)
  {
    assert RowOf(w, id) == RowOf(u, id);
  }

  lemma OneMoreRecorded(space: Spaces, obs: seq<Observation>, s: Supply, t: Tables)
    requires obs != [] && AllRecorded(space, obs[..|obs| - 1], s, t)
    requires !Skipped(obs[|obs| - 1]) ==> Records(space, t, s.ids(|obs| - 1), obs[|obs| - 1], s.clock(0))
    ensures AllRecorded(space, obs, s, t)
  {
    var front := obs[..|obs| - 1];
    forall k | 0 <= k < |obs| && !Skipped(obs[k]) ensures Records(space, t, s.ids(k), obs[k], s.clock(0)) {
      if k < |front| {
        assert front[k] == obs[k];
      }
    }
  }

  /** The save of a turn: its observation is recorded, and nothing else has changed. */
  lemma SaveRecords(space: Spaces, scope: Scope, t: Tables, existing: set<string>, obs: seq<Observation>, s: Supply, p: Progress)
    requires obs != [] && Trim(space, obs[|obs| - 1].content) != ""
    requires scope == NormalScope(scope) && Fresh(t, s) && existing <= t.memories.Keys
    requires Reflected(t, BankID(space, scope), existing, p, s, |obs| - 1)
    requires AllRecorded(space, obs[..|obs| - 1], s, p.tables) && AllHeirs(existing, obs[..|obs| - 1], s, t, p.tables)
    ensures var n := |obs| - 1;
            var after := Saved(space, p.tables, ObservationMemory(scope, obs[n], n, s));
            && AllRecorded(space, obs, s, after) && AllHeirs(existing, obs[..n], s, t, after)
            && existing <= after.memories.Keys
  {
    var n, o, front := |obs| - 1, obs[|obs| - 1], obs[..|obs| - 1];
    NameIsFresh(t, p, s, n);
    SavedObservation(space, scope, p.tables, o, n, s);
    var after := Saved(space, p.tables, ObservationMemory(scope, o, n, s));
    assert Records(space, Saved(space, p.tables, ObservationMemory(scope, o, n, s)), s.ids(n), o, s.clock(0)) by {
      SaveIsLocal(space, p.tables, ObservationMemory(scope, o, n, s), s.ids(n));
    }
    RecordedStays(space, front, s, p.tables, after, s.ids(n));
    OneMoreRecorded(space, obs, s, after);
    assert AllHeirs(existing, front, s, t, after) by {
      forall id | id in existing ensures HeirOk(t, after, id, Successor(existing, front, s, id)) {
        HeirStays(t, p.tables, after, id, Successor(existing, front, s, id));
      }
    }
    assert forall id :: id in existing ==> KeptOrSuperseded(t, p, id);
  }

  lemma UpdatingReports(space: Spaces, existing: set<string>, obs: seq<Observation>, s: Supply, t: Tables, p: Progress, after: Tables, now: Now)
    requires obs != [] && !Skipped(obs[|obs| - 1]) && Reports(existing, obs[..|obs| - 1], s, p)
    requires !Ignored(existing, obs[|obs| - 1]) && obs[|obs| - 1].update != "" && existing <= after.memories.Keys
    requires AllRecorded(space, obs, s, after) && AllHeirs(existing, obs[..|obs| - 1], s, t, after)
    requires forall k: nat :: s.ids(k) !in existing
    ensures var r := StepFrom(space, existing, p, obs[|obs| - 1], s.ids(|obs| - 1), (None, after), now);
            && r.ok && Reports(existing, obs, s, r) && AllRecorded(space, obs, s, r.tables)
            && AllHeirs(existing, obs, s, t, r.tables)
  {
    var n, o := |obs| - 1, obs[|obs| - 1];
    var r := StepFrom(space, existing, p, o, s.ids(n), (None, after), now);
    StepUpdates(space, existing, p, o, s.ids(n), after, now);
    RecordedStays(space, obs, s, after, r.tables, o.update);
    assert AllHeirs(existing, obs, s, t, r.tables) by {
      var o := obs[|obs| - 1];
      forall id | id in existing ensures HeirOk(t, r.tables, id, Successor(existing, obs, s, id)) {
        if id != o.update {
          HeirStays(t, after, r.tables, id, Successor(existing, obs[..|obs| - 1], s, id));
        }
      }
    }
  }

  lemma StepIs(space: Spaces, scope: Scope, t: Tables, existing: set<string>, o: Observation, n: nat, s: Supply, p: Progress)
    requires !Skipped(o) && Trim(space, o.content) != "" && p.ok
    requires scope == NormalScope(scope) && Fresh(t, s) && Reflected(t, BankID(space, scope), existing, p, s, n)
    ensures Step(space, scope, existing, p, o, n, s)
            == StepFrom(space, existing, p, o, s.ids(n), (None, Saved(space, p.tables, ObservationMemory(scope, o, n, s))), s.clock(2 * n + 2))
  {
    NameIsFresh(t, p, s, n);
    SavedObservation(space, scope, p.tables, o, n, s);
  }

  /** A turn that saved its observation, whatever it then does with its target. */
  lemma TurnReports(space: Spaces, t: Tables, existing: set<string>, obs: seq<Observation>, s: Supply,
                    p: Progress, after: Tables, now: Now, r: Progress)
    requires obs != [] && !Skipped(obs[|obs| - 1]) && Reports(existing, obs[..|obs| - 1], s, p)
    requires existing <= after.memories.Keys && forall k: nat :: s.ids(k) !in existing
    requires AllRecorded(space, obs, s, after) && AllHeirs(existing, obs[..|obs| - 1], s, t, after)
    requires r == StepFrom(space, existing, p, obs[|obs| - 1], s.ids(|obs| - 1), (None, after), now)
    ensures r.ok && Reports(existing, obs, s, r) && AllRecorded(space, obs, s, r.tables) && AllHeirs(existing, obs, s, t, r.tables)
  {
    var o := obs[|obs| - 1];
    if Ignored(existing, o) || o.update == "" {
      assert var r := StepFrom(space, existing, p, obs[|obs| - 1], s.ids(|obs| - 1), (None, after), now);
        && r.ok
        && Reports(existing, obs, s, r)
        && AllRecorded(space, obs, s, r.tables)
        && AllHeirs(existing, obs, s, t, r.tables)
      by {
        StepCreates(space, existing, p, obs[|obs| - 1], s.ids(|obs| - 1), after, now);
      }
    } else {
      UpdatingReports(space, existing, obs, s, t, p, after, now);
    }
  }

  lemma {:induction false} LoopReports(space: Spaces, scope: Scope, t: Tables, existing: set<string>, obs: seq<Observation>, s: Supply)
    requires scope == NormalScope(scope) && Fresh(t, s) && "" !in existing && existing <= t.memories.Keys
    requires Steps(space, scope, existing, t, obs, s).ok
    ensures var p := Steps(space, scope, existing, t, obs, s);
            && Reports(existing, obs, s, p) && AllRecorded(space, obs, s, p.tables) && AllHeirs(existing, obs, s, t, p.tables)
  {
    if obs != [] {
      var n := |obs| - 1;
      var p := Steps(space, scope, existing, t, obs[..n], s);
      LoopReports(space, scope, t, existing, obs[..n], s);
      StepsKeep(space, scope, t, existing, obs[..n], s);
      if Skipped(obs[n]) {
        OneMoreRecorded(space, obs, s, p.tables);
      } else {
        StepIs(space, scope, t, existing, obs[n], n, s, p);
        SaveRecords(space, scope, t, existing, obs, s, p);
        TurnReports(space, t, existing, obs, s, p, Saved(space, p.tables, ObservationMemory(scope, obs[n], n, s)),
                    s.clock(2 * n + 2), Step(space, scope, existing, p, obs[n], n, s));
      }
    }
  }

  /**
   * A Reflect that runs to its end numbers the observations it took in the
   * order they were given and drops exactly the targets that are not active
   * observations of the bank. Each observation taken is stored as it was said;
   * each memory superseded names the last observation that named it, and a
   * memory that none named is untouched.
   */
  lemma ReflectReports(space: Spaces, scope: Scope, t: Tables, obs: seq<Observation>, s: Supply)
    requires Agree(space, t) && Fresh(t, s)
    requires var bank := BankID(space, NormalScope(scope)); |NewFacts(t, bank)| >= 2
    requires AfterReflect(space, scope, t, obs, s).ok
    ensures var existing := ActiveOf(t, BankID(space, NormalScope(scope)), OBSERVATION);
            var p := AfterReflect(space, scope, t, obs, s);
            && Reports(existing, obs, s, p) && AllRecorded(space, obs, s, p.tables) && AllHeirs(existing, obs, s, t, p.tables)
  {
    NormalScopeIsNormal(scope);
    assert ViewOk(space, "", About(t, ""));
    LoopReports(space, NormalScope(scope), t, ActiveOf(t, BankID(space, NormalScope(scope)), OBSERVATION), obs, s);
  }

  /** It runs to its end exactly when no observation it takes is blank. */
  lemma ReflectFinishes(space: Spaces, scope: Scope, t: Tables, obs: seq<Observation>, s: Supply)
    requires Agree(space, t) && Fresh(t, s)
    requires var bank := BankID(space, NormalScope(scope)); |NewFacts(t, bank)| >= 2
    ensures AfterReflect(space, scope, t, obs, s).ok <==> NoneBlank(space, obs)
  {
    NormalScopeIsNormal(scope);
    assert ViewOk(space, "", About(t, ""));
    LoopFinishes(space, NormalScope(scope), t, ActiveOf(t, BankID(space, NormalScope(scope)), OBSERVATION), obs, s);
  }

  /** Every observation taken says something. */
  predicate NoneBlank(space: Spaces, obs: seq<Observation>) {
    forall k :: 0 <= k < |obs| && obs[k].content != "" && |obs[k].evidence| >= 2 ==> Trim(space, obs[k].content) != ""
  }

  lemma {:induction false} LoopFinishes(space: Spaces, scope: Scope, t: Tables, existing: set<string>, obs: seq<Observation>, s: Supply)
    requires scope == NormalScope(scope) && Fresh(t, s) && "" !in existing && existing <= t.memories.Keys
    ensures Steps(space, scope, existing, t, obs, s).ok <==> NoneBlank(space, obs)
  {
    if obs != [] {
      var n, front := |obs| - 1, obs[..|obs| - 1];
      var p := Steps(space, scope, existing, t, front, s);
      LoopFinishes(space, scope, t, existing, front, s);
      assert NoneBlank(space, obs)
          <==> NoneBlank(space, front) && (Skipped(obs[n]) || Trim(space, obs[n].content) != "")
      by {
        var front := obs[..|obs| - 1];
        assert forall k :: 0 <= k < |front| ==> front[k] == obs[k];
      }
      if p.ok && !Skipped(obs[n]) && Trim(space, obs[n].content) != "" {
        StepsKeep(space, scope, t, existing, front, s);
        assert Step(space, scope, existing, p, obs[n], n, s).ok by {
          StepIs(space, scope, t, existing, obs[n], n, s, p);
          var after := Saved(space, p.tables, ObservationMemory(scope, obs[n], n, s));
          if Ignored(existing, obs[n]) || obs[n].update == "" {
            StepCreates(space, existing, p, obs[n], s.ids(n), after, s.clock(2 * n + 2));
          } else {
            assert KeptOrSuperseded(t, p, obs[n].update);
            StepUpdates(space, existing, p, obs[n], s.ids(n), after, s.clock(2 * n + 2));
          }
        }
      }
    }
  }

  // ------------------------------------------------- the same, said of the observations

  lemma {:induction false} TakenIDsAre(obs: seq<Observation>, s: Supply, id: string)
    ensures id in TakenIDs(obs, s) <==> exists k: nat :: k < |obs| && !Skipped(obs[k]) && id == s.ids(k)
    decreases |obs|
  {
    if obs != [] {
      var n, front := |obs| - 1, obs[..|obs| - 1];
      TakenIDsAre(front, s, id);
      if k: nat :| k < n && !Skipped(front[k]) && id == s.ids(k) {
        assert !Skipped(obs[k]);
      }
      if k: nat :| k < |obs| && !Skipped(obs[k]) && id == s.ids(k) {
        assert k < n ==> front[k] == obs[k];
      }
    }
  }

  lemma {:induction false} DroppedAre(existing: set<string>, obs: seq<Observation>, id: string)
    ensures id in Dropped(existing, obs) <==>
              exists k: nat :: k < |obs| && !Skipped(obs[k]) && Ignored(existing, obs[k]) && obs[k].update == id
    decreases |obs|
  {
    if obs != [] {
      var n, front := |obs| - 1, obs[..|obs| - 1];
      DroppedAre(existing, front, id);
      if k: nat :| k < n && !Skipped(front[k]) && Ignored(existing, front[k]) && front[k].update == id {
        assert front[k] == obs[k];
      }
      if k: nat :| k < |obs| && !Skipped(obs[k]) && Ignored(existing, obs[k]) && obs[k].update == id {
        assert k < n ==> front[k] == obs[k];
      }
    }
  }

  /** The last of the observations that name id, if any does. */
  lemma {:induction false} SuccessorIs(existing: set<string>, obs: seq<Observation>, s: Supply, id: string)
    ensures match Successor(existing, obs, s, id)
            case None => forall k: nat :: k < |obs| ==> !Names(existing, obs[k], id)
            case Some(heir) => exists k: nat :: IsLast(existing, obs, id, k) && heir == s.ids(k)
    decreases |obs|
  {
    if obs != [] {
      var n, front := |obs| - 1, obs[..|obs| - 1];
      SuccessorIs(existing, front, s, id);
      if Names(existing, obs[n], id) {
        assert IsLast(existing, obs, id, n);
      } else if Successor(existing, front, s, id).Some? {
        var k: nat :| IsLast(existing, front, id, k) && Successor(existing, front, s, id).value == s.ids(k);
        assert forall j :: 0 <= j < n ==> front[j] == obs[j];
        assert IsLast(existing, obs, id, k);
      } else {
        assert forall j :: 0 <= j < n ==> front[j] == obs[j];
      }
    }
  }

  ghost predicate IsLast(existing: set<string>, obs: seq<Observation>, id: string, k: nat) {
    k < |obs| && Names(existing, obs[k], id) && forall j :: k < j < |obs| ==> !Names(existing, obs[j], id)
  }

  /**
   * Which observations a Reflect that runs to its end takes: those with content
   * and at least two pieces of evidence, and no others; each of these is stored
   * under its own identifier, and every identifier reported is one of theirs.
   */
  lemma ReflectTakes(space: Spaces, scope: Scope, t: Tables, obs: seq<Observation>, s: Supply)
    requires Agree(space, t) && Fresh(t, s)
    requires |NewFacts(t, BankID(space, NormalScope(scope)))| >= 2 && AfterReflect(space, scope, t, obs, s).ok
    ensures var p := AfterReflect(space, scope, t, obs, s);
            && (forall k: nat :: k < |obs| ==>
                  (s.ids(k) in p.newIDs <==> obs[k].content != "" && |obs[k].evidence| >= 2))
            && (forall id :: id in p.newIDs ==> exists k: nat :: k < |obs| && id == s.ids(k))
            && (forall k: nat :: k < |obs| && obs[k].content != "" && |obs[k].evidence| >= 2 ==>
                  Records(space, p.tables, s.ids(k), obs[k], s.clock(0)))
  {
    ReflectReports(space, scope, t, obs, s);
    TakenIDsExactly(obs, s);
  }

  lemma TakenIDsExactly(obs: seq<Observation>, s: Supply)
    requires forall j: nat, k: nat :: j < k ==> s.ids(j) != s.ids(k)
    ensures forall k: nat :: k < |obs| ==> (s.ids(k) in TakenIDs(obs, s) <==> obs[k].content != "" && |obs[k].evidence| >= 2)
    ensures forall id :: id in TakenIDs(obs, s) ==> exists k: nat :: k < |obs| && id == s.ids(k)
  {
    forall id ensures id in TakenIDs(obs, s) <==> exists k: nat :: k < |obs| && !Skipped(obs[k]) && id == s.ids(k) {
      TakenIDsAre(obs, s, id);
    }
    forall k: nat | k < |obs| ensures s.ids(k) in TakenIDs(obs, s) <==> obs[k].content != "" && |obs[k].evidence| >= 2 {
      if s.ids(k) in TakenIDs(obs, s) {
        var j: nat :| j < |obs| && !Skipped(obs[j]) && s.ids(k) == s.ids(j);
        assert j == k;
      }
    }
  }

  /**
   * And what becomes of the bank's active observations: one that no observation
   * with content and two pieces of evidence names is untouched, in every table;
   * any other names the last of those that name it as its successor.
   */
  lemma ReflectSupersedes(space: Spaces, scope: Scope, t: Tables, obs: seq<Observation>, s: Supply, id: string)
    requires Agree(space, t) && Fresh(t, s)
    requires |NewFacts(t, BankID(space, NormalScope(scope)))| >= 2 && AfterReflect(space, scope, t, obs, s).ok
    requires id in ActiveOf(t, BankID(space, NormalScope(scope)), OBSERVATION)
    ensures var after := AfterReflect(space, scope, t, obs, s).tables;
            && ((forall k: nat :: k < |obs| && obs[k].content != "" && |obs[k].evidence| >= 2 ==> obs[k].update != id) ==>
                  About(after, id) == About(t, id))
            && forall k: nat ::
                 && k < |obs| && obs[k].content != "" && |obs[k].evidence| >= 2 && obs[k].update == id
                 && (forall j: nat :: k < j < |obs| && obs[j].content != "" && |obs[j].evidence| >= 2 ==> obs[j].update != id)
                 ==> id in after.memories && after.memories[id].supersededBy == s.ids(k) && after.memories[id].validTo.Some?
  {
    ReflectReports(space, scope, t, obs, s);
    assert ViewOk(space, "", About(t, ""));
    var existing := ActiveOf(t, BankID(space, NormalScope(scope)), OBSERVATION);
    var after := AfterReflect(space, scope, t, obs, s).tables;
    SuccessorIs(existing, obs, s, id);
    assert HeirOk(t, after, id, Successor(existing, obs, s, id));
    assert id != "";
    forall k: nat | k < |obs|
      ensures Names(existing, obs[k], id) <==> obs[k].content != "" && |obs[k].evidence| >= 2 && obs[k].update == id
    {
    }
    forall k: nat |
      && k < |obs| && obs[k].content != "" && |obs[k].evidence| >= 2 && obs[k].update == id
      && (forall j: nat :: k < j < |obs| && obs[j].content != "" && |obs[j].evidence| >= 2 ==> obs[j].update != id)
      ensures id in after.memories && after.memories[id].supersededBy == s.ids(k) && after.memories[id].validTo.Some?
    {
      assert Names(existing, obs[k], id);
      var j: nat :| IsLast(existing, obs, id, j) && Successor(existing, obs, s, id).value == s.ids(j);
      assert j == k;
    }
  }

  /** The targets reported as dropped are those of observations taken that name no active observation of the bank. */
  lemma ReflectDrops(space: Spaces, scope: Scope, t: Tables, obs: seq<Observation>, s: Supply, id: string)
    requires Agree(space, t) && Fresh(t, s)
    requires |NewFacts(t, BankID(space, NormalScope(scope)))| >= 2 && AfterReflect(space, scope, t, obs, s).ok
    ensures id in AfterReflect(space, scope, t, obs, s).ignored <==>
              && id != "" && id !in ActiveOf(t, BankID(space, NormalScope(scope)), OBSERVATION)
              && exists k: nat :: k < |obs| && obs[k].content != "" && |obs[k].evidence| >= 2 && obs[k].update == id
  {
    ReflectReports(space, scope, t, obs, s);
    var existing := ActiveOf(t, BankID(space, NormalScope(scope)), OBSERVATION);
    DroppedAre(existing, obs, id);
  }

  /** Fewer than two facts that no active observation rests on: nothing happens at all. */
  lemma TooFewFacts(space: Spaces, scope: Scope, t: Tables, obs: seq<Observation>, s: Supply)
    requires forall a, b :: a in NewFacts(t, BankID(space, NormalScope(scope))) && b in NewFacts(t, BankID(space, NormalScope(scope))) ==> a == b
    ensures AfterReflect(space, scope, t, obs, s) == Progress(t, [], 0, 0, [], true)
  {
    var facts := NewFacts(t, BankID(space, NormalScope(scope)));
    if a :| a in facts {
      assert facts == {a};
    }
  }

  /** What counts as such a fact. */
  lemma NewFactsAre(t: Tables, bank: string, id: string)
    ensures id in NewFacts(t, bank) <==>
              && id in t.memories && IsCurrent(t.memories[id], bank, "fact")
              && forall o :: o in t.memories && IsCurrent(t.memories[o], bank, "observation") ==> (o, id) !in t.evidence
  {
    var observations := ActiveOf(t, bank, OBSERVATION);
    assert id in UsedBy(t, observations) <==> exists r :: r in t.evidence && r.0 in observations && r.1 == id;
    if o :| o in t.memories && IsCurrent(t.memories[o], bank, "observation") && (o, id) in t.evidence {
      assert (o, id).0 in observations && (o, id).1 == id;
    }
    if r :| r in t.evidence && r.0 in observations && r.1 == id {
      assert r == (r.0, id);
    }
  }

  /** Of this bank and kind, not archived, not ended, and without a successor. */
  predicate IsCurrent(row: Row, bank: string, kind: string) {
    row.bank == bank && row.kind == kind && !row.archived && row.validTo == None && row.supersededBy == ""
  }
}
