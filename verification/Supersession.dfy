/** Following superseded_by, over whole runs of the memory store (pkg/agentmem/reflect.go, hindsight.go, crud.go). */
module Supersession {
  import opened Wrappers
  import opened Texts
  import opened Memories
  import opened MemoryRules
  import opened Reflection

  type Rows = map<string, Row>

  /** The memories met by following superseded_by from id, up to one that is not stale. */
  ghost predicate Chain(rows: Rows, id: string, chain: seq<string>)
    decreases |chain|
  {
    && chain != [] && chain[0] == id && id in rows
    && if |chain| == 1 then Current(rows[id])
       else !Current(rows[id]) && rows[id].supersededBy == chain[1] && Chain(rows, chain[1], chain[1..])
  }

  ghost predicate Ends(rows: Rows, id: string) {
    exists chain :: Chain(rows, id, chain)
  }

  /** From id one comes to an end without meeting x. */
  ghost predicate Avoids(rows: Rows, id: string, x: string) {
    exists chain :: Chain(rows, id, chain) && x !in chain
  }

  /** A memory is stale exactly when it names a successor, which is a stored observation. */
  ghost predicate RowLinked(rows: Rows, id: string)
    requires id in rows
  {
    && (rows[id].supersededBy == "" <==> rows[id].validTo.None?)
    && (rows[id].supersededBy != "" ==> rows[id].supersededBy in rows && rows[rows[id].supersededBy].kind == OBSERVATION)
  }

  ghost predicate Linked(rows: Rows) {
    forall id :: id in rows ==> RowLinked(rows, id) && Ends(rows, id)
  }

  ghost predicate NamedByOther(rows: Rows, x: string) {
    x != "" && exists y :: y in rows && y != x && rows[y].supersededBy == x
  }

  // ------------------------------------------------------------------- chains

  lemma {:induction false} ChainIsUnique(rows: Rows, id: string, a: seq<string>, b: seq<string>)
    requires Chain(rows, id, a) && Chain(rows, id, b)
    ensures a == b
    decreases |a|
  {
    if |a| > 1 {
      ChainIsUnique(rows, a[1], a[1..], b[1..]);
      assert a == [a[0]] + a[1..] && b == [b[0]] + b[1..];
    }
  }

  lemma {:induction false} ChainFrom(rows: Rows, id: string, chain: seq<string>, i: nat)
    requires Chain(rows, id, chain) && i < |chain|
    ensures Chain(rows, chain[i], chain[i..])
    decreases i
  {
    if i > 0 {
      ChainFrom(rows, chain[1], chain[1..], i - 1);
      assert chain[1..][i - 1..] == chain[i..];
    }
  }

  /** A chain that ends meets no memory twice. */
  lemma ChainHasNoLoop(rows: Rows, id: string, chain: seq<string>)
    requires Chain(rows, id, chain)
    ensures id !in chain[1..]
  {
    if id in chain[1..] {
      var i :| 0 <= i < |chain| - 1 && chain[1..][i] == id;
      ChainFrom(rows, id, chain, i + 1);
      ChainIsUnique(rows, id, chain, chain[i + 1..]);
    }
  }

  /** It meets only stored memories, and after the first only named ones. */
  lemma {:induction false} ChainMembers(rows: Rows, id: string, chain: seq<string>, i: nat)
    requires Chain(rows, id, chain) && i < |chain|
    ensures chain[i] in rows
    ensures i > 0 ==> var y := chain[i - 1]; y in rows && y != chain[i] && !Current(rows[y]) && rows[y].supersededBy == chain[i]
    ensures i + 1 == |chain| ==> Current(rows[chain[i]])
    decreases i
  {
    if i == 1 {
      ChainHasNoLoop(rows, id, chain);
      assert chain[1] in chain[1..];
      ChainMembers(rows, chain[1], chain[1..], 0);
    } else if i > 1 {
      ChainMembers(rows, chain[1], chain[1..], i - 1);
    }
  }

  /** A chain stays one when rows it does not meet change, come or go. */
  lemma {:induction false} SameChain(rows: Rows, after: Rows, x: string, id: string, chain: seq<string>)
    requires Chain(rows, id, chain) && x !in chain
    requires forall y :: y in rows && y != x ==> y in after && after[y] == rows[y]
    ensures Chain(after, id, chain)
    decreases |chain|
  {
    if |chain| > 1 {
      assert forall y :: y in chain[1..] ==> y in chain;
      SameChain(rows, after, x, chain[1], chain[1..]);
    }
  }

  /** Wherever it meets x, it can go on as x now does. */
  lemma {:induction false} Spliced(rows: Rows, after: Rows, x: string, id: string, chain: seq<string>)
    requires Chain(rows, id, chain) && Ends(after, x)
    requires forall y :: y in rows && y != x ==> y in after && after[y] == rows[y]
    ensures Ends(after, id)
    decreases |chain|
  {
    if id != x {
      if |chain| == 1 {
        assert Chain(after, id, chain);
      } else {
        Spliced(rows, after, x, chain[1], chain[1..]);
        var rest :| Chain(after, chain[1], rest);
        assert ([id] + rest)[1..] == rest;
        assert Chain(after, id, [id] + rest);
      }
    }
  }

  // --------------------------------------------------- what keeps chains ending

  /** A row that may be written for x: current, or with a stored observation for successor from which x is not met. */
  ghost predicate MayWrite(rows: Rows, x: string, row: Row) {
    && (Current(row)
        || (row.validTo.Some? && row.supersededBy != "" && row.supersededBy in rows
            && rows[row.supersededBy].kind == OBSERVATION && Avoids(rows, row.supersededBy, x)))
    && (NamedByOther(rows, x) ==> row.kind == OBSERVATION)
  }

  /** Writing a row keeps every chain ending, at an observation if it has a step, exactly when it may be written. */
  lemma WritingKeepsLinks(rows: Rows, x: string, row: Row)
    requires Linked(rows) && x != ""
    ensures Linked(rows[x := row]) <==> MayWrite(rows, x, row)
  {
    if MayWrite(rows, x, row) {
      WrittenIsLinked(rows, x, row);
    }
    if Linked(rows[x := row]) {
      LinkedMayBeWritten(rows, x, row);
    }
  }

  lemma WrittenEnds(rows: Rows, x: string, row: Row)
    requires MayWrite(rows, x, row)
    ensures Ends(rows[x := row], x)
  {
    var after := rows[x := row];
    if Current(row) {
      assert Chain(after, x, [x]);
    } else {
      var chain :| Chain(rows, row.supersededBy, chain) && x !in chain;
      SameChain(rows, after, x, row.supersededBy, chain);
      assert ([x] + chain)[1..] == chain;
      assert Chain(after, x, [x] + chain);
    }
  }

  lemma WrittenIsLinked(rows: Rows, x: string, row: Row)
    requires Linked(rows) && MayWrite(rows, x, row)
    ensures Linked(rows[x := row])
  {
    var after := rows[x := row];
    WrittenEnds(rows, x, row);
    forall id | id in after ensures RowLinked(after, id) && Ends(after, id) {
      if id != x {
        assert RowLinked(rows, id) && Ends(rows, id);
        var chain :| Chain(rows, id, chain);
        Spliced(rows, after, x, id, chain);
      }
    }
  }

  lemma LinkedMayBeWritten(rows: Rows, x: string, row: Row)
    requires Linked(rows[x := row]) && x != ""
    ensures MayWrite(rows, x, row)
  {
    var after, heir := rows[x := row], row.supersededBy;
    assert RowLinked(after, x) && Ends(after, x);
    if NamedByOther(rows, x) {
      var y :| y in rows && y != x && rows[y].supersededBy == x;
      assert RowLinked(after, y);
    }
    if !Current(row) {
      var chain :| Chain(after, x, chain);
      ChainHasNoLoop(after, x, chain);
      var rest := chain[1..];
      assert rest[0] == heir;
      SameChain(after, rows, x, heir, rest);
    }
  }

  /** Deleting a memory does so exactly when no other names it. */
  lemma DeletingKeepsLinks(rows: Rows, x: string)
    requires Linked(rows) && x != ""
    ensures Linked(rows - {x}) <==> !NamedByOther(rows, x)
  {
    var after := rows - {x};
    if !NamedByOther(rows, x) {
      forall id | id in after ensures RowLinked(after, id) && Ends(after, id) {
        assert RowLinked(rows, id) && Ends(rows, id);
        var chain :| Chain(rows, id, chain);
        if x in chain {
          var i :| 0 <= i < |chain| && chain[i] == x;
          ChainMembers(rows, id, chain, i);
        }
        SameChain(rows, after, x, id, chain);
      }
    } else {
      var y :| y in rows && y != x && rows[y].supersededBy == x;
      assert !RowLinked(after, y);
    }
  }

  /** A row as stale as the one it replaces may be written. */
  lemma SameSuccessorMayBeWritten(rows: Rows, x: string, row: Row)
    requires Linked(rows) && x in rows && row.kind == rows[x].kind
    requires row.supersededBy == rows[x].supersededBy && (row.validTo.Some? <==> rows[x].validTo.Some?)
    ensures MayWrite(rows, x, row)
  {
    assert RowLinked(rows, x) && Ends(rows, x);
    if NamedByOther(rows, x) {
      var y :| y in rows && y != x && rows[y].supersededBy == x;
      assert RowLinked(rows, y);
    }
    if !Current(row) {
      var chain :| Chain(rows, x, chain);
      ChainHasNoLoop(rows, x, chain);
      assert Chain(rows, row.supersededBy, chain[1..]);
    }
  }

  // ------------------------------------------------------------------ Reflect

  /** The observations a Reflect may supersede are there from the start. */
  ghost predicate Targets(rows: Rows, existing: set<string>) {
    forall id :: id in existing ==> id in rows && rows[id].kind == OBSERVATION
  }

  lemma NewObservationIsLinked(rows: Rows, existing: set<string>, id: string, row: Row)
    requires Linked(rows) && Targets(rows, existing) && id !in rows && Current(row) && row.kind == OBSERVATION
    ensures Linked(rows[id := row]) && Targets(rows[id := row], existing)
  {
    WrittenIsLinked(rows, id, row);
  }

  lemma TargetIsLinked(rows: Rows, existing: set<string>, target: string, heir: string, now: Now)
    requires Linked(rows) && Targets(rows, existing) && target in existing && heir in rows && heir != "" && heir != target
    requires rows[heir].kind == OBSERVATION && Current(rows[heir])
    ensures var after := rows[target := StaleRow(rows[target], heir, now)]; Linked(after) && Targets(after, existing)
  {
    assert Chain(rows, heir, [heir]);
    WrittenIsLinked(rows, target, StaleRow(rows[target], heir, now));
  }

  lemma SaveIsLinked(space: Spaces, scope: Scope, existing: set<string>, t: Tables, o: Observation, n: nat, s: Supply)
    requires Linked(t.memories) && Targets(t.memories, existing) && Trim(space, o.content) != ""
    requires scope == NormalScope(scope) && s.ids(n) != "" && s.ids(n) !in t.memories
    ensures var after := Saved(space, t, ObservationMemory(scope, o, n, s));
            && StepSave(space, scope, t, o, n, s) == (None, after)
            && Linked(after.memories) && Targets(after.memories, existing) && s.ids(n) !in existing
            && AddedTo(after, BankID(space, scope), s.ids(n))
  {
    SavedObservation(space, scope, t, o, n, s);
    var after := Saved(space, t, ObservationMemory(scope, o, n, s));
    assert after.memories == t.memories[s.ids(n) := after.memories[s.ids(n)]];
    NewObservationIsLinked(t.memories, existing, s.ids(n), after.memories[s.ids(n)]);
  }

  lemma RestIsLinked(space: Spaces, existing: set<string>, p: Progress, o: Observation, id: string, after: Tables, bank: string, now: Now)
    requires Linked(after.memories) && Targets(after.memories, existing) && id != "" && id !in existing && AddedTo(after, bank, id)
    ensures var rows := StepFrom(space, existing, p, o, id, (None, after), now).tables.memories;
            Linked(rows) && Targets(rows, existing)
  {
    if Ignored(existing, o) || o.update == "" {
      StepCreates(space, existing, p, o, id, after, now);
    } else {
      StepUpdates(space, existing, p, o, id, after, now);
      TargetIsLinked(after.memories, existing, o.update, id, now);
    }
  }

  lemma TurnIsLinked(space: Spaces, scope: Scope, existing: set<string>, p: Progress, o: Observation, n: nat, s: Supply)
    requires Linked(p.tables.memories) && Targets(p.tables.memories, existing)
    requires scope == NormalScope(scope) && s.ids(n) != "" && s.ids(n) !in p.tables.memories
    ensures var rows := Step(space, scope, existing, p, o, n, s).tables.memories; Linked(rows) && Targets(rows, existing)
  {
    if p.ok && !Skipped(o) && Trim(space, o.content) != "" {
      SaveIsLinked(space, scope, existing, p.tables, o, n, s);
      RestIsLinked(space, existing, p, o, s.ids(n), Saved(space, p.tables, ObservationMemory(scope, o, n, s)),
                   BankID(space, scope), s.clock(2 * n + 2));
    }
  }

  lemma {:induction false} StepsAreLinked(space: Spaces, scope: Scope, existing: set<string>, t: Tables, obs: seq<Observation>, s: Supply)
    requires Linked(t.memories) && Targets(t.memories, existing)
    requires scope == NormalScope(scope) && Fresh(t, s) && "" !in existing
    ensures var rows := Steps(space, scope, existing, t, obs, s).tables.memories; Linked(rows) && Targets(rows, existing)
  {
    if obs != [] {
      var n := |obs| - 1;
      var p := Steps(space, scope, existing, t, obs[..n], s);
      StepsAreLinked(space, scope, existing, t, obs[..n], s);
      StepsKeep(space, scope, t, existing, obs[..n], s);
      NameIsFresh(t, p, s, n);
      TurnIsLinked(space, scope, existing, p, obs[n], n, s);
    }
  }

  lemma ReflectIsLinked(space: Spaces, t: Tables, scope: Scope, obs: seq<Observation>, s: Supply)
    requires Agree(space, t) && Linked(t.memories) && Fresh(t, s)
    ensures Linked(AfterReflect(space, scope, t, obs, s).tables.memories)
  {
    var bank := BankID(space, NormalScope(scope));
    NormalScopeIsNormal(scope);
    assert ViewOk(space, "", About(t, ""));
    if |NewFacts(t, bank)| >= 2 {
      StepsAreLinked(space, NormalScope(scope), ActiveOf(t, bank, OBSERVATION), t, obs, s);
    }
  }

  lemma {:induction false} StepsAgree(space: Spaces, scope: Scope, existing: set<string>, t: Tables, obs: seq<Observation>, s: Supply)
    requires Agree(space, t) && Fresh(t, s)
    ensures Agree(space, Steps(space, scope, existing, t, obs, s).tables)
  {
    if obs != [] {
      var n := |obs| - 1;
      StepsAgree(space, scope, existing, t, obs[..n], s);
      StepAgrees(space, scope, existing, Steps(space, scope, existing, t, obs[..n], s), obs[n], n, s);
    }
  }

  lemma StepAgrees(space: Spaces, scope: Scope, existing: set<string>, p: Progress, o: Observation, n: nat, s: Supply)
    requires Agree(space, p.tables) && s.ids(n) != ""
    ensures Agree(space, Step(space, scope, existing, p, o, n, s).tables)
  {
    var save := Op.Save(NewMemory(scope, o, s.ids(n), s.clock(0)), s.ids(n));
    var saved := StepSave(space, scope, p.tables, o, n, s).1;
    TablesStayInAgreement(space, p.tables, save, s.clock(2 * n + 1));
    TablesStayInAgreement(space, saved, MarkStale(o.update, s.ids(n)), s.clock(2 * n + 2));
  }

  /** Reflect keeps the tables in agreement as well, made as it is of saves and marks. */
  lemma ReflectAgrees(space: Spaces, t: Tables, scope: Scope, obs: seq<Observation>, s: Supply)
    requires Agree(space, t) && Fresh(t, s)
    ensures Agree(space, AfterReflect(space, scope, t, obs, s).tables)
  {
    StepsAgree(space, NormalScope(scope), ActiveOf(t, BankID(space, NormalScope(scope)), OBSERVATION), t, obs, s);
  }

  // --------------------------------------------------------------------- runs

  /** Any operation of the store at a time, or a Reflect of any reflector. */
  datatype Doing =
    | Does(op: Op, now: Now)
    | Reflects(scope: Scope, obs: seq<Observation>, supply: Supply)

  /**
   * What a caller must see to: a save or a mark that makes a memory stale names
   * a stored observation from which that memory is not met; an observation that
   * is named stays one, and is not deleted. Everything else is free.
   */
  ghost predicate Careful(space: Spaces, t: Tables, d: Doing) {
    match d
    case Does(Save(m, newID), now) =>
      newID != "" && (Savable(space, m) ==>
        var c := Completed(m, now, newID); MayWrite(t.memories, c.id, Upserted(space, RowOf(t, c.id), c)))
    case Does(MarkStale(id, heir), now) => id in t.memories ==> MayWrite(t.memories, id, StaleRow(t.memories[id], heir, now))
    case Does(Delete(id), _) => !NamedByOther(t.memories, id)
    case Does(_, _) => true
    case Reflects(_, _, supply) => Fresh(t, supply)
  }

  ghost function Done(space: Spaces, t: Tables, d: Doing): Tables {
    match d
    case Does(op, now) => Apply(space, t, op, now).1
    case Reflects(scope, obs, supply) => AfterReflect(space, scope, t, obs, supply).tables
  }

  ghost predicate CanDo(space: Spaces, t: Tables, doings: seq<Doing>)
    decreases |doings|
  {
    doings == [] || (Careful(space, t, doings[0]) && CanDo(space, Done(space, t, doings[0]), doings[1..]))
  }

  ghost function AfterAll(space: Spaces, t: Tables, doings: seq<Doing>): Tables
    decreases |doings|
  {
    if doings == [] then t else AfterAll(space, Done(space, t, doings[0]), doings[1..])
  }

  lemma RewrittenIsLinked(rows: Rows, x: string, row: Row)
    requires Linked(rows) && x in rows && row.kind == rows[x].kind
    requires row.supersededBy == rows[x].supersededBy && (row.validTo.Some? <==> rows[x].validTo.Some?)
    ensures Linked(rows[x := row])
  {
    SameSuccessorMayBeWritten(rows, x, row);
    WrittenIsLinked(rows, x, row);
  }

  /** One operation keeps every chain ending exactly when the caller saw to what Careful asks of it. */
  lemma CareIsNeeded(space: Spaces, t: Tables, op: Op, now: Now)
    requires Agree(space, t) && Linked(t.memories) && MemoryRules.Named(op)
    ensures Linked(Apply(space, t, op, now).1.memories) <==> Careful(space, t, Does(op, now))
  {
    match op
    case Save(m, newID) =>
      if Savable(space, m) {
        var c := Completed(m, now, newID);
        WritingKeepsLinks(t.memories, c.id, Upserted(space, RowOf(t, c.id), c));
      }
    case MarkStale(id, heir) =>
      assert ViewOk(space, "", About(t, ""));
      if id in t.memories {
        WritingKeepsLinks(t.memories, id, StaleRow(t.memories[id], heir, now));
      }
    case Delete(id) =>
      if id != "" {
        DeletingKeepsLinks(t.memories, id);
      }
    case Clear =>
    case _ =>
      // Operations on flags, counts and history leave every memory as stale as it was.
      assert Linked(Apply(space, t, op, now).1.memories) by {
        if op.id in t.memories {
          var row := t.memories[op.id];
          match op
          case Archive(id, reason) => RewrittenIsLinked(t.memories, id, ArchivedRow(row, reason, now));
          case Unarchive(id) => RewrittenIsLinked(t.memories, id, UnarchivedRow(row, now));
          case IncrementAccess(id) => RewrittenIsLinked(t.memories, id, AccessedRow(row, now));
          case AddRevision(_, _, _) =>
        }
      }
  }

  lemma {:induction false} RunIsLinked(space: Spaces, t: Tables, doings: seq<Doing>)
    requires Agree(space, t) && Linked(t.memories) && CanDo(space, t, doings)
    ensures Linked(AfterAll(space, t, doings).memories)
    decreases |doings|
  {
    if doings != [] {
      match doings[0] {
        case Does(op, now) =>
          TablesStayInAgreement(space, t, op, now);
          CareIsNeeded(space, t, op, now);
        case Reflects(scope, obs, s) =>
          ReflectAgrees(space, t, scope, obs, s);
          ReflectIsLinked(space, t, scope, obs, s);
      }
      RunIsLinked(space, Done(space, t, doings[0]), doings[1..]);
    }
  }

  /**
   * In every run of the store's operations and of reflections in which callers
   * take that care, following superseded_by from any memory ends, at a memory
   * that is not stale, and if it has a step to go, at an observation.
   */
  lemma SupersessionEnds(space: Spaces, doings: seq<Doing>, id: string)
    requires CanDo(space, EMPTY, doings) && id in AfterAll(space, EMPTY, doings).memories
    ensures var rows := AfterAll(space, EMPTY, doings).memories;
            exists chain, last :: EndsAt(rows, id, chain, last)
  {
    EmptyAgrees(space);
    RunIsLinked(space, EMPTY, doings);
    var rows := AfterAll(space, EMPTY, doings).memories;
    assert RowLinked(rows, id) && Ends(rows, id);
    var chain :| Chain(rows, id, chain);
    assert EndsAt(rows, id, chain, chain[|chain| - 1]) by {
      var n := |chain| - 1;
      ChainMembers(rows, id, chain, n);
      if n > 0 {
        assert RowLinked(rows, chain[n - 1]);
        ChainMembers(rows, id, chain, n - 1);
      }
    }
  }

  ghost predicate EndsAt(rows: Rows, id: string, chain: seq<string>, last: string) {
    && Chain(rows, id, chain) && chain[|chain| - 1] == last && last in rows && Current(rows[last])
    && (!Current(rows[id]) ==> rows[last].kind == OBSERVATION)
  }

}
