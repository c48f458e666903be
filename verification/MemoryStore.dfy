/** The store over its tables: each method one transaction (pkg/agentmem/crud.go, hindsight.go, reflect.go). */
module MemoryStore {
  import opened Wrappers
  import opened Texts
  import opened Memories
  import opened MemoryRules
  import opened Reflection

  // -------------------------------------------------------- statements in a loop

  /** DELETE the id's rows, then INSERT ... ON CONFLICT DO NOTHING value by value, blanks and repeats left out. */
  method ReplaceStringSet(space: Spaces, rows: Pairs, id: string, values: seq<string>) returns (after: Pairs)
    ensures after == Replaced(rows, id, Normal(space, values))
  {
    after := PairsWithout(rows, id);
    var seen: set<string> := {};
    for i := 0 to |values|
      invariant seen == Normal(space, values[..i]) && after == Replaced(rows, id, seen)
    {
      assert values[..i + 1] == values[..i] + [values[i]];
      var v := Trim(space, values[i]);
      if v == "" || v in seen {
        continue;
      }
      seen := seen + {v};
      after := after + {(id, v)};
    }
    assert values[..|values|] == values;
  }

  method ReplaceRevisions(revs: Revisions, id: string, list: seq<Revision>) returns (after: Revisions)
    ensures after == RevisionsWithout(revs, id) + Numbered(id, list)
  {
    after := RevisionsWithout(revs, id);
    for i := 0 to |list|
      invariant after == RevisionsWithout(revs, id) + Numbered(id, list[..i])
    {
      assert list[..i + 1][..i] == list[..i];
      after := after[(id, i) := list[i]];
    }
    assert list[..|list|] == list;
  }

  /** SELECT COALESCE(MAX(seq), -1) + 1 of the id's rows. */
  method NextSeq(revs: Revisions, id: string) returns (next: nat)
    ensures next == Next(RevisionsOf(revs, id), id)
  {
    next := 0;
    var todo := RevisionsOf(revs, id).Keys;
    ghost var all := RevisionsOf(revs, id);
    while todo != {}
      invariant todo <= all.Keys
      invariant forall n: nat :: (id, n) in all && (id, n) !in todo ==> n < next
      invariant next > 0 ==> (id, next - 1) in all
    {
      var k :| k in todo;
      if next <= k.1 {
        next := k.1 + 1;
      }
      todo := todo - {k};
    }
    assert next == Next(all, id) by {
      assert next > 0 ==> (id, next - 1) in all;
      assert Next(all, id) > 0 ==> (id, Next(all, id) - 1) in all;
    }
  }

  /** The revisions numbered below n, by number; gaps are passed over. */
  function Below(revs: Revisions, id: string, n: nat): seq<Revision> {
    if n == 0 then [] else Below(revs, id, n - 1) + if (id, n - 1) in revs then [revs[(id, n - 1)]] else []
  }

  /** SELECT ... ORDER BY seq. */
  method LoadRevisions(revs: Revisions, id: string) returns (list: seq<Revision>)
    ensures list == Below(revs, id, Next(RevisionsOf(revs, id), id))
    ensures Counted(RevisionsOf(revs, id), id) ==> ByNumber(list, id, RevisionsOf(revs, id))
  {
    list := [];
    var last := NextSeq(revs, id);
    for n := 0 to last
      invariant list == Below(revs, id, n)
    {
      if (id, n) in revs {
        list := list + [revs[(id, n)]];
      }
    }
    if Counted(RevisionsOf(revs, id), id) {
      NextIsCount(RevisionsOf(revs, id), id, last);
      BelowIsByNumber(revs, id, last);
    }
  }

  lemma {:induction false} BelowIsByNumber(revs: Revisions, id: string, n: nat)
    requires forall k: nat :: k < n ==> (id, k) in revs
    ensures |Below(revs, id, n)| == n && forall k: nat :: k < n ==> Below(revs, id, n)[k] == revs[(id, k)]
    decreases n
  {
    if n > 0 {
      BelowIsByNumber(revs, id, n - 1);
      assert (id, n - 1) in revs;
    }
  }

  /** Save fills in what the caller left out. */
  method FillIn(m: Memory, now: Now, newID: string) returns (out: Memory)
    ensures out == Completed(m, now, newID)
  {
    var id, kind, importance, source := m.id, m.kind, m.importance, m.source;
    var createdAt, validFrom := m.createdAt, m.validFrom;
    if id == "" {
      id := newID;
    }
    if kind == "" {
      kind := FACT;
    }
    if importance == 0.0 {
      importance := 0.5;
    }
    if source == "" {
      source := USER_INPUT;
    }
    if createdAt == 0 {
      createdAt := now;
    }
    if validFrom == 0 {
      validFrom := createdAt;
    }
    out := m.(id := id, kind := kind, importance := importance, source := source, createdAt := createdAt,
              validFrom := validFrom, updatedAt := now, scope := NormalScope(m.scope));
  }

  // ------------------------------------------------------------------ the store

  datatype ReflectResult = ReflectResult(created: nat, updated: nat, reviewed: nat, newIDs: seq<string>, ignored: seq<string>)

  ghost predicate Earliest(rows: map<string, Row>, s: set<string>, id: string)
    requires forall x :: x in s ==> x in rows
  {
    id in s && forall x :: x in s ==> rows[id].createdAt <= rows[x].createdAt
  }

  lemma {:induction false} EarliestExists(rows: map<string, Row>, s: set<string>)
    requires s != {} && forall x :: x in s ==> x in rows
    ensures exists id :: Earliest(rows, s, id)
    decreases |s|
  {
    var x :| x in s;
    if s == {x} {
      assert Earliest(rows, s, x);
    } else {
      var rest := s - {x};
      assert s == rest + {x};
      EarliestExists(rows, rest);
      var y :| Earliest(rows, rest, y);
      assert Earliest(rows, s, if rows[x].createdAt <= rows[y].createdAt then x else y);
    }
  }

  function IDs(list: seq<Memory>): set<string> {
    if list == [] then {} else IDs(list[..|list| - 1]) + {list[|list| - 1].id}
  }

  /** The memories of a kind. */
  function OfKind(list: seq<Memory>, kind: string): seq<Memory> {
    if list == [] then []
    else
      var n := |list| - 1;
      if list[n].kind == kind then OfKind(list[..n], kind) + [list[n]] else OfKind(list[..n], kind)
  }

  ghost predicate NoneYounger(list: seq<Memory>, at: Time) {
    forall m :: m in list ==> m.createdAt <= at
  }

  /** Oldest first, no id twice. */
  ghost predicate InAgeOrder(list: seq<Memory>) {
    list == [] ||
    var front, last := list[..|list| - 1], list[|list| - 1];
    InAgeOrder(front) && last.id !in IDs(front) && NoneYounger(front, last.createdAt)
  }

  ghost predicate AllLoaded(t: Tables, list: seq<Memory>) {
    forall m :: m in list ==> Loads(t, m.id, m)
  }

  /** list is the memories of these ids as Get reads them, each once, oldest first. */
  ghost predicate Selected(t: Tables, ids: set<string>, list: seq<Memory>) {
    IDs(list) == ids && InAgeOrder(list) && AllLoaded(t, list)
  }

  lemma OneMoreInOrder(list: seq<Memory>, m: Memory)
    requires InAgeOrder(list) && m.id !in IDs(list) && NoneYounger(list, m.createdAt)
    ensures InAgeOrder(list + [m]) && IDs(list + [m]) == IDs(list) + {m.id}
  {
    assert (list + [m])[..|list|] == list;
  }

  lemma SelectedMore(t: Tables, ids: set<string>, list: seq<Memory>, m: Memory)
    requires Selected(t, ids, list) && m.id !in ids && NoneYounger(list, m.createdAt) && Loads(t, m.id, m)
    ensures Selected(t, ids + {m.id}, list + [m])
  {
    OneMoreInOrder(list, m);
  }

  lemma {:induction false} IDsAre(list: seq<Memory>)
    ensures IDs(list) == set m | m in list :: m.id
    decreases |list|
  {
    if list != [] {
      IDsAre(list[..|list| - 1]);
      assert list == list[..|list| - 1] + [list[|list| - 1]];
    }
  }

  lemma {:induction false} InAgeOrderBefore(list: seq<Memory>, n: nat)
    requires InAgeOrder(list) && n <= |list|
    ensures InAgeOrder(list[..n])
    decreases |list|
  {
    if n == |list| {
      assert list[..n] == list;
    } else {
      assert list[..|list| - 1][..n] == list[..n];
      InAgeOrderBefore(list[..|list| - 1], n);
    }
  }

  /** A selection is what the tables hold for each of the ids, once, the oldest first. */
  lemma SelectedExactly(t: Tables, ids: set<string>, list: seq<Memory>)
    requires Selected(t, ids, list)
    ensures forall id :: id in ids <==> exists m :: m in list && m.id == id
    ensures forall m :: m in list ==> Loads(t, m.id, m)
    ensures forall i, j :: 0 <= i < j < |list| ==> list[i].createdAt <= list[j].createdAt && list[i].id != list[j].id
  {
    IDsAre(list);
    forall i, j | 0 <= i < j < |list| ensures list[i].createdAt <= list[j].createdAt && list[i].id != list[j].id {
      NextInOrder(list, j, list[..j]);
      IDsAre(list[..j]);
      assert list[i] == list[..j][i];
    }
  }

  /** What comes next in an ordered list may follow any part of what came before. */
  lemma NextInOrder(list: seq<Memory>, i: nat, part: seq<Memory>)
    requires InAgeOrder(list) && i < |list|
    requires forall m :: m in part ==> m in list[..i]
    ensures list[i].id !in IDs(part) && NoneYounger(part, list[i].createdAt)
  {
    InAgeOrderBefore(list, i + 1);
    assert list[..i + 1][..i] == list[..i];
    IDsAre(part);
    IDsAre(list[..i]);
  }

  lemma {:induction false} CountOfIDs(list: seq<Memory>)
    requires InAgeOrder(list)
    ensures |list| == |IDs(list)|
    decreases |list|
  {
    if list != [] {
      CountOfIDs(list[..|list| - 1]);
    }
  }

  /** None of these ids' memories is older than one of the list. */
  ghost predicate Waiting(rows: map<string, Row>, list: seq<Memory>, ids: set<string>) {
    forall id :: id in ids ==> id in rows && NoneYounger(list, rows[id].createdAt)
  }

  lemma WaitingStill(rows: map<string, Row>, list: seq<Memory>, ids: set<string>, id: string, m: Memory)
    requires Waiting(rows, list, ids) && Earliest(rows, ids, id) && m.createdAt == rows[id].createdAt
    ensures Waiting(rows, list + [m], ids - {id})
  {
  }

  class Store {
    const space: Spaces
    var memories: map<string, Row>
    var tags: Pairs
    var keywords: Pairs
    var evidence: Pairs
    var revisions: Revisions
    var text: seq<TextRow>

    ghost function State(): Tables
      reads this
    {
      Tables(memories, tags, keywords, evidence, revisions, text)
    }

    ghost predicate Valid()
      reads this
    {
      Agree(space, State())
    }

    constructor (space: Spaces)
      ensures Valid() && State() == EMPTY && this.space == space
    {
      this.space := space;
      memories, tags, keywords, evidence, revisions, text := map[], {}, {}, {}, map[], [];
      new;
      EmptyAgrees(space);
    }

    method Save(m: Memory, now: Now, newID: string) returns (err: Option<Error>, out: Memory)
      requires Valid() && newID != ""
      modifies this
      ensures Valid() && (err, State()) == Apply(space, old(State()), Op.Save(m, newID), now)
      ensures out == if err.None? then Completed(m, now, newID) else m
    {
      if Trim(space, m.content) == "" {
        return Some(EmptyContent), m;
      }
      ghost var after := Saved(space, State(), Completed(m, now, newID));
      assert Agree(space, after) by {
        TablesStayInAgreement(space, State(), Op.Save(m, newID), now);
      }
      out := FillIn(m, now, newID);
      var prior := if out.id in memories then Some(memories[out.id]) else None;
      memories := memories[out.id := Upserted(space, prior, out)];
      tags := ReplaceStringSet(space, tags, out.id, out.tags);
      keywords := ReplaceStringSet(space, keywords, out.id, out.keywords);
      evidence := ReplaceStringSet(space, evidence, out.id, out.evidence);
      revisions := ReplaceRevisions(revisions, out.id, out.revisions);
      text := TextWithout(text, out.id) + [TextFor(out)];
      assert State() == after;
      err := None;
    }

    method Load(id: string) returns (m: Memory)
      requires Valid() && id in memories
      ensures Loads(State(), id, m)
    {
      assert ViewOk(space, id, About(State(), id));
      var row := memories[id];
      var tagList := InOrder(ValuesOf(tags, id));
      var keywordList := InOrder(ValuesOf(keywords, id));
      var evidenceList := InOrder(ValuesOf(evidence, id));
      var history := LoadRevisions(revisions, id);
      m := Memory(id, row.scope, row.kind, row.content, row.importance, tagList, keywordList,
                  row.source, row.confidence, evidenceList,
                  OrZero(row.validFrom), row.validTo, row.supersededBy, row.conflicting,
                  row.archived, row.archivedAt, row.archiveReason,
                  row.accessCount, OrZero(row.lastAccessed), row.createdAt, row.updatedAt, history);
    }

    method Get(id: string) returns (r: Result<Memory, Error>)
      requires Valid()
      ensures match r
              case Ok(m) => id != "" && Loads(State(), id, m)
              case Err(e) => e == if id == "" then EmptyID else NotFound
      ensures r.Ok? <==> id != "" && id in memories
    {
      if id == "" {
        return Err(EmptyID);
      }
      if id !in memories {
        return Err(NotFound);
      }
      var m := Load(id);
      r := Ok(m);
    }

    method Delete(id: string, ghost now: Now) returns (err: Option<Error>)
      requires Valid()
      modifies this
      ensures Valid() && (err, State()) == Apply(space, old(State()), Op.Delete(id), now)
    {
      TablesStayInAgreement(space, State(), Op.Delete(id), now);
      if id == "" {
        return Some(EmptyID);
      }
      tags, keywords, evidence := PairsWithout(tags, id), PairsWithout(keywords, id), PairsWithout(evidence, id);
      revisions := RevisionsWithout(revisions, id);
      text := TextWithout(text, id);
      memories := memories - {id};
      err := None;
    }

    method Clear(ghost now: Now) returns (err: Option<Error>)
      requires Valid()
      modifies this
      ensures Valid() && (err, State()) == Apply(space, old(State()), Op.Clear, now)
    {
      TablesStayInAgreement(space, State(), Op.Clear, now);
      tags, keywords, evidence, revisions, text, memories := {}, {}, {}, map[], [], map[];
      err := None;
    }

    /** appendRevisionTx; the number is always free, so the INSERT meets no conflict. */
    method AppendRevision(id: string, r: Revision)
      modifies this`revisions
      ensures State() == Revised(old(State()), id, r)
    {
      var next := NextSeq(revisions, id);
      assert (id, next) !in RevisionsOf(revisions, id);
      revisions := revisions[(id, next) := r];
    }

    method MarkStale(id: string, heir: string, now: Now) returns (err: Option<Error>)
      requires Valid()
      modifies this
      ensures Valid() && (err, State()) == Apply(space, old(State()), Op.MarkStale(id, heir), now)
    {
      TablesStayInAgreement(space, State(), Op.MarkStale(id, heir), now);
      if id == "" {
        return Some(EmptyID);
      }
      if id !in memories {
        return Some(NotFound);
      }
      memories := memories[id := memories[id].(validTo := Some(now), supersededBy := heir, updatedAt := now)];
      AppendRevision(id, Revision(now, "reflect", SUPERSEDED + heir));
      err := None;
    }

    method Archive(id: string, reason: string, now: Now) returns (err: Option<Error>)
      requires Valid()
      modifies this
      ensures Valid() && (err, State()) == Apply(space, old(State()), Op.Archive(id, reason), now)
    {
      TablesStayInAgreement(space, State(), Op.Archive(id, reason), now);
      if id == "" {
        return Some(EmptyID);
      }
      if id !in memories {
        return Some(NotFound);
      }
      memories := memories[id := memories[id].(archived := true, archivedAt := Some(now), archiveReason := reason, updatedAt := now)];
      AppendRevision(id, Revision(now, "archive", reason));
      err := None;
    }

    method Unarchive(id: string, now: Now) returns (err: Option<Error>)
      requires Valid()
      modifies this
      ensures Valid() && (err, State()) == Apply(space, old(State()), Op.Unarchive(id), now)
    {
      TablesStayInAgreement(space, State(), Op.Unarchive(id), now);
      if id == "" {
        return Some(EmptyID);
      }
      if id !in memories {
        return Some(NotFound);
      }
      memories := memories[id := memories[id].(archived := false, archivedAt := None, archiveReason := "", updatedAt := now)];
      err := None;
    }

    method AddRevision(id: string, author: string, summary: string, now: Now) returns (err: Option<Error>)
      requires Valid()
      modifies this
      ensures Valid() && (err, State()) == Apply(space, old(State()), Op.AddRevision(id, author, summary), now)
    {
      TablesStayInAgreement(space, State(), Op.AddRevision(id, author, summary), now);
      if id == "" {
        return Some(EmptyID);
      }
      AppendRevision(id, Revision(now, author, summary));
      err := None;
    }

    method IncrementAccess(id: string, now: Now) returns (err: Option<Error>)
      requires Valid()
      modifies this
      ensures Valid() && (err, State()) == Apply(space, old(State()), Op.IncrementAccess(id), now)
    {
      TablesStayInAgreement(space, State(), Op.IncrementAccess(id), now);
      if id !in memories {
        return Some(NotFound);
      }
      memories := memories[id := memories[id].(accessCount := memories[id].accessCount + 1, lastAccessed := Some(now))];
      err := None;
    }

    /** The active memories of a bank, oldest first. */
    method ActiveBankMemories(bank: string) returns (list: seq<Memory>)
      requires Valid()
      ensures Selected(State(), ActiveIn(State(), bank), list)
    {
      list := [];
      var all := set id | id in memories && memories[id].bank == bank && !memories[id].archived
                          && memories[id].validTo.None? && memories[id].supersededBy == "";
      assert all == ActiveIn(State(), bank);
      var todo := all;
      while todo != {}
        invariant todo <= all && Selected(State(), all - todo, list)
        invariant Waiting(memories, list, todo)
      {
        EarliestExists(memories, todo);
        var id :| id in todo && forall x :: x in todo ==> memories[id].createdAt <= memories[x].createdAt;
        var m := Load(id);
        WaitingStill(memories, list, todo, id, m);
        SelectedMore(State(), all - todo, list, m);
        assert all - (todo - {id}) == all - todo + {id};
        list := list + [m];
        todo := todo - {id};
      }
      assert all - todo == all;
    }

    /**
     * Reflect, for any reflector: it is asked about the bank's new facts and
     * active observations, and its answer is taken observation by observation.
     */
    method Reflect(scope: Scope, consolidate: (seq<Memory>, seq<Memory>) -> Option<seq<Observation>>, s: Supply)
      returns (r: Option<ReflectResult>, ghost seen: seq<Memory>, ghost known: seq<Memory>)
      requires Valid() && Fresh(State(), s)
      modifies this
      ensures Valid()
      ensures var t, bank := old(State()), BankID(space, NormalScope(scope));
              && Selected(t, NewFacts(t, bank), seen) && Selected(t, ActiveOf(t, bank, OBSERVATION), known)
              && Outcome(t, AfterReflect(space, scope, t, Answer(consolidate(seen, known)), s),
                         |NewFacts(t, bank)|, consolidate(seen, known).Some?, State(), r)
    {
      var normal := NormalScope(scope);
      var newFacts, existing, existingIDs := ToReview(BankID(space, normal));
      seen, known := newFacts, existing;
      if |newFacts| < 2 {
        return Some(ReflectResult(0, 0, |newFacts|, [], [])), seen, known;
      }
      var answer := consolidate(newFacts, existing);
      if answer.None? {
        return None, seen, known;
      }
      r := Consolidate(normal, existingIDs, answer.value, |newFacts|, s);
    }

    /** What there is to reflect on: the facts no active observation rests on, and the active observations. */
    method ToReview(bank: string) returns (newFacts: seq<Memory>, existing: seq<Memory>, existingIDs: set<string>)
      requires Valid()
      ensures Selected(State(), NewFacts(State(), bank), newFacts) && |newFacts| == |NewFacts(State(), bank)|
      ensures Selected(State(), ActiveOf(State(), bank, OBSERVATION), existing)
      ensures existingIDs == ActiveOf(State(), bank, OBSERVATION)
    {
      var memos := ActiveBankMemories(bank);
      var facts, used;
      facts, existing, existingIDs, used := SplitActive(State(), memos);
      KindIsSelected(State(), bank, memos, FACT);
      KindIsSelected(State(), bank, memos, OBSERVATION);
      newFacts := NotUsed(facts, used);
      RestIsSelected(State(), ActiveOf(State(), bank, FACT), used, facts, newFacts);
      CountOfIDs(newFacts);
    }

    /** One turn of the loop: the observation saved, and its target marked. */
    method TakeObservation(scope: Scope, existing: set<string>, o: Observation, k: nat, s: Supply, r: ReflectResult)
      returns (ok: bool, r': ReflectResult)
      requires Valid() && s.ids(k) != ""
      modifies this
      ensures Valid() && r'.reviewed == r.reviewed
      ensures Step(space, scope, existing, Reached(old(State()), r, true), o, k, s) == Reached(State(), r', ok)
    {
      if o.content == "" || |o.evidence| < 2 {
        return true, r;
      }
      var target, ignored := o.update, r.ignored;
      if target != "" && target !in existing {
        ignored := ignored + [target];
        target := "";
      }
      ghost var p, saved := Reached(State(), r, true), StepSave(space, scope, State(), o, k, s);
      assert Step(space, scope, existing, p, o, k, s) == StepFrom(space, existing, p, o, s.ids(k), saved, s.clock(2 * k + 2));
      var err, _ := Save(NewMemory(scope, o, s.ids(k), s.clock(0)), s.clock(2 * k + 1), s.ids(k));
      assert (err, State()) == saved;
      if err.Some? {
        return false, r;
      }
      if target != "" {
        err := MarkStale(target, s.ids(k), s.clock(2 * k + 2));
        if err.Some? {
          return false, r;
        }
        r' := r.(newIDs := r.newIDs + [s.ids(k)], updated := r.updated + 1, ignored := ignored);
      } else {
        r' := r.(newIDs := r.newIDs + [s.ids(k)], created := r.created + 1, ignored := ignored);
      }
      ok := true;
    }

    /** The loop over the reflector's observations. */
    method Consolidate(scope: Scope, existing: set<string>, obs: seq<Observation>, reviewed: nat, s: Supply)
      returns (r: Option<ReflectResult>)
      requires Valid() && Fresh(State(), s)
      modifies this
      ensures Valid()
      ensures var p := Steps(space, scope, existing, old(State()), obs, s);
              State() == p.tables && r == if p.ok then Some(ResultOf(p, reviewed)) else None
    {
      ghost var t := State();
      var result := ReflectResult(0, 0, reviewed, [], []);
      for i := 0 to |obs|
        invariant Valid() && result.reviewed == reviewed
        invariant Steps(space, scope, existing, t, obs[..i], s) == Reached(State(), result, true)
      {
        assert obs[..i + 1][..i] == obs[..i];
        var ok, next := TakeObservation(scope, existing, obs[i], i, s, result);
        if !ok {
          StopsAt(space, scope, existing, t, obs, s, i + 1);
          return None;
        }
        result := next;
      }
      assert obs[..|obs|] == obs;
      r := Some(result);
    }
  }

  ghost function Reached(t: Tables, r: ReflectResult, ok: bool): Progress {
    Progress(t, r.newIDs, r.created, r.updated, r.ignored, ok)
  }

  function ResultOf(p: Progress, reviewed: nat): ReflectResult {
    ReflectResult(p.created, p.updated, reviewed, p.newIDs, p.ignored)
  }

  function Answer(o: Option<seq<Observation>>): seq<Observation> {
    if o.Some? then o.value else []
  }

  /** What a Reflect returns, and the tables it leaves. */
  ghost predicate Outcome(t: Tables, p: Progress, reviewed: nat, answered: bool, after: Tables, r: Option<ReflectResult>) {
    if reviewed < 2 then after == t && r == Some(ReflectResult(0, 0, reviewed, [], []))
    else if !answered then after == t && r == None
    else after == p.tables && r == if p.ok then Some(ResultOf(p, reviewed)) else None
  }

  lemma {:induction false} StopsAt(space: Spaces, scope: Scope, existing: set<string>, t: Tables, obs: seq<Observation>, s: Supply, i: nat)
    requires i <= |obs| && !Steps(space, scope, existing, t, obs[..i], s).ok
    ensures Steps(space, scope, existing, t, obs, s) == Steps(space, scope, existing, t, obs[..i], s)
    decreases |obs|
  {
    if i == |obs| {
      assert obs[..i] == obs;
    } else {
      var n := |obs| - 1;
      assert obs[..n][..i] == obs[..i];
      StopsAt(space, scope, existing, t, obs[..n], s, i);
      assert Steps(space, scope, existing, t, obs, s)
          == Step(space, scope, existing, Steps(space, scope, existing, t, obs[..n], s), obs[n], n, s);
    }
  }

  lemma {:induction false} KindInOrder(list: seq<Memory>, kind: string)
    requires InAgeOrder(list)
    ensures InAgeOrder(OfKind(list, kind))
    ensures forall m :: m in OfKind(list, kind) <==> m in list && m.kind == kind
    decreases |list|
  {
    if list != [] {
      var n := |list| - 1;
      KindInOrder(list[..n], kind);
      assert list == list[..n] + [list[n]];
      if list[n].kind == kind {
        NextInOrder(list, n, OfKind(list[..n], kind));
        OneMoreInOrder(OfKind(list[..n], kind), list[n]);
      }
    }
  }

  /** The loop that sorts the active memories into facts and observations. */
  method SplitActive(ghost t: Tables, memos: seq<Memory>)
    returns (facts: seq<Memory>, existing: seq<Memory>, existingIDs: set<string>, used: set<string>)
    requires AllLoaded(t, memos)
    ensures facts == OfKind(memos, FACT) && existing == OfKind(memos, OBSERVATION)
    ensures existingIDs == IDs(existing) && used == UsedBy(t, existingIDs)
  {
    facts, existing, existingIDs, used := [], [], {}, {};
    for i := 0 to |memos|
      invariant facts == OfKind(memos[..i], FACT) && existing == OfKind(memos[..i], OBSERVATION)
      invariant existingIDs == IDs(existing) && used == UsedBy(t, existingIDs)
    {
      var m := memos[i];
      assert memos[..i + 1][..i] == memos[..i];
      if m.kind == FACT {
        facts := facts + [m];
      } else if m.kind == OBSERVATION {
        assert (existing + [m])[..|existing|] == existing;
        existing := existing + [m];
        UsedByOneMore(t, existingIDs, m);
        existingIDs := existingIDs + {m.id};
        used := used + set e | e in m.evidence;
      }
    }
    assert memos[..|memos|] == memos;
  }

  lemma UsedByOneMore(t: Tables, ids: set<string>, m: Memory)
    requires Loads(t, m.id, m)
    ensures UsedBy(t, ids + {m.id}) == UsedBy(t, ids) + set e | e in m.evidence
  {
    forall e ensures e in m.evidence <==> (m.id, e) in t.evidence {
      assert e in ValuesOf(t.evidence, m.id) <==> (m.id, e) in t.evidence;
    }
  }

  /** The facts nothing rests on yet. */
  method NotUsed(facts: seq<Memory>, used: set<string>) returns (list: seq<Memory>)
    requires InAgeOrder(facts)
    ensures InAgeOrder(list) && forall m :: m in list <==> m in facts && m.id !in used
  {
    list := [];
    for i := 0 to |facts|
      invariant InAgeOrder(list) && forall m :: m in list <==> m in facts[..i] && m.id !in used
    {
      var f := facts[i];
      assert facts[..i + 1] == facts[..i] + [f];
      if f.id !in used {
        NextInOrder(facts, i, list);
        OneMoreInOrder(list, f);
        list := list + [f];
      }
    }
    assert facts[..|facts|] == facts;
  }

  ghost predicate KindsAreRows(t: Tables, list: seq<Memory>) {
    forall m :: m in list ==> m.id in t.memories && m.kind == t.memories[m.id].kind
  }

  lemma KindIDs(t: Tables, bank: string, memos: seq<Memory>, kind: string)
    requires IDs(memos) == ActiveIn(t, bank) && InAgeOrder(memos) && KindsAreRows(t, memos)
    ensures IDs(OfKind(memos, kind)) == ActiveOf(t, bank, kind)
  {
    KindInOrder(memos, kind);
    IDsAre(memos);
    IDsAre(OfKind(memos, kind));
    forall id | id in ActiveOf(t, bank, kind) ensures id in IDs(OfKind(memos, kind)) {
      assert id in IDs(memos);
      var m :| m in memos && m.id == id;
      assert m in OfKind(memos, kind);
    }
    forall id | id in IDs(OfKind(memos, kind)) ensures id in ActiveOf(t, bank, kind) {
      var m :| m in OfKind(memos, kind) && m.id == id;
      assert m in memos && id in IDs(memos);
    }
  }

  lemma KindIsSelected(t: Tables, bank: string, memos: seq<Memory>, kind: string)
    requires Selected(t, ActiveIn(t, bank), memos)
    ensures Selected(t, ActiveOf(t, bank, kind), OfKind(memos, kind))
  {
    assert KindsAreRows(t, memos);
    KindIDs(t, bank, memos, kind);
    KindInOrder(memos, kind);
  }

  lemma RestIsSelected(t: Tables, ids: set<string>, used: set<string>, facts: seq<Memory>, list: seq<Memory>)
    requires Selected(t, ids, facts) && InAgeOrder(list)
    requires forall m :: m in list <==> m in facts && m.id !in used
    ensures Selected(t, ids - used, list)
  {
    IDsAre(facts);
    IDsAre(list);
  }
}
