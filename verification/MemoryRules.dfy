/** What every run of the memory store keeps, and what Get reads after Save. */
module MemoryRules {
  import opened Wrappers
  import opened Texts
  import opened Memories

  // ---------------------------------------------------------------- the rules

  /** The revisions of one id, numbered 0..n-1. */
  ghost predicate Counted(revs: Revisions, id: string) {
    (forall k :: k in revs ==> k.0 == id) && forall n: nat :: (id, n) in revs <==> n < |revs|
  }

  ghost predicate AllTrimmed(space: Spaces, values: set<string>) {
    forall v :: v in values ==> v != "" && Trimmed(space, v)
  }

  ghost predicate RowOk(space: Spaces, row: Row) {
    && row.bank == BankID(space, row.scope) && row.scope == NormalScope(row.scope)
    && Trim(space, row.content) != "" && row.kind != "" && row.source != "" && row.importance != 0.0
    && row.validFrom.Some? && row.validFrom != Some(0) && row.createdAt != 0
    && row.validTo != Some(0) && row.archivedAt != Some(0) && row.lastAccessed != Some(0)
  }

  /** One text row and normal side rows for a stored memory; no row of either for any other id. */
  ghost predicate ViewOk(space: Spaces, id: string, v: View) {
    Counted(v.revisions, id) && RowsOk(space, id, v)
  }

  ghost predicate RowsOk(space: Spaces, id: string, v: View) {
    match v.row
    case None => v.tags == {} && v.keywords == {} && v.evidence == {} && v.text == []
    case Some(row) =>
      && id != "" && RowOk(space, row)
      && AllTrimmed(space, v.tags) && AllTrimmed(space, v.keywords) && AllTrimmed(space, v.evidence)
      && |v.text| == 1 && v.text[0].id == id && v.text[0].content == row.content
  }

  ghost predicate Agree(space: Spaces, t: Tables) {
    forall id :: ViewOk(space, id, About(t, id))
  }

  // -------------------------------------------------------- every operation

  lemma NextIsCount(revs: Revisions, id: string, next: nat)
    requires Counted(revs, id) && IsNext(revs, id, next)
    ensures next == |revs|
  {
    assert next > 0 ==> (id, next - 1) in revs;
    assert next < |revs| ==> (id, next) in revs;
  }

  lemma RevisedViewIsOk(space: Spaces, id: string, v: View, r: Revision)
    requires ViewOk(space, id, v)
    ensures ViewOk(space, id, RevisedView(v, id, r))
  {
    NextIsCount(v.revisions, id, Next(v.revisions, id));
    assert Counted(v.revisions[(id, |v.revisions|) := r], id) by {
      assert (id, |v.revisions|) !in v.revisions;
    }
  }

  lemma NewRowIsOk(space: Spaces, id: string, v: View, row: Row)
    requires ViewOk(space, id, v) && v.row.Some?
    requires RowOk(space, row) && row.content == v.row.value.content
    ensures ViewOk(space, id, v.(row := Some(row)))
  {
  }

  /** What the caller's memory always has by the time it is written. */
  ghost predicate Complete(space: Spaces, m: Memory) {
    && m.id != "" && m.scope == NormalScope(m.scope) && Trim(space, m.content) != ""
    && m.kind != "" && m.source != "" && m.importance != 0.0 && m.validFrom != 0 && m.createdAt != 0
  }

  lemma NormalScopeIsNormal(s: Scope)
    ensures NormalScope(NormalScope(s)) == NormalScope(s)
  {
  }

  lemma NormalIsTrimmed(space: Spaces, values: seq<string>)
    ensures AllTrimmed(space, Normal(space, values))
  {
    forall v | v in values ensures Trimmed(space, Trim(space, v)) {
      TrimIsTrimmed(space, v);
    }
  }

  lemma ChangedViewIsOk(space: Spaces, id: string, v: View, row: Row, r: Revision)
    requires ViewOk(space, id, v) && v.row.Some?
    requires RowOk(space, row) && row.content == v.row.value.content
    ensures ViewOk(space, id, ChangedView(v, id, row, r))
  {
    NewRowIsOk(space, id, v, row);
    RevisedViewIsOk(space, id, v.(row := Some(row)), r);
  }

  /** An identifier the generator hands out is not empty. */
  predicate Named(op: Op) {
    op.Save? ==> op.newID != ""
  }

  lemma StoredViewStaysOk(space: Spaces, id: string, v: View, op: Op, now: Now)
    requires ViewOk(space, id, v) && v.row.Some? && (op.MarkStale? || op.Archive? ==> op.id == id)
    ensures ViewOk(space, id, StoredViewAfter(v, op, now))
  {
    match op
    case MarkStale(_, heir) => ChangedViewIsOk(space, id, v, StaleRow(v.row.value, heir, now), StaleNote(heir, now));
    case Archive(_, reason) =>
      ChangedViewIsOk(space, id, v, ArchivedRow(v.row.value, reason, now), Revision(now, "archive", reason));
    case Unarchive(_) => NewRowIsOk(space, id, v, UnarchivedRow(v.row.value, now));
    case IncrementAccess(_) => NewRowIsOk(space, id, v, AccessedRow(v.row.value, now));
    case _ =>
  }

  lemma ViewStaysOk(space: Spaces, id: string, v: View, op: Op, now: Now)
    requires Named(op) && ViewOk(space, id, v)
    ensures ViewOk(space, id, ViewAfter(space, v, id, op, now))
  {
    match op
    case Save(m, newID) =>
      if Savable(space, m) && id == Completed(m, now, newID).id {
        SavedViewIsOk(space, v, m, now, newID);
      }
    case AddRevision(_, author, summary) => RevisedViewIsOk(space, id, v, Revision(now, author, summary));
    case Delete(_) => EmptyViewIsOk(space, id);
    case Clear => EmptyViewIsOk(space, id);
    case _ =>
      if id == op.id && v.row.Some? {
        StoredViewStaysOk(space, id, v, op, now);
      }
  }

  lemma SavedViewIsOk(space: Spaces, v: View, m: Memory, now: Now, newID: string)
    requires Named(Save(m, newID)) && Savable(space, m) && ViewOk(space, Completed(m, now, newID).id, v)
    ensures ViewOk(space, Completed(m, now, newID).id, SavedView(space, v, Completed(m, now, newID)))
  {
    NormalScopeIsNormal(m.scope);
    NormalIsTrimmed(space, m.tags);
    NormalIsTrimmed(space, m.keywords);
    NormalIsTrimmed(space, m.evidence);
    assert RowOk(space, Upserted(space, v.row, Completed(m, now, newID)));
    NumberedRows(Completed(m, now, newID).id, m.revisions);
  }

  lemma EmptyViewIsOk(space: Spaces, id: string)
    ensures ViewOk(space, id, NOTHING)
  {
  }

  /**
   * Every operation keeps the tables in agreement: one text row for each
   * memory, with its content, and none else; side rows of stored memories only,
   * trimmed and not blank; the bank of the row's scope; revisions 0..n-1.
   */
  lemma TablesStayInAgreement(space: Spaces, t: Tables, op: Op, now: Now)
    requires Named(op) && Agree(space, t)
    ensures Agree(space, Apply(space, t, op, now).1)
  {
    forall id ensures ViewOk(space, id, About(Apply(space, t, op, now).1, id)) {
      OperationsAreLocal(space, t, op, now, id);
      ViewStaysOk(space, id, About(t, id), op, now);
    }
  }

  datatype Event = Event(op: Op, now: Now)

  ghost function Run(space: Spaces, t: Tables, events: seq<Event>): Tables
    decreases |events|
  {
    if events == [] then t else Run(space, Apply(space, t, events[0].op, events[0].now).1, events[1..])
  }

  ghost predicate AllNamed(events: seq<Event>) {
    forall i :: 0 <= i < |events| ==> Named(events[i].op)
  }

  lemma EmptyAgrees(space: Spaces)
    ensures Agree(space, EMPTY)
  {
    forall id ensures ViewOk(space, id, About(EMPTY, id)) {
      assert About(EMPTY, id) == NOTHING;
    }
  }

  lemma {:induction false} AgreementInEveryRun(space: Spaces, t: Tables, events: seq<Event>)
    requires Agree(space, t) && AllNamed(events)
    ensures Agree(space, Run(space, t, events))
    decreases |events|
  {
    if events != [] {
      TablesStayInAgreement(space, t, events[0].op, events[0].now);
      AgreementInEveryRun(space, Apply(space, t, events[0].op, events[0].now).1, events[1..]);
    }
  }

  // ---------------------------------------------------------------- revisions

  ghost predicate NoOrphans(t: Tables) {
    forall k :: k in t.revisions ==> k.0 in t.memories
  }

  ghost predicate Orphaned(v: View) {
    v.row.None? && v.revisions != map[]
  }

  lemma OrphansAreOrphaned(t: Tables)
    ensures NoOrphans(t) <==> forall id :: !Orphaned(About(t, id))
  {
    assert NoOrphans(t) <==> forall id :: id !in t.memories ==> About(t, id).revisions == map[] by {
      if NoOrphans(t) {
        forall id | id !in t.memories ensures About(t, id).revisions == map[] {
          assert forall k :: k in t.revisions ==> k.0 != id;
        }
      } else {
        var k :| k in t.revisions && k.0 !in t.memories;
        assert k in RevisionsOf(t.revisions, k.0);
      }
    }
  }

  /**
   * Revision rows without a memory come from one place only: AddRevision looks
   * at no memory row, so it leaves an orphan exactly when the id is unknown.
   * Every other operation keeps the revisions to stored memories.
   */
  lemma OnlyAddRevisionOrphans(space: Spaces, t: Tables, op: Op, now: Now)
    requires NoOrphans(t)
    ensures NoOrphans(Apply(space, t, op, now).1) <==> !(op.AddRevision? && op.id != "" && op.id !in t.memories)
  {
    var after := Apply(space, t, op, now).1;
    OrphansAreOrphaned(t);
    OrphansAreOrphaned(after);
    forall id
      ensures Orphaned(About(after, id)) <==> op.AddRevision? && id == op.id != "" && id !in t.memories
    {
      OperationsAreLocal(space, t, op, now, id);
      assert Orphaned(ViewAfter(space, About(t, id), id, op, now))
          <==> op.AddRevision? && id == op.id != "" && About(t, id).row.None? by {
        if op.AddRevision? && id == op.id != "" && About(t, id).row.None? {
          assert (id, Next(About(t, id).revisions, id)) in ViewAfter(space, About(t, id), id, op, now).revisions;
        }
      }
    }
    if op.AddRevision? {
      assert Orphaned(About(after, op.id)) <==> op.id != "" && op.id !in t.memories;
    }
  }

  // ------------------------------------------------------------- Save and Get

  /** m is what Get reads for id: the row, the side tables in order, the revisions by number. */
  ghost predicate Loads(t: Tables, id: string, m: Memory) {
    && id in t.memories
    && FromRow(id, t.memories[id], m)
    && Lists(m.tags, ValuesOf(t.tags, id))
    && Lists(m.keywords, ValuesOf(t.keywords, id))
    && Lists(m.evidence, ValuesOf(t.evidence, id))
    && ByNumber(m.revisions, id, RevisionsOf(t.revisions, id))
  }

  function OrZero(t: Option<Time>): Time {
    if t.Some? then t.value else 0
  }

  ghost predicate FromRow(id: string, row: Row, m: Memory) {
    && m.id == id && m.scope == row.scope && m.kind == row.kind && m.content == row.content
    && m.importance == row.importance && m.source == row.source && m.confidence == row.confidence
    && m.validFrom == OrZero(row.validFrom) && m.validTo == row.validTo
    && m.supersededBy == row.supersededBy && m.conflicting == row.conflicting
    && m.archived == row.archived && m.archivedAt == row.archivedAt && m.archiveReason == row.archiveReason
    && m.accessCount == row.accessCount && m.lastAccessed == OrZero(row.lastAccessed)
    && m.createdAt == row.createdAt && m.updatedAt == row.updatedAt
  }

  /** The revisions in the order of their numbers. */
  ghost predicate ByNumber(list: seq<Revision>, id: string, revs: Revisions) {
    |list| == |revs| && forall n: nat :: n < |list| ==> (id, n) in revs && list[n] == revs[(id, n)]
  }

  /**
   * Get after Save is the saved memory, normalised: defaults filled in, scope
   * kind and times as stored, tags, keywords and evidence as ordered sets of
   * trimmed strings, the history in order; while a memory that was already
   * there keeps its access count, last access and creation time.
   */
  lemma GetAfterSave(space: Spaces, t: Tables, m: Memory, now: Now, newID: string, got: Memory)
    requires Agree(space, t) && Savable(space, m) && newID != ""
    requires var c := Completed(m, now, newID); Loads(Saved(space, t, c), c.id, got)
    ensures var c := Completed(m, now, newID);
            && Lists(got.tags, Normal(space, m.tags))
            && Lists(got.keywords, Normal(space, m.keywords))
            && Lists(got.evidence, Normal(space, m.evidence))
            && got == c.(tags := got.tags, keywords := got.keywords, evidence := got.evidence,
                         validTo := NullTimePtr(m.validTo), archivedAt := NullTimePtr(m.archivedAt),
                         accessCount := if c.id in t.memories then t.memories[c.id].accessCount else m.accessCount,
                         lastAccessed := if c.id in t.memories then OrZero(t.memories[c.id].lastAccessed) else m.lastAccessed,
                         createdAt := if c.id in t.memories then t.memories[c.id].createdAt else c.createdAt)
  {
    var c := Completed(m, now, newID);
    SaveIsLocal(space, t, c, c.id);
    assert got.revisions == m.revisions by {
      NumberedRows(c.id, m.revisions);
    }
    LoadedFields(space, RowOf(t, c.id), c, got);
  }

  lemma LoadedFields(space: Spaces, prior: Option<Row>, c: Memory, got: Memory)
    requires FromRow(c.id, Upserted(space, prior, c), got) && got.revisions == c.revisions
    ensures got == c.(tags := got.tags, keywords := got.keywords, evidence := got.evidence,
                      validTo := NullTimePtr(c.validTo), archivedAt := NullTimePtr(c.archivedAt),
                      accessCount := if prior.Some? then prior.value.accessCount else c.accessCount,
                      lastAccessed := if prior.Some? then OrZero(prior.value.lastAccessed) else c.lastAccessed,
                      createdAt := if prior.Some? then prior.value.createdAt else c.createdAt)
  {
  }

  /**
   * The same, field by field, in what the caller gave: what is filled in where
   * nothing was given, what an update keeps, and everything else as it was said.
   */
  lemma SavedFields(space: Spaces, t: Tables, m: Memory, now: Now, newID: string, got: Memory)
    requires Agree(space, t) && Trim(space, m.content) != "" && newID != ""
    requires Loads(Apply(space, t, Save(m, newID), now).1, if m.id == "" then newID else m.id, got)
    ensures got.id == (if m.id == "" then newID else m.id)
    ensures got.kind == (if m.kind == "" then "fact" else m.kind)
    ensures got.source == (if m.source == "" then "user_input" else m.source)
    ensures got.importance == (if m.importance == 0.0 then 0.5 else m.importance)
    ensures got.validFrom == (if m.validFrom != 0 then m.validFrom else if m.createdAt != 0 then m.createdAt else now)
    ensures got.updatedAt == now
    ensures got.scope.id == m.scope.id
    ensures got.scope.kind == (if m.scope.kind in ["global", "agent", "team", "user", "session"] then m.scope.kind else "global")
    ensures got.content == m.content && got.confidence == m.confidence && got.revisions == m.revisions
    ensures got.supersededBy == m.supersededBy && got.conflicting == m.conflicting
    ensures got.archived == m.archived && got.archiveReason == m.archiveReason
    ensures got.validTo == (if m.validTo == Some(0) then None else m.validTo)
    ensures got.archivedAt == (if m.archivedAt == Some(0) then None else m.archivedAt)
    ensures got.id !in t.memories ==>
              && got.accessCount == m.accessCount && got.lastAccessed == m.lastAccessed
              && got.createdAt == (if m.createdAt != 0 then m.createdAt else now)
    ensures got.id in t.memories ==>
              var row := t.memories[got.id];
              && got.accessCount == row.accessCount && got.createdAt == row.createdAt
              && got.lastAccessed == if row.lastAccessed.Some? then row.lastAccessed.value else 0
  {
    GetAfterSave(space, t, m, now, newID, got);
  }

  /** The lists come back trimmed, without blanks and repeats, in order. */
  lemma SavedLists(space: Spaces, t: Tables, m: Memory, now: Now, newID: string, got: Memory)
    requires Agree(space, t) && Trim(space, m.content) != "" && newID != ""
    requires Loads(Apply(space, t, Save(m, newID), now).1, if m.id == "" then newID else m.id, got)
    ensures Lists(got.tags, set v | v in m.tags && Trim(space, v) != "" :: Trim(space, v))
    ensures Lists(got.keywords, set v | v in m.keywords && Trim(space, v) != "" :: Trim(space, v))
    ensures Lists(got.evidence, set v | v in m.evidence && Trim(space, v) != "" :: Trim(space, v))
  {
    GetAfterSave(space, t, m, now, newID, got);
    SameNormal(space, m.tags);
    SameNormal(space, m.keywords);
    SameNormal(space, m.evidence);
  }

  lemma SameNormal(space: Spaces, values: seq<string>)
    ensures Normal(space, values) == set v | v in values && Trim(space, v) != "" :: Trim(space, v)
  {
  }

  lemma NormalOfList(space: Spaces, list: seq<string>, values: set<string>)
    requires Lists(list, values) && AllTrimmed(space, values)
    ensures Normal(space, list) == values
  {
    forall v ensures v in Normal(space, list) <==> v in values {
      if v in values {
        TrimOfTrimmed(space, v);
        assert v in list;
      }
      if v in Normal(space, list) {
        var w :| w in list && Trim(space, w) == v;
        TrimOfTrimmed(space, w);
      }
    }
  }

  /** Saving what Get returned and getting it again changes the update time and nothing else. */
  lemma SaveOfGetIsFixed(space: Spaces, t: Tables, id: string, m: Memory, now: Now, newID: string, again: Memory)
    requires Agree(space, t) && Loads(t, id, m) && newID != ""
    requires Loads(Saved(space, t, Completed(m, now, newID)), id, again)
    ensures Savable(space, m) && again == m.(updatedAt := now)
  {
    assert ViewOk(space, id, About(t, id));
    var row := t.memories[id];
    assert About(t, id).row == Some(row);
    assert Completed(m, now, newID) == m.(updatedAt := now);
    GetAfterSave(space, t, m, now, newID, again);
    NormalOfList(space, m.tags, ValuesOf(t.tags, id));
    NormalOfList(space, m.keywords, ValuesOf(t.keywords, id));
    NormalOfList(space, m.evidence, ValuesOf(t.evidence, id));
    ListIsUnique(again.tags, m.tags, Normal(space, m.tags));
    ListIsUnique(again.keywords, m.keywords, Normal(space, m.keywords));
    ListIsUnique(again.evidence, m.evidence, Normal(space, m.evidence));
  }

  /** The tables, too, keep every row but the update time and the text row's joined words. */
  lemma SaveOfGetKeepsTables(space: Spaces, t: Tables, id: string, m: Memory, now: Now, newID: string)
    requires Agree(space, t) && Loads(t, id, m) && newID != ""
    ensures var v, after := About(t, id), About(Saved(space, t, Completed(m, now, newID)), id);
            && after.row == Some(t.memories[id].(updatedAt := now))
            && after.tags == v.tags && after.keywords == v.keywords && after.evidence == v.evidence
            && after.revisions == v.revisions
            && after.text == [TextRow(id, m.content, Join(m.tags, " "), Join(m.keywords, " "))]
  {
    assert ViewOk(space, id, About(t, id));
    SaveIsLocal(space, t, Completed(m, now, newID), id);
    assert
      && (Completed(m, now, newID) == m.(updatedAt := now))
      && (Upserted(space, Some(t.memories[id]), Completed(m, now, newID)) == t.memories[id].(updatedAt := now));
    ReadBackSides(space, id, About(t, id), m);
  }

  lemma ReadBackSides(space: Spaces, id: string, v: View, m: Memory)
    requires ViewOk(space, id, v) && v.row.Some?
    requires Lists(m.tags, v.tags) && Lists(m.keywords, v.keywords) && Lists(m.evidence, v.evidence)
    requires ByNumber(m.revisions, id, v.revisions)
    ensures Normal(space, m.tags) == v.tags && Normal(space, m.keywords) == v.keywords
    ensures Normal(space, m.evidence) == v.evidence && Numbered(id, m.revisions) == v.revisions
  {
    NormalOfList(space, m.tags, v.tags);
    NormalOfList(space, m.keywords, v.keywords);
    NormalOfList(space, m.evidence, v.evidence);
    assert Numbered(id, m.revisions) == v.revisions by {
      NumberedRows(id, m.revisions);
      forall k ensures k in Numbered(id, m.revisions) <==> k in v.revisions {
        if k in v.revisions {
          assert k == (id, k.1);
        }
      }
      assert forall k :: k in v.revisions ==> k == (id, k.1);
    }
  }

  // --------------------------------------------------------------- the errors

  /**
   * Which operations fail, and on what: a save of blank content; any other but
   * Clear and IncrementAccess on an empty id; MarkStale, Archive, Unarchive and
   * IncrementAccess on an id that is not stored. A failure changes nothing.
   */
  lemma OperationErrors(space: Spaces, t: Tables, op: Op, now: Now)
    ensures Apply(space, t, op, now).0 ==
              match op
              case Save(m, _) => if Trim(space, m.content) == "" then Some(EmptyContent) else None
              case Clear => None
              case Delete(id) => if id == "" then Some(EmptyID) else None
              case AddRevision(id, _, _) => if id == "" then Some(EmptyID) else None
              case IncrementAccess(id) => if id in t.memories then None else Some(NotFound)
              case MarkStale(id, _) => if id == "" then Some(EmptyID) else if id in t.memories then None else Some(NotFound)
              case Archive(id, _) => if id == "" then Some(EmptyID) else if id in t.memories then None else Some(NotFound)
              case Unarchive(id) => if id == "" then Some(EmptyID) else if id in t.memories then None else Some(NotFound)
    ensures Apply(space, t, op, now).0.Some? ==> Apply(space, t, op, now).1 == t
  {
  }

  // ------------------------------------------- the other operations, as Get shows them

  /** The operations that change a stored memory in place. */
  predicate ChangesInPlace(op: Op) {
    op.MarkStale? || op.Archive? || op.Unarchive? || op.AddRevision? || op.IncrementAccess?
  }

  /** What the history gains. */
  function Note(op: Op, now: Now): seq<Revision> {
    match op
    case MarkStale(_, heir) => [Revision(now, "reflect", SUPERSEDED + heir)]
    case Archive(_, reason) => [Revision(now, "archive", reason)]
    case AddRevision(_, author, summary) => [Revision(now, author, summary)]
    case _ => []
  }

  /** What a caller sees of the memory the operation names. */
  function Changed(m: Memory, op: Op, now: Now): Memory {
    var noted := m.(revisions := m.revisions + Note(op, now));
    match op
    case MarkStale(_, heir) => noted.(validTo := Some(now), supersededBy := heir, updatedAt := now)
    case Archive(_, reason) => noted.(archived := true, archivedAt := Some(now), archiveReason := reason, updatedAt := now)
    case Unarchive(_) => noted.(archived := false, archivedAt := None, archiveReason := "", updatedAt := now)
    case IncrementAccess(_) => noted.(accessCount := m.accessCount + 1, lastAccessed := now)
    case _ => noted
  }

  lemma HistoryAfter(space: Spaces, v: View, op: Op, now: Now, id: string, a: seq<Revision>, b: seq<Revision>)
    requires ViewOk(space, id, v) && v.row.Some? && ChangesInPlace(op) && op.id == id
    requires ByNumber(a, id, v.revisions) && ByNumber(b, id, ViewAfter(space, v, id, op, now).revisions)
    ensures b == a + Note(op, now)
  {
    NextIsCount(v.revisions, id, Next(v.revisions, id));
    if op.Unarchive? || op.IncrementAccess? {
      assert a == b;
    } else {
      assert b == a + [(Note(op, now)[0])] by {
        assert (id, |v.revisions|) !in v.revisions;
      }
    }
  }

  /**
   * Get after MarkStale, Archive, Unarchive, AddRevision or IncrementAccess is
   * what Get was before with just those fields changed, and the history longer
   * by just that note, at its end.
   */
  lemma GetAfterChange(space: Spaces, t: Tables, op: Op, now: Now, m: Memory, got: Memory)
    requires Agree(space, t) && ChangesInPlace(op) && Loads(t, op.id, m)
    requires Loads(Apply(space, t, op, now).1, op.id, got)
    ensures got == Changed(m, op, now)
  {
    var id, after := op.id, Apply(space, t, op, now).1;
    var v, w := About(t, id), About(after, id);
    assert ViewOk(space, id, v) && v.row == Some(t.memories[id]) && w.row == Some(after.memories[id]);
    OperationsAreLocal(space, t, op, now, id);
    HistoryAfter(space, v, op, now, id, m.revisions, got.revisions);
    SameLists(t, after, id, m, got);
  }

  /** The lists of two memories, read where the side tables say the same, are the same. */
  lemma SameLists(a: Tables, b: Tables, id: string, m: Memory, got: Memory)
    requires Loads(a, id, m) && Loads(b, id, got)
    requires About(a, id).tags == About(b, id).tags && About(a, id).keywords == About(b, id).keywords
    requires About(a, id).evidence == About(b, id).evidence
    ensures m.tags == got.tags && m.keywords == got.keywords && m.evidence == got.evidence
  {
    ListIsUnique(m.tags, got.tags, ValuesOf(a.tags, id));
    ListIsUnique(m.keywords, got.keywords, ValuesOf(a.keywords, id));
    ListIsUnique(m.evidence, got.evidence, ValuesOf(a.evidence, id));
  }

  /** Unarchive takes Archive back, but for the update time and the note in the history. */
  lemma UnarchiveUndoesArchive(m: Memory, reason: string, at: Now, later: Now)
    requires !m.archived && m.archivedAt.None? && m.archiveReason == ""
    ensures Changed(Changed(m, Archive(m.id, reason), at), Unarchive(m.id), later)
            == m.(updatedAt := later, revisions := m.revisions + [Revision(at, "archive", reason)])
  {
  }
}
