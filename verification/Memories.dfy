/**
 * The tables of the memory store and what each transaction does to them
 * (pkg/agentmem/crud.go, hindsight.go, store.go), as functions of the tables.
 */
module Memories {
  import opened Wrappers
  import opened Texts

  /** A moment; zero is the time nobody set. */
  type Time = nat

  /** What a clock reads. */
  type Now = t: nat | t > 0 witness 1

  datatype Scope = Scope(kind: string, id: string)
  datatype Revision = Revision(at: Time, author: string, summary: string)

  datatype Memory = Memory(
    id: string, scope: Scope, kind: string, content: string, importance: real,
    tags: seq<string>, keywords: seq<string>,
    source: string, confidence: real, evidence: seq<string>,
    validFrom: Time, validTo: Option<Time>, supersededBy: string, conflicting: bool,
    archived: bool, archivedAt: Option<Time>, archiveReason: string,
    accessCount: int, lastAccessed: Time, createdAt: Time, updatedAt: Time,
    revisions: seq<Revision>)

  /** A row of agentmem_memories; None is NULL. */
  datatype Row = Row(
    scope: Scope, bank: string, kind: string, content: string, importance: real,
    source: string, confidence: real,
    validFrom: Option<Time>, validTo: Option<Time>, supersededBy: string, conflicting: bool,
    archived: bool, archivedAt: Option<Time>, archiveReason: string,
    accessCount: int, lastAccessed: Option<Time>, createdAt: Time, updatedAt: Time)

  /** A row of agentmem_fts, which has no primary key in SQLite. */
  datatype TextRow = TextRow(id: string, content: string, tags: string, keywords: string)

  type Pairs = set<(string, string)>
  type Revisions = map<(string, nat), Revision>

  datatype Tables = Tables(memories: map<string, Row>, tags: Pairs, keywords: Pairs, evidence: Pairs,
                           revisions: Revisions, text: seq<TextRow>)

  datatype Error = EmptyContent | EmptyID | NotFound | Refused

  const EMPTY := Tables(map[], {}, {}, {}, map[], [])

  const FACT := "fact"
  const OBSERVATION := "observation"
  const USER_INPUT := "user_input"
  const CONSOLIDATED := "consolidated"
  const GLOBAL := "global"

  // ------------------------------------------------------------------- scopes

  predicate IsKind(kind: string) {
    kind == GLOBAL || kind == "agent" || kind == "team" || kind == "user" || kind == "session"
  }

  function NormalKind(kind: string): string {
    if IsKind(kind) then kind else GLOBAL
  }

  function NormalScope(s: Scope): Scope {
    s.(kind := NormalKind(s.kind))
  }

  function BankName(kind: string, id: string): string {
    if kind == GLOBAL then GLOBAL
    else if id == "" then kind
    else kind + ":" + id
  }

  function BankID(space: Spaces, s: Scope): string {
    BankName(NormalKind(s.kind), Trim(space, s.id))
  }

  ghost predicate NoColon(s: string) {
    forall i :: 0 <= i < |s| ==> s[i] != ':'
  }

  lemma NamesSeparate(a: string, x: string, b: string, y: string)
    requires NoColon(a) && NoColon(b)
    ensures BankName(a, x) == BankName(b, y) <==> a == b && (a == GLOBAL || x == y)
  {
    if a != GLOBAL && x != "" {
      assert BankName(a, x)[|a|] == ':';
      if b != GLOBAL && y != "" && BankName(a, x) == BankName(b, y) {
        assert a == b && x == y by {
          var s := a + ":" + x;
          assert forall i :: 0 <= i < |a| ==> s[i] == a[i];
          assert forall i :: 0 <= i < |b| ==> s[i] == b[i];
          assert s[|a|] == ':' && s[|b|] == ':';
          assert s[..|a|] == a && s[..|b|] == b;
          assert s[|a| + 1..] == x && s[|b| + 1..] == y;
        }
      }
    } else if b != GLOBAL && y != "" {
      assert BankName(b, y)[|b|] == ':';
    }
  }

  /** Two scopes share a bank exactly when they are one scope: normalised kind, and trimmed id unless global. */
  lemma BanksSeparateScopes(space: Spaces, a: Scope, b: Scope)
    ensures BankID(space, a) == BankID(space, b) <==>
              && NormalKind(a.kind) == NormalKind(b.kind)
              && (NormalKind(a.kind) == GLOBAL || Trim(space, a.id) == Trim(space, b.id))
  {
    NamesSeparate(NormalKind(a.kind), Trim(space, a.id), NormalKind(b.kind), Trim(space, b.id));
  }

  /** The name of a bank: of its kind alone, or of its kind and trimmed id. */
  lemma BankExactly(space: Spaces, s: Scope)
    ensures var kind := if s.kind in ["global", "agent", "team", "user", "session"] then s.kind else "global";
            BankID(space, s) == if kind == "global" || Trim(space, s.id) == "" then kind else kind + ":" + Trim(space, s.id)
  {
  }

  // -------------------------------------------------------------- side tables

  /** Trimmed, without blanks, each once. */
  function Normal(space: Spaces, values: seq<string>): set<string> {
    set v | v in values && Trim(space, v) != "" :: Trim(space, v)
  }

  function ValuesOf(rows: Pairs, id: string): set<string> {
    set r | r in rows && r.0 == id :: r.1
  }

  function PairsWithout(rows: Pairs, id: string): Pairs {
    set r | r in rows && r.0 != id
  }

  function Replaced(rows: Pairs, id: string, values: set<string>): Pairs {
    PairsWithout(rows, id) + set v | v in values :: (id, v)
  }

  function RevisionsOf(revs: Revisions, id: string): Revisions {
    map k | k in revs && k.0 == id :: revs[k]
  }

  function RevisionsWithout(revs: Revisions, id: string): Revisions {
    map k | k in revs && k.0 != id :: revs[k]
  }

  function Numbered(id: string, list: seq<Revision>): Revisions {
    if list == [] then map[]
    else Numbered(id, list[..|list| - 1])[(id, |list| - 1) := list[|list| - 1]]
  }

  /** The number after the greatest, zero for none (COALESCE(MAX(seq), -1) + 1). */
  ghost predicate IsNext(revs: Revisions, id: string, next: nat) {
    (forall n: nat :: (id, n) in revs ==> n < next) && (next > 0 ==> (id, next - 1) in revs)
  }

  lemma {:induction false} NextExists(revs: Revisions, id: string)
    ensures exists next: nat :: IsNext(revs, id, next)
    decreases |revs|
  {
    if k :| k in revs && k.0 == id {
      var rest := revs - {k};
      NextExists(rest, id);
      var next: nat :| IsNext(rest, id, next);
      var most := if k.1 < next then next else k.1 + 1;
      forall n: nat | (id, n) in revs ensures n < most {
        if n != k.1 {
          assert (id, n) in rest;
        }
      }
      assert k == (id, k.1);
      assert IsNext(revs, id, most);
    } else {
      assert forall n: nat :: (id, n) in revs ==> (id, n).0 == id;
      assert IsNext(revs, id, 0);
    }
  }

  ghost function Next(revs: Revisions, id: string): (next: nat)
    ensures IsNext(revs, id, next)
  {
    NextExists(revs, id);
    var next: nat :| IsNext(revs, id, next);
    next
  }

  function TextOf(text: seq<TextRow>, id: string): seq<TextRow> {
    if text == [] then []
    else
      var n := |text| - 1;
      if text[n].id == id then TextOf(text[..n], id) + [text[n]] else TextOf(text[..n], id)
  }

  function TextWithout(text: seq<TextRow>, id: string): seq<TextRow> {
    if text == [] then []
    else
      var n := |text| - 1;
      if text[n].id == id then TextWithout(text[..n], id) else TextWithout(text[..n], id) + [text[n]]
  }

  // ------------------------------------------------------------- transactions

  /** The caller's memory once Save has filled in what was missing. */
  function Completed(m: Memory, now: Now, newID: string): Memory {
    var created := if m.createdAt == 0 then now else m.createdAt;
    m.(id := if m.id == "" then newID else m.id,
       kind := if m.kind == "" then FACT else m.kind,
       importance := if m.importance == 0.0 then 0.5 else m.importance,
       source := if m.source == "" then USER_INPUT else m.source,
       createdAt := created,
       validFrom := if m.validFrom == 0 then created else m.validFrom,
       updatedAt := now,
       scope := NormalScope(m.scope))
  }

  function NullTime(t: Time): Option<Time> {
    if t == 0 then None else Some(t)
  }

  function NullTimePtr(t: Option<Time>): Option<Time> {
    if t == Some(0) then None else t
  }

  function RowFor(space: Spaces, m: Memory): Row {
    Row(m.scope, BankID(space, m.scope), m.kind, m.content, m.importance, m.source, m.confidence,
        NullTime(m.validFrom), NullTimePtr(m.validTo), m.supersededBy, m.conflicting,
        m.archived, NullTimePtr(m.archivedAt), m.archiveReason,
        m.accessCount, NullTime(m.lastAccessed), m.createdAt, m.updatedAt)
  }

  /** INSERT ... ON CONFLICT(id) DO UPDATE: three columns stay as they were. */
  function Upserted(space: Spaces, prior: Option<Row>, m: Memory): Row {
    var row := RowFor(space, m);
    if prior.None? then row
    else row.(accessCount := prior.value.accessCount, lastAccessed := prior.value.lastAccessed, createdAt := prior.value.createdAt)
  }

  function RowOf(t: Tables, id: string): Option<Row> {
    if id in t.memories then Some(t.memories[id]) else None
  }

  function TextFor(m: Memory): TextRow {
    TextRow(m.id, m.content, Join(m.tags, " "), Join(m.keywords, " "))
  }

  predicate Savable(space: Spaces, m: Memory) {
    Trim(space, m.content) != ""
  }

  /** The tables after Save, m being the completed memory. */
  function Saved(space: Spaces, t: Tables, m: Memory): Tables {
    Tables(t.memories[m.id := Upserted(space, RowOf(t, m.id), m)],
           Replaced(t.tags, m.id, Normal(space, m.tags)),
           Replaced(t.keywords, m.id, Normal(space, m.keywords)),
           Replaced(t.evidence, m.id, Normal(space, m.evidence)),
           RevisionsWithout(t.revisions, m.id) + Numbered(m.id, m.revisions),
           TextWithout(t.text, m.id) + [TextFor(m)])
  }

  function Deleted(t: Tables, id: string): Tables {
    Tables(t.memories - {id}, PairsWithout(t.tags, id), PairsWithout(t.keywords, id), PairsWithout(t.evidence, id),
           RevisionsWithout(t.revisions, id), TextWithout(t.text, id))
  }

  ghost function Revised(t: Tables, id: string, r: Revision): Tables {
    t.(revisions := t.revisions[(id, Next(RevisionsOf(t.revisions, id), id)) := r])
  }

  function WithRow(t: Tables, id: string, row: Row): Tables {
    t.(memories := t.memories[id := row])
  }

  function StaleRow(row: Row, heir: string, now: Now): Row {
    row.(validTo := Some(now), supersededBy := heir, updatedAt := now)
  }

  function ArchivedRow(row: Row, reason: string, now: Now): Row {
    row.(archived := true, archivedAt := Some(now), archiveReason := reason, updatedAt := now)
  }

  function UnarchivedRow(row: Row, now: Now): Row {
    row.(archived := false, archivedAt := None, archiveReason := "", updatedAt := now)
  }

  function AccessedRow(row: Row, now: Now): Row {
    row.(accessCount := row.accessCount + 1, lastAccessed := Some(now))
  }

  function StaleNote(heir: string, now: Now): Revision {
    Revision(now, "reflect", SUPERSEDED + heir)
  }

  const SUPERSEDED := "superseded by "

  ghost function MadeStale(t: Tables, id: string, heir: string, now: Now): Tables
    requires id in t.memories
  {
    Revised(WithRow(t, id, StaleRow(t.memories[id], heir, now)),
            id, StaleNote(heir, now))
  }

  ghost function Archived(t: Tables, id: string, reason: string, now: Now): Tables
    requires id in t.memories
  {
    Revised(WithRow(t, id, ArchivedRow(t.memories[id], reason, now)),
            id, Revision(now, "archive", reason))
  }

  function Unarchived(t: Tables, id: string, now: Now): Tables
    requires id in t.memories
  {
    WithRow(t, id, UnarchivedRow(t.memories[id], now))
  }

  function Accessed(t: Tables, id: string, now: Now): Tables
    requires id in t.memories
  {
    WithRow(t, id, AccessedRow(t.memories[id], now))
  }

  datatype Op =
    | Save(m: Memory, newID: string)
    | Delete(id: string)
    | Clear
    | MarkStale(id: string, heir: string)
    | Archive(id: string, reason: string)
    | Unarchive(id: string)
    | AddRevision(id: string, author: string, summary: string)
    | IncrementAccess(id: string)

  /** Each operation is one transaction: it happens whole, or the tables stay as they were. */
  ghost function Apply(space: Spaces, t: Tables, op: Op, now: Now): (Option<Error>, Tables) {
    match op
    case Save(m, newID) =>
      if Savable(space, m) then (None, Saved(space, t, Completed(m, now, newID))) else (Some(EmptyContent), t)
    case Delete(id) => if id == "" then (Some(EmptyID), t) else (None, Deleted(t, id))
    case Clear => (None, EMPTY)
    case MarkStale(id, heir) =>
      if id == "" then (Some(EmptyID), t)
      else if id !in t.memories then (Some(NotFound), t)
      else (None, MadeStale(t, id, heir, now))
    case Archive(id, reason) =>
      if id == "" then (Some(EmptyID), t)
      else if id !in t.memories then (Some(NotFound), t)
      else (None, Archived(t, id, reason, now))
    case Unarchive(id) =>
      if id == "" then (Some(EmptyID), t)
      else if id !in t.memories then (Some(NotFound), t)
      else (None, Unarchived(t, id, now))
    case AddRevision(id, author, summary) =>
      if id == "" then (Some(EmptyID), t) else (None, Revised(t, id, Revision(now, author, summary)))
    case IncrementAccess(id) => if id !in t.memories then (Some(NotFound), t) else (None, Accessed(t, id, now))
  }

  // ------------------------------------------------------- one memory, whole

  /** Everything the tables hold for one id. */
  datatype View = View(row: Option<Row>, tags: set<string>, keywords: set<string>, evidence: set<string>,
                       revisions: Revisions, text: seq<TextRow>)

  ghost function About(t: Tables, id: string): View {
    View(RowOf(t, id), ValuesOf(t.tags, id), ValuesOf(t.keywords, id), ValuesOf(t.evidence, id),
         RevisionsOf(t.revisions, id), TextOf(t.text, id))
  }

  const NOTHING := View(None, {}, {}, {}, map[], [])

  function SavedView(space: Spaces, v: View, m: Memory): View {
    View(Some(Upserted(space, v.row, m)), Normal(space, m.tags), Normal(space, m.keywords), Normal(space, m.evidence),
         Numbered(m.id, m.revisions), [TextFor(m)])
  }

  ghost function RevisedView(v: View, id: string, r: Revision): View {
    v.(revisions := v.revisions[(id, Next(v.revisions, id)) := r])
  }

  // The tables a transaction touches, one id at a time.

  lemma ReplacedIsLocal(rows: Pairs, id: string, values: set<string>, x: string)
    ensures ValuesOf(Replaced(rows, id, values), x) == if x == id then values else ValuesOf(rows, x)
    ensures ValuesOf(PairsWithout(rows, id), x) == if x == id then {} else ValuesOf(rows, x)
  {
    var after := Replaced(rows, id, values);
    forall v ensures v in ValuesOf(after, x) <==> v in (if x == id then values else ValuesOf(rows, x)) {
      assert v in ValuesOf(after, x) <==> (x, v) in after;
      assert v in ValuesOf(rows, x) <==> (x, v) in rows;
    }
    forall v ensures v in ValuesOf(PairsWithout(rows, id), x) <==> v in (if x == id then {} else ValuesOf(rows, x)) {
      assert v in ValuesOf(PairsWithout(rows, id), x) <==> (x, v) in PairsWithout(rows, id);
      assert v in ValuesOf(rows, x) <==> (x, v) in rows;
    }
  }

  lemma {:induction false} NumberedRows(id: string, list: seq<Revision>)
    ensures forall k :: k in Numbered(id, list) <==> k.0 == id && k.1 < |list|
    ensures forall n: nat :: n < |list| ==> Numbered(id, list)[(id, n)] == list[n]
    ensures |Numbered(id, list)| == |list|
    decreases |list|
  {
    if list != [] {
      NumberedRows(id, list[..|list| - 1]);
    }
  }

  lemma OwnRevisions(own: Revisions, rest: Revisions, id: string, x: string)
    requires (forall k :: k in own ==> k.0 == id) && forall k :: k in rest ==> k.0 != id
    ensures RevisionsOf(rest + own, x) == if x == id then own else RevisionsOf(rest, x)
  {
  }

  lemma RevisionsGone(revs: Revisions, id: string, x: string)
    ensures RevisionsOf(RevisionsWithout(revs, id), x) == if x == id then map[] else RevisionsOf(revs, x)
  {
  }

  lemma TextMore(text: seq<TextRow>, r: TextRow, x: string)
    ensures TextOf(text + [r], x) == if r.id == x then TextOf(text, x) + [r] else TextOf(text, x)
  {
    assert (text + [r])[..|text|] == text;
  }

  lemma {:induction false} TextIsLocal(text: seq<TextRow>, id: string, x: string)
    ensures TextOf(TextWithout(text, id), x) == if x == id then [] else TextOf(text, x)
  {
    if text != [] {
      var n := |text| - 1;
      TextIsLocal(text[..n], id, x);
      TextMore(TextWithout(text[..n], id), text[n], x);
    }
  }

  lemma SaveIsLocal(space: Spaces, t: Tables, m: Memory, x: string)
    ensures About(Saved(space, t, m), x) == if x == m.id then SavedView(space, About(t, x), m) else About(t, x)
  {
    ReplacedIsLocal(t.tags, m.id, Normal(space, m.tags), x);
    ReplacedIsLocal(t.keywords, m.id, Normal(space, m.keywords), x);
    ReplacedIsLocal(t.evidence, m.id, Normal(space, m.evidence), x);
    assert RevisionsOf(RevisionsWithout(t.revisions, m.id) + Numbered(m.id, m.revisions), x)
        == if x == m.id then Numbered(m.id, m.revisions) else RevisionsOf(t.revisions, x)
    by {
      NumberedRows(m.id, m.revisions);
      RevisionsGone(t.revisions, m.id, x);
      var own, rest := Numbered(m.id, m.revisions), RevisionsWithout(t.revisions, m.id);
      OwnRevisions(own, rest, m.id, x);
    }
    TextIsLocal(t.text, m.id, x);
    TextMore(TextWithout(t.text, m.id), TextFor(m), x);
  }

  lemma RevisedIsLocal(t: Tables, id: string, r: Revision, x: string)
    ensures About(Revised(t, id, r), x) == if x == id then RevisedView(About(t, x), id, r) else About(t, x)
  {
    var next := Next(RevisionsOf(t.revisions, id), id);
    assert RevisionsOf(t.revisions[(id, next) := r], x)
        == if x == id then RevisionsOf(t.revisions, x)[(id, next) := r] else RevisionsOf(t.revisions, x);
  }

  lemma ChangeIsLocal(t: Tables, id: string, row: Row, r: Revision, x: string)
    ensures About(Revised(WithRow(t, id, row), id, r), x)
            == if x == id then RevisedView(About(t, x).(row := Some(row)), id, r) else About(t, x)
  {
    assert About(WithRow(t, id, row), x) == if x == id then About(t, x).(row := Some(row)) else About(t, x);
    RevisedIsLocal(WithRow(t, id, row), id, r, x);
  }

  ghost function ChangedView(v: View, id: string, row: Row, note: Revision): View {
    RevisedView(v.(row := Some(row)), id, note)
  }

  /** What an operation on one stored memory does to its rows. */
  ghost function StoredViewAfter(v: View, op: Op, now: Now): View
    requires v.row.Some?
  {
    match op
    case MarkStale(id, heir) => ChangedView(v, id, StaleRow(v.row.value, heir, now), StaleNote(heir, now))
    case Archive(id, reason) => ChangedView(v, id, ArchivedRow(v.row.value, reason, now), Revision(now, "archive", reason))
    case Unarchive(_) => v.(row := Some(UnarchivedRow(v.row.value, now)))
    case IncrementAccess(_) => v.(row := Some(AccessedRow(v.row.value, now)))
    case _ => v
  }

  /** What one operation does to the rows of one id, whichever tables they are in. */
  ghost function ViewAfter(space: Spaces, v: View, x: string, op: Op, now: Now): View {
    match op
    case Save(m, newID) =>
      if Savable(space, m) && x == Completed(m, now, newID).id then SavedView(space, v, Completed(m, now, newID)) else v
    case Delete(id) => if x == id != "" then NOTHING else v
    case Clear => NOTHING
    case AddRevision(id, author, summary) => if x == id != "" then RevisedView(v, id, Revision(now, author, summary)) else v
    case IncrementAccess(id) => if x == id && v.row.Some? then StoredViewAfter(v, op, now) else v
    case _ => if x == op.id != "" && v.row.Some? then StoredViewAfter(v, op, now) else v
  }

  lemma DeletedIsLocal(t: Tables, id: string, x: string)
    ensures About(Deleted(t, id), x) == if x == id then NOTHING else About(t, x)
  {
    ReplacedIsLocal(t.tags, id, {}, x);
    ReplacedIsLocal(t.keywords, id, {}, x);
    ReplacedIsLocal(t.evidence, id, {}, x);
    RevisionsGone(t.revisions, id, x);
    TextIsLocal(t.text, id, x);
  }

  /**
   * The tables never mix memories: after any operation the rows of each id,
   * over all six tables, are a function of that id's rows alone, and an id the
   * operation does not name keeps every one of its rows.
   */
  lemma OperationsAreLocal(space: Spaces, t: Tables, op: Op, now: Now, x: string)
    ensures About(Apply(space, t, op, now).1, x) == ViewAfter(space, About(t, x), x, op, now)
  {
    match op
    case Save(m, newID) => SaveIsLocal(space, t, Completed(m, now, newID), x);
    case Delete(id) =>
      DeletedIsLocal(t, id, x);
    case Clear =>
    case MarkStale(id, heir) =>
      if id in t.memories {
        var row := StaleRow(t.memories[id], heir, now);
        ChangeIsLocal(t, id, row, StaleNote(heir, now), x);
      }
    case Archive(id, reason) =>
      if id in t.memories {
        var row := ArchivedRow(t.memories[id], reason, now);
        ChangeIsLocal(t, id, row, Revision(now, "archive", reason), x);
      }
    case Unarchive(id) =>
    case AddRevision(id, author, summary) => RevisedIsLocal(t, id, Revision(now, author, summary), x);
    case IncrementAccess(id) =>
  }
}
