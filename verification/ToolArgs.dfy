/**
 * What a confined key may put in a tool's arguments (pkg/authz/allowlist.go).
 *
 * A tool's line of the allowlist is a value here; what the lines say is not
 * part of this model, only what they have in common (WellFormed). Go iterates a
 * map in any order, each time anew: where that can matter the orders are a
 * parameter, sequences that mention every key.
 */
module ToolArgs {
  import opened Wrappers
  import opened Json
  import opened Folding
  import opened Authz

  datatype StoreKind = KnowledgeStore | MemoryStore

  datatype ToolRule = ToolRule(
    scope: seq<Field>, stores: set<StoreKind>, args: seq<string>, ids: seq<string>,
    gates: map<Field, string>, denied: set<string>, oneOf: seq<string>, facade: bool, rewritten: set<string>)

  /** Unicode's tables: folding orbits, and strings.ToLower. */
  datatype Tables = Tables(orbit: Orbits, lower: string -> string)

  type Args = map<string, Value>

  const JSON_SCAN_DEPTH: nat := 4

  predicate IsEngineChunkKey(key: string) {
    key == "document_id" || key == "chunk_index" || key == "graph_kind"
  }

  predicate IsWriterKey(key: string) {
    key == "written_by" || key == "updated_by"
  }

  function FieldName(f: Field): string {
    match f
    case UserID => "user_id"
    case MemoryScope => "scope"
    case Namespace => "namespace"
    case Collection => "collection"
  }

  function ConfinedStore(f: Field): StoreKind {
    if f == Collection then KnowledgeStore else MemoryStore
  }

  // ------------------------------------------------------------------- paths

  predicate IsOpen(p: string) {
    |p| >= 2 && p[|p| - 2] == '.' && p[|p| - 1] == '*'
  }

  /** The paths a rule classifies by name: its scope fields and its arguments. */
  function NamedPaths(r: ToolRule): seq<string> {
    seq(|r.scope|, i requires 0 <= i < |r.scope| => FieldName(r.scope[i])) + r.args
  }

  function OpenPaths(t: Tables, r: ToolRule): set<string> {
    set p | p in NamedPaths(r) && IsOpen(p) :: t.lower(p[..|p| - 2])
  }

  function ArgPaths(t: Tables, r: ToolRule): set<string> {
    set p | p in NamedPaths(r) && !IsOpen(p) :: t.lower(p)
  }

  function IdPaths(t: Tables, r: ToolRule): set<string> {
    set p | p in r.ids :: t.lower(p)
  }

  function GatePaths(t: Tables, r: ToolRule): set<string> {
    set f | f in r.gates :: t.lower(r.gates[f])
  }

  function AllowedPaths(t: Tables, r: ToolRule): set<string> {
    ArgPaths(t, r) + IdPaths(t, r) + GatePaths(t, r)
  }

  function DeniedPaths(t: Tables, r: ToolRule): set<string> {
    set p | p in r.denied :: t.lower(p)
  }

  /** The three sets checkPaths fills before it walks. */
  datatype Lists = Lists(allowed: set<string>, open: set<string>, denied: set<string>)

  function ListsOf(t: Tables, r: ToolRule): Lists {
    Lists(AllowedPaths(t, r), OpenPaths(t, r), DeniedPaths(t, r))
  }

  function ChildPath(t: Tables, path: string, key: string): string {
    if path != "" then path + "." + t.lower(key) else t.lower(key)
  }

  function Dots(s: string): nat {
    if s == "" then 0 else (if s[0] == '.' then 1 else 0) + Dots(s[1..])
  }

  lemma {:induction false} DotsAppend(a: string, b: string)
    ensures Dots(a + b) == Dots(a) + Dots(b)
  {
    if a == "" {
      assert a + b == b;
    } else {
      assert (a + b)[0] == a[0] && (a + b)[1..] == a[1..] + b;
      DotsAppend(a[1..], b);
    }
  }

  /** No classified path is empty or has more than five segments. */
  ghost predicate ShortPaths(lists: Lists) {
    forall p :: p in lists.allowed || p in lists.open ==> p != "" && Dots(p) <= JSON_SCAN_DEPTH
  }

  /**
   * What the lines of the allowlist have in common: no path is empty or has
   * more than five segments; a tool with gates has one for every scope field it
   * honours; a gate is not denied and is no other spelling of a scope field, of
   * a one-of argument or of another gate.
   */
  ghost predicate WellFormed(t: Tables, r: ToolRule) {
    && ShortPaths(ListsOf(t, r))
    && (r.gates != map[] ==> r.scope != [] && forall f :: f in r.scope ==> f in r.gates)
    && (forall f :: f in r.gates ==>
          && t.lower(r.gates[f]) !in DeniedPaths(t, r)
          && (forall g :: !EqualFold(t.orbit, r.gates[f], FieldName(g)))
          && (forall name :: name in r.oneOf ==> !EqualFold(t.orbit, r.gates[f], name))
          && (forall g :: g in r.gates && EqualFold(t.orbit, r.gates[f], r.gates[g]) ==> r.gates[f] == r.gates[g]))
  }

  // -------------------------------------------------------------- checkPaths

  /** What a confined key may put into the document or memory metadata itself. */
  predicate OpenKeyOk(t: Tables, r: ToolRule, path: string, key: string) {
    path != "metadata" || key in r.rewritten ||
    (var low := t.lower(key);
     && !(low != "" && low[0] == '_')
     && !(IsEngineChunkKey(low) && KnowledgeStore in r.stores)
     && !IsWriterKey(low))
  }

  predicate OpenKeysOk(t: Tables, r: ToolRule, path: string, v: Value) {
    v.VMap? ==> forall k :: k in v.fields ==> OpenKeyOk(t, r, path, k)
  }

  /** Every path of v is classified and none is denied. */
  predicate PathsOk(t: Tables, r: ToolRule, lists: Lists, path: string, v: Value)
    decreases v, 0
  {
    match v
    case VMap(fields) => forall k :: k in fields ==> KeyOk(t, r, lists, ChildPath(t, path, k), fields[k])
    case VList(elems) => forall i :: 0 <= i < |elems| ==> PathsOk(t, r, lists, path + "[]", elems[i])
    case _ => true
  }

  predicate KeyOk(t: Tables, r: ToolRule, lists: Lists, child: string, inner: Value)
    decreases inner, 1
  {
    && child !in lists.denied
    && if child in lists.open then OpenKeysOk(t, r, child, inner)
       else child in lists.allowed && PathsOk(t, r, lists, child, inner)
  }

  method CheckOpenKeys(t: Tables, r: ToolRule, path: string, v: Value) returns (ok: bool)
    ensures ok == OpenKeysOk(t, r, path, v)
  {
    if !v.VMap? {
      return true;
    }
    var left := v.fields.Keys;
    while left != {}
      invariant left <= v.fields.Keys
      invariant forall k :: k in v.fields && k !in left ==> OpenKeyOk(t, r, path, k)
      decreases |left|
    {
      var key :| key in left;
      left := left - {key};
      var low := t.lower(key);
      if path != "metadata" || key in r.rewritten {
        continue;
      }
      if |low| > 0 && low[0] == '_' {
        return false;
      }
      if IsEngineChunkKey(low) && KnowledgeStore in r.stores {
        return false;
      }
      if IsWriterKey(low) {
        return false;
      }
    }
    ok := true;
  }

  /** The walk, over maps whose keys come in any order. */
  method Walk(t: Tables, r: ToolRule, lists: Lists, path: string, v: Value) returns (ok: bool)
    ensures ok == PathsOk(t, r, lists, path, v)
    decreases v
  {
    match v {
      case VMap(fields) =>
        var left := fields.Keys;
        while left != {}
          invariant left <= fields.Keys
          invariant forall k :: k in fields && k !in left ==> KeyOk(t, r, lists, ChildPath(t, path, k), fields[k])
          decreases |left|
        {
          var key :| key in left;
          left := left - {key};
          var child := t.lower(key);
          if path != "" {
            child := path + "." + child;
          }
          if child in lists.denied {
            return false;
          }
          if child in lists.open {
            var fine := CheckOpenKeys(t, r, child, fields[key]);
            if !fine {
              return false;
            }
            continue;
          }
          if child !in lists.allowed {
            return false;
          }
          var fine := Walk(t, r, lists, child, fields[key]);
          if !fine {
            return false;
          }
        }
        ok := true;
      case VList(elems) =>
        for i := 0 to |elems|
          invariant forall k :: 0 <= k < i ==> PathsOk(t, r, lists, path + "[]", elems[k])
        {
          var fine := Walk(t, r, lists, path + "[]", elems[i]);
          if !fine {
            return false;
          }
        }
        ok := true;
      case _ =>
        ok := true;
    }
  }

  ghost predicate Covers(order: seq<string>, obj: Args) {
    forall k :: k in obj ==> k in order
  }

  /** The order the map is iterated in at each lookup of a one-of argument: Go takes a new one every time. */
  type Orders = nat -> seq<string>

  ghost predicate CoverAll(orders: Orders, obj: Args) {
    forall i :: Covers(orders(i), obj)
  }

  /** One order for every lookup. */
  function Always(order: seq<string>): Orders {
    (i: nat) => order
  }

  /** These orders, each with the keys of a set at its end. */
  ghost function Then(orders: Orders, keys: set<string>): Orders {
    (i: nat) => orders(i) + Listed(keys)
  }

  /** obj[key] under any spelling, the exact one first; null reads as nothing. */
  function LookupKey(t: Tables, obj: Args, order: seq<string>, key: string): Option<Value> {
    if key in obj then Present(obj[key]) else FirstSpelling(t, obj, order, key)
  }

  function FirstSpelling(t: Tables, obj: Args, order: seq<string>, key: string): Option<Value> {
    if order == [] then None
    else if order[0] in obj && EqualFold(t.orbit, order[0], key) then Present(obj[order[0]])
    else FirstSpelling(t, obj, order[1..], key)
  }

  function Present(v: Value): Option<Value> {
    if v.VNull? then None else Some(v)
  }

  /** At most one of the arguments of which one may be sent is sent. */
  predicate OneOfOk(t: Tables, r: ToolRule, obj: Args, orders: Orders) {
    forall i, j :: 0 <= i < j < |r.oneOf| ==>
      LookupKey(t, obj, orders(i), r.oneOf[i]).None? || LookupKey(t, obj, orders(j), r.oneOf[j]).None?
  }

  // ------------------------------------------------------------ scope values

  function StringIn(v: Value): set<string> {
    if v.VStr? && v.s != "" then {v.s} else {}
  }

  /** Every non-empty string a key spelled like field holds inside v, to a depth. */
  function ValuesIn(t: Tables, v: Value, field: string, depth: nat): set<string>
    decreases v, 0
  {
    if depth == 0 then {}
    else
      match v
      case VMap(fields) => set k, x | k in fields && x in ValuesAt(t, k, fields[k], field, depth) :: x
      case VList(elems) => set i, x | 0 <= i < |elems| && x in ValuesIn(t, elems[i], field, depth) :: x
      case _ => {}
  }

  /** What one key of a map at a depth adds: its own string, and what is further inside. */
  function ValuesAt(t: Tables, key: string, inner: Value, field: string, depth: nat): set<string>
    requires depth > 0
    decreases inner, 1
  {
    (if EqualFold(t.orbit, key, field) then StringIn(inner) else {}) + ValuesIn(t, inner, field, depth - 1)
  }

  function TopValue(obj: Args, field: string): string {
    if field in obj && obj[field].VStr? then obj[field].s else ""
  }

  /** Every other copy of a scope field: other spellings at the top, and nested keys. */
  function NestedValues(t: Tables, obj: Args, field: string): set<string> {
    set k, x | k in obj && x in CopiesAt(t, k, obj[k], field) :: x
  }

  function CopiesAt(t: Tables, key: string, inner: Value, field: string): set<string> {
    (if key != field && EqualFold(t.orbit, key, field) then StringIn(inner) else {})
    + ValuesIn(t, inner, field, JSON_SCAN_DEPTH)
  }

  predicate GateOn(t: Tables, obj: Args, gate: string) {
    && (exists k :: k in obj && EqualFold(t.orbit, k, gate))
    && (forall k :: k in obj && EqualFold(t.orbit, k, gate) ==> obj[k] == VBool(true))
  }

  function GateOf(r: ToolRule, f: Field): string {
    if f in r.gates then r.gates[f] else ""
  }

  /** What one confinement of the key asks of the call. */
  predicate FieldOk(t: Tables, r: ToolRule, obj: Args, f: Field, values: set<string>) {
    && (r.scope != [] ==>
          && f in r.scope
          && TopValue(obj, FieldName(f)) != "" && TopValue(obj, FieldName(f)) in values
          && NestedValues(t, obj, FieldName(f)) <= values)
    && (r.stores - {ConfinedStore(f)} != {} && !r.facade ==> GateOn(t, obj, GateOf(r, f)))
  }

  ghost predicate FieldOkFor(t: Tables, r: ToolRule, obj: Args, scope: Scope, f: Field) {
    Named(scope, f) != {} ==> FieldOk(t, r, obj, f, Named(scope, f))
  }

  ghost predicate ScopeOk(t: Tables, r: ToolRule, obj: Args, scope: Scope) {
    forall f :: FieldOkFor(t, r, obj, scope, f)
  }

  /**
   * AuthorizeToolArgs: the verdict on a call. rule is the tool's line, None for
   * a tool that has none; args the decoded object, None when they are not one.
   */
  ghost predicate Accepts(t: Tables, scope: Scope, rule: Option<ToolRule>, args: Option<Args>, orders: Orders) {
    Unconfined(scope) ||
    (&& rule.Some? && args.Some?
     && OneOfOk(t, rule.value, args.value, orders)
     && PathsOk(t, rule.value, ListsOf(t, rule.value), "", VMap(args.value))
     && ScopeOk(t, rule.value, args.value, scope))
  }

  /** The checks in the order the code makes them, with a loop over the scope's constraints. */
  method AuthorizeToolArgs(t: Tables, scope: Scope, rule: Option<ToolRule>, args: Option<Args>, orders: Orders)
    returns (ok: bool)
    ensures ok == Accepts(t, scope, rule, args, orders)
  {
    var constraints := Constraints(scope);
    if constraints == [] {
      assert forall f :: !About(constraints, f);
      return true;
    }
    ConfinedFieldConfines(scope, constraints, 0);
    if rule.None? || args.None? {
      return false;
    }
    if !OneOfOk(t, rule.value, args.value, orders) {
      return false;
    }
    var walked := Walk(t, rule.value, ListsOf(t, rule.value), "", VMap(args.value));
    if !walked {
      return false;
    }
    ok := CheckFields(t, rule.value, args.value, scope, constraints);
  }

  method CheckFields(t: Tables, r: ToolRule, obj: Args, scope: Scope, constraints: seq<Constraint>) returns (ok: bool)
    requires forall f :: About(constraints, f) <==> Named(scope, f) != {}
    ensures ok == ScopeOk(t, r, obj, scope)
  {
    for i := 0 to |constraints|
      invariant forall k :: 0 <= k < i ==> FieldOkFor(t, r, obj, scope, constraints[k].field)
    {
      var f := constraints[i].field;
      ConfinedFieldConfines(scope, constraints, i);
      if !FieldOk(t, r, obj, f, Named(scope, f)) {
        assert !FieldOkFor(t, r, obj, scope, f);
        return false;
      }
    }
    forall f | Named(scope, f) != {} ensures FieldOkFor(t, r, obj, scope, f) {
      assert About(constraints, f);
    }
    ok := true;
  }

  lemma ConfinedFieldConfines(scope: Scope, constraints: seq<Constraint>, i: nat)
    requires i < |constraints| && forall f :: About(constraints, f) <==> Named(scope, f) != {}
    ensures Named(scope, constraints[i].field) != {} && !Unconfined(scope)
  {
    assert About(constraints, constraints[i].field);
  }

  // ------------------------------------------- the bounded scan misses nothing

  /**
   * Outside the objects the rule leaves open, at any depth, every key spelled
   * like field that holds a non-empty string holds one of values.
   */
  ghost predicate HeldTo(t: Tables, lists: Lists, path: string, v: Value, field: string, values: set<string>)
    decreases v, 0
  {
    match v
    case VMap(fields) => forall k :: k in fields ==> KeyHeldTo(t, lists, ChildPath(t, path, k), k, fields[k], field, values)
    case VList(elems) => forall i :: 0 <= i < |elems| ==> HeldTo(t, lists, path + "[]", elems[i], field, values)
    case _ => true
  }

  ghost predicate KeyHeldTo(t: Tables, lists: Lists, child: string, key: string, inner: Value, field: string, values: set<string>)
    decreases inner, 1
  {
    && (EqualFold(t.orbit, key, field) ==> StringIn(inner) <= values)
    && (child !in lists.open ==> HeldTo(t, lists, child, inner, field, values))
  }

  /** A classified path is short, so the scan still has depth left wherever the walk goes. */
  lemma {:induction false} ScanCovers(t: Tables, r: ToolRule, lists: Lists, path: string, v: Value, field: string,
                                      depth: nat, values: set<string>)
    requires ShortPaths(lists) && PathsOk(t, r, lists, path, v)
    requires path != "" && Dots(path) + depth >= JSON_SCAN_DEPTH && ValuesIn(t, v, field, depth) <= values
    ensures HeldTo(t, lists, path, v, field, values)
    decreases v, 0
  {
    match v
    case VMap(fields) =>
      forall k | k in fields ensures KeyHeldTo(t, lists, ChildPath(t, path, k), k, fields[k], field, values) {
        var child := ChildPath(t, path, k);
        assert KeyOk(t, r, lists, child, fields[k]);
        assert Dots(ChildPath(t, path, k)) > Dots(path) && ChildPath(t, path, k) != "" by {
          DotsAppend(path + ".", t.lower(k));
          DotsAppend(path, ".");
          assert Dots(".") == 1 by { assert "."[1..] == ""; }
        }
        assert depth > 0;
        assert forall x :: x in ValuesAt(t, k, fields[k], field, depth) ==> x in ValuesIn(t, v, field, depth);
        KeyCovered(t, r, lists, child, k, fields[k], field, depth, values);
      }
    case VList(elems) =>
      DotsAppend(path, "[]");
      forall i | 0 <= i < |elems| ensures HeldTo(t, lists, path + "[]", elems[i], field, values) {
        if depth > 0 {
          assert forall x :: x in ValuesIn(t, elems[i], field, depth) ==> x in ValuesIn(t, v, field, depth);
        }
        ScanCovers(t, r, lists, path + "[]", elems[i], field, depth, values);
      }
    case _ =>
  }

  lemma {:induction false} KeyCovered(t: Tables, r: ToolRule, lists: Lists, child: string, k: string, inner: Value,
                                      field: string, depth: nat, values: set<string>)
    requires ShortPaths(lists) && KeyOk(t, r, lists, child, inner)
    requires child != "" && depth > 0 && Dots(child) + depth > JSON_SCAN_DEPTH
    requires ValuesAt(t, k, inner, field, depth) <= values
    ensures KeyHeldTo(t, lists, child, k, inner, field, values)
    decreases inner, 1
  {
    if child !in lists.open {
      ScanCovers(t, r, lists, child, inner, field, depth - 1, values);
    }
  }

  /**
   * When a call is accepted by a tool that honours scope fields, nothing it
   * carries names the confined field with another value: not at the top, not
   * under another spelling, not nested at any depth, whatever the scan's bound.
   */
  lemma AcceptedCallsStayConfined(t: Tables, scope: Scope, r: ToolRule, obj: Args, orders: Orders, f: Field)
    requires WellFormed(t, r) && r.scope != []
    requires Accepts(t, scope, Some(r), Some(obj), orders) && Named(scope, f) != {}
    ensures FieldName(f) in obj && obj[FieldName(f)].VStr? && Permits(scope, f, obj[FieldName(f)].s)
    ensures HeldTo(t, ListsOf(t, r), "", VMap(obj), FieldName(f), Named(scope, f))
  {
    assert FieldOkFor(t, r, obj, scope, f);
    var lists, field, values := ListsOf(t, r), FieldName(f), Named(scope, f);
    assert TopValue(obj, field) in values && NestedValues(t, obj, field) <= values;
    TopKeysHeld(t, r, lists, obj, field, values);
  }

  lemma TopKeysHeld(t: Tables, r: ToolRule, lists: Lists, obj: Args, field: string, values: set<string>)
    requires ShortPaths(lists) && PathsOk(t, r, lists, "", VMap(obj))
    requires TopValue(obj, field) in values && NestedValues(t, obj, field) <= values
    ensures HeldTo(t, lists, "", VMap(obj), field, values)
  {
    forall k | k in obj ensures KeyHeldTo(t, lists, ChildPath(t, "", k), k, obj[k], field, values) {
      var child := ChildPath(t, "", k);
      assert KeyOk(t, r, lists, child, obj[k]);
      assert forall x :: x in CopiesAt(t, k, obj[k], field) ==> x in NestedValues(t, obj, field);
      if child !in lists.open {
        ScanCovers(t, r, lists, child, obj[k], field, JSON_SCAN_DEPTH, values);
      }
    }
  }

  // A tool without scope fields decides by row ids: its calls name no scope field at all.

  /** The last segment of a path is a spelling of field. */
  predicate EndsIn(t: Tables, path: string, field: string) {
    && |path| >= |field| && EqualFold(t.orbit, path[|path| - |field|..], field)
    && (|path| > |field| ==> path[|path| - |field| - 1] == '.')
  }

  /** Lower case does not take a key out of the field's spellings. */
  ghost predicate LowersWithin(t: Tables, field: string) {
    forall k :: EqualFold(t.orbit, k, field) ==> EqualFold(t.orbit, t.lower(k), field)
  }

  /** Outside the objects the rule leaves open, at any depth, no key is a spelling of field. */
  ghost predicate NamesNo(t: Tables, lists: Lists, path: string, v: Value, field: string)
    decreases v, 0
  {
    match v
    case VMap(fields) => forall k :: k in fields ==> KeyNamesNo(t, lists, ChildPath(t, path, k), k, fields[k], field)
    case VList(elems) => forall i :: 0 <= i < |elems| ==> NamesNo(t, lists, path + "[]", elems[i], field)
    case _ => true
  }

  ghost predicate KeyNamesNo(t: Tables, lists: Lists, child: string, key: string, inner: Value, field: string)
    decreases inner, 1
  {
    !EqualFold(t.orbit, key, field) && (child !in lists.open ==> NamesNo(t, lists, child, inner, field))
  }

  lemma {:induction false} WalkNamesNo(t: Tables, r: ToolRule, lists: Lists, path: string, v: Value, field: string)
    requires LowersWithin(t, field) && PathsOk(t, r, lists, path, v)
    requires forall p :: p in lists.allowed || p in lists.open ==> !EndsIn(t, p, field)
    ensures NamesNo(t, lists, path, v, field)
    decreases v
  {
    match v
    case VMap(fields) =>
      forall k | k in fields ensures KeyNamesNo(t, lists, ChildPath(t, path, k), k, fields[k], field) {
        var child := ChildPath(t, path, k);
        assert KeyOk(t, r, lists, child, fields[k]);
        if EqualFold(t.orbit, k, field) {
          assert EndsIn(t, ChildPath(t, path, k), field) by {
            var low, child := t.lower(k), ChildPath(t, path, k);
            assert |low| == |field| && child[|child| - |field|..] == low;
          }
        }
        if child !in lists.open {
          WalkNamesNo(t, r, lists, child, fields[k], field);
        }
      }
    case VList(elems) =>
      forall i | 0 <= i < |elems| ensures NamesNo(t, lists, path + "[]", elems[i], field) {
        WalkNamesNo(t, r, lists, path + "[]", elems[i], field);
      }
    case _ =>
  }

  /**
   * When no classified path of a tool ends in a scope field, an accepted call
   * of a confined key names that field nowhere outside open objects, so the
   * scope rule that such a tool skips would have had nothing to refuse.
   */
  lemma AcceptedCallsWithoutScope(t: Tables, scope: Scope, r: ToolRule, obj: Args, orders: Orders, f: Field)
    requires Accepts(t, scope, Some(r), Some(obj), orders) && !Unconfined(scope)
    requires LowersWithin(t, FieldName(f))
    requires forall p :: p in AllowedPaths(t, r) || p in OpenPaths(t, r) ==> !EndsIn(t, p, FieldName(f))
    ensures NamesNo(t, ListsOf(t, r), "", VMap(obj), FieldName(f))
  {
    WalkNamesNo(t, r, ListsOf(t, r), "", VMap(obj), FieldName(f));
  }

  // ------------------------------------------------------- the iteration order

  /** Some order of the keys finds the argument sent, and every order does. */
  ghost predicate MayFind(t: Tables, obj: Args, name: string) {
    if name in obj then !obj[name].VNull?
    else exists k :: k in obj && EqualFold(t.orbit, k, name) && !obj[k].VNull?
  }

  ghost predicate MustFind(t: Tables, obj: Args, name: string) {
    MayFind(t, obj, name) && (name in obj || forall k :: k in obj && EqualFold(t.orbit, k, name) ==> !obj[k].VNull?)
  }

  ghost predicate Hit(t: Tables, obj: Args, key: string, name: string) {
    key in obj && EqualFold(t.orbit, key, name)
  }

  lemma {:induction false} SpellingsInOrder(t: Tables, obj: Args, order: seq<string>, name: string)
    ensures FirstSpelling(t, obj, order, name).Some? ==>
              exists k :: k in order && Hit(t, obj, k, name) && !obj[k].VNull?
    ensures FirstSpelling(t, obj, order, name).None? ==>
              (forall k :: k in order ==> !Hit(t, obj, k, name))
              || exists k :: k in order && Hit(t, obj, k, name) && obj[k].VNull?
  {
    if order != [] {
      var rest := order[1..];
      SpellingsInOrder(t, obj, rest, name);
      assert order[0] in order && forall k :: k in order <==> k == order[0] || k in rest;
    }
  }

  ghost predicate HitsOne(t: Tables, obj: Args, order: seq<string>, name: string) {
    exists k :: k in order && Hit(t, obj, k, name)
  }

  lemma {:induction false} SpellingsAppend(t: Tables, obj: Args, a: seq<string>, b: seq<string>, name: string)
    ensures FirstSpelling(t, obj, a + b, name) ==
            FirstSpelling(t, obj, if HitsOne(t, obj, a, name) then a else b, name)
  {
    if a == [] {
      assert a + b == b;
    } else {
      assert (a + b)[0] == a[0] && (a + b)[1..] == a[1..] + b;
      SpellingsAppend(t, obj, a[1..], b, name);
      assert forall k :: k in a <==> k == a[0] || k in a[1..];
      if Hit(t, obj, a[0], name) {
        assert HitsOne(t, obj, a, name);
      } else {
        assert HitsOne(t, obj, a, name) <==> HitsOne(t, obj, a[1..], name);
      }
    }
  }

  ghost function Listed(keys: set<string>): (order: seq<string>)
    ensures forall k :: k in order <==> k in keys
  {
    if keys == {} then []
    else
      var k :| k in keys;
      [k] + Listed(keys - {k})
  }

  /** The order least willing to find an argument, and the one most willing. */
  ghost function NullsFirst(obj: Args): seq<string> {
    Listed(set k | k in obj && obj[k].VNull?) + Listed(obj.Keys)
  }

  ghost function NullsLast(obj: Args): seq<string> {
    Listed(set k | k in obj && !obj[k].VNull?) + Listed(obj.Keys)
  }

  lemma FindingByOrder(t: Tables, obj: Args, order: seq<string>, name: string)
    requires Covers(order, obj)
    ensures MustFind(t, obj, name) ==> LookupKey(t, obj, order, name).Some?
    ensures LookupKey(t, obj, order, name).Some? ==> MayFind(t, obj, name)
  {
    SpellingsInOrder(t, obj, order, name);
  }

  ghost predicate Two(names: seq<string>, p: string -> bool) {
    exists i, j :: 0 <= i < j < |names| && p(names[i]) && p(names[j])
  }

  /**
   * The verdict depends on the orders a map is iterated in exactly when two
   * one-of arguments may be found sent and no two must be: that is, when an
   * argument comes under several inexact spellings, some of them null.
   */
  lemma VerdictDependsOnOrder(t: Tables, r: ToolRule, obj: Args)
    ensures (forall a, b :: CoverAll(a, obj) && CoverAll(b, obj) ==> (OneOfOk(t, r, obj, a) <==> OneOfOk(t, r, obj, b)))
            <==> (!Two(r.oneOf, name => MayFind(t, obj, name)) || Two(r.oneOf, name => MustFind(t, obj, name)))
  {
    var low, high := NullsFirst(obj), NullsLast(obj);
    assert CoverAll(Always(low), obj) && CoverAll(Always(high), obj);
    forall name
      ensures LookupKey(t, obj, low, name).Some? <==> MustFind(t, obj, name)
      ensures LookupKey(t, obj, high, name).Some? <==> MayFind(t, obj, name)
    {
      assert LookupKey(t, obj, NullsFirst(obj), name).Some? <==> MustFind(t, obj, name) by {
        var nulls, all := Listed(set k | k in obj && obj[k].VNull?), Listed(obj.Keys);
        SpellingsAppend(t, obj, nulls, all, name);
        SpellingsInOrder(t, obj, nulls, name);
        SpellingsInOrder(t, obj, all, name);
        if k :| Hit(t, obj, k, name) && obj[k].VNull? {
          assert k in nulls;
        }
      }
      assert LookupKey(t, obj, NullsLast(obj), name).Some? <==> MayFind(t, obj, name) by {
        var others, all := Listed(set k | k in obj && !obj[k].VNull?), Listed(obj.Keys);
        SpellingsAppend(t, obj, others, all, name);
        SpellingsInOrder(t, obj, others, name);
        SpellingsInOrder(t, obj, all, name);
        if k :| Hit(t, obj, k, name) && !obj[k].VNull? {
          assert k in others;
        }
      }
    }
    OneOfOkBy(t, r, obj, low, name => MustFind(t, obj, name));
    OneOfOkBy(t, r, obj, high, name => MayFind(t, obj, name));
    forall orders | CoverAll(orders, obj)
      ensures Two(r.oneOf, name => MustFind(t, obj, name)) ==> !OneOfOk(t, r, obj, orders)
      ensures !OneOfOk(t, r, obj, orders) ==> Two(r.oneOf, name => MayFind(t, obj, name))
    {
      AnyOrders(t, r, obj, orders);
    }
  }

  lemma AnyOrders(t: Tables, r: ToolRule, obj: Args, orders: Orders)
    requires CoverAll(orders, obj)
    ensures Two(r.oneOf, name => MustFind(t, obj, name)) ==> !OneOfOk(t, r, obj, orders)
    ensures !OneOfOk(t, r, obj, orders) ==> Two(r.oneOf, name => MayFind(t, obj, name))
  {
    forall i: nat, name
      ensures MustFind(t, obj, name) ==> LookupKey(t, obj, orders(i), name).Some?
      ensures LookupKey(t, obj, orders(i), name).Some? ==> MayFind(t, obj, name)
    {
      FindingByOrder(t, obj, orders(i), name);
    }
  }

  lemma OneOfOkBy(t: Tables, r: ToolRule, obj: Args, order: seq<string>, found: string -> bool)
    requires forall name :: LookupKey(t, obj, order, name).Some? <==> found(name)
    ensures OneOfOk(t, r, obj, Always(order)) <==> !Two(r.oneOf, found)
  {
  }

  /** A body that passed the ambiguity check has one spelling of each key, and one verdict. */
  lemma UnambiguousVerdictIsOne(t: Tables, scope: Scope, rule: Option<ToolRule>, obj: Args, a: Orders, b: Orders)
    requires IsOrbits(t.orbit) && CoverAll(a, obj) && CoverAll(b, obj)
    requires forall k, l :: k in obj && l in obj && EqualFold(t.orbit, k, l) ==> k == l
    ensures Accepts(t, scope, rule, Some(obj), a) == Accepts(t, scope, rule, Some(obj), b)
  {
    forall name ensures MayFind(t, obj, name) ==> MustFind(t, obj, name) {
      forall k, l | Hit(t, obj, k, name) && Hit(t, obj, l, name) ensures k == l {
        EqualFoldIsEquivalence(t.orbit, l, name, k);
        EqualFoldIsEquivalence(t.orbit, k, name, l);
      }
      if MayFind(t, obj, name) && name !in obj {
        var k :| k in obj && EqualFold(t.orbit, k, name) && !obj[k].VNull?;
        assert Hit(t, obj, k, name);
        forall l | l in obj && EqualFold(t.orbit, l, name) ensures !obj[l].VNull? {
          assert Hit(t, obj, l, name);
        }
      }
    }
    forall i: nat, name
      ensures LookupKey(t, obj, a(i), name).Some? <==> LookupKey(t, obj, b(i), name).Some?
    {
      FindingByOrder(t, obj, a(i), name);
      FindingByOrder(t, obj, b(i), name);
    }
  }

  // ---------------------------------------------------------- ConfineToolArgs

  /** Every spelling of the gate goes, and the gate is set. */
  function SetGate(t: Tables, obj: Args, gate: string): Args {
    (map k | k in obj && !EqualFold(t.orbit, k, gate) :: obj[k])[gate := VBool(true)]
  }

  function SetGates(t: Tables, r: ToolRule, fields: seq<Field>, obj: Args): Args {
    if fields == [] then obj
    else
      var n := |fields| - 1;
      SetGate(t, SetGates(t, r, fields[..n], obj), GateOf(r, fields[n]))
  }

  /** The arguments a port hands the tool; those of a tool without gates are not touched. */
  function Confined(t: Tables, scope: Scope, rule: Option<ToolRule>, obj: Args): Args {
    if rule.None? || rule.value.gates == map[] then obj
    else SetGates(t, rule.value, Confinements(scope), obj)
  }

  method ConfineToolArgs(t: Tables, scope: Scope, rule: Option<ToolRule>, obj: Args) returns (out: Args)
    ensures out == Confined(t, scope, rule, obj)
  {
    out := obj;
    var constraints := Constraints(scope);
    ghost var fields := Confinements(scope);
    if constraints == [] || rule.None? || rule.value.gates == map[] {
      return;
    }
    for i := 0 to |constraints|
      invariant out == SetGates(t, rule.value, fields[..i], obj)
    {
      assert SetGates(t, rule.value, fields[..i + 1], obj)
          == SetGate(t, SetGates(t, rule.value, fields[..i], obj), GateOf(rule.value, fields[i])) by {
        var now := fields[..i + 1];
        assert |now| == i + 1 && now[..i] == fields[..i] && now[i] == fields[i];
      }
      out := ClearAndSet(t, out, GateOf(rule.value, constraints[i].field));
    }
    assert fields[..|constraints|] == fields;
  }

  method ClearAndSet(t: Tables, obj: Args, gate: string) returns (out: Args)
    ensures out == SetGate(t, obj, gate)
  {
    out := obj;
    var left := obj.Keys;
    while left != {}
      invariant left <= obj.Keys
      invariant out == map k | k in obj && (k in left || !EqualFold(t.orbit, k, gate)) :: obj[k]
      decreases |left|
    {
      var key :| key in left;
      left := left - {key};
      if EqualFold(t.orbit, key, gate) {
        out := map k | k in out && k != key :: out[k];
      }
    }
    out := out[gate := VBool(true)];
  }

  /** The gate is sent under its one spelling, and true. */
  ghost predicate OnlyGate(t: Tables, obj: Args, gate: string) {
    gate in obj && obj[gate] == VBool(true) && forall k :: k in obj && EqualFold(t.orbit, k, gate) ==> k == gate
  }

  /** No gate is another spelling of another gate: so in every well-formed rule (WellFormedGatesApart). */
  ghost predicate GatesApart(t: Tables, r: ToolRule) {
    forall f, g :: (EqualFold(t.orbit, GateOf(r, f), GateOf(r, g)) <==> GateOf(r, f) == GateOf(r, g))
  }

  lemma WellFormedGatesApart(t: Tables, r: ToolRule)
    requires IsOrbits(t.orbit) && WellFormed(t, r)
    ensures GatesApart(t, r)
  {
    forall f, g ensures EqualFold(t.orbit, GateOf(r, f), GateOf(r, g)) <==> GateOf(r, f) == GateOf(r, g) {
      EqualFoldIsEquivalence(t.orbit, GateOf(r, f), GateOf(r, f), GateOf(r, f));
    }
  }

  /** Every gate asked for is set. */
  lemma {:induction false} GatesAreSet(t: Tables, r: ToolRule, fields: seq<Field>, obj: Args)
    requires GatesApart(t, r)
    ensures forall f :: f in fields ==> OnlyGate(t, SetGates(t, r, fields, obj), GateOf(r, f))
  {
    if fields != [] {
      var n := |fields| - 1;
      var front, last := fields[..n], fields[n];
      GatesAreSet(t, r, front, obj);
      assert forall f :: f in fields <==> f in front || f == last;
      forall f | f in front ensures OnlyGate(t, SetGates(t, r, fields, obj), GateOf(r, f)) {
        assert OnlyGate(t, SetGate(t, SetGates(t, r, front, obj), GateOf(r, last)), GateOf(r, f));
      }
    }
  }

  /** A key is as it was, or is a gate now set, or was a spelling of one. */
  lemma {:induction false} KeyOfSetGates(t: Tables, r: ToolRule, fields: seq<Field>, obj: Args, k: string)
    ensures var out := SetGates(t, r, fields, obj);
            k in out ==> (k in obj && out[k] == obj[k])
                         || (out[k] == VBool(true) && exists f :: f in fields && k == GateOf(r, f))
    ensures k in obj && k !in SetGates(t, r, fields, obj) ==>
              exists f :: f in fields && EqualFold(t.orbit, k, GateOf(r, f))
  {
    if fields != [] {
      var n := |fields| - 1;
      KeyOfSetGates(t, r, fields[..n], obj, k);
      assert forall f :: f in fields <==> f in fields[..n] || f == fields[n];
    }
  }

  lemma {:induction false} GatesStaySet(t: Tables, r: ToolRule, fields: seq<Field>, obj: Args)
    requires forall f :: f in fields ==> OnlyGate(t, obj, GateOf(r, f))
    ensures SetGates(t, r, fields, obj) == obj
  {
    if fields != [] {
      var n := |fields| - 1;
      assert forall f :: f in fields[..n] ==> f in fields;
      GatesStaySet(t, r, fields[..n], obj);
      assert OnlyGate(t, obj, GateOf(r, fields[n]));
    }
  }

  /** Confining what was confined changes nothing. */
  lemma ConfiningTwiceIsOnce(t: Tables, scope: Scope, rule: Option<ToolRule>, obj: Args)
    requires IsOrbits(t.orbit) && (rule.Some? ==> GatesApart(t, rule.value))
    ensures Confined(t, scope, rule, Confined(t, scope, rule, obj)) == Confined(t, scope, rule, obj)
  {
    if rule.Some? && rule.value.gates != map[] {
      var fields := Confinements(scope);
      GatesAreSet(t, rule.value, fields, obj);
      GatesStaySet(t, rule.value, fields, SetGates(t, rule.value, fields, obj));
    }
  }

  /** Every gate the scope needs is on, and every argument that is no spelling of one is as it was. */
  lemma ConfiningSetsGatesOnly(t: Tables, scope: Scope, r: ToolRule, obj: Args)
    requires IsOrbits(t.orbit) && GatesApart(t, r) && r.gates != map[]
    ensures var out := Confined(t, scope, Some(r), obj);
            && (forall f :: Named(scope, f) != {} ==> GateOn(t, out, GateOf(r, f)))
            && forall k :: (forall f :: Named(scope, f) != {} ==> !EqualFold(t.orbit, k, GateOf(r, f))) ==>
                 (k in out <==> k in obj) && (k in obj ==> out[k] == obj[k])
  {
    var fields := Confinements(scope);
    var out := SetGates(t, r, fields, obj);
    GatesAreSet(t, r, fields, obj);
    forall f | Named(scope, f) != {} ensures GateOn(t, out, GateOf(r, f)) {
      assert f in fields;
      EqualFoldIsEquivalence(t.orbit, GateOf(r, f), GateOf(r, f), GateOf(r, f));
      assert OnlyGate(t, out, GateOf(r, f));
    }
    forall k | forall f :: Named(scope, f) != {} ==> !EqualFold(t.orbit, k, GateOf(r, f))
      ensures (k in out <==> k in obj) && (k in obj ==> out[k] == obj[k])
    {
      KeyOfSetGates(t, r, fields, obj, k);
      EqualFoldIsEquivalence(t.orbit, k, k, k);
    }
  }

  /** What the next three lemmas have in common: gates of these fields are set on obj. */
  ghost predicate Setting(t: Tables, r: ToolRule, fields: seq<Field>, obj: Args) {
    IsOrbits(t.orbit) && WellFormed(t, r) && forall f :: f in fields ==> f in r.gates
  }

  lemma OneOfStays(t: Tables, r: ToolRule, fields: seq<Field>, obj: Args, orders: Orders)
    requires Setting(t, r, fields, obj)
    requires OneOfOk(t, r, obj, Then(orders, obj.Keys)) && CoverAll(orders, SetGates(t, r, fields, obj))
    ensures OneOfOk(t, r, SetGates(t, r, fields, obj), orders)
  {
    var out := SetGates(t, r, fields, obj);
    forall i, j | 0 <= i < j < |r.oneOf|
      ensures LookupKey(t, out, orders(i), r.oneOf[i]).None? || LookupKey(t, out, orders(j), r.oneOf[j]).None?
    {
      FindingStays(t, r, fields, obj, orders(i), r.oneOf[i]);
      FindingStays(t, r, fields, obj, orders(j), r.oneOf[j]);
    }
  }

  lemma FindingStays(t: Tables, r: ToolRule, fields: seq<Field>, obj: Args, order: seq<string>, name: string)
    requires Setting(t, r, fields, obj) && name in r.oneOf && Covers(order, SetGates(t, r, fields, obj))
    ensures LookupKey(t, SetGates(t, r, fields, obj), order, name) == LookupKey(t, obj, order + Listed(obj.Keys), name)
  {
    var out := SetGates(t, r, fields, obj);
    forall k | EqualFold(t.orbit, k, name)
      ensures k in out <==> k in obj
      ensures k in obj ==> out[k] == obj[k]
    {
      NotAGate(t, r, fields, obj, k, name);
    }
    EqualFoldIsEquivalence(t.orbit, name, name, name);
    SameSpellings(t, out, obj, order, name);
    SpellingsAppend(t, obj, order, Listed(obj.Keys), name);
    if !HitsOne(t, obj, order, name) {
      assert forall k :: !Hit(t, obj, k, name);
      SpellingsInOrder(t, obj, order, name);
      SpellingsInOrder(t, obj, Listed(obj.Keys), name);
    }
  }

  /** A key spelled like a one-of argument or a scope field is no spelling of a gate. */
  lemma NotAGate(t: Tables, r: ToolRule, fields: seq<Field>, obj: Args, k: string, name: string)
    requires Setting(t, r, fields, obj) && EqualFold(t.orbit, k, name)
    requires name in r.oneOf || exists g :: name == FieldName(g)
    ensures var out := SetGates(t, r, fields, obj); (k in out <==> k in obj) && (k in obj ==> out[k] == obj[k])
  {
    KeyOfSetGates(t, r, fields, obj, k);
    forall f | f in fields ensures !EqualFold(t.orbit, k, GateOf(r, f)) && k != GateOf(r, f) {
      EqualFoldIsEquivalence(t.orbit, k, GateOf(r, f), k);
      EqualFoldIsEquivalence(t.orbit, GateOf(r, f), k, name);
      assert !EqualFold(t.orbit, r.gates[f], name);
    }
  }

  lemma {:induction false} SameSpellings(t: Tables, a: Args, b: Args, order: seq<string>, name: string)
    requires forall k :: EqualFold(t.orbit, k, name) ==> (k in a <==> k in b) && (k in a ==> a[k] == b[k])
    ensures FirstSpelling(t, a, order, name) == FirstSpelling(t, b, order, name)
  {
    if order != [] {
      SameSpellings(t, a, b, order[1..], name);
    }
  }

  lemma PathsStay(t: Tables, r: ToolRule, fields: seq<Field>, obj: Args)
    requires Setting(t, r, fields, obj) && PathsOk(t, r, ListsOf(t, r), "", VMap(obj))
    ensures PathsOk(t, r, ListsOf(t, r), "", VMap(SetGates(t, r, fields, obj)))
  {
    var lists, out := ListsOf(t, r), SetGates(t, r, fields, obj);
    forall k | k in out ensures KeyOk(t, r, lists, ChildPath(t, "", k), out[k]) {
      KeyOfSetGates(t, r, fields, obj, k);
      if k in obj && out[k] == obj[k] {
        assert KeyOk(t, r, lists, ChildPath(t, "", k), obj[k]);
      } else {
        var f :| f in fields && k == GateOf(r, f);
        assert f in r.gates && t.lower(k) in lists.allowed && t.lower(k) !in lists.denied;
      }
    }
  }

  lemma ScopeValuesStay(t: Tables, r: ToolRule, fields: seq<Field>, obj: Args, f: Field)
    requires Setting(t, r, fields, obj)
    ensures var out := SetGates(t, r, fields, obj);
            TopValue(out, FieldName(f)) == TopValue(obj, FieldName(f))
            && NestedValues(t, out, FieldName(f)) <= NestedValues(t, obj, FieldName(f))
  {
    var out, field := SetGates(t, r, fields, obj), FieldName(f);
    EqualFoldIsEquivalence(t.orbit, field, field, field);
    NotAGate(t, r, fields, obj, field, field);
    forall k, x | k in out && x in CopiesAt(t, k, out[k], field) ensures x in NestedValues(t, obj, field) {
      KeyOfSetGates(t, r, fields, obj, k);
    }
  }

  /**
   * A call that is accepted is accepted once confined: for any iteration orders
   * of what is then left, as it was under those with the rest at their ends.
   */
  lemma ConfiningRefusesNothing(t: Tables, scope: Scope, r: ToolRule, obj: Args, orders: Orders)
    requires IsOrbits(t.orbit) && WellFormed(t, r)
    requires Accepts(t, scope, Some(r), Some(obj), Then(orders, obj.Keys))
    requires CoverAll(orders, Confined(t, scope, Some(r), obj))
    ensures Accepts(t, scope, Some(r), Some(Confined(t, scope, Some(r), obj)), orders)
  {
    if !Unconfined(scope) {
      if r.gates == map[] {
        SameFindings(t, r, obj, orders);
      } else {
        var fields := Confinements(scope);
        forall f | f in fields ensures f in r.gates {
          assert FieldOkFor(t, r, obj, scope, f);
        }
        OneOfStays(t, r, fields, obj, orders);
        PathsStay(t, r, fields, obj);
        assert ScopeOk(t, r, Confined(t, scope, Some(r), obj), scope) by {
          WellFormedGatesApart(t, r);
          ConfiningSetsGatesOnly(t, scope, r, obj);
          forall f ensures FieldOkFor(t, r, Confined(t, scope, Some(r), obj), scope, f) {
            assert FieldOkFor(t, r, obj, scope, f);
            if Named(scope, f) != {} {
              ScopeValuesStay(t, r, Confinements(scope), obj, f);
            }
          }
        }
      }
    }
  }

  /** What follows an order that has every key changes nothing. */
  lemma SameFindings(t: Tables, r: ToolRule, obj: Args, orders: Orders)
    requires CoverAll(orders, obj)
    ensures OneOfOk(t, r, obj, Then(orders, obj.Keys)) <==> OneOfOk(t, r, obj, orders)
  {
    forall i: nat, name
      ensures LookupKey(t, obj, Then(orders, obj.Keys)(i), name) == LookupKey(t, obj, orders(i), name)
    {
      var order := orders(i);
      SpellingsAppend(t, obj, order, Listed(obj.Keys), name);
      if !HitsOne(t, obj, order, name) {
        assert forall k :: !Hit(t, obj, k, name);
        SpellingsInOrder(t, obj, order, name);
        SpellingsInOrder(t, obj, Listed(obj.Keys), name);
      }
    }
  }

  // ----------------------------------------------------- monotone in the scope

  /** Widening a field's values, or dropping a confinement, never refuses an accepted call. */
  lemma WiderScopeAccepts(t: Tables, narrow: Scope, wide: Scope, rule: Option<ToolRule>, args: Option<Args>, orders: Orders)
    requires Widens(narrow, wide) && Accepts(t, narrow, rule, args, orders)
    ensures Accepts(t, wide, rule, args, orders)
  {
    if !Unconfined(wide) {
      forall f ensures FieldOkFor(t, rule.value, args.value, wide, f) {
        assert FieldOkFor(t, rule.value, args.value, narrow, f);
      }
    }
  }
}
