/**
 * What an accepted call looks like (pkg/authz/allowlist.go), said of the keys it
 * carries and the routes to them, without the walk, the scan or the checks.
 */
module ToolRoutes {
  import opened Wrappers
  import opened Json
  import opened Folding
  import opened Authz
  import opened ToolArgs

  /** One step into an argument: to a key of a map, or to an element of a list. */
  datatype Step = Into(key: string) | Elem(i: nat)

  type Route = seq<Step>

  /** What stands at the end of a route. */
  function At(v: Value, route: Route): Option<Value> {
    if route == [] then Some(v)
    else
      match route[0]
      case Into(k) => if v.VMap? && k in v.fields then At(v.fields[k], route[1..]) else None
      case Elem(i) => if v.VList? && i < |v.elems| then At(v.elems[i], route[1..]) else None
  }

  /** The path a route spells, from a path on. */
  function PathOf(t: Tables, path: string, route: Route): string
    decreases |route|
  {
    if route == [] then path
    else
      match route[0]
      case Into(k) => PathOf(t, (if path == "" then "" else path + ".") + t.lower(k), route[1..])
      case Elem(_) => PathOf(t, path + "[]", route[1..])
  }

  /** How many keys a route passes. */
  function Depth(route: Route): nat {
    if route == [] then 0 else (if route[0].Into? then 1 else 0) + Depth(route[1..])
  }

  /** The route ends at a key that v has. */
  predicate AtKey(v: Value, route: Route) {
    route != [] && route[|route| - 1].Into? && At(v, route).Some?
  }

  lemma RouteCons(t: Tables, path: string, v: Value, step: Step, rest: Route)
    ensures var route := [step] + rest;
            && route[0] == step && route[1..] == rest && Depth(route) == Depth(rest) + (if step.Into? then 1 else 0)
            && At(v, route) == (match step
                                case Into(k) => if v.VMap? && k in v.fields then At(v.fields[k], rest) else None
                                case Elem(i) => if v.VList? && i < |v.elems| then At(v.elems[i], rest) else None)
            && PathOf(t, path, route) == PathOf(t, if step.Into? then ChildPath(t, path, step.key) else path + "[]", rest)
            && (rest != [] ==> route[|route| - 1] == rest[|rest| - 1])
  {
    var route := [step] + rest;
    assert route[0] == step && route[1..] == rest;
    if step.Into? && path == "" {
      assert "" + t.lower(step.key) == t.lower(step.key);
    }
  }

  // ------------------------------------------------------------------ the walk

  /** The route has passed a key whose contents are data. */
  ghost predicate PassesOpen(t: Tables, lists: Lists, path: string, route: Route) {
    exists j :: 0 < j < |route| && route[j - 1].Into? && PathOf(t, path, route[..j]) in lists.open
  }

  /** The key at the end of the route may be sent, unless it is data already. */
  ghost predicate RouteOk(t: Tables, r: ToolRule, lists: Lists, path: string, v: Value, route: Route) {
    AtKey(v, route) && !PassesOpen(t, lists, path, route) ==>
      var q := PathOf(t, path, route);
      && q !in lists.denied
      && if q in lists.open then OpenKeysOk(t, r, q, At(v, route).value) else q in lists.allowed
  }

  lemma PassesMore(t: Tables, lists: Lists, path: string, step: Step, rest: Route)
    ensures var child := if step.Into? then ChildPath(t, path, step.key) else path + "[]";
            PassesOpen(t, lists, path, [step] + rest) <==>
              (step.Into? && rest != [] && child in lists.open) || PassesOpen(t, lists, child, rest)
  {
    var child := if step.Into? then ChildPath(t, path, step.key) else path + "[]";
    var route := [step] + rest;
    if PassesOpen(t, lists, path, route) {
      var j :| 0 < j < |route| && route[j - 1].Into? && PathOf(t, path, route[..j]) in lists.open;
      assert route[..j] == [step] + rest[..j - 1];
      RouteCons(t, path, VNull, step, rest[..j - 1]);
      if j > 1 {
        assert route[j - 1] == rest[j - 2];
      }
    }
    if PassesOpen(t, lists, child, rest) {
      var j :| 0 < j < |rest| && rest[j - 1].Into? && PathOf(t, child, rest[..j]) in lists.open;
      assert route[..j + 1] == [step] + rest[..j] && route[j] == rest[j - 1];
      RouteCons(t, path, VNull, step, rest[..j]);
    }
    if step.Into? && rest != [] && child in lists.open {
      assert route[..1] == [step] + [];
      RouteCons(t, path, VNull, step, []);
      assert route[1 - 1].Into? && PathOf(t, path, route[..1]) in lists.open;
    }
  }

  lemma {:induction false} WalkedRoutes(t: Tables, r: ToolRule, lists: Lists, path: string, v: Value, route: Route)
    requires PathsOk(t, r, lists, path, v)
    ensures RouteOk(t, r, lists, path, v, route)
    decreases |route|
  {
    if AtKey(v, route) && !PassesOpen(t, lists, path, route) {
      var step, rest := route[0], route[1..];
      assert route == [step] + rest;
      RouteCons(t, path, v, step, rest);
      PassesMore(t, lists, path, step, rest);
      match step
      case Into(k) =>
        assert KeyOk(t, r, lists, ChildPath(t, path, k), v.fields[k]);
        if rest != [] {
          WalkedRoutes(t, r, lists, ChildPath(t, path, k), v.fields[k], rest);
        }
      case Elem(i) =>
        WalkedRoutes(t, r, lists, path + "[]", v.elems[i], rest);
    }
  }

  lemma {:induction false} RoutesWalked(t: Tables, r: ToolRule, lists: Lists, path: string, v: Value)
    requires forall route :: RouteOk(t, r, lists, path, v, route)
    ensures PathsOk(t, r, lists, path, v)
    decreases v
  {
    match v
    case VMap(fields) =>
      forall k | k in fields ensures KeyOk(t, r, lists, ChildPath(t, path, k), fields[k]) {
        var child := ChildPath(t, path, k);
        RouteCons(t, path, v, Into(k), []);
        PassesMore(t, lists, path, Into(k), []);
        assert RouteOk(t, r, lists, path, v, [Into(k)] + []);
        if child !in lists.open {
          forall rest ensures RouteOk(t, r, lists, child, fields[k], rest) {
            RouteCons(t, path, v, Into(k), rest);
            PassesMore(t, lists, path, Into(k), rest);
            assert RouteOk(t, r, lists, path, v, [Into(k)] + rest);
          }
          RoutesWalked(t, r, lists, child, fields[k]);
        }
      }
    case VList(elems) =>
      forall i | 0 <= i < |elems| ensures PathsOk(t, r, lists, path + "[]", elems[i]) {
        forall rest ensures RouteOk(t, r, lists, path + "[]", elems[i], rest) {
          RouteCons(t, path, v, Elem(i), rest);
          PassesMore(t, lists, path, Elem(i), rest);
          assert RouteOk(t, r, lists, path, v, [Elem(i)] + rest);
        }
        RoutesWalked(t, r, lists, path + "[]", elems[i]);
      }
    case _ =>
  }

  // --------------------------------------------- the rule's line, in its own words

  /** The line leaves the object at a path open: its contents are data. */
  ghost predicate OpensAt(t: Tables, r: ToolRule, q: string) {
    exists p :: p in r.args && |p| >= 2 && p[|p| - 2..] == ".*" && t.lower(p[..|p| - 2]) == q
  }

  /** The line lists a path: a scope field, an argument, the id of a row or a gate. */
  ghost predicate ListsAt(t: Tables, r: ToolRule, q: string) {
    || NamesAt(t, r, q)
    || (exists p :: p in r.ids && t.lower(p) == q)
    || (exists f :: f in r.gates && t.lower(r.gates[f]) == q)
  }

  ghost predicate NamesAt(t: Tables, r: ToolRule, q: string) {
    || (exists f :: f in r.scope && t.lower(FieldName(f)) == q)
    || (exists p :: p in r.args && !(|p| >= 2 && p[|p| - 2..] == ".*") && t.lower(p) == q)
  }

  ghost predicate DeniesAt(t: Tables, r: ToolRule, q: string) {
    exists p :: p in r.denied && t.lower(p) == q
  }

  /** A key the document or memory metadata may hold. */
  ghost predicate MetadataKey(t: Tables, r: ToolRule, key: string) {
    var low := t.lower(key);
    || key in r.rewritten
    || (&& (low == "" || low[0] != '_')
        && low != "written_by" && low != "updated_by"
        && (KnowledgeStore in r.stores ==> low != "document_id" && low != "chunk_index" && low != "graph_kind"))
  }

  lemma OpenEnds(p: string)
    ensures IsOpen(p) <==> |p| >= 2 && p[|p| - 2..] == ".*"
  {
    if |p| >= 2 {
      assert p[|p| - 2..] == [p[|p| - 2], p[|p| - 1]];
    }
  }

  lemma FieldsAreNotOpen(f: Field)
    ensures !IsOpen(FieldName(f))
  {
  }

  lemma NamedPathsAre(r: ToolRule, p: string)
    ensures p in NamedPaths(r) <==> p in r.args || exists f :: f in r.scope && p == FieldName(f)
  {
    var names := seq(|r.scope|, i requires 0 <= i < |r.scope| => FieldName(r.scope[i]));
    assert p in NamedPaths(r) <==> p in names || p in r.args;
    if f :| f in r.scope && p == FieldName(f) {
      var i :| 0 <= i < |r.scope| && r.scope[i] == f;
      assert names[i] == p;
    }
  }

  lemma OpenPathsAre(t: Tables, r: ToolRule, q: string)
    ensures q in OpenPaths(t, r) <==> OpensAt(t, r, q)
  {
    forall p ensures p in NamedPaths(r) && IsOpen(p) <==> p in r.args && |p| >= 2 && p[|p| - 2..] == ".*" {
      NamedPathsAre(r, p);
      OpenEnds(p);
      forall f ensures !IsOpen(FieldName(f)) {
        FieldsAreNotOpen(f);
      }
    }
  }

  lemma ArgPathsAre(t: Tables, r: ToolRule, q: string)
    ensures q in ArgPaths(t, r) <==> NamesAt(t, r, q)
  {
    forall p ensures p in NamedPaths(r) && !IsOpen(p) <==>
                     (p in r.args && !(|p| >= 2 && p[|p| - 2..] == ".*")) || exists f :: f in r.scope && p == FieldName(f)
    {
      NamedPathsAre(r, p);
      OpenEnds(p);
      forall f ensures !IsOpen(FieldName(f)) {
        FieldsAreNotOpen(f);
      }
    }
  }

  lemma AllowedPathsAre(t: Tables, r: ToolRule, q: string)
    ensures q in AllowedPaths(t, r) <==> ListsAt(t, r, q)
  {
    ArgPathsAre(t, r, q);
    IdPathsAre(t, r, q);
    GatePathsAre(t, r, q);
  }

  lemma IdPathsAre(t: Tables, r: ToolRule, q: string)
    ensures q in IdPaths(t, r) <==> exists p :: p in r.ids && t.lower(p) == q
  {
  }

  lemma GatePathsAre(t: Tables, r: ToolRule, q: string)
    ensures q in GatePaths(t, r) <==> exists f :: f in r.gates && t.lower(r.gates[f]) == q
  {
  }

  // ------------------------------------------------------- what a key may send

  /** The route has passed a key whose contents are data. */
  ghost predicate PassesData(t: Tables, r: ToolRule, route: Route) {
    exists j :: 0 < j < |route| && route[j - 1].Into? && OpensAt(t, r, PathOf(t, "", route[..j]))
  }

  /** The key at the end of the route is classified and not denied, and metadata has no key of the engine's. */
  ghost predicate MaySend(t: Tables, r: ToolRule, obj: Args, route: Route) {
    AtKey(VMap(obj), route) && !PassesData(t, r, route) ==>
      var q, v := PathOf(t, "", route), At(VMap(obj), route).value;
      && !DeniesAt(t, r, q) && (OpensAt(t, r, q) || ListsAt(t, r, q))
      && (q == "metadata" && OpensAt(t, r, q) && v.VMap? ==> forall k :: k in v.fields ==> MetadataKey(t, r, k))
  }

  lemma SamePassing(t: Tables, r: ToolRule, route: Route)
    ensures PassesOpen(t, ListsOf(t, r), "", route) <==> PassesData(t, r, route)
  {
    forall j | 0 < j < |route|
      ensures PathOf(t, "", route[..j]) in ListsOf(t, r).open <==> OpensAt(t, r, PathOf(t, "", route[..j]))
    {
      OpenPathsAre(t, r, PathOf(t, "", route[..j]));
    }
  }

  lemma MetadataKeys(t: Tables, r: ToolRule, q: string, v: Value)
    ensures OpenKeysOk(t, r, q, v) <==> (q == "metadata" && v.VMap? ==> forall k :: k in v.fields ==> MetadataKey(t, r, k))
  {
    if v.VMap? {
      forall k ensures OpenKeyOk(t, r, q, k) <==> (q == "metadata" ==> MetadataKey(t, r, k)) {
      }
    }
  }

  lemma RouteMaySend(t: Tables, r: ToolRule, obj: Args, route: Route)
    ensures RouteOk(t, r, ListsOf(t, r), "", VMap(obj), route) <==> MaySend(t, r, obj, route)
  {
    var q := PathOf(t, "", route);
    SamePassing(t, r, route);
    OpenPathsAre(t, r, q);
    AllowedPathsAre(t, r, q);
    assert q in ListsOf(t, r).denied <==> DeniesAt(t, r, q);
    if AtKey(VMap(obj), route) {
      MetadataKeys(t, r, q, At(VMap(obj), route).value);
    }
  }

  /** The walk lets a call through exactly when every key it carries, at any depth, may be sent. */
  lemma WalkExactly(t: Tables, r: ToolRule, obj: Args)
    ensures PathsOk(t, r, ListsOf(t, r), "", VMap(obj)) <==> forall route :: MaySend(t, r, obj, route)
  {
    forall route ensures RouteOk(t, r, ListsOf(t, r), "", VMap(obj), route) <==> MaySend(t, r, obj, route) {
      RouteMaySend(t, r, obj, route);
    }
    if PathsOk(t, r, ListsOf(t, r), "", VMap(obj)) {
      forall route ensures RouteOk(t, r, ListsOf(t, r), "", VMap(obj), route) {
        WalkedRoutes(t, r, ListsOf(t, r), "", VMap(obj), route);
      }
    }
    if forall route :: MaySend(t, r, obj, route) {
      RoutesWalked(t, r, ListsOf(t, r), "", VMap(obj));
    }
  }

  // ------------------------------------------------------------------ the scan

  /** The route ends at a spelling of field that holds a non-empty string. */
  ghost predicate Finds(t: Tables, v: Value, field: string, route: Route, x: string) {
    AtKey(v, route) && EqualFold(t.orbit, route[|route| - 1].key, field) && At(v, route) == Some(VStr(x)) && x != ""
  }

  lemma FindsMore(t: Tables, v: Value, field: string, step: Step, rest: Route, x: string)
    ensures Finds(t, v, field, [step] + rest, x) <==>
              match step
              case Into(k) => v.VMap? && k in v.fields
                              && if rest == [] then EqualFold(t.orbit, k, field) && v.fields[k] == VStr(x) && x != ""
                                 else Finds(t, v.fields[k], field, rest, x)
              case Elem(i) => v.VList? && i < |v.elems| && Finds(t, v.elems[i], field, rest, x)
  {
    RouteCons(t, "", v, step, rest);
  }

  lemma {:induction false} FoundIsInside(t: Tables, v: Value, field: string, depth: nat, route: Route, x: string)
    requires Finds(t, v, field, route, x) && Depth(route) <= depth
    ensures x in ValuesIn(t, v, field, depth)
    decreases |route|
  {
    var step, rest := route[0], route[1..];
    assert route == [step] + rest;
    RouteCons(t, "", v, step, rest);
    FindsMore(t, v, field, step, rest, x);
    match step
    case Into(k) =>
      if rest != [] {
        FoundIsInside(t, v.fields[k], field, depth - 1, rest, x);
      }
      assert x in ValuesAt(t, k, v.fields[k], field, depth);
    case Elem(i) =>
      assert Depth(route) > 0 by {
        KeyIsDeep(route);
      }
      FoundIsInside(t, v.elems[i], field, depth, rest, x);
  }

  lemma {:induction false} KeyIsDeep(route: Route)
    requires route != [] && route[|route| - 1].Into?
    ensures Depth(route) > 0
    decreases |route|
  {
    if |route| > 1 {
      KeyIsDeep(route[1..]);
    }
  }

  lemma {:induction false} InsideIsFound(t: Tables, v: Value, field: string, depth: nat, x: string) returns (route: Route)
    requires x in ValuesIn(t, v, field, depth)
    ensures Finds(t, v, field, route, x) && Depth(route) <= depth
    decreases v
  {
    match v
    case VMap(fields) =>
      var k :| k in fields && x in ValuesAt(t, k, fields[k], field, depth);
      if x in ValuesIn(t, fields[k], field, depth - 1) {
        var rest := InsideIsFound(t, fields[k], field, depth - 1, x);
        route := [Into(k)] + rest;
        RouteCons(t, "", v, Into(k), rest);
        FindsMore(t, v, field, Into(k), rest, x);
      } else {
        route := [Into(k)] + [];
        RouteCons(t, "", v, Into(k), []);
        FindsMore(t, v, field, Into(k), [], x);
      }
    case VList(elems) =>
      var i :| 0 <= i < |elems| && x in ValuesIn(t, elems[i], field, depth);
      var rest := InsideIsFound(t, elems[i], field, depth, x);
      route := [Elem(i)] + rest;
      RouteCons(t, "", v, Elem(i), rest);
      FindsMore(t, v, field, Elem(i), rest, x);
  }

  /** What the scan reads of a field: every non-empty string at a spelling of it within five keys, but the exact one on top. */
  lemma CopiesExactly(t: Tables, obj: Args, field: string, x: string)
    ensures x in NestedValues(t, obj, field) <==>
              exists route :: route != [Into(field)] && Depth(route) <= 5 && Finds(t, VMap(obj), field, route, x)
  {
    if x in NestedValues(t, obj, field) {
      var k :| k in obj && x in CopiesAt(t, k, obj[k], field);
      var rest: Route := [];
      if x in ValuesIn(t, obj[k], field, JSON_SCAN_DEPTH) {
        rest := InsideIsFound(t, obj[k], field, JSON_SCAN_DEPTH, x);
        assert ([Into(k)] + rest)[1] == rest[0];
      }
      RouteCons(t, "", VMap(obj), Into(k), rest);
      FindsMore(t, VMap(obj), field, Into(k), rest, x);
      assert [Into(k)] + rest != [Into(field)];
    }
    if route :| route != [Into(field)] && Depth(route) <= 5 && Finds(t, VMap(obj), field, route, x) {
      var step, rest := route[0], route[1..];
      assert route == [step] + rest;
      RouteCons(t, "", VMap(obj), step, rest);
      FindsMore(t, VMap(obj), field, step, rest, x);
      if rest != [] {
        FoundIsInside(t, obj[step.key], field, JSON_SCAN_DEPTH, rest, x);
      }
      assert x in CopiesAt(t, step.key, obj[step.key], field);
    }
  }

  // --------------------------------------------------------------- the verdict

  /** The arguments that carry the four fields. */
  lemma FieldNames()
    ensures FieldName(UserID) == "user_id" && FieldName(MemoryScope) == "scope"
    ensures FieldName(Namespace) == "namespace" && FieldName(Collection) == "collection"
  {
  }

  /** A tool with scope fields honours this one, the call sets it to a value of the key's, and every copy of it agrees. */
  ghost predicate FieldIsHeld(t: Tables, scope: Scope, r: ToolRule, obj: Args, f: Field) {
    r.scope != [] ==>
      && f in r.scope
      && FieldName(f) in obj && obj[FieldName(f)].VStr? && obj[FieldName(f)].s in Named(scope, f)
      && forall route, x :: Depth(route) <= 5 && Finds(t, VMap(obj), FieldName(f), route, x) ==> x in Named(scope, f)
  }

  /** A tool that touches the store this field does not confine has it switched off, under every spelling sent. */
  ghost predicate OtherStoreIsOff(t: Tables, r: ToolRule, obj: Args, f: Field) {
    var gate := if f in r.gates then r.gates[f] else "";
    !r.facade && (if f == Collection then MemoryStore in r.stores else KnowledgeStore in r.stores) ==>
      && (exists k :: k in obj && EqualFold(t.orbit, k, gate))
      && (forall k :: k in obj && EqualFold(t.orbit, k, gate) ==> obj[k] == VBool(true))
  }

  lemma OtherStore(stores: set<StoreKind>, f: Field)
    ensures stores - {ConfinedStore(f)} != {} <==> if f == Collection then MemoryStore in stores else KnowledgeStore in stores
  {
    var other := if f == Collection then MemoryStore else KnowledgeStore;
    if other in stores {
      assert other in stores - {ConfinedStore(f)};
    }
    if s :| s in stores - {ConfinedStore(f)} {
      assert s == other;
    }
  }

  lemma TopIsFound(t: Tables, obj: Args, field: string, x: string)
    requires EqualFold(t.orbit, field, field)
    ensures Finds(t, VMap(obj), field, [Into(field)], x) <==> field in obj && obj[field] == VStr(x) && x != ""
  {
    assert [Into(field)] + [] == [Into(field)];
    FindsMore(t, VMap(obj), field, Into(field), [], x);
  }

  lemma FieldExactly(t: Tables, scope: Scope, r: ToolRule, obj: Args, f: Field)
    requires IsOrbits(t.orbit)
    ensures FieldOk(t, r, obj, f, Named(scope, f)) <==> FieldIsHeld(t, scope, r, obj, f) && OtherStoreIsOff(t, r, obj, f)
  {
    var field, values := FieldName(f), Named(scope, f);
    OtherStore(r.stores, f);
    EqualFoldIsEquivalence(t.orbit, field, field, field);
    forall x
      ensures x in NestedValues(t, obj, field) <==>
                exists route :: route != [Into(field)] && Depth(route) <= 5 && Finds(t, VMap(obj), field, route, x)
      ensures Finds(t, VMap(obj), field, [Into(field)], x) <==> field in obj && obj[field] == VStr(x) && x != ""
    {
      CopiesExactly(t, obj, field, x);
      TopIsFound(t, obj, field, x);
    }
  }

  /**
   * The verdict, in full: a call is accepted exactly when the key is not
   * confined, or the tool has a line and the arguments are an object, no two
   * arguments are sent of which one may be, every key may be sent, every
   * confined field is held, and no store is left on that the field does not
   * confine.
   */
  lemma AcceptedExactly(t: Tables, scope: Scope, rule: Option<ToolRule>, args: Option<Args>, orders: Orders)
    requires IsOrbits(t.orbit)
    ensures Accepts(t, scope, rule, args, orders) <==>
              || (forall f :: Named(scope, f) == {})
              || (&& rule.Some? && args.Some?
                  && OneOfOk(t, rule.value, args.value, orders)
                  && (forall route :: MaySend(t, rule.value, args.value, route))
                  && forall f :: Named(scope, f) != {} ==>
                       FieldIsHeld(t, scope, rule.value, args.value, f) && OtherStoreIsOff(t, rule.value, args.value, f))
  {
    if rule.Some? && args.Some? {
      WalkExactly(t, rule.value, args.value);
      forall f ensures FieldOkFor(t, rule.value, args.value, scope, f) <==>
                         (Named(scope, f) != {} ==>
                            FieldIsHeld(t, scope, rule.value, args.value, f) && OtherStoreIsOff(t, rule.value, args.value, f))
      {
        FieldExactly(t, scope, rule.value, args.value, f);
      }
    }
  }

  /**
   * In an accepted call of a confined key the other store is off: for a tool
   * that is not held to its scope by the facade and touches a store the field
   * does not confine, some key is a spelling of the gate, and every one is true.
   */
  lemma AcceptedCallsHaveTheGateOn(t: Tables, scope: Scope, r: ToolRule, obj: Args, orders: Orders, f: Field, other: StoreKind)
    requires IsOrbits(t.orbit) && Accepts(t, scope, Some(r), Some(obj), orders) && Named(scope, f) != {}
    requires !r.facade && f in r.gates && other in r.stores
    requires other == if f == Collection then MemoryStore else KnowledgeStore
    ensures exists k :: k in obj && EqualFold(t.orbit, k, r.gates[f])
    ensures forall k :: k in obj && EqualFold(t.orbit, k, r.gates[f]) ==> obj[k] == VBool(true)
  {
    AcceptedExactly(t, scope, Some(r), Some(obj), orders);
    assert OtherStoreIsOff(t, r, obj, f);
  }
}
