/**
 * Keys, their scopes, and the set of keys a server enforces (pkg/authz/authz.go).
 * A key file's JSON is decoded by a function this model takes as a parameter:
 * it gives the declared keys, or None for text the JSON decoder refuses.
 */
module Authz {
  import opened Wrappers

  datatype Clearance = ReadOnly | ReadWrite | Unknown(text: string)

  /** The four fields a scope confines, each in a singular and a plural form. */
  datatype Scope = Scope(userID: string, memoryScope: string, namespace: string, collection: string,
                         userIDs: seq<string>, memoryScopes: seq<string>,
                         namespaces: seq<string>, collections: seq<string>)

  datatype Key = Key(id: string, secret: string, clearance: Clearance, scope: Scope)

  /** A policy: its keys, and whether it refuses every call although it has none. */
  datatype KeySet = KeySet(keys: seq<Key>, closed: bool)

  /** What a key file's text declares, or None when it is not the JSON of a key file. */
  type Decoder = string -> Option<seq<Key>>

  // ---------------------------------------------------------------- scopes

  datatype Field = UserID | MemoryScope | Namespace | Collection

  datatype Constraint = Constraint(field: Field, values: seq<string>)

  const FIELDS: seq<Field> := [UserID, MemoryScope, Namespace, Collection]

  /** The place of a field in the order constraints are listed in. */
  function Rank(f: Field): (n: nat)
    ensures n < |FIELDS| && FIELDS[n] == f
  {
    match f
    case UserID => 0
    case MemoryScope => 1
    case Namespace => 2
    case Collection => 3
  }

  function Singular(s: Scope, f: Field): string {
    match f
    case UserID => s.userID
    case MemoryScope => s.memoryScope
    case Namespace => s.namespace
    case Collection => s.collection
  }

  function Plural(s: Scope, f: Field): seq<string> {
    match f
    case UserID => s.userIDs
    case MemoryScope => s.memoryScopes
    case Namespace => s.namespaces
    case Collection => s.collections
  }

  /** The values a scope lets a key name under a field; empty means unconfined. */
  function Named(s: Scope, f: Field): set<string> {
    (set v | v in [Singular(s, f)] + Plural(s, f)) - {""}
  }

  /** Which settings of a scope name which field: one and a list for each. */
  lemma NamedExactly(s: Scope, v: string)
    ensures v in Named(s, UserID) <==> v != "" && (v == s.userID || v in s.userIDs)
    ensures v in Named(s, MemoryScope) <==> v != "" && (v == s.memoryScope || v in s.memoryScopes)
    ensures v in Named(s, Namespace) <==> v != "" && (v == s.namespace || v in s.namespaces)
    ensures v in Named(s, Collection) <==> v != "" && (v == s.collection || v in s.collections)
  {
  }

  ghost predicate Distinct<T>(values: seq<T>) {
    forall i, j :: 0 <= i < j < |values| ==> values[i] != values[j]
  }

  /** The values of one constraint, merged from both forms in order, without repeats. */
  method MergeValues(s: Scope, f: Field) returns (values: seq<string>)
    ensures Distinct(values)
    ensures forall v :: v in values <==> v in Named(s, f)
  {
    var one, many := Singular(s, f), Plural(s, f);
    values := if one != "" then [one] else [];
    for i := 0 to |many|
      invariant Distinct(values)
      invariant forall v :: v in values <==> v != "" && (v == one || v in many[..i])
    {
      assert many[..i + 1] == many[..i] + [many[i]];
      if many[i] != "" && many[i] !in values {
        values := values + [many[i]];
      }
    }
    assert many[..|many|] == many;
  }

  ghost predicate Confines(s: Scope, c: Constraint) {
    c.values != [] && forall v :: v in c.values <==> v in Named(s, c.field)
  }

  /** The fields the first n constraints of a list are about. */
  predicate About(out: seq<Constraint>, f: Field) {
    exists k :: 0 <= k < |out| && out[k].field == f
  }

  /** The confined fields among the first n, in the fixed field order. */
  function ConfinedFields(s: Scope, n: nat): (fields: seq<Field>)
    requires n <= |FIELDS|
    ensures forall f :: f in fields <==> Rank(f) < n && Named(s, f) != {}
  {
    if n == 0 then []
    else
      var f := FIELDS[n - 1];
      assert Rank(f) == n - 1;
      assert forall g :: Rank(g) == n - 1 ==> g == f;
      ConfinedFields(s, n - 1) + if Named(s, f) != {} then [f] else []
  }

  /** The confined fields, in the fixed field order. */
  function Confinements(s: Scope): (fields: seq<Field>)
    ensures forall f :: f in fields <==> Named(s, f) != {}
  {
    ConfinedFields(s, |FIELDS|)
  }

  /**
   * The constraints of a scope: one per confined field, in the fixed field
   * order, each carrying exactly the values both forms name.
   */
  method Constraints(s: Scope) returns (out: seq<Constraint>)
    ensures forall k :: 0 <= k < |out| ==> Confines(s, out[k]) && Distinct(out[k].values)
    ensures forall f :: About(out, f) <==> Named(s, f) != {}
    ensures Listing(out, Confinements(s))
  {
    out := [];
    for i := 0 to |FIELDS|
      invariant forall k :: 0 <= k < |out| ==> Confines(s, out[k]) && Distinct(out[k].values)
      invariant Listing(out, ConfinedFields(s, i))
    {
      var values := MergeValues(s, FIELDS[i]);
      assert values == [] <==> Named(s, FIELDS[i]) == {} by {
        if values != [] {
          assert values[0] in Named(s, FIELDS[i]);
        } else {
          assert forall v :: v !in Named(s, FIELDS[i]);
        }
      }
      if values != [] {
        out := out + [Constraint(FIELDS[i], values)];
      }
    }
    AboutListed(out, Confinements(s));
  }

  /** The constraints are about these fields, in this order. */
  ghost predicate Listing(out: seq<Constraint>, fields: seq<Field>) {
    |out| == |fields| && forall k :: 0 <= k < |out| ==> out[k].field == fields[k]
  }

  lemma AboutListed(out: seq<Constraint>, fields: seq<Field>)
    requires Listing(out, fields)
    ensures forall f :: About(out, f) <==> f in fields
  {
    forall f | f in fields ensures About(out, f) {
      var k :| 0 <= k < |fields| && fields[k] == f;
      assert out[k].field == f;
    }
  }

  /** Whether a row whose field holds value may be touched. */
  predicate Permits(s: Scope, f: Field, value: string) {
    Named(s, f) == {} || value in Named(s, f)
  }

  predicate Unconfined(s: Scope) {
    forall f :: Named(s, f) == {}
  }

  /** b lets a key name everything a does: a field of a is widened or dropped. */
  predicate Widens(a: Scope, b: Scope) {
    forall f :: Named(b, f) == {} || (Named(a, f) != {} && Named(a, f) <= Named(b, f))
  }

  predicate ValidScope(s: Scope) {
    forall f :: "" !in Plural(s, f)
  }

  // --------------------------------------------------------------- key sets

  predicate Enabled(ks: KeySet) {
    |ks.keys| > 0 || ks.closed
  }

  /** A key that may stand in a set on its own. */
  predicate ValidKey(k: Key) {
    k.id != "" && k.secret != "" && !k.clearance.Unknown? && ValidScope(k.scope)
  }

  /** The first n keys stand together: each valid, no two sharing an id or a secret. */
  ghost predicate ValidUpTo(keys: seq<Key>, n: nat)
    requires n <= |keys|
  {
    && (forall i :: 0 <= i < n ==> ValidKey(keys[i]))
    && (forall i, j :: 0 <= i < j < n ==> keys[i].id != keys[j].id && keys[i].secret != keys[j].secret)
  }

  ghost predicate ValidKeys(keys: seq<Key>) {
    ValidUpTo(keys, |keys|)
  }

  /** The rules in full: what each key must have, what no list may hold, and what no two keys may share. */
  lemma ValidKeysExactly(keys: seq<Key>)
    ensures ValidKeys(keys) <==>
              && (forall k :: k in keys ==>
                    && k.id != "" && k.secret != "" && (k.clearance == ReadOnly || k.clearance == ReadWrite)
                    && "" !in k.scope.userIDs && "" !in k.scope.memoryScopes
                    && "" !in k.scope.namespaces && "" !in k.scope.collections)
              && (forall i, j :: 0 <= i < j < |keys| ==> keys[i].id != keys[j].id)
              && (forall i, j :: 0 <= i < j < |keys| ==> keys[i].secret != keys[j].secret)
  {
    forall k: Key
      ensures ValidScope(k.scope) <==>
                && "" !in k.scope.userIDs && "" !in k.scope.memoryScopes
                && "" !in k.scope.namespaces && "" !in k.scope.collections
    {
      ValidScopeExactly(k.scope);
    }
  }

  lemma ValidScopeExactly(s: Scope)
    ensures ValidScope(s) <==> "" !in s.userIDs && "" !in s.memoryScopes && "" !in s.namespaces && "" !in s.collections
  {
    assert Plural(s, UserID) == s.userIDs && Plural(s, MemoryScope) == s.memoryScopes;
    assert Plural(s, Namespace) == s.namespaces && Plural(s, Collection) == s.collections;
  }

  datatype KeyFault = NoID | NoSecret | BadClearance | DuplicateID | BadScope | SharedSecret

  /** How key n breaks the rules, the first of them it breaks: on its own, or beside the keys before it. */
  ghost predicate Breaks(keys: seq<Key>, n: nat, fault: KeyFault)
    requires n < |keys|
  {
    var k := keys[n];
    var sameID := exists i :: 0 <= i < n && keys[i].id == k.id;
    match fault
    case NoID => k.id == ""
    case NoSecret => k.id != "" && k.secret == ""
    case BadClearance => k.id != "" && k.secret != "" && k.clearance.Unknown?
    case DuplicateID => k.id != "" && k.secret != "" && !k.clearance.Unknown? && sameID
    case BadScope => k.id != "" && k.secret != "" && !k.clearance.Unknown? && !sameID && !ValidScope(k.scope)
    case SharedSecret => ValidKey(k) && !sameID && exists i :: 0 <= i < n && keys[i].secret == k.secret
  }

  /** Refuses at the first key that does not stand with the ones before it, for the first rule it breaks. */
  method NewKeySet(keys: seq<Key>) returns (r: Result<KeySet, (nat, KeyFault)>)
    ensures r.Ok? <==> ValidKeys(keys)
    ensures r.Ok? ==> r.value == KeySet(keys, false)
    ensures r.Err? ==> r.error.0 < |keys| && ValidUpTo(keys, r.error.0) && !ValidUpTo(keys, r.error.0 + 1)
    ensures r.Err? ==> Breaks(keys, r.error.0, r.error.1)
  {
    var ids, secrets: set<string> := {}, {};
    for i := 0 to |keys|
      invariant ValidUpTo(keys, i)
      invariant forall x :: x in ids <==> exists j :: 0 <= j < i && keys[j].id == x
      invariant forall x :: x in secrets <==> exists j :: 0 <= j < i && keys[j].secret == x
    {
      var k := keys[i];
      if k.id == "" {
        return Err((i, NoID));
      } else if k.secret == "" {
        return Err((i, NoSecret));
      } else if k.clearance.Unknown? {
        return Err((i, BadClearance));
      }
      if k.id in ids {
        return Err((i, DuplicateID));
      }
      if !ValidScope(k.scope) {
        return Err((i, BadScope));
      }
      if k.secret in secrets {
        return Err((i, SharedSecret));
      }
      ids := ids + {k.id};
      secrets := secrets + {k.secret};
    }
    r := Ok(KeySet(keys, false));
  }

  /** The key a secret opens: the last one declared with it. */
  function Opened(keys: seq<Key>, secret: string): Option<Key> {
    if keys == [] then None
    else
      var n := |keys| - 1;
      if keys[n].secret == secret then Some(keys[n]) else Opened(keys[..n], secret)
  }

  method Lookup(ks: KeySet, secret: string) returns (found: Option<Key>)
    ensures found == Opened(ks.keys, secret)
    ensures found.Some? <==> exists k :: k in ks.keys && k.secret == secret
    ensures found.Some? ==> found.value in ks.keys && found.value.secret == secret
    ensures found.Some? ==> exists i :: 0 <= i < |ks.keys| && ks.keys[i] == found.value
                                        && forall j :: i < j < |ks.keys| ==> ks.keys[j].secret != secret
  {
    var last: int := -1;
    for i := 0 to |ks.keys|
      invariant -1 <= last < i
      invariant last >= 0 ==> ks.keys[last].secret == secret
      invariant forall j :: last < j < i ==> ks.keys[j].secret != secret
      invariant Opened(ks.keys[..i], secret) == if last < 0 then None else Some(ks.keys[last])
    {
      assert ks.keys[..i + 1][..i] == ks.keys[..i];
      if ks.keys[i].secret == secret {
        last := i;
      }
    }
    assert ks.keys[..|ks.keys|] == ks.keys;
    found := if last < 0 then None else Some(ks.keys[last]);
  }

  lemma {:induction false} OpenedIsThere(keys: seq<Key>, secret: string)
    ensures Opened(keys, secret).Some? ==> Opened(keys, secret).value in keys && Opened(keys, secret).value.secret == secret
    ensures Opened(keys, secret).None? ==> forall k :: k in keys ==> k.secret != secret
    decreases |keys|
  {
    if keys != [] {
      OpenedIsThere(keys[..|keys| - 1], secret);
      assert forall k :: k in keys ==> k in keys[..|keys| - 1] || k == keys[|keys| - 1];
    }
  }

  ghost predicate SameKeys(a: seq<Key>, b: seq<Key>) {
    forall k :: k in a <==> k in b
  }

  /** Two declaration orders of one valid set of keys answer every lookup alike, found or not. */
  lemma LookupIgnoresOrder(a: seq<Key>, b: seq<Key>, secret: string)
    requires ValidKeys(a) && SameKeys(a, b)
    ensures Opened(a, secret) == Opened(b, secret)
  {
    OpenedIsThere(a, secret);
    OpenedIsThere(b, secret);
    if Opened(a, secret).Some? && Opened(b, secret).Some? {
      var x, y := Opened(a, secret).value, Opened(b, secret).value;
      var i :| 0 <= i < |a| && a[i] == x;
      var j :| 0 <= j < |a| && a[j] == y;
    }
  }

  /** Parse: a text that decodes, declares at least one key, and whose keys stand together. */
  ghost function Parse(decode: Decoder, text: string): Option<KeySet> {
    match decode(text)
    case None => None
    case Some(keys) => if keys != [] && ValidKeys(keys) then Some(KeySet(keys, false)) else None
  }

  /** A key file is taken exactly when it decodes to at least one key and the keys stand together; then all of them are. */
  lemma ParseExactly(decode: Decoder, text: string, keys: KeySet)
    ensures Parse(decode, text) == Some(keys) <==>
              decode(text) == Some(keys.keys) && keys.keys != [] && ValidKeys(keys.keys) && !keys.closed
  {
  }
}
