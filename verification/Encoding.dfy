/**
 * A decoded value written as JSON again (encoding/json's Marshal, which lists
 * the keys of a map in order), and what a reader of it then sees.
 */
module Encoding {
  import opened Wrappers
  import Texts
  import opened Json
  import opened Folding
  import opened Ambiguous
  import opened Readers

  function Encoded(v: Value): Json {
    match v
    case VNull => Null
    case VBool(b) => Bool(b)
    case VNumber(n) => Number(n)
    case VStr(s) => Str(s)
    case VList(elems) => Array(seq(|elems|, i requires 0 <= i < |elems| => Encoded(elems[i])))
    case VMap(fields) =>
      var keys := Texts.Ordered(fields.Keys);
      Object(seq(|keys|, i requires 0 <= i < |keys| => assert keys[i] in keys; Member(keys[i], Encoded(fields[keys[i]]))))
  }

  /** The members that a map's keys become: one for each, in order. */
  lemma EncodedMembers(fields: map<string, Value>)
    ensures var keys, members := Texts.Ordered(fields.Keys), Encoded(VMap(fields)).members;
            && |members| == |keys|
            && (forall i :: 0 <= i < |keys| ==> keys[i] in fields && members[i] == Member(keys[i], Encoded(fields[keys[i]])))
            && (forall i, j :: 0 <= i < j < |members| ==> members[i].key != members[j].key)
            && (forall k :: k in fields <==> HasKey(members, k))
  {
    var keys, members := Texts.Ordered(fields.Keys), Encoded(VMap(fields)).members;
    forall i | 0 <= i < |keys| ensures keys[i] in fields && members[i] == Member(keys[i], Encoded(fields[keys[i]])) {
      assert keys[i] in keys;
    }
    forall k ensures k in fields <==> HasKey(members, k) {
      if k in fields {
        assert k in keys;
        var i :| 0 <= i < |keys| && keys[i] == k;
        assert members[i].key == k;
      }
    }
  }

  /** What is written is read back. */
  lemma {:induction false} DecodedOfEncoded(v: Value)
    ensures Decoded(Encoded(v)) == v
  {
    match v
    case VList(elems) =>
      var out := Encoded(v).elems;
      forall i | 0 <= i < |elems| ensures Decoded(out[i]) == elems[i] {
        DecodedOfEncoded(elems[i]);
      }
      var back := Decoded(Array(out)).elems;
      assert |back| == |elems| && forall i :: 0 <= i < |elems| ==> back[i] == elems[i];
    case VMap(fields) =>
      EncodedMembers(fields);
      var keys, members := Texts.Ordered(fields.Keys), Encoded(v).members;
      forall i | 0 <= i < |members| ensures members[i].key in fields && Decoded(members[i].value) == fields[members[i].key] {
        var x := fields[keys[i]];
        assert members[i] == Member(keys[i], Encoded(x));
        DecodedOfEncoded(x);
      }
      MapOfMembers(fields, members);
    case _ =>
  }

  /** Members with one copy of each key are the map they say. */
  lemma MapOfMembers(fields: map<string, Value>, members: seq<Member>)
    requires forall i, j :: 0 <= i < j < |members| ==> members[i].key != members[j].key
    requires forall k :: k in fields <==> HasKey(members, k)
    requires forall i :: 0 <= i < |members| ==> members[i].key in fields && Decoded(members[i].value) == fields[members[i].key]
    ensures LastCopies(members) == fields
  {
    forall k ensures k in LastCopies(members) <==> k in fields {
      KeysOfLastCopies(members, k);
    }
    forall k | k in fields ensures LastCopies(members)[k] == fields[k] {
      assert HasKey(members, k);
      var i :| 0 <= i < |members| && members[i].key == k;
      LastCopyIsKept(members, i);
    }
  }

  // --------------------------------------------------------- one copy of a key

  /** No object at any depth has one spelling of a key twice. */
  ghost predicate SpellsOnce(j: Json) {
    match j
    case Array(elems) => forall i :: 0 <= i < |elems| ==> SpellsOnce(elems[i])
    case Object(members) =>
      && (forall i, k :: 0 <= i < k < |members| ==> members[i].key != members[k].key)
      && (forall i :: 0 <= i < |members| ==> SpellsOnce(members[i].value))
    case _ => true
  }

  lemma {:induction false} EncodedSpellsOnce(v: Value)
    ensures SpellsOnce(Encoded(v))
  {
    match v
    case VList(elems) =>
      forall i | 0 <= i < |elems| ensures SpellsOnce(Encoded(v).elems[i]) {
        EncodedSpellsOnce(elems[i]);
      }
    case VMap(fields) =>
      EncodedMembers(fields);
      var keys := Texts.Ordered(fields.Keys);
      forall i | 0 <= i < |keys| ensures SpellsOnce(Encoded(v).members[i].value) {
        EncodedSpellsOnce(fields[keys[i]]);
      }
    case _ =>
  }

  /** No map at any depth has two keys equal under folding. */
  ghost predicate Apart(orbit: Orbits, v: Value) {
    match v
    case VList(elems) => forall i :: 0 <= i < |elems| ==> Apart(orbit, elems[i])
    case VMap(fields) =>
      && (forall k, l :: k in fields && l in fields && EqualFold(orbit, k, l) ==> k == l)
      && (forall k :: k in fields ==> Apart(orbit, fields[k]))
    case _ => true
  }

  lemma {:induction false} DecodedIsApart(orbit: Orbits, j: Json)
    requires IsOrbits(orbit) && !NamesTwice(orbit, j)
    ensures Apart(orbit, Decoded(j))
  {
    match j
    case Array(elems) =>
      forall i | 0 <= i < |elems| ensures Apart(orbit, Decoded(j).elems[i]) {
        DecodedIsApart(orbit, elems[i]);
      }
    case Object(members) =>
      MapOfFoldDistinct(orbit, members);
      var fields := LastCopies(members);
      forall k, l | k in fields && l in fields && EqualFold(orbit, k, l) ensures k == l {
        OneSpelling(orbit, members, k, l);
      }
      forall k | k in fields ensures Apart(orbit, fields[k]) {
        var i :| 0 <= i < |members| && members[i].key == k;
        DecodedIsApart(orbit, members[i].value);
      }
    case _ =>
  }

  lemma OneSpelling(orbit: Orbits, members: seq<Member>, k: string, l: string)
    requires IsOrbits(orbit) && FoldDistinct(orbit, members)
    requires HasKey(members, k) && HasKey(members, l) && EqualFold(orbit, k, l)
    ensures k == l
  {
    var i :| 0 <= i < |members| && members[i].key == k;
    var j :| 0 <= j < |members| && members[j].key == l;
    EqualFoldIsEquivalence(orbit, k, l, k);
  }

  lemma {:induction false} EncodedNamesOnce(orbit: Orbits, v: Value)
    requires Apart(orbit, v)
    ensures !NamesTwice(orbit, Encoded(v))
  {
    match v
    case VList(elems) =>
      forall i | 0 <= i < |elems| ensures !NamesTwice(orbit, Encoded(v).elems[i]) {
        EncodedNamesOnce(orbit, elems[i]);
      }
    case VMap(fields) =>
      EncodedMembers(fields);
      var keys := Texts.Ordered(fields.Keys);
      forall i | 0 <= i < |keys| ensures !NamesTwice(orbit, Encoded(v).members[i].value) {
        EncodedNamesOnce(orbit, fields[keys[i]]);
      }
    case _ =>
  }

  // ------------------------------------------------- values alike but for numbers

  /** One value but for its numbers. */
  ghost predicate Alike(v: Value, w: Value) {
    match v
    case VNumber(_) => w.VNumber?
    case VList(elems) => w.VList? && |elems| == |w.elems| && forall i :: 0 <= i < |elems| ==> Alike(elems[i], w.elems[i])
    case VMap(fields) => w.VMap? && fields.Keys == w.fields.Keys && forall k :: k in fields ==> Alike(fields[k], w.fields[k])
    case _ => v == w
  }

  /**
   * Into a field of strings, two bodies that name no field twice and hold one
   * value but for numbers decode alike: the same strings in the same order, or
   * both not at all.
   */
  lemma {:induction false} DecodeAlike(orbit: Orbits, a: Json, b: Json, path: seq<Segment>, leaf: Leaf)
    requires IsOrbits(orbit) && !NamesTwice(orbit, a) && !NamesTwice(orbit, b) && Alike(Decoded(a), Decoded(b))
    ensures Decode(orbit, a, path, leaf, []) == Decode(orbit, b, path, leaf, [])
    decreases a, 0
  {
    if path == [] {
      if a.Array? {
        ElemsDecoded(a, b);
        StringsAlike(a.elems, b.elems);
      }
    } else if a.Object? {
      var x, y := LastCopies(a.members), LastCopies(b.members);
      assert Decoded(a).fields == x && Decoded(b).fields == y;
      MembersAlike(orbit, a.members, b.members, path, leaf);
    }
  }

  lemma ElemsDecoded(a: Json, b: Json)
    requires a.Array? && Alike(Decoded(a), Decoded(b))
    ensures b.Array? && |a.elems| == |b.elems|
    ensures forall i :: 0 <= i < |a.elems| ==> Alike(Decoded(a.elems[i]), Decoded(b.elems[i]))
  {
    forall i | 0 <= i < |a.elems| ensures Alike(Decoded(a.elems[i]), Decoded(b.elems[i])) {
      assert Alike(Decoded(a).elems[i], Decoded(b).elems[i]);
    }
  }

  lemma {:induction false} StringsAlike(a: seq<Json>, b: seq<Json>)
    requires |a| == |b| && forall i :: 0 <= i < |a| ==> Alike(Decoded(a[i]), Decoded(b[i]))
    ensures Strings(a) == Strings(b)
  {
    if a != [] {
      StringsAlike(a[1..], b[1..]);
      assert Alike(Decoded(a[0]), Decoded(b[0]));
    }
  }

  /** The same, when only the members that the path starts with need be alike. */
  lemma {:induction false} MembersAlike(orbit: Orbits, a: seq<Member>, b: seq<Member>, path: seq<Segment>, leaf: Leaf)
    requires IsOrbits(orbit) && path != [] && !NamesTwice(orbit, Object(a)) && !NamesTwice(orbit, Object(b))
    requires forall k :: EqualFold(orbit, k, path[0].name) ==>
               (k in LastCopies(a) <==> k in LastCopies(b))
               && (k in LastCopies(a) ==> Alike(LastCopies(a)[k], LastCopies(b)[k]))
    ensures DecodeMembers(orbit, a, path, leaf, []) == DecodeMembers(orbit, b, path, leaf, [])
    decreases a, 1
  {
    MapOfFoldDistinct(orbit, a);
    MapOfFoldDistinct(orbit, b);
    if i :| 0 <= i < |a| && EqualFold(orbit, a[i].key, path[0].name) {
      var k := a[i].key;
      assert HasKey(a, k) && HasKey(b, k);
      var j :| 0 <= j < |b| && b[j].key == k;
      OneMemberDecides(orbit, a, path, leaf, [], i);
      OneMemberDecides(orbit, b, path, leaf, [], j);
      FieldAlike(orbit, a[i].value, b[j].value, path, leaf);
    } else {
      NoMemberDecides(orbit, a, path, leaf, []);
      forall j | 0 <= j < |b| ensures !EqualFold(orbit, b[j].key, path[0].name) {
        var k := b[j].key;
        assert k in LastCopies(b) && (k in LastCopies(a) ==> HasKey(a, k));
      }
      NoMemberDecides(orbit, b, path, leaf, []);
    }
  }

  lemma {:induction false} FieldAlike(orbit: Orbits, a: Json, b: Json, path: seq<Segment>, leaf: Leaf)
    requires IsOrbits(orbit) && path != [] && !NamesTwice(orbit, a) && !NamesTwice(orbit, b) && Alike(Decoded(a), Decoded(b))
    ensures DecodeField(orbit, a, path, leaf, []) == DecodeField(orbit, b, path, leaf, [])
    decreases a, 2
  {
    if !path[0].each {
      DecodeAlike(orbit, a, b, path[1..], leaf);
    } else if a.Array? {
      ElemsDecoded(a, b);
      ElemsAlike(orbit, a.elems, b.elems, path[1..], leaf);
    }
  }

  lemma {:induction false} ElemsAlike(orbit: Orbits, a: seq<Json>, b: seq<Json>, path: seq<Segment>, leaf: Leaf)
    requires IsOrbits(orbit) && |a| == |b|
    requires forall i :: 0 <= i < |a| ==>
               !NamesTwice(orbit, a[i]) && !NamesTwice(orbit, b[i]) && Alike(Decoded(a[i]), Decoded(b[i]))
    ensures DecodeElems(orbit, a, path, leaf) == DecodeElems(orbit, b, path, leaf)
    decreases a, 1
  {
    if a != [] {
      DecodeAlike(orbit, a[0], b[0], path, leaf);
      forall i | 0 <= i < |a[1..]|
        ensures !NamesTwice(orbit, a[1..][i]) && !NamesTwice(orbit, b[1..][i]) && Alike(Decoded(a[1..][i]), Decoded(b[1..][i]))
      {
        assert a[1..][i] == a[i + 1] && b[1..][i] == b[i + 1];
      }
      ElemsAlike(orbit, a[1..], b[1..], path, leaf);
    }
  }
}
