/**
 * Why the ambiguity check is there: two readers of one body must see the same
 * values. The policy reads a decoded map, under any spelling of a key
 * (pkg/authz/allowlist.go, pathValues and valuesAt); the handler decodes the
 * same text into a struct, in text order, under encoding/json's rules.
 */
module Readers {
  import opened Wrappers
  import opened Json
  import opened Folding
  import opened Ambiguous

  /** One step of an argument path: a key, and whether it goes through every element of its list. */
  datatype Segment = Segment(name: string, each: bool)

  /** The type of the struct field at the end of a path. */
  datatype Leaf = OneString | ManyStrings

  // ------------------------------------------------------ the policy's reader

  function Text(v: Value): set<string> {
    if v.VStr? && v.s != "" then {v.s} else {}
  }

  /** The non-empty strings the arguments carry at a path (valuesAt, unsorted). */
  ghost function PathValues(orbit: Orbits, v: Value, path: seq<Segment>): set<string>
    decreases |path|, 0
  {
    if path == [] then
      match v
      case VStr(s) => Text(v)
      case VList(elems) => set i, x | 0 <= i < |elems| && x in Text(elems[i]) :: x
      case _ => {}
    else if v.VMap? then
      set k, x | k in v.fields && EqualFold(orbit, k, path[0].name) && x in FieldValues(orbit, v.fields[k], path) :: x
    else {}
  }

  /** What the field named by the first step of a path holds, read further along it. */
  ghost function FieldValues(orbit: Orbits, v: Value, path: seq<Segment>): set<string>
    requires path != []
    decreases |path|, -1
  {
    if !path[0].each then PathValues(orbit, v, path[1..])
    else if v.VList? then set i, x | 0 <= i < |v.elems| && x in PathValues(orbit, v.elems[i], path[1..]) :: x
    else {}
  }

  // ------------------------------------------------------ the struct decoder

  /**
   * What the struct holds at a path after decoding j over held, in list form;
   * None when j's type is not the field's, which fails the whole decode. A null
   * leaves a string or a struct as it was, and makes a list nil.
   */
  ghost function Decode(orbit: Orbits, j: Json, path: seq<Segment>, leaf: Leaf, held: seq<string>): Option<seq<string>>
    decreases j, 0
  {
    if path == [] then
      match leaf
      case OneString => if j.Str? then Some([j.s]) else if j.Null? then Some(held) else None
      case ManyStrings => if j.Array? then Strings(j.elems) else if j.Null? then Some([]) else None
    else
      match j
      case Object(members) => DecodeMembers(orbit, members, path, leaf, held)
      case Null => Some(held)
      case _ => None
  }

  /** The members of an object in text order; keys of other fields are passed over. */
  ghost function DecodeMembers(orbit: Orbits, members: seq<Member>, path: seq<Segment>, leaf: Leaf, held: seq<string>)
    : Option<seq<string>>
    requires path != []
    decreases members, 1
  {
    if members == [] then Some(held)
    else if !EqualFold(orbit, members[0].key, path[0].name) then DecodeMembers(orbit, members[1..], path, leaf, held)
    else
      match DecodeField(orbit, members[0].value, path, leaf, held)
      case None => None
      case Some(now) => DecodeMembers(orbit, members[1..], path, leaf, now)
  }

  ghost function DecodeField(orbit: Orbits, j: Json, path: seq<Segment>, leaf: Leaf, held: seq<string>)
    : Option<seq<string>>
    requires path != []
    decreases j, 2
  {
    if !path[0].each then Decode(orbit, j, path[1..], leaf, held)
    else if j.Array? then DecodeElems(orbit, j.elems, path[1..], leaf)
    else if j.Null? then Some([])
    else None
  }

  ghost function DecodeElems(orbit: Orbits, elems: seq<Json>, path: seq<Segment>, leaf: Leaf): Option<seq<string>>
    decreases elems, 1
  {
    if elems == [] then Some([])
    else
      match (Decode(orbit, elems[0], path, leaf, []), DecodeElems(orbit, elems[1..], path, leaf))
      case (Some(a), Some(b)) => Some(a + b)
      case _ => None
  }

  /** A list of strings; a null element is an empty string. */
  function Strings(elems: seq<Json>): Option<seq<string>> {
    if elems == [] then Some([])
    else
      match (elems[0], Strings(elems[1..]))
      case (Str(s), Some(rest)) => Some([s] + rest)
      case (Null, Some(rest)) => Some([""] + rest)
      case _ => None
  }

  function NonEmpty(values: seq<string>): set<string> {
    (set v | v in values) - {""}
  }

  // ----------------------------------------------------------------- agreement

  /**
   * A body the check passes means one thing: at every field path, whatever its
   * depth, the struct the handler decodes holds exactly the strings the policy
   * reads.
   */
  lemma {:induction false} ReadersAgree(orbit: Orbits, j: Json, path: seq<Segment>, leaf: Leaf)
    requires IsOrbits(orbit) && !NamesTwice(orbit, j)
    requires Decode(orbit, j, path, leaf, []).Some?
    ensures NonEmpty(Decode(orbit, j, path, leaf, []).value) == PathValues(orbit, Decoded(j), path)
    decreases j, 0
  {
    if path == [] {
      if j.Array? {
        StringsAgree(j.elems);
        assert forall i :: 0 <= i < |j.elems| ==> Decoded(j).elems[i] == Decoded(j.elems[i]);
        assert forall x :: x in PathValues(orbit, Decoded(j), path) <==>
                             exists i :: 0 <= i < |j.elems| && x in Text(Decoded(j.elems[i]));
      }
    } else if j.Object? {
      MembersAgree(orbit, j.members, path, leaf);
    }
  }

  lemma {:induction false} StringsAgree(elems: seq<Json>)
    requires Strings(elems).Some?
    ensures forall x :: x in NonEmpty(Strings(elems).value) <==>
              exists i :: 0 <= i < |elems| && x in Text(Decoded(elems[i]))
  {
    if elems != [] {
      var rest := elems[1..];
      StringsAgree(rest);
      forall x ensures x in NonEmpty(Strings(elems).value) <==>
                       exists i :: 0 <= i < |elems| && x in Text(Decoded(elems[i]))
      {
        assert x in NonEmpty(Strings(elems).value) <==>
               x in Text(Decoded(elems[0])) || x in NonEmpty(Strings(rest).value);
        if x in NonEmpty(Strings(rest).value) {
          var i :| 0 <= i < |rest| && x in Text(Decoded(rest[i]));
          assert elems[i + 1] == rest[i];
        }
        if i :| 0 <= i < |elems| && x in Text(Decoded(elems[i])) {
          assert i == 0 || elems[i] == rest[i - 1];
        }
      }
    }
  }

  ghost predicate FoldDistinct(orbit: Orbits, members: seq<Member>) {
    forall i, k :: 0 <= i < k < |members| ==> !EqualFold(orbit, members[i].key, members[k].key)
  }

  /** With no two keys equal under folding, one member at most is the field's. */
  lemma {:induction false} OneMemberDecides(orbit: Orbits, members: seq<Member>, path: seq<Segment>, leaf: Leaf,
                                            held: seq<string>, i: nat)
    requires IsOrbits(orbit) && FoldDistinct(orbit, members) && path != []
    requires i < |members| && EqualFold(orbit, members[i].key, path[0].name)
    ensures DecodeMembers(orbit, members, path, leaf, held) == DecodeField(orbit, members[i].value, path, leaf, held)
  {
    var rest := members[1..];
    forall a, b | 0 <= a < b < |rest| ensures !EqualFold(orbit, rest[a].key, rest[b].key) {
      assert rest[a] == members[a + 1] && rest[b] == members[b + 1];
    }
    if i == 0 {
      forall k | 0 <= k < |rest| ensures !EqualFold(orbit, rest[k].key, path[0].name) {
        assert rest[k] == members[k + 1];
        EqualFoldIsEquivalence(orbit, rest[k].key, path[0].name, members[0].key);
        EqualFoldIsEquivalence(orbit, members[0].key, path[0].name, rest[k].key);
        EqualFoldIsEquivalence(orbit, path[0].name, rest[k].key, path[0].name);
      }
      var now := DecodeField(orbit, members[0].value, path, leaf, held);
      if now.Some? {
        NoMemberDecides(orbit, rest, path, leaf, now.value);
      }
    } else {
      EqualFoldIsEquivalence(orbit, members[0].key, path[0].name, members[i].key);
      EqualFoldIsEquivalence(orbit, members[i].key, path[0].name, members[0].key);
      OneMemberDecides(orbit, rest, path, leaf, held, i - 1);
    }
  }

  lemma {:induction false} NoMemberDecides(orbit: Orbits, members: seq<Member>, path: seq<Segment>, leaf: Leaf,
                                           held: seq<string>)
    requires path != []
    requires forall k :: 0 <= k < |members| ==> !EqualFold(orbit, members[k].key, path[0].name)
    ensures DecodeMembers(orbit, members, path, leaf, held) == Some(held)
  {
    if members != [] {
      forall k | 0 <= k < |members[1..]| ensures !EqualFold(orbit, members[1..][k].key, path[0].name) {
        assert members[1..][k] == members[k + 1];
      }
      NoMemberDecides(orbit, members[1..], path, leaf, held);
    }
  }

  /** The map keeps each member of such an object, whatever order it is read in. */
  lemma MapOfFoldDistinct(orbit: Orbits, members: seq<Member>)
    requires IsOrbits(orbit) && FoldDistinct(orbit, members)
    ensures forall k :: k in LastCopies(members) <==> HasKey(members, k)
    ensures forall i :: 0 <= i < |members| ==>
              members[i].key in LastCopies(members) && LastCopies(members)[members[i].key] == Decoded(members[i].value)
  {
    forall k ensures k in LastCopies(members) <==> HasKey(members, k) {
      KeysOfLastCopies(members, k);
    }
    forall i | 0 <= i < |members|
      ensures members[i].key in LastCopies(members) && LastCopies(members)[members[i].key] == Decoded(members[i].value)
    {
      forall k | i < k < |members| ensures members[k].key != members[i].key {
        EqualFoldIsEquivalence(orbit, members[i].key, members[k].key, members[i].key);
      }
      LastCopyIsKept(members, i);
    }
  }

  lemma {:induction false} MembersAgree(orbit: Orbits, members: seq<Member>, path: seq<Segment>, leaf: Leaf)
    requires IsOrbits(orbit) && !NamesTwice(orbit, Object(members)) && path != []
    requires DecodeMembers(orbit, members, path, leaf, []).Some?
    ensures NonEmpty(DecodeMembers(orbit, members, path, leaf, []).value) ==
            PathValues(orbit, VMap(LastCopies(members)), path)
    decreases members, 1
  {
    if i :| 0 <= i < |members| && EqualFold(orbit, members[i].key, path[0].name) {
      OneMemberDecides(orbit, members, path, leaf, [], i);
      FieldAgrees(orbit, members[i].value, path, leaf);
      assert PathValues(orbit, VMap(LastCopies(members)), path)
          == FieldValues(orbit, Decoded(members[i].value), path) by {
        MapOfFoldDistinct(orbit, members);
        var fields := LastCopies(members);
        forall k | k in fields && EqualFold(orbit, k, path[0].name) ensures k == members[i].key {
          var n :| 0 <= n < |members| && members[n].key == k;
          EqualFoldIsEquivalence(orbit, k, path[0].name, members[i].key);
          EqualFoldIsEquivalence(orbit, members[i].key, path[0].name, k);
        }
      }
    } else {
      NoMemberDecides(orbit, members, path, leaf, []);
      assert PathValues(orbit, VMap(LastCopies(members)), path) == {} by {
        MapOfFoldDistinct(orbit, members);
        forall k | k in LastCopies(members) ensures !EqualFold(orbit, k, path[0].name) {
          var n :| 0 <= n < |members| && members[n].key == k;
        }
      }
    }
  }

  lemma {:induction false} FieldAgrees(orbit: Orbits, j: Json, path: seq<Segment>, leaf: Leaf)
    requires IsOrbits(orbit) && !NamesTwice(orbit, j) && path != []
    requires DecodeField(orbit, j, path, leaf, []).Some?
    ensures NonEmpty(DecodeField(orbit, j, path, leaf, []).value) == FieldValues(orbit, Decoded(j), path)
    decreases j, 2
  {
    if !path[0].each {
      ReadersAgree(orbit, j, path[1..], leaf);
    } else if j.Array? {
      ElemsAgree(orbit, j.elems, path[1..], leaf);
      assert forall i :: 0 <= i < |j.elems| ==> Decoded(j).elems[i] == Decoded(j.elems[i]);
      assert forall x :: x in FieldValues(orbit, Decoded(j), path) <==>
                           exists i :: 0 <= i < |j.elems| && x in PathValues(orbit, Decoded(j.elems[i]), path[1..]);
    }
  }

  lemma {:induction false} ElemsAgree(orbit: Orbits, elems: seq<Json>, path: seq<Segment>, leaf: Leaf)
    requires IsOrbits(orbit) && forall i :: 0 <= i < |elems| ==> !NamesTwice(orbit, elems[i])
    requires DecodeElems(orbit, elems, path, leaf).Some?
    ensures forall x :: x in NonEmpty(DecodeElems(orbit, elems, path, leaf).value) <==>
              exists i :: 0 <= i < |elems| && x in PathValues(orbit, Decoded(elems[i]), path)
    decreases elems, 1
  {
    if elems != [] {
      var rest := elems[1..];
      forall i | 0 <= i < |rest| ensures !NamesTwice(orbit, rest[i]) {
        assert rest[i] == elems[i + 1];
      }
      ReadersAgree(orbit, elems[0], path, leaf);
      ElemsAgree(orbit, rest, path, leaf);
      var a, b := Decode(orbit, elems[0], path, leaf, []).value, DecodeElems(orbit, rest, path, leaf).value;
      forall x ensures x in NonEmpty(a + b) <==>
                       exists i :: 0 <= i < |elems| && x in PathValues(orbit, Decoded(elems[i]), path)
      {
        assert x in NonEmpty(a + b) <==> x in NonEmpty(a) || x in NonEmpty(b);
        if x in NonEmpty(b) {
          var i :| 0 <= i < |rest| && x in PathValues(orbit, Decoded(rest[i]), path);
          assert elems[i + 1] == rest[i];
        }
        if i :| 0 <= i < |elems| && x in PathValues(orbit, Decoded(elems[i]), path) {
          assert i == 0 || elems[i] == rest[i - 1];
        }
      }
    }
  }

  /**
   * And nothing weaker would do: for any two keys equal under folding, the same
   * spelling twice or two spellings, there are values for which an object
   * holding both reads one way to the policy and another to the handler.
   */
  lemma TwoCopiesCanDisagree(orbit: Orbits, a: string, b: string)
    requires IsOrbits(orbit) && EqualFold(orbit, a, b)
    ensures exists x, y ::
              var body := Object([Member(a, x), Member(b, y)]);
              var path := [Segment(a, false)];
              Decode(orbit, body, path, OneString, []).Some? &&
              NonEmpty(Decode(orbit, body, path, OneString, []).value) != PathValues(orbit, Decoded(body), path)
  {
    var path := [Segment(a, false)];
    var x, y := Str("s"), if a == b then Null else Str("t");
    var members := [Member(a, x), Member(b, y)];
    EqualFoldIsEquivalence(orbit, a, b, a);
    assert path[1..] == [];
    assert members[1..] == [Member(b, y)] && members[1..][1..] == [];
    var held := if a == b then ["s"] else ["t"];
    assert DecodeMembers(orbit, members[1..][1..], path, OneString, held) == Some(held);
    assert DecodeMembers(orbit, members[1..], path, OneString, ["s"]) == Some(held);
    assert DecodeField(orbit, members[0].value, path, OneString, []) == Some(["s"]);
    assert DecodeMembers(orbit, members, path, OneString, []) == Some(held);
    assert Decode(orbit, Object(members), path, OneString, []) == Some(held);
    LastCopyIsKept(members, 1);
    var fields := LastCopies(members);
    if a == b {
      forall k ensures k in fields ==> k == a {
        KeysOfLastCopies(members, k);
      }
      assert FieldValues(orbit, fields[a], path) == {};
      assert "s" in NonEmpty(held) && "s" !in PathValues(orbit, VMap(fields), path);
    } else {
      LastCopyIsKept(members, 0);
      assert "s" in FieldValues(orbit, fields[a], path);
      assert "s" in PathValues(orbit, Decoded(Object(members)), path) && "s" !in NonEmpty(held);
    }
    assert NonEmpty(held) != PathValues(orbit, Decoded(Object([Member(a, x), Member(b, y)])), path);
  }
}
