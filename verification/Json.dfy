/**
 * JSON as text order gives it, and as a map decoder keeps it (encoding/json).
 * Section 4 of RFC 8259 leaves repeated names in one object to the reader: the
 * map decoder keeps the last copy of each exact spelling.
 */
module Json {
  datatype Member = Member(key: string, value: Json)

  datatype Json =
    | Null
    | Bool(b: bool)
    | Number(text: string)
    | Str(s: string)
    | Array(elems: seq<Json>)
    | Object(members: seq<Member>)

  /** A value decoded without a type: objects are maps. */
  datatype Value =
    | VNull
    | VBool(b: bool)
    | VNumber(text: string)
    | VStr(s: string)
    | VList(elems: seq<Value>)
    | VMap(fields: map<string, Value>)

  function Decoded(j: Json): Value {
    match j
    case Null => VNull
    case Bool(b) => VBool(b)
    case Number(t) => VNumber(t)
    case Str(s) => VStr(s)
    case Array(elems) => VList(seq(|elems|, i requires 0 <= i < |elems| => Decoded(elems[i])))
    case Object(members) => VMap(LastCopies(members))
  }

  function LastCopies(members: seq<Member>): map<string, Value> {
    if members == [] then map[]
    else
      var n := |members| - 1;
      LastCopies(members[..n])[members[n].key := Decoded(members[n].value)]
  }

  ghost predicate HasKey(members: seq<Member>, key: string) {
    exists i :: 0 <= i < |members| && members[i].key == key
  }

  lemma {:induction false} KeysOfLastCopies(members: seq<Member>, key: string)
    ensures key in LastCopies(members) <==> HasKey(members, key)
  {
    if members != [] {
      var n := |members| - 1;
      KeysOfLastCopies(members[..n], key);
      if HasKey(members[..n], key) {
        var i :| 0 <= i < n && members[..n][i].key == key;
        assert members[i].key == key;
      }
      if HasKey(members, key) && key != members[n].key {
        var i :| 0 <= i < |members| && members[i].key == key;
        assert members[..n][i].key == key;
      }
    }
  }

  /** A member no later member repeats is the one the map keeps. */
  lemma {:induction false} LastCopyIsKept(members: seq<Member>, i: nat)
    requires i < |members|
    requires forall j :: i < j < |members| ==> members[j].key != members[i].key
    ensures members[i].key in LastCopies(members)
    ensures LastCopies(members)[members[i].key] == Decoded(members[i].value)
  {
    var n := |members| - 1;
    if i < n {
      LastCopyIsKept(members[..n], i);
    }
  }
}
