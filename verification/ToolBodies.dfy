/**
 * Tool arguments as they travel (pkg/authz/allowlist.go): decoded into maps and
 * float64 numbers to be inspected, and encoded again when a gate was set.
 */
module ToolBodies {
  import opened Wrappers
  import Texts
  import opened Json
  import opened Folding
  import opened Authz
  import opened Ambiguous
  import opened Readers
  import opened Encoding
  import opened ToolArgs

  // ------------------------------------------------------------------ numbers

  /**
   * What a number's text becomes when it is read into a float64 and written
   * again; None when it is out of range, which fails the decoding.
   */
  type Floats = string -> Option<string>

  /** A number that was written from a float64 is read as that float64. */
  ghost predicate Settles(num: Floats) {
    forall n :: num(n).Some? ==> num(num(n).value) == num(n)
  }

  /** Every number in v can be read. */
  predicate InRange(num: Floats, v: Value) {
    match v
    case VNumber(n) => num(n).Some?
    case VList(elems) => forall i :: 0 <= i < |elems| ==> InRange(num, elems[i])
    case VMap(fields) => forall k :: k in fields ==> InRange(num, fields[k])
    case _ => true
  }

  /** v with every number as its float64 is written. */
  function Rounded(num: Floats, v: Value): Value
    requires InRange(num, v)
  {
    match v
    case VNumber(n) => VNumber(num(n).value)
    case VList(elems) => VList(seq(|elems|, i requires 0 <= i < |elems| => Rounded(num, elems[i])))
    case VMap(fields) => VMap(map k | k in fields :: Rounded(num, fields[k]))
    case _ => v
  }

  /** Every number in v comes back as it was. */
  predicate Exact(num: Floats, v: Value) {
    match v
    case VNumber(n) => num(n) == Some(n)
    case VList(elems) => forall i :: 0 <= i < |elems| ==> Exact(num, elems[i])
    case VMap(fields) => forall k :: k in fields ==> Exact(num, fields[k])
    case _ => true
  }

  /** A value comes back as it was exactly when all its numbers do. */
  lemma {:induction false} RoundedIsExact(num: Floats, v: Value)
    requires InRange(num, v)
    ensures Rounded(num, v) == v <==> Exact(num, v)
    decreases v
  {
    match v
    case VList(elems) =>
      forall i | 0 <= i < |elems| ensures Rounded(num, elems[i]) == elems[i] <==> Exact(num, elems[i]) {
        RoundedIsExact(num, elems[i]);
      }
      var out := Rounded(num, v).elems;
      assert |out| == |elems| && forall i :: 0 <= i < |elems| ==> out[i] == Rounded(num, elems[i]);
      if Exact(num, v) {
        assert out == elems;
      }
    case VMap(fields) =>
      forall k | k in fields ensures Rounded(num, fields[k]) == fields[k] <==> Exact(num, fields[k]) {
        RoundedIsExact(num, fields[k]);
      }
      var out := Rounded(num, v).fields;
      assert out.Keys == fields.Keys && forall k :: k in fields ==> out[k] == Rounded(num, fields[k]);
      if Exact(num, v) {
        assert out == fields;
      }
    case _ =>
  }

  lemma {:induction false} RoundedSettles(num: Floats, v: Value)
    requires Settles(num) && InRange(num, v)
    ensures InRange(num, Rounded(num, v)) && Exact(num, Rounded(num, v))
    decreases v
  {
    match v
    case VList(elems) =>
      forall i | 0 <= i < |elems|
        ensures InRange(num, Rounded(num, elems[i])) && Exact(num, Rounded(num, elems[i]))
      {
        RoundedSettles(num, elems[i]);
      }
    case VMap(fields) =>
      forall k | k in fields
        ensures InRange(num, Rounded(num, fields[k])) && Exact(num, Rounded(num, fields[k]))
      {
        RoundedSettles(num, fields[k]);
      }
    case _ =>
  }

  // ------------------------------------------------------------------ the body

  /** A tool's arguments as they arrive: nothing but white space, no JSON, or a JSON value. */
  datatype Body = Blank | Malformed(text: string) | Parsed(tree: Json)

  /** Every number of a body can be read, those of copies that the map drops as well. */
  predicate Readable(num: Floats, j: Json) {
    match j
    case Number(n) => num(n).Some?
    case Array(elems) => forall i :: 0 <= i < |elems| ==> Readable(num, elems[i])
    case Object(members) => forall i :: 0 <= i < |members| ==> Readable(num, members[i].value)
    case _ => true
  }

  lemma {:induction false} ReadableIsInRange(num: Floats, j: Json)
    requires Readable(num, j)
    ensures InRange(num, Decoded(j))
  {
    match j
    case Array(elems) =>
      forall i | 0 <= i < |elems| ensures InRange(num, Decoded(j).elems[i]) {
        ReadableIsInRange(num, elems[i]);
      }
    case Object(members) => ReadableMembers(num, members);
    case _ =>
  }

  lemma {:induction false} ReadableMembers(num: Floats, members: seq<Member>)
    requires Readable(num, Object(members))
    ensures AllInRange(num, LastCopies(members))
  {
    if members != [] {
      var n := |members| - 1;
      ReadableMembers(num, members[..n]);
      ReadableIsInRange(num, members[n].value);
    }
  }

  predicate AllInRange(num: Floats, args: Args) {
    forall k :: k in args ==> InRange(num, args[k])
  }

  function RoundedArgs(num: Floats, args: Args): Args
    requires AllInRange(num, args)
  {
    map k | k in args :: Rounded(num, args[k])
  }

  /** The arguments a body names, with their numbers as they are written. */
  function ArgsOf(body: Body): Args {
    if body.Parsed? && body.tree.Object? then LastCopies(body.tree.members) else map[]
  }

  /** argsObject succeeds: a blank body is an empty object; anything but an object fails, and so does a number out of range. */
  predicate Inspectable(num: Floats, body: Body) {
    body.Blank? || (body.Parsed? && body.tree.Object? && Readable(num, body.tree))
  }

  /** argsObject: the arguments as they are inspected. */
  function Inspected(num: Floats, body: Body): Option<Args> {
    if Inspectable(num, body) then
      if body.Parsed? then ReadableMembers(num, body.tree.members); Some(RoundedArgs(num, ArgsOf(body)))
      else Some(map[])
    else None
  }

  /** ConfineToolArgs leaves this body alone. */
  predicate LeftAlone(num: Floats, scope: Scope, rule: Option<ToolRule>, body: Body) {
    Unconfined(scope) || rule.None? || rule.value.gates == map[] || !Inspectable(num, body)
  }

  /** What ConfineToolArgs hands the tool: what was sent, or the inspected arguments with the gates set, encoded again. */
  function Handed(t: Tables, num: Floats, scope: Scope, rule: Option<ToolRule>, sent: Body): Body {
    if LeftAlone(num, scope, rule, sent) then sent
    else Parsed(Encoded(VMap(Confined(t, scope, rule, Inspected(num, sent).value))))
  }

  method HandToTool(t: Tables, num: Floats, scope: Scope, rule: Option<ToolRule>, sent: Body) returns (out: Body)
    ensures out == Handed(t, num, scope, rule, sent)
  {
    if Unconfined(scope) || rule.None? || rule.value.gates == map[] {
      return sent;
    }
    var obj := Inspected(num, sent);
    if obj.None? {
      return sent;
    }
    var args := ConfineToolArgs(t, scope, rule, obj.value);
    out := Parsed(Encoded(VMap(args)));
  }

  /** What the encoded body names is what was confined. */
  lemma HandedArgs(t: Tables, num: Floats, scope: Scope, rule: Option<ToolRule>, sent: Body)
    requires !LeftAlone(num, scope, rule, sent)
    ensures ArgsOf(Handed(t, num, scope, rule, sent)) == Confined(t, scope, rule, Inspected(num, sent).value)
  {
    DecodedOfEncoded(VMap(Confined(t, scope, rule, Inspected(num, sent).value)));
  }

  /**
   * Whose body comes back as it was: that of a key that is not confined, or for
   * a tool without gates, and one that is no object or has a number out of range.
   */
  lemma HandedUnchanged(t: Tables, num: Floats, scope: Scope, rule: Option<ToolRule>, sent: Body)
    requires
      || (forall f :: Named(scope, f) == {})
      || rule.None? || rule.value.gates == map[]
      || sent.Malformed? || (sent.Parsed? && !(sent.tree.Object? && Readable(num, sent.tree)))
    ensures Handed(t, num, scope, rule, sent) == sent
  {
  }

  /**
   * Any other body, a blank one included, comes back as an object in which the
   * gate of every confined field is true, and under its one spelling.
   */
  lemma HandedGatesAreOn(t: Tables, num: Floats, scope: Scope, r: ToolRule, sent: Body, f: Field)
    requires IsOrbits(t.orbit) && GatesApart(t, r) && r.gates != map[] && Named(scope, f) != {}
    requires sent.Blank? || (sent.Parsed? && sent.tree.Object? && Readable(num, sent.tree))
    ensures var out, gate := Handed(t, num, scope, Some(r), sent), if f in r.gates then r.gates[f] else "";
            && out.Parsed? && out.tree.Object?
            && gate in ArgsOf(out) && ArgsOf(out)[gate] == VBool(true)
            && forall k :: k in ArgsOf(out) && EqualFold(t.orbit, k, gate) ==> k == gate
  {
    assert !LeftAlone(num, scope, Some(r), sent);
    HandedArgs(t, num, scope, Some(r), sent);
    GatesAreSet(t, r, Confinements(scope), Inspected(num, sent).value);
    assert f in Confinements(scope);
    assert OnlyGate(t, ArgsOf(Handed(t, num, scope, Some(r), sent)), GateOf(r, f));
  }

  /** What a gated tool gets for an argument that is no spelling of a gate. */
  lemma HandedArgument(t: Tables, num: Floats, scope: Scope, r: ToolRule, sent: Body, k: string)
    requires IsOrbits(t.orbit) && GatesApart(t, r) && !LeftAlone(num, scope, Some(r), sent)
    requires forall f :: Named(scope, f) != {} ==> !EqualFold(t.orbit, k, GateOf(r, f))
    ensures var args, out := ArgsOf(sent), ArgsOf(Handed(t, num, scope, Some(r), sent));
            (k in out <==> k in args) && (k in args ==> InRange(num, args[k]) && out[k] == Rounded(num, args[k]))
  {
    HandedArgs(t, num, scope, Some(r), sent);
    ConfiningSetsGatesOnly(t, scope, r, Inspected(num, sent).value);
    if sent.Parsed? {
      ReadableMembers(num, sent.tree.members);
    }
  }

  /**
   * Setting gates re-encodes the whole body, so an argument that is no spelling
   * of a gate reaches the tool as it was sent, in its last copy, exactly when
   * every number in it comes back from float64 as it was.
   */
  lemma HandedKeepsExactNumbers(t: Tables, num: Floats, scope: Scope, r: ToolRule, sent: Body, k: string)
    requires IsOrbits(t.orbit) && GatesApart(t, r) && !LeftAlone(num, scope, Some(r), sent)
    requires forall f :: Named(scope, f) != {} ==> !EqualFold(t.orbit, k, GateOf(r, f))
    ensures var args, out := ArgsOf(sent), ArgsOf(Handed(t, num, scope, Some(r), sent));
            (k in out <==> k in args) && (k in args ==> (out[k] == args[k] <==> Exact(num, args[k])))
  {
    HandedArgument(t, num, scope, r, sent, k);
    if k in ArgsOf(sent) {
      RoundedIsExact(num, ArgsOf(sent)[k]);
    }
  }

  /** 2^53 + 1 has no float64: sent to a gated tool by a confined key, it arrives as 2^53. */
  lemma ALargeNumberChanges(t: Tables, num: Floats, scope: Scope, r: ToolRule, k: string)
    requires IsOrbits(t.orbit) && GatesApart(t, r) && r.gates != map[] && !Unconfined(scope)
    requires forall f :: Named(scope, f) != {} ==> !EqualFold(t.orbit, k, GateOf(r, f))
    requires num("9007199254740993") == Some("9007199254740992")
    ensures var out := ArgsOf(Handed(t, num, scope, Some(r), Parsed(Object([Member(k, Number("9007199254740993"))]))));
            k in out && out[k] == VNumber("9007199254740992")
  {
    ANumberIsRounded(t, num, scope, r, k, "9007199254740993");
  }

  lemma ANumberIsRounded(t: Tables, num: Floats, scope: Scope, r: ToolRule, k: string, n: string)
    requires IsOrbits(t.orbit) && GatesApart(t, r) && r.gates != map[] && !Unconfined(scope)
    requires forall f :: Named(scope, f) != {} ==> !EqualFold(t.orbit, k, GateOf(r, f))
    requires num(n).Some?
    ensures var out := ArgsOf(Handed(t, num, scope, Some(r), Parsed(Object([Member(k, Number(n))]))));
            k in out && out[k] == VNumber(num(n).value)
  {
    var sent := Parsed(Object([Member(k, Number(n))]));
    OneNumber(num, k, n);
    assert !LeftAlone(num, scope, Some(r), sent);
    HandedArgument(t, num, scope, r, sent, k);
  }

  lemma OneNumber(num: Floats, k: string, n: string)
    requires num(n).Some?
    ensures var sent := Parsed(Object([Member(k, Number(n))])); Inspectable(num, sent) && ArgsOf(sent) == map[k := VNumber(n)]
  {
    var members := [Member(k, Number(n))];
    assert members[..0] == [] && members[0].value == Number(n);
    assert LastCopies(members) == map[k := Decoded(members[0].value)];
  }

  // ------------------------------------------------------ copies and spellings

  /**
   * Encoding keeps one copy of a spelling, at every depth, so a body with more
   * is not handed on as it was sent.
   */
  lemma HandedSpellsOnce(t: Tables, num: Floats, scope: Scope, rule: Option<ToolRule>, sent: Body)
    requires !LeftAlone(num, scope, rule, sent)
    ensures var out := Handed(t, num, scope, rule, sent);
            out.Parsed? && out.tree.Object? && SpellsOnce(out.tree)
            && (sent.Parsed? && !SpellsOnce(sent.tree) ==> out != sent)
  {
    EncodedSpellsOnce(VMap(Confined(t, scope, rule, Inspected(num, sent).value)));
  }

  lemma {:induction false} RoundedIsAlike(num: Floats, v: Value)
    requires InRange(num, v)
    ensures Alike(v, Rounded(num, v))
  {
    match v
    case VList(elems) =>
      forall i | 0 <= i < |elems| ensures Alike(elems[i], Rounded(num, v).elems[i]) {
        RoundedIsAlike(num, elems[i]);
      }
    case VMap(fields) =>
      forall k | k in fields ensures Alike(fields[k], Rounded(num, v).fields[k]) {
        RoundedIsAlike(num, fields[k]);
      }
    case _ =>
  }

  lemma {:induction false} RoundedIsApart(orbit: Orbits, num: Floats, v: Value)
    requires InRange(num, v) && Apart(orbit, v)
    ensures Apart(orbit, Rounded(num, v))
  {
    match v
    case VList(elems) =>
      forall i | 0 <= i < |elems| ensures Apart(orbit, Rounded(num, v).elems[i]) {
        RoundedIsApart(orbit, num, elems[i]);
      }
    case VMap(fields) =>
      forall k | k in fields ensures Apart(orbit, Rounded(num, v).fields[k]) {
        RoundedIsApart(orbit, num, fields[k]);
      }
    case _ =>
  }

  lemma ConfinedIsApart(t: Tables, scope: Scope, r: ToolRule, obj: Args)
    requires IsOrbits(t.orbit) && GatesApart(t, r) && r.gates != map[] && Apart(t.orbit, VMap(obj))
    ensures Apart(t.orbit, VMap(Confined(t, scope, Some(r), obj)))
  {
    var fields := Confinements(scope);
    var out := SetGates(t, r, fields, obj);
    GatesAreSet(t, r, fields, obj);
    forall k, l | k in out && l in out && EqualFold(t.orbit, k, l) ensures k == l {
      KeyOfSetGates(t, r, fields, obj, k);
      KeyOfSetGates(t, r, fields, obj, l);
      EqualFoldIsEquivalence(t.orbit, k, l, k);
      if f :| f in fields && k == GateOf(r, f) {
        assert OnlyGate(t, out, GateOf(r, f));
      }
      if f :| f in fields && l == GateOf(r, f) {
        assert OnlyGate(t, out, GateOf(r, f));
      }
    }
    forall k | k in out ensures Apart(t.orbit, out[k]) {
      KeyOfSetGates(t, r, fields, obj, k);
    }
  }

  /** A body that names no field twice is handed on as one that names none twice. */
  lemma HandedNamesOnce(t: Tables, num: Floats, scope: Scope, r: ToolRule, sent: Body)
    requires IsOrbits(t.orbit) && GatesApart(t, r) && !LeftAlone(num, scope, Some(r), sent)
    requires sent.Parsed? ==> !NamesTwice(t.orbit, sent.tree)
    ensures var out := Handed(t, num, scope, Some(r), sent); out.Parsed? && !NamesTwice(t.orbit, out.tree)
  {
    var obj := Inspected(num, sent).value;
    if sent.Parsed? {
      DecodedIsApart(t.orbit, sent.tree);
      ReadableIsInRange(num, sent.tree);
      RoundedIsApart(t.orbit, num, Decoded(sent.tree));
      assert VMap(obj) == Rounded(num, Decoded(sent.tree));
    }
    ConfinedIsApart(t, scope, r, obj);
    EncodedNamesOnce(t.orbit, VMap(Confined(t, scope, Some(r), obj)));
  }

  /**
   * A body that passed CheckUnambiguous says the same to the handler before and
   * after: at every path that starts with no gate, the struct decoded from what
   * is handed on holds the strings it would have held, or neither body decodes.
   */
  lemma CheckedBodyReadsAlike(t: Tables, num: Floats, scope: Scope, r: ToolRule, sent: Body, path: seq<Segment>, leaf: Leaf)
    requires IsOrbits(t.orbit) && GatesApart(t, r) && !LeftAlone(num, scope, Some(r), sent)
    requires sent.Parsed? && !NamesTwice(t.orbit, sent.tree) && path != []
    requires forall f :: Named(scope, f) != {} ==> !EqualFold(t.orbit, path[0].name, GateOf(r, f))
    ensures Decode(t.orbit, Handed(t, num, scope, Some(r), sent).tree, path, leaf, []) == Decode(t.orbit, sent.tree, path, leaf, [])
  {
    var out := Handed(t, num, scope, Some(r), sent);
    HandedNamesOnce(t, num, scope, r, sent);
    forall k | EqualFold(t.orbit, k, path[0].name)
      ensures k in ArgsOf(out) <==> k in ArgsOf(sent)
      ensures k in ArgsOf(sent) ==> Alike(ArgsOf(sent)[k], ArgsOf(out)[k])
    {
      forall f | Named(scope, f) != {} ensures !EqualFold(t.orbit, k, GateOf(r, f)) {
        EqualFoldIsEquivalence(t.orbit, path[0].name, k, GateOf(r, f));
        EqualFoldIsEquivalence(t.orbit, k, path[0].name, k);
      }
      HandedArgument(t, num, scope, r, sent, k);
      if k in ArgsOf(sent) {
        RoundedIsAlike(num, ArgsOf(sent)[k]);
      }
    }
    MembersAlike(t.orbit, sent.tree.members, out.tree.members, path, leaf);
  }

  /** Any body is handed on as one that holds its last copies alone, and is then read as that one. */
  lemma LastCopiesAreHanded(t: Tables, num: Floats, scope: Scope, r: ToolRule, sent: Json, once: Json,
                            path: seq<Segment>, leaf: Leaf)
    requires IsOrbits(t.orbit) && GatesApart(t, r) && r.gates != map[] && !Unconfined(scope)
    requires sent.Object? && once.Object? && Readable(num, sent) && Readable(num, once)
    requires LastCopies(sent.members) == LastCopies(once.members) && !NamesTwice(t.orbit, once) && path != []
    requires forall f :: Named(scope, f) != {} ==> !EqualFold(t.orbit, path[0].name, GateOf(r, f))
    ensures var out := Handed(t, num, scope, Some(r), Parsed(sent));
            out.Parsed? && Decode(t.orbit, out.tree, path, leaf, []) == Decode(t.orbit, once, path, leaf, [])
  {
    CheckedBodyReadsAlike(t, num, scope, r, Parsed(once), path, leaf);
  }

  /**
   * One that did not pass may not: of two copies, the second null, the handler
   * would have kept the first's string; what is handed on has the null alone.
   */
  lemma ADroppedCopyChanges(t: Tables, num: Floats, scope: Scope, r: ToolRule, k: string)
    requires IsOrbits(t.orbit) && GatesApart(t, r) && r.gates != map[] && !Unconfined(scope)
    requires forall f :: Named(scope, f) != {} ==> !EqualFold(t.orbit, k, GateOf(r, f))
    ensures var sent := Parsed(Object([Member(k, Str("x")), Member(k, Null)]));
            var out := Handed(t, num, scope, Some(r), sent);
            && Decode(t.orbit, sent.tree, [Segment(k, false)], OneString, []) == Some(["x"])
            && out.Parsed? && Decode(t.orbit, out.tree, [Segment(k, false)], OneString, []) == Some([])
  {
    var sent, once := Object([Member(k, Str("x")), Member(k, Null)]), Object([Member(k, Null)]);
    EqualFoldIsEquivalence(t.orbit, k, k, k);
    LastOfTwo(Member(k, Str("x")), Member(k, Null));
    NullChanges(t.orbit, k);
    LastCopiesAreHanded(t, num, scope, r, sent, once, [Segment(k, false)], OneString);
  }

  lemma LastOfTwo(first: Member, second: Member)
    requires first.key == second.key
    ensures LastCopies([first, second]) == LastCopies([second]) == map[second.key := Decoded(second.value)]
  {
    var one, two := [second], [first, second];
    assert two[..1] == [first] && [first][..0] == [] && one[..0] == [];
    assert LastCopies([first]) == map[first.key := Decoded(first.value)];
  }

  lemma NullChanges(orbit: Orbits, k: string)
    requires EqualFold(orbit, k, k)
    ensures Decode(orbit, Object([Member(k, Null)]), [Segment(k, false)], OneString, []) == Some([])
    ensures Decode(orbit, Object([Member(k, Str("x")), Member(k, Null)]), [Segment(k, false)], OneString, []) == Some(["x"])
  {
    var one, two, path := [Member(k, Null)], [Member(k, Str("x")), Member(k, Null)], [Segment(k, false)];
    assert path[1..] == [] && one[1..] == [] && two[1..] == one;
    forall held ensures DecodeMembers(orbit, one, path, OneString, held) == Some(held) {
      assert DecodeField(orbit, Null, path, OneString, held) == Some(held);
      assert DecodeMembers(orbit, one[1..], path, OneString, held) == Some(held);
    }
    assert DecodeField(orbit, Str("x"), path, OneString, []) == Some(["x"]);
  }

  lemma {:induction false} EncodedIsReadable(num: Floats, v: Value)
    requires InRange(num, v)
    ensures Readable(num, Encoded(v))
  {
    match v
    case VList(elems) =>
      forall i | 0 <= i < |elems| ensures Readable(num, Encoded(v).elems[i]) {
        EncodedIsReadable(num, elems[i]);
      }
    case VMap(fields) =>
      EncodedMembers(fields);
      var keys := Texts.Ordered(fields.Keys);
      forall i | 0 <= i < |keys| ensures Readable(num, Encoded(v).members[i].value) {
        EncodedIsReadable(num, fields[keys[i]]);
      }
    case _ =>
  }

  /** Reading and writing these again changes nothing. */
  predicate AllSettled(num: Floats, args: Args) {
    AllInRange(num, args) && RoundedArgs(num, args) == args
  }

  lemma InspectedIsSettled(num: Floats, sent: Body)
    requires Settles(num) && Inspectable(num, sent)
    ensures AllSettled(num, Inspected(num, sent).value)
  {
    var obj := Inspected(num, sent).value;
    if sent.Parsed? {
      ReadableMembers(num, sent.tree.members);
    }
    forall k | k in obj ensures InRange(num, obj[k]) && Rounded(num, obj[k]) == obj[k] {
      RoundedSettles(num, ArgsOf(sent)[k]);
      RoundedIsExact(num, obj[k]);
    }
  }

  lemma GatesAreSettled(num: Floats, t: Tables, r: ToolRule, fields: seq<Field>, obj: Args)
    requires AllSettled(num, obj)
    ensures AllSettled(num, SetGates(t, r, fields, obj))
  {
    var out := SetGates(t, r, fields, obj);
    forall k | k in out ensures InRange(num, out[k]) && Rounded(num, out[k]) == out[k] {
      KeyOfSetGates(t, r, fields, obj, k);
      if k in obj && out[k] == obj[k] {
        assert RoundedArgs(num, obj)[k] == Rounded(num, obj[k]);
      }
    }
  }

  /** What was handed on is inspected as it stands: no number in it changes any more. */
  lemma HandedIsSettled(t: Tables, num: Floats, scope: Scope, rule: Option<ToolRule>, sent: Body)
    requires Settles(num) && !LeftAlone(num, scope, rule, sent)
    ensures Inspected(num, Handed(t, num, scope, rule, sent)) == Some(Confined(t, scope, rule, Inspected(num, sent).value))
  {
    var obj := Inspected(num, sent).value;
    InspectedIsSettled(num, sent);
    GatesAreSettled(num, t, rule.value, Confinements(scope), obj);
    EncodedIsReadable(num, VMap(Confined(t, scope, rule, obj)));
    HandedArgs(t, num, scope, rule, sent);
  }

  /** Handing on what was handed on changes nothing. */
  lemma HandingTwiceIsOnce(t: Tables, num: Floats, scope: Scope, rule: Option<ToolRule>, sent: Body)
    requires IsOrbits(t.orbit) && Settles(num) && (rule.Some? ==> GatesApart(t, rule.value))
    ensures Handed(t, num, scope, rule, Handed(t, num, scope, rule, sent)) == Handed(t, num, scope, rule, sent)
  {
    if !LeftAlone(num, scope, rule, sent) {
      HandedIsSettled(t, num, scope, rule, sent);
      ConfiningTwiceIsOnce(t, scope, rule, Inspected(num, sent).value);
    }
  }

  /** And a call that is accepted as sent is accepted as handed on. */
  lemma HandingRefusesNothing(t: Tables, num: Floats, scope: Scope, r: ToolRule, sent: Body, orders: Orders)
    requires IsOrbits(t.orbit) && Settles(num) && WellFormed(t, r)
    requires Accepts(t, scope, Some(r), Inspected(num, sent), Then(orders, ArgsOf(sent).Keys))
    requires CoverAll(orders, ArgsOf(Handed(t, num, scope, Some(r), sent)))
    ensures Accepts(t, scope, Some(r), Inspected(num, Handed(t, num, scope, Some(r), sent)), orders)
  {
    if !Unconfined(scope) {
      var obj := Inspected(num, sent).value;
      assert obj.Keys == ArgsOf(sent).Keys;
      if LeftAlone(num, scope, Some(r), sent) {
        assert CoverAll(orders, obj);
        SameFindings(t, r, obj, orders);
      } else {
        HandedArgs(t, num, scope, Some(r), sent);
        HandedIsSettled(t, num, scope, Some(r), sent);
        ConfiningRefusesNothing(t, scope, r, obj, orders);
      }
    }
  }

  // ---------------------------------------------------------- the check's worth

  /** A body that passed CheckUnambiguous has one verdict, whatever orders its keys are taken in. */
  lemma CheckedBodyHasOneVerdict(t: Tables, scope: Scope, rule: Option<ToolRule>, members: seq<Member>,
                                 a: Orders, b: Orders)
    requires IsOrbits(t.orbit) && !NamesTwice(t.orbit, Object(members))
    requires CoverAll(a, LastCopies(members)) && CoverAll(b, LastCopies(members))
    ensures Accepts(t, scope, rule, Some(LastCopies(members)), a) == Accepts(t, scope, rule, Some(LastCopies(members)), b)
  {
    var obj := LastCopies(members);
    MapOfFoldDistinct(t.orbit, members);
    forall k, l | k in obj && l in obj && EqualFold(t.orbit, k, l) ensures k == l {
      var i :| 0 <= i < |members| && members[i].key == k;
      var j :| 0 <= j < |members| && members[j].key == l;
      EqualFoldIsEquivalence(t.orbit, k, l, k);
    }
    UnambiguousVerdictIsOne(t, scope, rule, obj, a, b);
  }

  /** ASCII letters fold to their own case variants. */
  lemma AsciiFolds(orbit: Orbits, a: string, b: string)
    requires IsOrbits(orbit) && |a| == |b|
    requires forall i :: 0 <= i < |a| ==> a[i] < 128 as char && b[i] < 128 as char && UpperASCII(a[i]) == UpperASCII(b[i])
    ensures EqualFold(orbit, a, b)
  {
    forall i | 0 <= i < |a| ensures b[i] in orbit(a[i]) {
      assert UpperASCII(a[i]) in orbit(a[i]) && UpperASCII(b[i]) in orbit(b[i]) && b[i] in orbit(b[i]);
    }
  }

  /** The line of memory_get: one memory by its id, or several, not both. */
  function MemoryGet(): ToolRule {
    ToolRule([], {MemoryStore}, ["memory_ids"], ["memory_id"], map[], {}, ["memory_id", "memory_ids"], false, {})
  }

  lemma LoweredOne(t: Tables, names: seq<string>, name: string)
    requires forall p :: p in names <==> p == name
    requires t.lower(name) == name && !IsOpen(name)
    ensures (set p | p in names && !IsOpen(p) :: t.lower(p)) == {name} && (set p | p in names :: t.lower(p)) == {name}
    ensures forall p :: p in names ==> !IsOpen(p)
  {
    assert name in names;
  }

  lemma NoScopePaths(t: Tables, r: ToolRule, one: string, many: string)
    requires r.scope == [] && r.args == [many] && r.ids == [one] && r.gates == map[] && r.denied == {}
    requires t.lower(one) == one && t.lower(many) == many && !IsOpen(many) && !IsOpen(one)
    ensures ListsOf(t, r) == Lists({one, many}, {}, {})
  {
    var named := NamedPaths(r);
    assert named == [many];
    LoweredOne(t, named, many);
    LoweredOne(t, r.ids, one);
  }

  /** No map inside. */
  predicate Flat(v: Value) {
    match v
    case VList(elems) => forall i :: 0 <= i < |elems| ==> !elems[i].VMap? && !elems[i].VList?
    case VMap(_) => false
    case _ => true
  }

  /**
   * A body whose verdict depends on the order Go takes its keys in: memory_get
   * from a key confined to a user, with MEMORY_ID null, Memory_Id set, and
   * memory_ids. The first order accepts it, the second refuses it.
   */
  lemma OneBodyTwoVerdicts(t: Tables, scope: Scope) returns (r: ToolRule, body: Args, a: seq<string>, b: seq<string>)
    requires IsOrbits(t.orbit) && !Unconfined(scope) && Named(scope, Collection) == {}
    requires t.lower("MEMORY_ID") == "memory_id" && t.lower("Memory_Id") == "memory_id"
    requires t.lower("memory_id") == "memory_id" && t.lower("memory_ids") == "memory_ids"
    ensures r == MemoryGet()
    ensures body == map["MEMORY_ID" := VNull, "Memory_Id" := VStr("x"), "memory_ids" := VList([VStr("y")])]
    ensures a == ["MEMORY_ID", "Memory_Id", "memory_ids"] && b == ["Memory_Id", "MEMORY_ID", "memory_ids"]
    ensures Accepts(t, scope, Some(r), Some(body), Always(a)) && !Accepts(t, scope, Some(r), Some(body), Always(b))
  {
    var one, many, empty, given := "memory_id", "memory_ids", "MEMORY_ID", "Memory_Id";
    Spellings(t.orbit, one, many, empty, given);
    r := MemoryGet();
    NoScopePaths(t, r, one, many);
    body := SentTwice(one, many, empty, given);
    a, b := [empty, given, many], [given, empty, many];
    BodyVerdicts(t, scope, r, body, one, empty, given, many);
  }

  lemma SentTwice(one: string, many: string, empty: string, given: string) returns (body: Args)
    requires empty != given && empty != one && given != one && |many| > |one| == |empty| == |given|
    ensures body == map[empty := VNull, given := VStr("x"), many := VList([VStr("y")])]
    ensures body.Keys == {empty, given, many} && one !in body
    ensures body[empty] == VNull && body[given].VStr? && Flat(body[many]) && !body[many].VNull?
  {
    body := map[empty := VNull, given := VStr("x"), many := VList([VStr("y")])];
  }

  lemma Spellings(orbit: Orbits, one: string, many: string, empty: string, given: string)
    requires IsOrbits(orbit) && one == "memory_id" && many == "memory_ids" && empty == "MEMORY_ID" && given == "Memory_Id"
    ensures empty != given && empty != one && given != one && |many| > |one| == |empty| == |given|
    ensures EqualFold(orbit, empty, one) && EqualFold(orbit, given, one) && !IsOpen(one) && !IsOpen(many)
  {
    assert empty[1] == 'E' && given[1] == 'e' && one[0] == 'm' && empty[0] == 'M' && given[0] == 'M';
    assert many[|many| - 2..][0] == 'd' && one[|one| - 2..][0] == 'i';
    AsciiFolds(orbit, empty, one);
    AsciiFolds(orbit, given, one);
  }

  lemma BodyVerdicts(t: Tables, scope: Scope, r: ToolRule, body: Args, one: string, empty: string, given: string, many: string)
    requires !Unconfined(scope) && Named(scope, Collection) == {}
    requires r.scope == [] && r.stores == {MemoryStore} && r.oneOf == [one, many]
    requires ListsOf(t, r) == Lists({one, many}, {}, {})
    requires empty != given && empty != one && given != one && |many| != |one|
    requires EqualFold(t.orbit, empty, one) && EqualFold(t.orbit, given, one)
    requires t.lower(empty) == one && t.lower(given) == one && t.lower(many) == many
    requires body.Keys == {empty, given, many} && one !in body
    requires body[empty] == VNull && body[given].VStr? && Flat(body[many]) && !body[many].VNull?
    ensures Accepts(t, scope, Some(r), Some(body), Always([empty, given, many]))
    ensures !Accepts(t, scope, Some(r), Some(body), Always([given, empty, many]))
  {
    // One argument under two inexact spellings, the first of them null, and the other that may not go with it.
    assert
      && LookupKey(t, body, [empty, given, many], one).None? && LookupKey(t, body, [given, empty, many], one).Some?
      && (forall order :: LookupKey(t, body, order, many).Some?)
    by {
      assert [empty, given, many][0] == empty && [given, empty, many][0] == given;
    }
    assert PathsOk(t, r, ListsOf(t, r), "", VMap(body)) by {
      forall k | k in body ensures t.lower(k) in {one, many} && Flat(body[k]) {
        OneOfThree(body, k, empty, given, many);
      }
      FlatPathsOk(t, r, {one, many}, body);
    }
    assert ScopeOk(t, r, body, scope) by {
      forall f ensures FieldOkFor(t, r, body, scope, f) {
      }
    }
    OneOfTwo(t, r, body, [empty, given, many], one, many);
    OneOfTwo(t, r, body, [given, empty, many], one, many);
  }

  /** A body of listed arguments, none of which holds a map. */
  lemma FlatPathsOk(t: Tables, r: ToolRule, allowed: set<string>, body: Args)
    requires forall k | k in body :: t.lower(k) in allowed && Flat(body[k])
    ensures PathsOk(t, r, Lists(allowed, {}, {}), "", VMap(body))
  {
    var lists := Lists(allowed, {}, {});
    forall k | k in body ensures KeyOk(t, r, lists, ChildPath(t, "", k), body[k]) {
      assert PathsOk(t, r, lists, ChildPath(t, "", k), body[k]);
    }
  }

  lemma OneOfThree(body: Args, k: string, a: string, b: string, c: string)
    requires body.Keys == {a, b, c} && k in body
    ensures k == a || k == b || k == c
  {
    assert k in body.Keys;
  }

  lemma OneOfTwo(t: Tables, r: ToolRule, obj: Args, order: seq<string>, one: string, many: string)
    requires r.oneOf == [one, many]
    ensures OneOfOk(t, r, obj, Always(order)) <==> LookupKey(t, obj, order, one).None? || LookupKey(t, obj, order, many).None?
  {
    assert r.oneOf[0] == one && r.oneOf[1] == many;
  }
}
