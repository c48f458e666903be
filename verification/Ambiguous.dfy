/**
 * The check for bodies that name one field twice (pkg/authz/ambiguous.go): a
 * stack machine over the JSON decoder's tokens.
 */
module Ambiguous {
  import opened Wrappers
  import opened Json
  import opened Folding

  /** encoding/json's tokens; numbers, booleans and null all pass as scalars. */
  datatype Token = ObjectOpen | ObjectClose | ArrayOpen | ArrayClose | StringToken(s: string) | Scalar

  function Tokens(j: Json): seq<Token>
    decreases j, 0
  {
    match j
    case Null => [Scalar]
    case Bool(_) => [Scalar]
    case Number(_) => [Scalar]
    case Str(s) => [StringToken(s)]
    case Array(elems) => [ArrayOpen] + TokensOfAll(elems) + [ArrayClose]
    case Object(members) => [ObjectOpen] + TokensOfMembers(members) + [ObjectClose]
  }

  function TokensOfAll(values: seq<Json>): seq<Token>
    decreases values, 1
  {
    if values == [] then [] else Tokens(values[0]) + TokensOfAll(values[1..])
  }

  function TokensOfMembers(members: seq<Member>): seq<Token>
    decreases members, 1
  {
    if members == [] then []
    else [StringToken(members[0].key)] + Tokens(members[0].value) + TokensOfMembers(members[1..])
  }

  /** One open object or array; an object keeps the folded keys it has seen. */
  datatype Frame = Frame(isObject: bool, keys: set<string>, wantKey: bool)

  type Stack = seq<Frame>

  function Top(stack: Stack): Frame
    requires stack != []
  {
    stack[|stack| - 1]
  }

  predicate WantsKey(stack: Stack) {
    stack != [] && Top(stack).isObject && Top(stack).wantKey
  }

  /** A value has ended: the object holding it, if any, wants its next key. */
  function ValueDone(stack: Stack): Stack {
    if stack != [] && Top(stack).isObject then stack[|stack| - 1 := Top(stack).(wantKey := true)] else stack
  }

  function Popped(stack: Stack): Stack {
    if stack == [] then [] else ValueDone(stack[..|stack| - 1])
  }

  /** One token: the stack it leaves, or the key that repeats one of its object. */
  ghost function Step(orbit: Orbits, stack: Stack, tok: Token): Result<Stack, string>
    requires IsOrbits(orbit)
  {
    if WantsKey(stack) then
      if tok.ObjectClose? then Ok(Popped(stack))
      else
        var key := if tok.StringToken? then tok.s else "";
        var folded := Folded(orbit, key);
        if folded in Top(stack).keys then Err(key)
        else Ok(stack[|stack| - 1 := Frame(true, Top(stack).keys + {folded}, false)])
    else
      match tok
      case ObjectOpen => Ok(stack + [Frame(true, {}, true)])
      case ArrayOpen => Ok(stack + [Frame(false, {}, false)])
      case ArrayClose => Ok(Popped(stack))
      case _ => Ok(ValueDone(stack))
  }

  ghost function Scan(orbit: Orbits, stack: Stack, toks: seq<Token>): Result<Stack, string>
    requires IsOrbits(orbit)
    decreases |toks|
  {
    if toks == [] then Ok(stack)
    else
      match Step(orbit, stack, toks[0])
      case Err(key) => Err(key)
      case Ok(next) => Scan(orbit, next, toks[1..])
  }

  /**
   * The check. toks are the decoder's tokens up to its first error or its end:
   * text that is not JSON past some point is not read past it.
   */
  method CheckUnambiguous(ghost orbit: Orbits, next: char -> char, toks: seq<Token>) returns (repeated: Option<string>)
    requires IsOrbits(orbit) && IsSimpleFold(orbit, next)
    ensures repeated == (match Scan(orbit, [], toks) case Err(key) => Some(key) case Ok(_) => None)
  {
    var stack: Stack := [];
    for i := 0 to |toks|
      invariant Scan(orbit, [], toks) == Scan(orbit, stack, toks[i..])
    {
      var tok := toks[i];
      assert toks[i..][0] == tok && toks[i..][1..] == toks[i + 1..];
      if WantsKey(stack) {
        if tok == ObjectClose {
          stack := Popped(stack);
          continue;
        }
        var key := if tok.StringToken? then tok.s else "";
        var folded := FoldKey(orbit, next, key);
        if folded in Top(stack).keys {
          return Some(key);
        }
        stack := stack[|stack| - 1 := Frame(true, Top(stack).keys + {folded}, false)];
        continue;
      }
      match tok {
        case ObjectOpen => stack := stack + [Frame(true, {}, true)];
        case ArrayOpen => stack := stack + [Frame(false, {}, false)];
        case ArrayClose => stack := Popped(stack);
        case _ => stack := ValueDone(stack);
      }
    }
    repeated := None;
  }

  // ---------------------------------------- what the machine means on trees

  /** Some object, at some depth, has two keys with one folded form. */
  ghost predicate NamesTwice(orbit: Orbits, j: Json) {
    match j
    case Array(elems) => exists i :: 0 <= i < |elems| && NamesTwice(orbit, elems[i])
    case Object(members) =>
      || (exists i, k :: 0 <= i < k < |members| && EqualFold(orbit, members[i].key, members[k].key))
      || (exists i :: 0 <= i < |members| && NamesTwice(orbit, members[i].value))
    case _ => false
  }

  /** The first key, in text order, that repeats an earlier one of its object. */
  ghost function FirstRepeat(orbit: Orbits, j: Json): Option<string>
    requires IsOrbits(orbit)
    decreases j, 0
  {
    match j
    case Array(elems) => FirstRepeatOfAll(orbit, elems)
    case Object(members) => FirstRepeatOfMembers(orbit, members, {})
    case _ => None
  }

  ghost function FirstRepeatOfAll(orbit: Orbits, values: seq<Json>): Option<string>
    requires IsOrbits(orbit)
    decreases values, 1
  {
    if values == [] then None
    else if FirstRepeat(orbit, values[0]).Some? then FirstRepeat(orbit, values[0])
    else FirstRepeatOfAll(orbit, values[1..])
  }

  ghost function FirstRepeatOfMembers(orbit: Orbits, members: seq<Member>, seen: set<string>): Option<string>
    requires IsOrbits(orbit)
    decreases members, 1
  {
    if members == [] then None
    else if Folded(orbit, members[0].key) in seen then Some(members[0].key)
    else if FirstRepeat(orbit, members[0].value).Some? then FirstRepeat(orbit, members[0].value)
    else FirstRepeatOfMembers(orbit, members[1..], seen + {Folded(orbit, members[0].key)})
  }

  ghost function Outcome(repeat: Option<string>, stack: Stack): Result<Stack, string> {
    if repeat.Some? then Err(repeat.value) else Ok(stack)
  }

  lemma {:induction false} ScanAppend(orbit: Orbits, stack: Stack, a: seq<Token>, b: seq<Token>)
    requires IsOrbits(orbit)
    ensures Scan(orbit, stack, a + b) ==
            (match Scan(orbit, stack, a) case Err(key) => Err(key) case Ok(next) => Scan(orbit, next, b))
    decreases |a|
  {
    if a == [] {
      assert a + b == b;
    } else {
      assert (a + b)[0] == a[0] && (a + b)[1..] == a[1..] + b;
      var s := Step(orbit, stack, a[0]);
      if s.Ok? {
        ScanAppend(orbit, s.value, a[1..], b);
      }
    }
  }

  /**
   * The stack invariant: scanning one value from a stack that expects one
   * either stops at the value's first repeated key or leaves the stack as it
   * was, with the object holding the value wanting its next key.
   */
  lemma {:induction false} ScanOfValue(orbit: Orbits, stack: Stack, j: Json)
    requires IsOrbits(orbit) && !WantsKey(stack)
    ensures Scan(orbit, stack, Tokens(j)) == Outcome(FirstRepeat(orbit, j), ValueDone(stack))
    decreases j, 0
  {
    match j
    case Array(elems) =>
      var inner := stack + [Frame(false, {}, false)];
      ScanOfAll(orbit, inner, elems);
      OneOpen(orbit, stack, ArrayOpen, TokensOfAll(elems), ArrayClose);
      ArrayCloses(orbit, stack);
    case Object(members) =>
      ScanOfMembers(orbit, stack, members, {});
      OneOpen(orbit, stack, ObjectOpen, TokensOfMembers(members), ObjectClose);
    case _ =>
      assert Tokens(j)[1..] == [];
  }

  /** An array or an object: what is inside it is scanned over one frame more, and then the token that closes it. */
  lemma OneOpen(orbit: Orbits, stack: Stack, open: Token, body: seq<Token>, close: Token)
    requires IsOrbits(orbit) && !WantsKey(stack) && (open.ArrayOpen? || open.ObjectOpen?)
    ensures var inner := Scan(orbit, stack + [Frame(open.ObjectOpen?, {}, open.ObjectOpen?)], body);
            Scan(orbit, stack, [open] + body + [close]) == if inner.Err? then inner else Scan(orbit, inner.value, [close])
  {
    var inner := stack + [Frame(open.ObjectOpen?, {}, open.ObjectOpen?)];
    var toks := [open] + body + [close];
    assert toks[0] == open && toks[1..] == body + [close];
    assert Step(orbit, stack, open) == Ok(inner);
    ScanAppend(orbit, inner, body, [close]);
  }

  lemma ArrayCloses(orbit: Orbits, stack: Stack)
    requires IsOrbits(orbit)
    ensures Scan(orbit, stack + [Frame(false, {}, false)], [ArrayClose]) == Ok(ValueDone(stack))
  {
    var inner := stack + [Frame(false, {}, false)];
    assert inner[..|inner| - 1] == stack;
    assert Step(orbit, inner, ArrayClose) == Ok(ValueDone(stack));
  }

  lemma {:induction false} ScanOfAll(orbit: Orbits, stack: Stack, values: seq<Json>)
    requires IsOrbits(orbit) && (stack == [] || !Top(stack).isObject)
    ensures Scan(orbit, stack, TokensOfAll(values)) == Outcome(FirstRepeatOfAll(orbit, values), stack)
    decreases values, 1
  {
    if values != [] {
      ScanOfValue(orbit, stack, values[0]);
      ScanAppend(orbit, stack, Tokens(values[0]), TokensOfAll(values[1..]));
      ScanOfAll(orbit, stack, values[1..]);
    }
  }

  /** Inside an object that has read the keys in seen: up to its closing brace. */
  lemma {:induction false} ScanOfMembers(orbit: Orbits, stack: Stack, members: seq<Member>, seen: set<string>)
    requires IsOrbits(orbit)
    ensures var inner := stack + [Frame(true, seen, true)];
            var all := Scan(orbit, inner, TokensOfMembers(members));
            (match FirstRepeatOfMembers(orbit, members, seen)
             case Some(key) => all == Err(key)
             case None => all.Ok? && Scan(orbit, all.value, [ObjectClose]) == Ok(ValueDone(stack)))
    decreases members, 1
  {
    var inner := stack + [Frame(true, seen, true)];
    if members == [] {
      assert inner[..|inner| - 1] == stack;
      assert Step(orbit, inner, ObjectClose) == Ok(ValueDone(stack));
    } else {
      var Member(key, value) := members[0];
      var toks := TokensOfMembers(members);
      assert toks[0] == StringToken(key) && toks[1..] == Tokens(value) + TokensOfMembers(members[1..]);
      if Folded(orbit, key) !in seen {
        var more := seen + {Folded(orbit, key)};
        var holding := stack + [Frame(true, more, false)];
        assert inner[|inner| - 1 := Frame(true, more, false)] == holding;
        ScanOfValue(orbit, holding, value);
        ScanAppend(orbit, holding, Tokens(value), TokensOfMembers(members[1..]));
        assert ValueDone(holding) == stack + [Frame(true, more, true)];
        ScanOfMembers(orbit, stack, members[1..], more);
      }
    }
  }

  /** There is a first repeat exactly when some object names a field twice. */
  lemma {:induction false} RepeatMeansNamesTwice(orbit: Orbits, j: Json)
    requires IsOrbits(orbit)
    ensures FirstRepeat(orbit, j).Some? <==> NamesTwice(orbit, j)
    decreases j, 0
  {
    match j
    case Array(elems) => RepeatInAll(orbit, elems);
    case Object(members) =>
      RepeatInMembers(orbit, members, {});
    case _ =>
  }

  lemma {:induction false} RepeatInAll(orbit: Orbits, values: seq<Json>)
    requires IsOrbits(orbit)
    ensures FirstRepeatOfAll(orbit, values).Some? <==> exists i :: 0 <= i < |values| && NamesTwice(orbit, values[i])
    decreases values, 1
  {
    if values != [] {
      RepeatMeansNamesTwice(orbit, values[0]);
      RepeatInAll(orbit, values[1..]);
      forall i | 1 <= i < |values| ensures values[i] == values[1..][i - 1] {}
    }
  }

  /** members, in an object that has already read keys folding to seen, repeats one. */
  ghost predicate Repeats(orbit: Orbits, members: seq<Member>, seen: set<string>)
    requires IsOrbits(orbit)
  {
    || (exists i :: 0 <= i < |members| && Folded(orbit, members[i].key) in seen)
    || (exists i, k :: 0 <= i < k < |members| && EqualFold(orbit, members[i].key, members[k].key))
    || (exists i :: 0 <= i < |members| && NamesTwice(orbit, members[i].value))
  }

  lemma {:induction false} RepeatInMembers(orbit: Orbits, members: seq<Member>, seen: set<string>)
    requires IsOrbits(orbit)
    ensures FirstRepeatOfMembers(orbit, members, seen).Some? <==> Repeats(orbit, members, seen)
    decreases members, 1
  {
    if members != [] {
      var first, rest := members[0], members[1..];
      var more := seen + {Folded(orbit, first.key)};
      RepeatMeansNamesTwice(orbit, first.value);
      RepeatInMembers(orbit, rest, more);
      forall i | 0 <= i < |rest| ensures rest[i] == members[i + 1] {}
      forall i | 0 <= i < |rest|
        ensures Folded(orbit, rest[i].key) == Folded(orbit, first.key) <==> EqualFold(orbit, first.key, rest[i].key)
      {
        SameFoldIsEqualFold(orbit, first.key, rest[i].key);
      }
      if Repeats(orbit, rest, more) {
        RepeatsOfRest(orbit, members, seen);
      } else if Repeats(orbit, members, seen) && !NamesTwice(orbit, first.value) && Folded(orbit, first.key) !in seen {
        NoRepeatsOfRest(orbit, members, seen);
      }
    }
  }

  lemma RepeatsOfRest(orbit: Orbits, members: seq<Member>, seen: set<string>)
    requires IsOrbits(orbit) && members != []
    requires Repeats(orbit, members[1..], seen + {Folded(orbit, members[0].key)})
    ensures Repeats(orbit, members, seen)
  {
    var rest, more := members[1..], seen + {Folded(orbit, members[0].key)};
    if i :| 0 <= i < |rest| && Folded(orbit, rest[i].key) in more {
      assert members[i + 1] == rest[i];
      SameFoldIsEqualFold(orbit, members[0].key, members[i + 1].key);
    } else if i, k :| 0 <= i < k < |rest| && EqualFold(orbit, rest[i].key, rest[k].key) {
      assert EqualFold(orbit, members[i + 1].key, members[k + 1].key);
    } else {
      var i :| 0 <= i < |rest| && NamesTwice(orbit, rest[i].value);
      assert members[i + 1] == rest[i];
    }
  }

  lemma NoRepeatsOfRest(orbit: Orbits, members: seq<Member>, seen: set<string>)
    requires IsOrbits(orbit) && members != []
    requires !Repeats(orbit, members[1..], seen + {Folded(orbit, members[0].key)})
    requires Folded(orbit, members[0].key) !in seen && !NamesTwice(orbit, members[0].value)
    ensures !Repeats(orbit, members, seen)
  {
    var rest, more := members[1..], seen + {Folded(orbit, members[0].key)};
    forall i | 1 <= i < |members|
      ensures Folded(orbit, members[i].key) !in more && !NamesTwice(orbit, members[i].value)
      ensures !EqualFold(orbit, members[0].key, members[i].key)
    {
      assert members[i] == rest[i - 1];
      SameFoldIsEqualFold(orbit, members[0].key, members[i].key);
    }
    forall i, k | 1 <= i < k < |members| ensures !EqualFold(orbit, members[i].key, members[k].key) {
      assert members[i] == rest[i - 1] && members[k] == rest[k - 1];
    }
  }

  /**
   * On the tokens of any sequence of JSON values the check fails exactly when
   * some object of some value, at any depth, names one field twice, and the key
   * it reports is the first in text order to repeat one.
   */
  lemma CheckIsNamesTwice(orbit: Orbits, values: seq<Json>)
    requires IsOrbits(orbit)
    ensures Scan(orbit, [], TokensOfAll(values)).Err? <==> exists i :: 0 <= i < |values| && NamesTwice(orbit, values[i])
    ensures Scan(orbit, [], TokensOfAll(values)).Err? ==>
              Some(Scan(orbit, [], TokensOfAll(values)).error) == FirstRepeatOfAll(orbit, values)
    ensures Scan(orbit, [], TokensOfAll(values)).Ok? ==> Scan(orbit, [], TokensOfAll(values)).value == []
  {
    ScanOfAll(orbit, [], values);
    RepeatInAll(orbit, values);
  }

  /**
   * A body that stops being JSON part-way is refused only for a repeat it
   * already shows: a verdict on a prefix is the verdict on every completion.
   */
  lemma PrefixVerdictStands(orbit: Orbits, toks: seq<Token>, n: nat)
    requires IsOrbits(orbit) && n <= |toks| && Scan(orbit, [], toks[..n]).Err?
    ensures Scan(orbit, [], toks) == Scan(orbit, [], toks[..n])
  {
    ScanAppend(orbit, [], toks[..n], toks[n..]);
    assert toks[..n] + toks[n..] == toks;
  }
}
