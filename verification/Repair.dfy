/** repairJSON (cmd/cortexdb-mcp-stdio/capture_session.go): strip a fence, then close what was left open. */
module Repair {
  import opened Texts
  import opened JsonText

  /** The scanner: the closers still owed, innermost last. */
  datatype State = State(stack: string, inString: bool, escaped: bool)

  const START := State("", false, false)

  function Outside(stack: string): State {
    State(stack, false, false)
  }

  function Feed(st: State, c: char): State {
    if st.inString then
      if st.escaped then st.(escaped := false)
      else if c == '\\' then st.(escaped := true)
      else if c == '"' then st.(inString := false)
      else st
    else if c == '"' then st.(inString := true)
    else if c == '{' then st.(stack := st.stack + "}")
    else if c == '[' then st.(stack := st.stack + "]")
    else if IsCloser(c) && Owes(st, c) then st.(stack := st.stack[..|st.stack| - 1])
    else st
  }

  predicate IsCloser(c: char) {
    c == '}' || c == ']'
  }

  /** c is the closer owed next. */
  predicate Owes(st: State, c: char) {
    st.stack != "" && st.stack[|st.stack| - 1] == c
  }

  function Scan(st: State, s: string): State {
    if s == "" then st else Feed(Scan(st, s[..|s| - 1]), s[|s| - 1])
  }

  /** Outside a string, a closer is the one owed, and there is no backtick. */
  predicate Fits(st: State, c: char) {
    st.inString || ((IsCloser(c) ==> Owes(st, c)) && c != '`')
  }

  predicate Meets(st: State, s: string) {
    s == "" || (Meets(st, s[..|s| - 1]) && Fits(Scan(st, s[..|s| - 1]), s[|s| - 1]))
  }

  /** The owed closers, innermost first. */
  function Closers(stack: string): string {
    if stack == "" then "" else [stack[|stack| - 1]] + Closers(stack[..|stack| - 1])
  }

  const FENCE := "```"

  function LineBreak(s: string): (i: nat)
    ensures i <= |s| && (forall j :: 0 <= j < i ==> s[j] != '\n') && (i < |s| ==> s[i] == '\n')
  {
    if s == "" || s[0] == '\n' then 0 else LineBreak(s[1..]) + 1
  }

  function WithoutSuffix(s: string, suffix: string): string {
    if |suffix| <= |s| && s[|s| - |suffix|..] == suffix then s[..|s| - |suffix|] else s
  }

  /** Trimmed, and out of a Markdown fence if it is in one. */
  function Stripped(space: Spaces, raw: string): string {
    var s := Trim(space, raw);
    if FENCE <= s then
      var i := LineBreak(s);
      var rest := if i < |s| then s[i + 1..] else s;
      Trim(space, WithoutSuffix(Trim(space, rest), FENCE))
    else s
  }

  function Closed(s: string): string {
    var st := Scan(START, s);
    s + (if st.inString then "\"" else "") + Closers(st.stack)
  }

  function Repaired(valid: string -> bool, space: Spaces, raw: string): string {
    var s := Stripped(space, raw);
    if valid(s) then s else Closed(s)
  }

  method RepairJSON(valid: string -> bool, space: Spaces, raw: string) returns (s: string)
    ensures s == Repaired(valid, space, raw)
  {
    s := Trim(space, raw);
    if FENCE <= s {
      var i := LineBreak(s);
      if i < |s| {
        s := s[i + 1..];
      }
      s := WithoutSuffix(Trim(space, s), FENCE);
      s := Trim(space, s);
    }
    if valid(s) {
      return;
    }
    s := Close(s);
  }

  /** The scan, and the closers it found owing. */
  method Close(text: string) returns (s: string)
    ensures s == Closed(text)
  {
    var stack, inString := ScanText(text);
    s := text;
    if inString {
      s := s + "\"";
    }
    ghost var before := s;
    var i := |stack|;
    assert stack[..i] == stack;
    while i > 0
      invariant 0 <= i <= |stack|
      invariant s + Closers(stack[..i]) == before + Closers(stack)
    {
      i := i - 1;
      assert stack[..i + 1][..i] == stack[..i];
      assert Closers(stack[..i + 1]) == [stack[i]] + Closers(stack[..i]);
      s := s + [stack[i]];
    }
    assert s + Closers("") == s;
  }

  method ScanText(s: string) returns (stack: string, inString: bool)
    ensures stack == Scan(START, s).stack && inString == Scan(START, s).inString
  {
    var escaped := false;
    stack, inString := "", false;
    for i := 0 to |s|
      invariant Scan(START, s[..i]) == State(stack, inString, escaped)
    {
      assert s[..i + 1][..i] == s[..i];
      var c := s[i];
      if inString {
        if escaped {
          escaped := false;
        } else if c == '\\' {
          escaped := true;
        } else if c == '"' {
          inString := false;
        }
        continue;
      }
      if c == '"' {
        inString := true;
      } else if c == '{' {
        stack := stack + "}";
      } else if c == '[' {
        stack := stack + "]";
      } else if (c == '}' || c == ']') && |stack| > 0 && stack[|stack| - 1] == c {
        stack := stack[..|stack| - 1];
      }
    }
    assert s[..|s|] == s;
  }

  // ------------------------------------------------------------ how it scans

  lemma {:induction false} ScanAppend(st: State, a: string, b: string)
    ensures Scan(st, a + b) == Scan(Scan(st, a), b)
    ensures Meets(st, a + b) <==> Meets(st, a) && Meets(Scan(st, a), b)
    decreases |b|
  {
    if b == "" {
      assert a + b == a;
    } else {
      var n := |b| - 1;
      assert (a + b)[..|a + b| - 1] == a + b[..n];
      ScanAppend(st, a, b[..n]);
    }
  }

  lemma {:induction false} EscapesAreInStrings(s: string)
    ensures Scan(START, s).escaped ==> Scan(START, s).inString
    decreases |s|
  {
    if s != "" {
      EscapesAreInStrings(s[..|s| - 1]);
    }
  }

  lemma {:induction false} InStringStays(st: State, s: string)
    requires st.inString && forall c :: c in s ==> IsCloser(c)
    ensures Scan(st, s).inString
    decreases |s|
  {
    if s != "" {
      assert IsCloser(s[|s| - 1]);
      InStringStays(st, s[..|s| - 1]);
    }
  }

  lemma FeedOne(st: State, c: char)
    ensures Scan(st, [c]) == Feed(st, c)
    ensures Meets(st, [c]) <==> Fits(st, c)
  {
    assert [c][..0] == "";
    assert Scan(st, "") == st && Meets(st, "");
  }

  /** The owed closers, fed to the scanner, are all taken and leave nothing owed. */
  lemma {:induction false} ClosersClose(stack: string)
    requires forall c :: c in stack ==> IsCloser(c)
    ensures Scan(Outside(stack), Closers(stack)) == START
    decreases |stack|
  {
    if stack != "" {
      var n := |stack| - 1;
      ScanAppend(Outside(stack), [stack[n]], Closers(stack[..n]));
      FeedOne(Outside(stack), stack[n]);
      assert stack[n] in stack;
      ClosersClose(stack[..n]);
    }
  }

  lemma {:induction false} StackIsClosers(s: string)
    ensures forall c :: c in Scan(START, s).stack ==> IsCloser(c)
    decreases |s|
  {
    if s != "" {
      StackIsClosers(s[..|s| - 1]);
    }
  }

  /**
   * Any text not ending in an open escape is extended to one that scans to an
   * empty stack outside a string; one that does end so never is, because the
   * escape takes the closing quote.
   */
  lemma ClosedScansClean(s: string)
    ensures s <= Closed(s)
    ensures Scan(START, Closed(s)) == START <==> !Scan(START, s).escaped
  {
    var st := Scan(START, s);
    var quote := if st.inString then "\"" else "";
    assert Closed(s) == s + quote + Closers(st.stack);
    ScanAppend(START, s + quote, Closers(st.stack));
    ScanAppend(START, s, quote);
    EscapesAreInStrings(s);
    StackIsClosers(s);
    FeedOne(st, '"');
    if st.escaped {
      forall c | c in Closers(st.stack) ensures IsCloser(c) {
        ClosersAre(st.stack, c);
      }
      InStringStays(Scan(START, s + quote), Closers(st.stack));
    } else {
      assert Scan(START, s + quote) == Outside(st.stack);
      ClosersClose(st.stack);
    }
  }

  lemma {:induction false} ClosersAre(stack: string, c: char)
    requires c in Closers(stack)
    ensures c in stack
    decreases |stack|
  {
    if stack != "" && c != stack[|stack| - 1] {
      ClosersAre(stack[..|stack| - 1], c);
    }
  }

  // ---------------------------------------------------------- how JSON scans

  /** s leaves the scanner as it found it, outside any string, and every character of it fits. */
  ghost predicate Balanced(s: string, stack: string) {
    Scan(Outside(stack), s) == Outside(stack) && Meets(Outside(stack), s)
  }

  lemma BalancedAppend(a: string, b: string, stack: string)
    requires Balanced(a, stack) && Balanced(b, stack)
    ensures Balanced(a + b, stack)
  {
    ScanAppend(Outside(stack), a, b);
  }

  predicate IsPlain(c: char) {
    c != '"' && c != '{' && c != '[' && !IsCloser(c) && c != '`'
  }

  predicate NoStructure(s: string) {
    forall i :: 0 <= i < |s| ==> IsPlain(s[i])
  }

  lemma {:induction false} PlainIsBalanced(s: string, stack: string)
    requires NoStructure(s)
    ensures Balanced(s, stack)
    decreases |s|
  {
    if s != "" {
      assert s[|s| - 1] in s;
      PlainIsBalanced(s[..|s| - 1], stack);
    }
  }

  lemma LiteralIsPlain(s: string)
    requires s in {"null", "true", "false"} || IsNumber(s)
    ensures NoStructure(s) && s != ""
  {
    if IsNumber(s) {
      var sign, whole, fraction, exponent :| NumberOf(sign, whole, fraction, exponent) && s == sign + whole + fraction + exponent;
      assert NoStructure(sign);
      assert NoStructure(whole);
      assert fraction != "" ==> fraction == "." + fraction[1..];
      assert NoStructure(fraction);
      ExponentIsPlain(exponent);
    }
  }

  lemma ExponentIsPlain(s: string)
    requires s == "" || ExponentOf(s)
    ensures NoStructure(s)
  {
    if s != "" {
      if s[1] == '+' || s[1] == '-' {
        assert s == s[..1] + [s[1]] + s[2..];
      } else {
        assert s == s[..1] + s[1..];
      }
    }
  }

  /** Inside a string, and not within an escape. */
  function Inside(stack: string): State {
    State(stack, true, false)
  }

  lemma {:induction false} HexStaysInside(s: string, stack: string)
    requires HexDigits(s)
    ensures Scan(Inside(stack), s) == Inside(stack) && Meets(Inside(stack), s)
    decreases |s|
  {
    if s != "" {
      HexStaysInside(s[..|s| - 1], stack);
    }
  }

  lemma LetterStaysInside(l: Letter, stack: string)
    requires IsLetter(l)
    ensures Scan(Inside(stack), LetterText(l)) == Inside(stack) && Meets(Inside(stack), LetterText(l))
  {
    match l
    case Plain(c) => FeedOne(Inside(stack), c);
    case Escaped(c) =>
      assert ['\\', c] == ['\\'] + [c];
      ScanAppend(Inside(stack), ['\\'], [c]);
      FeedOne(Inside(stack), '\\');
      FeedOne(Inside(stack).(escaped := true), c);
    case Hex(digits) =>
      assert "\\u" + digits == ['\\'] + (['u'] + digits);
      ScanAppend(Inside(stack), ['\\'], ['u'] + digits);
      ScanAppend(Inside(stack).(escaped := true), ['u'], digits);
      FeedOne(Inside(stack), '\\');
      FeedOne(Inside(stack).(escaped := true), 'u');
      HexStaysInside(digits, stack);
  }

  lemma {:induction false} LettersStayInside(chars: seq<Letter>, stack: string)
    requires forall l :: l in chars ==> IsLetter(l)
    ensures Scan(Inside(stack), LettersText(chars)) == Inside(stack) && Meets(Inside(stack), LettersText(chars))
    decreases |chars|
  {
    if chars != [] {
      LetterStaysInside(chars[0], stack);
      LettersStayInside(chars[1..], stack);
      ScanAppend(Inside(stack), LetterText(chars[0]), LettersText(chars[1..]));
    }
  }

  lemma QuotedIsBalanced(chars: seq<Letter>, stack: string)
    requires forall l :: l in chars ==> IsLetter(l)
    ensures Balanced(QuotedText(chars), stack)
  {
    var body := LettersText(chars);
    ScanAppend(Outside(stack), "\"" + body, "\"");
    ScanAppend(Outside(stack), "\"", body);
    FeedOne(Outside(stack), '"');
    LettersStayInside(chars, stack);
    FeedOne(Inside(stack), '"');
  }

  lemma BracketedIsBalanced(open: char, s: string, close: char, stack: string)
    requires (open == '[' && close == ']') || (open == '{' && close == '}')
    requires Balanced(s, stack + [close])
    ensures Balanced([open] + s + [close], stack)
  {
    ScanAppend(Outside(stack), [open] + s, [close]);
    ScanAppend(Outside(stack), [open], s);
    FeedOne(Outside(stack), open);
    FeedOne(Outside(stack + [close]), close);
    assert (stack + [close])[..|stack|] == stack;
  }

  lemma {:induction false} ValueIsBalanced(v: Syntax, stack: string)
    requires IsValue(v)
    ensures Balanced(Text(v), stack)
    decreases v, 0
  {
    match v
    case Literal(text) =>
      LiteralIsPlain(text);
      PlainIsBalanced(text, stack);
    case Quoted(chars) => QuotedIsBalanced(chars, stack);
    case List(blank, items) =>
      if items == [] {
        PlainIsBalanced(blank, stack + "]");
        BracketedIsBalanced('[', blank, ']', stack);
      } else {
        ItemsAreBalanced(items, stack + "]");
        BracketedIsBalanced('[', ItemsText(items), ']', stack);
      }
    case Record(blank, fields) =>
      if fields == [] {
        PlainIsBalanced(blank, stack + "}");
        BracketedIsBalanced('{', blank, '}', stack);
      } else {
        FieldsAreBalanced(fields, stack + "}");
        BracketedIsBalanced('{', FieldsText(fields), '}', stack);
      }
  }

  lemma {:induction false} ItemIsBalanced(i: Item, stack: string)
    requires IsItem(i)
    ensures Balanced(ItemText(i), stack)
    decreases i, 0
  {
    PlainIsBalanced(i.before, stack);
    ValueIsBalanced(i.value, stack);
    PlainIsBalanced(i.after, stack);
    BalancedAppend(i.before, Text(i.value), stack);
    BalancedAppend(i.before + Text(i.value), i.after, stack);
  }

  lemma {:induction false} ItemsAreBalanced(items: seq<Item>, stack: string)
    requires items != [] && forall i :: i in items ==> IsItem(i)
    ensures Balanced(ItemsText(items), stack)
    decreases items, 1
  {
    ItemIsBalanced(items[0], stack);
    if |items| > 1 {
      ItemsAreBalanced(items[1..], stack);
      PlainIsBalanced(",", stack);
      BalancedAppend(ItemText(items[0]), ",", stack);
      BalancedAppend(ItemText(items[0]) + ",", ItemsText(items[1..]), stack);
    }
  }

  lemma {:induction false} FieldIsBalanced(f: Field, stack: string)
    requires IsField(f)
    ensures Balanced(FieldText(f), stack)
    decreases f, 0
  {
    PlainIsBalanced(f.before, stack);
    QuotedIsBalanced(f.name, stack);
    PlainIsBalanced(f.after, stack);
    PlainIsBalanced(":", stack);
    ItemIsBalanced(f.item, stack);
    BalancedAppend(f.before, QuotedText(f.name), stack);
    BalancedAppend(f.before + QuotedText(f.name), f.after, stack);
    BalancedAppend(f.before + QuotedText(f.name) + f.after, ":", stack);
    BalancedAppend(f.before + QuotedText(f.name) + f.after + ":", ItemText(f.item), stack);
  }

  lemma {:induction false} FieldsAreBalanced(fields: seq<Field>, stack: string)
    requires fields != [] && forall f :: f in fields ==> IsField(f)
    ensures Balanced(FieldsText(fields), stack)
    decreases fields, 1
  {
    FieldIsBalanced(fields[0], stack);
    if |fields| > 1 {
      FieldsAreBalanced(fields[1..], stack);
      PlainIsBalanced(",", stack);
      BalancedAppend(FieldText(fields[0]), ",", stack);
      BalancedAppend(FieldText(fields[0]) + ",", FieldsText(fields[1..]), stack);
    }
  }

  /** On JSON the scan adds nothing, so that it and the early return agree. */
  lemma JsonNeedsNoRepair(s: string)
    requires IsJson(s)
    ensures Scan(START, s) == START && Meets(START, s) && Closed(s) == s
  {
    var i :| IsItem(i) && s == ItemText(i);
    ItemIsBalanced(i, "");
    assert START == Outside("");
  }

  // --------------------------------------------------- what was cut comes back

  predicate AllClosers(s: string) {
    forall c :: c in s ==> IsCloser(c)
  }

  lemma ClosedOutside(s: string, stack: string)
    requires Scan(START, s) == Outside(stack)
    ensures Closed(s) == s + Closers(stack)
  {
    assert s + "" == s;
  }

  lemma {:induction false} OwedIsCut(stack: string, cut: string)
    requires AllClosers(cut) && Meets(Outside(stack), cut) && Scan(Outside(stack), cut) == START
    ensures cut == Closers(stack)
    decreases |cut|
  {
    if cut != "" {
      var c, rest := cut[0], cut[1..];
      assert cut == [c] + rest;
      ScanAppend(Outside(stack), [c], rest);
      FeedOne(Outside(stack), c);
      assert c in cut && AllClosers(rest);
      OwedIsCut(stack[..|stack| - 1], rest);
    }
  }

  /** Cut a run of closers off a JSON text: what is left is outside any string, and owes exactly them. */
  lemma CutJson(p: string, cut: string)
    requires IsJson(p + cut) && AllClosers(cut)
    ensures Scan(START, p) == Outside(Scan(START, p).stack) && cut == Closers(Scan(START, p).stack)
    ensures Closed(p) == p + cut
  {
    JsonNeedsNoRepair(p + cut);
    ScanAppend(START, p, cut);
    EscapesAreInStrings(p);
    var st := Scan(START, p);
    if st.inString {
      InStringStays(st, cut);
    }
    OwedIsCut(st.stack, cut);
    ClosedOutside(p, st.stack);
  }

  /** White space holds no visible ASCII character, and holds the line feed. */
  ghost predicate WhiteSpace(space: Spaces) {
    space('\n') && forall c :: '!' <= c <= '~' ==> !space(c)
  }

  predicate AllSpace(space: Spaces, s: string) {
    forall i :: 0 <= i < |s| ==> space(s[i])
  }

  /** Trimming takes white space off both ends, and nothing else. */
  lemma {:induction false} TrimLeftParts(space: Spaces, s: string)
    ensures exists before :: AllSpace(space, before) && s == before + TrimLeft(space, s)
  {
    if s != "" && space(s[0]) {
      TrimLeftParts(space, s[1..]);
      var before :| AllSpace(space, before) && s[1..] == before + TrimLeft(space, s[1..]);
      assert AllSpace(space, [s[0]] + before) && s == [s[0]] + before + TrimLeft(space, s);
    } else {
      assert AllSpace(space, "") && s == "" + TrimLeft(space, s);
    }
  }

  lemma {:induction false} TrimRightParts(space: Spaces, s: string)
    ensures exists after :: AllSpace(space, after) && s == TrimRight(space, s) + after
    decreases |s|
  {
    if s != "" && space(s[|s| - 1]) {
      TrimRightParts(space, s[..|s| - 1]);
      var after :| AllSpace(space, after) && s[..|s| - 1] == TrimRight(space, s[..|s| - 1]) + after;
      assert AllSpace(space, after + [s[|s| - 1]]) && s == TrimRight(space, s) + (after + [s[|s| - 1]]);
    } else {
      assert AllSpace(space, "") && s == TrimRight(space, s) + "";
    }
  }

  lemma SpaceIsPlain(space: Spaces, s: string)
    requires WhiteSpace(space) && AllSpace(space, s)
    ensures NoStructure(s) && forall c :: c in s ==> c != '\\'
  {
  }

  lemma {:induction false} PlainStaysInString(st: State, s: string)
    requires st.inString && NoStructure(s)
    ensures Scan(st, s).inString
    decreases |s|
  {
    if s != "" {
      assert s[|s| - 1] in s;
      PlainStaysInString(st, s[..|s| - 1]);
    }
  }

  /** What is trimmed off a cut text was outside strings, so the scanner owes the same closers without it. */
  lemma TrimmedScansAlike(space: Spaces, p: string)
    requires WhiteSpace(space) && !Scan(START, p).inString
    ensures Scan(START, Trim(space, p)) == Scan(START, p)
  {
    TrimLeftParts(space, p);
    var left := TrimLeft(space, p);
    var before :| AllSpace(space, before) && p == before + left;
    SpaceIsPlain(space, before);
    PlainIsBalanced(before, "");
    assert START == Outside("");
    ScanAppend(START, before, left);
    TrimRightParts(space, left);
    var whole := TrimRight(space, left);
    var after :| AllSpace(space, after) && left == whole + after;
    SpaceIsPlain(space, after);
    ScanAppend(START, whole, after);
    EscapesAreInStrings(whole);
    var st := Scan(START, whole);
    if st.inString {
      PlainStaysInString(st, after);
    }
    PlainIsBalanced(after, st.stack);
  }

  lemma TrimMiddle(space: Spaces, a: string, b: string, c: string)
    requires AllSpace(space, a) && AllSpace(space, c) && b != "" && !space(b[0]) && !space(b[|b| - 1])
    ensures Trim(space, a + b + c) == b
  {
    TrimLeftOff(space, a, b + c);
    assert a + b + c == a + (b + c);
    TrimRightOff(space, b, c);
  }

  lemma {:induction false} TrimLeftOff(space: Spaces, a: string, b: string)
    requires AllSpace(space, a) && b != "" && !space(b[0])
    ensures TrimLeft(space, a + b) == b
    decreases |a|
  {
    if a == "" {
      assert a + b == b;
    } else {
      assert (a + b)[1..] == a[1..] + b;
      TrimLeftOff(space, a[1..], b);
    }
  }

  lemma {:induction false} TrimRightOff(space: Spaces, b: string, c: string)
    requires AllSpace(space, c) && b != "" && !space(b[|b| - 1])
    ensures TrimRight(space, b + c) == b
    decreases |c|
  {
    if c == "" {
      assert b + c == b;
    } else {
      assert (b + c)[..|b + c| - 1] == b + c[..|c| - 1];
      TrimRightOff(space, b, c[..|c| - 1]);
    }
  }

  // ------------------------------------------------------- what a fence leaves

  /** A JSON text with closers cut off neither is blank nor, trimmed, begins or ends with a backtick. */
  lemma CutHasNoFence(space: Spaces, p: string, cut: string)
    requires IsJson(p + cut) && AllClosers(cut) && WhiteSpace(space)
    ensures var q := Trim(space, p); q != "" && q[0] != '`' && q[|q| - 1] != '`'
  {
    var q := Trim(space, p);
    CutJson(p, cut);
    TrimmedScansAlike(space, p);
    TrimParts(space, p);
    var before, after :| AllSpace(space, before) && AllSpace(space, after) && p == before + q + after;
    if q == "" {
      assert p + cut == before + after;
      SpaceIsNotJson(space, before, after);
    } else {
      CutMeets(p, cut);
      MiddleMeets(space, before, q, after);
      EndsFit(q);
    }
  }

  lemma CutMeets(p: string, cut: string)
    requires IsJson(p + cut)
    ensures Meets(START, p)
  {
    JsonNeedsNoRepair(p + cut);
    ScanAppend(START, p, cut);
  }

  lemma SpaceIsNotJson(space: Spaces, before: string, after: string)
    requires WhiteSpace(space) && AllSpace(space, before) && AllSpace(space, after)
    ensures !IsJson(before + after)
  {
    if IsJson(before + after) {
      JsonIsVisible(before + after);
    }
  }

  lemma MiddleMeets(space: Spaces, before: string, q: string, after: string)
    requires WhiteSpace(space) && AllSpace(space, before) && Meets(START, before + q + after)
    ensures Meets(START, q)
  {
    SpaceIsPlain(space, before);
    PlainIsBalanced(before, "");
    assert START == Outside("");
    ScanAppend(START, before + q, after);
    ScanAppend(START, before, q);
  }

  lemma EndsFit(q: string)
    requires q != "" && Meets(START, q) && !Scan(START, q).inString
    ensures q[0] != '`' && q[|q| - 1] != '`'
  {
    assert q == [q[0]] + q[1..];
    ScanAppend(START, [q[0]], q[1..]);
    FeedOne(START, q[0]);
  }

  lemma TrimParts(space: Spaces, p: string)
    ensures exists before, after :: AllSpace(space, before) && AllSpace(space, after) && p == before + Trim(space, p) + after
  {
    TrimLeftParts(space, p);
    var before :| AllSpace(space, before) && p == before + TrimLeft(space, p);
    TrimRightParts(space, TrimLeft(space, p));
    var after :| AllSpace(space, after) && TrimLeft(space, p) == Trim(space, p) + after;
    assert p == before + Trim(space, p) + after;
  }

  lemma JsonIsVisible(s: string)
    requires IsJson(s)
    ensures exists i :: 0 <= i < |s| && '!' <= s[i] <= '~'
  {
    var i :| IsItem(i) && s == ItemText(i);
    ValueStartsVisible(i.value);
    assert s[|i.before|] == Text(i.value)[0];
  }

  lemma ValueStartsVisible(v: Syntax)
    requires IsValue(v)
    ensures Text(v) != "" && '!' <= Text(v)[0] <= '~'
  {
    match v
    case Literal(text) =>
      assert text != "" && '!' <= text[0] <= '~' by {
        if IsNumber(text) {
          var sign, whole, fraction, exponent :| NumberOf(sign, whole, fraction, exponent) && text == sign + whole + fraction + exponent;
          assert text[0] == if sign == "" then whole[0] else '-';
        }
      }
    case Quoted(chars) =>
    case List(_, _) =>
    case Record(_, _) =>
  }

  /** Closed text of what the strip leaves is right, whichever way it returns. */
  lemma RepairOfCut(valid: string -> bool, space: Spaces, raw: string, p: string, cut: string)
    requires (forall s :: valid(s) ==> IsJson(s)) && WhiteSpace(space)
    requires IsJson(p + cut) && AllClosers(cut) && Stripped(space, raw) == Trim(space, p)
    ensures Repaired(valid, space, raw) == Trim(space, p) + cut
  {
    CutJson(p, cut);
    TrimmedScansAlike(space, p);
    var s := Trim(space, p);
    ClosedOutside(s, Scan(START, p).stack);
    if valid(s) {
      JsonNeedsNoRepair(s);
    }
  }

  /**
   * What was cut comes back: for every JSON text with a run of its closing
   * brackets removed, the repair trims what is left and puts exactly them back.
   */
  lemma RepairRestores(valid: string -> bool, space: Spaces, p: string, cut: string)
    requires (forall s :: valid(s) ==> IsJson(s)) && WhiteSpace(space)
    requires IsJson(p + cut) && AllClosers(cut)
    ensures Repaired(valid, space, p) == Trim(space, p) + cut
    ensures Trimmed(space, p) ==> Repaired(valid, space, p) == p + cut
  {
    CutHasNoFence(space, p, cut);
    RepairOfCut(valid, space, p, p, cut);
    if Trimmed(space, p) {
      TrimOfTrimmed(space, p);
    }
  }

  /** A reply in a Markdown fence: its first line, what is inside, and what follows the fence if it was closed. */
  ghost predicate InFence(space: Spaces, raw: string, p: string, before: string, info: string, after: string, closed: bool) {
    && AllSpace(space, before) && AllSpace(space, after) && (forall i :: 0 <= i < |info| ==> info[i] != '\n')
    && raw == before + (FENCE + info + "\n" + p + if closed then FENCE else "") + after
  }

  /** The same inside a fence, closed or cut off with the closers. */
  lemma FencedRepairRestores(valid: string -> bool, space: Spaces, raw: string, p: string, cut: string,
                             before: string, info: string, after: string, closed: bool)
    requires (forall s :: valid(s) ==> IsJson(s)) && WhiteSpace(space)
    requires IsJson(p + cut) && AllClosers(cut) && InFence(space, raw, p, before, info, after, closed)
    ensures Repaired(valid, space, raw) == Trim(space, p) + cut
  {
    CutHasNoFence(space, p, cut);
    StrippedOfFence(space, raw, p, before, info, after, closed);
    RepairOfCut(valid, space, raw, p, cut);
  }

  lemma StrippedOfFence(space: Spaces, raw: string, p: string, before: string, info: string, after: string, closed: bool)
    requires WhiteSpace(space) && InFence(space, raw, p, before, info, after, closed)
    requires var q := Trim(space, p); q != "" && q[0] != '`' && q[|q| - 1] != '`'
    ensures Stripped(space, raw) == Trim(space, p)
  {
    var q := Trim(space, p);
    TrimIsTrimmed(space, p);
    TrimParts(space, p);
    var w, x :| AllSpace(space, w) && AllSpace(space, x) && p == w + q + x;
    var line := FENCE + info;
    assert forall i :: 0 <= i < |line| ==> line[i] != '\n';
    if closed {
      assert raw == before + (line + "\n" + (p + FENCE)) + after;
      ClosedFence(space, before, line, p, after, w, q, x);
    } else {
      assert raw == before + (line + "\n" + (w + q)) + (x + after);
      OpenFence(space, before, line, x + after, w, q);
    }
  }

  lemma FirstLineOff(space: Spaces, before: string, line: string, rest: string, after: string)
    requires WhiteSpace(space) && AllSpace(space, before) && AllSpace(space, after)
    requires FENCE <= line && forall i :: 0 <= i < |line| ==> line[i] != '\n'
    requires rest != "" && !space(rest[|rest| - 1])
    ensures Stripped(space, before + (line + "\n" + rest) + after) == Trim(space, WithoutSuffix(Trim(space, rest), FENCE))
  {
    var s := line + "\n" + rest;
    assert s[0] == '`' && s[|s| - 1] == rest[|rest| - 1];
    TrimMiddle(space, before, s, after);
    assert LineBreak(line + "\n" + rest) == |line| by {
      var s := line + "\n" + rest;
      assert s[|line|] == '\n';
      assert forall i :: 0 <= i < |line| ==> s[i] == line[i];
    }
    assert s[|line| + 1..] == rest;
  }

  lemma SuffixOff(s: string, suffix: string)
    ensures WithoutSuffix(s + suffix, suffix) == s
  {
    assert (s + suffix)[|s|..] == suffix && (s + suffix)[..|s|] == s;
  }

  lemma OpenFence(space: Spaces, before: string, line: string, after: string, w: string, q: string)
    requires WhiteSpace(space) && AllSpace(space, before) && AllSpace(space, after)
    requires FENCE <= line && forall i :: 0 <= i < |line| ==> line[i] != '\n'
    requires AllSpace(space, w) && q != "" && !space(q[0]) && !space(q[|q| - 1]) && q[|q| - 1] != '`'
    ensures Stripped(space, before + (line + "\n" + (w + q)) + after) == q
  {
    FirstLineOff(space, before, line, w + q, after);
    assert w + q == w + q + "";
    TrimMiddle(space, w, q, "");
    assert WithoutSuffix(q, FENCE) == q;
    TrimOfTrimmed(space, q);
  }

  lemma ClosedFence(space: Spaces, before: string, line: string, p: string, after: string, w: string, q: string, x: string)
    requires WhiteSpace(space) && AllSpace(space, before) && AllSpace(space, after)
    requires FENCE <= line && forall i :: 0 <= i < |line| ==> line[i] != '\n'
    requires p == w + q + x && AllSpace(space, w) && AllSpace(space, x) && q != "" && !space(q[0]) && !space(q[|q| - 1])
    ensures Stripped(space, before + (line + "\n" + (p + FENCE)) + after) == q
  {
    FirstLineOff(space, before, line, p + FENCE, after);
    BeforeFence(space, p, w, q, x);
  }

  lemma BeforeFence(space: Spaces, p: string, w: string, q: string, x: string)
    requires WhiteSpace(space) && p == w + q + x && AllSpace(space, w) && AllSpace(space, x)
    requires q != "" && !space(q[0]) && !space(q[|q| - 1])
    ensures Trim(space, WithoutSuffix(Trim(space, p + FENCE), FENCE)) == q
  {
    var kept := q + x + FENCE;
    FencedEnds(q, x);
    TrimMiddle(space, w, kept, "");
    assert p + FENCE == w + kept + "";
    SuffixOff(q + x, FENCE);
    TrimMiddle(space, "", q, x);
    assert q + x == "" + q + x;
  }

  lemma FencedEnds(q: string, x: string)
    requires q != ""
    ensures var kept := q + x + FENCE; kept != "" && kept[0] == q[0] && kept[|kept| - 1] == '`'
  {
  }

  /** Any text: what the strip leaves is extended to one that scans clean, unless it ends in an open escape. */
  lemma RepairScansClean(valid: string -> bool, space: Spaces, raw: string)
    requires forall s :: valid(s) ==> IsJson(s)
    ensures Stripped(space, raw) <= Repaired(valid, space, raw)
    ensures Scan(START, Repaired(valid, space, raw)) == START <==> !Scan(START, Stripped(space, raw)).escaped
  {
    ClosedScansClean(Stripped(space, raw));
    if valid(Stripped(space, raw)) {
      JsonNeedsNoRepair(Stripped(space, raw));
    }
  }

  lemma {:induction false} ClosersAt(stack: string, i: nat)
    requires i < |stack|
    ensures |Closers(stack)| == |stack| && Closers(stack)[i] == stack[|stack| - 1 - i]
  {
    var n := |stack| - 1;
    if n > 0 {
      ClosersAt(stack[..n], if i == 0 then 0 else i - 1);
    }
  }

  lemma ClosersReverse(stack: string)
    ensures |Closers(stack)| == |stack|
    ensures forall i :: 0 <= i < |Closers(stack)| ==> Closers(stack)[i] == stack[|stack| - 1 - i]
  {
    if stack != "" {
      ClosersAt(stack, 0);
    }
    forall i | 0 <= i < |stack| ensures Closers(stack)[i] == stack[|stack| - 1 - i] {
      ClosersAt(stack, i);
    }
  }

  /** added closes what is still open, the innermost first. */
  predicate ClosesAll(stack: string, added: string) {
    |added| == |stack| && forall i :: 0 <= i < |added| ==> added[i] == stack[|stack| - 1 - i] && IsCloser(added[i])
  }

  lemma ClosersCloseAll(s: string)
    ensures var stack := Scan(START, s).stack; ClosesAll(stack, Closers(stack))
  {
    StackIsClosers(s);
    ClosersReverse(Scan(START, s).stack);
  }

  lemma AfterPrefix(a: string, b: string)
    ensures a <= a + b && (a + b)[|a|..] == b
  {
  }

  /**
   * What a repair adds to a text that is not valid: a quote exactly if the text
   * stops inside a string, and then a closer for each bracket still open, the
   * innermost first. Nothing else, and nothing to a valid one.
   */
  lemma RepairAdds(valid: string -> bool, space: Spaces, raw: string)
    ensures var s, r := Stripped(space, raw), Repaired(valid, space, raw);
            var st := Scan(START, s);
            var head := s + if st.inString then "\"" else "";
            && (valid(s) ==> r == s)
            && (!valid(s) ==> head <= r && ClosesAll(st.stack, r[|head|..]))
  {
    var s := Stripped(space, raw);
    var st := Scan(START, s);
    var head := s + if st.inString then "\"" else "";
    ClosersCloseAll(s);
    AfterPrefix(head, Closers(st.stack));
    if !valid(s) {
      assert Repaired(valid, space, raw) == head + Closers(st.stack);
    }
  }

  /** Repairing a JSON text only trims it. */
  lemma RepairOfJson(valid: string -> bool, space: Spaces, s: string)
    requires (forall t :: valid(t) ==> IsJson(t)) && WhiteSpace(space) && IsJson(s)
    ensures Repaired(valid, space, s) == Trim(space, s) && Closed(Trim(space, s)) == Trim(space, s)
  {
    assert s + "" == s;
    RepairRestores(valid, space, s, "");
    CutJson(s, "");
    JsonNeedsNoRepair(s);
    TrimmedScansAlike(space, s);
  }
}
