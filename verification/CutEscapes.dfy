/**
 * Where a cut can fall in a string (repairJSON,
 * cmd/cortexdb-mcp-stdio/capture_session.go): between two characters the text
 * is repaired, within an escape it is not.
 */
module CutEscapes {
  import opened Texts
  import opened JsonText
  import opened Repair
  import opened CutStrings

  // --------------------------------------------- every open quote starts a string

  /** What stands after a quote outside strings: the characters of a string, and its closing quote. */
  ghost predicate Starts(chars: seq<Letter>, rest: string, after: string) {
    Letters(chars) && rest == LettersText(chars) + "\"" + after
  }

  lemma StartsLonger(chars: seq<Letter>, rest: string, after: string, more: string)
    requires Starts(chars, rest, after)
    ensures Starts(chars, rest + more, after + more)
  {
  }

  /** One text cut in two ways, the quote in its first part. */
  lemma QuoteIn(a: string, b: string, pre: string, rest: string)
    requires a + b == pre + "\"" + rest && |pre| < |a|
    ensures var r := a[|pre| + 1..]; a == pre + "\"" + r && rest == r + b
  {
    var w := a + b;
    assert w[..|pre|] == pre && w[|pre|] == '"' && w[|pre| + 1..] == rest;
    assert a[..|pre|] == pre && a[|pre|] == '"';
    assert a == a[..|pre|] + [a[|pre|]] + a[|pre| + 1..];
  }

  lemma QuoteAt(pre: string, rest: string, a: string, b: string)
    requires a + b == pre + "\"" + rest
    ensures |pre| < |a + b| && (a + b)[|pre|] == '"'
    ensures |pre| < |a| ==> a[|pre|] == '"'
    ensures |a| <= |pre| ==> b[|pre| - |a|] == '"' && pre == a + pre[|a|..] && b == pre[|a|..] + "\"" + rest
  {
    var w := a + b;
    assert w[|pre|] == '"';
    if |a| <= |pre| {
      assert w[..|pre|] == pre && w[..|a|] == a && pre[..|a|] == a;
      assert w[|a|..] == b;
    }
  }

  lemma {:induction false} FindInValue(v: Syntax, stack: string, pre: string, rest: string) returns (chars: seq<Letter>, after: string)
    requires IsValue(v) && OutsideAt(stack, pre) && Text(v) == pre + "\"" + rest
    ensures Starts(chars, rest, after)
    decreases v, 0
  {
    assert Text(v)[|pre|] == '"';
    match v
    case Literal(text) =>
      LiteralIsPlain(text);
      assert false;
    case Quoted(all) =>
      OnlyQuote(all, stack, pre, rest);
      chars, after := all, "";
    case List(blank, items) =>
      if items == [] {
        PlaceIn("[" + blank + "]", blank, |pre|);
        assert false;
      } else {
        QuoteInside('[', ItemsText(items), ']', pre, rest);
        var inner := pre[1..];
        OpenOutside('[', ']', stack, inner);
        chars, after := FindInItems(items, stack + "]", inner, rest[..|rest| - 1]);
        StartsLonger(chars, rest[..|rest| - 1], after, "]");
        after := after + "]";
      }
    case Record(blank, fields) =>
      if fields == [] {
        PlaceIn("{" + blank + "}", blank, |pre|);
        assert false;
      } else {
        QuoteInside('{', FieldsText(fields), '}', pre, rest);
        var inner := pre[1..];
        OpenOutside('{', '}', stack, inner);
        chars, after := FindInFields(fields, stack + "}", inner, rest[..|rest| - 1]);
        StartsLonger(chars, rest[..|rest| - 1], after, "}");
        after := after + "}";
      }
  }

  /** In the text of one string the only quote outside strings is the first. */
  lemma OnlyQuote(all: seq<Letter>, stack: string, pre: string, rest: string)
    requires Letters(all) && OutsideAt(stack, pre) && QuotedText(all) == pre + "\"" + rest
    ensures pre == "" && rest == LettersText(all) + "\""
  {
    var text := QuotedText(all);
    if pre != "" {
      assert text[..|pre|] == pre;
      PrefixOfQuoted(all, Outside(stack), |pre|);
    }
    assert text[1..] == LettersText(all) + "\"";
    assert pre == "" ==> ("\"" + rest)[1..] == rest && pre + "\"" + rest == "\"" + rest;
  }

  lemma QuoteInside(open: char, body: string, close: char, pre: string, rest: string)
    requires (open == '[' && close == ']') || (open == '{' && close == '}')
    requires [open] + body + [close] == pre + "\"" + rest
    ensures pre != "" && pre == [open] + pre[1..] && rest != "" && rest == rest[..|rest| - 1] + [close]
    ensures body == pre[1..] + "\"" + rest[..|rest| - 1]
  {
    var w := [open] + body + [close];
    assert w[0] == open && w[|w| - 1] == close && w[|pre|] == '"';
    CharOf(pre, "\"", rest, |w| - 1);
    CharOf(pre, "\"", rest, 0);
    assert w[1..|w| - 1] == body;
    assert (pre + "\"" + rest)[1..|w| - 1] == pre[1..] + "\"" + rest[..|rest| - 1];
  }

  lemma {:induction false} FindInItem(i: Item, stack: string, pre: string, rest: string) returns (chars: seq<Letter>, after: string)
    requires IsItem(i) && OutsideAt(stack, pre) && ItemText(i) == pre + "\"" + rest
    ensures Starts(chars, rest, after)
    decreases i, 0
  {
    QuoteBetween(i.before, Text(i.value), i.after, pre, rest);
    var inner := pre[|i.before|..];
    BlankIsSkipped(i.before, stack, inner);
    var r := Text(i.value)[|inner| + 1..];
    chars, after := FindInValue(i.value, stack, inner, r);
    StartsLonger(chars, r, after, i.after);
    after := after + i.after;
  }

  /** Between two runs of blanks, a quote is in what they surround. */
  lemma QuoteBetween(before: string, text: string, after: string, pre: string, rest: string)
    requires Blank(before) && Blank(after) && before + text + after == pre + "\"" + rest
    ensures |before| <= |pre| < |before| + |text| && pre == before + pre[|before|..]
    ensures var inner := pre[|before|..]; text == inner + "\"" + text[|inner| + 1..] && rest == text[|inner| + 1..] + after
  {
    Grouped(before, text, after);
    QuoteAt(pre, rest, before, text + after);
    var inner := pre[|before|..];
    QuoteAt(inner, rest, text, after);
    QuoteIn(text, after, inner, rest);
  }

  lemma {:induction false} FindInItems(items: seq<Item>, stack: string, pre: string, rest: string)
    returns (chars: seq<Letter>, after: string)
    requires items != [] && (forall i :: i in items ==> IsItem(i)) && OutsideAt(stack, pre)
    requires ItemsText(items) == pre + "\"" + rest
    ensures Starts(chars, rest, after)
    decreases items, 1
  {
    if |items| == 1 {
      chars, after := FindInItem(items[0], stack, pre, rest);
    } else {
      var a, more := ItemText(items[0]), ItemsText(items[1..]);
      Grouped(a, ",", more);
      if |pre| < |a| {
        QuoteIn(a, "," + more, pre, rest);
        chars, after := FindInItem(items[0], stack, pre, a[|pre| + 1..]);
        StartsLonger(chars, a[|pre| + 1..], after, "," + more);
        after := after + ("," + more);
      } else {
        ItemIsBalanced(items[0], stack);
        AfterSeparator(stack, a, ',', more, pre, rest);
        chars, after := FindInItems(items[1..], stack, pre[|a| + 1..], rest);
      }
    }
  }

  /** A quote after a separator. */
  lemma AfterSeparator(stack: string, a: string, sep: char, more: string, pre: string, rest: string)
    requires Balanced(a, stack) && (sep == ',' || sep == ':') && OutsideAt(stack, pre)
    requires a + [sep] + more == pre + "\"" + rest && |a| <= |pre|
    ensures |pre| > |a| && OutsideAt(stack, pre[|a| + 1..]) && more == pre[|a| + 1..] + "\"" + rest
  {
    var w := a + [sep] + more;
    assert w[|a|] == sep && w[|pre|] == '"';
    QuoteAt(pre, rest, a + [sep], more);
    SeparatorIsSkipped(stack, a, sep, pre[|a| + 1..]);
  }

  lemma {:induction false} FindInField(f: Field, stack: string, pre: string, rest: string) returns (chars: seq<Letter>, after: string)
    requires IsField(f) && OutsideAt(stack, pre) && FieldText(f) == pre + "\"" + rest
    ensures Starts(chars, rest, after)
    decreases f, 0
  {
    var a, more := f.before + QuotedText(f.name) + f.after, ItemText(f.item);
    Grouped(a, ":", more);
    if |pre| < |a| {
      QuoteIn(a, ":" + more, pre, rest);
      var r := a[|pre| + 1..];
      QuoteBetween(f.before, QuotedText(f.name), f.after, pre, r);
      var inner := pre[|f.before|..];
      BlankIsSkipped(f.before, stack, inner);
      OnlyQuote(f.name, stack, inner, QuotedText(f.name)[|inner| + 1..]);
      chars, after := f.name, f.after + (":" + more);
      StartsLonger(f.name, QuotedText(f.name)[|inner| + 1..], "", f.after + (":" + more));
      assert rest == QuotedText(f.name)[|inner| + 1..] + (f.after + (":" + more));
      assert "" + (f.after + (":" + more)) == after;
    } else {
      NameIsBalanced(f, stack);
      AfterSeparator(stack, a, ':', more, pre, rest);
      chars, after := FindInItem(f.item, stack, pre[|a| + 1..], rest);
    }
  }

  lemma {:induction false} FindInFields(fields: seq<Field>, stack: string, pre: string, rest: string)
    returns (chars: seq<Letter>, after: string)
    requires fields != [] && (forall f :: f in fields ==> IsField(f)) && OutsideAt(stack, pre)
    requires FieldsText(fields) == pre + "\"" + rest
    ensures Starts(chars, rest, after)
    decreases fields, 1
  {
    if |fields| == 1 {
      chars, after := FindInField(fields[0], stack, pre, rest);
    } else {
      var a, more := FieldText(fields[0]), FieldsText(fields[1..]);
      Grouped(a, ",", more);
      if |pre| < |a| {
        QuoteIn(a, "," + more, pre, rest);
        chars, after := FindInField(fields[0], stack, pre, a[|pre| + 1..]);
        StartsLonger(chars, a[|pre| + 1..], after, "," + more);
        after := after + ("," + more);
      } else {
        FieldIsBalanced(fields[0], stack);
        AfterSeparator(stack, a, ',', more, pre, rest);
        chars, after := FindInFields(fields[1..], stack, pre[|a| + 1..], rest);
      }
    }
  }

  // --------------------------------------------------- characters read one way

  /** No character's text begins another's. */
  lemma OneReading(a: Letter, b: Letter, x: string, y: string)
    requires IsLetter(a) && IsLetter(b) && LetterText(a) + x == LetterText(b) + y
    ensures a == b && x == y
  {
    var w := LetterText(a) + x;
    assert w[0] == LetterText(a)[0] == LetterText(b)[0];
    if !a.Plain? {
      assert w[1] == LetterText(a)[1] == LetterText(b)[1];
    }
    assert a.Hex? <==> b.Hex?;
    assert w[..|LetterText(a)|] == LetterText(a) && w[..|LetterText(b)|] == LetterText(b);
    assert w[|LetterText(a)|..] == x && w[|LetterText(b)|..] == y;
    if a.Hex? {
      assert LetterText(a)[2..] == a.digits && LetterText(b)[2..] == b.digits;
    }
  }

  lemma FirstLetter(chars: seq<Letter>, rest: string)
    requires chars != []
    ensures LettersText(chars) + rest == LetterText(chars[0]) + (LettersText(chars[1..]) + rest)
  {
  }

  lemma BrokenLetter(l: Letter, digits: string, x: string, y: string)
    requires IsLetter(l) && |digits| < 4
    ensures LetterText(l) + y != "\\u" + digits + "\"" + x
  {
    var v, w := LetterText(l) + y, "\\u" + digits + "\"" + x;
    assert w[0] == '\\' && w[1] == 'u' && w[2 + |digits|] == '"';
    match l
    case Plain(c) => assert v[0] == c;
    case Escaped(c) => assert v[1] == c;
    case Hex(all) => assert v[2 + |digits|] == LetterText(l)[2 + |digits|] == all[|digits|];
  }

  /** A broken \u escape before a quote is no character. */
  lemma {:induction false} BrokenEscape(front: seq<Letter>, digits: string, x: string, chars: seq<Letter>, y: string)
    requires Letters(front) && Letters(chars) && |digits| < 4
    ensures LettersText(front) + ("\\u" + digits + "\"" + x) != LettersText(chars) + ("\"" + y)
    decreases |front|
  {
    var broken, quote := "\\u" + digits + "\"" + x, "\"" + y;
    if front == [] {
      assert LettersText(front) + broken == broken && broken[0] == '\\';
      if chars == [] {
        assert (LettersText(chars) + quote)[0] == '"';
      } else {
        FirstLetter(chars, quote);
        BrokenLetter(chars[0], digits, x, LettersText(chars[1..]) + quote);
      }
    } else {
      FirstLetter(front, broken);
      if chars == [] {
        NoQuoteFirst(front[0], LettersText(front[1..]) + broken);
        assert LettersText(chars) + quote == quote && quote[0] == '"';
      } else {
        FirstLetter(chars, quote);
        BrokenEscape(front[1..], digits, x, chars[1..], y);
        if LettersText(front) + broken == LettersText(chars) + quote {
          OneReading(front[0], chars[0], LettersText(front[1..]) + broken, LettersText(chars[1..]) + quote);
        }
      }
    }
  }

  lemma NoQuoteFirst(l: Letter, rest: string)
    requires IsLetter(l)
    ensures (LetterText(l) + rest)[0] != '"'
  {
  }

  // ------------------------------------------------------------- the exact place

  /** The first n characters of a string's text end between two of its letters. */
  ghost predicate BetweenLetters(all: seq<Letter>, n: nat) {
    exists k :: 0 <= k <= |all| && |LettersText(all[..k])| == n
  }

  /** The beginning of an escape, and not the whole of it. */
  ghost predicate BrokenOff(s: string) {
    s == "\\" || exists digits :: s == "\\u" + digits && |digits| < 4 && HexDigits(digits)
  }

  /** Any other cut leaves the beginning of an escape. */
  lemma {:induction false} CutLetter(all: seq<Letter>, n: nat) returns (k: nat, broken: string)
    requires Letters(all) && n <= |LettersText(all)|
    ensures k <= |all| && LettersText(all)[..n] == LettersText(all[..k]) + broken
    ensures broken == "" || BrokenOff(broken)
    ensures broken == "" ==> BetweenLetters(all, n)
    ensures broken != "" ==> !BetweenLetters(all, n)
    decreases |all|
  {
    if n == 0 {
      CutNowhere(all);
      k, broken := 0, "";
    } else if n < |LetterText(all[0])| {
      k, broken := 0, LetterText(all[0])[..n];
      CutInFirst(all, n);
    } else {
      var j, b := CutLetter(all[1..], n - |LetterText(all[0])|);
      k, broken := j + 1, b;
      CutFurther(all, n, j, b);
      assert IsLetter(all[0]);
      BetweenMore(all, n);
    }
  }

  lemma CutNowhere(all: seq<Letter>)
    ensures LettersText(all)[..0] == LettersText(all[..0]) + "" && BetweenLetters(all, 0)
  {
    assert all[..0] == [] && |LettersText(all[..0])| == 0;
  }

  lemma CutInFirst(all: seq<Letter>, n: nat)
    requires all != [] && Letters(all) && 0 < n < |LetterText(all[0])|
    ensures n <= |LettersText(all)| && LettersText(all)[..n] == LettersText(all[..0]) + LetterText(all[0])[..n]
    ensures var b := LetterText(all[0])[..n];
            b != "" && BrokenOff(b)
    ensures !BetweenLetters(all, n)
  {
    assert all[..0] == [] && IsLetter(all[0]);
    InsideLetter(all[0], n);
    NotBetween(all, n);
  }

  lemma CutFurther(all: seq<Letter>, n: nat, j: nat, b: string)
    requires all != [] && Letters(all) && |LetterText(all[0])| <= n <= |LettersText(all)| && j < |all|
    requires LettersText(all[1..])[..n - |LetterText(all[0])|] == LettersText(all[1..][..j]) + b
    ensures LettersText(all)[..n] == LettersText(all[..j + 1]) + b
  {
    var first, rest := LetterText(all[0]), LettersText(all[1..]);
    PrefixMore(all, j);
    SliceAfter(first, rest, n);
    Grouped(first, LettersText(all[1..][..j]), b);
  }

  lemma SliceAfter(first: string, rest: string, n: nat)
    requires |first| <= n <= |first + rest|
    ensures (first + rest)[..n] == first + rest[..n - |first|]
  {
  }

  lemma InsideLetter(l: Letter, n: nat)
    requires IsLetter(l) && 0 < n < |LetterText(l)|
    ensures BrokenOff(LetterText(l)[..n])
  {
    var b := LetterText(l)[..n];
    if n == 1 {
      assert b == [LetterText(l)[0]];
    } else {
      var digits := l.digits[..n - 2];
      assert b == "\\u" + digits && HexDigits(digits);
    }
  }

  lemma PrefixMore(all: seq<Letter>, j: nat)
    requires all != [] && j < |all|
    ensures LettersText(all[..j + 1]) == LetterText(all[0]) + LettersText(all[1..][..j])
  {
    assert all[..j + 1][0] == all[0] && all[..j + 1][1..] == all[1..][..j];
  }

  lemma NotBetween(all: seq<Letter>, n: nat)
    requires all != [] && 0 < n < |LetterText(all[0])|
    ensures !BetweenLetters(all, n)
  {
    forall k | 0 <= k <= |all| ensures |LettersText(all[..k])| != n {
      if k == 0 {
        assert all[..0] == [];
      } else {
        PrefixMore(all, k - 1);
      }
    }
  }

  lemma BetweenMore(all: seq<Letter>, n: nat)
    requires all != [] && 0 < |LetterText(all[0])| <= n
    ensures BetweenLetters(all, n) <==> BetweenLetters(all[1..], n - |LetterText(all[0])|)
  {
    var rest, m := all[1..], n - |LetterText(all[0])|;
    if k :| 0 <= k <= |all| && |LettersText(all[..k])| == n {
      assert all[..0] == [] && k > 0;
      PrefixMore(all, k - 1);
      assert |LettersText(rest[..k - 1])| == m;
    }
    if j :| 0 <= j <= |rest| && |LettersText(rest[..j])| == m {
      PrefixMore(all, j);
      assert |LettersText(all[..j + 1])| == n;
    }
  }

  lemma FindInJson(pre: string, rest: string) returns (chars: seq<Letter>, after: string)
    requires !Scan(START, pre).inString && IsJson(pre + "\"" + rest)
    ensures Starts(chars, rest, after)
  {
    var i :| IsItem(i) && pre + "\"" + rest == ItemText(i);
    assert START == Outside("");
    chars, after := FindInItem(i, "", pre, rest);
  }

  /** A text that stops within an escape of a string is never closed to JSON. */
  lemma BrokenIsNotJson(pre: string, front: seq<Letter>, broken: string)
    requires Letters(front) && !Scan(START, pre).inString
    requires BrokenOff(broken)
    ensures !IsJson(UpTo(pre, front) + broken) && !IsJson(Closed(UpTo(pre, front) + broken))
  {
    var s := UpTo(pre, front) + broken;
    BrokenScan(pre, front, broken);
    ClosedScansClean(s);
    if IsJson(s) {
      JsonNeedsNoRepair(s);
    }
    if broken == "\\" {
      if IsJson(Closed(s)) {
        JsonNeedsNoRepair(Closed(s));
      }
    } else {
      var digits :| broken == "\\u" + digits && |digits| < 4 && HexDigits(digits);
      var more := Closers(Scan(START, s).stack);
      BrokenStaysBroken(pre, front, digits, more);
      assert Closed(s) == UpTo(pre, front) + ("\\u" + digits) + "\"" + more;
    }
  }

  lemma BrokenStaysBroken(pre: string, front: seq<Letter>, digits: string, more: string)
    requires Letters(front) && !Scan(START, pre).inString && |digits| < 4
    ensures !IsJson(UpTo(pre, front) + ("\\u" + digits) + "\"" + more)
  {
    var w := UpTo(pre, front) + ("\\u" + digits) + "\"" + more;
    var rest := LettersText(front) + ("\\u" + digits + "\"" + more);
    assert w == pre + "\"" + rest;
    if IsJson(w) {
      var chars, after := FindInJson(pre, rest);
      Grouped(LettersText(chars), "\"", after);
      BrokenEscape(front, digits, more, chars, after);
    }
  }

  lemma BrokenScan(pre: string, front: seq<Letter>, broken: string)
    requires Letters(front) && !Scan(START, pre).inString && BrokenOff(broken)
    ensures var st := Scan(START, UpTo(pre, front) + broken); st.inString && (st.escaped <==> broken == "\\")
  {
    ScanUpTo(pre, front);
    ScanAppend(START, UpTo(pre, front), broken);
    BrokenInside(Scan(START, pre).stack, broken);
  }

  lemma BrokenInside(stack: string, broken: string)
    requires BrokenOff(broken)
    ensures var st := Scan(Inside(stack), broken); st.inString && (st.escaped <==> broken == "\\")
  {
    FeedOne(Inside(stack), '\\');
    if broken != "\\" {
      var digits :| broken == "\\u" + digits && |digits| < 4 && HexDigits(digits);
      assert broken == ['\\'] + (['u'] + digits);
      ScanAppend(Inside(stack), ['\\'], ['u'] + digits);
      ScanAppend(Inside(stack).(escaped := true), ['u'], digits);
      FeedOne(Inside(stack).(escaped := true), 'u');
      HexStaysInside(digits, stack);
    }
  }

  /**
   * A JSON text cut somewhere in a string that only brackets and blanks
   * followed is repaired to JSON exactly when it was cut between two characters
   * of the string, and not within an escape.
   */
  lemma CutRepairedExactly(valid: string -> bool, space: Spaces, pre: string, all: seq<Letter>, n: nat, tail: string)
    requires (forall s :: valid(s) ==> IsJson(s)) && WhiteSpace(space)
    requires Letters(all) && Tail(tail) && !Scan(START, pre).inString && n <= |LettersText(all)|
    requires IsJson(pre + QuotedText(all) + tail)
    ensures IsJson(Repaired(valid, space, pre + "\"" + LettersText(all)[..n])) <==> BetweenLetters(all, n)
  {
    var k, broken := CutLetter(all, n);
    Grouped(pre + "\"", LettersText(all[..k]), broken);
    if broken == "" {
      assert UpTo(pre, all[..k]) + broken == UpTo(pre, all[..k]);
      WholeLetters(valid, space, pre, all, k, tail);
    } else {
      LettersPrefix(all, k);
      BrokenIsKept(space, pre, all[..k], broken);
      BrokenIsStripped(valid, space, pre, all, tail, all[..k], broken);
    }
  }

  lemma LettersPrefix(all: seq<Letter>, k: nat)
    requires Letters(all) && k <= |all|
    ensures Letters(all[..k]) && all[..k] <= all && all == all[..k] + all[k..]
  {
    forall l | l in all[..k] ensures IsLetter(l) {
      assert l in all;
    }
  }

  lemma WholeLetters(valid: string -> bool, space: Spaces, pre: string, all: seq<Letter>, k: nat, tail: string)
    requires (forall s :: valid(s) ==> IsJson(s)) && WhiteSpace(space) && k <= |all|
    requires Letters(all) && Tail(tail) && !Scan(START, pre).inString && IsJson(pre + QuotedText(all) + tail)
    ensures IsJson(Repaired(valid, space, UpTo(pre, all[..k])))
  {
    LettersPrefix(all, k);
    CutStringRestores(valid, space, pre, all[..k], all[k..], tail);
  }

  lemma VisibleEnd(broken: string)
    requires BrokenOff(broken)
    ensures broken != "" && '!' <= broken[|broken| - 1] <= '~'
  {
    if broken != "\\" {
      var digits :| broken == "\\u" + digits && |digits| < 4 && HexDigits(digits);
      assert digits != "" ==> broken[|broken| - 1] == digits[|digits| - 1];
    }
  }

  lemma BrokenIsKept(space: Spaces, pre: string, front: seq<Letter>, broken: string)
    requires WhiteSpace(space)
    requires BrokenOff(broken)
    ensures Trim(space, UpTo(pre, front) + broken) == UpTo(TrimLeft(space, pre), front) + broken
  {
    var quoted := "\"" + (LettersText(front) + broken);
    VisibleEnd(broken);
    QuotedFrom(pre, front, broken);
    TrimLeftCut(space, pre, quoted);
    QuotedFrom(TrimLeft(space, pre), front, broken);
    var left := UpTo(TrimLeft(space, pre), front) + broken;
    assert left[|left| - 1] == broken[|broken| - 1];
    assert TrimRight(space, left) == left;
  }

  lemma QuotedFrom(pre: string, front: seq<Letter>, broken: string)
    ensures UpTo(pre, front) + broken == pre + ("\"" + (LettersText(front) + broken))
  {
  }

  lemma BrokenIsStripped(valid: string -> bool, space: Spaces, pre: string, all: seq<Letter>, tail: string,
                         front: seq<Letter>, broken: string)
    requires (forall s :: valid(s) ==> IsJson(s)) && WhiteSpace(space)
    requires Letters(all) && Tail(tail) && !Scan(START, pre).inString && IsJson(pre + QuotedText(all) + tail) && front <= all
    requires BrokenOff(broken)
    requires Trim(space, UpTo(pre, front) + broken) == UpTo(TrimLeft(space, pre), front) + broken
    ensures !IsJson(Repaired(valid, space, UpTo(pre, front) + broken))
  {
    var left := TrimLeft(space, pre);
    var s := UpTo(left, front) + broken;
    CutCloses(space, pre, all, tail, front);
    TrimmedJson(space, pre, QuotedText(all), tail);
    assert FENCE[0] == '`' && s[0] == UpTo(left, front)[0] && !(FENCE <= s);
    BrokenIsNotJson(left, front, broken);
    assert Stripped(space, UpTo(pre, front) + broken) == s;
  }
}
