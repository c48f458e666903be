/**
 * A reply that a token limit cut inside a string (repairJSON,
 * cmd/cortexdb-mcp-stdio/capture_session.go): with nothing but brackets missing
 * after it, the repair is a JSON text again, and holds the string up to the cut.
 */
module CutStrings {
  import opened Texts
  import opened JsonText
  import opened Repair

  /** Nothing but closing brackets and the blanks between them. */
  predicate Tail(s: string) {
    forall i :: 0 <= i < |s| ==> IsCloser(s[i]) || IsBlank(s[i])
  }

  function NoBlanks(s: string): string {
    if s == "" then "" else NoBlanks(s[..|s| - 1]) + if IsBlank(s[|s| - 1]) then "" else [s[|s| - 1]]
  }

  predicate Letters(chars: seq<Letter>) {
    forall l :: l in chars ==> IsLetter(l)
  }

  /** A place outside any string, from where a string may start. */
  predicate OutsideAt(stack: string, pre: string) {
    !Scan(Outside(stack), pre).inString
  }

  lemma {:induction false} NoBlanksAppend(a: string, b: string)
    ensures NoBlanks(a + b) == NoBlanks(a) + NoBlanks(b)
    decreases |b|
  {
    if b == "" {
      assert a + b == a;
    } else {
      assert (a + b)[..|a + b| - 1] == a + b[..|b| - 1];
      NoBlanksAppend(a, b[..|b| - 1]);
    }
  }

  lemma {:induction false} BlanksGo(s: string)
    requires Blank(s)
    ensures NoBlanks(s) == ""
    decreases |s|
  {
    if s != "" {
      BlanksGo(s[..|s| - 1]);
    }
  }

  lemma {:induction false} TailIsClosers(s: string)
    requires Tail(s)
    ensures AllClosers(NoBlanks(s))
    decreases |s|
  {
    if s != "" {
      TailIsClosers(s[..|s| - 1]);
    }
  }

  // ------------------------------------------------------------ inside a string

  lemma PrefixOfLetter(l: Letter, stack: string, n: nat)
    requires IsLetter(l) && n <= |LetterText(l)|
    ensures Scan(Inside(stack), LetterText(l)[..n]).inString
  {
    var s := LetterText(l);
    if n == |s| {
      assert s[..n] == s;
      LetterStaysInside(l, stack);
    } else if n == 0 {
      assert s[..0] == "";
    } else {
      FeedOne(Inside(stack), '\\');
      assert s[..1] == ['\\'];
      if n > 1 {
        var digits := l.digits;
        assert s[..n] == ['\\'] + (['u'] + digits[..n - 2]);
        ScanAppend(Inside(stack), ['\\'], ['u'] + digits[..n - 2]);
        ScanAppend(Inside(stack).(escaped := true), ['u'], digits[..n - 2]);
        FeedOne(Inside(stack).(escaped := true), 'u');
        HexStaysInside(digits[..n - 2], stack);
      }
    }
  }

  lemma {:induction false} PrefixOfLetters(chars: seq<Letter>, stack: string, n: nat)
    requires Letters(chars) && n <= |LettersText(chars)|
    ensures Scan(Inside(stack), LettersText(chars)[..n]).inString
    decreases |chars|
  {
    if chars != [] {
      var first, rest := LetterText(chars[0]), LettersText(chars[1..]);
      var s := LettersText(chars);
      if n <= |first| {
        assert s[..n] == first[..n];
        PrefixOfLetter(chars[0], stack, n);
      } else {
        assert s[..n] == first + rest[..n - |first|];
        LetterStaysInside(chars[0], stack);
        ScanAppend(Inside(stack), first, rest[..n - |first|]);
        PrefixOfLetters(chars[1..], stack, n - |first|);
      }
    }
  }

  /** A string that has begun and not ended. */
  lemma PrefixOfQuoted(chars: seq<Letter>, st: State, n: nat)
    requires Letters(chars) && 0 < n < |QuotedText(chars)| && !st.inString && !st.escaped
    ensures Scan(st, QuotedText(chars)[..n]).inString
  {
    var body := LettersText(chars);
    assert QuotedText(chars)[..n] == "\"" + body[..n - 1];
    ScanAppend(st, "\"", body[..n - 1]);
    FeedOne(st, '"');
    assert Scan(st, "\"") == Inside(st.stack);
    PrefixOfLetters(chars, st.stack, n - 1);
  }

  /** A balanced text does not end inside a string that starts outside one. */
  lemma BalancedIsNotCut(stack: string, a: string, pre: string, chars: seq<Letter>, n: nat)
    requires Balanced(a, stack) && OutsideAt(stack, pre) && Letters(chars)
    requires n < |QuotedText(chars)| && a == pre + QuotedText(chars)[..n]
    ensures n == 0
  {
    ScanAppend(Outside(stack), pre, QuotedText(chars)[..n]);
    if n > 0 {
      NotEscapedOutside(stack, pre);
      PrefixOfQuoted(chars, Scan(Outside(stack), pre), n);
    }
  }

  lemma CharOf(a: string, b: string, c: string, k: nat)
    ensures k < |a + b + c| ==>
              (a + b + c)[k] == if k < |a| then a[k] else if k < |a| + |b| then b[k - |a|] else c[k - |a| - |b|]
  {
  }

  /** A comma or colon after a balanced text does not stand in a string, nor among brackets and blanks. */
  lemma SeparatorIsEarly(stack: string, a: string, sep: char, w: string, pre: string, chars: seq<Letter>, tail: string)
    requires Balanced(a, stack) && (sep == ',' || sep == ':') && |a| < |w| && w[..|a|] == a && w[|a|] == sep
    requires OutsideAt(stack, pre) && Letters(chars) && Tail(tail)
    requires w == pre + QuotedText(chars) + tail
    ensures |pre| > |a|
  {
    var h, k := QuotedText(chars), |a|;
    CharOf(pre, h, tail, k);
    if |pre| <= k < |pre| + |h| {
      assert a == pre + h[..k - |pre|] by {
        assert w[..k] == (pre + h)[..k];
      }
      BalancedIsNotCut(stack, a, pre, chars, k - |pre|);
    }
  }

  lemma SeparatorIsBefore(stack: string, a: string, sep: char, rest: string, pre: string, chars: seq<Letter>, tail: string)
    requires Balanced(a, stack) && (sep == ',' || sep == ':')
    requires OutsideAt(stack, pre) && Letters(chars) && Tail(tail)
    requires a + [sep] + rest == pre + QuotedText(chars) + tail
    ensures |pre| > |a| && pre == a + [sep] + pre[|a| + 1..] && rest == pre[|a| + 1..] + QuotedText(chars) + tail
    ensures OutsideAt(stack, pre[|a| + 1..])
  {
    var w := a + [sep] + rest;
    assert w[|a|] == sep && w[..|a|] == a;
    SeparatorIsEarly(stack, a, sep, w, pre, chars, tail);
    var more := pre[|a| + 1..];
    SplitAt(a + [sep], rest, pre, QuotedText(chars) + tail);
    assert rest == more + QuotedText(chars) + tail;
    SeparatorIsSkipped(stack, a, sep, more);
  }

  /** One text cut in two ways. */
  lemma SplitAt(a: string, b: string, c: string, d: string)
    requires a + b == c + d && |a| <= |c|
    ensures c == a + c[|a|..] && b == c[|a|..] + d
  {
    assert (a + b)[..|a|] == a && (c + d)[..|a|] == c[..|a|];
    assert (a + b)[|a|..] == b && (c + d)[|a|..] == c[|a|..] + d;
  }

  lemma SeparatorIsSkipped(stack: string, a: string, sep: char, more: string)
    requires Balanced(a, stack) && (sep == ',' || sep == ':')
    ensures Scan(Outside(stack), a + [sep] + more) == Scan(Outside(stack), more)
  {
    ScanAppend(Outside(stack), a + [sep], more);
    ScanAppend(Outside(stack), a, [sep]);
    FeedOne(Outside(stack), sep);
  }

  lemma {:induction false} NotEscapedOutside(stack: string, s: string)
    ensures Scan(Outside(stack), s).escaped ==> Scan(Outside(stack), s).inString
    decreases |s|
  {
    if s != "" {
      NotEscapedOutside(stack, s[..|s| - 1]);
    }
  }

  // ------------------------------------------------- the string put in its place

  /** The last string of a value, with only brackets after it, can be any other, and the blanks go. */
  lemma {:induction false} SwapInValue(v: Syntax, stack: string, pre: string, chars: seq<Letter>, tail: string, kept: seq<Letter>)
    returns (w: Syntax)
    requires IsValue(v) && Letters(chars) && Letters(kept) && Tail(tail) && OutsideAt(stack, pre)
    requires Text(v) == pre + QuotedText(chars) + tail
    ensures IsValue(w) && Text(w) == pre + QuotedText(kept) + NoBlanks(tail)
    decreases v, 0
  {
    var h := QuotedText(chars);
    assert Text(v)[|pre|] == '"';
    match v
    case Literal(text) =>
      LiteralIsPlain(text);
      assert false;
    case Quoted(all) =>
      OnlyString(all, stack, pre, chars, tail);
      w := Quoted(kept);
    case List(blank, items) =>
      if items == [] {
        PlaceIn("[" + blank + "]", blank, |pre|);
        assert false;
      } else {
        Unwrapped('[', ItemsText(items), ']', pre, chars, tail);
        var inner, rest := pre[1..], tail[..|tail| - 1];
        OpenOutside('[', ']', stack, inner);
        var out := SwapInItems(items, stack + "]", inner, chars, rest, kept);
        w := List("", out);
        Wrapped('[', ']', inner, kept, rest);
      }
    case Record(blank, fields) =>
      if fields == [] {
        PlaceIn("{" + blank + "}", blank, |pre|);
        assert false;
      } else {
        Unwrapped('{', FieldsText(fields), '}', pre, chars, tail);
        var inner, rest := pre[1..], tail[..|tail| - 1];
        OpenOutside('{', '}', stack, inner);
        var out := SwapInFields(fields, stack + "}", inner, chars, rest, kept);
        w := Record("", out);
        Wrapped('{', '}', inner, kept, rest);
      }
  }

  /** An empty list or object has no quote in it. */
  lemma PlaceIn(s: string, blank: string, k: nat)
    requires Blank(blank) && (s == "[" + blank + "]" || s == "{" + blank + "}") && k < |s|
    ensures s[k] != '"'
  {
    assert k == 0 || k == |s| - 1 || s[k] == blank[k - 1];
  }

  /** A string that ends a string's text is the whole of it. */
  lemma OnlyString(all: seq<Letter>, stack: string, pre: string, chars: seq<Letter>, tail: string)
    requires Letters(all) && Letters(chars) && OutsideAt(stack, pre)
    requires QuotedText(all) == pre + QuotedText(chars) + tail
    ensures pre == "" && tail == ""
  {
    var text, h := QuotedText(all), QuotedText(chars);
    NotEscapedOutside(stack, "");
    if pre != "" {
      assert text[..|pre|] == pre;
      PrefixOfQuoted(all, Outside(stack), |pre|);
    }
    if tail != "" {
      assert text[..|pre + h|] == pre + h;
      PrefixOfQuoted(all, Outside(stack), |pre + h|);
      assert pre == "" ==> pre + h == h;
      QuotedIsBalanced(chars, stack);
    }
  }

  /** Inside the brackets of a list or object. */
  lemma Unwrapped(open: char, body: string, close: char, pre: string, chars: seq<Letter>, tail: string)
    requires (open == '[' && close == ']') || (open == '{' && close == '}')
    requires [open] + body + [close] == pre + QuotedText(chars) + tail
    ensures pre != "" && pre == [open] + pre[1..]
    ensures tail != "" && tail == tail[..|tail| - 1] + [close]
    ensures body == pre[1..] + QuotedText(chars) + tail[..|tail| - 1]
  {
    var h := QuotedText(chars);
    var w := pre + h + tail;
    assert w[0] == open && w[|w| - 1] == close && h[0] == '"' && h[|h| - 1] == '"';
    CharOf(pre, h, tail, 0);
    CharOf(pre, h, tail, |w| - 1);
    assert pre[0] == open && tail[|tail| - 1] == close;
    assert w[1..|w| - 1] == pre[1..] + h + tail[..|tail| - 1];
    assert ([open] + body + [close])[1..|w| - 1] == body;
  }

  lemma OpenOutside(open: char, close: char, stack: string, inner: string)
    requires (open == '[' && close == ']') || (open == '{' && close == '}')
    requires OutsideAt(stack, [open] + inner)
    ensures OutsideAt(stack + [close], inner)
  {
    ScanAppend(Outside(stack), [open], inner);
    FeedOne(Outside(stack), open);
  }

  lemma Wrapped(open: char, close: char, inner: string, kept: seq<Letter>, rest: string)
    requires IsCloser(close)
    ensures [open] + (inner + QuotedText(kept) + NoBlanks(rest)) + [close]
         == ([open] + inner) + QuotedText(kept) + NoBlanks(rest + [close])
  {
    assert (rest + [close])[..|rest|] == rest;
  }

  lemma {:induction false} SwapInItem(i: Item, stack: string, pre: string, chars: seq<Letter>, tail: string, kept: seq<Letter>)
    returns (out: Item)
    requires IsItem(i) && Letters(chars) && Letters(kept) && Tail(tail) && OutsideAt(stack, pre)
    requires ItemText(i) == pre + QuotedText(chars) + tail
    ensures IsItem(out) && ItemText(out) == pre + QuotedText(kept) + NoBlanks(tail)
    decreases i, 0
  {
    WithoutBlanks(i.before, Text(i.value), i.after, pre, chars, tail);
    var inner, rest := pre[|i.before|..], tail[..|tail| - |i.after|];
    BlankIsSkipped(i.before, stack, inner);
    var w := SwapInValue(i.value, stack, inner, chars, rest, kept);
    out := Item(i.before, w, "");
    Rejoined(i.before, inner, kept, rest, i.after);
  }

  lemma BlankIsSkipped(before: string, stack: string, inner: string)
    requires Blank(before) && OutsideAt(stack, before + inner)
    ensures OutsideAt(stack, inner)
  {
    PlainIsBalanced(before, stack);
    ScanAppend(Outside(stack), before, inner);
  }

  lemma Rejoined(before: string, inner: string, kept: seq<Letter>, rest: string, after: string)
    requires Blank(after)
    ensures before + (inner + QuotedText(kept) + NoBlanks(rest)) + ""
         == (before + inner) + QuotedText(kept) + NoBlanks(rest + after)
  {
    NoBlanksAppend(rest, after);
    BlanksGo(after);
  }

  /** The blanks around a value hold no string. */
  lemma WithoutBlanks(before: string, text: string, after: string, pre: string, chars: seq<Letter>, tail: string)
    requires Blank(before) && Blank(after) && before + text + after == pre + QuotedText(chars) + tail
    ensures |before| <= |pre| && pre == before + pre[|before|..]
    ensures |after| <= |tail| && tail == tail[..|tail| - |after|] + after
    ensures text == pre[|before|..] + QuotedText(chars) + tail[..|tail| - |after|]
  {
    var h := QuotedText(chars);
    var w := pre + h + tail;
    var last := |pre| + |h| - 1;
    assert w[|pre|] == '"' && w[last] == '"';
    CharOf(before, text, after, |pre|);
    CharOf(before, text, after, last);
    assert w[..|before|] == before && w[|w| - |after|..] == after;
    assert w[|before|..|w| - |after|] == text;
  }

  lemma {:induction false} SwapInItems(items: seq<Item>, stack: string, pre: string, chars: seq<Letter>, tail: string, kept: seq<Letter>)
    returns (out: seq<Item>)
    requires items != [] && (forall i :: i in items ==> IsItem(i))
    requires Letters(chars) && Letters(kept) && Tail(tail) && OutsideAt(stack, pre)
    requires ItemsText(items) == pre + QuotedText(chars) + tail
    ensures out != [] && (forall i :: i in out ==> IsItem(i))
    ensures ItemsText(out) == pre + QuotedText(kept) + NoBlanks(tail)
    decreases items, 1
  {
    if |items| == 1 {
      var i := SwapInItem(items[0], stack, pre, chars, tail, kept);
      out := [i];
    } else {
      var a := ItemText(items[0]);
      ItemIsBalanced(items[0], stack);
      SeparatorIsBefore(stack, a, ',', ItemsText(items[1..]), pre, chars, tail);
      var more := SwapInItems(items[1..], stack, pre[|a| + 1..], chars, tail, kept);
      out := [items[0]] + more;
      assert out[0] == items[0] && out[1..] == more;
      Joined(a, ",", pre[|a| + 1..], QuotedText(kept), NoBlanks(tail));
    }
  }

  lemma {:induction false} SwapInField(f: Field, stack: string, pre: string, chars: seq<Letter>, tail: string, kept: seq<Letter>)
    returns (out: Field)
    requires IsField(f) && Letters(chars) && Letters(kept) && Tail(tail) && OutsideAt(stack, pre)
    requires FieldText(f) == pre + QuotedText(chars) + tail
    ensures IsField(out) && FieldText(out) == pre + QuotedText(kept) + NoBlanks(tail)
    decreases f, 0
  {
    var a := f.before + QuotedText(f.name) + f.after;
    NameIsBalanced(f, stack);
    SeparatorIsBefore(stack, a, ':', ItemText(f.item), pre, chars, tail);
    var i := SwapInItem(f.item, stack, pre[|a| + 1..], chars, tail, kept);
    out := Field(f.before, f.name, f.after, i);
    Joined(a, ":", pre[|a| + 1..], QuotedText(kept), NoBlanks(tail));
  }

  lemma Joined(a: string, sep: string, b: string, c: string, d: string)
    ensures a + sep + (b + c + d) == (a + sep + b) + c + d
  {
  }

  lemma NameIsBalanced(f: Field, stack: string)
    requires IsField(f)
    ensures Balanced(f.before + QuotedText(f.name) + f.after, stack)
  {
    PlainIsBalanced(f.before, stack);
    QuotedIsBalanced(f.name, stack);
    PlainIsBalanced(f.after, stack);
    BalancedAppend(f.before, QuotedText(f.name), stack);
    BalancedAppend(f.before + QuotedText(f.name), f.after, stack);
  }

  lemma {:induction false} SwapInFields(fields: seq<Field>, stack: string, pre: string, chars: seq<Letter>, tail: string, kept: seq<Letter>)
    returns (out: seq<Field>)
    requires fields != [] && (forall f :: f in fields ==> IsField(f))
    requires Letters(chars) && Letters(kept) && Tail(tail) && OutsideAt(stack, pre)
    requires FieldsText(fields) == pre + QuotedText(chars) + tail
    ensures out != [] && (forall f :: f in out ==> IsField(f))
    ensures FieldsText(out) == pre + QuotedText(kept) + NoBlanks(tail)
    decreases fields, 1
  {
    if |fields| == 1 {
      var f := SwapInField(fields[0], stack, pre, chars, tail, kept);
      out := [f];
    } else {
      var a := FieldText(fields[0]);
      FieldIsBalanced(fields[0], stack);
      SeparatorIsBefore(stack, a, ',', FieldsText(fields[1..]), pre, chars, tail);
      var more := SwapInFields(fields[1..], stack, pre[|a| + 1..], chars, tail, kept);
      out := [fields[0]] + more;
      assert out[0] == fields[0] && out[1..] == more;
      Joined(a, ",", pre[|a| + 1..], QuotedText(kept), NoBlanks(tail));
    }
  }

  /** A JSON text stays one when the last string of it, with only brackets after it, is put otherwise. */
  lemma SwapInJson(pre: string, chars: seq<Letter>, tail: string, kept: seq<Letter>)
    requires Letters(chars) && Letters(kept) && Tail(tail) && !Scan(START, pre).inString
    requires IsJson(pre + QuotedText(chars) + tail)
    ensures IsJson(pre + QuotedText(kept) + NoBlanks(tail))
  {
    var i :| IsItem(i) && pre + QuotedText(chars) + tail == ItemText(i);
    assert START == Outside("");
    var out := SwapInItem(i, "", pre, chars, tail, kept);
    assert IsItem(out);
  }

  // -------------------------------------------------------- what the strip takes

  lemma {:induction false} LettersAppend(a: seq<Letter>, b: seq<Letter>)
    ensures LettersText(a + b) == LettersText(a) + LettersText(b)
    decreases |a|
  {
    if a == [] {
      assert a + b == b;
    } else {
      assert (a + b)[0] == a[0] && (a + b)[1..] == a[1..] + b;
      LettersAppend(a[1..], b);
    }
  }

  /** The text up to a cut inside a string. */
  function UpTo(pre: string, chars: seq<Letter>): string {
    pre + "\"" + LettersText(chars)
  }

  /** A character that stands for itself, neither the quote nor in any escape. */
  predicate Loose(c: char) {
    c !in "\"\\/bfnrt" && !IsHex(c)
  }

  lemma LastOfLetter(l: Letter)
    requires IsLetter(l)
    ensures var s := LetterText(l); s != "" && (Loose(s[|s| - 1]) ==> l == Plain(s[|s| - 1]) && |s| == 1)
  {
    match l
    case Plain(_) =>
    case Escaped(_) =>
    case Hex(digits) => assert IsHex(digits[3]) && LetterText(l)[|LetterText(l)| - 1] == digits[3];
  }

  lemma LastLetter(chars: seq<Letter>)
    requires chars != [] && Letters(chars)
    ensures var s, l := LettersText(chars), chars[|chars| - 1];
            && s != "" && (Loose(s[|s| - 1]) ==> l == Plain(s[|s| - 1]) && s[..|s| - 1] == LettersText(chars[..|chars| - 1]))
  {
    var n := |chars| - 1;
    var front, l := LettersText(chars[..n]), LetterText(chars[n]);
    LastOfLetter(chars[n]);
    OneLetter(chars[n]);
    LettersAppend(chars[..n], [chars[n]]);
    assert chars == chars[..n] + [chars[n]];
    assert LettersText(chars) == front + l && (front + l)[|front + l| - 1] == l[|l| - 1];
  }

  lemma OneLetter(l: Letter)
    ensures LettersText([l]) == LetterText(l)
  {
    assert [l][1..] == [] && LetterText(l) + LettersText([]) == LetterText(l);
  }

  /** Such a character at the end of the text is the last letter, and goes as one. */
  lemma DropLoose(pre: string, chars: seq<Letter>)
    requires Letters(chars) && var s := UpTo(pre, chars); Loose(s[|s| - 1])
    ensures chars != []
    ensures var s, n := UpTo(pre, chars), |chars| - 1;
            chars[n] == Plain(s[|s| - 1]) && s[..|s| - 1] == UpTo(pre, chars[..n])
  {
    assert pre + "\"" + "" == pre + "\"" && (pre + "\"")[|pre|] == '"' && LettersText([]) == "";
    if chars != [] {
      LastLetter(chars);
    }
  }

  /** kept is front without white space characters at its end. */
  ghost predicate TrimsTo(space: Spaces, front: seq<Letter>, kept: seq<Letter>) {
    kept <= front && forall i :: |kept| <= i < |front| ==> front[i].Plain? && space(front[i].c)
  }

  lemma SpaceIsLoose(space: Spaces, c: char)
    requires WhiteSpace(space) && space(c)
    ensures Loose(c)
  {
    assert forall d :: d in "\"\\/bfnrt" ==> '!' <= d <= '~';
  }

  lemma TrimsMore(space: Spaces, front: seq<Letter>, kept: seq<Letter>)
    requires front != [] && TrimsTo(space, front[..|front| - 1], kept)
    requires front[|front| - 1].Plain? && space(front[|front| - 1].c)
    ensures TrimsTo(space, front, kept)
  {
    var shorter := front[..|front| - 1];
    assert forall i :: 0 <= i < |shorter| ==> shorter[i] == front[i];
  }

  lemma {:induction false} TrimRightCut(space: Spaces, pre: string, front: seq<Letter>) returns (kept: seq<Letter>)
    requires WhiteSpace(space) && Letters(front)
    ensures TrimsTo(space, front, kept) && TrimRight(space, UpTo(pre, front)) == UpTo(pre, kept)
    decreases |front|
  {
    var s := UpTo(pre, front);
    var last := s[|s| - 1];
    kept := front;
    if space(last) {
      SpaceIsLoose(space, last);
      DropLoose(pre, front);
      var shorter := front[..|front| - 1];
      assert TrimRight(space, s) == TrimRight(space, UpTo(pre, shorter));
      kept := TrimRightCut(space, pre, shorter);
      TrimsMore(space, front, kept);
    }
  }

  lemma {:induction false} TrimLeftCut(space: Spaces, pre: string, rest: string)
    requires rest != "" && !space(rest[0])
    ensures TrimLeft(space, pre + rest) == TrimLeft(space, pre) + rest
  {
    if pre == "" {
      assert pre + rest == rest;
    } else {
      assert (pre + rest)[1..] == pre[1..] + rest;
      if space(pre[0]) {
        TrimLeftCut(space, pre[1..], rest);
      }
    }
  }

  lemma TrimCut(space: Spaces, pre: string, front: seq<Letter>) returns (kept: seq<Letter>)
    requires WhiteSpace(space) && Letters(front)
    ensures TrimsTo(space, front, kept) && Trim(space, UpTo(pre, front)) == UpTo(TrimLeft(space, pre), kept)
  {
    assert UpTo(pre, front) == pre + ("\"" + LettersText(front));
    TrimLeftCut(space, pre, "\"" + LettersText(front));
    assert TrimLeft(space, pre) + ("\"" + LettersText(front)) == UpTo(TrimLeft(space, pre), front);
    kept := TrimRightCut(space, TrimLeft(space, pre), front);
  }

  /** White space at the start of a JSON text is not of it. */
  lemma LeadOff(space: Spaces, before: string, rest: string)
    requires WhiteSpace(space) && AllSpace(space, before) && IsJson(before + rest)
    ensures IsJson(rest)
  {
    var i :| IsItem(i) && before + rest == ItemText(i);
    ValueStartsVisible(i.value);
    var w := before + rest;
    assert w[|i.before|] == Text(i.value)[0];
    CharOf(before, rest, "", |i.before|);
    assert before + rest + "" == w;
    var out := Item(i.before[|before|..], i.value, i.after);
    assert w[..|before|] == before && w[|before|..] == rest;
    assert ItemText(out) == ItemText(i)[|before|..];
    assert IsItem(out);
  }

  lemma TrimmedPre(space: Spaces, pre: string, more: string)
    requires WhiteSpace(space) && !Scan(START, pre).inString && IsJson(pre + more)
    ensures !Scan(START, TrimLeft(space, pre)).inString && Scan(START, TrimLeft(space, pre)) == Scan(START, pre)
    ensures IsJson(TrimLeft(space, pre) + more)
  {
    var left := TrimLeft(space, pre);
    TrimLeftParts(space, pre);
    var before :| AllSpace(space, before) && pre == before + left;
    assert pre + more == before + (left + more);
    LeadOff(space, before, left + more);
    SpaceIsPlain(space, before);
    PlainIsBalanced(before, "");
    assert START == Outside("");
    ScanAppend(START, before, left);
  }

  // ------------------------------------------------------------- the main result

  lemma ScanUpTo(pre: string, chars: seq<Letter>)
    requires Letters(chars) && !Scan(START, pre).inString
    ensures Scan(START, pre) == Outside(Scan(START, pre).stack)
    ensures Scan(START, UpTo(pre, chars)) == Inside(Scan(START, pre).stack)
  {
    var st := Scan(START, pre);
    assert START == Outside("");
    NotEscapedOutside("", pre);
    Grouped(pre, "\"", LettersText(chars));
    ScanAppend(START, pre, "\"" + LettersText(chars));
    ScanAppend(st, "\"", LettersText(chars));
    FeedOne(st, '"');
    LettersStayInside(chars, st.stack);
  }

  lemma CutIsNotJson(pre: string, kept: seq<Letter>)
    requires Letters(kept) && !Scan(START, pre).inString
    ensures !IsJson(UpTo(pre, kept))
  {
    ScanUpTo(pre, kept);
    if IsJson(UpTo(pre, kept)) {
      JsonNeedsNoRepair(UpTo(pre, kept));
    }
  }

  /** The brackets cut are those owed where the string began. */
  lemma OwedIsTheCut(pre: string, kept: seq<Letter>, cut: string)
    requires Letters(kept) && AllClosers(cut) && !Scan(START, pre).inString && IsJson(pre + QuotedText(kept) + cut)
    ensures cut == Closers(Scan(START, pre).stack)
  {
    var st := Scan(START, pre);
    ScanUpTo(pre, kept);
    QuotedIsBalanced(kept, st.stack);
    ScanAppend(START, pre, QuotedText(kept));
    CutJson(pre + QuotedText(kept), cut);
  }

  /** Cut inside the string, the text is no JSON, and is closed with its quote and the brackets that were cut. */
  lemma ClosesCut(pre: string, kept: seq<Letter>, cut: string)
    requires Letters(kept) && AllClosers(cut) && !Scan(START, pre).inString
    requires IsJson(pre + QuotedText(kept) + cut)
    ensures !IsJson(UpTo(pre, kept)) && Closed(UpTo(pre, kept)) == pre + QuotedText(kept) + cut
    ensures UpTo(pre, kept)[0] != '`'
  {
    CutIsNotJson(pre, kept);
    OwedIsTheCut(pre, kept, cut);
    ScanUpTo(pre, kept);
    Quote(pre, kept);
    FirstFits(pre + QuotedText(kept), cut);
  }

  lemma Quote(pre: string, kept: seq<Letter>)
    ensures UpTo(pre, kept) + "\"" == pre + QuotedText(kept) && (pre + QuotedText(kept))[0] == UpTo(pre, kept)[0]
  {
    assert (UpTo(pre, kept) + "\"")[0] == UpTo(pre, kept)[0];
  }

  lemma FirstFits(whole: string, cut: string)
    requires whole != "" && IsJson(whole + cut)
    ensures whole[0] != '`'
  {
    var w := whole + cut;
    JsonNeedsNoRepair(w);
    assert w == [w[0]] + w[1..];
    ScanAppend(START, [w[0]], w[1..]);
    FeedOne(START, w[0]);
  }

  lemma Grouped(a: string, b: string, c: string)
    ensures a + b + c == a + (b + c)
  {
  }

  lemma TrimmedJson(space: Spaces, pre: string, quoted: string, tail: string)
    requires WhiteSpace(space) && !Scan(START, pre).inString && IsJson(pre + quoted + tail)
    ensures !Scan(START, TrimLeft(space, pre)).inString && IsJson(TrimLeft(space, pre) + quoted + tail)
  {
    Grouped(pre, quoted, tail);
    TrimmedPre(space, pre, quoted + tail);
    Grouped(TrimLeft(space, pre), quoted, tail);
  }

  /** What the strip leaves of a cut text is closed to a JSON text. */
  lemma CutCloses(space: Spaces, pre: string, chars: seq<Letter>, tail: string, kept: seq<Letter>)
    requires WhiteSpace(space) && Letters(chars) && Letters(kept) && Tail(tail) && !Scan(START, pre).inString
    requires IsJson(pre + QuotedText(chars) + tail)
    ensures var s, whole := UpTo(TrimLeft(space, pre), kept), TrimLeft(space, pre) + QuotedText(kept) + NoBlanks(tail);
            IsJson(whole) && !IsJson(s) && Closed(s) == whole && s[0] != '`'
  {
    var left := TrimLeft(space, pre);
    TrimmedJson(space, pre, QuotedText(chars), tail);
    SwapInJson(left, chars, tail, kept);
    TailIsClosers(tail);
    ClosesCut(left, kept, NoBlanks(tail));
  }

  lemma ClosedIfInvalid(valid: string -> bool, space: Spaces, raw: string, s: string)
    requires Stripped(space, raw) == s && !valid(s)
    ensures Repaired(valid, space, raw) == Closed(s)
  {
  }

  lemma CutIsRepaired(valid: string -> bool, space: Spaces, raw: string, pre: string, chars: seq<Letter>, tail: string, kept: seq<Letter>)
    requires (forall s :: valid(s) ==> IsJson(s)) && WhiteSpace(space)
    requires Letters(chars) && Letters(kept) && Tail(tail) && !Scan(START, pre).inString
    requires IsJson(pre + QuotedText(chars) + tail)
    requires Stripped(space, raw) == UpTo(TrimLeft(space, pre), kept)
    ensures Repaired(valid, space, raw) == TrimLeft(space, pre) + QuotedText(kept) + NoBlanks(tail)
    ensures IsJson(Repaired(valid, space, raw))
  {
    CutCloses(space, pre, chars, tail, kept);
    ClosedIfInvalid(valid, space, raw, UpTo(TrimLeft(space, pre), kept));
  }

  /**
   * A JSON text cut inside a string, between two characters of it, that only
   * closing brackets and blanks followed: the repair ends the string where it
   * was cut, but for white space there, and closes the brackets. It is JSON.
   */
  lemma CutStringRestores(valid: string -> bool, space: Spaces, pre: string, front: seq<Letter>, more: seq<Letter>, tail: string)
    requires (forall s :: valid(s) ==> IsJson(s)) && WhiteSpace(space)
    requires Letters(front + more) && Tail(tail) && !Scan(START, pre).inString
    requires IsJson(pre + QuotedText(front + more) + tail)
    ensures var p := UpTo(pre, front);
            && IsJson(Repaired(valid, space, p))
            && (Trimmed(space, p) ==> Repaired(valid, space, p) == pre + QuotedText(front) + NoBlanks(tail))
            && exists kept :: TrimsTo(space, front, kept)
                              && Repaired(valid, space, p) == TrimLeft(space, pre) + QuotedText(kept) + NoBlanks(tail)
  {
    var p := UpTo(pre, front);
    forall l | l in front ensures IsLetter(l) {
      assert l in front + more;
    }
    var kept := TrimCut(space, pre, front);
    CutCloses(space, pre, front + more, tail, kept);
    assert FENCE[0] == '`' && !(FENCE <= UpTo(TrimLeft(space, pre), kept));
    CutIsRepaired(valid, space, p, pre, front + more, tail, kept);
    assert TrimsTo(space, front, kept);
    if Trimmed(space, p) {
      TrimOfTrimmed(space, p);
      Requoted(TrimLeft(space, pre), kept, pre, front);
    }
  }

  lemma Requoted(a: string, x: seq<Letter>, b: string, y: seq<Letter>)
    requires UpTo(a, x) == UpTo(b, y)
    ensures a + QuotedText(x) == b + QuotedText(y)
  {
    assert a + QuotedText(x) == UpTo(a, x) + "\"";
    assert b + QuotedText(y) == UpTo(b, y) + "\"";
  }

  // ------------------------------------------------------------------ in a fence

  lemma WithoutFence(pre: string, chars: seq<Letter>) returns (kept: seq<Letter>)
    requires Letters(chars)
    ensures kept <= chars && WithoutSuffix(UpTo(pre, chars), FENCE) == UpTo(pre, kept)
  {
    var s := UpTo(pre, chars);
    kept := chars;
    if |FENCE| <= |s| && s[|s| - |FENCE|..] == FENCE {
      assert s[|s| - 3..] == FENCE && FENCE[0] == FENCE[1] == FENCE[2] == '`';
      assert s[|s| - 1] == s[|s| - 3..][2] && s[|s| - 2] == s[|s| - 3..][1] && s[|s| - 3] == s[|s| - 3..][0];
      DropLoose(pre, kept);
      kept := kept[..|kept| - 1];
      DropLoose(pre, kept);
      kept := kept[..|kept| - 1];
      DropLoose(pre, kept);
      kept := kept[..|kept| - 1];
    }
  }

  lemma FirstLine(line: string, rest: string)
    requires forall i :: 0 <= i < |line| ==> line[i] != '\n'
    ensures var s := line + "\n" + rest; LineBreak(s) == |line| && s[|line| + 1..] == rest
  {
    var s := line + "\n" + rest;
    assert s[|line|] == '\n' && forall i :: 0 <= i < |line| ==> s[i] == line[i];
  }

  /** A text in no fence is only trimmed. */
  lemma NoFenceNoStrip(space: Spaces, raw: string)
    requires !("```" <= Trim(space, raw))
    ensures Stripped(space, raw) == Trim(space, raw)
  {
  }

  /** One in a fence loses its first line, and the closing fence if it has one. */
  lemma WithoutFirstLine(space: Spaces, raw: string, line: string, rest: string)
    requires Trim(space, raw) == line + "\n" + rest
    requires FENCE <= line && forall i :: 0 <= i < |line| ==> line[i] != '\n'
    ensures Stripped(space, raw) == Trim(space, WithoutSuffix(Trim(space, rest), FENCE))
  {
    var s := line + "\n" + rest;
    FirstLine(line, rest);
    assert FENCE <= s;
  }

  lemma CutInLines(space: Spaces, before: string, line: string, pre: string, front: seq<Letter>) returns (kept: seq<Letter>)
    requires WhiteSpace(space) && AllSpace(space, before) && Letters(front) && FENCE <= line
    ensures kept <= front && Trim(space, before + (line + "\n" + UpTo(pre, front))) == line + "\n" + UpTo(pre, kept)
  {
    var x := line + "\n" + pre;
    UpToAfter(line + "\n", pre, front);
    UpToAfter(before, x, front);
    assert x[0] == FENCE[0] == '`';
    TrimLeftOff(space, before, x);
    kept := TrimCut(space, before + x, front);
    UpToAfter(line + "\n", pre, kept);
  }

  lemma UpToAfter(a: string, pre: string, chars: seq<Letter>)
    ensures UpTo(a + pre, chars) == a + UpTo(pre, chars)
  {
  }

  lemma CutBeforeFence(space: Spaces, pre: string, front: seq<Letter>) returns (kept: seq<Letter>)
    requires WhiteSpace(space) && Letters(front)
    ensures kept <= front
    ensures Trim(space, WithoutSuffix(Trim(space, UpTo(pre, front)), FENCE)) == UpTo(TrimLeft(space, pre), kept)
  {
    var left := TrimLeft(space, pre);
    var one := TrimCut(space, pre, front);
    var two := WithoutFence(left, one);
    kept := TrimCut(space, left, two);
    TrimLeftEnds(space, pre);
    assert TrimLeft(space, left) == left;
  }

  /** The strip takes the fence off a text cut inside a string, and at most the end of that string with it. */
  lemma FencedCut(space: Spaces, before: string, line: string, pre: string, front: seq<Letter>) returns (kept: seq<Letter>)
    requires WhiteSpace(space) && AllSpace(space, before) && Letters(front)
    requires FENCE <= line && forall i :: 0 <= i < |line| ==> line[i] != '\n'
    ensures kept <= front && Stripped(space, before + (line + "\n" + UpTo(pre, front))) == UpTo(TrimLeft(space, pre), kept)
  {
    var one := CutInLines(space, before, line, pre, front);
    WithoutFirstLine(space, before + (line + "\n" + UpTo(pre, front)), line, UpTo(pre, one));
    kept := CutBeforeFence(space, pre, one);
  }

  /** The same in a Markdown fence that the cut left open. */
  lemma FencedCutRestores(valid: string -> bool, space: Spaces, before: string, info: string, pre: string,
                          front: seq<Letter>, more: seq<Letter>, tail: string)
    requires (forall s :: valid(s) ==> IsJson(s)) && WhiteSpace(space)
    requires AllSpace(space, before) && forall i :: 0 <= i < |info| ==> info[i] != '\n'
    requires Letters(front + more) && Tail(tail) && !Scan(START, pre).inString
    requires IsJson(pre + QuotedText(front + more) + tail)
    ensures var raw := before + (FENCE + info + "\n" + UpTo(pre, front));
            && IsJson(Repaired(valid, space, raw))
            && exists kept :: kept <= front
                              && Repaired(valid, space, raw) == TrimLeft(space, pre) + QuotedText(kept) + NoBlanks(tail)
  {
    forall l | l in front ensures IsLetter(l) {
      assert l in front + more;
    }
    var line := FENCE + info;
    assert forall i :: 0 <= i < |line| ==> line[i] != '\n';
    var kept := FencedCut(space, before, line, pre, front);
    CutIsRepaired(valid, space, before + (line + "\n" + UpTo(pre, front)), pre, front + more, tail, kept);
    assert kept <= front;
  }
}
