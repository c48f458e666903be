/** tokenizeForFTS (pkg/agentmem/search.go): lower-case words, and runs of CJK with their two-character windows. */
module Tokenizer {
  import opened Texts

  /** What the Unicode tables say: spaces, letters and digits, and lower case. */
  datatype Tables = Tables(space: Spaces, letter: char -> bool, lower: string -> string)

  predicate IsCJK(c: char) {
    var n := c as int;
    || 0x4E00 <= n <= 0x9FFF
    || 0x3400 <= n <= 0x4DBF
    || 0x20000 <= n <= 0x2A6DF
    || 0x3040 <= n <= 0x30FF
    || 0xAC00 <= n <= 0xD7AF
  }

  /** A block of Unicode, from its first code point to its last. */
  datatype Block = Block(name: string, first: int, last: int)

  const BLOCKS: seq<Block> := [
    Block("CJK Unified Ideographs", 0x4E00, 0x9FFF),
    Block("CJK Unified Ideographs Extension A", 0x3400, 0x4DBF),
    Block("CJK Unified Ideographs Extension B", 0x20000, 0x2A6DF),
    Block("Hiragana", 0x3040, 0x309F),
    Block("Katakana", 0x30A0, 0x30FF),
    Block("Hangul Syllables", 0xAC00, 0xD7AF)]

  /** CJK is these blocks of Unicode, and nothing else. */
  lemma CJKIsBlocks(c: char)
    ensures IsCJK(c) <==> exists i :: 0 <= i < |BLOCKS| && BLOCKS[i].first <= c as int <= BLOCKS[i].last
  {
    var n := c as int;
    assert 0x4E00 <= n <= 0x9FFF ==> BLOCKS[0].first <= n <= BLOCKS[0].last;
    assert 0x3400 <= n <= 0x4DBF ==> BLOCKS[1].first <= n <= BLOCKS[1].last;
    assert 0x20000 <= n <= 0x2A6DF ==> BLOCKS[2].first <= n <= BLOCKS[2].last;
    assert 0x3040 <= n <= 0x309F ==> BLOCKS[3].first <= n <= BLOCKS[3].last;
    assert 0x30A0 <= n <= 0x30FF ==> BLOCKS[4].first <= n <= BLOCKS[4].last;
    assert 0xAC00 <= n <= 0xD7AF ==> BLOCKS[5].first <= n <= BLOCKS[5].last;
  }

  datatype Kind = CJK | Word | Other

  function KindOf(u: Tables, c: char): Kind {
    if IsCJK(c) then CJK else if u.letter(c) then Word else Other
  }

  predicate NoSpace(u: Tables, s: string) {
    forall i :: 0 <= i < |s| ==> !u.space(s[i])
  }

  predicate NoCJK(s: string) {
    forall i :: 0 <= i < |s| ==> !IsCJK(s[i])
  }

  predicate AllCJK(s: string) {
    forall i :: 0 <= i < |s| ==> IsCJK(s[i])
  }

  /** No space is a letter, a digit or CJK, and lower case makes neither of them out of a word. */
  ghost predicate Unicode(u: Tables) {
    && (forall c :: u.space(c) ==> !u.letter(c) && !IsCJK(c))
    && (forall s :: s != "" && NoSpace(u, s) ==> u.lower(s) != "" && NoSpace(u, u.lower(s)))
    && (forall s :: NoCJK(s) ==> NoCJK(u.lower(s)))
  }

  // --------------------------------------------------------------------- runs

  datatype Run = Run(kind: Kind, text: string)

  /** One character more: it goes to the last run if that is of its kind, else starts one. */
  function Extend(u: Tables, runs: seq<Run>, c: char): seq<Run> {
    var n := |runs| - 1;
    if runs != [] && runs[n].kind == KindOf(u, c) then runs[..n] + [Run(runs[n].kind, runs[n].text + [c])]
    else runs + [Run(KindOf(u, c), [c])]
  }

  /** The maximal runs of characters of one kind. */
  function Runs(u: Tables, s: string): seq<Run> {
    if s == "" then [] else Extend(u, Runs(u, s[..|s| - 1]), s[|s| - 1])
  }

  function Joined(runs: seq<Run>): string {
    if runs == [] then "" else Joined(runs[..|runs| - 1]) + runs[|runs| - 1].text
  }

  ghost predicate OfKind(u: Tables, r: Run) {
    r.text != "" && forall i :: 0 <= i < |r.text| ==> KindOf(u, r.text[i]) == r.kind
  }

  /** s in pieces of one kind each, no two neighbours of the same kind. */
  ghost predicate Partition(u: Tables, s: string, runs: seq<Run>) {
    && Joined(runs) == s
    && (forall i :: 0 <= i < |runs| ==> OfKind(u, runs[i]))
    && forall i :: 0 <= i < |runs| - 1 ==> runs[i].kind != runs[i + 1].kind
  }

  lemma ExtendPartition(u: Tables, s: string, runs: seq<Run>, c: char)
    requires Partition(u, s, runs)
    ensures Partition(u, s + [c], Extend(u, runs, c))
  {
    var n, now := |runs| - 1, Extend(u, runs, c);
    assert runs != [] ==> OfKind(u, runs[n]);
    if runs != [] && runs[n].kind == KindOf(u, c) {
      assert now[..n] == runs[..n];
      assert s + [c] == Joined(runs[..n]) + (runs[n].text + [c]);
    } else {
      assert now[..|runs|] == runs;
    }
  }

  lemma {:induction false} RunsArePartition(u: Tables, s: string)
    ensures Partition(u, s, Runs(u, s))
    decreases |s|
  {
    if s != "" {
      RunsArePartition(u, s[..|s| - 1]);
      ExtendPartition(u, s[..|s| - 1], Runs(u, s[..|s| - 1]), s[|s| - 1]);
      assert s == s[..|s| - 1] + [s[|s| - 1]];
    }
  }

  /** A last run of one character was started by it. */
  lemma StartedLast(u: Tables, s: string, front: seq<Run>, last: Run)
    requires Partition(u, s, front + [last]) && |last.text| == 1
    ensures s != "" && Partition(u, s[..|s| - 1], front) && front + [last] == Extend(u, front, s[|s| - 1])
  {
    var runs := front + [last];
    assert runs[..|front|] == front && runs[|front|] == last;
    assert OfKind(u, last) && last.text == [last.text[0]];
    forall i | 0 <= i < |front| ensures OfKind(u, front[i]) {
      assert runs[i] == front[i];
    }
    forall i | 0 <= i < |front| - 1 ensures front[i].kind != front[i + 1].kind {
      assert runs[i].kind != runs[i + 1].kind;
    }
    assert front != [] ==> runs[|front| - 1].kind != runs[|front| - 1 + 1].kind;
  }

  /** A longer one was extended. */
  lemma ExtendedLast(u: Tables, s: string, front: seq<Run>, last: Run)
    requires Partition(u, s, front + [last]) && |last.text| > 1
    ensures var m := |last.text| - 1;
            var before := front + [Run(last.kind, last.text[..m])];
            s != "" && Partition(u, s[..|s| - 1], before) && front + [last] == Extend(u, before, s[|s| - 1])
  {
    var runs, m := front + [last], |last.text| - 1;
    var before := front + [Run(last.kind, last.text[..m])];
    assert runs[..|front|] == front && before[..|front|] == front && runs[|front|] == last;
    assert OfKind(u, last) && last.text == last.text[..m] + [last.text[m]];
    assert s == Joined(front) + last.text[..m] + [last.text[m]];
    forall i | 0 <= i < |before| ensures OfKind(u, before[i]) {
      if i < |front| {
        assert runs[i] == before[i];
      }
    }
    forall i | 0 <= i < |before| - 1 ensures before[i].kind != before[i + 1].kind {
      assert runs[i].kind != runs[i + 1].kind;
    }
  }

  /** There is one such partition. */
  lemma {:induction false} PartitionIsRuns(u: Tables, s: string, runs: seq<Run>)
    requires Partition(u, s, runs)
    ensures runs == Runs(u, s)
    decreases |s|
  {
    if runs != [] {
      var n := |runs| - 1;
      var front, last := runs[..n], runs[n];
      assert runs == front + [last] && OfKind(u, last);
      if |last.text| == 1 {
        StartedLast(u, s, front, last);
        PartitionIsRuns(u, s[..|s| - 1], front);
      } else {
        ExtendedLast(u, s, front, last);
        PartitionIsRuns(u, s[..|s| - 1], front + [Run(last.kind, last.text[..|last.text| - 1])]);
      }
    }
  }

  // ------------------------------------------------------------------- tokens

  function Windows(s: string): seq<string> {
    if |s| < 2 then [] else Windows(s[..|s| - 1]) + [s[|s| - 2..]]
  }

  function TokensOf(u: Tables, r: Run): seq<string> {
    match r.kind
    case CJK => CJKTokens(r.text)
    case Word => WordTokens(u, r.text)
    case Other => []
  }

  /** A run whole, and its windows. */
  function CJKTokens(run: string): seq<string> {
    if run == "" then [] else [run] + Windows(run)
  }

  function WordTokens(u: Tables, word: string): seq<string> {
    if word == "" then [] else [u.lower(word)]
  }

  function AllTokens(u: Tables, runs: seq<Run>): seq<string> {
    if runs == [] then [] else AllTokens(u, runs[..|runs| - 1]) + TokensOf(u, runs[|runs| - 1])
  }

  /** Each string where it first stands. */
  function FirstOccurrences(list: seq<string>): seq<string> {
    if list == [] then []
    else
      var n := |list| - 1;
      FirstOccurrences(list[..n]) + if list[n] in list[..n] then [] else [list[n]]
  }

  function Tokens(u: Tables, query: string): seq<string> {
    FirstOccurrences(AllTokens(u, Runs(u, Trim(u.space, query))))
  }

  /** strings.Fields. */
  function Fields(u: Tables, s: string): seq<string> {
    if s == "" then []
    else if u.space(s[|s| - 1]) then Fields(u, s[..|s| - 1])
    else
      var before := Fields(u, s[..|s| - 1]);
      if before == [] || u.space(s[|s| - 2]) then before + [[s[|s| - 1]]]
      else before[..|before| - 1] + [before[|before| - 1] + [s[|s| - 1]]]
  }

  lemma {:induction false} OneField(u: Tables, s: string)
    requires s != "" && NoSpace(u, s)
    ensures Fields(u, s) == [s]
    decreases |s|
  {
    if |s| > 1 {
      OneField(u, s[..|s| - 1]);
      var before := Fields(u, s[..|s| - 1]);
      assert before[..0] == [] && !u.space(s[|s| - 2]);
      assert s == s[..|s| - 1] + [s[|s| - 1]];
    } else {
      assert s == [s[0]] && Fields(u, s[..0]) == [];
    }
  }

  // ------------------------------------------------------------------ the pass

  /** out is the first occurrences among all that was added, and seen its strings. */
  ghost predicate Holds(all: seq<string>, out: seq<string>, seen: set<string>) {
    out == FirstOccurrences(all) && forall t :: t in seen <==> t in all
  }

  method Add(u: Tables, ghost all: seq<string>, out: seq<string>, seen: set<string>, t: string)
    returns (out': seq<string>, seen': set<string>)
    requires Holds(all, out, seen) && t != "" && NoSpace(u, t)
    ensures Holds(all + [t], out', seen')
  {
    TrimOfTrimmed(u.space, t);
    var s := Trim(u.space, t);
    out', seen' := out, seen;
    assert (all + [t])[..|all|] == all;
    if s == "" || s in seen {
      return;
    }
    seen' := seen + {s};
    out' := out + [s];
  }

  method FlushWord(u: Tables, ghost all: seq<string>, out: seq<string>, seen: set<string>, word: string)
    returns (out': seq<string>, seen': set<string>)
    requires Unicode(u) && Holds(all, out, seen) && NoSpace(u, word)
    ensures Holds(all + WordTokens(u, word), out', seen')
  {
    out', seen' := out, seen;
    assert all + [] == all;
    if word != "" {
      OneField(u, word);
      var fields := Fields(u, word);
      for i := 0 to |fields|
        invariant Holds(if i == 0 then all else all + [u.lower(word)], out', seen')
      {
        out', seen' := Add(u, all, out', seen', u.lower(fields[i]));
      }
    }
  }

  lemma WindowsMore(s: string, i: nat)
    requires i + 1 < |s|
    ensures Windows(s[..i + 2]) == Windows(s[..i + 1]) + [s[i..i + 2]]
  {
    assert s[..i + 2][..i + 1] == s[..i + 1];
    assert s[..i + 2][i..] == s[i..i + 2];
  }

  method FlushCJK(u: Tables, ghost all: seq<string>, out: seq<string>, seen: set<string>, run: string)
    returns (out': seq<string>, seen': set<string>)
    requires Unicode(u) && Holds(all, out, seen) && NoSpace(u, run)
    ensures Holds(all + CJKTokens(run), out', seen')
  {
    out', seen' := out, seen;
    assert all + [] == all;
    if run != "" {
      out', seen' := Add(u, all, out', seen', run);
      out', seen' := AddWindows(u, all + [run], out', seen', run);
      assert all + [run] + Windows(run) == all + CJKTokens(run);
    }
  }

  method AddWindows(u: Tables, ghost all: seq<string>, out: seq<string>, seen: set<string>, run: string)
    returns (out': seq<string>, seen': set<string>)
    requires Holds(all, out, seen) && NoSpace(u, run) && run != ""
    ensures Holds(all + Windows(run), out', seen')
  {
    out', seen' := out, seen;
    var i := 0;
    ghost var added := all;
    assert all + Windows(run[..1]) == all;
    while i + 1 < |run|
      invariant 0 <= i < |run|
      invariant added == all + Windows(run[..i + 1]) && Holds(added, out', seen')
    {
      WindowsMore(run, i);
      out', seen' := Add(u, added, out', seen', run[i..i + 2]);
      added := added + [run[i..i + 2]];
      i := i + 1;
    }
    assert run[..i + 1] == run;
  }

  /** What the buffers hold: the run being read, in the buffer of its kind; so one of them is always empty. */
  ghost predicate Buffered(runs: seq<Run>, word: string, cjk: string) {
    if runs == [] || runs[|runs| - 1].kind == Other then word == "" && cjk == ""
    else
      var last := runs[|runs| - 1];
      if last.kind == Word then word == last.text && cjk == "" else word == "" && cjk == last.text
  }

  /** The runs already flushed. */
  function Flushed(runs: seq<Run>): seq<Run> {
    if runs == [] || runs[|runs| - 1].kind == Other then runs else runs[..|runs| - 1]
  }

  /** The tokens of all runs are those flushed and those the buffers will give. */
  lemma FlushAll(u: Tables, runs: seq<Run>, word: string, cjk: string)
    requires Buffered(runs, word, cjk)
    ensures AllTokens(u, runs) == AllTokens(u, Flushed(runs)) + WordTokens(u, word) + CJKTokens(cjk)
  {
  }

  /** The step from runs to next: what the buffers hold, and what was flushed. */
  ghost predicate Steps(u: Tables, kind: Kind, done: seq<string>, next: seq<Run>, c: char, word: string, cjk: string) {
    match kind
    case CJK => Buffered(next, "", cjk + [c]) && AllTokens(u, Flushed(next)) == done + WordTokens(u, word)
    case Word => Buffered(next, word + [c], "") && AllTokens(u, Flushed(next)) == done + CJKTokens(cjk)
    case Other => Buffered(next, "", "") && AllTokens(u, Flushed(next)) == done + WordTokens(u, word) + CJKTokens(cjk)
  }

  /** After one more character. */
  lemma NextRun(u: Tables, runs: seq<Run>, c: char, word: string, cjk: string)
    requires Buffered(runs, word, cjk)
    ensures Steps(u, KindOf(u, c), AllTokens(u, Flushed(runs)), Extend(u, runs, c), c, word, cjk)
  {
    if runs != [] && runs[|runs| - 1].kind == KindOf(u, c) {
      SameRun(u, runs, c, word, cjk);
    } else {
      NewRun(u, runs, c, word, cjk);
    }
  }

  lemma SameRun(u: Tables, runs: seq<Run>, c: char, word: string, cjk: string)
    requires Buffered(runs, word, cjk) && runs != [] && runs[|runs| - 1].kind == KindOf(u, c)
    ensures Steps(u, KindOf(u, c), AllTokens(u, Flushed(runs)), Extend(u, runs, c), c, word, cjk)
  {
    var n := |runs| - 1;
    assert Extend(u, runs, c)[..n] == runs[..n];
  }

  lemma NewRun(u: Tables, runs: seq<Run>, c: char, word: string, cjk: string)
    requires Buffered(runs, word, cjk) && (runs == [] || runs[|runs| - 1].kind != KindOf(u, c))
    ensures Steps(u, KindOf(u, c), AllTokens(u, Flushed(runs)), Extend(u, runs, c), c, word, cjk)
  {
    FlushAll(u, runs, word, cjk);
    NewRunFlushes(u, runs, Run(KindOf(u, c), [c]));
    var done := AllTokens(u, Flushed(runs));
    assert KindOf(u, c) == CJK ==> CJKTokens(cjk) == [] && done + WordTokens(u, word) + [] == done + WordTokens(u, word);
    assert KindOf(u, c) == Word ==> WordTokens(u, word) == [] && done + [] == done;
  }

  lemma NewRunFlushes(u: Tables, runs: seq<Run>, r: Run)
    ensures AllTokens(u, Flushed(runs + [r])) == AllTokens(u, runs)
  {
    var next := runs + [r];
    assert next[..|runs|] == runs && next[|runs|] == r;
    if r.kind == Other {
      assert AllTokens(u, runs) + [] == AllTokens(u, runs);
    }
  }

  lemma BuffersHaveNoSpace(u: Tables, s: string, word: string, cjk: string)
    requires Unicode(u) && Buffered(Runs(u, s), word, cjk)
    ensures NoSpace(u, word) && NoSpace(u, cjk) && (Runs(u, s) != [] ==> Runs(u, s)[|Runs(u, s)| - 1].text != "")
  {
    RunsArePartition(u, s);
    var runs := Runs(u, s);
    if runs != [] {
      var last := runs[|runs| - 1];
      assert OfKind(u, last);
      if last.kind != Other {
        forall i | 0 <= i < |last.text| ensures !u.space(last.text[i]) {
          assert KindOf(u, last.text[i]) == last.kind;
        }
      }
    }
  }

  /** One character: it closes the run of another kind and joins its own. */
  method Read(u: Tables, c: char, ghost done: seq<string>, out: seq<string>, seen: set<string>, word: string, cjk: string)
    returns (out': seq<string>, seen': set<string>, word': string, cjk': string, ghost done': seq<string>)
    requires Unicode(u) && Holds(done, out, seen) && NoSpace(u, word) && NoSpace(u, cjk)
    ensures Holds(done', out', seen')
    ensures match KindOf(u, c)
            case CJK => word' == "" && cjk' == cjk + [c] && done' == done + WordTokens(u, word)
            case Word => word' == word + [c] && cjk' == "" && done' == done + CJKTokens(cjk)
            case Other => word' == "" && cjk' == "" && done' == done + WordTokens(u, word) + CJKTokens(cjk)
  {
    if IsCJK(c) {
      out', seen' := FlushWord(u, done, out, seen, word);
      done' := done + WordTokens(u, word);
      word', cjk' := "", cjk + [c];
    } else if u.letter(c) {
      out', seen' := FlushCJK(u, done, out, seen, cjk);
      done' := done + CJKTokens(cjk);
      word', cjk' := word + [c], "";
    } else {
      out', seen' := FlushWord(u, done, out, seen, word);
      done' := done + WordTokens(u, word);
      out', seen' := FlushCJK(u, done', out', seen', cjk);
      done' := done' + CJKTokens(cjk);
      word', cjk' := "", "";
    }
  }

  method TokenizeForFTS(u: Tables, query: string) returns (out: seq<string>)
    requires Unicode(u)
    ensures out == Tokens(u, query)
  {
    var s := Trim(u.space, query);
    if s == "" {
      return [];
    }
    var seen: set<string> := {};
    var word, cjk := "", "";
    out := [];
    ghost var done: seq<string> := [];
    for i := 0 to |s|
      invariant Buffered(Runs(u, s[..i]), word, cjk)
      invariant done == AllTokens(u, Flushed(Runs(u, s[..i])))
      invariant Holds(done, out, seen)
    {
      assert
        && NoSpace(u, word) && NoSpace(u, cjk)
        && (Steps(u, KindOf(u, s[i]), AllTokens(u, Flushed(Runs(u, s[..i]))), Runs(u, s[..i + 1]), s[i], word, cjk))
      by {
        assert s[..i + 1][..i] == s[..i] && s[..i + 1][i] == s[i];
        BuffersHaveNoSpace(u, s[..i], word, cjk);
        NextRun(u, Runs(u, s[..i]), s[i], word, cjk);
      }
      out, seen, word, cjk, done := Read(u, s[i], done, out, seen, word, cjk);
    }
    assert s[..|s|] == s;
    out := Finish(u, s, done, out, seen, word, cjk);
  }

  /** The last two flushes. */
  method Finish(u: Tables, ghost s: string, ghost done: seq<string>, out: seq<string>, seen: set<string>, word: string, cjk: string)
    returns (out': seq<string>)
    requires Unicode(u) && Holds(done, out, seen) && Buffered(Runs(u, s), word, cjk)
    requires done == AllTokens(u, Flushed(Runs(u, s)))
    ensures out' == FirstOccurrences(AllTokens(u, Runs(u, s)))
  {
    BuffersHaveNoSpace(u, s, word, cjk);
    FlushAll(u, Runs(u, s), word, cjk);
    var seen': set<string>;
    out', seen' := FlushWord(u, done, out, seen, word);
    out', seen' := FlushCJK(u, done + WordTokens(u, word), out', seen', cjk);
  }

  // --------------------------------------------------- what the tokens are

  lemma {:induction false} FirstOccurrencesAre(list: seq<string>)
    ensures forall t :: t in FirstOccurrences(list) <==> t in list
    ensures forall i, j :: 0 <= i < j < |FirstOccurrences(list)| ==> FirstOccurrences(list)[i] != FirstOccurrences(list)[j]
    decreases |list|
  {
    if list != [] {
      FirstOccurrencesAre(list[..|list| - 1]);
      assert list == list[..|list| - 1] + [list[|list| - 1]];
    }
  }

  /** t is a token of one of the runs. */
  ghost predicate TokenOfSome(u: Tables, runs: seq<Run>, t: string) {
    exists r :: r in runs && t in TokensOf(u, r)
  }

  lemma {:induction false} AllTokensAre(u: Tables, runs: seq<Run>, t: string)
    ensures t in AllTokens(u, runs) <==> TokenOfSome(u, runs, t)
    decreases |runs|
  {
    if runs != [] {
      var front, last := runs[..|runs| - 1], runs[|runs| - 1];
      AllTokensAre(u, front, t);
      assert runs == front + [last];
      if TokenOfSome(u, front, t) {
        var r :| r in front && t in TokensOf(u, r);
        assert r in runs;
      }
      if t in TokensOf(u, last) {
        assert last in runs;
      }
    }
  }

  ghost predicate WindowAt(s: string, i: nat, t: string) {
    i + 1 < |s| && t == s[i..i + 2]
  }

  lemma {:induction false} WindowsAre(s: string, t: string)
    ensures t in Windows(s) <==> exists i :: WindowAt(s, i, t)
    decreases |s|
  {
    if |s| >= 2 {
      var front, n := s[..|s| - 1], |s| - 2;
      WindowsAre(front, t);
      assert s[n..] == s[n..n + 2];
      if t == s[n..] {
        assert WindowAt(s, n, t);
      } else if t in Windows(front) {
        var i :| WindowAt(front, i, t);
        assert WindowAt(s, i, t);
      }
      if i: nat :| WindowAt(s, i, t) && i < n {
        assert WindowAt(front, i, t);
      }
    }
  }

  /** The tokens of a query: each maximal word in lower case, each maximal CJK run, and each two neighbours in one. */
  ghost predicate IsToken(u: Tables, r: Run, t: string) {
    match r.kind
    case Word => t == u.lower(r.text)
    case CJK => t == r.text || exists i :: WindowAt(r.text, i, t)
    case Other => false
  }

  /** The result holds exactly the tokens of the query's runs; none is empty, none mixes CJK with anything else. */
  lemma TokensAre(u: Tables, query: string, t: string)
    requires Unicode(u)
    ensures t in Tokens(u, query) <==> exists r :: r in Runs(u, Trim(u.space, query)) && IsToken(u, r, t)
    ensures t in Tokens(u, query) ==> t != "" && (AllCJK(t) || NoCJK(t))
  {
    var runs := Runs(u, Trim(u.space, query));
    RunsArePartition(u, Trim(u.space, query));
    FirstOccurrencesAre(AllTokens(u, runs));
    AllTokensAre(u, runs, t);
    forall r | r in runs ensures t in TokensOf(u, r) <==> IsToken(u, r, t) {
      assert OfKind(u, r);
      assert t in TokensOf(u, r) <==> IsToken(u, r, t) by {
        WindowsAre(r.text, t);
      }
    }
    if TokenOfSome(u, runs, t) {
      var r :| r in runs && t in TokensOf(u, r);
      assert OfKind(u, r);
      TokenIsPure(u, r, t);
    }
  }

  lemma TokenIsPure(u: Tables, r: Run, t: string)
    requires Unicode(u) && OfKind(u, r) && IsToken(u, r, t)
    ensures t != "" && (AllCJK(t) || NoCJK(t))
  {
    if r.kind == Word {
      assert forall i :: 0 <= i < |r.text| ==> KindOf(u, r.text[i]) == Word;
      assert NoSpace(u, r.text) && NoCJK(r.text);
    } else {
      assert forall i :: 0 <= i < |r.text| ==> KindOf(u, r.text[i]) == CJK;
      assert AllCJK(r.text);
    }
  }

  lemma TokensAreDistinct(u: Tables, query: string)
    ensures forall i, j :: 0 <= i < j < |Tokens(u, query)| ==> Tokens(u, query)[i] != Tokens(u, query)[j]
  {
    FirstOccurrencesAre(AllTokens(u, Runs(u, Trim(u.space, query))));
  }
}
