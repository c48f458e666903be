/** File names for exported memories (cmd/cortexdb-mcp-stdio/export_memory.go). */
module Slugs {
  import opened Texts

  /** unicode.ToLower, one character at a time. */
  type LowerCase = char -> char

  predicate IsWord(c: char) {
    'a' <= c <= 'z' || '0' <= c <= '9'
  }

  /** What is used of the Unicode tables: lower case leaves lower-case letters, digits and the dash alone. */
  ghost predicate KeepsSlugs(low: LowerCase) {
    forall c :: IsWord(c) || c == '-' ==> low(c) == c
  }

  function Lower(low: LowerCase, s: string): (r: string)
    ensures |r| == |s|
  {
    if s == "" then "" else Lower(low, s[..|s| - 1]) + [low(s[|s| - 1])]
  }

  lemma {:induction false} LowerAppend(low: LowerCase, a: string, b: string)
    ensures Lower(low, a + b) == Lower(low, a) + Lower(low, b)
    decreases |b|
  {
    if b == "" {
      assert a + b == a;
    } else {
      assert (a + b)[..|a + b| - 1] == a + b[..|b| - 1];
      LowerAppend(low, a, b[..|b| - 1]);
    }
  }

  // ------------------------------------------------------------------ slugify

  /** Every run of other characters becomes one dash. */
  function Dashed(s: string): string {
    if s == "" then ""
    else
      var before, c := Dashed(s[..|s| - 1]), s[|s| - 1];
      if IsWord(c) then before + [c]
      else if before != "" && before[|before| - 1] == '-' then before
      else before + "-"
  }

  predicate IsDash(c: char) {
    c == '-'
  }

  const MAX_SLUG: nat := 60
  const INDEX := "MEMORY"
  const UNTITLED := "untitled"

  function ClipSlug(s: string, max: nat): string {
    if |s| <= max then s else Trim(IsDash, s[..max])
  }

  function Slugify(low: LowerCase, s: string): string {
    var trimmed := Trim(IsDash, Dashed(Lower(low, s)));
    if trimmed == "" then "" else ClipSlug(trimmed, MAX_SLUG)
  }

  ghost predicate Kebab(s: string) {
    && (forall i :: 0 <= i < |s| ==> IsWord(s[i]) || s[i] == '-')
    && forall i, j :: 0 <= i < |s| && j == i + 1 && j < |s| ==> s[i] != '-' || s[j] != '-'
  }

  /** Lower-case words joined by single dashes, at most 60 characters. */
  ghost predicate IsSlug(s: string) {
    Kebab(s) && Trimmed(IsDash, s) && |s| <= MAX_SLUG
  }

  lemma {:induction false} DashedIsKebab(s: string)
    ensures Kebab(Dashed(s))
    decreases |s|
  {
    if s != "" {
      DashedIsKebab(s[..|s| - 1]);
    }
  }

  lemma {:induction false} KebabIsDashed(s: string)
    requires Kebab(s)
    ensures Dashed(s) == s
    decreases |s|
  {
    if s != "" {
      var n := |s| - 1;
      KebabIsDashed(s[..n]);
      assert s == s[..n] + [s[n]];
      assert n > 0 ==> s[n - 1] != '-' || s[n] != '-';
    }
  }

  lemma {:induction false} KebabTrimLeft(s: string)
    requires Kebab(s)
    ensures Kebab(TrimLeft(IsDash, s)) && |TrimLeft(IsDash, s)| <= |s|
    decreases |s|
  {
    if s != "" && s[0] == '-' {
      KebabTrimLeft(s[1..]);
    }
  }

  lemma {:induction false} KebabTrimRight(s: string)
    requires Kebab(s)
    ensures Kebab(TrimRight(IsDash, s)) && |TrimRight(IsDash, s)| <= |s|
    decreases |s|
  {
    if s != "" && s[|s| - 1] == '-' {
      KebabTrimRight(s[..|s| - 1]);
    }
  }

  lemma KebabTrim(s: string)
    requires Kebab(s)
    ensures Kebab(Trim(IsDash, s)) && |Trim(IsDash, s)| <= |s|
  {
    KebabTrimLeft(s);
    KebabTrimRight(TrimLeft(IsDash, s));
  }

  /** Every title slugs to a file-system safe name, or to nothing. */
  lemma SlugifyIsSlug(low: LowerCase, s: string)
    ensures IsSlug(Slugify(low, s))
  {
    var dashed := Dashed(Lower(low, s));
    DashedIsKebab(Lower(low, s));
    KebabTrim(dashed);
    TrimIsTrimmed(IsDash, dashed);
    var trimmed := Trim(IsDash, dashed);
    if |trimmed| > MAX_SLUG {
      KebabTrim(trimmed[..MAX_SLUG]);
      TrimIsTrimmed(IsDash, trimmed[..MAX_SLUG]);
    }
  }

  lemma {:induction false} LowerOfKebab(low: LowerCase, s: string)
    requires KeepsSlugs(low) && Kebab(s)
    ensures Lower(low, s) == s
    decreases |s|
  {
    if s != "" {
      LowerOfKebab(low, s[..|s| - 1]);
      assert s == s[..|s| - 1] + [s[|s| - 1]];
    }
  }

  /** The names slugify gives are exactly those it leaves alone; so slugging twice is slugging once. */
  lemma SlugifyFixes(low: LowerCase, s: string)
    requires KeepsSlugs(low)
    ensures Slugify(low, s) == s <==> IsSlug(s)
    ensures Slugify(low, Slugify(low, s)) == Slugify(low, s)
  {
    SlugifyIsSlug(low, s);
    if IsSlug(s) {
      SlugIsFixed(low, s);
    }
    SlugIsFixed(low, Slugify(low, s));
  }

  lemma SlugIsFixed(low: LowerCase, s: string)
    requires KeepsSlugs(low) && IsSlug(s)
    ensures Slugify(low, s) == s
  {
    LowerOfKebab(low, s);
    KebabIsDashed(s);
    TrimOfTrimmed(IsDash, s);
  }

  /** The letters and digits of a text, in order. */
  function Words(s: string): string {
    if s == "" then "" else Words(s[..|s| - 1]) + if IsWord(s[|s| - 1]) then [s[|s| - 1]] else ""
  }

  lemma {:induction false} WordsAppend(a: string, b: string)
    ensures Words(a + b) == Words(a) + Words(b)
    decreases |b|
  {
    if b == "" {
      assert a + b == a;
    } else {
      assert (a + b)[..|a + b| - 1] == a + b[..|b| - 1];
      WordsAppend(a, b[..|b| - 1]);
    }
  }

  lemma {:induction false} WordsOfDashed(s: string)
    ensures Words(Dashed(s)) == Words(s)
    decreases |s|
  {
    if s != "" {
      var before, c := Dashed(s[..|s| - 1]), s[|s| - 1];
      WordsOfDashed(s[..|s| - 1]);
      assert (before + [c])[..|before|] == before && (before + "-")[..|before|] == before;
    }
  }

  lemma {:induction false} WordsOfTrimLeft(s: string)
    ensures Words(TrimLeft(IsDash, s)) == Words(s)
    decreases |s|
  {
    if s != "" && s[0] == '-' {
      WordsOfTrimLeft(s[1..]);
      WordsAppend(s[..1], s[1..]);
      assert s == s[..1] + s[1..] && s[..1][..0] == "" && Words("") == "" && !IsWord(s[..1][0]);
    }
  }

  lemma {:induction false} WordsOfTrimRight(s: string)
    ensures Words(TrimRight(IsDash, s)) == Words(s)
    decreases |s|
  {
    if s != "" && s[|s| - 1] == '-' {
      WordsOfTrimRight(s[..|s| - 1]);
    }
  }

  lemma WordsOfTrim(s: string)
    ensures Words(Trim(IsDash, s)) == Words(s)
  {
    WordsOfTrimLeft(s);
    WordsOfTrimRight(TrimLeft(IsDash, s));
  }

  lemma {:induction false} WordsAreSome(s: string)
    requires s != "" && IsWord(s[0])
    ensures Words(s) != ""
    decreases |s|
  {
    if |s| > 1 {
      WordsAreSome(s[..|s| - 1]);
    }
  }

  /**
   * A slug holds the letters and digits of the title in lower case, in order
   * and none other: all of them, or the first of them when it was clipped. It
   * is empty exactly when there are none.
   */
  lemma SlugKeepsWords(low: LowerCase, s: string)
    ensures Words(Slugify(low, s)) <= Words(Lower(low, s))
    ensures |Trim(IsDash, Dashed(Lower(low, s)))| <= MAX_SLUG ==> Words(Slugify(low, s)) == Words(Lower(low, s))
    ensures Slugify(low, s) == "" <==> Words(Lower(low, s)) == ""
  {
    var dashed := Dashed(Lower(low, s));
    var trimmed := Trim(IsDash, dashed);
    WordsOfDashed(Lower(low, s));
    WordsOfTrim(dashed);
    TrimIsTrimmed(IsDash, dashed);
    DashedIsKebab(Lower(low, s));
    KebabTrim(dashed);
    if trimmed != "" {
      WordsAreSome(trimmed);
      if |trimmed| > MAX_SLUG {
        assert
          && Words(Trim(IsDash, trimmed[..MAX_SLUG])) <= Words(trimmed)
          && Trim(IsDash, trimmed[..MAX_SLUG]) != ""
        by {
          var front, rest := trimmed[..MAX_SLUG], trimmed[MAX_SLUG..];
          assert trimmed == front + rest;
          WordsAppend(front, rest);
          WordsOfTrim(front);
          WordsAreSome(front);
          assert Words("") == "";
        }
      }
    }
  }

  // --------------------------------------------------------------- uniqueSlug

  function Digit(d: nat): char
    requires d < 10
  {
    ['0', '1', '2', '3', '4', '5', '6', '7', '8', '9'][d]
  }

  function Decimal(n: nat): (s: string)
    ensures s != ""
  {
    if n < 10 then [Digit(n)] else Decimal(n / 10) + [Digit(n % 10)]
  }

  lemma {:induction false} DecimalIsInjective(m: nat, n: nat)
    requires Decimal(m) == Decimal(n)
    ensures m == n
    decreases m
  {
    assert Decimal(m)[|Decimal(m)| - 1] == Digit(m % 10);
    assert Decimal(n)[|Decimal(n)| - 1] == Digit(n % 10);
    assert m % 10 == n % 10;
    if m >= 10 && n >= 10 {
      assert Decimal(m)[..|Decimal(m)| - 1] == Decimal(m / 10);
      assert Decimal(n)[..|Decimal(n)| - 1] == Decimal(n / 10);
      DecimalIsInjective(m / 10, n / 10);
    }
  }

  lemma {:induction false} LowerOfDecimal(low: LowerCase, n: nat)
    requires KeepsSlugs(low)
    ensures Lower(low, Decimal(n)) == Decimal(n)
    decreases n
  {
    if n >= 10 {
      LowerOfDecimal(low, n / 10);
      var front, d := Decimal(n / 10), Digit(n % 10);
      assert (front + [d])[..|front|] == front && IsWord(d);
    } else {
      assert Lower(low, [Digit(n)]) == Lower(low, "") + [low(Digit(n))];
    }
  }

  /** The n-th name tried for a slug, from 1. */
  function Candidate(slug: string, n: nat): string {
    if n <= 1 then slug else slug + "-" + Decimal(n)
  }

  /** No two candidates of one slug are one name, whatever the case. */
  lemma CandidatesDiffer(low: LowerCase, slug: string, m: nat, n: nat)
    requires KeepsSlugs(low) && 1 <= m < n
    ensures Lower(low, Candidate(slug, m)) != Lower(low, Candidate(slug, n))
  {
    LowerOfCandidate(low, slug, n);
    if m > 1 {
      LowerOfCandidate(low, slug, m);
      var head := Lower(low, slug) + "-";
      if head + Decimal(m) == head + Decimal(n) {
        assert Decimal(m) == (head + Decimal(m))[|head|..] == (head + Decimal(n))[|head|..] == Decimal(n);
        DecimalIsInjective(m, n);
      }
    }
  }

  lemma LowerOfCandidate(low: LowerCase, slug: string, n: nat)
    requires KeepsSlugs(low) && n > 1
    ensures Lower(low, Candidate(slug, n)) == Lower(low, slug) + "-" + Decimal(n)
  {
    LowerAppend(low, slug + "-", Decimal(n));
    LowerAppend(low, slug, "-");
    LowerOfDecimal(low, n);
    assert Lower(low, "-") == Lower(low, "") + [low('-')];
  }

  /** What a candidate occupies where case does not count. */
  function Key(low: LowerCase, slug: string, n: nat): string {
    Lower(low, Candidate(slug, n))
  }

  /** The first n candidates are all taken. */
  ghost predicate AllTaken(low: LowerCase, slug: string, n: nat, used: set<string>) {
    n == 0 || (AllTaken(low, slug, n - 1, used) && Key(low, slug, n) in used)
  }

  lemma {:induction false} TakenWithout(low: LowerCase, slug: string, m: nat, n: nat, used: set<string>)
    requires KeepsSlugs(low) && m < n && AllTaken(low, slug, m, used)
    ensures AllTaken(low, slug, m, used - {Key(low, slug, n)})
    decreases m
  {
    if m > 0 {
      CandidatesDiffer(low, slug, m, n);
      TakenWithout(low, slug, m - 1, n, used);
    }
  }

  /** The first n candidates take n names: there are not more of them than names taken. */
  lemma {:induction false} SomeAreFree(low: LowerCase, slug: string, n: nat, used: set<string>)
    requires KeepsSlugs(low) && AllTaken(low, slug, n, used)
    ensures n <= |used|
    decreases n
  {
    if n > 0 {
      TakenWithout(low, slug, n - 1, n, used);
      SomeAreFree(low, slug, n - 1, used - {Key(low, slug, n)});
    }
  }

  /** The first candidate whose lower case is not taken. */
  ghost predicate Picks(low: LowerCase, slug: string, used: set<string>, name: string, n: nat) {
    n >= 1 && name == Candidate(slug, n) && Lower(low, name) !in used && AllTaken(low, slug, n - 1, used)
  }

  /** It ends within one try more than there are names, with a name free whatever the case. */
  method UniqueSlug(low: LowerCase, slug: string, used: set<string>) returns (name: string, used': set<string>, ghost n: nat)
    requires KeepsSlugs(low)
    ensures Picks(low, slug, used, name, n) && n <= |used| + 1
    ensures used' == used + {Lower(low, name)}
  {
    var k := 1;
    SomeAreFree(low, slug, 0, used);
    while true
      invariant 1 <= k <= |used| + 1 && AllTaken(low, slug, k - 1, used)
      decreases |used| + 1 - k
    {
      name := Candidate(slug, k);
      var key := Lower(low, name);
      if key !in used {
        return name, used + {key}, k;
      }
      SomeAreFree(low, slug, k, used);
      k := k + 1;
    }
  }

  // --------------------------------------------------------------- the export

  datatype Exported = Exported(title: string, id: string)

  function FirstNonEmpty(space: Spaces, a: string, b: string): string {
    if Trim(space, a) != "" then a else b
  }

  /** The title's slug, or the id's, or a placeholder. */
  function BaseSlug(space: Spaces, low: LowerCase, m: Exported): string {
    FirstNonEmpty(space, Slugify(low, m.title), FirstNonEmpty(space, Slugify(low, m.id), UNTITLED))
  }

  function BaseSlugs(space: Spaces, low: LowerCase, memories: seq<Exported>): (bases: seq<string>)
    ensures |bases| == |memories|
  {
    seq(|memories|, i requires 0 <= i < |memories| => BaseSlug(space, low, memories[i]))
  }

  /** The lower-case names taken once the index and these names are. */
  ghost function Taken(low: LowerCase, names: seq<string>): set<string> {
    if names == [] then {Lower(low, INDEX)} else Taken(low, names[..|names| - 1]) + {Lower(low, names[|names| - 1])}
  }

  lemma {:induction false} TakenAre(low: LowerCase, names: seq<string>)
    ensures Lower(low, INDEX) in Taken(low, names)
    ensures forall i :: 0 <= i < |names| ==> Lower(low, names[i]) in Taken(low, names)
    decreases |names|
  {
    if names != [] {
      TakenAre(low, names[..|names| - 1]);
      forall i | 0 <= i < |names| ensures Lower(low, names[i]) in Taken(low, names) {
        assert i < |names| - 1 ==> names[..|names| - 1][i] == names[i];
      }
    }
  }

  /** No two names are one file, even where case does not count, and none is the index. */
  ghost predicate AllDistinct(low: LowerCase, names: seq<string>) {
    && (forall i, j :: 0 <= i < j < |names| ==> Lower(low, names[i]) != Lower(low, names[j]))
    && forall i :: 0 <= i < |names| ==> Lower(low, names[i]) != Lower(low, "MEMORY")
  }

  ghost predicate IsFirstFree(low: LowerCase, slug: string, used: set<string>, name: string) {
    exists n :: Picks(low, slug, used, name, n)
  }

  /** Each name is its slug's first candidate that the index and the names before it leave free. */
  ghost predicate Named(low: LowerCase, bases: seq<string>, names: seq<string>) {
    names == [] ||
    var n := |names| - 1;
    && n < |bases| && Named(low, bases, names[..n])
    && IsFirstFree(low, bases[n], Taken(low, names[..n]), names[n])
  }

  lemma DistinctMore(low: LowerCase, names: seq<string>)
    requires names != [] && AllDistinct(low, names[..|names| - 1])
    requires Lower(low, names[|names| - 1]) !in Taken(low, names[..|names| - 1])
    ensures AllDistinct(low, names)
  {
    var front := names[..|names| - 1];
    TakenAre(low, front);
    assert forall i :: 0 <= i < |front| ==> front[i] == names[i];
  }

  lemma {:induction false} NamesAreDistinct(low: LowerCase, bases: seq<string>, names: seq<string>)
    requires Named(low, bases, names)
    ensures AllDistinct(low, names)
    decreases |names|
  {
    if names != [] {
      var n := |names| - 1;
      NamesAreDistinct(low, bases, names[..n]);
      assert Lower(low, names[n]) !in Taken(low, names[..n]);
      DistinctMore(low, names);
    }
  }

  /** The naming loop of an export: whatever the titles, every memory gets a file of its own. */
  method ExportNames(space: Spaces, low: LowerCase, memories: seq<Exported>) returns (names: seq<string>)
    requires KeepsSlugs(low)
    ensures |names| == |memories| && Named(low, BaseSlugs(space, low, memories), names) && AllDistinct(low, names)
  {
    names := [];
    var used := {Lower(low, INDEX)};
    for i := 0 to |memories|
      invariant |names| == i && used == Taken(low, names) && Named(low, BaseSlugs(space, low, memories), names)
    {
      var name, used', n := UniqueSlug(low, BaseSlug(space, low, memories[i]), used);
      assert Picks(low, BaseSlug(space, low, memories[i]), used, name, n);
      assert (names + [name])[..i] == names;
      names := names + [name];
      used := used';
    }
    NamesAreDistinct(low, BaseSlugs(space, low, memories), names);
  }
}
