/**
 * What a slug is, said of the pieces of its title (slugify, uniqueSlug and the
 * naming of exported memories, cmd/cortexdb-mcp-stdio/export_memory.go).
 */
module SlugPieces {
  import opened Texts
  import opened Slugs

  // ---------------------------------------------------------------- one slug

  predicate AllWord(s: string) {
    forall i :: 0 <= i < |s| ==> IsWord(s[i])
  }

  predicate NoWord(s: string) {
    forall i :: 0 <= i < |s| ==> !IsWord(s[i])
  }

  /** Words with gaps around them: a gap before each, and one at the end. */
  ghost predicate Pieces(gaps: seq<string>, words: seq<string>) {
    && |gaps| == |words| + 1
    && (forall i :: 0 <= i < |words| ==> words[i] != "" && AllWord(words[i]))
    && (forall i :: 0 <= i < |gaps| ==> NoWord(gaps[i]))
    && forall i :: 0 < i < |words| ==> gaps[i] != ""
  }

  function Woven(gaps: seq<string>, words: seq<string>): string
    requires |gaps| == |words| + 1
  {
    var n := |words|;
    if n == 0 then gaps[0] else Woven(gaps[..n], words[..n - 1]) + words[n - 1] + gaps[n]
  }

  /** The words with one dash between each and the next. */
  function Hyphenated(words: seq<string>): string {
    var n := |words|;
    if n == 0 then "" else if n == 1 then words[0] else Hyphenated(words[..n - 1]) + "-" + words[n - 1]
  }

  lemma {:induction false} DashedWord(s: string, w: string)
    requires AllWord(w)
    ensures Dashed(s + w) == Dashed(s) + w
    decreases |w|
  {
    var n := |w| - 1;
    if w == "" {
      assert s + w == s;
    } else {
      assert (s + w)[..|s + w| - 1] == s + w[..n];
      DashedWord(s, w[..n]);
      assert w == w[..n] + [w[n]];
    }
  }

  lemma {:induction false} DashedGap(s: string, g: string)
    requires NoWord(g) && g != ""
    ensures var d := Dashed(s); Dashed(s + g) == if d != "" && d[|d| - 1] == '-' then d else d + "-"
    decreases |g|
  {
    var n := |g| - 1;
    assert (s + g)[..|s + g| - 1] == s + g[..n] && (s + g)[|s + g| - 1] == g[n];
    if n == 0 {
      assert s + g[..0] == s;
    } else {
      DashedGap(s, g[..n]);
    }
  }

  lemma {:induction false} HyphenatedEnds(words: seq<string>)
    requires words != [] && forall i :: 0 <= i < |words| ==> words[i] != "" && AllWord(words[i])
    ensures var h := Hyphenated(words); h != "" && IsWord(h[0]) && IsWord(h[|h| - 1])
    decreases |words|
  {
    var n := |words|;
    if n > 1 {
      HyphenatedEnds(words[..n - 1]);
      assert words[n - 1] != "";
    }
  }

  function Dash(gap: string): string {
    if gap == "" then "" else "-"
  }

  lemma {:induction false} DashedPieces(gaps: seq<string>, words: seq<string>)
    requires Pieces(gaps, words) && words != []
    ensures Dashed(Woven(gaps, words)) == Dash(gaps[0]) + Hyphenated(words) + Dash(gaps[|words|])
    decreases |words|
  {
    var n := |words|;
    var before := Woven(gaps[..n], words[..n - 1]);
    assert words[n - 1] != "" && AllWord(words[n - 1]) && NoWord(gaps[n]);
    OneMorePiece(before, words[n - 1], gaps[n]);
    if n == 1 {
      assert before == gaps[..1][0] == gaps[0];
      LeadingGap(gaps[0]);
    } else {
      FewerPieces(gaps, words);
      DashedPieces(gaps[..n], words[..n - 1]);
      Grouped(Dash(gaps[0]), Hyphenated(words[..n - 1]), "-", words[n - 1], Dash(gaps[n]));
    }
  }

  lemma FewerPieces(gaps: seq<string>, words: seq<string>)
    requires Pieces(gaps, words) && |words| > 1
    ensures var n := |words|; Pieces(gaps[..n], words[..n - 1]) && gaps[..n][0] == gaps[0] && gaps[..n][n - 1] == gaps[n - 1] != ""
  {
  }

  lemma OneMorePiece(before: string, w: string, g: string)
    requires w != "" && AllWord(w) && NoWord(g)
    ensures Dashed(before + w + g) == Dashed(before) + w + Dash(g)
  {
    DashedWord(before, w);
    LastGap(before + w, g);
  }

  lemma Grouped(a: string, b: string, c: string, d: string, e: string)
    ensures a + b + c + d + e == a + (b + c + d) + e
  {
  }

  lemma LeadingGap(g: string)
    requires NoWord(g)
    ensures Dashed(g) == Dash(g)
  {
    if g != "" {
      DashedGap("", g);
      assert "" + g == g;
    }
  }

  lemma LastGap(s: string, g: string)
    requires NoWord(g) && s != "" && IsWord(s[|s| - 1])
    ensures Dashed(s + g) == Dashed(s) + Dash(g)
  {
    if g == "" {
      assert s + g == s && Dashed(s) + "" == Dashed(s);
    } else {
      DashedGap(s, g);
    }
  }

  lemma DashesOff(lead: string, h: string, trail: string)
    requires lead in {"", "-"} && trail in {"", "-"} && h != "" && h[0] != '-' && h[|h| - 1] != '-'
    ensures Trim(IsDash, lead + h + trail) == h
  {
    var s := lead + h + trail;
    assert TrimLeft(IsDash, s) == h + trail by {
      if lead == "-" {
        assert s[0] == '-' && s[1..] == h + trail;
      } else {
        assert s == h + trail;
      }
    }
    assert TrimRight(IsDash, h) == h;
    if trail == "-" {
      var t := h + trail;
      assert t[|t| - 1] == '-' && t[..|t| - 1] == h;
      assert TrimRight(IsDash, t) == TrimRight(IsDash, h);
    } else {
      assert h + trail == h;
    }
  }

  /**
   * The slug of a title is its words, in lower case, with one dash for whatever
   * stands between two of them; the first 60 characters of that, and no dash at
   * the end, when it is longer.
   */
  lemma SlugExactly(low: LowerCase, title: string, gaps: seq<string>, words: seq<string>)
    requires Pieces(gaps, words) && Lower(low, title) == Woven(gaps, words)
    ensures var h, slug := Hyphenated(words), Slugify(low, title);
            && (|h| <= 60 ==> slug == h)
            && (|h| > 60 ==> slug == if h[59] == '-' then h[..59] else h[..60])
  {
    var h := Hyphenated(words);
    if words == [] {
      LeadingGap(gaps[0]);
      OnlyDash(gaps[0]);
    } else {
      DashedPieces(gaps, words);
      HyphenatedEnds(words);
      DashesOff(Dash(gaps[0]), h, Dash(gaps[|words|]));
      DashedIsKebab(Lower(low, title));
      KebabTrim(Dashed(Lower(low, title)));
      if |h| > 60 {
        ClipIs(h);
      }
    }
  }

  lemma OnlyDash(gap: string)
    ensures Trim(IsDash, Dash(gap)) == ""
  {
    assert "-"[0] == '-' && "-"[1..] == "";
    assert TrimLeft(IsDash, "-") == TrimLeft(IsDash, "");
  }

  lemma ClipIs(h: string)
    requires Kebab(h) && |h| > 60 && IsWord(h[0])
    ensures Trim(IsDash, h[..60]) == if h[59] == '-' then h[..59] else h[..60]
  {
    var s := h[..60];
    assert s[0] == h[0] && s[59] == h[59];
    assert TrimLeft(IsDash, s) == s && s[|s| - 1] == h[59];
    var a, b := h[58], h[59];
    assert a != '-' || b != '-';
    if h[59] == '-' {
      var t := s[..59];
      assert t == h[..59] && t[|t| - 1] == h[58];
      assert TrimRight(IsDash, s) == TrimRight(IsDash, t) == t;
    }
  }

  /** Every text is such pieces. */
  lemma {:induction false} PiecesOf(s: string) returns (gaps: seq<string>, words: seq<string>)
    ensures Pieces(gaps, words) && Woven(gaps, words) == s
    decreases |s|
  {
    if s == "" {
      gaps, words := [""], [];
    } else {
      var c := s[|s| - 1];
      var g, w := PiecesOf(s[..|s| - 1]);
      var n := |w|;
      assert s == s[..|s| - 1] + [c];
      if !IsWord(c) {
        gaps, words := g[..n] + [g[n] + [c]], w;
        GapGrows(g, w, c);
      } else if n > 0 && g[n] == "" {
        gaps, words := g, w[..n - 1] + [w[n - 1] + [c]];
        WordGrows(g, w, c);
      } else {
        gaps, words := g + [""], w + [[c]];
        WordStarts(g, w, c);
      }
    }
  }

  lemma GapGrows(g: seq<string>, w: seq<string>, c: char)
    requires Pieces(g, w) && !IsWord(c)
    ensures var n := |w|; var gaps := g[..n] + [g[n] + [c]]; Pieces(gaps, w) && Woven(gaps, w) == Woven(g, w) + [c]
  {
    var n := |w|;
    var gaps := g[..n] + [g[n] + [c]];
    assert forall i :: 0 <= i < n ==> gaps[i] == g[i];
    assert NoWord(g[n]);
    assert gaps[..n] == g[..n] && w[..n] == w;
  }

  lemma WordGrows(g: seq<string>, w: seq<string>, c: char)
    requires Pieces(g, w) && IsWord(c) && w != [] && g[|w|] == ""
    ensures var n := |w|; var words := w[..n - 1] + [w[n - 1] + [c]]; Pieces(g, words) && Woven(g, words) == Woven(g, w) + [c]
  {
    var n := |w|;
    var words := w[..n - 1] + [w[n - 1] + [c]];
    assert forall i :: 0 <= i < n - 1 ==> words[i] == w[i];
    assert words[n - 1] == w[n - 1] + [c] && AllWord(w[n - 1]);
    assert words[..n - 1] == w[..n - 1];
  }

  lemma WordStarts(g: seq<string>, w: seq<string>, c: char)
    requires Pieces(g, w) && IsWord(c) && (w == [] || g[|w|] != "")
    ensures var gaps, words := g + [""], w + [[c]]; Pieces(gaps, words) && Woven(gaps, words) == Woven(g, w) + [c]
  {
    var gaps, words := g + [""], w + [[c]];
    var n := |words|;
    assert forall i :: 0 <= i < |g| ==> gaps[i] == g[i];
    assert forall i :: 0 <= i < |w| ==> words[i] == w[i];
    assert words[..n - 1] == w && gaps[..n] == g && words[n - 1] == [c] && gaps[n] == "";
  }

  // -------------------------------------------------------------- file names

  /** The title names the memory's file, the id where no letter or digit is in the title, a word where none is in either. */
  lemma BaseSlugExactly(space: Spaces, low: LowerCase, m: Exported)
    requires forall c :: IsWord(c) ==> !space(c)
    ensures var base := BaseSlug(space, low, m);
            if !NoWord(Lower(low, m.title)) then base == Slugify(low, m.title)
            else if !NoWord(Lower(low, m.id)) then base == Slugify(low, m.id)
            else base == "untitled"
  {
    SlugShows(space, low, m.title);
    SlugShows(space, low, m.id);
  }

  lemma SlugShows(space: Spaces, low: LowerCase, s: string)
    requires forall c :: IsWord(c) ==> !space(c)
    ensures Trim(space, Slugify(low, s)) != "" <==> !NoWord(Lower(low, s))
  {
    var slug := Slugify(low, s);
    SlugifyIsSlug(low, s);
    SlugKeepsWords(low, s);
    WordsAre(Lower(low, s));
    if slug != "" {
      assert IsWord(slug[0]) && TrimLeft(space, slug) == slug;
      NotAllTrimmed(space, slug);
    }
  }

  lemma {:induction false} WordsAre(s: string)
    ensures Words(s) == "" <==> NoWord(s)
    decreases |s|
  {
    if s != "" {
      WordsAre(s[..|s| - 1]);
    }
  }

  lemma {:induction false} NotAllTrimmed(space: Spaces, s: string)
    requires s != "" && !space(s[0])
    ensures TrimRight(space, s) != ""
    decreases |s|
  {
    if |s| > 1 && space(s[|s| - 1]) {
      NotAllTrimmed(space, s[..|s| - 1]);
    }
  }

  /** The number that decimal digits write. */
  function Value(digits: string): nat {
    if digits == "" then 0 else 10 * Value(digits[..|digits| - 1]) + (if '0' <= digits[|digits| - 1] <= '9' then digits[|digits| - 1] as nat - 48 else 0)
  }

  lemma {:induction false} DecimalExactly(n: nat)
    ensures var d := Decimal(n);
            Value(d) == n && (forall i :: 0 <= i < |d| ==> '0' <= d[i] <= '9') && (n > 0 ==> d[0] != '0')
    decreases n
  {
    if n >= 10 {
      DecimalExactly(n / 10);
      var d := Decimal(n);
      assert d[..|d| - 1] == Decimal(n / 10);
    } else {
      assert Decimal(n)[..0] == "" && Value("") == 0;
    }
  }

  /** A name is the slug itself if that is free, and otherwise the slug, a dash and the first number from 2 that makes it so. */
  lemma NameExactly(low: LowerCase, slug: string, used: set<string>, name: string, n: nat)
    requires Picks(low, slug, used, name, n)
    ensures Lower(low, slug) !in used ==> name == slug
    ensures Lower(low, slug) in used ==>
              && n >= 2 && slug + "-" <= name
              && var d := name[|slug| + 1..];
                 d != "" && Value(d) == n && d[0] != '0' && forall i :: 0 <= i < |d| ==> '0' <= d[i] <= '9'
    ensures Lower(low, name) !in used
    ensures forall k :: 2 <= k < n ==> Lower(low, slug + "-" + Decimal(k)) in used
  {
    if n >= 2 {
      DecimalExactly(n);
      TakenBefore(low, slug, n - 1, used, 1);
    }
    forall k | 2 <= k < n ensures Lower(low, slug + "-" + Decimal(k)) in used {
      TakenBefore(low, slug, n - 1, used, k);
    }
  }

  lemma {:induction false} TakenBefore(low: LowerCase, slug: string, n: nat, used: set<string>, k: nat)
    requires AllTaken(low, slug, n, used) && 1 <= k <= n
    ensures Key(low, slug, k) in used
    decreases n
  {
    if k < n {
      TakenBefore(low, slug, n - 1, used, k);
    }
  }
}
