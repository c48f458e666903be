/**
 * Case folding of keys (pkg/authz/ambiguous.go, foldKey).
 *
 * Unicode's tables are parameters. orbit gives the runes equal to a rune under
 * simple folding, and next is unicode.SimpleFold: it walks an orbit upwards and
 * starts over at its least rune. The ASCII part of the tables is spelled out,
 * because the code has a shortcut for it.
 */
module Folding {
  type Orbits = char -> set<char>

  ghost predicate IsOrbits(orbit: Orbits) {
    && (forall r :: r in orbit(r))
    && (forall r, q :: q in orbit(r) ==> orbit(q) == orbit(r))
    && (forall r :: r < 128 as char ==> IsLeast(orbit(r), UpperASCII(r)))
  }

  /** next(r) is the least rune of r's orbit above r, or the least of the orbit if there is none. */
  ghost predicate IsSimpleFold(orbit: Orbits, next: char -> char) {
    forall r ::
      && next(r) in orbit(r)
      && (next(r) <= r ==> IsLeast(orbit(r), next(r)) && forall q :: q in orbit(r) ==> q <= r)
      && (r < next(r) ==> forall q :: q in orbit(r) && r < q ==> next(r) <= q)
  }

  ghost predicate IsLeast(s: set<char>, m: char) {
    m in s && forall x :: x in s ==> m <= x
  }

  function UpperASCII(c: char): char {
    if 'a' <= c <= 'z' then c - 32 as char else c
  }

  lemma {:induction false} HasLeast(s: set<char>)
    requires s != {}
    ensures exists m :: IsLeast(s, m)
    decreases |s|
  {
    var x :| x in s;
    var rest := s - {x};
    if rest == {} {
      forall y | y in s ensures x <= y {
        assert y == x || y in rest;
      }
      assert IsLeast(s, x);
    } else {
      HasLeast(rest);
      var m :| IsLeast(rest, m);
      forall y | y in s ensures x <= y || m <= y {
        if y != x { assert y in rest; }
      }
      assert IsLeast(s, if x <= m then x else m);
    }
  }

  ghost function Least(s: set<char>): (m: char)
    requires s != {}
    ensures IsLeast(s, m)
  {
    HasLeast(s);
    var m :| IsLeast(s, m);
    m
  }

  predicate EqualFold(orbit: Orbits, a: string, b: string) {
    |a| == |b| && forall i :: 0 <= i < |a| ==> b[i] in orbit(a[i])
  }

  ghost function Folded(orbit: Orbits, key: string): (f: string)
    requires IsOrbits(orbit)
    ensures |f| == |key|
  {
    seq(|key|, i requires 0 <= i < |key| => Least(orbit(key[i])))
  }

  /** Two keys have one folded form exactly when they are equal under folding. */
  lemma SameFoldIsEqualFold(orbit: Orbits, a: string, b: string)
    requires IsOrbits(orbit)
    ensures Folded(orbit, a) == Folded(orbit, b) <==> EqualFold(orbit, a, b)
  {
    if Folded(orbit, a) == Folded(orbit, b) {
      forall i | 0 <= i < |a| ensures b[i] in orbit(a[i]) {
        var m := Folded(orbit, a)[i];
        assert m == Least(orbit(a[i])) && m == Folded(orbit, b)[i] == Least(orbit(b[i]));
        assert orbit(m) == orbit(a[i]) && orbit(m) == orbit(b[i]);
      }
    }
    if EqualFold(orbit, a, b) {
      forall i | 0 <= i < |a| ensures Folded(orbit, a)[i] == Folded(orbit, b)[i] {
        assert orbit(b[i]) == orbit(a[i]);
      }
    }
  }

  lemma EqualFoldIsEquivalence(orbit: Orbits, a: string, b: string, c: string)
    requires IsOrbits(orbit)
    ensures EqualFold(orbit, a, a)
    ensures EqualFold(orbit, a, b) ==> EqualFold(orbit, b, a)
    ensures EqualFold(orbit, a, b) && EqualFold(orbit, b, c) ==> EqualFold(orbit, a, c)
  {
    SameFoldIsEqualFold(orbit, a, a);
    SameFoldIsEqualFold(orbit, a, b);
    SameFoldIsEqualFold(orbit, b, a);
    SameFoldIsEqualFold(orbit, b, c);
    SameFoldIsEqualFold(orbit, a, c);
  }

  /** The loop around SimpleFold: climb the orbit until it starts over, at its least rune. */
  method FoldRune(ghost orbit: Orbits, next: char -> char, c: char) returns (r: char)
    requires IsOrbits(orbit) && IsSimpleFold(orbit, next)
    ensures r == Least(orbit(c))
  {
    r := c;
    while true
      invariant r in orbit(c)
      decreases set q | q in orbit(c) && r < q
    {
      var r2 := next(r);
      assert orbit(r) == orbit(c);
      if r2 <= r {
        r := r2;
        break;
      }
      ghost var above := set q | q in orbit(c) && r < q;
      assert (set q | q in orbit(c) && r2 < q) <= above - {r2} && r2 in above;
      r := r2;
    }
  }

  method FoldKey(ghost orbit: Orbits, next: char -> char, key: string) returns (out: string)
    requires IsOrbits(orbit) && IsSimpleFold(orbit, next)
    ensures out == Folded(orbit, key)
  {
    out := "";
    for i := 0 to |key|
      invariant out == Folded(orbit, key)[..i]
    {
      var c := key[i];
      if c < 128 as char {
        assert UpperASCII(c) == Least(orbit(c));
        if 'a' <= c <= 'z' {
          c := c - 32 as char;
        }
        out := out + [c];
      } else {
        var r := FoldRune(orbit, next, c);
        out := out + [r];
      }
    }
  }
}
