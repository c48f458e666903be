/** Strings as the stores handle them: trimmed, joined, and listed in order. */
module Texts {
  /** Which characters unicode.IsSpace says are white space. */
  type Spaces = char -> bool

  predicate Trimmed(space: Spaces, s: string) {
    s != "" ==> !space(s[0]) && !space(s[|s| - 1])
  }

  function TrimLeft(space: Spaces, s: string): string {
    if s != "" && space(s[0]) then TrimLeft(space, s[1..]) else s
  }

  function TrimRight(space: Spaces, s: string): string {
    if s != "" && space(s[|s| - 1]) then TrimRight(space, s[..|s| - 1]) else s
  }

  function Trim(space: Spaces, s: string): string {
    TrimRight(space, TrimLeft(space, s))
  }

  lemma {:induction false} TrimLeftEnds(space: Spaces, s: string)
    ensures TrimLeft(space, s) != "" ==> !space(TrimLeft(space, s)[0])
  {
    if s != "" {
      TrimLeftEnds(space, s[1..]);
    }
  }

  lemma {:induction false} TrimRightEnds(space: Spaces, s: string)
    ensures TrimRight(space, s) != "" ==> !space(TrimRight(space, s)[|TrimRight(space, s)| - 1])
    ensures TrimRight(space, s) != "" ==> s != "" && TrimRight(space, s)[0] == s[0]
    decreases |s|
  {
    if s != "" {
      TrimRightEnds(space, s[..|s| - 1]);
    }
  }

  lemma TrimIsTrimmed(space: Spaces, s: string)
    ensures Trimmed(space, Trim(space, s))
  {
    TrimLeftEnds(space, s);
    TrimRightEnds(space, TrimLeft(space, s));
  }

  lemma TrimOfTrimmed(space: Spaces, s: string)
    requires Trimmed(space, s)
    ensures Trim(space, s) == s
  {
  }

  function Join(parts: seq<string>, between: string): string {
    if parts == [] then "" else if |parts| == 1 then parts[0] else parts[0] + between + Join(parts[1..], between)
  }

  // ----------------------------------------------------------- order by text

  /** Code point order, which is the order of the UTF-8 bytes. */
  predicate Precedes(a: string, b: string) {
    a == "" || (b != "" && (a[0] < b[0] || (a[0] == b[0] && Precedes(a[1..], b[1..]))))
  }

  lemma {:induction false} PrecedesIsTotal(a: string, b: string)
    ensures Precedes(a, b) || Precedes(b, a)
    ensures Precedes(a, b) && Precedes(b, a) ==> a == b
    decreases |a|
  {
    if a != "" && b != "" {
      PrecedesIsTotal(a[1..], b[1..]);
      assert a == [a[0]] + a[1..] && b == [b[0]] + b[1..];
    }
  }

  lemma {:induction false} PrecedesIsTransitive(a: string, b: string, c: string)
    requires Precedes(a, b) && Precedes(b, c)
    ensures Precedes(a, c)
    decreases |a|
  {
    if a != "" && a[0] == b[0] == c[0] {
      PrecedesIsTransitive(a[1..], b[1..], c[1..]);
    }
  }

  predicate IsFirst(v: string, s: set<string>) {
    v in s && forall w :: w in s ==> Precedes(v, w)
  }

  lemma {:induction false} FirstExists(s: set<string>)
    requires s != {}
    ensures exists v :: IsFirst(v, s)
    decreases |s|
  {
    var x :| x in s;
    PrecedesIsTotal(x, x);
    if s == {x} {
      assert IsFirst(x, s);
    } else {
      var rest := s - {x};
      assert s == rest + {x};
      FirstExists(rest);
      var y :| IsFirst(y, rest);
      PrecedesIsTotal(x, y);
      if Precedes(y, x) {
        assert IsFirst(y, s);
      } else {
        forall w | w in s ensures Precedes(x, w) {
          if w != x {
            PrecedesIsTransitive(x, y, w);
          }
        }
        assert IsFirst(x, s);
      }
    }
  }

  /** r lists the strings of s, each once, in order. */
  ghost predicate Lists(r: seq<string>, s: set<string>) {
    && (forall v :: v in r <==> v in s)
    && forall i, j :: 0 <= i < j < |r| ==> Precedes(r[i], r[j]) && r[i] != r[j]
  }

  /** There is one such list. */
  lemma {:induction false} ListIsUnique(a: seq<string>, b: seq<string>, s: set<string>)
    requires Lists(a, s) && Lists(b, s)
    ensures a == b
    decreases |a|
  {
    assert b == [] || b[0] in a;
    if a != [] {
      assert a[0] in b;
      assert b[0] in a;
      PrecedesIsTotal(a[0], b[0]);
      ListTail(a, s);
      ListTail(b, s);
      ListIsUnique(a[1..], b[1..], s - {a[0]});
    }
  }

  lemma ListTail(a: seq<string>, s: set<string>)
    requires Lists(a, s) && a != []
    ensures Lists(a[1..], s - {a[0]})
  {
    forall v ensures v in a[1..] <==> v in s - {a[0]} {
      if v in s - {a[0]} {
        var i :| 0 <= i < |a| && a[i] == v;
        assert a[1..][i - 1] == v;
      }
    }
  }

  /** ORDER BY over a column of distinct strings. */
  method InOrder(s: set<string>) returns (r: seq<string>)
    ensures Lists(r, s)
  {
    r := [];
    var todo := s;
    while todo != {}
      invariant todo <= s && Lists(r, s - todo)
      invariant forall v, w :: v in r && w in todo ==> Precedes(v, w)
    {
      FirstExists(todo);
      var v :| v in todo && forall w :: w in todo ==> Precedes(v, w);
      assert Lists(r + [v], (s - todo) + {v});
      assert s - (todo - {v}) == s - todo + {v};
      r := r + [v];
      todo := todo - {v};
    }
    assert s - todo == s;
  }

  /** The same list, as a value. */
  function Ordered(s: set<string>): (r: seq<string>)
    ensures Lists(r, s)
  {
    if s == {} then []
    else
      FirstExists(s);
      OneIsFirst(s);
      var v :| v in s && IsFirst(v, s);
      [v] + Ordered(s - {v})
  }

  lemma OneIsFirst(s: set<string>)
    ensures forall v, w :: IsFirst(v, s) && IsFirst(w, s) ==> v == w
  {
    forall v, w | IsFirst(v, s) && IsFirst(w, s) ensures v == w {
      PrecedesIsTotal(v, w);
    }
  }
}
