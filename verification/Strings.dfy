// Byte-wise string order, as used by Go's `<` on strings and by sort.Strings, and trimming.

module Strings {

  /** The order of Go strings: lexicographic on code units. */
  predicate AtMost(a: string, b: string)
  {
    a == [] || (b != [] && (a[0] < b[0] || (a[0] == b[0] && AtMost(a[1..], b[1..]))))
  }

  lemma AtMostReflexive(a: string)
    ensures AtMost(a, a)
  {}

  lemma {:induction false} AtMostTotal(a: string, b: string)
    ensures AtMost(a, b) || AtMost(b, a)
  {
    if a != [] && b != [] && a[0] == b[0] {
      AtMostTotal(a[1..], b[1..]);
    }
  }

  lemma {:induction false} AtMostTransitive(a: string, b: string, c: string)
    requires AtMost(a, b) && AtMost(b, c)
    ensures AtMost(a, c)
  {
    if a != [] && a[0] == b[0] && b[0] == c[0] {
      AtMostTransitive(a[1..], b[1..], c[1..]);
    }
  }

  lemma {:induction false} AtMostAntisymmetric(a: string, b: string)
    requires AtMost(a, b) && AtMost(b, a)
    ensures a == b
  {
    if a != [] && b != [] {
      AtMostAntisymmetric(a[1..], b[1..]);
      assert a == [a[0]] + a[1..] && b == [b[0]] + b[1..];
    }
  }

  ghost predicate IsLeast(x: string, names: set<string>)
  {
    x in names && forall y :: y in names ==> AtMost(x, y)
  }

  lemma {:induction false} LeastExists(names: set<string>)
    requires names != {}
    ensures exists x :: IsLeast(x, names)
    decreases |names|
  {
    var a :| a in names;
    AtMostReflexive(a);
    var rest := names - {a};
    if rest == {} {
      assert names == {a};
      assert IsLeast(a, names);
    } else {
      LeastExists(rest);
      var b :| IsLeast(b, rest);
      AtMostTotal(a, b);
      if AtMost(a, b) {
        forall y | y in names ensures AtMost(a, y) {
          if y != a { AtMostTransitive(a, b, y); }
        }
        assert IsLeast(a, names);
      } else {
        assert IsLeast(b, names);
      }
    }
  }

  ghost function LeastOf(names: set<string>): (x: string)
    requires names != {}
    ensures IsLeast(x, names)
  {
    LeastExists(names);
    var x :| IsLeast(x, names);
    x
  }

  /** Finds the first key in sort order; a scan over the keys in any order. */
  method FindLeast(names: set<string>) returns (x: string)
    requires names != {}
    ensures x == LeastOf(names)
  {
    x :| x in names;
    AtMostReflexive(x);
    var rest := names - {x};
    while rest != {}
      invariant rest <= names && x in names && x !in rest
      invariant forall y :: y in names - rest ==> AtMost(x, y)
      decreases |rest|
    {
      var y :| y in rest;
      rest := rest - {y};
      AtMostTotal(x, y);
      AtMostReflexive(y);
      if !AtMost(x, y) {
        forall z | z in names - rest ensures AtMost(y, z) {
          if z != y { AtMostTransitive(y, x, z); }
        }
        x := y;
      }
    }
    AtMostAntisymmetric(x, LeastOf(names));
  }

  // ----- white space

  /** unicode.IsSpace */
  predicate IsSpace(c: char)
  {
    || c in {' ', '\t', '\n', '\r', '\U{0B}', '\U{0C}', '\U{85}', '\U{A0}', '\U{1680}'}
    || '\U{2000}' <= c <= '\U{200A}' || c in {'\U{2028}', '\U{2029}', '\U{202F}', '\U{205F}', '\U{3000}'}
  }

  /** strings.TrimSpace */
  function Trim(s: string): string
  {
    if s != "" && IsSpace(s[0]) then Trim(s[1..])
    else if s != "" && IsSpace(s[|s| - 1]) then Trim(s[..|s| - 1])
    else s
  }

  lemma {:induction false} TrimTwice(s: string)
    ensures Trim(Trim(s)) == Trim(s)
    decreases |s|
  {
    if s != "" && IsSpace(s[0]) {
      TrimTwice(s[1..]);
    } else if s != "" && IsSpace(s[|s| - 1]) {
      TrimTwice(s[..|s| - 1]);
    }
  }
}
