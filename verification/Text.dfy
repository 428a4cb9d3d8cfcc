/** Addresses are compared in one spelling, and tokens are listed in one order. */
module Text {

  /** Unicode's White_Space, which is what trimming removes. */
  predicate IsSpace(c: char) {
    var n := c as int;
    || 9 <= n <= 13 || n == 32 || n == 0x85 || n == 0xA0 || n == 0x1680
    || 0x2000 <= n <= 0x200A || n == 0x2028 || n == 0x2029 || n == 0x202F || n == 0x205F || n == 0x3000
  }

  function LowerChar(c: char): char {
    if 'A' <= c <= 'Z' then (c as int + 32) as char else c
  }

  function ToLower(s: string): (r: string)
    ensures |r| == |s| && forall i :: 0 <= i < |s| ==> r[i] == LowerChar(s[i])
  {
    if s == [] then [] else [LowerChar(s[0])] + ToLower(s[1..])
  }

  function TrimLeft(s: string): string {
    if s != [] && IsSpace(s[0]) then TrimLeft(s[1..]) else s
  }

  function TrimRight(s: string): string {
    if s != [] && IsSpace(s[|s| - 1]) then TrimRight(s[..|s| - 1]) else s
  }

  /** The spelling an address is stored and looked up in. */
  function Normalise(s: string): string {
    ToLower(TrimRight(TrimLeft(s)))
  }

  predicate Bare(s: string) {
    s == [] || (!IsSpace(s[0]) && !IsSpace(s[|s| - 1]))
  }

  lemma {:induction false} TrimLeftBares(s: string)
    ensures TrimLeft(s) == [] || !IsSpace(TrimLeft(s)[0])
  {
    if s != [] && IsSpace(s[0]) {
      TrimLeftBares(s[1..]);
    }
  }

  lemma {:induction false} TrimRightBares(s: string)
    requires s == [] || !IsSpace(s[0])
    ensures Bare(TrimRight(s))
  {
    if s != [] && IsSpace(s[|s| - 1]) {
      TrimRightBares(s[..|s| - 1]);
    }
  }

  /** Normalising twice is normalising once: a stored address is found by itself. */
  lemma NormaliseTwice(s: string)
    ensures Normalise(Normalise(s)) == Normalise(s)
  {
    TrimLeftBares(s);
    TrimRightBares(TrimLeft(s));
    var t, n := TrimRight(TrimLeft(s)), Normalise(s);
    assert Bare(n);
    assert TrimLeft(n) == n && TrimRight(n) == n;
    assert ToLower(n) == n;
  }

  /** Every character of this text is one that trimming removes, each by its code point. */
  ghost predicate Blank(s: string) {
    forall i :: 0 <= i < |s| ==> s[i] as int in {
      9, 10, 11, 12, 13, 32, 0x85, 0xA0, 0x1680, 0x2000, 0x2001, 0x2002, 0x2003, 0x2004, 0x2005, 0x2006, 0x2007, 0x2008,
      0x2009, 0x200A, 0x2028, 0x2029, 0x202F, 0x205F, 0x3000}
  }

  lemma {:induction false} LeftGoes(a: string, rest: string)
    requires Blank(a)
    ensures TrimLeft(a + rest) == TrimLeft(rest)
  {
    if a == [] {
      assert a + rest == rest;
    } else {
      assert (a + rest)[1..] == a[1..] + rest;
      LeftGoes(a[1..], rest);
    }
  }

  lemma {:induction false} RightGoes(rest: string, b: string)
    requires Blank(b)
    ensures TrimRight(rest + b) == TrimRight(rest)
  {
    if b == [] {
      assert rest + b == rest;
    } else {
      assert (rest + b)[..|rest + b| - 1] == rest + b[..|b| - 1];
      RightGoes(rest, b[..|b| - 1]);
    }
  }

  /** What is blank at either end goes, and of what is left A to Z become a to z and nothing else changes. */
  lemma NormaliseMeans(a: string, core: string, b: string)
    requires Blank(a) && Blank(b) && (core == [] || (!Blank([core[0]]) && !Blank([core[|core| - 1]])))
    ensures |Normalise(a + core + b)| == |core|
    ensures forall i :: 0 <= i < |core| ==>
      Normalise(a + core + b)[i] as int == core[i] as int + if 'A' <= core[i] <= 'Z' then 32 else 0
  {
    assert a + core + b == a + (core + b);
    LeftGoes(a, core + b);
    if core == [] {
      assert core + b == b + [];
      LeftGoes(b, []);
    } else {
      assert !Blank([core[0]]) ==> !IsSpace([core[0]][0]);
      assert (core + b)[0] == core[0];
      assert TrimLeft(core + b) == core + b;
      RightGoes(core, b);
      assert TrimRight(core) == core;
    }
  }

  // ------------------------------------------------------------------ order

  /** Lexicographic order. */
  predicate Before(a: string, b: string) {
    b != [] && (a == [] || a[0] < b[0] || (a[0] == b[0] && Before(a[1..], b[1..])))
  }

  lemma {:induction false} BeforeIsStrict(a: string, b: string)
    ensures !(Before(a, b) && Before(b, a))
  {
    if a != [] && b != [] {
      BeforeIsStrict(a[1..], b[1..]);
    }
  }

  lemma {:induction false} BeforeIsTotal(a: string, b: string)
    ensures a == b || Before(a, b) || Before(b, a)
  {
    if a != [] && b != [] {
      BeforeIsTotal(a[1..], b[1..]);
      if a[0] == b[0] && a[1..] == b[1..] {
        assert a == [a[0]] + a[1..] && b == [b[0]] + b[1..];
      }
    }
  }

  lemma {:induction false} BeforeIsTransitive(a: string, b: string, c: string)
    requires Before(a, b) && Before(b, c)
    ensures Before(a, c)
  {
    if a != [] && a[0] == b[0] && b[0] == c[0] {
      BeforeIsTransitive(a[1..], b[1..], c[1..]);
    }
  }

  /** `a` ends, or has the lesser character, at the first place where the two differ. */
  ghost predicate LessAt(a: string, b: string, i: nat) {
    i <= |a| && i < |b| && a[..i] == b[..i] && (i == |a| || a[i] < b[i])
  }

  lemma {:induction false} BeforeMeans(a: string, b: string)
    ensures Before(a, b) <==> exists i: nat :: LessAt(a, b, i)
  {
    if a != [] && b != [] && a[0] == b[0] {
      BeforeMeans(a[1..], b[1..]);
      assert a == [a[0]] + a[1..] && b == [b[0]] + b[1..];
      if i: nat :| LessAt(a[1..], b[1..], i) {
        assert a[..i + 1] == [a[0]] + a[1..][..i] && b[..i + 1] == [b[0]] + b[1..][..i];
        assert LessAt(a, b, i + 1);
      }
      if i: nat :| LessAt(a, b, i) {
        assert i > 0;
        assert a[1..][..i - 1] == a[..i][1..] && b[1..][..i - 1] == b[..i][1..];
        assert LessAt(a[1..], b[1..], i - 1);
      }
    } else if a == [] || b == [] || a[0] < b[0] {
      assert b != [] ==> LessAt(a, b, 0);
    } else {
      forall i: nat ensures !LessAt(a, b, i) {
        assert 0 < i <= |a| && i < |b| ==> a[..i][0] == a[0] && b[..i][0] == b[0];
      }
    }
  }
}
