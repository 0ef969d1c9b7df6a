/**
 * Grammars as the parser generator reads them (grammar/uri.g): character sets, sequence,
 * ordered choice and bounded greedy repetition, against the language they generate when
 * choice is a union and repetition takes any number in bounds.
 */
module Peg {
  datatype Class = Range(lo: char, hi: char) | HexDigit

  datatype Grammar =
    | Chr(c: Class)
    | Cat(first: Grammar, second: Grammar)
    | Or(left: Grammar, right: Grammar)
    | Rep(lo: nat, hi: nat, body: Grammar)

  predicate In(x: char, c: Class) {
    match c
    case Range(lo, hi) => lo <= x <= hi
    case HexDigit => '0' <= x <= '9' || 'a' <= x <= 'f' || 'A' <= x <= 'F'
  }

  function Lit(x: char): Grammar { Chr(Range(x, x)) }

  // Language --------------------------------------------------------------------------------

  ghost predicate Derives(g: Grammar, s: string)
    decreases g, 0
  {
    match g
    case Chr(c) => |s| == 1 && In(s[0], c)
    case Cat(a, b) => exists k: nat :: k <= |s| && Derives(a, s[..k]) && Derives(b, s[k..])
    case Or(a, b) => Derives(a, s) || Derives(b, s)
    case Rep(lo, hi, h) => DerivesRep(h, lo, hi, s)
  }

  function Less(n: nat): nat { if n == 0 then 0 else n - 1 }

  ghost predicate DerivesRep(h: Grammar, lo: nat, hi: nat, s: string)
    decreases h, hi + 1
  {
    || (lo == 0 && s == "")
    || (hi > 0 && exists k: nat :: k <= |s| && Derives(h, s[..k]) && DerivesRep(h, Less(lo), hi - 1, s[k..]))
  }

  lemma CatIntro(a: Grammar, b: Grammar, x: string, y: string)
    requires Derives(a, x) && Derives(b, y)
    ensures Derives(Cat(a, b), x + y)
  {
    var s := x + y;
    assert s[..|x|] == x && s[|x|..] == y;
  }

  lemma CatElim(a: Grammar, b: Grammar, s: string) returns (x: string, y: string)
    requires Derives(Cat(a, b), s)
    ensures s == x + y && Derives(a, x) && Derives(b, y)
  {
    var k: nat :| k <= |s| && Derives(a, s[..k]) && Derives(b, s[k..]);
    x, y := s[..k], s[k..];
  }

  lemma RepNone(h: Grammar, hi: nat)
    ensures Derives(Rep(0, hi, h), "")
  {
  }

  lemma NoRounds(h: Grammar, y: string)
    requires Derives(Rep(0, 0, h), y)
    ensures y == ""
  {
  }

  lemma RepIntro(h: Grammar, lo: nat, hi: nat, x: string, y: string)
    requires hi > 0 && Derives(h, x) && Derives(Rep(Less(lo), hi - 1, h), y)
    ensures Derives(Rep(lo, hi, h), x + y)
  {
    var s := x + y;
    assert s[..|x|] == x && s[|x|..] == y;
    assert DerivesRep(h, lo, hi, s);
  }

  /** A number of rounds in bounds is within wider bounds. */
  lemma {:induction false} RepWiden(h: Grammar, m: nat, n: nat, s: string)
    requires Derives(Rep(m, m, h), s) && m <= n
    ensures Derives(Rep(0, n, h), s)
  {
    hide Derives, DerivesRep;
    if m == 0 {
      NoRounds(h, s);
      RepNone(h, n);
    } else {
      var x, y := RepElim(h, m, m, s);
      RepWiden(h, m - 1, n - 1, y);
      RepIntro(h, 0, n, x, y);
    }
  }

  lemma RepElim(h: Grammar, lo: nat, hi: nat, s: string) returns (x: string, y: string)
    requires Derives(Rep(lo, hi, h), s) && !(lo == 0 && s == "")
    ensures hi > 0 && s == x + y && Derives(h, x) && Derives(Rep(Less(lo), hi - 1, h), y)
  {
    var k: nat :| k <= |s| && Derives(h, s[..k]) && DerivesRep(h, Less(lo), hi - 1, s[k..]);
    x, y := s[..k], s[k..];
  }

  // Parsing ---------------------------------------------------------------------------------

  /** How many characters at the front of s the grammar takes, or -1. */
  function Parse(g: Grammar, s: string): (r: int)
    ensures -1 <= r <= |s|
    decreases g, 0
  {
    match g
    case Chr(c) => if s != "" && In(s[0], c) then 1 else -1
    case Cat(a, b) =>
      var k := Parse(a, s);
      if k < 0 then -1
      else
        var m := Parse(b, s[k..]);
        if m < 0 then -1 else k + m
    case Or(a, b) =>
      var k := Parse(a, s);
      if k >= 0 then k else Parse(b, s)
    case Rep(lo, hi, h) => ParseRep(h, lo, hi, s)
  }

  /** Greedy: another round as long as one fits and hi allows it, at least lo. */
  function ParseRep(h: Grammar, lo: nat, hi: nat, s: string): (r: int)
    ensures -1 <= r <= |s|
    decreases h, hi + 1
  {
    if hi == 0 then (if lo == 0 then 0 else -1)
    else
      var k := Parse(h, s);
      if k < 0 then (if lo == 0 then 0 else -1)
      else
        var m := ParseRep(h, Less(lo), hi - 1, s[k..]);
        if m < 0 then -1 else k + m
  }

  /** Whatever a parse takes, the grammar generates. */
  lemma {:induction false} ParseIsSound(g: Grammar, s: string)
    ensures var k := Parse(g, s); k >= 0 ==> Derives(g, s[..k])
    decreases g, 0
  {
    var k := Parse(g, s);
    if k >= 0 {
      match g {
        case Chr(c) =>
        case Cat(a, b) =>
          var m := Parse(a, s);
          ParseIsSound(a, s);
          ParseIsSound(b, s[m..]);
          assert s[m..][..k - m] == s[m..k] && s[..m] + s[m..k] == s[..k];
          CatIntro(a, b, s[..m], s[m..k]);
        case Or(a, b) =>
          ParseIsSound(a, s);
          ParseIsSound(b, s);
        case Rep(lo, hi, h) =>
          ParseRepIsSound(h, lo, hi, s);
      }
    }
  }

  lemma ParseRepUnfold(h: Grammar, lo: nat, hi: nat, s: string)
    ensures var m := Parse(h, s);
            ParseRep(h, lo, hi, s) ==
              if hi == 0 || m < 0 then (if lo == 0 then 0 else -1)
              else if ParseRep(h, Less(lo), hi - 1, s[m..]) < 0 then -1
              else m + ParseRep(h, Less(lo), hi - 1, s[m..])
  {
  }

  lemma {:induction false} ParseRepIsSound(h: Grammar, lo: nat, hi: nat, s: string)
    ensures var k := ParseRep(h, lo, hi, s); k >= 0 ==> Derives(Rep(lo, hi, h), s[..k])
    decreases h, hi + 1
  {
    hide Parse, ParseRep, Derives, DerivesRep;
    var k, m := ParseRep(h, lo, hi, s), Parse(h, s);
    ParseRepUnfold(h, lo, hi, s);
    if k >= 0 {
      if hi > 0 && m >= 0 {
        var rest := s[m..];
        var n := ParseRep(h, Less(lo), hi - 1, rest);
        ParseIsSound(h, s);
        ParseRepIsSound(h, Less(lo), hi - 1, rest);
        RepIntro(h, lo, hi, s[..m], rest[..n]);
        assert s[..m] + rest[..n] == s[..k];
      } else {
        RepNone(h, hi);
      }
    }
  }

  /** A sequence takes what its parts take one after the other. */
  lemma ParseCat(a: Grammar, b: Grammar, x: string, y: string)
    requires Parse(a, x + y) == |x|
    ensures Parse(Cat(a, b), x + y) == if Parse(b, y) < 0 then -1 else |x| + Parse(b, y)
  {
  }

  lemma CatFails(a: Grammar, b: Grammar, s: string)
    requires Parse(a, s) < 0
    ensures Parse(Cat(a, b), s) == -1
  {
  }

  lemma ParseRound(h: Grammar, lo: nat, hi: nat, x: string, y: string)
    requires hi > 0 && Parse(h, x + y) == |x|
    ensures var m := Parse(Rep(Less(lo), hi - 1, h), y);
            Parse(Rep(lo, hi, h), x + y) == if m < 0 then -1 else |x| + m
  {
  }

  lemma ParseOr(a: Grammar, b: Grammar, s: string)
    ensures Parse(Or(a, b), s) == if Parse(a, s) >= 0 then Parse(a, s) else Parse(b, s)
    ensures Derives(Or(a, b), s) <==> Derives(a, s) || Derives(b, s)
  {
  }

  /** A literal takes itself and nothing else. */
  lemma ParseLit(c: char, s: string)
    ensures Parse(Lit(c), s) == if s != "" && s[0] == c then 1 else -1
    ensures Derives(Lit(c), s) <==> s == [c]
  {
  }

  lemma ParseChr(c: Class, s: string)
    ensures Parse(Chr(c), s) == if s != "" && In(s[0], c) then 1 else -1
    ensures Derives(Chr(c), s) <==> |s| == 1 && In(s[0], c)
  {
  }

  /** A repetition that may be empty stops before what its body does not take. */
  lemma ParseNone(h: Grammar, lo: nat, hi: nat, s: string)
    requires hi == 0 || Parse(h, s) < 0
    ensures Parse(Rep(lo, hi, h), s) == if lo == 0 then 0 else -1
  {
  }

  // Rewriting -------------------------------------------------------------------------------

  /** *n(a b) a and a *n(b a) generate the same strings, for every n and all a and b. */
  lemma RotationKeepsLanguage(a: Grammar, b: Grammar, n: nat, s: string)
    ensures Derives(Cat(Rep(0, n, Cat(a, b)), a), s) <==> Derives(Cat(a, Rep(0, n, Cat(b, a))), s)
  {
    if Derives(Cat(Rep(0, n, Cat(a, b)), a), s) { RotateRight(a, b, n, s); }
    if Derives(Cat(a, Rep(0, n, Cat(b, a))), s) { RotateLeft(a, b, n, s); }
  }

  lemma {:induction false} RotateRight(a: Grammar, b: Grammar, n: nat, s: string)
    requires Derives(Cat(Rep(0, n, Cat(a, b)), a), s)
    ensures Derives(Cat(a, Rep(0, n, Cat(b, a))), s)
  {
    hide Derives, DerivesRep;
    var x, y := CatElim(Rep(0, n, Cat(a, b)), a, s);
    if x == "" {
      assert s == y + "";
      RepNone(Cat(b, a), n);
      CatIntro(a, Rep(0, n, Cat(b, a)), y, "");
    } else {
      var u, v := RepElim(Cat(a, b), 0, n, x);
      var p, q := CatElim(a, b, u);
      CatIntro(Rep(0, n - 1, Cat(a, b)), a, v, y);
      RotateRight(a, b, n - 1, v + y);
      var r, z := CatElim(a, Rep(0, n - 1, Cat(b, a)), v + y);
      CatIntro(b, a, q, r);
      RepIntro(Cat(b, a), 0, n, q + r, z);
      CatIntro(a, Rep(0, n, Cat(b, a)), p, q + r + z);
      assert s == p + (q + (v + y)) && s == p + (q + r + z);
    }
  }

  lemma {:induction false} RotateLeft(a: Grammar, b: Grammar, n: nat, s: string)
    requires Derives(Cat(a, Rep(0, n, Cat(b, a))), s)
    ensures Derives(Cat(Rep(0, n, Cat(a, b)), a), s)
  {
    hide Derives, DerivesRep;
    var p, z := CatElim(a, Rep(0, n, Cat(b, a)), s);
    if z == "" {
      assert s == "" + p;
      RepNone(Cat(a, b), n);
      CatIntro(Rep(0, n, Cat(a, b)), a, "", p);
    } else {
      var u, v := RepElim(Cat(b, a), 0, n, z);
      var q, r := CatElim(b, a, u);
      CatIntro(a, Rep(0, n - 1, Cat(b, a)), r, v);
      RotateLeft(a, b, n - 1, r + v);
      var x, y := CatElim(Rep(0, n - 1, Cat(a, b)), a, r + v);
      CatIntro(a, b, p, q);
      RepIntro(Cat(a, b), 0, n, p + q, x);
      CatIntro(Rep(0, n, Cat(a, b)), a, p + q + x, y);
      assert s == p + q + (r + v) && s == p + q + x + y;
    }
  }
}
