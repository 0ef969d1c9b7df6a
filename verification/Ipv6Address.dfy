/**
 * IPv6address of grammar/uri.g, alternative by alternative: what each one takes, why no
 * earlier alternative succeeds on less than a whole address, and what went wrong with the
 * rule as RFC 3986 writes it.
 */
module Ipv6Address {
  import opened Peg
  import opened Ipv6

  // Colons and dots -------------------------------------------------------------------------

  function Colons(s: string): nat {
    if s == "" then 0 else (if s[0] == ':' then 1 else 0) + Colons(s[1..])
  }

  predicate NoPair(s: string) { forall i :: 0 <= i < |s| - 1 ==> !(s[i] == ':' && s[i + 1] == ':') }

  predicate Closed(s: string) { s == "" || s[|s| - 1] != ':' }

  predicate Opens(s: string) { s != "" && s[0] == ':' }

  lemma {:induction false} ColonsCat(x: string, y: string)
    ensures Colons(x + y) == Colons(x) + Colons(y)
  {
    if x == "" {
      assert x + y == y;
    } else {
      assert (x + y)[1..] == x[1..] + y;
      ColonsCat(x[1..], y);
    }
  }

  lemma NoPairCat(x: string, y: string)
    requires NoPair(x) && NoPair(y) && (Closed(x) || !Opens(y))
    ensures NoPair(x + y) && Colons(x + y) == Colons(x) + Colons(y)
  {
    ColonsCat(x, y);
    var s := x + y;
    forall i | 0 <= i < |s| - 1 ensures !(s[i] == ':' && s[i + 1] == ':') {
      if i >= |x| { assert s[i] == y[i - |x|] && s[i + 1] == y[i - |x| + 1]; }
    }
  }

  lemma {:induction false} Colonless(x: string)
    requires ':' !in x
    ensures Colons(x) == 0 && NoPair(x) && Closed(x) && !Opens(x)
  {
    if x != "" { Colonless(x[1..]); }
  }

  lemma GroupShape(x: string)
    requires Derives(H16(), x)
    ensures x != "" && Colons(x) == 0 && NoPair(x) && Closed(x) && !Opens(x) && '.' !in x
  {
  }

  lemma PairShape(x: string)
    requires Derives(H16Colon(), x)
    ensures |x| > 1 && Colons(x) == 1 && NoPair(x) && !Closed(x) && !Opens(x) && '.' !in x
  {
    hide Derives, H16;
    var u, v := CatElim(H16(), Lit(':'), x);
    ParseLit(':', v);
    GroupShape(u);
    assert Colons(v[1..]) == 0;
    NoPairCat(u, v);
  }

  lemma {:induction false} GroupsShape(n: nat, x: string)
    requires Derives(Rep(n, n, H16Colon()), x)
    ensures Colons(x) == n && NoPair(x) && !Opens(x) && '.' !in x && (n > 0 ==> x != "")
  {
    hide Derives, DerivesRep, H16Colon;
    if n == 0 {
      NoRounds(H16Colon(), x);
    } else {
      var u, v := RepElim(H16Colon(), n, n, x);
      PairShape(u);
      GroupsShape(n - 1, v);
      NoPairCat(u, v);
    }
  }

  /** A colon and a group. */
  lemma LinkShape(x: string)
    requires Derives(ColonH16(), x)
    ensures Colons(x) == 1 && NoPair(x) && Closed(x) && Opens(x) && |x| > 1 && '.' !in x
    ensures x[0] == ':' && Derives(H16(), x[1..])
  {
    hide Derives, H16;
    var u, v := CatElim(Lit(':'), H16(), x);
    ParseLit(':', u);
    GroupShape(v);
    assert Colons(u[1..]) == 0;
    NoPairCat(u, v);
    assert x[1..] == v;
  }

  lemma {:induction false} ChainShape(n: nat, x: string)
    requires Derives(Rep(0, n, ColonH16()), x)
    ensures Colons(x) <= n && NoPair(x) && Closed(x) && (x == "" || Opens(x)) && '.' !in x
  {
    if x != "" {
      hide Derives, DerivesRep, ColonH16;
      var u, v := RepElim(ColonH16(), 0, n, x);
      LinkShape(u);
      ChainShape(n - 1, v);
      NoPairCat(u, v);
    }
  }

  lemma {:induction false} DottedShape(n: nat, x: string)
    requires Derives(Dotted(n), x)
    ensures x != "" && ':' !in x && (n > 0 ==> '.' in x)
  {
    hide Derives, DerivesRep, DecOctet;
    if n == 0 {
      OctetLanguage(x);
    } else {
      var u, y := CatElim(DecOctet(), Cat(Lit('.'), Dotted(n - 1)), x);
      var d, v := CatElim(Lit('.'), Dotted(n - 1), y);
      ParseLit('.', d);
      OctetLanguage(u);
      assert forall i :: 0 <= i < |u| ==> In(u[i], Range('0', '9'));
      DottedShape(n - 1, v);
      assert x == u + d + v;
      assert '.' in d;
    }
  }

  /** The last 32 bits have one colon and no dot, or dots and no colon. */
  predicate Low(s: string, colons: nat) {
    (Colons(s) == colons + 1 && '.' !in s) || (Colons(s) == colons && '.' in s)
  }

  lemma Ls32Shape(x: string)
    requires Derives(Ls32(), x)
    ensures Low(x, 0) && NoPair(x) && Closed(x) && !Opens(x) && x != ""
  {
    hide Derives, DerivesRep, H16, Dotted, DecOctet, ColonH16, Colons, NoPair;
    ParseOr(Cat(H16(), ColonH16()), IPv4address(), x);
    if Derives(Cat(H16(), ColonH16()), x) {
      var u, v := CatElim(H16(), ColonH16(), x);
      GroupShape(u);
      LinkShape(v);
      NoPairCat(u, v);
    } else {
      DottedShape(3, x);
      Colonless(x);
    }
  }

  lemma LowShape(n: nat, x: string)
    requires Derives(Cat(Rep(n, n, H16Colon()), Ls32()), x)
    ensures Low(x, n) && NoPair(x) && Closed(x) && !Opens(x) && x != ""
  {
    hide Derives, DerivesRep, H16Colon, Ls32;
    var u, v := CatElim(Rep(n, n, H16Colon()), Ls32(), x);
    GroupsShape(n, u);
    Ls32Shape(v);
    NoPairCat(u, v);
  }

  // The two sides of "::" -----------------------------------------------------------------------

  predicate LeftOk(n: nat, l: string) { Colons(l) <= n && NoPair(l) && Closed(l) && '.' !in l }

  predicate RightOk(j: nat, r: string) {
    if j >= 9 then r == ""
    else if j == 8 then r != "" && Colons(r) == 0 && '.' !in r
    else j <= 7 && r != "" && Low(r, 7 - j)
  }

  lemma LeftShape(n: nat, l: string)
    requires Derives(Left(n), l)
    ensures LeftOk(n, l) && !Opens(l)
  {
    if l != "" {
      hide Derives, DerivesRep, H16, ColonH16;
      var h := if n == 0 then H16() else Cat(H16(), Rep(0, n, ColonH16()));
      var x, y := RepElim(h, 0, 1, l);
      NoRounds(h, y);
      assert l == x;
      if n == 0 {
        GroupShape(l);
      } else {
        var u, v := CatElim(H16(), Rep(0, n, ColonH16()), x);
        GroupShape(u);
        ChainShape(n, v);
        NoPairCat(u, v);
      }
    }
  }

  lemma RightShape(j: nat, r: string)
    requires 2 <= j <= 8 && Derives(Right(j), r)
    ensures RightOk(j, r)
  {
    hide Derives, DerivesRep, H16, H16Colon, Ls32;
    if j <= 5 {
      LowShape(7 - j, r);
    } else if j == 6 {
      var u, v := CatElim(H16Colon(), Ls32(), r);
      PairShape(u);
      Ls32Shape(v);
      NoPairCat(u, v);
    } else if j == 7 {
      Ls32Shape(r);
    } else {
      GroupShape(r);
    }
  }

  lemma RestElim(j: nat, y: string) returns (r: string)
    requires 2 <= j <= 9 && Derives(Rest(j), y)
    ensures y == "::" + r && RightOk(j, r) && (j < 9 ==> Derives(Right(j), r))
  {
    hide Derives, DerivesRep, Right, ColonColon;
    var p;
    if j == 9 {
      p, r := y, "";
    } else {
      p, r := CatElim(ColonColon(), Right(j), y);
      RightShape(j, r);
    }
    ColonColonIs(p);
  }

  lemma ColonColonIs(p: string)
    requires Derives(ColonColon(), p)
    ensures p == "::"
  {
  }

  /** Alternatives 2 to 9 are a left side, two colons and a right side. */
  lemma Sides(j: nat, s: string) returns (l: string, r: string)
    requires 2 <= j <= 9 && Derives(Alternative(j, false), s)
    ensures s == l + "::" + r && RightOk(j, r) && (j < 9 ==> Derives(Right(j), r))
    ensures if j == 2 then l == "" else LeftOk(j - 3, l) && Derives(Left(j - 3), l)
  {
    hide Derives, DerivesRep, Left, Rest;
    if j == 2 {
      l := "";
      r := RestElim(2, s);
    } else {
      var y;
      l, y := CatElim(Left(j - 3), Rest(j), s);
      LeftShape(j - 3, l);
      r := RestElim(j, y);
    }
  }

  predicate PairAt(s: string, i: nat) { i + 1 < |s| && s[i] == ':' && s[i + 1] == ':' }

  /** The first pair of colons is where the left side ends. */
  lemma FirstPair(l: string, r: string)
    requires NoPair(l) && Closed(l)
    ensures PairAt(l + "::" + r, |l|) && forall i: nat :: i < |l| ==> !PairAt(l + "::" + r, i)
  {
  }

  lemma PrefixPairs(u: string, s: string)
    requires u <= s
    ensures forall i: nat :: i + 1 < |u| ==> (PairAt(u, i) <==> PairAt(s, i))
  {
  }

  /** If one split at "::" is a prefix of another, they split at the same place. */
  lemma SameSplit(l: string, r: string, l': string, r': string)
    requires NoPair(l) && NoPair(l') && Closed(l) && Closed(l')
    requires l' + "::" + r' <= l + "::" + r
    ensures l == l' && r' <= r
  {
    hide NoPair, PairAt;
    var s, u := l + "::" + r, l' + "::" + r';
    FirstPair(l, r);
    FirstPair(l', r');
    PrefixPairs(u, s);
    assert |l| == |l'|;
    assert l == s[..|l|] && l' == u[..|l|] && r == s[|l| + 2..] && r' == u[|l| + 2..];
  }

  lemma ColonsPrefix(u: string, s: string)
    requires u <= s
    ensures Colons(u) <= Colons(s) && ('.' in u ==> '.' in s)
  {
  }

  lemma PrefixOfLeft(u: string, l: string, r: string)
    requires NoPair(u) && Closed(u) && u <= l + "::" + r
    ensures u <= l
  {
    var s := l + "::" + r;
    PrefixPairs(u, s);
    assert PairAt(s, |l|);
    assert forall i: nat :: i + 1 < |u| ==> !PairAt(u, i);
    assert u != "" ==> u[|u| - 1] == s[|u| - 1];
    assert |u| <= |l|;
    assert u == s[..|u|] && l == s[..|l|];
  }

  /** No alternative derives a prefix of what a later one derives. */
  lemma AlternativesAreApart(i: nat, j: nat, s: string, u: string)
    requires 1 <= i < j <= 9 && u <= s && Derives(Alternative(j, false), s)
    ensures !Derives(Alternative(i, false), u)
  {
    if Derives(Alternative(i, false), u) {
      hide Derives, DerivesRep, Left, Right;
      var l, r := Sides(j, s);
      if i == 1 {
        LowShape(6, u);
        PrefixOfLeft(u, l, r);
        ColonsPrefix(u, l);
      } else {
        hide Alternative;
        var l', r' := Sides(i, u);
        SameSplit(l, r, l', r');
        ColonsPrefix(r', r);
      }
    }
  }
}
