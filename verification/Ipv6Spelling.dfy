/**
 * IPv6 addresses spelled out in characters, without the grammar: eight groups of up to four
 * hexadecimal digits with colons between them, where "::" may stand for at least one group
 * and four decimal numbers with dots for the last two (section 3.2.2 of RFC 3986).  The rule
 * of grammar/uri.g takes exactly these.
 */
module Ipv6Spelling {
  import opened Peg
  import opened Ipv6
  import opened Ipv6Address
  import opened Ipv6Theorems
  import opened Sequences

  // Characters ------------------------------------------------------------------------------

  predicate IsGroup(g: string) {
    1 <= |g| <= 4 &&
    forall i :: 0 <= i < |g| ==> '0' <= g[i] <= '9' || 'a' <= g[i] <= 'f' || 'A' <= g[i] <= 'F'
  }

  function DigitOf(n: nat): char
    requires n < 10
  {
    ('0' as int + n) as char
  }

  /** The decimal numeral of n. */
  function Numeral(n: nat): string {
    if n < 10 then [DigitOf(n)] else Numeral(n / 10) + [DigitOf(n % 10)]
  }

  predicate IsByte(n: nat, s: string) { n <= 255 && s == Numeral(n) }

  /** Four numbers up to 255 with dots between them. */
  predicate Quad(s: string, a: nat, b: nat, c: nat, d: nat) {
    && a <= 255 && b <= 255 && c <= 255 && d <= 255
    && s == Numeral(a) + "." + Numeral(b) + "." + Numeral(c) + "." + Numeral(d)
  }

  ghost predicate IsQuad(s: string) { exists a: nat, b: nat, c: nat, d: nat :: Quad(s, a, b, c, d) }

  // Addresses -------------------------------------------------------------------------------

  function Join(ps: seq<string>): string {
    if ps == [] then "" else if |ps| == 1 then ps[0] else ps[0] + ":" + Join(ps[1..])
  }

  predicate Plain(ps: seq<string>) { forall i :: 0 <= i < |ps| ==> IsGroup(ps[i]) }

  /** Groups, the last of which may be a dotted quad instead. */
  ghost predicate Ended(ps: seq<string>) {
    ps != [] ==> Plain(Front(ps)) && (IsGroup(Last(ps)) || IsQuad(Last(ps)))
  }

  /** How many groups the parts stand for. */
  function Weight(ps: seq<string>): nat { |ps| + if ps != [] && '.' in Last(ps) then 1 else 0 }

  /** The parts of an address without "::". */
  ghost predicate Full(s: string, ps: seq<string>) { Ended(ps) && Weight(ps) == 8 && s == Join(ps) }

  /** The parts before and after the "::" of an address, which leaves out a group or more. */
  ghost predicate Short(s: string, ls: seq<string>, rs: seq<string>) {
    Plain(ls) && Ended(rs) && |ls| + Weight(rs) <= 7 && s == Join(ls) + "::" + Join(rs)
  }

  ghost predicate IsAddress(s: string) { (exists ps :: Full(s, ps)) || (exists ls, rs :: Short(s, ls, rs)) }

  // What the small rules generate -----------------------------------------------------------

  /** h16 generates exactly the groups. */
  lemma GroupLanguage(x: string)
    ensures Derives(H16(), x) <==> IsGroup(x)
  {
    RunLanguage(HexDigit, 1, 4, x);
  }

  lemma TwoDigits(n: nat)
    requires 10 <= n < 100
    ensures Numeral(n) == [DigitOf(n / 10), DigitOf(n % 10)]
  {
    assert Numeral(n / 10) == [DigitOf(n / 10)];
  }

  lemma ThreeDigits(n: nat)
    requires 100 <= n < 1000
    ensures Numeral(n) == [DigitOf(n / 10 / 10), DigitOf(n / 10 % 10), DigitOf(n % 10)]
  {
    TwoDigits(n / 10);
    assert Numeral(n) == Numeral(n / 10) + [DigitOf(n % 10)];
  }

  lemma NumeralOf(s: string)
    requires IsOctet(s)
    ensures 0 <= Ipv6.Value(s) <= 255 && Numeral(Ipv6.Value(s)) == s
  {
    hide Ipv6.Value;
    ValueOf(s);
    assert forall i :: 0 <= i < |s| ==> In(s[i], Range('0', '9'));
    var v := Ipv6.Value(s);
    if |s| == 2 {
      TwoDigits(v);
    } else if |s| == 3 {
      ThreeDigits(v);
      hide Numeral;
      var d := s[0] as int - 48;
      assert v / 10 == 10 * d + s[1] as int - 48;
      assert v / 10 / 10 == d;
    }
  }

  lemma NumeralIsOctet(n: nat)
    requires n <= 255
    ensures IsOctet(Numeral(n))
  {
    var s := Numeral(n);
    if 10 <= n < 100 { TwoDigits(n); }
    if 100 <= n { ThreeDigits(n); }
    hide Ipv6.Value, Numeral;
    ValueOf(s);
  }

  /** dec_octet generates exactly the numerals of the numbers up to 255. */
  lemma ByteLanguage(s: string)
    ensures Derives(DecOctet(), s) <==> exists n: nat :: IsByte(n, s)
  {
    hide Derives, DecOctet, IsOctet, Numeral;
    OctetLanguage(s);
    if IsOctet(s) {
      NumeralOf(s);
      assert IsByte(Ipv6.Value(s), s);
    }
    if n: nat :| IsByte(n, s) { NumeralIsOctet(n); }
  }

  lemma QuadHasDot(s: string)
    requires IsQuad(s)
    ensures '.' in s
  {
    hide Numeral;
    var a: nat, b: nat, c: nat, d: nat :| Quad(s, a, b, c, d);
    assert s[|Numeral(a)|] == '.';
  }

  /** IPv4address generates exactly the dotted quads. */
  lemma QuadLanguage(s: string)
    ensures Derives(Dotted(3), s) <==> IsQuad(s)
  {
    hide Derives, DerivesRep, Parse, ParseRep, DecOctet, IsOctet, Dotted, Numeral, Ipv6.Value;
    if Derives(Dotted(3), s) {
      var a, b, c, d := FourElim(s);
      NumeralOf(a);
      NumeralOf(b);
      NumeralOf(c);
      NumeralOf(d);
      assert s == a + "." + b + "." + c + "." + d;
      assert Quad(s, Ipv6.Value(a), Ipv6.Value(b), Ipv6.Value(c), Ipv6.Value(d));
    }
    if a: nat, b: nat, c: nat, d: nat :| Quad(s, a, b, c, d) {
      NumeralIsOctet(a);
      NumeralIsOctet(b);
      NumeralIsOctet(c);
      NumeralIsOctet(d);
      assert s == Numeral(a) + ("." + (Numeral(b) + ("." + (Numeral(c) + ("." + Numeral(d))))));
      FourIntro(s, Numeral(a), Numeral(b), Numeral(c), Numeral(d));
    }
  }

  // Parts -----------------------------------------------------------------------------------

  lemma Cons(g: string, ps: seq<string>)
    requires ps != []
    ensures Join([g] + ps) == g + ":" + Join(ps)
    ensures Weight([g] + ps) == 1 + Weight(ps)
    ensures Plain([g] + ps) <==> IsGroup(g) && Plain(ps)
    ensures Ended([g] + ps) <==> IsGroup(g) && Ended(ps)
  {
    hide IsGroup, IsQuad;
    var qs := [g] + ps;
    assert qs[1..] == ps && Front(qs) == [g] + Front(ps) && Last(qs) == Last(ps);
    assert Plain(qs) ==> forall i :: 0 <= i < |ps| ==> ps[i] == qs[i + 1];
    assert Plain(Front(qs)) ==> forall i :: 0 <= i < |ps| - 1 ==> Front(ps)[i] == Front(qs)[i + 1];
    assert Plain(qs) ==> qs[0] == g;
    assert Plain(Front(qs)) ==> Front(qs)[0] == g;
  }

  lemma GroupHasNoDot(g: string)
    requires IsGroup(g)
    ensures '.' !in g
  {
  }

  /** ls32 generates two groups with a colon between them, and the dotted quads. */
  lemma Ls32Elim(s: string) returns (ps: seq<string>)
    requires Derives(Ls32(), s)
    ensures Ended(ps) && Weight(ps) == 2 && s == Join(ps)
  {
    hide Derives, DerivesRep, Parse, ParseRep, H16, Dotted, IsGroup, IsQuad, Join;
    ParseOr(Cat(H16(), ColonH16()), IPv4address(), s);
    if Derives(Cat(H16(), ColonH16()), s) {
      var g, y := CatElim(H16(), ColonH16(), s);
      var c, h := CatElim(Lit(':'), H16(), y);
      ParseLit(':', c);
      GroupLanguage(g);
      GroupLanguage(h);
      GroupHasNoDot(h);
      ps := [g, h];
      Two(g, h);
      assert Front(ps) == [g];
    } else {
      QuadLanguage(s);
      QuadHasDot(s);
      ps := [s];
      One(s);
    }
  }

  lemma LinkIntro(h: string)
    requires Derives(H16(), h)
    ensures Derives(ColonH16(), ":" + h)
  {
    hide Derives, DerivesRep, Parse, ParseRep, H16;
    ParseLit(':', ":");
    CatIntro(Lit(':'), H16(), ":", h);
  }

  lemma Two(g: string, h: string)
    ensures Join([g, h]) == g + (":" + h)
  {
    assert [g, h][1..] == [h];
  }

  lemma Ls32Intro(ps: seq<string>)
    requires Ended(ps) && Weight(ps) == 2
    ensures Derives(Ls32(), Join(ps))
  {
    hide Derives, DerivesRep, Parse, ParseRep, H16, ColonH16, Dotted, IsGroup, IsQuad, Join;
    ParseOr(Cat(H16(), ColonH16()), IPv4address(), Join(ps));
    if |ps| == 2 {
      var g, h := ps[0], ps[1];
      assert ps == [g, h] && Front(ps)[0] == g;
      if IsQuad(h) { QuadHasDot(h); }
      GroupLanguage(g);
      GroupLanguage(h);
      LinkIntro(h);
      CatIntro(H16(), ColonH16(), g, ":" + h);
      Two(g, h);
    } else {
      assert ps == [ps[0]];
      One(ps[0]);
      if IsGroup(ps[0]) { GroupHasNoDot(ps[0]); }
      QuadLanguage(ps[0]);
    }
  }

  lemma {:induction false} LowElim(n: nat, s: string) returns (ps: seq<string>)
    requires Derives(Cat(Rep(n, n, H16Colon()), Ls32()), s)
    ensures Ended(ps) && Weight(ps) == n + 2 && s == Join(ps)
  {
    hide Derives, DerivesRep, H16, Ls32, IsGroup, IsQuad, Ended, Join;
    var u, v := CatElim(Rep(n, n, H16Colon()), Ls32(), s);
    if n == 0 {
      NoRounds(H16Colon(), u);
      ps := Ls32Elim(v);
      assert s == v;
    } else {
      var p, q := RepElim(H16Colon(), n, n, u);
      var g, c := CatElim(H16(), Lit(':'), p);
      ParseLit(':', c);
      GroupLanguage(g);
      CatIntro(Rep(n - 1, n - 1, H16Colon()), Ls32(), q, v);
      var qs := LowElim(n - 1, q + v);
      ps := [g] + qs;
      Cons(g, qs);
      assert s == g + ":" + (q + v);
    }
  }

  lemma {:induction false} LowIntro(n: nat, ps: seq<string>)
    requires Ended(ps) && Weight(ps) == n + 2
    ensures Derives(Cat(Rep(n, n, H16Colon()), Ls32()), Join(ps))
  {
    hide Derives, DerivesRep, H16, Ls32, IsGroup, IsQuad, Ended, Join;
    if n == 0 {
      Ls32Intro(ps);
      RepNone(H16Colon(), 0);
      CatIntro(Rep(0, 0, H16Colon()), Ls32(), "", Join(ps));
      assert "" + Join(ps) == Join(ps);
    } else {
      var g, qs := ps[0], ps[1..];
      assert ps == [g] + qs;
      Cons(g, qs);
      LowIntro(n - 1, qs);
      GroupLanguage(g);
      PairIntro(g);
      var u, v := CatElim(Rep(n - 1, n - 1, H16Colon()), Ls32(), Join(qs));
      RepIntro(H16Colon(), n, n, g + ":", u);
      CatIntro(Rep(n, n, H16Colon()), Ls32(), g + ":" + u, v);
      assert Join(ps) == g + ":" + u + v;
    }
  }

  lemma {:induction false} ChainElim(n: nat, s: string) returns (ls: seq<string>)
    requires Derives(Cat(H16(), Rep(0, n, ColonH16())), s)
    ensures Plain(ls) && 1 <= |ls| <= n + 1 && s == Join(ls)
  {
    hide Derives, DerivesRep, H16, IsGroup, Join;
    var g, z := CatElim(H16(), Rep(0, n, ColonH16()), s);
    GroupLanguage(g);
    if z == "" {
      ls := [g];
      assert Join([g]) == g by { One(g); }
    } else {
      var u, v := RepElim(ColonH16(), 0, n, z);
      var c, h := CatElim(Lit(':'), H16(), u);
      ParseLit(':', c);
      CatIntro(H16(), Rep(0, n - 1, ColonH16()), h, v);
      var ms := ChainElim(n - 1, h + v);
      ls := [g] + ms;
      Cons(g, ms);
      assert s == g + ":" + (h + v);
    }
  }

  lemma One(g: string)
    ensures Join([g]) == g
  {
  }

  lemma {:induction false} ChainIntro(n: nat, ls: seq<string>)
    requires Plain(ls) && 1 <= |ls| <= n + 1
    ensures Derives(Cat(H16(), Rep(0, n, ColonH16())), Join(ls))
  {
    hide Derives, DerivesRep, Parse, ParseRep, H16, ColonH16, IsGroup, Join;
    var g := ls[0];
    GroupLanguage(g);
    if |ls| == 1 {
      One(g);
      assert ls == [g] && g == g + "";
      RepNone(ColonH16(), n);
      CatIntro(H16(), Rep(0, n, ColonH16()), g, "");
    } else {
      var ms := ls[1..];
      assert ls == [g] + ms;
      Cons(g, ms);
      ChainIntro(n - 1, ms);
      var h, v := CatElim(H16(), Rep(0, n - 1, ColonH16()), Join(ms));
      LinkIntro(h);
      RepIntro(ColonH16(), 0, n, ":" + h, v);
      CatIntro(H16(), Rep(0, n, ColonH16()), g, ":" + h + v);
      assert Join(ls) == g + (":" + h + v);
    }
  }

  /** Before "::" stand up to n + 1 groups. */
  lemma LeftElim(n: nat, s: string) returns (ls: seq<string>)
    requires Derives(Left(n), s)
    ensures Plain(ls) && |ls| <= n + 1 && s == Join(ls)
  {
    hide Derives, DerivesRep, H16, ColonH16, IsGroup;
    ls := [];
    if s != "" {
      var h := if n == 0 then H16() else Cat(H16(), Rep(0, n, ColonH16()));
      var x, y := RepElim(h, 0, 1, s);
      NoRounds(h, y);
      assert s == x;
      if n == 0 {
        GroupLanguage(s);
        ls := [s];
      } else {
        ls := ChainElim(n, s);
      }
    }
  }

  lemma LeftIntro(n: nat, ls: seq<string>)
    requires Plain(ls) && |ls| <= n + 1
    ensures Derives(Left(n), Join(ls))
  {
    hide Derives, DerivesRep, H16, ColonH16, IsGroup;
    var h := if n == 0 then H16() else Cat(H16(), Rep(0, n, ColonH16()));
    RepNone(h, 1);
    if ls != [] {
      if n == 0 {
        GroupLanguage(ls[0]);
      } else {
        ChainIntro(n, ls);
      }
      RepNone(h, 0);
      RepIntro(h, 0, 1, Join(ls), "");
      assert Join(ls) + "" == Join(ls);
    }
  }

  /** After the "::" of alternative j stand parts for exactly 9 - j groups. */
  lemma RightElim(j: nat, r: string) returns (rs: seq<string>)
    requires 2 <= j <= 8 && Derives(Right(j), r)
    ensures Ended(rs) && Weight(rs) == 9 - j && r == Join(rs)
  {
    hide Derives, DerivesRep, H16, H16Colon, Ls32, IsGroup, IsQuad;
    if j <= 5 {
      rs := LowElim(7 - j, r);
    } else if j == 6 {
      OneRound(r);
      rs := LowElim(1, r);
    } else if j == 7 {
      rs := Ls32Elim(r);
    } else {
      GroupLanguage(r);
      GroupHasNoDot(r);
      rs := [r];
    }
  }

  lemma RightIntro(j: nat, rs: seq<string>)
    requires 2 <= j <= 8 && Ended(rs) && Weight(rs) == 9 - j
    ensures Derives(Right(j), Join(rs))
  {
    hide Derives, DerivesRep, H16, H16Colon, Ls32, IsGroup, IsQuad;
    if j <= 5 {
      LowIntro(7 - j, rs);
    } else if j == 6 {
      LowIntro(1, rs);
      OneRound(Join(rs));
    } else if j == 7 {
      Ls32Intro(rs);
    } else {
      if IsQuad(rs[0]) { QuadHasDot(rs[0]); }
      GroupLanguage(rs[0]);
    }
  }

  lemma OneRound(r: string)
    ensures Derives(Cat(H16Colon(), Ls32()), r) <==> Derives(Cat(Rep(1, 1, H16Colon()), Ls32()), r)
  {
    hide Derives, DerivesRep, H16Colon, Ls32;
    if Derives(Cat(H16Colon(), Ls32()), r) {
      var u, v := CatElim(H16Colon(), Ls32(), r);
      RepNone(H16Colon(), 0);
      RepIntro(H16Colon(), 1, 1, u, "");
      assert u + "" == u;
      CatIntro(Rep(1, 1, H16Colon()), Ls32(), u, v);
    }
    if Derives(Cat(Rep(1, 1, H16Colon()), Ls32()), r) {
      var u, v := CatElim(Rep(1, 1, H16Colon()), Ls32(), r);
      var x, y := RepElim(H16Colon(), 1, 1, u);
      NoRounds(H16Colon(), y);
      assert u == x;
      CatIntro(H16Colon(), Ls32(), u, v);
    }
  }

  // Addresses -------------------------------------------------------------------------------

  lemma AlternativeIsAddress(j: nat, s: string)
    requires 1 <= j <= 9 && Derives(Alternative(j, false), s)
    ensures IsAddress(s)
  {
    hide Derives, DerivesRep, H16, H16Colon, Ls32, Left, Right, Join, Plain, Ended;
    if j == 1 {
      var ps := LowElim(6, s);
      assert Full(s, ps);
    } else {
      var l, r := Sides(j, s);
      var ls, rs: seq<string> := [], [];
      NoParts();
      if j > 2 { ls := LeftElim(j - 3, l); }
      if j < 9 { rs := RightElim(j, r); }
      assert Short(s, ls, rs);
    }
  }

  lemma NoParts()
    ensures Plain([]) && Ended([]) && Weight([]) == 0 && Join([]) == ""
  {
  }

  lemma AddressIsDerived(s: string) returns (j: nat)
    requires IsAddress(s)
    ensures 1 <= j <= 9 && Derives(Alternative(j, false), s)
  {
    hide Derives, DerivesRep, H16, H16Colon, Ls32, Left, Right, Join, Plain, Ended;
    if ps :| Full(s, ps) {
      LowIntro(6, ps);
      j := 1;
    } else {
      var ls, rs :| Short(s, ls, rs);
      j := 9 - Weight(rs);
      NoParts();
      ColonsAre();
      var y := "::" + Join(rs);
      if j < 9 {
        RightIntro(j, rs);
        CatIntro(ColonColon(), Right(j), "::", Join(rs));
      } else {
        assert rs == [] && y == "::";
      }
      assert Derives(Rest(j), y);
      assert s == Join(ls) + y;
      if j == 2 {
        assert ls == [] && s == y;
      } else {
        LeftIntro(j - 3, ls);
        CatIntro(Left(j - 3), Rest(j), Join(ls), y);
        assert Derives(Alternative(j, false), s);
      }
    }
  }

  lemma ColonsAre()
    ensures Derives(ColonColon(), "::")
  {
    hide Derives, DerivesRep, Parse, ParseRep;
    ParseLit(':', ":");
    CatIntro(Lit(':'), Lit(':'), ":", ":");
    assert ":" + ":" == "::";
  }

  /** What RFC 3986 derives, and what the rule takes, are the addresses. */
  lemma AddressLanguage(s: string)
    ensures Derives(RfcIPv6address(), s) <==> IsAddress(s)
    ensures Parse(IPv6address(), s) == |s| <==> IsAddress(s)
    ensures var k := Parse(IPv6address(), s); k >= 0 ==> IsAddress(s[..k])
  {
    hide Derives, DerivesRep, Parse, ParseRep, Alternative, Choice, IsAddress;
    IPv6addressIsExact(s);
    DerivedIsAddress(s);
    var k := Parse(IPv6address(), s);
    if k >= 0 { DerivedIsAddress(s[..k]); }
  }

  lemma DerivedIsAddress(s: string)
    ensures Derives(RfcIPv6address(), s) <==> IsAddress(s)
  {
    hide Derives, DerivesRep, Alternative, Choice, IsAddress;
    if Derives(RfcIPv6address(), s) {
      var j := ChoiceElim(1, true, s);
      AlternativeRewrite(j, s);
      AlternativeIsAddress(j, s);
    }
    if IsAddress(s) {
      var j := AddressIsDerived(s);
      AlternativeRewrite(j, s);
      ChoiceIntro(1, j, true, s);
    }
  }
}
