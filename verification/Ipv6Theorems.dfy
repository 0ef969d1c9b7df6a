/**
 * The rewritten IPv6address takes exactly the addresses of RFC 3986, and which of them the
 * rule as written there would miss (grammar/uri.g).
 */
module Ipv6Theorems {
  import opened Peg
  import opened Ipv6
  import opened Ipv6Address

  predicate TwoColons(t: string) { |t| >= 2 && t[0] == ':' && t[1] == ':' }

  // What each part takes ------------------------------------------------------------------------

  lemma LinkExact(x: string, t: string)
    requires Derives(ColonH16(), x) && Stops(t, HexDigit)
    ensures Parse(ColonH16(), x + t) == |x|
  {
    hide Derives, DerivesRep, Parse, ParseRep, H16;
    LinkShape(x);
    H16Exact(x[1..], t);
    assert x + t == x[..1] + (x[1..] + t);
    ParseLit(':', x + t);
    ParseCat(Lit(':'), H16(), x[..1], x[1..] + t);
  }

  lemma LinkFails(t: string)
    requires TwoColons(t)
    ensures Parse(ColonH16(), t) == -1
  {
  }

  lemma {:induction false} ChainExact(n: nat, x: string, t: string)
    requires Derives(Rep(0, n, ColonH16()), x) && TwoColons(t)
    ensures Parse(Rep(0, n, ColonH16()), x + t) == |x|
  {
    hide Derives, DerivesRep, Parse, ParseRep, ColonH16;
    if x == "" {
      assert x + t == t;
      LinkFails(t);
      ParseNone(ColonH16(), 0, n, t);
    } else {
      var u, v := RepElim(ColonH16(), 0, n, x);
      ChainShape(n - 1, v);
      LinkExact(u, v + t);
      ChainExact(n - 1, v, t);
      assert x + t == u + (v + t);
      ParseRound(ColonH16(), 0, n, u, v + t);
    }
  }

  lemma LeftExact(n: nat, l: string, t: string)
    requires Derives(Left(n), l) && TwoColons(t)
    ensures Parse(Left(n), l + t) == |l|
  {
    hide Derives, DerivesRep, Parse, ParseRep, H16, ColonH16;
    var h := if n == 0 then H16() else Cat(H16(), Rep(0, n, ColonH16()));
    if l == "" {
      assert l + t == t;
      H16Fails(t);
      CatFails(H16(), Rep(0, n, ColonH16()), t);
      ParseNone(h, 0, 1, t);
    } else {
      var x, y := RepElim(h, 0, 1, l);
      NoRounds(h, y);
      assert l == x;
      if n == 0 {
        H16Exact(l, t);
      } else {
        var u, v := CatElim(H16(), Rep(0, n, ColonH16()), l);
        ChainShape(n, v);
        H16Exact(u, v + t);
        ChainExact(n, v, t);
        assert l + t == u + (v + t);
        ParseCat(H16(), Rep(0, n, ColonH16()), u, v + t);
      }
      ParseNone(h, 0, 0, t);
      ParseRound(h, 0, 1, l, t);
    }
  }

  lemma RightExact(j: nat, r: string)
    requires 2 <= j <= 8 && Derives(Right(j), r)
    ensures Parse(Right(j), r) == |r|
  {
    hide Derives, DerivesRep, Parse, ParseRep, H16, H16Colon, Ls32;
    if j <= 5 {
      var u, v := CatElim(Rep(7 - j, 7 - j, H16Colon()), Ls32(), r);
      GroupsExact(7 - j, u, v);
      Ls32Exact(v);
      ParseCat(Rep(7 - j, 7 - j, H16Colon()), Ls32(), u, v);
    } else if j == 6 {
      var u, v := CatElim(H16Colon(), Ls32(), r);
      H16ColonExact(u, v);
      Ls32Exact(v);
      ParseCat(H16Colon(), Ls32(), u, v);
    } else if j == 7 {
      Ls32Exact(r);
    } else {
      H16Exact(r, "");
      assert r + "" == r;
    }
  }

  lemma ColonsExact(t: string)
    ensures Parse(ColonColon(), t) == if TwoColons(t) then 2 else -1
  {
  }

  lemma RestExact(j: nat, y: string)
    requires 2 <= j <= 9 && Derives(Rest(j), y)
    ensures TwoColons(y) && Parse(Rest(j), y) == |y|
  {
    hide Derives, DerivesRep, Parse, ParseRep, Right, ColonColon;
    var r := RestElim(j, y);
    ColonsExact(y);
    if j < 9 {
      RightExact(j, r);
      ParseCat(ColonColon(), Right(j), "::", r);
    }
  }

  lemma AlternativeExact(j: nat, s: string)
    requires 1 <= j <= 9 && Derives(Alternative(j, false), s)
    ensures Parse(Alternative(j, false), s) == |s|
  {
    hide Derives, DerivesRep, Parse, ParseRep, H16Colon, Ls32, Left, Rest;
    if j == 1 {
      var u, v := CatElim(Rep(6, 6, H16Colon()), Ls32(), s);
      GroupsExact(6, u, v);
      Ls32Exact(v);
      ParseCat(Rep(6, 6, H16Colon()), Ls32(), u, v);
    } else if j == 2 {
      RestExact(2, s);
    } else {
      var l, y := CatElim(Left(j - 3), Rest(j), s);
      RestExact(j, y);
      LeftExact(j - 3, l, y);
      ParseCat(Left(j - 3), Rest(j), l, y);
    }
  }

  // The choice ----------------------------------------------------------------------------------

  lemma {:induction false} ChoiceElim(i: nat, rfc: bool, s: string) returns (j: nat)
    requires 1 <= i <= 9 && Derives(Choice(i, rfc), s)
    ensures i <= j <= 9 && Derives(Alternative(j, rfc), s)
    decreases 9 - i
  {
    hide Derives, DerivesRep, Alternative;
    if i == 9 {
      j := 9;
    } else {
      ParseOr(Alternative(i, rfc), Choice(i + 1, rfc), s);
      if Derives(Alternative(i, rfc), s) {
        j := i;
      } else {
        j := ChoiceElim(i + 1, rfc, s);
      }
    }
  }

  lemma {:induction false} ChoiceIntro(i: nat, j: nat, rfc: bool, s: string)
    requires 1 <= i <= j <= 9 && Derives(Alternative(j, rfc), s)
    ensures Derives(Choice(i, rfc), s)
    decreases 9 - i
  {
    hide Derives, DerivesRep, Alternative;
    if i < 9 {
      ParseOr(Alternative(i, rfc), Choice(i + 1, rfc), s);
      if i < j { ChoiceIntro(i + 1, j, rfc, s); }
    }
  }

  /** Every alternative before the one that derives s fails on s. */
  lemma EarlierFails(i: nat, j: nat, rfc: bool, s: string)
    requires 1 <= i < j <= 9 && Derives(Alternative(j, false), s)
    ensures Parse(Alternative(i, rfc), s) == -1
  {
    hide Derives, DerivesRep, Parse, ParseRep, Alternative;
    var k := Parse(Alternative(i, rfc), s);
    if k >= 0 {
      ParseIsSound(Alternative(i, rfc), s);
      AlternativeRewrite(i, s[..k]);
      AlternativesAreApart(i, j, s, s[..k]);
    }
  }

  lemma {:induction false} ChoiceTakesWhole(i: nat, j: nat, s: string)
    requires 1 <= i <= j <= 9 && Derives(Alternative(j, false), s)
    ensures Parse(Choice(i, false), s) == |s|
    decreases j - i
  {
    hide Derives, DerivesRep, Parse, ParseRep, Alternative;
    if i == j {
      AlternativeExact(j, s);
      if i < 9 { ParseOr(Alternative(i, false), Choice(i + 1, false), s); }
    } else {
      EarlierFails(i, j, false, s);
      ChoiceTakesWhole(i + 1, j, s);
      ParseOr(Alternative(i, false), Choice(i + 1, false), s);
    }
  }

  // The rewriting ---------------------------------------------------------------------------------

  lemma LeftRewrite(n: nat, l: string)
    ensures Derives(Left(n), l) <==> Derives(RfcLeft(n), l)
  {
    hide Derives, DerivesRep, H16;
    if n > 0 {
      OptionRewrite(Cat(H16(), Rep(0, n, ColonH16())), Cat(Rep(0, n, H16Colon()), H16()), n, l);
      OptionRewrite(Cat(Rep(0, n, H16Colon()), H16()), Cat(H16(), Rep(0, n, ColonH16())), n, l);
    }
  }

  lemma OptionRewrite(a: Grammar, b: Grammar, n: nat, l: string)
    requires {a, b} == {Cat(H16(), Rep(0, n, ColonH16())), Cat(Rep(0, n, H16Colon()), H16())}
    ensures Derives(Rep(0, 1, a), l) ==> Derives(Rep(0, 1, b), l)
  {
    hide Derives, DerivesRep, H16;
    if Derives(Rep(0, 1, a), l) {
      if l == "" {
        RepNone(b, 1);
      } else {
        var x, y := RepElim(a, 0, 1, l);
        RotationKeepsLanguage(H16(), Lit(':'), n, x);
        NoRounds(a, y);
        RepNone(b, 0);
        assert a in {a, b} && b in {a, b};
        RepIntro(b, 0, 1, x, "");
        assert x + "" == l;
      }
    }
  }

  lemma AlternativeRewrite(j: nat, s: string)
    requires 1 <= j <= 9
    ensures Derives(Alternative(j, false), s) <==> Derives(Alternative(j, true), s)
  {
    hide Derives, DerivesRep, Left, RfcLeft, Rest;
    if j >= 3 {
      if Derives(Alternative(j, false), s) {
        var l, y := CatElim(Left(j - 3), Rest(j), s);
        LeftRewrite(j - 3, l);
        CatIntro(RfcLeft(j - 3), Rest(j), l, y);
      }
      if Derives(Alternative(j, true), s) {
        var l, y := CatElim(RfcLeft(j - 3), Rest(j), s);
        LeftRewrite(j - 3, l);
        CatIntro(Left(j - 3), Rest(j), l, y);
      }
    }
  }

  /**
   * The rule takes a whole string exactly when RFC 3986 derives it, and whatever shorter
   * prefix it takes is an address too.
   */
  lemma IPv6addressIsExact(s: string)
    ensures Parse(IPv6address(), s) == |s| <==> Derives(RfcIPv6address(), s)
    ensures var k := Parse(IPv6address(), s); k >= 0 ==> Derives(RfcIPv6address(), s[..k])
  {
    hide Derives, DerivesRep, Parse, ParseRep, Alternative, Choice;
    var k := Parse(IPv6address(), s);
    if k >= 0 {
      ParseIsSound(IPv6address(), s);
      var j := ChoiceElim(1, false, s[..k]);
      AlternativeRewrite(j, s[..k]);
      ChoiceIntro(1, j, true, s[..k]);
      if k == |s| { assert s[..k] == s; }
    }
    if Derives(RfcIPv6address(), s) {
      var j := ChoiceElim(1, true, s);
      AlternativeRewrite(j, s);
      ChoiceTakesWhole(1, j, s);
    }
  }

  // The rule as RFC 3986 writes it --------------------------------------------------------------------

  lemma {:induction false} GreedyGroups(m: nat, n: nat, x: string, t: string)
    requires Derives(Rep(m, m, H16Colon()), x) && m <= n && (m == n || Stops(t, HexDigit))
    ensures Parse(Rep(0, n, H16Colon()), x + t) == |x|
    decreases n
  {
    hide Derives, DerivesRep, Parse, ParseRep, H16, H16Colon;
    if m == 0 {
      GroupsShape(0, x);
      NoRounds(H16Colon(), x);
      assert x + t == t;
      if n > 0 {
        H16Fails(t);
        PairFails(t);
      }
      ParseNone(H16Colon(), 0, n, t);
    } else {
      var u, v := RepElim(H16Colon(), m, m, x);
      H16ColonExact(u, v + t);
      GreedyGroups(m - 1, n - 1, v, t);
      assert x + t == u + (v + t);
      ParseRound(H16Colon(), 0, n, u, v + t);
    }
  }

  lemma PairFails(t: string)
    requires Parse(H16(), t) < 0
    ensures Parse(H16Colon(), t) == -1
  {
  }

  /** m + 1 groups with colons between them. */
  function Groups(m: nat): Grammar { Cat(Rep(m, m, H16Colon()), H16()) }

  /** Before "::" the repetition of the unrewritten rule eats the first colon unless it runs out of rounds. */
  lemma RfcLeftTakes(m: nat, n: nat, l: string, t: string)
    requires Derives(Groups(m), l) && m <= n && n > 0 && TwoColons(t)
    ensures Parse(RfcLeft(n), l + t) == if m == n then |l| else 0
  {
    hide Derives, DerivesRep, Parse, ParseRep, H16, H16Colon;
    var h := Cat(Rep(0, n, H16Colon()), H16());
    var x, u := CatElim(Rep(m, m, H16Colon()), H16(), l);
    if m == n {
      GreedyGroups(n, n, x, u + t);
      H16Exact(u, t);
      assert l + t == x + (u + t);
      ParseCat(Rep(0, n, H16Colon()), H16(), x, u + t);
      ParseNone(h, 0, 0, t);
      ParseRound(h, 0, 1, l, t);
    } else {
      PairIntro(u);
      GroupsSnoc(m, x, u + ":");
      GreedyGroups(m + 1, n, x + (u + ":"), t[1..]);
      H16Fails(t[1..]);
      assert l + t == x + (u + ":") + t[1..];
      ParseCat(Rep(0, n, H16Colon()), H16(), x + (u + ":"), t[1..]);
      ParseNone(h, 0, 1, l + t);
    }
  }

  lemma PairIntro(u: string)
    requires Derives(H16(), u)
    ensures Derives(H16Colon(), u + ":")
  {
    hide Derives, DerivesRep, H16;
    ParseLit(':', ":");
    CatIntro(H16(), Lit(':'), u, ":");
  }

  lemma {:induction false} GroupsSnoc(m: nat, x: string, p: string)
    requires Derives(Rep(m, m, H16Colon()), x) && Derives(H16Colon(), p)
    ensures Derives(Rep(m + 1, m + 1, H16Colon()), x + p)
  {
    hide Derives, DerivesRep, H16Colon;
    if m == 0 {
      NoRounds(H16Colon(), x);
      RepNone(H16Colon(), 0);
      RepIntro(H16Colon(), 1, 1, p, "");
      assert x + p == p + "";
    } else {
      var u, v := RepElim(H16Colon(), m, m, x);
      GroupsSnoc(m - 1, v, p);
      RepIntro(H16Colon(), m + 1, m + 1, u, v + p);
      assert x + p == u + (v + p);
    }
  }

  /** Past m + 1 groups, the unrewritten alternatives with room for more groups all fail. */
  lemma RoomyAlternativeFails(j: nat, m: nat, l: string, t: string)
    requires 4 <= j <= 9 && m < j - 3 && Derives(Groups(m), l) && TwoColons(t)
    ensures Parse(Alternative(j, true), l + t) == -1
  {
    hide Derives, DerivesRep, Parse, ParseRep, RfcLeft, Right, ColonColon;
    RfcLeftTakes(m, j - 3, l, t);
    GroupsOpen(m, l);
    ColonsExact(l + t);
    if j < 9 { CatFails(ColonColon(), Right(j), l + t); }
    assert l + t == "" + (l + t);
    ParseCat(RfcLeft(j - 3), Rest(j), "", l + t);
  }

  lemma GroupsOpen(m: nat, l: string)
    requires Derives(Groups(m), l)
    ensures l != "" && !Opens(l)
  {
    hide Derives, DerivesRep, H16, H16Colon;
    var x, u := CatElim(Rep(m, m, H16Colon()), H16(), l);
    GroupsShape(m, x);
    GroupShape(u);
  }

  lemma {:induction false} RfcChoiceFails(i: nat, j: nat, m: nat, l: string, t: string)
    requires 1 <= i <= 9 && 4 <= j <= 9 && m < j - 3 && Derives(Groups(m), l) && TwoColons(t)
    requires Derives(Alternative(j, false), l + t)
    ensures Parse(Choice(i, true), l + t) == -1
    decreases 9 - i
  {
    hide Derives, DerivesRep, Parse, ParseRep, Alternative, Groups;
    if i < j {
      EarlierFails(i, j, true, l + t);
    } else {
      RoomyAlternativeFails(i, m, l, t);
    }
    if i < 9 {
      RfcChoiceFails(i + 1, j, m, l, t);
      ParseOr(Alternative(i, true), Choice(i + 1, true), l + t);
    }
  }

  lemma {:induction false} RfcChoiceTakes(i: nat, j: nat, m: nat, l: string, t: string)
    requires 1 <= i <= j <= 9 && j >= 4 && m == j - 3 && Derives(Groups(m), l) && Derives(Rest(j), t)
    requires Derives(Alternative(j, false), l + t)
    ensures Parse(Choice(i, true), l + t) == |l + t|
    decreases j - i
  {
    hide Derives, DerivesRep, Parse, ParseRep, Groups, Rest, RfcLeft;
    if i < j {
      EarlierFails(i, j, true, l + t);
      RfcChoiceTakes(i + 1, j, m, l, t);
    } else {
      RestExact(j, t);
      RfcLeftTakes(m, j - 3, l, t);
      ParseCat(RfcLeft(j - 3), Rest(j), l, t);
    }
    if i < 9 { ParseOr(Alternative(i, true), Choice(i + 1, true), l + t); }
  }

  /**
   * Why the rule was rewritten: read with ordered choice, RFC 3986's own rule takes an
   * address with m + 1 groups before "::", derived by alternative j > 3, exactly when the
   * alternative has no room for more groups; every other one it refuses altogether.
   */
  lemma RfcRuleFailsExactly(j: nat, m: nat, l: string, t: string)
    requires 4 <= j <= 9 && m <= j - 3 && Derives(Groups(m), l) && Derives(Rest(j), t)
    ensures Derives(RfcIPv6address(), l + t) && Parse(IPv6address(), l + t) == |l + t|
    ensures Parse(RfcIPv6address(), l + t) == if m == j - 3 then |l + t| else -1
  {
    hide Derives, DerivesRep, Parse, ParseRep, Alternative, Choice, Groups, Rest;
    GroupsFit(j, m, l, t);
    ChoiceIntro(1, j, true, l + t);
    AlternativeRewrite(j, l + t);
    ChoiceTakesWhole(1, j, l + t);
    RestExact(j, t);
    if m == j - 3 {
      RfcChoiceTakes(1, j, m, l, t);
    } else {
      RfcChoiceFails(1, j, m, l, t);
    }
  }

  lemma GroupsFit(j: nat, m: nat, l: string, t: string)
    requires 4 <= j <= 9 && m <= j - 3 && Derives(Groups(m), l) && Derives(Rest(j), t)
    ensures Derives(Alternative(j, true), l + t)
  {
    hide Derives, DerivesRep, H16, H16Colon, Rest;
    var n := j - 3;
    var h := Cat(Rep(0, n, H16Colon()), H16());
    var x, u := CatElim(Rep(m, m, H16Colon()), H16(), l);
    RepWiden(H16Colon(), m, n, x);
    CatIntro(Rep(0, n, H16Colon()), H16(), x, u);
    RepNone(h, 0);
    RepIntro(h, 0, 1, l, "");
    assert l + "" == l;
    CatIntro(RfcLeft(n), Rest(j), l, t);
  }

  /** The grammar's own example of an address that its comment says the old rule cannot parse. */
  lemma OldRuleExample()
    ensures Parse(IPv6address(), "2001:db8::") == 10 && Parse(RfcIPv6address(), "2001:db8::") == -1
  {
    hide Derives, DerivesRep, Parse, ParseRep, Choice, H16Colon;
    RunLanguage(HexDigit, 1, 4, "2001");
    RunLanguage(HexDigit, 1, 4, "db8");
    PairIntro("2001");
    RepNone(H16Colon(), 0);
    assert "2001" + ":" == "2001:" && "2001:" + "" == "2001:";
    RepIntro(H16Colon(), 1, 1, "2001:", "");
    CatIntro(Rep(1, 1, H16Colon()), H16(), "2001:", "db8");
    assert "2001:" + "db8" == "2001:db8";
    ParseLit(':', ":");
    CatIntro(Lit(':'), Lit(':'), ":", ":");
    assert ":" + ":" == "::";
    RfcRuleFailsExactly(9, 1, "2001:db8", "::");
    assert "2001:db8" + "::" == "2001:db8::";
  }
}
