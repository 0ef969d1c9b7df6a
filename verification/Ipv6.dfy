/**
 * The address rules of grammar/uri.g: dec_octet, IPv4address, h16, ls32 and IPv6address.
 * The rewritten IPv6address, read with ordered choice and greedy repetition, takes a whole
 * string exactly when section 3.2.2 of RFC 3986 derives it.
 */
module Ipv6 {
  import opened Peg

  // Rules -----------------------------------------------------------------------------------

  function Digit(): Grammar { Chr(Range('0', '9')) }

  function DecOctet(): Grammar {
    Or(Cat(Lit('2'), Cat(Lit('5'), Chr(Range('0', '5')))),
       Or(Cat(Lit('2'), Cat(Chr(Range('0', '4')), Digit())),
          Or(Cat(Lit('1'), Rep(2, 2, Digit())),
             Or(Cat(Chr(Range('1', '9')), Digit()), Digit()))))
  }

  /** n + 1 octets with dots between them. */
  function Dotted(n: nat): Grammar {
    if n == 0 then DecOctet() else Cat(DecOctet(), Cat(Lit('.'), Dotted(n - 1)))
  }

  function IPv4address(): Grammar { Dotted(3) }

  function H16(): Grammar { Rep(1, 4, Chr(HexDigit)) }

  function H16Colon(): Grammar { Cat(H16(), Lit(':')) }

  function ColonH16(): Grammar { Cat(Lit(':'), H16()) }

  function ColonColon(): Grammar { Cat(Lit(':'), Lit(':')) }

  function Ls32(): Grammar { Or(Cat(H16(), ColonH16()), IPv4address()) }

  /** What may stand before the "::" that is followed by less: at most n + 1 groups. */
  function Left(n: nat): Grammar { if n == 0 then Rep(0, 1, H16()) else Rep(0, 1, Cat(H16(), Rep(0, n, ColonH16()))) }

  /** The same in the words of RFC 3986. */
  function RfcLeft(n: nat): Grammar { if n == 0 then Rep(0, 1, H16()) else Rep(0, 1, Cat(Rep(0, n, H16Colon()), H16())) }

  /** What stands after the "::" in alternatives 2 to 8. */
  function Right(j: nat): Grammar {
    if j <= 5 then Cat(Rep(7 - j, 7 - j, H16Colon()), Ls32())
    else if j == 6 then Cat(H16Colon(), Ls32())
    else if j == 7 then Ls32()
    else H16()
  }

  function Rest(j: nat): Grammar { if j >= 9 then ColonColon() else Cat(ColonColon(), Right(j)) }

  /** The j-th of the nine alternatives, as written and in RFC 3986. */
  function Alternative(j: nat, rfc: bool): Grammar {
    if j <= 1 then Cat(Rep(6, 6, H16Colon()), Ls32())
    else if j == 2 then Rest(2)
    else Cat(if rfc then RfcLeft(j - 3) else Left(j - 3), Rest(j))
  }

  function Choice(j: nat, rfc: bool): Grammar
    decreases 9 - j
  {
    if j >= 9 then Alternative(9, rfc) else Or(Alternative(j, rfc), Choice(j + 1, rfc))
  }

  function IPv6address(): Grammar { Choice(1, false) }

  function RfcIPv6address(): Grammar { Choice(1, true) }

  // Character runs --------------------------------------------------------------------------

  predicate All(s: string, c: Class) { forall i :: 0 <= i < |s| ==> In(s[i], c) }

  predicate Stops(t: string, c: Class) { t == "" || !In(t[0], c) }

  lemma {:induction false} RunLanguage(c: Class, lo: nat, hi: nat, s: string)
    ensures Derives(Rep(lo, hi, Chr(c)), s) <==> lo <= |s| <= hi && All(s, c)
    decreases hi
  {
    if Derives(Rep(lo, hi, Chr(c)), s) && !(lo == 0 && s == "") {
      var x, y := RepElim(Chr(c), lo, hi, s);
      RunLanguage(c, Less(lo), hi - 1, y);
    }
    if lo <= |s| <= hi && All(s, c) && s != "" {
      RunLanguage(c, Less(lo), hi - 1, s[1..]);
      RepIntro(Chr(c), lo, hi, s[..1], s[1..]);
      assert s == s[..1] + s[1..];
    }
  }

  /** A run in bounds is taken whole where its characters or its rounds end; a run too short is not taken. */
  lemma {:induction false} RunParse(c: Class, lo: nat, hi: nat, x: string, t: string)
    requires All(x, c) && |x| <= hi && (|x| == hi || Stops(t, c))
    ensures Parse(Rep(lo, hi, Chr(c)), x + t) == if lo <= |x| then |x| else -1
    decreases hi
  {
    hide Parse, ParseRep, Derives, DerivesRep;
    ParseChr(c, x + t);
    if x == "" {
      assert x + t == t;
      ParseNone(Chr(c), lo, hi, t);
    } else {
      RunParse(c, Less(lo), hi - 1, x[1..], t);
      assert x + t == x[..1] + (x[1..] + t);
      ParseRound(Chr(c), lo, hi, x[..1], x[1..] + t);
    }
  }

  // dec_octet -------------------------------------------------------------------------------

  function Value(s: string): int {
    if s == "" then 0 else 10 * Value(s[..|s| - 1]) + (s[|s| - 1] as int - '0' as int)
  }

  /** A decimal number up to 255 without leading zeros. */
  predicate IsOctet(s: string) {
    && 1 <= |s| <= 3 && All(s, Range('0', '9'))
    && (|s| > 1 ==> s[0] != '0') && Value(s) <= 255
  }

  lemma ValueOf(s: string)
    requires 1 <= |s| <= 3
    ensures |s| == 1 ==> Value(s) == s[0] as int - 48
    ensures |s| == 2 ==> Value(s) == 10 * (s[0] as int - 48) + s[1] as int - 48
    ensures |s| == 3 ==> Value(s) == 100 * (s[0] as int - 48) + 10 * (s[1] as int - 48) + s[2] as int - 48
  {
  }

  lemma ParseTwo(a: Class, b: Class, s: string)
    ensures Parse(Cat(Chr(a), Chr(b)), s) == if |s| >= 2 && In(s[0], a) && In(s[1], b) then 2 else -1
  {
  }

  lemma ParseThree(a: Class, b: Class, c: Class, s: string)
    ensures Parse(Cat(Chr(a), Cat(Chr(b), Chr(c))), s) ==
            if |s| >= 3 && In(s[0], a) && In(s[1], b) && In(s[2], c) then 3 else -1
  {
    if s != "" && In(s[0], a) { ParseTwo(b, c, s[1..]); }
  }

  lemma ParseTwice(a: Class, b: Class, s: string)
    ensures Parse(Cat(Chr(a), Rep(2, 2, Chr(b))), s) ==
            if |s| >= 3 && In(s[0], a) && In(s[1], b) && In(s[2], b) then 3 else -1
  {
    hide Parse, ParseRep;
    ParseChr(a, s);
    if s == "" || !In(s[0], a) {
      CatFails(Chr(a), Rep(2, 2, Chr(b)), s);
    } else {
      var n := if |s| >= 2 && In(s[1], b) then (if |s| >= 3 && In(s[2], b) then 2 else 1) else 0;
      var x, t := s[1..n + 1], s[n + 1..];
      RunParse(b, 2, 2, x, t);
      assert x + t == s[1..] && s == s[..1] + s[1..];
      ParseCat(Chr(a), Rep(2, 2, Chr(b)), s[..1], x + t);
    }
  }

  predicate IsDigit(x: char) { '0' <= x <= '9' }

  /** The first alternative of dec_octet that fits, by its length. */
  function OctetLength(s: string): int {
    if |s| >= 3 && s[0] == '2' && s[1] == '5' && '0' <= s[2] <= '5' then 3
    else if |s| >= 3 && s[0] == '2' && '0' <= s[1] <= '4' && IsDigit(s[2]) then 3
    else if |s| >= 3 && s[0] == '1' && IsDigit(s[1]) && IsDigit(s[2]) then 3
    else if |s| >= 2 && '1' <= s[0] <= '9' && IsDigit(s[1]) then 2
    else if |s| >= 1 && IsDigit(s[0]) then 1
    else -1
  }

  lemma OctetParse(s: string)
    ensures Parse(DecOctet(), s) == OctetLength(s)
  {
    hide Parse, ParseRep, DecOctet;
    var d := Range('0', '9');
    ParseThree(Range('2', '2'), Range('5', '5'), Range('0', '5'), s);
    ParseThree(Range('2', '2'), Range('0', '4'), d, s);
    ParseTwice(Range('1', '1'), d, s);
    ParseTwo(Range('1', '9'), d, s);
    OctetCases(s);
  }

  lemma OctetLengthIsOctet(s: string)
    requires OctetLength(s) >= 0
    ensures OctetLength(s) <= |s| && IsOctet(s[..OctetLength(s)])
  {
    hide Value;
    ValueOf(s[..OctetLength(s)]);
  }

  lemma OctetsAreNoLonger(s: string, m: nat)
    requires m <= |s| && IsOctet(s[..m])
    ensures m <= OctetLength(s)
  {
    hide Value;
    var u := s[..m];
    ValueOf(u);
    assert forall i :: 0 <= i < m ==> u[i] == s[i] && IsDigit(u[i]);
  }

  /** dec_octet takes the longest prefix that is a number up to 255, if any is. */
  lemma OctetTakesLongest(s: string)
    ensures var k := Parse(DecOctet(), s);
            && (k >= 0 ==> IsOctet(s[..k]))
            && forall m :: 0 <= m <= |s| && IsOctet(s[..m]) ==> m <= k
  {
    hide Parse, ParseRep, DecOctet, IsOctet, OctetLength;
    OctetParse(s);
    if OctetLength(s) >= 0 { OctetLengthIsOctet(s); }
    forall m: nat | m <= |s| && IsOctet(s[..m]) ensures m <= OctetLength(s) { OctetsAreNoLonger(s, m); }
  }

  lemma OctetCases(s: string)
    ensures Parse(DecOctet(), s) ==
            if Parse(Cat(Lit('2'), Cat(Lit('5'), Chr(Range('0', '5')))), s) >= 0 then 3
            else if Parse(Cat(Lit('2'), Cat(Chr(Range('0', '4')), Digit())), s) >= 0 then 3
            else if Parse(Cat(Lit('1'), Rep(2, 2, Digit())), s) >= 0 then 3
            else if Parse(Cat(Chr(Range('1', '9')), Digit()), s) >= 0 then 2
            else if s != "" && In(s[0], Range('0', '9')) then 1 else -1
  {
    var d := Range('0', '9');
    ParseThree(Range('2', '2'), Range('5', '5'), Range('0', '5'), s);
    ParseThree(Range('2', '2'), Range('0', '4'), d, s);
    ParseTwice(Range('1', '1'), d, s);
    ParseTwo(Range('1', '9'), d, s);
    var g4 := Or(Cat(Chr(Range('1', '9')), Digit()), Digit());
    var g3 := Or(Cat(Lit('1'), Rep(2, 2, Digit())), g4);
    var g2 := Or(Cat(Lit('2'), Cat(Chr(Range('0', '4')), Digit())), g3);
    assert Parse(g4, s) == if Parse(g4.left, s) >= 0 then 2 else Parse(Digit(), s);
    assert Parse(g3, s) == if Parse(g3.left, s) >= 0 then 3 else Parse(g4, s);
    assert Parse(g2, s) == if Parse(g2.left, s) >= 0 then 3 else Parse(g3, s);
  }

  /** The octets generated are exactly the numbers up to 255. */
  lemma OctetLanguage(s: string)
    ensures Derives(DecOctet(), s) <==> IsOctet(s)
  {
    hide Parse, ParseRep, Derives, DerivesRep, DecOctet;
    OctetTakesLongest(s);
    assert s[..|s|] == s;
    if IsOctet(s) { ParseIsSound(DecOctet(), s); }
    if Derives(DecOctet(), s) {
      OctetShape(s);
      ValueOf(s);
    }
  }

  lemma OctetShape(s: string)
    requires Derives(DecOctet(), s)
    ensures 1 <= |s| <= 3 && All(s, Range('0', '9')) && (|s| > 1 ==> s[0] != '0')
    ensures |s| == 3 ==> s[0] == '1' || (s[0] == '2' && (s[1] < '5' || (s[1] == '5' && s[2] <= '5')))
  {
    hide Parse, ParseRep, Derives, DerivesRep;
    var d := Digit();
    var a, b := Cat(Lit('2'), Cat(Lit('5'), Chr(Range('0', '5')))), Cat(Lit('2'), Cat(Chr(Range('0', '4')), d));
    var c, e := Cat(Lit('1'), Rep(2, 2, d)), Cat(Chr(Range('1', '9')), d);
    ParseOr(a, Or(b, Or(c, Or(e, d))), s);
    ParseOr(b, Or(c, Or(e, d)), s);
    ParseOr(c, Or(e, d), s);
    ParseOr(e, d, s);
    if Derives(a, s) {
      ThreeShape(Range('2', '2'), Range('5', '5'), Range('0', '5'), s);
    } else if Derives(b, s) {
      ThreeShape(Range('2', '2'), Range('0', '4'), Range('0', '9'), s);
    } else if Derives(c, s) {
      var x, y := CatElim(Lit('1'), Rep(2, 2, d), s);
      ParseLit('1', x);
      RunLanguage(Range('0', '9'), 2, 2, y);
    } else if Derives(e, s) {
      TwoShape(Range('1', '9'), Range('0', '9'), s);
    } else {
      ParseChr(Range('0', '9'), s);
    }
  }

  lemma TwoShape(a: Class, b: Class, s: string)
    requires Derives(Cat(Chr(a), Chr(b)), s)
    ensures |s| == 2 && In(s[0], a) && In(s[1], b)
  {
  }

  lemma ThreeShape(a: Class, b: Class, c: Class, s: string)
    requires Derives(Cat(Chr(a), Cat(Chr(b), Chr(c))), s)
    ensures |s| == 3 && In(s[0], a) && In(s[1], b) && In(s[2], c)
  {
    hide Derives, DerivesRep;
    var x, y := CatElim(Chr(a), Cat(Chr(b), Chr(c)), s);
    ParseChr(a, x);
    TwoShape(b, c, y);
  }

  lemma OctetExact(x: string, t: string)
    requires Derives(DecOctet(), x) && Stops(t, Range('0', '9'))
    ensures Parse(DecOctet(), x + t) == |x|
  {
    hide Parse, ParseRep, Derives, DerivesRep, DecOctet, Value;
    OctetLanguage(x);
    OctetTakesLongest(x + t);
    assert (x + t)[..|x|] == x;
    assert forall m :: |x| < m <= |x + t| ==> (x + t)[..m][|x|] == t[0];
  }

  // Exactness: what a rule derives, a parse takes whole when the next character fits -------------

  lemma {:induction false} DottedExact(n: nat, s: string)
    requires Derives(Dotted(n), s)
    ensures Parse(Dotted(n), s) == |s|
  {
    hide Parse, ParseRep, Derives, DerivesRep, DecOctet;
    if n == 0 {
      OctetExact(s, "");
      assert s + "" == s;
    } else {
      var x, y := CatElim(DecOctet(), Cat(Lit('.'), Dotted(n - 1)), s);
      var d, z := CatElim(Lit('.'), Dotted(n - 1), y);
      ParseLit('.', d);
      ParseLit('.', y);
      OctetExact(x, y);
      DottedExact(n - 1, z);
      ParseCat(Lit('.'), Dotted(n - 1), d, z);
      ParseCat(DecOctet(), Cat(Lit('.'), Dotted(n - 1)), x, y);
    }
  }

  predicate FourOctets(s: string, a: string, b: string, c: string, d: string) {
    IsOctet(a) && IsOctet(b) && IsOctet(c) && IsOctet(d) && s == a + ("." + (b + ("." + (c + ("." + d)))))
  }

  lemma FourElim(s: string) returns (a: string, b: string, c: string, d: string)
    requires Derives(Dotted(3), s)
    ensures FourOctets(s, a, b, c, d)
  {
    hide Parse, ParseRep, Derives, DerivesRep, DecOctet, IsOctet;
    var x, y;
    a, x := DottedElim(3, s);
    b, y := DottedElim(2, x);
    c, d := DottedElim(1, y);
    OctetLanguage(d);
  }

  lemma FourIntro(s: string, a: string, b: string, c: string, d: string)
    requires FourOctets(s, a, b, c, d)
    ensures Derives(Dotted(3), s)
  {
    hide Parse, ParseRep, Derives, DerivesRep, DecOctet, IsOctet;
    OctetLanguage(d);
    DottedIntro(1, c, d);
    DottedIntro(2, b, c + ("." + d));
    DottedIntro(3, a, b + ("." + (c + ("." + d))));
  }

  /** IPv4address takes a whole string exactly when it is four octets with dots between them. */
  lemma IPv4addressIsExact(s: string)
    ensures Parse(IPv4address(), s) == |s| <==> exists a, b, c, d :: FourOctets(s, a, b, c, d)
  {
    hide Parse, ParseRep, Derives, DerivesRep, Dotted, FourOctets;
    if Parse(IPv4address(), s) == |s| {
      ParseIsSound(IPv4address(), s);
      assert s[..|s|] == s;
      var a, b, c, d := FourElim(s);
    }
    if a, b, c, d :| FourOctets(s, a, b, c, d) {
      FourIntro(s, a, b, c, d);
      DottedExact(3, s);
    }
  }

  lemma DottedElim(n: nat, s: string) returns (x: string, y: string)
    requires n > 0 && Derives(Dotted(n), s)
    ensures IsOctet(x) && s == x + ("." + y) && Derives(Dotted(n - 1), y)
  {
    hide Parse, ParseRep, Derives, DerivesRep, DecOctet, IsOctet;
    var r, d;
    x, r := CatElim(DecOctet(), Cat(Lit('.'), Dotted(n - 1)), s);
    d, y := CatElim(Lit('.'), Dotted(n - 1), r);
    ParseLit('.', d);
    OctetLanguage(x);
  }

  lemma DottedIntro(n: nat, x: string, y: string)
    requires n > 0 && IsOctet(x) && Derives(Dotted(n - 1), y)
    ensures Derives(Dotted(n), x + ("." + y))
  {
    hide Parse, ParseRep, Derives, DerivesRep, DecOctet, IsOctet;
    OctetLanguage(x);
    ParseLit('.', ".");
    CatIntro(Lit('.'), Dotted(n - 1), ".", y);
    CatIntro(DecOctet(), Cat(Lit('.'), Dotted(n - 1)), x, "." + y);
  }

  lemma H16Exact(x: string, t: string)
    requires Derives(H16(), x) && Stops(t, HexDigit)
    ensures Parse(H16(), x + t) == |x| && 1 <= |x| <= 4 && All(x, HexDigit)
  {
    RunLanguage(HexDigit, 1, 4, x);
    RunParse(HexDigit, 1, 4, x, t);
  }

  lemma H16Fails(t: string)
    requires Stops(t, HexDigit)
    ensures Parse(H16(), t) == -1
  {
  }

  lemma H16ColonExact(x: string, t: string)
    requires Derives(H16Colon(), x)
    ensures Parse(H16Colon(), x + t) == |x|
  {
    hide Parse, ParseRep, Derives, DerivesRep, H16;
    var u, v := CatElim(H16(), Lit(':'), x);
    ParseLit(':', v);
    ParseLit(':', v + t);
    H16Exact(u, v + t);
    assert x + t == u + (v + t);
    ParseCat(H16(), Lit(':'), u, v + t);
  }

  lemma {:induction false} GroupsExact(n: nat, x: string, t: string)
    requires Derives(Rep(n, n, H16Colon()), x)
    ensures Parse(Rep(n, n, H16Colon()), x + t) == |x|
  {
    hide Parse, ParseRep, Derives, DerivesRep, H16Colon;
    if n == 0 {
      NoRounds(H16Colon(), x);
      ParseNone(H16Colon(), 0, 0, x + t);
    } else {
      var u, v := RepElim(H16Colon(), n, n, x);
      H16ColonExact(u, v + t);
      GroupsExact(n - 1, v, t);
      assert x + t == u + (v + t);
      ParseRound(H16Colon(), n, n, u, v + t);
    }
  }

  lemma Ls32Exact(s: string)
    requires Derives(Ls32(), s)
    ensures Parse(Ls32(), s) == |s|
  {
    hide Parse, ParseRep, Derives, DerivesRep, H16, DecOctet, Dotted;
    ParseOr(Cat(H16(), ColonH16()), IPv4address(), s);
    if Derives(Cat(H16(), ColonH16()), s) {
      PairExact(s);
    } else {
      NotAPair(s);
      DottedExact(3, s);
    }
  }

  lemma PairExact(s: string)
    requires Derives(Cat(H16(), ColonH16()), s)
    ensures Parse(Cat(H16(), ColonH16()), s) == |s|
  {
    hide Parse, ParseRep, Derives, DerivesRep, H16;
    var x, y := CatElim(H16(), ColonH16(), s);
    var c, z := CatElim(Lit(':'), H16(), y);
    ParseLit(':', c);
    ParseLit(':', y);
    H16Exact(x, y);
    H16Exact(z, "");
    assert z + "" == z;
    ParseCat(Lit(':'), H16(), c, z);
    ParseCat(H16(), ColonH16(), x, y);
  }

  /** An IPv4 address starts with a group, but no colon follows it. */
  lemma NotAPair(s: string)
    requires Derives(Dotted(3), s)
    ensures Parse(Cat(H16(), ColonH16()), s) == -1
  {
    var x, y := CatElim(DecOctet(), Cat(Lit('.'), Dotted(2)), s);
    hide Parse, ParseRep, Derives, DerivesRep, DecOctet, Dotted;
    var d, z := CatElim(Lit('.'), Dotted(2), y);
    ParseLit('.', d);
    OctetLanguage(x);
    RunParse(HexDigit, 1, 4, x, y);
    ParseLit(':', y);
    assert Parse(ColonH16(), y) == -1 by { CatFails(Lit(':'), H16(), y); }
    ParseCat(H16(), ColonH16(), x, y);
  }
}
