/** The text encodings that ids arrive in: hexadecimal, base32 (section 6 of RFC 4648)
    and base64 (section 4 of RFC 4648), each with the decoder of the Python library. */
module TextCodecs {
  import opened Common
  import opened Radix

  /** How an id can be refused. All are value errors but Unbound, which is the reading of
      a name that was never assigned. */
  datatype Error = BadLength | NotBase32 | BadFirstByte | BadChecksum | BadText | Unbound

  type Byte = x: nat | x < 256
  type Ascii = c: char | c as int < 128 witness 'a'
  type Text = seq<Ascii>

  // ----- letter case -----

  function LowerChar(c: Ascii): Ascii {
    if 'A' <= c <= 'Z' then c + 32 as char else c
  }

  function UpperChar(c: Ascii): Ascii {
    if 'a' <= c <= 'z' then c - 32 as char else c
  }

  function Lower(t: Text): (r: Text)
    ensures |r| == |t| && forall i :: 0 <= i < |t| ==> r[i] == LowerChar(t[i])
  {
    seq(|t|, i requires 0 <= i < |t| => LowerChar(t[i]))
  }

  function Upper(t: Text): (r: Text)
    ensures |r| == |t| && forall i :: 0 <= i < |t| ==> r[i] == UpperChar(t[i])
  {
    seq(|t|, i requires 0 <= i < |t| => UpperChar(t[i]))
  }

  lemma CaseAgrees(s: Text, t: Text)
    ensures Lower(s) == Lower(t) <==> Upper(s) == Upper(t)
  {
    if Lower(s) == Lower(t) {
      forall i | 0 <= i < |s| ensures Upper(s)[i] == Upper(t)[i] {
        assert Lower(s)[i] == Lower(t)[i];
      }
    }
    if Upper(s) == Upper(t) {
      forall i | 0 <= i < |s| ensures Lower(s)[i] == Lower(t)[i] {
        assert Upper(s)[i] == Upper(t)[i];
      }
    }
  }

  lemma CaseTwice(t: Text)
    ensures Lower(Lower(t)) == Lower(t) == Lower(Upper(t))
    ensures Upper(Upper(t)) == Upper(t)
  {
  }

  // ----- alphabets -----

  datatype Base = B16 | B32 | B64

  function Size(base: Base): nat {
    match base case B16 => 16 case B32 => 32 case B64 => 64
  }

  function Chr(base: Base, d: nat): Ascii
    requires d < Size(base)
  {
    match base
    case B16 => if d < 10 then '0' + d as char else 'a' + (d - 10) as char
    case B32 => if d < 26 then 'A' + d as char else '2' + (d - 26) as char
    case B64 =>
      if d < 26 then 'A' + d as char
      else if d < 52 then 'a' + (d - 26) as char
      else if d < 62 then '0' + (d - 52) as char
      else if d == 62 then '+' else '/'
  }

  function Num(base: Base, c: Ascii): (r: Option<nat>)
    ensures r.Some? ==> r.value < Size(base)
  {
    match base
    case B16 =>
      if '0' <= c <= '9' then Some((c - '0') as nat)
      else if 'a' <= c <= 'f' then Some((c - 'a') as nat + 10)
      else if 'A' <= c <= 'F' then Some((c - 'A') as nat + 10)
      else None
    case B32 =>
      if 'A' <= c <= 'Z' then Some((c - 'A') as nat)
      else if '2' <= c <= '7' then Some((c - '2') as nat + 26)
      else None
    case B64 =>
      if 'A' <= c <= 'Z' then Some((c - 'A') as nat)
      else if 'a' <= c <= 'z' then Some((c - 'a') as nat + 26)
      else if '0' <= c <= '9' then Some((c - '0') as nat + 52)
      else if c == '+' then Some(62)
      else if c == '/' then Some(63)
      else None
  }

  lemma NumOfChr(base: Base, d: nat)
    requires d < Size(base)
    ensures Num(base, Chr(base, d)) == Some(d)
  {
  }

  /** A digit has one character, but for the case of hexadecimal letters. */
  lemma ChrOfNum(base: Base, c: Ascii)
    requires Num(base, c).Some?
    ensures Chr(base, Num(base, c).value) == if base == B16 then LowerChar(c) else c
  {
  }

  predicate IsText(base: Base, t: Text) {
    forall i :: 0 <= i < |t| ==> Num(base, t[i]).Some?
  }

  function FromText(base: Base, t: Text): (d: seq<nat>)
    requires IsText(base, t)
    ensures |d| == |t| && AreDigits(Size(base), d)
    ensures forall i :: 0 <= i < |t| ==> d[i] == Num(base, t[i]).value
  {
    seq(|t|, i requires 0 <= i < |t| => Num(base, t[i]).value)
  }

  function ToText(base: Base, d: seq<nat>): (t: Text)
    requires AreDigits(Size(base), d)
    ensures |t| == |d| && forall i :: 0 <= i < |t| ==> t[i] == Chr(base, d[i])
  {
    seq(|d|, i requires 0 <= i < |d| => Chr(base, d[i]))
  }

  lemma FromToText(base: Base, d: seq<nat>)
    requires AreDigits(Size(base), d)
    ensures IsText(base, ToText(base, d)) && FromText(base, ToText(base, d)) == d
  {
    hide Num, Chr;
    forall i | 0 <= i < |d| ensures Num(base, ToText(base, d)[i]) == Some(d[i]) {
      NumOfChr(base, d[i]);
    }
  }

  lemma ToFromText(base: Base, t: Text)
    requires IsText(base, t) && base != B16
    ensures ToText(base, FromText(base, t)) == t
  {
    hide Num, Chr;
    forall i | 0 <= i < |t| ensures ToText(base, FromText(base, t))[i] == t[i] {
      ChrOfNum(base, t[i]);
    }
  }

  lemma ToTextJoin(base: Base, d: seq<nat>, e: seq<nat>)
    requires AreDigits(Size(base), d) && AreDigits(Size(base), e)
    ensures AreDigits(Size(base), d + e) && ToText(base, d + e) == ToText(base, d) + ToText(base, e)
  {
    hide Num, Chr;
  }

  /** A sequence of digits in base 256, as bytes. */
  function Bytes(d: seq<nat>): (s: seq<Byte>)
    requires AreDigits(256, d)
    ensures s == d
  {
    d
  }

  // ----- padding -----

  function Stripped(t: Text): (r: Text)
    ensures |r| <= |t| && t[..|r|] == r && (r == [] || r[|r| - 1] != '=')
    ensures forall i :: |r| <= i < |t| ==> t[i] == '='
  {
    if t == [] || t[|t| - 1] != '=' then t else Stripped(t[..|t| - 1])
  }

  lemma {:induction false} StrippedIs(t: Text, k: nat)
    requires k <= |t| && forall i :: k <= i < |t| ==> t[i] == '='
    requires k == 0 || t[k - 1] != '='
    ensures Stripped(t) == t[..k]
  {
    if k < |t| {
      StrippedIs(t[..|t| - 1], k);
      assert t[..|t| - 1][..k] == t[..k];
    } else {
      assert t[..k] == t;
    }
  }

  function Zeros(k: nat): (d: seq<nat>)
    ensures |d| == k && forall i :: 0 <= i < k ==> d[i] == 0
  {
    seq(k, i => 0)
  }

  lemma ZerosAreDigits(base: Base, d: seq<nat>, k: nat)
    requires AreDigits(Size(base), d)
    ensures AreDigits(Size(base), d + Zeros(k))
  {
  }

  /** The digits of a padded text, with a zero for every padding character. */
  function PaddedDigits(base: Base, t: Text): (d: seq<nat>)
    requires IsText(base, Stripped(t))
    ensures |d| == |t| && AreDigits(Size(base), d)
  {
    ZerosAreDigits(base, FromText(base, Stripped(t)), |t| - |Stripped(t)|);
    FromText(base, Stripped(t)) + Zeros(|t| - |Stripped(t)|)
  }

  // ----- base32 -----

  lemma Base32Group()
    ensures Pow(256, 5) == Pow(32, 8) == 0x100_0000_0000
    ensures Pow(256, 4) == 0x1_0000_0000 && Pow(32, 7) == 0x8_0000_0000
    ensures Pow(256, 3) == 0x100_0000 && Pow(32, 6) == 0x4000_0000
  {
  }

  /** base64.b32encode on whole groups of five bytes, which need no padding. */
  function B32Encode(s: seq<Byte>): (t: Text)
    requires |s| % 5 == 0
    ensures |t| == |s| / 5 * 8
  {
    RegroupLength(256, 5, 32, 8, s, |s| / 5);
    ToText(B32, Regroup(256, 5, 32, 8, s))
  }

  /** How many bytes of the last group of five remain. */
  function Leftover(pads: nat): nat {
    match pads case 1 => 4 case 3 => 3 case 4 => 2 case 6 => 1 case _ => 5
  }

  /** base64.b32decode. */
  function B32Decode(t: Text): (r: Option<seq<Byte>>)
    ensures r.Some? ==> |t| % 8 == 0
    ensures r.Some? && t != [] ==> |r.value| == |t| / 8 * 5 - 5 + Leftover(|t| - |Stripped(t)|)
    ensures r.Some? ==> |t| - |Stripped(t)| in {0, 1, 3, 4, 6}
  {
    var s := Stripped(t);
    var pads := |t| - |s|;
    if |t| % 8 != 0 || !IsText(B32, s) || pads !in {0, 1, 3, 4, 6} then None
    else
      RegroupLength(32, 8, 256, 5, PaddedDigits(B32, t), |t| / 8);
      var full := Bytes(Regroup(32, 8, 256, 5, PaddedDigits(B32, t)));
      Some(if t == [] then [] else full[..|full| - 5 + Leftover(pads)])
  }

  lemma UnpaddedDigits(base: Base, t: Text)
    requires IsText(base, t)
    ensures Stripped(t) == t && PaddedDigits(base, t) == FromText(base, t)
  {
    if t != [] {
      assert Num(base, t[|t| - 1]).Some?;
    }
    StrippedIs(t, |t|);
    assert t[..|t|] == t;
    assert FromText(base, t) + Zeros(0) == FromText(base, t);
  }

  lemma B32Unpadded(t: Text)
    requires IsText(B32, t) && |t| % 8 == 0
    ensures B32Decode(t) == Some(Bytes(Regroup(32, 8, 256, 5, FromText(B32, t))))
  {
    hide Num, Regroup;
    UnpaddedDigits(B32, t);
    var full := Regroup(32, 8, 256, 5, FromText(B32, t));
    RegroupLength(32, 8, 256, 5, FromText(B32, t), |t| / 8);
    assert full[..|full|] == full;
  }

  /** b32decode undoes b32encode. */
  lemma B32RoundTrip(s: seq<Byte>)
    requires |s| % 5 == 0
    ensures B32Decode(B32Encode(s)) == Some(s)
  {
    hide Num, Chr, Pow, Regroup;
    var d := Regroup(256, 5, 32, 8, s);
    RegroupLength(256, 5, 32, 8, s, |s| / 5);
    FromToText(B32, d);
    UnpaddedDigits(B32, ToText(B32, d));
    Base32Group();
    RegroupBack(256, 5, 32, 8, s, |s| / 5);
    B32Unpadded(ToText(B32, d));
  }

  /** A text without padding is the encoding of what it decodes to. */
  lemma B32Exact(t: Text, s: seq<Byte>)
    requires |s| % 5 == 0 && B32Decode(t) == Some(s) && |s| == |t| / 8 * 5
    ensures t == B32Encode(s)
  {
    hide Num, Chr, Pow, Regroup;
    if t == [] {
      B32RoundTrip([]);
      assert B32Encode(s) == [];
    } else {
      assert Leftover(|t| - |Stripped(t)|) == 5;
      assert Stripped(t) == t;
      B32Unpadded(t);
      ToFromText(B32, t);
      Base32Group();
      RegroupBack(32, 8, 256, 5, FromText(B32, t), |t| / 8);
    }
  }

  /** The first character holds the upper five bits of the first byte. */
  lemma B32First(s: seq<Byte>)
    requires |s| % 5 == 0 && s != []
    ensures B32Encode(s)[0] == Chr(B32, s[0] / 8)
  {
    hide Num, Chr, Pow, Value, Digits;
    var g := s[..5];
    var d := Digits(32, 8, Value(256, g));
    RegroupLength(256, 5, 32, 8, s, |s| / 5);
    assert Regroup(256, 5, 32, 8, s)[0] == d[0];
    Base32Group();
    ValueBound(256, g);
    ValueOfDigits(32, 8, Value(256, g));
    FirstDigit(256, g);
    FirstDigit(32, d);
    ValueBound(256, g[1..]);
    ValueBound(32, d[1..]);
  }

  lemma SameHigh(x: nat, p: nat, y: nat, q: nat)
    requires p < 0x4000_0000 && q < 0x4000_0000 && x * 0x4000_0000 + p == y * 0x4000_0000 + q
    ensures x == y
  {
  }

  lemma SplitDigit(h: nat, l: nat, u: nat, v: nat, r: nat, d: nat, e: nat, q: nat)
    requires l < 8 && u < 4 && v < 64 && r < 0x100_0000 && e < 32 && q < 0x4000_0000
    requires (8 * h + l) * 0x1_0000_0000 + ((64 * u + v) * 0x100_0000 + r) == d * 0x8_0000_0000 + (e * 0x4000_0000 + q)
    ensures e == 4 * l + u
  {
    SameHigh(32 * h + 4 * l + u, v * 0x100_0000 + r, 32 * d + e, q);
  }

  lemma SecondDigit(a: nat, b: nat, r: nat, d: nat, e: nat, q: nat)
    requires a < 256 && b < 256 && r < 0x100_0000 && d < 32 && e < 32 && q < 0x4000_0000
    requires a * 0x1_0000_0000 + (b * 0x100_0000 + r) == d * 0x8_0000_0000 + (e * 0x4000_0000 + q)
    ensures e == a % 8 * 4 + b / 64
  {
    var h, l, u, v := a / 8, a % 8, b / 64, b % 64;
    assert a == 8 * h + l && b == 64 * u + v;
    SplitDigit(h, l, u, v, r, d, e, q);
  }

  /** The second one holds its other three and the upper two bits of the second byte. */
  lemma B32Second(s: seq<Byte>)
    requires |s| % 5 == 0 && s != []
    ensures B32Encode(s)[1] == Chr(B32, s[0] % 8 * 4 + s[1] / 64)
  {
    hide Num, Chr, Pow, Value, Digits;
    var g := s[..5];
    var d := Digits(32, 8, Value(256, g));
    RegroupLength(256, 5, 32, 8, s, |s| / 5);
    assert Regroup(256, 5, 32, 8, s)[1] == d[1];
    Base32Group();
    ValueBound(256, g);
    ValueOfDigits(32, 8, Value(256, g));
    FirstDigit(256, g);
    FirstDigit(256, g[1..]);
    FirstDigit(32, d);
    FirstDigit(32, d[1..]);
    ValueBound(256, g[1..][1..]);
    ValueBound(32, d[1..][1..]);
    SecondDigit(g[0], g[1], Value(256, g[1..][1..]), d[0], d[1], Value(32, d[1..][1..]));
  }

  // ----- hexadecimal -----

  /** bytes.hex. */
  function Hex(x: seq<Byte>): (t: Text)
    ensures |t| == 2 * |x|
  {
    if x == [] then [] else [Chr(B16, x[0] / 16), Chr(B16, x[0] % 16)] + Hex(x[1..])
  }

  predicate IsSpace(c: Ascii) {
    c == ' ' || '\t' <= c <= '\r'
  }

  /** bytes.fromhex: whitespace may stand between bytes. */
  function FromHex(t: Text): (r: Option<seq<Byte>>)
    ensures r.Some? ==> 2 * |r.value| <= |t|
    ensures r.Some? ==> forall i :: 0 <= i < |t| ==> Num(B16, t[i]).Some? || IsSpace(t[i])
  {
    if t == [] then Some([])
    else if IsSpace(t[0]) then FromHex(t[1..])
    else if |t| < 2 || Num(B16, t[0]).None? || Num(B16, t[1]).None? then None
    else match FromHex(t[2..])
         case None => None
         case Some(rest) => Some([16 * Num(B16, t[0]).value + Num(B16, t[1]).value] + rest)
  }

  /** How many characters are not blank. */
  function Solid(t: Text): nat {
    if t == [] then 0 else (if IsSpace(t[0]) then 0 else 1) + Solid(t[1..])
  }

  /** Hex digits and blanks, with an even number of digits before every blank and before
      the end: every run of digits between blanks is made of pairs. */
  predicate InPairs(t: Text) {
    && (forall i :: 0 <= i < |t| ==> Num(B16, t[i]).Some? || IsSpace(t[i]))
    && (forall i :: 0 <= i <= |t| && (i == |t| || IsSpace(t[i])) ==> Solid(t[..i]) % 2 == 0)
  }

  lemma SolidFirst(t: Text, i: nat)
    requires 0 < i <= |t|
    ensures Solid(t[..i]) == (if IsSpace(t[0]) then 0 else 1) + Solid(t[1..][..i - 1])
  {
    hide IsSpace;
    assert t[..i][1..] == t[1..][..i - 1];
  }

  lemma SolidNone()
    ensures Solid([]) == 0
  {
  }

  lemma PairsAfterBlank(t: Text)
    requires t != [] && IsSpace(t[0])
    ensures InPairs(t) <==> InPairs(t[1..])
  {
    hide Solid, Num, IsSpace;
    SolidNone();
    var u := t[1..];
    if InPairs(t) {
      forall i | 0 <= i <= |u| && (i == |u| || IsSpace(u[i])) ensures Solid(u[..i]) % 2 == 0 {
        SolidFirst(t, i + 1);
        assert i + 1 == |t| || IsSpace(t[i + 1]);
      }
      assert forall i :: 0 <= i < |u| ==> u[i] == t[i + 1];
    }
    if InPairs(u) {
      forall i | 0 <= i <= |t| && (i == |t| || IsSpace(t[i])) ensures Solid(t[..i]) % 2 == 0 {
        if i > 0 {
          SolidFirst(t, i);
          assert i - 1 == |u| || IsSpace(u[i - 1]);
        } else {
          assert t[..0] == [];
        }
      }
      assert forall i :: 0 < i < |t| ==> t[i] == u[i - 1];
    }
  }

  lemma DigitIsSolid(c: Ascii)
    requires Num(B16, c).Some?
    ensures !IsSpace(c)
  {
  }

  lemma PairsAfterPair(t: Text)
    requires |t| >= 2 && Num(B16, t[0]).Some? && Num(B16, t[1]).Some?
    ensures InPairs(t) <==> InPairs(t[2..])
  {
    hide Solid, Num, IsSpace;
    DigitIsSolid(t[0]);
    DigitIsSolid(t[1]);
    var u := t[2..];
    forall i | 0 <= i <= |u| ensures Solid(t[..i + 2]) == 2 + Solid(u[..i]) {
      SolidFirst(t, i + 2);
      SolidFirst(t[1..], i + 1);
      assert t[1..][1..] == u;
    }
    if InPairs(t) {
      forall i | 0 <= i <= |u| && (i == |u| || IsSpace(u[i])) ensures Solid(u[..i]) % 2 == 0 {
        assert i + 2 == |t| || IsSpace(t[i + 2]);
        assert Solid(t[..i + 2]) % 2 == 0;
      }
      assert forall i :: 0 <= i < |u| ==> u[i] == t[i + 2];
    }
    if InPairs(u) {
      forall i | 0 <= i <= |t| && (i == |t| || IsSpace(t[i])) ensures Solid(t[..i]) % 2 == 0 {
        assert i >= 2;
        assert i - 2 == |u| || IsSpace(u[i - 2]);
        assert Solid(t[..(i - 2) + 2]) == 2 + Solid(u[..i - 2]);
      }
      assert forall i :: 2 <= i < |t| ==> t[i] == u[i - 2];
    }
  }

  lemma OddIsNotPaired(t: Text)
    requires t != [] && !IsSpace(t[0])
    requires |t| < 2 || Num(B16, t[0]).None? || Num(B16, t[1]).None?
    ensures !InPairs(t)
  {
    hide Num, IsSpace;
    SolidFirst(t, 1);
    assert t[1..][..0] == [];
    assert Solid(t[..1]) == 1;
  }

  lemma NothingIsPaired()
    ensures InPairs([])
  {
  }

  /** What fromhex accepts: pairs of hex digits, with blanks only between pairs. */
  lemma {:induction false} FromHexAccepts(t: Text)
    ensures FromHex(t).Some? <==> InPairs(t)
  {
    hide Num, IsSpace, Solid, InPairs;
    if t == [] {
      NothingIsPaired();
    } else if IsSpace(t[0]) {
      PairsAfterBlank(t);
      FromHexAccepts(t[1..]);
    } else if |t| < 2 || Num(B16, t[0]).None? || Num(B16, t[1]).None? {
      OddIsNotPaired(t);
    } else {
      PairsAfterPair(t);
      FromHexAccepts(t[2..]);
    }
  }

  lemma {:induction false} HexJoin(x: seq<Byte>, y: seq<Byte>)
    ensures Hex(x + y) == Hex(x) + Hex(y)
  {
    hide Chr;
    if x == [] {
      assert x + y == y;
    } else {
      assert (x + y)[1..] == x[1..] + y;
      HexJoin(x[1..], y);
    }
  }

  predicate SpellsByte(c: Ascii, d: Ascii, b: Byte) {
    LowerChar(c) == Chr(B16, b / 16) && LowerChar(d) == Chr(B16, b % 16)
  }

  lemma HexPair(c: Ascii, d: Ascii, b: Byte)
    requires Num(B16, c).Some? && Num(B16, d).Some?
    ensures b == 16 * Num(B16, c).value + Num(B16, d).value <==>
            SpellsByte(c, d, b)
  {
    hide Num, Chr, LowerChar;
    ChrOfNum(B16, c);
    ChrOfNum(B16, d);
    NumOfChr(B16, b / 16);
    NumOfChr(B16, b % 16);
    NumOfChr(B16, Num(B16, c).value);
    NumOfChr(B16, Num(B16, d).value);
  }

  lemma NotSpace(c: Ascii)
    requires exists d :: d < 16 && LowerChar(c) == Chr(B16, d)
    ensures !IsSpace(c) && Num(B16, c).Some?
  {
  }

  lemma Cons2(a: Ascii, b: Ascii, s: Text, c: Ascii, d: Ascii, t: Text)
    ensures [a, b] + s == [c, d] + t <==> a == c && b == d && s == t
  {
    var x, y := [a, b] + s, [c, d] + t;
    assert x[0] == a && x[1] == b && x[2..] == s;
    assert y[0] == c && y[1] == d && y[2..] == t;
  }

  lemma LowerCons(t: Text)
    requires |t| >= 2
    ensures Lower(t) == [LowerChar(t[0]), LowerChar(t[1])] + Lower(t[2..])
  {
    hide LowerChar;
  }

  lemma HexHead(x: seq<Byte>)
    requires x != []
    ensures Hex(x) == [Chr(B16, x[0] / 16), Chr(B16, x[0] % 16)] + Hex(x[1..])
  {
  }

  lemma HexCons(t: Text, x: seq<Byte>)
    requires |t| == 2 * |x| && x != []
    ensures Lower(t) == Hex(x) <==> Lower(t[2..]) == Hex(x[1..]) && SpellsByte(t[0], t[1], x[0])
  {
    hide Num, Chr, LowerChar, Hex, Lower;
    LowerCons(t);
    HexHead(x);
    Cons2(LowerChar(t[0]), LowerChar(t[1]), Lower(t[2..]), Chr(B16, x[0] / 16), Chr(B16, x[0] % 16), Hex(x[1..]));
  }

  lemma HexStep(t: Text, x: seq<Byte>)
    requires |t| == 2 * |x| && x != []
    ensures FromHex(t) == Some(x) <==> FromHex(t[2..]) == Some(x[1..]) && SpellsByte(t[0], t[1], x[0])
  {
    hide Num, Chr, LowerChar, IsSpace;
    if SpellsByte(t[0], t[1], x[0]) {
      NotSpace(t[0]);
      NotSpace(t[1]);
    }
    if !IsSpace(t[0]) && Num(B16, t[0]).Some? && Num(B16, t[1]).Some? {
      HexPair(t[0], t[1], x[0]);
      assert x == [x[0]] + x[1..];
    }
  }

  /** With no room for whitespace, fromhex accepts exactly the hex of its result in
      any letter case. */
  lemma {:induction false} HexExact(t: Text, x: seq<Byte>)
    requires |t| == 2 * |x|
    ensures FromHex(t) == Some(x) <==> Lower(t) == Hex(x)
  {
    hide Num, Chr, LowerChar, IsSpace;
    if x == [] {
    } else {
      HexStep(t, x);
      HexExact(t[2..], x[1..]);
      HexCons(t, x);
    }
  }

  // ----- base64 -----

  /** base64.b64decode with validate=True: the padding must complete the last group. */
  function B64Decode(t: Text): (r: Option<seq<Byte>>)
    ensures r.Some? ==> |t| % 4 == 0 && |r.value| == |t| / 4 * 3 - (|t| - |Stripped(t)|)
    ensures r.Some? ==> |t| - |Stripped(t)| <= 2 && IsText(B64, Stripped(t))
  {
    var s := Stripped(t);
    var pads := |t| - |s|;
    if |t| % 4 != 0 || !IsText(B64, s) || pads > 2 then None
    else
      RegroupLength(64, 4, 256, 3, PaddedDigits(B64, t), |t| / 4);
      var full := Bytes(Regroup(64, 4, 256, 3, PaddedDigits(B64, t)));
      Some(full[..|full| - pads])
  }

  lemma Base64Group()
    ensures Pow(256, 3) == Pow(64, 4) == 0x100_0000
  {
  }

  /** The digits of a 32-byte id and a 33rd byte that completes the last group. */
  function IdDigits(x: seq<Byte>, last: Byte): (d: seq<nat>)
    requires |x| == 32
    ensures |d| == 44 && AreDigits(64, d)
  {
    RegroupLength(256, 3, 64, 4, x + [last], 11);
    Regroup(256, 3, 64, 4, x + [last])
  }

  /** base64.b64encode of a 32-byte id. */
  function Base64(x: seq<Byte>): (t: Text)
    requires |x| == 32
    ensures |t| == 44
  {
    ToText(B64, IdDigits(x, 0))[..43] + "="
  }

  /** The decoder ignores the two lowest bits of the last digit before the padding. */
  predicate IsBase64Of(t: Text, x: seq<Byte>)
    requires |x| == 32
  {
    && |t| == 44 && t[43] == '=' && t[..42] == Base64(x)[..42]
    && Num(B64, t[42]).Some? && Num(B64, Base64(x)[42]).Some?
    && Num(B64, t[42]).value / 4 == Num(B64, Base64(x)[42]).value / 4
  }

  lemma FourDigits(v: nat)
    requires v < 0x100_0000
    ensures Digits(64, 4, v) == [v / 0x4_0000, v / 0x1000 % 64, v / 64 % 64, v % 64]
  {
    assert Digits(64, 1, v / 64 / 64 / 64) == [v / 64 / 64 / 64 % 64];
    assert Digits(64, 2, v / 64 / 64) == Digits(64, 1, v / 64 / 64 / 64) + [v / 64 / 64 % 64];
    assert Digits(64, 3, v / 64) == Digits(64, 2, v / 64 / 64) + [v / 64 % 64];
    assert Digits(64, 4, v) == Digits(64, 3, v / 64) + [v % 64];
  }

  lemma SixtyFourths(w: nat, last: nat)
    requires last < 256
    ensures (256 * w + last) / 64 == 4 * w + last / 64
    ensures (256 * w + last) % 64 == last % 64
  {
  }

  lemma FourTimes(w: nat, r: nat)
    requires r < 4
    ensures (4 * w + r) % 64 == w % 16 * 4 + r
    ensures (4 * w + r) / 64 == w / 16
  {
  }

  lemma LastGroupArithmetic(w: nat, last: nat, v: nat)
    requires w < 0x1_0000 && last < 256 && v == 256 * w + last
    ensures v / 0x4_0000 == w / 1024 && v / 0x1000 == w / 16
    ensures v / 64 % 64 == w % 16 * 4 + last / 64 && v % 64 == last % 64
  {
    SixtyFourths(w, last);
    FourTimes(w, last / 64);
  }

  lemma LastGroup(w: nat, last: Byte)
    requires w < 0x1_0000
    ensures Digits(64, 4, 256 * w + last) == [w / 1024, w / 16 % 64, w % 16 * 4 + last / 64, last % 64]
  {
    FourDigits(256 * w + last);
    LastGroupArithmetic(w, last, 256 * w + last);
  }

  lemma ThreeBytes(a: Byte, b: Byte, c: Byte)
    ensures Value(256, [a, b, c]) == 256 * (256 * a + b) + c
  {
    assert [a, b, c][..2] == [a, b] && [a, b][..1] == [a] && [a][..0] == [];
    assert Value(256, [a]) == a;
    assert Value(256, [a, b]) == Value(256, [a]) * 256 + b;
  }

  lemma IdDigitsEnd(x: seq<Byte>, last: Byte)
    requires |x| == 32
    ensures IdDigits(x, last) == Regroup(256, 3, 64, 4, x[..30]) + Digits(64, 4, 256 * (256 * x[30] + x[31]) + last)
    ensures |Regroup(256, 3, 64, 4, x[..30])| == 40
  {
    hide Pow, Value, Digits;
    var g := [x[30], x[31], last];
    assert x + [last] == x[..30] + g;
    RegroupLength(256, 3, 64, 4, x[..30], 10);
    RegroupJoin(256, 3, 64, 4, x[..30], g, 10);
    RegroupStep(256, 3, 64, 4, g, []);
    assert g + [] == g;
    ThreeBytes(x[30], x[31], last);
  }

  lemma SwapEnd(p: seq<nat>, a: nat, b: nat, c: nat, c': nat, d: nat)
    requires |p| == 40
    ensures var s := p + [a, b, c, 0]; s[42] == c && p + [a, b, c', d] == s[..42] + [c', d]
  {
  }

  lemma IdDigitsAre(x: seq<Byte>, last: Byte)
    requires |x| == 32
    ensures IdDigits(x, 0)[42] % 4 == 0
    ensures IdDigits(x, last) == IdDigits(x, 0)[..42] + [IdDigits(x, 0)[42] + last / 64, last % 64]
  {
    hide Pow, Value, Digits, Regroup, IdDigits;
    var hi: nat, lo: nat := x[30], x[31];
    var w := 256 * hi + lo;
    IdDigitsEnd(x, last);
    IdDigitsEnd(x, 0);
    LastGroup(w, last);
    LastGroup(w, 0);
    SwapEnd(Regroup(256, 3, 64, 4, x[..30]), w / 1024, w / 16 % 64, w % 16 * 4, w % 16 * 4 + last / 64, last % 64);
  }

  lemma B64DecodeDigits(t: Text)
    requires |t| == 44 && t[43] == '=' && IsText(B64, t[..43])
    ensures |Regroup(64, 4, 256, 3, FromText(B64, t[..43]) + [0])| == 33
    ensures B64Decode(t) == Some(Bytes(Regroup(64, 4, 256, 3, FromText(B64, t[..43]) + [0]))[..32])
  {
    hide Regroup;
    assert t[42] == t[..43][42] && Num(B64, t[..43][42]).Some?;
    StrippedIs(t, 43);
    assert Zeros(1) == [0];
    RegroupLength(64, 4, 256, 3, FromText(B64, t[..43]) + [0], 11);
  }

  /** What b64decode makes of a text of 43 digits and one padding character. */
  lemma B64DecodeId(t: Text, x: seq<Byte>)
    requires |x| == 32
    ensures B64Decode(t) == Some(x) <==>
            |t| == 44 && t[43] == '=' && IsText(B64, t[..43])
            && exists last: Byte :: FromText(B64, t[..43]) + [0] == IdDigits(x, last)
  {
    hide Num, Regroup, Pow;
    if B64Decode(t) == Some(x) {
      assert |t| == 44 && Stripped(t) == t[..43];
      B64DecodeDigits(t);
      var full := Bytes(Regroup(64, 4, 256, 3, FromText(B64, t[..43]) + [0]));
      Base64Group();
      RegroupBack(64, 4, 256, 3, FromText(B64, t[..43]) + [0], 11);
      assert full == x + [full[32]];
      assert FromText(B64, t[..43]) + [0] == IdDigits(x, full[32]);
    }
    if |t| == 44 && t[43] == '=' && IsText(B64, t[..43]) {
      if last: Byte :| FromText(B64, t[..43]) + [0] == IdDigits(x, last) {
        B64DecodeDigits(t);
        Base64Group();
        RegroupBack(256, 3, 64, 4, x + [last], 11);
        assert (x + [last])[..32] == x;
      }
    }
  }

  lemma SameDigits(t: Text, x: seq<Byte>, d: seq<nat>, last: Byte)
    requires |x| == 32 && |t| == 44 && t[43] == '=' && IsText(B64, t[..43]) && d == FromText(B64, t[..43])
    requires d + [0] == IdDigits(x, 0)[..42] + [IdDigits(x, 0)[42] + last / 64, last % 64]
    requires IdDigits(x, 0)[42] % 4 == 0
    ensures IsBase64Of(t, x)
  {
    hide Num, Chr, Regroup;
    var c := IdDigits(x, 0);
    FromToText(B64, c);
    ToFromText(B64, t[..43]);
    assert forall i :: 0 <= i < 42 ==> (d + [0])[i] == c[i];
    assert (d + [0])[42] == c[42] + last / 64;
    assert forall i :: 0 <= i < 42 ==> t[i] == t[..43][i] == Chr(B64, d[i]);
    assert Base64(x)[42] == ToText(B64, c)[42];
    assert t[42] == t[..43][42];
  }

  lemma IsTextOfId(t: Text, x: seq<Byte>)
    requires |x| == 32 && IsBase64Of(t, x)
    ensures IsText(B64, t[..43])
    ensures FromText(B64, t[..43])[..42] == IdDigits(x, 0)[..42]
    ensures FromText(B64, t[..43])[42] / 4 == IdDigits(x, 0)[42] / 4
  {
    hide Num, Chr, Regroup;
    var c := IdDigits(x, 0);
    FromToText(B64, c);
    assert forall i :: 0 <= i < 42 ==> t[i] == t[..42][i] == Base64(x)[..42][i] == ToText(B64, c)[i];
    assert Base64(x)[42] == ToText(B64, c)[42];
    assert forall i :: 0 <= i < 43 ==> t[..43][i] == t[i];
  }

  /** b64decode gives a 32-byte id exactly for its base64 text, up to two unused bits. */
  lemma B64Exact(t: Text, x: seq<Byte>)
    requires |x| == 32
    ensures B64Decode(t) == Some(x) <==> IsBase64Of(t, x)
  {
    hide Num, Chr, Regroup, B64Decode;
    B64DecodeId(t, x);
    var c := IdDigits(x, 0);
    FromToText(B64, c);
    if |t| == 44 && t[43] == '=' && IsText(B64, t[..43]) {
      var d := FromText(B64, t[..43]);
      if last: Byte :| d + [0] == IdDigits(x, last) {
        IdDigitsAre(x, last);
        SameDigits(t, x, d, last);
      }
    }
    if IsBase64Of(t, x) {
      IsTextOfId(t, x);
      var d := FromText(B64, t[..43]);
      var last: Byte := d[42] % 4 * 64;
      IdDigitsAre(x, last);
      assert d[42] == c[42] + last / 64;
      assert d + [0] == IdDigits(x, last);
    }
  }

  /** b64decode undoes b64encode. */
  lemma B64RoundTrip(x: seq<Byte>)
    requires |x| == 32
    ensures B64Decode(Base64(x)) == Some(x)
  {
    hide Num, Chr, Regroup, B64Decode;
    FromToText(B64, IdDigits(x, 0));
    assert Base64(x)[42] == ToText(B64, IdDigits(x, 0))[42];
    B64Exact(Base64(x), x);
  }
}
