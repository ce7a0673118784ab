/** Ids of storage bags: a number, 32 bytes, hex or base64, all printed as 64 upper-case
    hex characters. */
module BagId {
  import opened Common
  import opened Radix
  import opened TextCodecs

  datatype Input = Number(n: int) | Raw(bytes: seq<Byte>) | Str(text: Text)

  function HexNat(n: nat): (t: Text)
    ensures t != []
  {
    if n < 16 then [Chr(B16, n)] else HexNat(n / 16) + [Chr(B16, n % 16)]
  }

  /** The built-in hex of an integer. */
  function HexInt(n: int): (t: Text)
    ensures |t| >= 3
  {
    if n >= 0 then ['0', 'x'] + HexNat(n) else ['-', '0', 'x'] + HexNat(-n)
  }

  function ZeroText(k: nat): (t: Text)
    ensures |t| == k && forall i :: 0 <= i < k ==> t[i] == '0'
  {
    seq(k, i => '0')
  }

  function RightJust(t: Text, width: nat): (r: Text)
    ensures |r| == if |t| < width then width else |t|
  {
    if |t| < width then ZeroText(width - |t|) + t else t
  }

  function ParseBagId(bagId: Input): Result<Text, Error> {
    match bagId
    case Number(n) => Ok(Upper(RightJust(HexInt(n)[2..], 64)))
    case Raw(bytes) => if |bytes| != 32 then Err(BadLength) else Ok(Upper(Hex(bytes)))
    case Str(text) =>
      if |text| == 64 then
        match FromHex(text)
        case None => Err(Unbound)
        case Some(buf) => if |buf| != 32 then Err(BadText) else Ok(Upper(text))
      else
        match B64Decode(text)
        case None => Err(BadText)
        case Some(buf) => if |buf| != 32 then Err(BadText) else Ok(Upper(Hex(buf)))
  }

  // ----- numbers and bytes -----

  lemma {:induction false} SamePow(k: nat)
    ensures Pow(256, k) == Pow(16, 2 * k)
  {
    if k == 0 {
    } else {
      SamePow(k - 1);
      assert Pow(16, 2 * k) == 16 * Pow(16, 2 * k - 1) == 16 * (16 * Pow(16, 2 * k - 2));
    }
  }

  lemma {:induction false} DigitsOfZero(k: nat)
    ensures ToText(B16, Digits(16, k, 0)) == ZeroText(k)
  {
    if k == 0 {
    } else {
      DigitsOfZero(k - 1);
      ToTextJoin(B16, Digits(16, k - 1, 0), [0]);
      assert ToText(B16, [0]) == ['0'];
      assert ZeroText(k) == ZeroText(k - 1) + ['0'];
    }
  }

  lemma JustSnoc(t: Text, c: Ascii, k: nat)
    requires |t| <= k
    ensures RightJust(t + [c], k + 1) == RightJust(t, k) + [c]
  {
    if |t| < k {
      assert ZeroText(k - |t|) + (t + [c]) == (ZeroText(k - |t|) + t) + [c];
    }
  }

  lemma JustEmpty(k: nat)
    ensures RightJust([], k) == ZeroText(k)
  {
    assert ZeroText(k) + [] == ZeroText(k);
    assert ZeroText(0) == [];
  }

  lemma OneDigit(k: nat, n: nat)
    requires 16 <= n < Pow(16, k)
    ensures k > 1
  {
    assert Pow(16, 1) == 16 && Pow(16, 0) == 1;
  }

  /** The digits of a number that fits, with leading zeros. */
  lemma {:induction false} HexNatFits(k: nat, n: nat)
    requires k >= 1 && n < Pow(16, k)
    ensures |HexNat(n)| <= k && RightJust(HexNat(n), k) == ToText(B16, Digits(16, k, n))
  {
    hide Chr, RightJust;
    ToTextJoin(B16, Digits(16, k - 1, n / 16), [n % 16]);
    assert ToText(B16, [n % 16]) == [Chr(B16, n % 16)];
    if n < 16 {
      DigitsOfZero(k - 1);
      JustEmpty(k - 1);
      JustSnoc([], Chr(B16, n), k - 1);
      assert [] + [Chr(B16, n)] == [Chr(B16, n)];
    } else {
      DivideBound(16, n, Pow(16, k - 1));
      assert k > 1 by { OneDigit(k, n); }
      HexNatFits(k - 1, n / 16);
      JustSnoc(HexNat(n / 16), Chr(B16, n % 16), k - 1);
    }
  }

  lemma {:induction false} AtLeastOne(k: nat)
    ensures Pow(16, k) >= 1
  {
    if k == 0 {
    } else {
      AtLeastOne(k - 1);
    }
  }

  lemma {:induction false} HexNatLong(k: nat, n: nat)
    requires n >= Pow(16, k)
    ensures |HexNat(n)| > k
  {
    if k == 0 {
    } else {
      assert n / 16 >= Pow(16, k - 1);
      AtLeastOne(k - 1);
      HexNatLong(k - 1, n / 16);
    }
  }

  lemma NibbleArithmetic(n: nat)
    ensures n / 16 / 16 == n / 256 && n / 16 % 16 == n % 256 / 16 && n % 16 == n % 256 % 16
  {
  }

  lemma NibbleDigits(k: nat, n: nat)
    requires k > 0
    ensures Digits(16, 2 * k, n) == Digits(16, 2 * k - 2, n / 256) + [n % 256 / 16, n % 16]
  {
    var d := Digits(16, 2 * k - 2, n / 16 / 16);
    NibbleArithmetic(n);
    assert Digits(16, 2 * k - 1, n / 16) == d + [n / 16 % 16];
    assert Digits(16, 2 * k, n) == (d + [n / 16 % 16]) + [n % 16];
  }

  lemma HexOne(b: Byte)
    ensures Hex([b]) == ToText(B16, [b / 16, b % 16])
  {
    hide Chr;
    assert [b][1..] == [];
  }

  lemma HexByte(k: nat, n: nat)
    requires k > 0
    ensures ToText(B16, Digits(16, 2 * k, n)) == ToText(B16, Digits(16, 2 * (k - 1), n / 256)) + Hex([n % 256])
  {
    hide Chr, Digits, Hex;
    NibbleDigits(k, n);
    NibbleArithmetic(n);
    HexOne(n % 256);
    ToTextJoin(B16, Digits(16, 2 * k - 2, n / 256), [n % 256 / 16, n % 16]);
  }

  /** The hex of a byte string is the hexadecimal number with twice as many digits. */
  lemma {:induction false} HexOfDigits(k: nat, n: nat)
    ensures Hex(Bytes(Digits(256, k, n))) == ToText(B16, Digits(16, 2 * k, n))
  {
    hide Chr;
    if k == 0 {
    } else {
      var b: Byte := n % 256;
      HexOfDigits(k - 1, n / 256);
      HexJoin(Bytes(Digits(256, k - 1, n / 256)), [b]);
      HexByte(k, n);
    }
  }

  lemma NumberText(n: nat)
    requires n < Pow(256, 32)
    ensures ParseBagId(Number(n)) == Ok(Upper(Hex(Bytes(Digits(256, 32, n)))))
  {
    hide Upper, Hex, Pow, Digits;
    SamePow(32);
    HexNatFits(64, n);
    HexOfDigits(32, n);
    assert HexInt(n)[2..] == HexNat(n);
  }

  // ----- the forms of one id -----

  ghost predicate Denotes(i: Input, id: seq<Byte>) {
    && |id| == 32
    && match i
       case Number(n) => n == Value(256, id)
       case Raw(bytes) => bytes == id
       case Str(t) => Lower(t) == Hex(id) || IsBase64Of(t, id)
  }

  lemma StrDenoted(t: Text, id: seq<Byte>)
    requires Denotes(Str(t), id)
    ensures ParseBagId(Str(t)) == Ok(Upper(Hex(id)))
  {
    hide Hex, FromHex, B64Decode, Base64, Num, LowerChar, UpperChar;
    if Lower(t) == Hex(id) {
      HexExact(t, id);
      CaseTwice(t);
      CaseAgrees(t, Lower(t));
    } else {
      B64Exact(t, id);
    }
  }

  /** Every form of an id gives its 64 upper-case hex characters. */
  lemma BagDenoted(i: Input, id: seq<Byte>)
    requires Denotes(i, id)
    ensures ParseBagId(i) == Ok(Upper(Hex(id)))
  {
    hide Hex, Lower, Upper, IsBase64Of, FromHex, B64Decode, HexInt, RightJust, Pow, Digits, Value;
    match i
    case Number(n) =>
      ValueBound(256, id);
      DigitsOfValue(256, id);
      NumberText(n);
    case Raw(bytes) =>
    case Str(t) =>
      StrDenoted(t, id);
  }

  /** A text is accepted exactly when it is the hex or the base64 text of an id; of the
      texts refused, those fail on an unbound name that have 64 characters but are not
      made of pairs of hex digits with blanks between. */
  lemma BagTextAccepted(t: Text)
    ensures ParseBagId(Str(t)).Ok? <==> exists id :: Denotes(Str(t), id)
    ensures ParseBagId(Str(t)) == Err(Unbound) <==> |t| == 64 && !InPairs(t)
  {
    hide Hex, Lower, Upper, FromHex, B64Decode, IsBase64Of, InPairs;
    FromHexAccepts(t);
    if id :| Denotes(Str(t), id) {
      StrDenoted(t, id);
    }
    if ParseBagId(Str(t)).Ok? {
      var id := (if |t| == 64 then FromHex(t) else B64Decode(t)).value;
      if |t| == 64 {
        HexExact(t, id);
      } else {
        B64Exact(t, id);
      }
      assert Denotes(Str(t), id);
    }
  }

  lemma ChrIsLower(d: nat)
    requires d < 16
    ensures LowerChar(Chr(B16, d)) == Chr(B16, d)
  {
  }

  lemma {:induction false} HexIsLower(x: seq<Byte>)
    ensures Lower(Hex(x)) == Hex(x)
  {
    hide Chr, LowerChar, Num;
    if x == [] {
    } else {
      HexIsLower(x[1..]);
      HexHead(x);
      LowerCons(Hex(x));
      ChrIsLower(x[0] / 16);
      ChrIsLower(x[0] % 16);
      assert Hex(x)[2..] == Hex(x[1..]);
    }
  }

  /** The text of an id that was denoted parses to itself. */
  lemma BagIdempotent(i: Input, id: seq<Byte>)
    requires Denotes(i, id)
    ensures ParseBagId(i).Ok? && ParseBagId(Str(ParseBagId(i).value)) == ParseBagId(i)
  {
    hide Hex, ParseBagId, Lower, Upper, IsBase64Of, Value;
    BagDenoted(i, id);
    CaseTwice(Hex(id));
    HexIsLower(id);
    BagDenoted(Str(Upper(Hex(id))), id);
  }

  lemma TooLong(t: Text)
    requires |t| > 64
    ensures ParseBagId(Str(t)).Err?
  {
    hide Num, FromHex, Hex;
  }

  lemma LongNumber(n: nat)
    requires n >= Pow(16, 64)
    ensures ParseBagId(Number(n)).Ok? && ParseBagId(Str(ParseBagId(Number(n)).value)).Err?
  {
    hide Pow, HexNat, B64Decode, FromHex, Hex;
    HexNatLong(64, n);
    assert HexInt(n)[2..] == HexNat(n);
    TooLong(Upper(RightJust(HexInt(n)[2..], 64)));
  }

  lemma NotHex()
    ensures Num(B16, 'X').None?
  {
  }

  lemma NegativeNumber(n: int)
    requires n < 0
    ensures ParseBagId(Number(n)).Ok? && ParseBagId(Str(ParseBagId(Number(n)).value)).Err?
  {
    hide HexNat, B64Decode, FromHex, Hex, Num;
    var h := HexInt(n)[2..];
    assert h == ['x'] + HexNat(-n);
    var r := RightJust(h, 64);
    var k := |r| - |h|;
    assert r[k] == h[0] == 'x';
    var u := Upper(r);
    assert u[k] == 'X';
    assert Num(B16, 'X').None? by { NotHex(); }
    if |u| > 64 {
      TooLong(u);
    } else {
      assert !IsSpace(u[k]);
    }
  }

  /** No number is refused, but its text is the text of an id, and parses to itself,
      only when the number is not negative and fits in 32 bytes. */
  lemma NumberRoundTrip(n: int)
    ensures ParseBagId(Number(n)).Ok?
    ensures var u := ParseBagId(Number(n)).value;
            ParseBagId(Str(u)) == Ok(u) <==> 0 <= n < Pow(256, 32)
  {
    hide Pow, ParseBagId, Hex, Upper, Lower;
    SamePow(32);
    if 0 <= n < Pow(256, 32) {
      var id := Bytes(Digits(256, 32, n));
      ValueOfDigits(256, 32, n);
      BagIdempotent(Number(n), id);
      BagDenoted(Number(n), id);
    } else if n >= 0 {
      LongNumber(n);
    } else {
      NegativeNumber(n);
    }
  }
}
