/** Ids of ADNL peers. An id is printed as base32 of a tag byte, the 32 bytes and a
    two-byte checksum; the first character is the same for every id and is left off. An
    id may also arrive as bytes, hex or base64. */
module AdnlCodec {
  import opened Common
  import opened Radix
  import opened TextCodecs

  /** The checksum is any function from bytes to two bytes. */
  type Crc = seq<Byte> -> (Byte, Byte)

  const TAG: Byte := 0x2d

  function Sum(crc: Crc, s: seq<Byte>): (r: seq<Byte>)
    ensures |r| == 2
  {
    [crc(s).0, crc(s).1]
  }

  // Python slices stop at the end of a shorter sequence.
  function Take(s: seq<Byte>, n: nat): seq<Byte> {
    if |s| < n then s else s[..n]
  }

  function Drop(s: seq<Byte>, n: nat): seq<Byte> {
    if |s| < n then [] else s[n..]
  }

  // ----- the ADNL text form -----

  function AdnlIdEncode(crc: Crc, id: seq<Byte>, upperCase: bool): (r: Result<Text, Error>)
    ensures r.Ok? ==> |r.value| == 55
  {
    if |id| != 32 then Err(BadLength)
    else
      var buffer := [TAG] + id;
      var enc := B32Encode(buffer + Sum(crc, buffer))[1..];
      Ok(if upperCase then enc else Lower(enc))
  }

  function AdnlIdDecode(crc: Crc, id: Text): (r: Result<seq<Byte>, Error>)
    ensures r.Ok? ==> |id| == 55
  {
    if |id| != 55 then Err(BadLength)
    else
      match B32Decode(Upper(['f'] + id))
      case None => Err(NotBase32)
      case Some(dec) =>
        if dec[0] != TAG then Err(BadFirstByte)
        else if Sum(crc, Take(dec, 33)) != Drop(dec, 33) then Err(BadChecksum)
        else Ok(dec[1..33])
  }

  /** The 35 bytes that are printed. */
  function Frame(crc: Crc, id: seq<Byte>): (f: seq<Byte>)
    requires |id| == 32
    ensures |f| == 35 && f[0] == TAG && f[1..33] == id
    ensures f[33..] == Sum(crc, f[..33])
  {
    assert ([TAG] + id + Sum(crc, [TAG] + id))[..33] == [TAG] + id;
    [TAG] + id + Sum(crc, [TAG] + id)
  }

  /** The text of an id, lower case. */
  function Encoded(crc: Crc, id: seq<Byte>): (t: Text)
    requires |id| == 32
    ensures |t| == 55
  {
    AdnlIdEncode(crc, id, false).value
  }

  lemma EncodeMeans(crc: Crc, id: seq<Byte>)
    requires |id| == 32
    ensures var e := B32Encode(Frame(crc, id));
            && |e| == 56 && e[0] == 'F'
            && AdnlIdEncode(crc, id, true) == Ok(e[1..])
            && AdnlIdEncode(crc, id, false) == Ok(Lower(e[1..])) == Ok(Encoded(crc, id))
  {
    hide B32Encode;
    B32First(Frame(crc, id));
    assert Chr(B32, 0x2d / 8) == 'F';
  }

  /** The text of every id starts with u, v, w or x, by the upper two bits of the id. */
  lemma EncodedStarts(crc: Crc, id: seq<Byte>)
    requires |id| == 32
    ensures Encoded(crc, id)[0] == ['u', 'v', 'w', 'x'][id[0] / 64]
  {
    hide B32Encode, AdnlIdEncode, Encoded;
    EncodeMeans(crc, id);
    B32Second(Frame(crc, id));
    var e := B32Encode(Frame(crc, id));
    assert Frame(crc, id)[1] == Frame(crc, id)[1..33][0] == id[0];
    assert e[1..][0] == e[1] == Chr(B32, 20 + id[0] / 64);
    assert Lower(e[1..])[0] == LowerChar(e[1..][0]);
  }

  lemma EncodedIsUpper(s: seq<Byte>)
    requires |s| % 5 == 0
    ensures Upper(B32Encode(s)) == B32Encode(s)
  {
    hide Regroup;
    RegroupLength(256, 5, 32, 8, s, |s| / 5);
  }

  lemma PrefixF(t: Text)
    ensures Upper(['f'] + t) == ['F'] + Upper(t)
  {
  }

  /** Prefixing the character that was left off gives back the base32 text. */
  lemma PrefixedText(crc: Crc, id: seq<Byte>, t: Text)
    requires |id| == 32 && |t| == 55
    ensures Upper(['f'] + t) == B32Encode(Frame(crc, id)) <==> Lower(t) == Encoded(crc, id)
  {
    hide B32Encode, UpperChar, LowerChar, AdnlIdEncode, Frame, Encoded;
    var e := B32Encode(Frame(crc, id));
    EncodeMeans(crc, id);
    EncodedIsUpper(Frame(crc, id));
    CaseAgrees(t, e[1..]);
    assert Upper(e)[1..] == Upper(e[1..]);
    PrefixF(t);
    assert e == [e[0]] + e[1..];
    if Upper(['f'] + t) == e {
      assert (['F'] + Upper(t))[1..] == Upper(t);
    }
  }

  lemma AcceptedFrame(crc: Crc, t: Text, id: seq<Byte>)
    requires |id| == 32 && AdnlIdDecode(crc, t) == Ok(id)
    ensures B32Decode(Upper(['f'] + t)) == Some(Frame(crc, id))
  {
    hide B32Decode, Upper;
    var dec := B32Decode(Upper(['f'] + t)).value;
    assert dec == [dec[0]] + dec[1..33] + dec[33..];
    assert dec[..33] == [dec[0]] + dec[1..33];
  }

  /** The decoder accepts, in any letter case, exactly the text of the id it gives. */
  lemma DecodeExact(crc: Crc, t: Text, id: seq<Byte>)
    requires |id| == 32
    ensures AdnlIdDecode(crc, t) == Ok(id) <==> Lower(t) == Encoded(crc, id)
  {
    hide B32Encode, B32Decode, Upper, Lower, AdnlIdEncode, Encoded;
    if |t| == 55 {
      var u := Upper(['f'] + t);
      PrefixedText(crc, id, t);
      if AdnlIdDecode(crc, t) == Ok(id) {
        AcceptedFrame(crc, t, id);
        B32Exact(u, Frame(crc, id));
      }
      if u == B32Encode(Frame(crc, id)) {
        B32RoundTrip(Frame(crc, id));
      }
    }
  }

  /** An id of any length but 32 is refused; the decoder gives every other id back from
      its text, whatever the checksum function and letter case. */
  lemma EncodeRoundTrip(crc: Crc, id: seq<Byte>, upperCase: bool)
    ensures |id| != 32 ==> AdnlIdEncode(crc, id, upperCase) == Err(BadLength)
    ensures |id| == 32 ==> AdnlIdEncode(crc, id, upperCase).Ok?
    ensures |id| == 32 ==> AdnlIdDecode(crc, AdnlIdEncode(crc, id, upperCase).value) == Ok(id)
  {
    hide B32Encode, AdnlIdDecode;
    if |id| == 32 {
      EncodeMeans(crc, id);
      CaseTwice(B32Encode(Frame(crc, id))[1..]);
      DecodeExact(crc, AdnlIdEncode(crc, id, upperCase).value, id);
    }
  }

  /** Whatever the decoder accepts is the text of a 32-byte id, but for letter case. */
  lemma DecodeRoundTrip(crc: Crc, t: Text)
    requires AdnlIdDecode(crc, t).Ok?
    ensures AdnlIdEncode(crc, AdnlIdDecode(crc, t).value, false) == Ok(Lower(t))
  {
    var id := AdnlIdDecode(crc, t).value;
    DecodeExact(crc, t, id);
    EncodeMeans(crc, id);
  }

  // ----- an ADNL id in any form -----

  datatype Input = Raw(bytes: seq<Byte>) | Str(text: Text)

  function ParseAdnlId(crc: Crc, adnlId: Input): Result<Text, Error> {
    match adnlId
    case Raw(bytes) => AdnlIdEncode(crc, bytes, false)
    case Str(text) =>
      if |text| == 55 then
        match AdnlIdDecode(crc, text)
        case Err(e) => Err(e)
        case Ok(_) => Ok(text)
      else
        var buf := if |text| == 64 then FromHex(text) else B64Decode(text);
        if buf.None? || |buf.value| != 32 then Err(BadText)
        else AdnlIdEncode(crc, buf.value, false)
  }

  /** What an input of each form stands for. */
  ghost predicate Denotes(crc: Crc, i: Input, id: seq<Byte>) {
    && |id| == 32
    && match i
       case Raw(bytes) => bytes == id
       case Str(t) => Lower(t) == Encoded(crc, id) || Lower(t) == Hex(id) || IsBase64Of(t, id)
  }

  lemma TextDenotes(crc: Crc, t: Text, id: seq<Byte>)
    requires |id| == 32 && |t| != 55
    ensures Denotes(crc, Str(t), id) <==> (if |t| == 64 then FromHex(t) else B64Decode(t)) == Some(id)
  {
    hide FromHex, B64Decode, Hex, Base64, Num, Lower, Encoded;
    if |t| == 64 {
      HexExact(t, id);
    } else {
      B64Exact(t, id);
    }
  }

  lemma NotBase64(t: Text, id: seq<Byte>)
    requires |id| == 32 && |t| != 44
    ensures !IsBase64Of(t, id)
  {
    hide Base64, Num;
  }

  /** The answer for an id does not depend on the form it came in, but that a text in
      the ADNL form is given back in its own letter case. */
  lemma ParseDenoted(crc: Crc, i: Input, id: seq<Byte>)
    requires Denotes(crc, i, id)
    ensures ParseAdnlId(crc, i) ==
            if i.Str? && |i.text| == 55 then Ok(i.text) else AdnlIdEncode(crc, id, false)
  {
    hide FromHex, B64Decode, AdnlIdDecode, AdnlIdEncode, Lower, Hex, IsBase64Of, Encoded;
    if i.Str? {
      if |i.text| == 55 {
        DecodeExact(crc, i.text, id);
        assert !IsBase64Of(i.text, id) by { NotBase64(i.text, id); }
      } else {
        TextDenotes(crc, i.text, id);
      }
    }
  }

  lemma DecodeIsId(crc: Crc, t: Text)
    requires AdnlIdDecode(crc, t).Ok?
    ensures |AdnlIdDecode(crc, t).value| == 32
  {
    hide B32Decode;
  }

  /** Exactly the inputs that denote an id are accepted. */
  lemma ParseAccepts(crc: Crc, i: Input)
    ensures ParseAdnlId(crc, i).Ok? <==> exists id :: Denotes(crc, i, id)
  {
    hide FromHex, B64Decode, Lower, Hex, IsBase64Of, Encoded, AdnlIdDecode, AdnlIdEncode;
    if id :| Denotes(crc, i, id) {
      ParseDenoted(crc, i, id);
      EncodeRoundTrip(crc, id, false);
    }
    if ParseAdnlId(crc, i).Ok? {
      match i
      case Raw(bytes) =>
        EncodeRoundTrip(crc, bytes, false);
        assert Denotes(crc, i, bytes);
      case Str(t) =>
        if |t| == 55 {
          var id := AdnlIdDecode(crc, t).value;
          DecodeIsId(crc, t);
          DecodeExact(crc, t, id);
          assert Denotes(crc, i, id);
        } else {
          var id := (if |t| == 64 then FromHex(t) else B64Decode(t)).value;
          TextDenotes(crc, t, id);
          assert Denotes(crc, i, id);
        }
    }
  }

  /** Bytes, hex of any letter case and base64 of one id all give its ADNL text. */
  lemma SameAnswer(crc: Crc, id: seq<Byte>, hex: Text)
    requires |id| == 32 && Lower(hex) == Hex(id)
    ensures ParseAdnlId(crc, Raw(id)) == ParseAdnlId(crc, Str(hex)) == ParseAdnlId(crc, Str(Base64(id)))
    ensures ParseAdnlId(crc, Raw(id)) == Ok(Encoded(crc, id)) == ParseAdnlId(crc, Str(Encoded(crc, id)))
  {
    hide AdnlIdEncode, ParseAdnlId, FromHex, B64Decode, Hex, Num, Lower;
    B64RoundTrip(id);
    B64Exact(Base64(id), id);
    EncodeMeans(crc, id);
    CaseTwice(B32Encode(Frame(crc, id))[1..]);
    ParseDenoted(crc, Raw(id), id);
    ParseDenoted(crc, Str(hex), id);
    ParseDenoted(crc, Str(Base64(id)), id);
    ParseDenoted(crc, Str(Encoded(crc, id)), id);
  }

  /** Parsing the answer again changes nothing. */
  lemma ParseIdempotent(crc: Crc, i: Input)
    requires ParseAdnlId(crc, i).Ok?
    ensures ParseAdnlId(crc, Str(ParseAdnlId(crc, i).value)) == ParseAdnlId(crc, i)
  {
    hide FromHex, B64Decode, Lower, Hex, IsBase64Of, Encoded, AdnlIdDecode, AdnlIdEncode, ParseAdnlId;
    ParseAccepts(crc, i);
    var id :| Denotes(crc, i, id);
    ParseDenoted(crc, i, id);
    if i.Raw? || |i.text| != 55 {
      EncodeMeans(crc, id);
      CaseTwice(B32Encode(Frame(crc, id))[1..]);
      ParseDenoted(crc, Str(Encoded(crc, id)), id);
    }
  }
}
