/** Lines for InfluxDB. Tags are printed as key=value with a backslash before every space,
    comma and equals sign of a value; measured fields put text in double quotes, with a
    backslash before every double quote. Neither form escapes the backslash itself. */
module Influx {

  const BACKSLASH: char := '\\'

  /** The characters escaped in tags, and in quoted text. */
  const TAG: set<char> := {' ', ',', '='}
  const QUOTED: set<char> := {'"'}

  ghost predicate IsSpecial(sp: set<char>) {
    sp == TAG || sp == QUOTED
  }

  /** Text that needs no escape: field names, and what numbers print as. */
  predicate IsPlain(s: string) {
    forall i :: 0 <= i < |s| ==> s[i] !in TAG && s[i] !in QUOTED && s[i] != BACKSLASH
  }

  type Plain = s: string | IsPlain(s)

  // ----- printing -----

  /** The substitution that puts a backslash before every special character. */
  function Escape(sp: set<char>, s: string): (r: string)
    ensures (r == "") == (s == "")
  {
    if s == "" then ""
    else if s[0] in sp then [BACKSLASH, s[0]] + Escape(sp, s[1..])
    else [s[0]] + Escape(sp, s[1..])
  }

  /** A float is known by the text it prints as. */
  datatype Value = Null | Boolean(b: bool) | Integer(n: int) | Float(text: Plain) | Str(s: string) | Other

  /** `isStr`: the declared type of the field is a string type. */
  datatype Field = Field(name: Plain, isStr: bool, value: Value)

  function Natural(n: nat): (t: string)
    ensures IsPlain(t)
  {
    if n < 10 then ['0' + n as char] else Natural(n / 10) + ['0' + (n % 10) as char]
  }

  function Decimal(n: int): (t: string)
    ensures IsPlain(t)
  {
    if n < 0 then ['-'] + Natural(-n) else Natural(n)
  }

  /** The number that decimal digits stand for, with a minus sign or without. */
  function ReadNatural(t: string): int {
    if t == "" then 0 else ReadNatural(t[..|t| - 1]) * 10 + (t[|t| - 1] as int - '0' as int)
  }

  function ReadInteger(t: string): int {
    if t != "" && t[0] == '-' then -ReadNatural(t[1..]) else ReadNatural(t)
  }

  lemma {:induction false} NaturalReads(n: nat)
    ensures ReadNatural(Natural(n)) == n && Natural(n) != "" && Natural(n)[0] != '-'
  {
    if n < 10 {
      assert Natural(n)[..0] == "";
    } else {
      NaturalReads(n / 10);
      var t := Natural(n);
      assert t[..|t| - 1] == Natural(n / 10);
    }
  }

  /** The text of an integer reads back as that integer. */
  lemma DecimalReads(n: int)
    ensures ReadInteger(Decimal(n)) == n
  {
    if n < 0 {
      NaturalReads(-n);
      assert Decimal(n)[1..] == Natural(-n);
    } else {
      NaturalReads(n);
    }
  }

  predicate Skipped(f: Field, excludes: seq<string>) {
    f.name in excludes || f.value.Null? || f.value.Other?
  }

  /** What str gives for a value that is printed. */
  function Shown(v: Value): string {
    match v
    case Boolean(b) => if b then "1" else "0"
    case Integer(n) => Decimal(n)
    case Float(text) => text
    case Str(s) => s
    case _ => ""
  }

  /** Numbers and truth values are shown as integers, true as 1 and false as 0. */
  lemma ShownReads(v: Value)
    ensures v.Integer? ==> ReadInteger(Shown(v)) == v.n
    ensures v.Boolean? ==> ReadInteger(Shown(v)) == if v.b then 1 else 0
    ensures v.Str? ==> Shown(v) == v.s
    ensures v.Float? ==> Shown(v) == v.text
  {
    if v.Integer? {
      DecimalReads(v.n);
    }
    if v.Boolean? {
      assert "1"[..0] == "" && "0"[..0] == "";
      assert ReadNatural("1") == 1 && ReadNatural("0") == 0;
    }
  }

  function StrValue(s: string): string {
    ['"'] + Escape(QUOTED, s) + ['"']
  }

  function OrNull(s: string): string {
    if s == "" then "null" else s
  }

  function ValueText(f: Field, escape: bool): string {
    if !f.isStr then Shown(f.value)
    else OrNull(if escape then Escape(TAG, Shown(f.value)) else StrValue(Shown(f.value)))
  }

  function Printed(fs: seq<Field>, excludes: seq<string>, escape: bool): seq<string> {
    if fs == [] then []
    else if Skipped(fs[|fs| - 1], excludes) then Printed(fs[..|fs| - 1], excludes, escape)
    else Printed(fs[..|fs| - 1], excludes, escape)
         + [fs[|fs| - 1].name + ['='] + ValueText(fs[|fs| - 1], escape)]
  }

  function Join(parts: seq<string>): string {
    if parts == [] then "" else if |parts| == 1 then parts[0] else parts[0] + [','] + Join(parts[1..])
  }

  method DataclassToInflux(fs: seq<Field>, excludes: seq<string>, escape: bool) returns (line: string)
    ensures line == Join(Printed(fs, excludes, escape))
  {
    var kv: seq<string> := [];
    for i := 0 to |fs|
      invariant kv == Printed(fs[..i], excludes, escape)
    {
      var f := fs[i];
      assert fs[..i + 1][..i] == fs[..i];
      if f.name in excludes {
        continue;
      }
      if f.value.Null? {
        continue;
      }
      if f.value.Other? {
        continue;
      }
      var value := Shown(f.value);
      if f.isStr {
        value := if escape then Escape(TAG, value) else StrValue(value);
        if value == "" {
          value := "null";
        }
      }
      kv := kv + [f.name + ['='] + value];
    }
    assert fs[..|fs|] == fs;
    line := Join(kv);
  }

  // ----- reading -----

  /** A character of the text, or a special character that stands unescaped. */
  datatype Token = Char(c: char) | Sep(c: char)

  function Tokenize(sp: set<char>, s: string): seq<Token> {
    if s == "" then []
    else if s[0] == BACKSLASH && |s| > 1 && s[1] in sp then [Char(s[1])] + Tokenize(sp, s[2..])
    else [if s[0] in sp then Sep(s[0]) else Char(s[0])] + Tokenize(sp, s[1..])
  }

  function Chars(s: string): (t: seq<Token>)
    ensures |t| == |s| && forall i :: 0 <= i < |s| ==> t[i] == Char(s[i])
  {
    seq(|s|, i requires 0 <= i < |s| => Char(s[i]))
  }

  function Text(t: seq<Token>): (s: string)
    ensures |s| == |t| && forall i :: 0 <= i < |t| ==> s[i] == t[i].c
  {
    seq(|t|, i requires 0 <= i < |t| => t[i].c)
  }

  /** The position of the first token that is `stop`, or the length. */
  function Find(t: seq<Token>, stop: Token): (k: nat)
    ensures k <= |t| && forall i :: 0 <= i < k ==> t[i] != stop
    ensures k < |t| ==> t[k] == stop
  {
    if t == [] || t[0] == stop then 0 else 1 + Find(t[1..], stop)
  }

  /** A key and what its value reads as. */
  datatype Item = Item(key: string, quoted: bool, text: string)

  /** Splits a tag at its first unescaped equals sign. */
  function TagItem(t: seq<Token>): Item {
    var equals := Find(t, Sep('='));
    Item(Text(t[..equals]), false, Text(if equals < |t| then t[equals + 1..] else []))
  }

  /** Reads up to the first unescaped comma, and gives what follows it. */
  function ReadTag(t: seq<Token>): (r: (Item, seq<Token>))
    ensures |r.1| < |t| || r.1 == []
  {
    var comma := Find(t, Sep(','));
    (TagItem(t[..comma]), if comma < |t| then t[comma + 1..] else [])
  }

  function ReadTags(t: seq<Token>): (items: seq<Item>)
    decreases |t|
  {
    if t == [] then [] else [ReadTag(t).0] + ReadTags(ReadTag(t).1)
  }

  /** Reads a value, and what follows the comma after it. One that starts with an
      unescaped quote ends at the next one, and any other at a comma. */
  function ReadValue(key: string, value: seq<Token>): (r: (Item, seq<Token>))
    ensures |r.1| < |value| || r.1 == []
  {
    if value != [] && value[0] == Sep('"') then
      var quote := Find(value[1..], Sep('"'));
      var after := if quote < |value| - 1 then value[quote + 2..] else [];
      (Item(key, true, Text(value[1..][..quote])), if after != [] && after[0] == Char(',') then after[1..] else [])
    else
      var comma := Find(value, Char(','));
      (Item(key, false, Text(value[..comma])), if comma < |value| then value[comma + 1..] else [])
  }

  function ReadField(t: seq<Token>): (r: (Item, seq<Token>))
    ensures |r.1| < |t| || r.1 == []
  {
    var equals := Find(t, Char('='));
    ReadValue(Text(t[..equals]), if equals < |t| then t[equals + 1..] else [])
  }

  function ReadFields(t: seq<Token>): (items: seq<Item>)
    decreases |t|
  {
    if t == [] then [] else [ReadField(t).0] + ReadFields(ReadField(t).1)
  }

  function Decode(line: string, escape: bool): seq<Item> {
    if escape then ReadTags(Tokenize(TAG, line)) else ReadFields(Tokenize(QUOTED, line))
  }

  // ----- tokens of printed text -----

  predicate EndsInBackslash(s: string) {
    s != "" && s[|s| - 1] == BACKSLASH
  }

  lemma TokenizeOne(sp: set<char>, c: char, t: string)
    requires c == BACKSLASH && t != "" ==> t[0] !in sp
    ensures Tokenize(sp, [c] + t) == [if c in sp then Sep(c) else Char(c)] + Tokenize(sp, t)
  {
    var s := [c] + t;
    assert s[1..] == t;
    assert |s| > 1 ==> s[1] == t[0];
  }

  lemma TokenizePair(sp: set<char>, c: char, t: string)
    requires c in sp
    ensures Tokenize(sp, [BACKSLASH, c] + t) == [Char(c)] + Tokenize(sp, t)
  {
    assert ([BACKSLASH, c] + t)[2..] == t;
  }

  lemma EscapeStart(sp: set<char>, s: string)
    requires BACKSLASH !in sp && s != ""
    ensures Escape(sp, s)[0] !in sp
  {
  }

  lemma EscapeOne(sp: set<char>, s: string, t: string)
    requires s != ""
    ensures Escape(sp, s) + t ==
            if s[0] in sp then [BACKSLASH, s[0]] + (Escape(sp, s[1..]) + t) else [s[0]] + (Escape(sp, s[1..]) + t)
  {
  }

  lemma CharsOne(s: string)
    requires s != ""
    ensures Chars(s) == [Char(s[0])] + Chars(s[1..])
  {
  }

  lemma ConsJoin(a: Token, b: seq<Token>, c: seq<Token>)
    ensures [a] + b + c == [a] + (b + c)
  {
  }

  /** Reading escaped text gives its characters, unless it ends in a backslash and a
      special character follows. */
  lemma {:induction false} TokenizeEscape(sp: set<char>, s: string, t: string)
    requires BACKSLASH !in sp
    requires EndsInBackslash(s) && t != "" ==> t[0] !in sp
    ensures Tokenize(sp, Escape(sp, s) + t) == Chars(s) + Tokenize(sp, t)
  {
    hide Escape, Tokenize, Chars;
    if s == "" {
      assert Escape(sp, s) + t == t;
    } else {
      var e := Escape(sp, s[1..]) + t;
      TokenizeEscape(sp, s[1..], t);
      CharsOne(s);
      EscapeOne(sp, s, t);
      ConsJoin(Char(s[0]), Chars(s[1..]), Tokenize(sp, t));
      if s[0] in sp {
        TokenizePair(sp, s[0], e);
      } else {
        if s[1..] != "" {
          EscapeStart(sp, s[1..]);
        }
        TokenizeOne(sp, s[0], e);
      }
    }
  }

  lemma TokenizeNone(sp: set<char>)
    ensures Tokenize(sp, "") == []
  {
  }

  /** A cut between tokens: after any character but a backslash. */
  lemma {:induction false} TokenizeJoin(sp: set<char>, s: string, t: string)
    requires !EndsInBackslash(s)
    ensures Tokenize(sp, s + t) == Tokenize(sp, s) + Tokenize(sp, t)
  {
    hide Tokenize;
    if s == "" {
      TokenizeNone(sp);
      assert s + t == t;
    } else if s[0] == BACKSLASH && s[1] in sp {
      var u := s[2..];
      assert s == [BACKSLASH, s[1]] + u && s + t == [BACKSLASH, s[1]] + (u + t);
      TokenizeJoin(sp, u, t);
      TokenizePair(sp, s[1], u);
      TokenizePair(sp, s[1], u + t);
      ConsJoin(Char(s[1]), Tokenize(sp, u), Tokenize(sp, t));
    } else {
      var u := s[1..];
      assert s == [s[0]] + u && s + t == [s[0]] + (u + t);
      TokenizeJoin(sp, u, t);
      TokenizeOne(sp, s[0], u);
      TokenizeOne(sp, s[0], u + t);
      ConsJoin(if s[0] in sp then Sep(s[0]) else Char(s[0]), Tokenize(sp, u), Tokenize(sp, t));
    }
  }

  lemma {:induction false} EscapeSnoc(sp: set<char>, s: string, c: char)
    requires c !in sp
    ensures Escape(sp, s + [c]) == Escape(sp, s) + [c]
  {
    if s == "" {
      assert s + [c] == [c] && [c][1..] == "";
    } else {
      assert (s + [c])[1..] == s[1..] + [c];
      EscapeSnoc(sp, s[1..], c);
    }
  }

  lemma Regroup(e: string, b: char, c: char, t: string)
    ensures (e + [b]) + ([c] + t) == e + ([b, c] + t)
  {
  }

  /** In the case left out, the last backslash and the special character become one. */
  lemma TokenizeSwallow(sp: set<char>, s: string, c: char, t: string)
    requires BACKSLASH !in sp && EndsInBackslash(s) && c in sp
    ensures Tokenize(sp, Escape(sp, s) + ([c] + t)) == Chars(s[..|s| - 1]) + [Char(c)] + Tokenize(sp, t)
  {
    hide Escape, Tokenize;
    var w := s[..|s| - 1];
    assert s == w + [BACKSLASH];
    EscapeSnoc(sp, w, BACKSLASH);
    Regroup(Escape(sp, w), BACKSLASH, c, t);
    TokenizeEscape(sp, w, [BACKSLASH, c] + t);
    TokenizePair(sp, c, t);
  }

  lemma {:induction false} EscapePlain(sp: set<char>, s: string)
    requires forall i :: 0 <= i < |s| ==> s[i] !in sp
    ensures Escape(sp, s) == s
  {
    if s == "" {
    } else {
      EscapePlain(sp, s[1..]);
    }
  }

  // ----- text that is printed raw -----

  /** No backslash stands before a special character. */
  predicate NoPairs(sp: set<char>, s: string) {
    forall i :: 0 <= i < |s| - 1 && s[i] == BACKSLASH ==> s[i + 1] !in sp
  }

  function Raws(sp: set<char>, s: string): (t: seq<Token>)
    ensures |t| == |s| && forall i :: 0 <= i < |s| ==> t[i] == if s[i] in sp then Sep(s[i]) else Char(s[i])
  {
    seq(|s|, i requires 0 <= i < |s| => if s[i] in sp then Sep(s[i]) else Char(s[i]))
  }

  lemma RawsBack(sp: set<char>, s: string)
    ensures Text(Raws(sp, s)) == s
  {
  }

  lemma RawsOne(sp: set<char>, s: string)
    requires s != ""
    ensures Raws(sp, s) == [if s[0] in sp then Sep(s[0]) else Char(s[0])] + Raws(sp, s[1..])
  {
  }

  lemma {:induction false} TokenizeRaw(sp: set<char>, s: string, t: string)
    requires NoPairs(sp, s) && (EndsInBackslash(s) && t != "" ==> t[0] !in sp)
    ensures Tokenize(sp, s + t) == Raws(sp, s) + Tokenize(sp, t)
  {
    hide Tokenize, Raws;
    if s == "" {
      assert s + t == t && Raws(sp, s) == [];
    } else {
      var u := s[1..];
      assert NoPairs(sp, u) by {
        assert forall i :: 0 <= i < |u| ==> u[i] == s[i + 1];
      }
      TokenizeRaw(sp, u, t);
      RawsOne(sp, s);
      assert s + t == [s[0]] + (u + t);
      TokenizeOne(sp, s[0], u + t);
      ConsJoin(if s[0] in sp then Sep(s[0]) else Char(s[0]), Raws(sp, u), Tokenize(sp, t));
    }
  }

  lemma TokenizePlain(sp: set<char>, s: string, t: string)
    requires IsSpecial(sp) && IsPlain(s)
    ensures Tokenize(sp, s + t) == Chars(s) + Tokenize(sp, t)
  {
    hide Tokenize;
    TokenizeRaw(sp, s, t);
    assert Raws(sp, s) == Chars(s);
  }

  /** Raw text that keeps together: no comma, and nothing for a reader to unescape. */
  predicate RawOk(sp: set<char>, s: string) {
    NoPairs(sp, s) && ',' !in s
  }

  lemma FlawBehind(sp: set<char>, s: string)
    requires !RawOk(sp, s)
    ensures s != ""
    ensures s[0] != ',' && !(s[0] == BACKSLASH && |s| > 1 && s[1] in sp) ==> !RawOk(sp, s[1..])
  {
    if s != "" && RawOk(sp, s[1..]) {
      assert s == [s[0]] + s[1..];
      assert forall i :: 0 < i < |s| ==> s[i] == s[1..][i - 1];
    }
  }

  lemma RawOkCons(sp: set<char>, c: char, w: string)
    requires RawOk(sp, w) && c != ',' && (c == BACKSLASH && w != "" ==> w[0] !in sp)
    ensures RawOk(sp, [c] + w)
  {
    var s := [c] + w;
    assert forall i :: 0 < i < |s| ==> s[i] == w[i - 1];
  }

  /** Text that does not is cut at its first flaw. */
  lemma {:induction false} FirstFlaw(sp: set<char>, s: string) returns (w: string, u: string)
    requires !RawOk(sp, s)
    ensures s == w + u && RawOk(sp, w) && u != "" && (EndsInBackslash(w) ==> u[0] !in sp)
    ensures u[0] == ',' || (u[0] == BACKSLASH && |u| > 1 && u[1] in sp)
  {
    if s[0] == ',' || (s[0] == BACKSLASH && |s| > 1 && s[1] in sp) {
      w, u := "", s;
    } else {
      var v := s[1..];
      assert s == [s[0]] + v;
      FlawBehind(sp, s);
      w, u := FirstFlaw(sp, v);
      assert v == w + u;
      assert w != "" ==> w[0] == v[0];
      assert w == "" ==> u[0] == v[0];
      RawOkCons(sp, s[0], w);
      w := [s[0]] + w;
    }
  }

  /** What follows raw text up to its first flaw. */
  lemma TokenizeFlaw(sp: set<char>, w: string, u: string, t: string)
    requires IsSpecial(sp) && RawOk(sp, w) && u != "" && (EndsInBackslash(w) ==> u[0] !in sp)
    requires u[0] == ',' || (u[0] == BACKSLASH && |u| > 1 && u[1] in sp)
    ensures u[0] == ',' ==> Tokenize(sp, (w + u) + t) == Raws(sp, w) + ([if ',' in sp then Sep(',') else Char(',')]
                                                          + Tokenize(sp, u[1..] + t))
    ensures u[0] != ',' ==> Tokenize(sp, (w + u) + t) == Raws(sp, w) + ([Char(u[1])] + Tokenize(sp, u[2..] + t))
  {
    hide Tokenize, Raws;
    assert (w + u) + t == w + (u + t);
    TokenizeRaw(sp, w, u + t);
    if u[0] == ',' {
      assert u + t == [','] + (u[1..] + t);
      TokenizeOne(sp, ',', u[1..] + t);
    } else {
      assert u + t == [BACKSLASH, u[1]] + (u[2..] + t);
      TokenizePair(sp, u[1], u[2..] + t);
    }
  }

  // ----- what a line reads as -----

  /** How a value is printed: as it is, with the escapes of a tag, or in quotes. */
  datatype Kind = Raw | Escaped | Quoted

  datatype Part = Part(key: string, kind: Kind, text: string)

  /** What a reader should get back. */
  function Meaning(p: Part): Item {
    Item(p.key, p.kind == Quoted, p.text)
  }

  function Meanings(parts: seq<Part>): (items: seq<Item>)
    ensures |items| == |parts| && forall i :: 0 <= i < |items| ==> items[i] == Meaning(parts[i])
  {
    seq(|parts|, i requires 0 <= i < |parts| => Meaning(parts[i]))
  }

  /** Keys are plain; tags are never quoted and fields never escaped. */
  predicate Printable(p: Part, escape: bool) {
    IsPlain(p.key) && p.kind != (if escape then Quoted else Escaped)
  }

  function PrintPart(p: Part): string {
    p.key + ['='] + (match p.kind
                     case Raw => p.text
                     case Escaped => Escape(TAG, p.text)
                     case Quoted => StrValue(p.text))
  }

  function PrintAll(parts: seq<Part>): (texts: seq<string>)
    ensures |texts| == |parts| && forall i :: 0 <= i < |texts| ==> texts[i] == PrintPart(parts[i])
  {
    seq(|parts|, i requires 0 <= i < |parts| => PrintPart(parts[i]))
  }

  /** When a value reads back, with more behind it or not: a tag before a comma does not
      end in a backslash, and neither does quoted text; raw text keeps together, and does
      not look quoted where that is possible. */
  predicate PartOk(p: Part, escape: bool, more: bool) {
    match p.kind
    case Escaped => more ==> !EndsInBackslash(p.text)
    case Quoted => !EndsInBackslash(p.text)
    case Raw =>
      if escape then RawOk(TAG, p.text) && (more ==> !EndsInBackslash(p.text))
      else RawOk(QUOTED, p.text) && !(p.text != "" && p.text[0] == '"')
  }

  predicate Readable(parts: seq<Part>, escape: bool) {
    forall i :: 0 <= i < |parts| ==> PartOk(parts[i], escape, i < |parts| - 1)
  }

  lemma ReadableStep(parts: seq<Part>, escape: bool)
    requires parts != []
    ensures Readable(parts, escape) <==> PartOk(parts[0], escape, |parts| > 1) && Readable(parts[1..], escape)
  {
    hide PartOk;
    var rest := parts[1..];
    assert forall i :: 0 <= i < |rest| ==> rest[i] == parts[i + 1];
    if Readable(parts, escape) {
      forall i | 0 <= i < |rest| ensures PartOk(rest[i], escape, i < |rest| - 1) {
        assert PartOk(parts[i + 1], escape, i + 1 < |parts| - 1);
      }
    }
    if PartOk(parts[0], escape, |parts| > 1) && Readable(rest, escape) {
      forall i | 0 <= i < |parts| ensures PartOk(parts[i], escape, i < |parts| - 1) {
        assert i > 0 ==> PartOk(rest[i - 1], escape, i - 1 < |rest| - 1);
      }
    }
  }

  lemma FindAt(t: seq<Token>, stop: Token, k: nat)
    requires k <= |t| && forall i :: 0 <= i < k ==> t[i] != stop
    requires k < |t| ==> t[k] == stop
    ensures Find(t, stop) == k
  {
  }

  lemma FindAfter(t: seq<Token>, stop: Token, k: nat)
    requires k <= |t| && forall i :: 0 <= i < k ==> t[i] != stop
    ensures Find(t, stop) >= k
  {
  }

  lemma CharsBack(s: string)
    ensures Text(Chars(s)) == s
  {
  }

  predicate Without(t: seq<Token>, stop: Token) {
    forall i :: 0 <= i < |t| ==> t[i] != stop
  }

  // ----- tags -----

  /** The first equals sign is the one after the key. */
  lemma TagSplits(k: string, v: seq<Token>)
    ensures TagItem(Chars(k) + [Sep('=')] + v) == Item(k, false, Text(v))
  {
    hide Find, Chars, Text;
    var t := Chars(k) + [Sep('=')] + v;
    FindAt(t, Sep('='), |k|);
    assert t[..|k|] == Chars(k) && t[|k| + 1..] == v;
    CharsBack(k);
  }

  lemma ReadUpTo(p: seq<Token>, more: bool, rest: seq<Token>)
    requires Without(p, Sep(','))
    ensures ReadTag(p + (if more then [Sep(',')] + rest else [])) == (TagItem(p), if more then rest else [])
  {
    hide Find, TagItem;
    var t := p + (if more then [Sep(',')] + rest else []);
    FindAt(t, Sep(','), |p|);
    assert t[..|p|] == p;
    assert more ==> t[|p| + 1..] == rest;
  }

  lemma TagsStep(k: string, v: seq<Token>, more: bool, rest: seq<Token>)
    requires Without(v, Sep(','))
    ensures ReadTag(Chars(k) + [Sep('=')] + v + (if more then [Sep(',')] + rest else []))
            == (Item(k, false, Text(v)), if more then rest else [])
  {
    hide Find, Chars, Text, ReadTag, TagItem;
    TagSplits(k, v);
    ReadUpTo(Chars(k) + [Sep('=')] + v, more, rest);
  }

  /** A character that was swallowed shows in the value. */
  lemma TagsSwallow(k: string, w: seq<Token>, c: char, rest: seq<Token>)
    requires Without(w, Sep(','))
    ensures var r := ReadTag(Chars(k) + [Sep('=')] + (w + ([Char(c)] + rest))).0;
            |r.text| > |w| && r.text[|w|] == c
  {
    hide Find, Chars, TagItem;
    var p := Chars(k) + [Sep('=')] + w + [Char(c)];
    var t := Chars(k) + [Sep('=')] + (w + ([Char(c)] + rest));
    assert t == p + rest;
    FindAfter(t, Sep(','), |p|);
    var comma := Find(t, Sep(','));
    var u := p + t[|p|..comma];
    assert t[..comma] == u;
    var v := w + ([Char(c)] + t[|p|..comma]);
    assert u == Chars(k) + [Sep('=')] + v;
    TagSplits(k, v);
    assert v[|w|] == Char(c);
  }

  lemma AddJoin(a: seq<Token>, b: Token, c: seq<Token>)
    ensures a + ([b] + c) == a + [b] + c
  {
  }

  /** The key of a tag is read, and then the tokens of its value and the rest. */
  lemma TagKey(k: string, value: string)
    requires IsPlain(k)
    ensures Tokenize(TAG, k + ['='] + value) == Chars(k) + [Sep('=')] + Tokenize(TAG, value)
  {
    hide Tokenize;
    assert k + ['='] + value == k + (['='] + value);
    TokenizePlain(TAG, k, ['='] + value);
    TokenizeOne(TAG, '=', value);
    AddJoin(Chars(k), Sep('='), Tokenize(TAG, value));
  }

  function Tail(more: bool, rest: string): string {
    if more then [','] + rest else ""
  }

  lemma TagTail(more: bool, rest: string)
    ensures Tokenize(TAG, Tail(more, rest)) == if more then [Sep(',')] + Tokenize(TAG, rest) else []
  {
    hide Tokenize;
    TokenizeNone(TAG);
    if more {
      TokenizeOne(TAG, ',', rest);
    }
  }

  lemma CharsWithout(s: string)
    ensures Without(Chars(s), Sep(',')) && Without(Chars(s), Sep(' ')) && Without(Chars(s), Sep('"'))
  {
  }

  lemma TailMore(rest: string)
    ensures Tail(true, rest) == [','] + rest
  {
  }

  lemma TailStart(more: bool, rest: string)
    ensures if more then Tail(more, rest) != "" && Tail(more, rest)[0] == ',' else Tail(more, rest) == ""
  {
  }

  lemma SplitJoin(a: seq<Token>, b: seq<Token>, c: seq<Token>)
    ensures a + (b + c) == a + b + c
  {
  }

  lemma TagEscaped(k: string, v: string, more: bool, rest: string)
    requires IsPlain(k)
    ensures var r := ReadTag(Tokenize(TAG, k + ['='] + (Escape(TAG, v) + Tail(more, rest))));
            if more ==> !EndsInBackslash(v)
            then r == (Item(k, false, v), if more then Tokenize(TAG, rest) else [])
            else r.0 != Item(k, false, v)
  {
    hide Tokenize, Escape, ReadTag, Chars, Without, Tail;
    var tail := Tail(more, rest);
    TagKey(k, Escape(TAG, v) + tail);
    TagTail(more, rest);
    if more && EndsInBackslash(v) {
      var w := v[..|v| - 1];
      assert tail == [','] + rest by { TailMore(rest); }
      TokenizeSwallow(TAG, v, ',', rest);
      CharsWithout(w);
      TagsSwallow(k, Chars(w), ',', Tokenize(TAG, rest));
      AddJoin(Chars(w), Char(','), Tokenize(TAG, rest));
    } else {
      TailStart(more, rest);
      TokenizeEscape(TAG, v, tail);
      CharsWithout(v);
      CharsBack(v);
      TagsStep(k, Chars(v), more, Tokenize(TAG, rest));
      SplitJoin(Chars(k) + [Sep('=')], Chars(v), Tokenize(TAG, tail));
    }
  }

  lemma RawsWithout(sp: set<char>, v: string)
    requires ',' !in v
    ensures Without(Raws(sp, v), Sep(',')) && Without(Raws(sp, v), Char(','))
  {
  }

  lemma RawIsRaw(sp: set<char>, v: string)
    requires RawOk(sp, v)
    ensures NoPairs(sp, v) && ',' !in v
  {
  }

  lemma TagFlawed(k: string, v: string, tail: string)
    requires IsPlain(k) && !RawOk(TAG, v)
    ensures ReadTag(Chars(k) + [Sep('=')] + Tokenize(TAG, v + tail)).0.text != v
  {
    hide Tokenize, ReadTag, Chars, Raws, Without, RawOk;
    var w, u := FirstFlaw(TAG, v);
    RawIsRaw(TAG, w);
    RawsWithout(TAG, w);
    RawsBack(TAG, w);
    TokenizeFlaw(TAG, w, u, tail);
    if u[0] == ',' {
      TagsStep(k, Raws(TAG, w), true, Tokenize(TAG, u[1..] + tail));
      SplitJoin(Chars(k) + [Sep('=')], Raws(TAG, w), [Sep(',')] + Tokenize(TAG, u[1..] + tail));
    } else {
      TagsSwallow(k, Raws(TAG, w), u[1], Tokenize(TAG, u[2..] + tail));
      assert v[|w|] == BACKSLASH && BACKSLASH !in TAG;
    }
  }

  lemma TagRawSwallow(k: string, v: string, rest: string)
    requires NoPairs(TAG, v) && ',' !in v && EndsInBackslash(v)
    ensures ReadTag(Chars(k) + [Sep('=')] + Tokenize(TAG, v + Tail(true, rest))).0.text != v
  {
    hide Tokenize, ReadTag, Chars, Raws, Without;
    var w := v[..|v| - 1];
    assert v + Tail(true, rest) == w + ([BACKSLASH, ','] + rest);
    TokenizeRaw(TAG, w, [BACKSLASH, ','] + rest);
    TokenizePair(TAG, ',', rest);
    RawsWithout(TAG, w);
    TagsSwallow(k, Raws(TAG, w), ',', Tokenize(TAG, rest));
  }

  lemma TagRaw(k: string, v: string, more: bool, rest: string)
    requires IsPlain(k)
    ensures var r := ReadTag(Tokenize(TAG, k + ['='] + (v + Tail(more, rest))));
            if RawOk(TAG, v) && (more ==> !EndsInBackslash(v))
            then r == (Item(k, false, v), if more then Tokenize(TAG, rest) else [])
            else r.0 != Item(k, false, v)
  {
    hide Tokenize, ReadTag, Chars, Raws, Without, Tail, RawOk;
    TagKey(k, v + Tail(more, rest));
    if !RawOk(TAG, v) {
      TagFlawed(k, v, Tail(more, rest));
    } else {
      RawIsRaw(TAG, v);
      if more && EndsInBackslash(v) {
        TagRawSwallow(k, v, rest);
      } else {
        TailStart(more, rest);
        TokenizeRaw(TAG, v, Tail(more, rest));
        TagTail(more, rest);
        RawsWithout(TAG, v);
        RawsBack(TAG, v);
        TagsStep(k, Raws(TAG, v), more, Tokenize(TAG, rest));
        SplitJoin(Chars(k) + [Sep('=')], Raws(TAG, v), Tokenize(TAG, Tail(more, rest)));
      }
    }
  }

  // ----- measured fields -----

  /** Key and equals sign come off the front. */
  lemma FieldKey(k: string, value: string)
    requires IsPlain(k)
    ensures ReadField(Tokenize(QUOTED, k + ['='] + value)) == ReadValue(k, Tokenize(QUOTED, value))
  {
    hide ReadValue, Find, Tokenize;
    assert k + ['='] + value == k + (['='] + value);
    TokenizePlain(QUOTED, k, ['='] + value);
    TokenizeOne(QUOTED, '=', value);
    var v := Tokenize(QUOTED, value);
    var t := Chars(k) + [Char('=')] + v;
    AddJoin(Chars(k), Char('='), v);
    assert '=' in TAG;
    FindAt(t, Char('='), |k|);
    assert t[..|k|] == Chars(k) && t[|k| + 1..] == v;
    CharsBack(k);
  }

  lemma FieldTail(more: bool, rest: string)
    ensures Tokenize(QUOTED, Tail(more, rest)) == if more then [Char(',')] + Tokenize(QUOTED, rest) else []
  {
    hide Tokenize;
    TokenizeNone(QUOTED);
    if more {
      TokenizeOne(QUOTED, ',', rest);
    }
  }

  lemma RawValue(k: string, v: seq<Token>, more: bool, rest: seq<Token>)
    requires Without(v, Char(',')) && (v != [] ==> v[0] != Sep('"'))
    ensures ReadValue(k, v + (if more then [Char(',')] + rest else []))
            == (Item(k, false, Text(v)), if more then rest else [])
  {
    hide Find, Text;
    var value := v + (if more then [Char(',')] + rest else []);
    assert value != [] ==> value[0] == if v != [] then v[0] else Char(',');
    FindAt(value, Char(','), |v|);
    assert value[..|v|] == v;
    assert more ==> value[|v| + 1..] == rest;
  }

  /** A quote that was swallowed shows in the value. */
  lemma RawSwallowed(k: string, w: seq<Token>, c: char, rest: seq<Token>)
    requires Without(w, Char(',')) && (w != [] ==> w[0] != Sep('"')) && c != ','
    ensures var r := ReadValue(k, w + ([Char(c)] + rest)).0;
            |r.text| > |w| && r.text[|w|] == c
  {
    hide Find;
    var value := w + ([Char(c)] + rest);
    assert value[0] == if w != [] then w[0] else Char(c);
    assert forall i :: 0 <= i <= |w| ==> value[i] == if i < |w| then w[i] else Char(c);
    FindAfter(value, Char(','), |w| + 1);
  }

  lemma LooksQuoted(k: string, rest: seq<Token>)
    ensures ReadValue(k, [Sep('"')] + rest).0.quoted
  {
  }

  lemma FieldFlawed(k: string, v: string, tail: string)
    requires !RawOk(QUOTED, v) && (v != "" ==> v[0] != '"')
    ensures ReadValue(k, Tokenize(QUOTED, v + tail)).0.text != v
  {
    hide Tokenize, ReadValue, Raws, Without, RawOk;
    var w, u := FirstFlaw(QUOTED, v);
    RawIsRaw(QUOTED, w);
    RawsWithout(QUOTED, w);
    RawsBack(QUOTED, w);
    TokenizeFlaw(QUOTED, w, u, tail);
    assert w != "" ==> w[0] == v[0];
    if u[0] == ',' {
      RawValue(k, Raws(QUOTED, w), true, Tokenize(QUOTED, u[1..] + tail));
    } else {
      RawSwallowed(k, Raws(QUOTED, w), u[1], Tokenize(QUOTED, u[2..] + tail));
      assert v[|w|] == BACKSLASH && u[1] == '"';
    }
  }

  lemma FieldRaw(k: string, v: string, more: bool, rest: string)
    ensures var r := ReadValue(k, Tokenize(QUOTED, v + Tail(more, rest)));
            if RawOk(QUOTED, v) && !(v != "" && v[0] == '"')
            then r == (Item(k, false, v), if more then Tokenize(QUOTED, rest) else [])
            else r.0 != Item(k, false, v)
  {
    hide Tokenize, ReadValue, Raws, Without, Tail, RawOk;
    if v != "" && v[0] == '"' {
      assert v + Tail(more, rest) == ['"'] + (v[1..] + Tail(more, rest));
      TokenizeOne(QUOTED, '"', v[1..] + Tail(more, rest));
      LooksQuoted(k, Tokenize(QUOTED, v[1..] + Tail(more, rest)));
    } else if !RawOk(QUOTED, v) {
      FieldFlawed(k, v, Tail(more, rest));
    } else {
      RawIsRaw(QUOTED, v);
      TailStart(more, rest);
      TokenizeRaw(QUOTED, v, Tail(more, rest));
      FieldTail(more, rest);
      RawsWithout(QUOTED, v);
      RawsBack(QUOTED, v);
      RawValue(k, Raws(QUOTED, v), more, Tokenize(QUOTED, rest));
    }
  }

  lemma Enclosed(mark: Token, c: seq<Token>, end: seq<Token>)
    requires Without(c, mark)
    ensures var inner := c + ([mark] + end);
            var value := [mark] + inner;
            && value[1..] == inner && Find(inner, mark) == |c| && inner[..|c|] == c
            && value[|c| + 2..] == end
  {
    hide Find;
    FindAt(c + ([mark] + end), mark, |c|);
  }

  lemma QuotedValue(k: string, v: string, more: bool, rest: seq<Token>)
    ensures ReadValue(k, [Sep('"')] + (Chars(v) + ([Sep('"')] + (if more then [Char(',')] + rest else []))))
            == (Item(k, true, v), if more then rest else [])
  {
    hide Find, Text, Chars;
    var end := if more then [Char(',')] + rest else [];
    CharsWithout(v);
    Enclosed(Sep('"'), Chars(v), end);
    assert more ==> end[1..] == rest;
    CharsBack(v);
  }

  lemma SwallowedValue(k: string, w: string, c: char, rest: seq<Token>)
    ensures var r := ReadValue(k, [Sep('"')] + (Chars(w) + [Char(c)] + rest)).0;
            |r.text| > |w| && r.text[|w|] == c
  {
    hide Find, Chars;
    var inner := Chars(w) + [Char(c)] + rest;
    var value := [Sep('"')] + inner;
    assert value[1..] == inner;
    FindAfter(inner, Sep('"'), |w| + 1);
    assert inner[|w|] == Char(c);
  }

  lemma FieldQuoted(k: string, v: string, more: bool, rest: string)
    ensures var r := ReadValue(k, Tokenize(QUOTED, ['"'] + (Escape(QUOTED, v) + (['"'] + Tail(more, rest)))));
            if !EndsInBackslash(v)
            then r == (Item(k, true, v), if more then Tokenize(QUOTED, rest) else [])
            else r.0 != Item(k, true, v)
  {
    hide Tokenize, Escape, ReadValue, Chars, Tail;
    var tail := Tail(more, rest);
    TokenizeOne(QUOTED, '"', Escape(QUOTED, v) + (['"'] + tail));
    if EndsInBackslash(v) {
      TokenizeSwallow(QUOTED, v, '"', tail);
      SwallowedValue(k, v[..|v| - 1], '"', Tokenize(QUOTED, tail));
    } else {
      TokenizeEscape(QUOTED, v, ['"'] + tail);
      TokenizeOne(QUOTED, '"', tail);
      FieldTail(more, rest);
      QuotedValue(k, v, more, Tokenize(QUOTED, rest));
    }
  }

  // ----- the whole line -----

  /** What the reader of the first part makes of the line. */
  function ReadFirst(line: string, escape: bool): (Item, seq<Token>) {
    if escape then ReadTag(Tokenize(TAG, line)) else ReadField(Tokenize(QUOTED, line))
  }

  lemma PartText(p: Part, tail: string)
    ensures PrintPart(p) + tail == p.key + ['='] +
              (match p.kind
               case Raw => p.text + tail
               case Escaped => Escape(TAG, p.text) + tail
               case Quoted => ['"'] + (Escape(QUOTED, p.text) + (['"'] + tail)))
  {
    hide Escape;
  }

  lemma FirstReads(p: Part, escape: bool, more: bool, rest: string)
    requires Printable(p, escape)
    ensures var r := ReadFirst(PrintPart(p) + Tail(more, rest), escape);
            if PartOk(p, escape, more)
            then r == (Meaning(p), if more then Tokenize(if escape then TAG else QUOTED, rest) else [])
            else r.0 != Meaning(p)
  {
    hide Tokenize, ReadTag, ReadField, ReadValue, Escape, Tail, RawOk;
    var k, v, tail := p.key, p.text, Tail(more, rest);
    PartText(p, tail);
    match p.kind
    case Escaped => TagEscaped(k, v, more, rest);
    case Quoted =>
      FieldKey(k, ['"'] + (Escape(QUOTED, v) + (['"'] + tail)));
      FieldQuoted(k, v, more, rest);
    case Raw =>
      if escape {
        TagRaw(k, v, more, rest);
      } else {
        FieldKey(k, v + tail);
        FieldRaw(k, v, more, rest);
      }
  }

  lemma DecodeFirst(line: string, escape: bool)
    requires line != ""
    ensures Decode(line, escape) == [ReadFirst(line, escape).0]
              + (if escape then ReadTags(ReadFirst(line, escape).1) else ReadFields(ReadFirst(line, escape).1))
  {
    hide ReadTag, ReadField;
  }

  lemma DecodeNone(escape: bool)
    ensures ReadTags([]) == [] && ReadFields([]) == [] && Decode("", escape) == []
  {
  }

  lemma HeadReads(p: Part, escape: bool, more: bool, rest: string)
    requires Printable(p, escape)
    ensures var r := Decode(PrintPart(p) + Tail(more, rest), escape);
            if PartOk(p, escape, more)
            then r == [Meaning(p)] + (if more then Decode(rest, escape) else [])
            else r != [] && r[0] != Meaning(p)
  {
    hide ReadFirst, PrintPart, PartOk, Tokenize, Tail;
    FirstReads(p, escape, more, rest);
    PartText(p, Tail(more, rest));
    DecodeFirst(PrintPart(p) + Tail(more, rest), escape);
    DecodeNone(escape);
  }

  lemma JoinStep(parts: seq<Part>)
    requires parts != []
    ensures Join(PrintAll(parts)) == PrintPart(parts[0]) + Tail(|parts| > 1, Join(PrintAll(parts[1..])))
  {
    hide PrintPart;
    var texts := PrintAll(parts);
    assert texts[1..] == PrintAll(parts[1..]);
    assert PrintPart(parts[0]) + "" == PrintPart(parts[0]);
  }

  lemma EmptyLine(escape: bool)
    ensures Decode(Join(PrintAll([])), escape) == [] == Meanings([])
    ensures Readable([], escape)
  {
  }

  lemma ConsSame(items: seq<Item>, r: seq<Item>, tail: seq<Item>)
    requires items != []
    ensures r == [items[0]] + tail ==> (r == items <==> tail == items[1..])
  {
    if r == [items[0]] + tail {
      assert r[1..] == tail;
    }
  }

  /** A printed line reads back as its parts exactly when each of them does. */
  lemma {:induction false} LineReads(parts: seq<Part>, escape: bool)
    requires forall i :: 0 <= i < |parts| ==> Printable(parts[i], escape)
    ensures Decode(Join(PrintAll(parts)), escape) == Meanings(parts) <==> Readable(parts, escape)
  {
    hide PrintPart, PrintAll, Join, Printable, Decode, Readable, PartOk, Meaning;
    if parts == [] {
      EmptyLine(escape);
    } else {
      var rest := parts[1..];
      LineReads(rest, escape);
      JoinStep(parts);
      ReadableStep(parts, escape);
      HeadReads(parts[0], escape, |parts| > 1, Join(PrintAll(rest)));
      if |parts| == 1 {
        assert rest == [];
        EmptyLine(escape);
      }
      assert Meanings(parts)[1..] == Meanings(rest);
      ConsSame(Meanings(parts), Decode(Join(PrintAll(parts)), escape), Decode(Join(PrintAll(rest)), escape));
    }
  }

  // ----- the end of the tags -----

  /** Numbers among the tags are plain, and no tag ends in a backslash. */
  predicate Closed(p: Part) {
    && IsPlain(p.key) && !EndsInBackslash(p.text)
    && p.kind != Quoted && (p.kind == Raw ==> IsPlain(p.text))
  }

  lemma TagTokens(p: Part, tail: string)
    requires Closed(p)
    ensures Tokenize(TAG, PrintPart(p) + tail) == Chars(p.key) + [Sep('=')] + Chars(p.text) + Tokenize(TAG, tail)
  {
    hide Tokenize, Escape, Chars;
    PartText(p, tail);
    if p.kind == Raw {
      TagKey(p.key, p.text + tail);
      TokenizePlain(TAG, p.text, tail);
    } else {
      TagKey(p.key, Escape(TAG, p.text) + tail);
      TokenizeEscape(TAG, p.text, tail);
    }
    SplitJoin(Chars(p.key) + [Sep('=')], Chars(p.text), Tokenize(TAG, tail));
  }

  lemma TokensWithout(p: Part, tail: string)
    requires Closed(p) && Without(Tokenize(TAG, tail), Sep(' '))
    ensures Without(Tokenize(TAG, PrintPart(p) + tail), Sep(' '))
  {
    hide Tokenize, Chars, PrintPart, Closed;
    TagTokens(p, tail);
    CharsWithout(p.key);
    CharsWithout(p.text);
  }

  lemma NothingPrinted()
    ensures Join(PrintAll([])) == ""
  {
  }

  lemma {:induction false} TagsHaveNoSpace(parts: seq<Part>)
    requires forall i :: 0 <= i < |parts| ==> Closed(parts[i])
    ensures Without(Tokenize(TAG, Join(PrintAll(parts))), Sep(' '))
  {
    hide Tokenize, PrintPart, PrintAll, Join, Closed, Tail;
    if parts == [] {
      NothingPrinted();
      TokenizeNone(TAG);
    } else {
      var more := Join(PrintAll(parts[1..]));
      TagsHaveNoSpace(parts[1..]);
      JoinStep(parts);
      TagTail(|parts| > 1, more);
      TokensWithout(parts[0], Tail(|parts| > 1, more));
    }
  }

  lemma {:induction false} EscapeEnd(s: string)
    ensures s != "" ==> var e := Escape(TAG, s); e[|e| - 1] == s[|s| - 1]
  {
    if s == "" {
    } else {
      EscapeEnd(s[1..]);
    }
  }

  lemma PartEnd(p: Part)
    requires Closed(p)
    ensures !EndsInBackslash(PrintPart(p))
  {
    EscapeEnd(p.text);
  }

  lemma {:induction false} LineEnd(parts: seq<Part>)
    requires forall i :: 0 <= i < |parts| ==> Closed(parts[i])
    ensures !EndsInBackslash(Join(PrintAll(parts)))
  {
    hide PrintAll, Join, Closed, PrintPart;
    if parts == [] {
      NothingPrinted();
    } else {
      JoinStep(parts);
      LineEnd(parts[1..]);
      PartEnd(parts[0]);
    }
  }

  lemma TokenizeSpace(t: string)
    ensures Tokenize(TAG, [' '] + t) == [Sep(' ')] + Tokenize(TAG, t)
  {
    TokenizeOne(TAG, ' ', t);
  }

  /** The tags of a measurement end at the first unescaped space of its line, so that
      the fields after it are never taken for tags, unless a tag ends in a backslash. */
  lemma TagsEndAtSpace(parts: seq<Part>, rest: string)
    requires forall i :: 0 <= i < |parts| ==> Closed(parts[i])
    ensures var tags := Join(PrintAll(parts));
            var t := Tokenize(TAG, tags + ([' '] + rest));
            && t == Tokenize(TAG, tags) + [Sep(' ')] + Tokenize(TAG, rest)
            && t[..Find(t, Sep(' '))] == Tokenize(TAG, tags)
  {
    hide Tokenize, PrintPart, PrintAll, Join, Closed, Find, EndsInBackslash;
    var tags := Join(PrintAll(parts));
    TagsHaveNoSpace(parts);
    LineEnd(parts);
    TokenizeJoin(TAG, tags, [' '] + rest);
    TokenizeSpace(rest);
    var t := Tokenize(TAG, tags + ([' '] + rest));
    AddJoin(Tokenize(TAG, tags), Sep(' '), Tokenize(TAG, rest));
    FindAt(t, Sep(' '), |Tokenize(TAG, tags)|);
  }

  // ----- the printed instance -----

  /** How a field is printed: text in a field that is not declared as text is raw. */
  function PartOf(f: Field, escape: bool): Part {
    if !f.isStr then Part(f.name, Raw, Shown(f.value))
    else if escape then Part(f.name, Escaped, OrNull(Shown(f.value)))
    else Part(f.name, Quoted, Shown(f.value))
  }

  /** The fields that are printed, in order. */
  function Parts(fs: seq<Field>, excludes: seq<string>, escape: bool): seq<Part> {
    if fs == [] then []
    else
      var f := fs[|fs| - 1];
      var before := Parts(fs[..|fs| - 1], excludes, escape);
      if Skipped(f, excludes) then before else before + [PartOf(f, escape)]
  }

  lemma PrintedOne(f: Field, escape: bool)
    ensures Printable(PartOf(f, escape), escape)
    ensures PrintPart(PartOf(f, escape)) == f.name + ['='] + ValueText(f, escape)
  {
    hide Escape;
    if f.isStr && escape {
      EscapePlain(TAG, "null");
    }
  }

  lemma PrintAllSnoc(parts: seq<Part>, p: Part)
    ensures PrintAll(parts + [p]) == PrintAll(parts) + [PrintPart(p)]
  {
    hide PrintPart;
  }

  lemma {:induction false} PrintedParts(fs: seq<Field>, excludes: seq<string>, escape: bool)
    ensures var parts := Parts(fs, excludes, escape);
            && (forall i :: 0 <= i < |parts| ==> Printable(parts[i], escape))
            && Printed(fs, excludes, escape) == PrintAll(parts)
  {
    hide Printable, PrintPart, PartOf, ValueText;
    if fs == [] {
    } else {
      var f, init := fs[|fs| - 1], fs[..|fs| - 1];
      PrintedParts(init, excludes, escape);
      PrintedOne(f, escape);
      PrintAllSnoc(Parts(init, excludes, escape), PartOf(f, escape));
    }
  }

  /** The printed line reads back as the fields that were printed, each with its own text
      (empty tags as "null"), if and only if every one of them reads back: no tag but the
      last and no quoted text ends in a backslash, and text in a field that is not
      declared as text has no comma, no escape and no quote where one would be read. */
  lemma InfluxRoundTrip(fs: seq<Field>, excludes: seq<string>, escape: bool)
    ensures Decode(Join(Printed(fs, excludes, escape)), escape) == Meanings(Parts(fs, excludes, escape))
            <==> Readable(Parts(fs, excludes, escape), escape)
  {
    hide Readable, Decode, Join, Parts, Printed;
    PrintedParts(fs, excludes, escape);
    LineReads(Parts(fs, excludes, escape), escape);
  }

  lemma PlainIsRaw(s: string)
    requires IsPlain(s)
    ensures RawOk(TAG, s) && RawOk(QUOTED, s) && !EndsInBackslash(s) && (s != "" ==> s[0] != '"')
  {
    assert ',' in TAG && '"' in QUOTED;
  }

  /** Numbers always read back, so only text needs looking at. */
  lemma PlainReads(f: Field, escape: bool, more: bool)
    requires !f.value.Str? && !f.isStr
    ensures PartOk(PartOf(f, escape), escape, more)
  {
    hide Decimal;
    assert IsPlain(Shown(f.value));
    PlainIsRaw(Shown(f.value));
  }

  /** So two instances that print the same line have the same keys and the same text. */
  lemma InfluxUnambiguous(fs: seq<Field>, gs: seq<Field>, excludes: seq<string>, escape: bool)
    requires Readable(Parts(fs, excludes, escape), escape) && Readable(Parts(gs, excludes, escape), escape)
    requires Join(Printed(fs, excludes, escape)) == Join(Printed(gs, excludes, escape))
    ensures Meanings(Parts(fs, excludes, escape)) == Meanings(Parts(gs, excludes, escape))
  {
    hide Readable, Decode, Join, Parts, Printed;
    InfluxRoundTrip(fs, excludes, escape);
    InfluxRoundTrip(gs, excludes, escape);
  }

  /** It is not excluded, and it has a value that can be printed. */
  predicate IsPrinted(f: Field, excludes: seq<string>) {
    f.name !in excludes && (f.value.Boolean? || f.value.Integer? || f.value.Float? || f.value.Str?)
  }

  lemma PrintedOrSkipped(f: Field, excludes: seq<string>)
    ensures IsPrinted(f, excludes) <==> !Skipped(f, excludes)
  {
  }

  ghost predicate IsKept(fs: seq<Field>, excludes: seq<string>, name: string) {
    exists i :: 0 <= i < |fs| && IsPrinted(fs[i], excludes) && fs[i].name == name
  }

  lemma KeptMore(fs: seq<Field>, excludes: seq<string>, name: string)
    requires fs != []
    ensures IsKept(fs[..|fs| - 1], excludes, name) ==> IsKept(fs, excludes, name)
    ensures !Skipped(fs[|fs| - 1], excludes) && fs[|fs| - 1].name == name ==> IsKept(fs, excludes, name)
  {
    hide Skipped, IsPrinted;
    PrintedOrSkipped(fs[|fs| - 1], excludes);
    var init := fs[..|fs| - 1];
    if IsKept(init, excludes, name) {
      var i :| 0 <= i < |init| && IsPrinted(init[i], excludes) && init[i].name == name;
      assert fs[i] == init[i];
    }
  }

  /** An empty tag reads as null, and nothing else is changed. */
  lemma EmptyTagIsNull(f: Field)
    requires f.isStr
    ensures Meaning(PartOf(f, true)) == Item(f.name, false, if Shown(f.value) == "" then "null" else Shown(f.value))
    ensures Meaning(PartOf(f, false)) == Item(f.name, true, Shown(f.value))
  {
  }

  lemma MeaningsSnoc(parts: seq<Part>, p: Part)
    ensures Meanings(parts + [p]) == Meanings(parts) + [Meaning(p)]
  {
    hide Meaning;
  }

  lemma {:induction false} OnlyKeptFields(fs: seq<Field>, excludes: seq<string>, escape: bool, k: nat)
    requires k < |Parts(fs, excludes, escape)|
    ensures IsKept(fs, excludes, Parts(fs, excludes, escape)[k].key)
  {
    hide IsPrinted, Shown, IsKept, Skipped;
    if fs == [] {
    } else {
      var f, init := fs[|fs| - 1], fs[..|fs| - 1];
      var parts, before := Parts(fs, excludes, escape), Parts(init, excludes, escape);
      KeptMore(fs, excludes, parts[k].key);
      if k < |before| {
        OnlyKeptFields(init, excludes, escape, k);
        assert parts[k] == before[k];
      } else {
        assert parts[k] == PartOf(f, escape);
      }
    }
  }

  lemma {:induction false} EveryPrintedField(fs: seq<Field>, excludes: seq<string>, escape: bool, i: nat)
    requires i < |fs| && IsPrinted(fs[i], excludes)
    ensures PartOf(fs[i], escape) in Parts(fs, excludes, escape)
  {
    hide IsPrinted, PartOf, Skipped;
    var f, init := fs[|fs| - 1], fs[..|fs| - 1];
    PrintedOrSkipped(f, excludes);
    if i == |fs| - 1 {
    } else {
      assert init[i] == fs[i];
      EveryPrintedField(init, excludes, escape, i);
    }
  }

  /** What should read back is the text of every field that is not skipped, and nothing
      else. */
  lemma ItemsAreFields(fs: seq<Field>, excludes: seq<string>, escape: bool)
    ensures var items := Meanings(Parts(fs, excludes, escape));
            && (forall i :: 0 <= i < |fs| && IsPrinted(fs[i], excludes) && (Shown(fs[i].value) != "" || !escape) ==>
                  Item(fs[i].name, fs[i].isStr && !escape, Shown(fs[i].value)) in items)
            && (forall k :: 0 <= k < |items| ==> IsKept(fs, excludes, items[k].key))
  {
    hide IsPrinted, Shown, IsKept, Parts;
    var parts := Parts(fs, excludes, escape);
    var items := Meanings(parts);
    forall k | 0 <= k < |items| ensures IsKept(fs, excludes, items[k].key) {
      OnlyKeptFields(fs, excludes, escape, k);
    }
    forall i | 0 <= i < |fs| && IsPrinted(fs[i], excludes) && (Shown(fs[i].value) != "" || !escape)
      ensures Item(fs[i].name, fs[i].isStr && !escape, Shown(fs[i].value)) in items
    {
      EveryPrintedField(fs, excludes, escape, i);
      var k :| 0 <= k < |parts| && parts[k] == PartOf(fs[i], escape);
      assert items[k] == Meaning(parts[k]);
    }
  }
}
