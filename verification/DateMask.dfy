/** A date packed into four-bit digits, four for the year and two each for the month and
    the day, where a zero month or day is unspecified. */
module DateMask {

  /** The arithmetic shift, which keeps the sign. */
  function ShiftRight(n: int, i: nat): int
    decreases i
  {
    if i == 0 then n else ShiftRight(n / 2, i - 1)
  }

  function Digit(n: int, i: nat): (d: nat)
    ensures d < 16
  {
    ShiftRight(n, i) % 16
  }

  function Year(n: int): nat { ShiftRight(n, 16) % 0x1_0000 }
  function Month(n: int): nat { ShiftRight(n, 8) % 0x100 }
  function Day(n: int): nat { ShiftRight(n, 0) % 0x100 }

  function Chr(d: nat): string
    requires d < 16
  {
    [48 as char + d as char]
  }

  /** The characters written, one string to a slot. */
  function Cells(n: int): (c: seq<string>)
    ensures |c| <= 10
  {
    [Chr(Digit(n, 28)), Chr(Digit(n, 24)), Chr(Digit(n, 20)), Chr(Digit(n, 16)), "-"]
    + (if Month(n) == 0 then ["*"]
       else [Chr(Digit(n, 12)), Chr(Digit(n, 8)), "-"]
            + (if Day(n) == 0 then ["*"] else [Chr(Digit(n, 4)), Chr(Digit(n, 0))]))
  }

  function Join(parts: seq<string>): string {
    if parts == [] then "" else Join(parts[..|parts| - 1]) + parts[|parts| - 1]
  }

  function MaskText(n: int): string {
    if Year(n) == 0 then "*" else Join(Cells(n))
  }

  /** The slot that the digit at bit i goes to. */
  function Slot(i: int): int {
    if i >= 16 then (28 - i) / 4 else if i >= 8 then (28 - i) / 4 + 1 else (28 - i) / 4 + 2
  }

  /** Where the loop has got to before it handles the digit at bit i. */
  ghost predicate At(n: int, i: int, j: int) {
    && -4 <= i <= 28 && i % 4 == 0
    && (i < 0 ==> j == |Cells(n)|)
    && (i >= 0 ==> j == Slot(i) && (i < 16 ==> Month(n) != 0) && (i < 8 ==> Day(n) != 0))
  }

  lemma CellsAt(n: int, i: nat, j: nat)
    requires At(n, i, j)
    ensures var c := Cells(n);
            && j < |c| <= 10 && c[j] == Chr(Digit(n, i))
            && (i == 16 || i == 8 ==> j + 1 < |c| && c[j + 1] == "-")
            && ((i == 16 && Month(n) == 0) || (i == 8 && Day(n) == 0) ==> j + 3 == |c| && c[j + 2] == "*")
            && (i == 0 ==> j + 1 == |c|)
  {
    hide ShiftRight, Chr;
  }

  /** Where the loop goes from there. */
  lemma AtNext(n: int, i: nat, j: nat)
    requires At(n, i, j)
    ensures var c := Cells(n);
            && j < |c| <= 10 && c[j] == Chr(ShiftRight(n, i) % 16)
            && if i == 16 || i == 8 then
                 && j + 1 < |c| && c[j + 1] == "-"
                 && if ShiftRight(n, i - 8) % 0x100 == 0 then j + 2 < |c| && c[j + 2] == "*" && At(n, -4, j + 3)
                    else At(n, i - 4, j + 2)
               else At(n, i - 4, j + 1)
  {
    CellsAt(n, i, j);
    hide ShiftRight, Chr, Cells;
  }

  lemma AtEnd(n: int, i: int, j: int)
    requires At(n, i, j)
    ensures -4 <= i && (i < 0 ==> j == |Cells(n)|)
  {
  }

  lemma {:induction false} JoinPadding(parts: seq<string>, j: nat)
    requires j <= |parts| && forall k :: j <= k < |parts| ==> parts[k] == ""
    ensures Join(parts) == Join(parts[..j])
  {
    if j < |parts| {
      var init := parts[..|parts| - 1];
      JoinPadding(init, j);
      assert init[..j] == parts[..j];
      assert Join(parts) == Join(init) + "";
    } else {
      assert parts[..j] == parts;
    }
  }

  /** Some first slots are written, and the others are empty. */
  predicate Written(chars: seq<string>, cells: seq<string>, j: int) {
    && |chars| == 10 && 0 <= j <= |cells| <= 10
    && (forall k :: 0 <= k < j ==> chars[k] == cells[k])
    && (forall k :: j <= k < 10 ==> chars[k] == "")
  }

  lemma WriteNext(chars: seq<string>, cells: seq<string>, j: nat)
    requires Written(chars, cells, j) && j < |cells|
    ensures Written(chars[j := cells[j]], cells, j + 1)
  {
  }

  lemma WrittenAll(chars: seq<string>, cells: seq<string>)
    requires Written(chars, cells, |cells|)
    ensures Join(chars) == Join(cells)
  {
    JoinPadding(chars, |cells|);
    assert chars[..|cells|] == cells;
  }

  method DateMaskToString(n: int) returns (text: string)
    ensures text == MaskText(n)
  {
    ghost var cells := Cells(n);
    assert At(n, 28, 0);
    var chars := new string[10](_ => "");
    var j := 0;
    assert Written(chars[..], cells, 0);
    hide ShiftRight, Chr, Cells, Join, At, Written;
    if ShiftRight(n, 16) % 0x1_0000 != 0 {
      var i := 28;
      while i >= 0
        invariant At(n, i, j) && -4 <= i && 0 <= j
        invariant Written(chars[..], cells, j)
        decreases i
      {
        AtNext(n, i, j);
        WriteNext(chars[..], cells, j);
        chars[j] := Chr(ShiftRight(n, i) % 16);
        if i == 16 || i == 8 {
          j := j + 1;
          WriteNext(chars[..], cells, j);
          chars[j] := "-";
          if ShiftRight(n, i - 8) % 0x100 == 0 {
            j := j + 1;
            WriteNext(chars[..], cells, j);
            chars[j] := "*";
            i := 0;
          }
        }
        j := j + 1;
        i := i - 4;
      }
      AtEnd(n, i, j);
      WrittenAll(chars[..], cells);
      text := Join(chars[..]);
    } else {
      text := "*";
    }
  }

  // ----- reading a mask back -----

  /** The mask with everything cleared that its text does not show. */
  function Normal(n: int): nat {
    if Year(n) == 0 then 0
    else if Month(n) == 0 then Year(n) * 0x1_0000
    else Year(n) * 0x1_0000 + Month(n) * 0x100 + Day(n)
  }

  /** The number that characters stand for as base-16 digits. */
  function Num(s: string): int {
    if s == "" then 0 else Num(s[..|s| - 1]) * 16 + s[|s| - 1] as int - 48
  }

  function ReadMask(s: string): int {
    if |s| < 6 then 0
    else if |s| < 9 then Num(s[..4]) * 0x1_0000
    else if |s| < 10 then Num(s[..4]) * 0x1_0000 + Num(s[5..7]) * 0x100
    else Num(s[..4]) * 0x1_0000 + Num(s[5..7]) * 0x100 + Num(s[8..10])
  }

  lemma {:induction false} ShiftFour(n: int, i: nat)
    ensures ShiftRight(n, i + 4) == ShiftRight(n, i) / 16
    decreases i
  {
    if i > 0 {
      ShiftFour(n / 2, i - 1);
    } else {
      assert ShiftRight(n, 4) == ShiftRight(n / 2, 3) == ShiftRight(n / 2 / 2, 2) == ShiftRight(n / 2 / 2 / 2, 1);
    }
  }

  lemma TwoDigits(v: int)
    ensures v % 256 == v / 16 % 16 * 16 + v % 16
  {
  }

  lemma Nested(v: int, q: int, r: int)
    requires v == q * 0x1_0000 + r && 0 <= r < 0x1_0000
    ensures v % 0x1_0000 == r
  {
  }

  lemma FourDigits(v: int)
    ensures v % 0x1_0000 == ((v / 16 / 16 / 16 % 16 * 16 + v / 16 / 16 % 16) * 16 + v / 16 % 16) * 16 + v % 16
  {
    var a, b, c := v / 16, v / 16 / 16, v / 16 / 16 / 16;
    Nested(v, c / 16, c % 16 * 4096 + b % 16 * 256 + a % 16 * 16 + v % 16);
  }

  lemma ShiftEight(n: int)
    ensures Year(n) == ((Digit(n, 28) * 16 + Digit(n, 24)) * 16 + Digit(n, 20)) * 16 + Digit(n, 16)
    ensures Month(n) == Digit(n, 12) * 16 + Digit(n, 8)
    ensures Day(n) == Digit(n, 4) * 16 + Digit(n, 0)
  {
    hide ShiftRight;
    ShiftFour(n, 0);
    ShiftFour(n, 8);
    ShiftFour(n, 16);
    ShiftFour(n, 20);
    ShiftFour(n, 24);
    TwoDigits(ShiftRight(n, 0));
    TwoDigits(ShiftRight(n, 8));
    FourDigits(ShiftRight(n, 16));
  }

  lemma NumTwo(s: string)
    requires |s| == 2
    ensures Num(s) == (s[0] as int - 48) * 16 + s[1] as int - 48
  {
    assert Num(s[..1]) == Num(s[..1][..0]) * 16 + s[0] as int - 48;
  }

  lemma NumFour(s: string)
    requires |s| == 4
    ensures Num(s) == ((((s[0] as int - 48) * 16 + s[1] as int - 48) * 16) + s[2] as int - 48) * 16 + s[3] as int - 48
  {
    assert s[..3][..2] == s[..2];
    NumTwo(s[..2]);
    assert Num(s[..3]) == Num(s[..2]) * 16 + s[2] as int - 48;
  }

  lemma {:induction false} JoinSingles(parts: seq<string>)
    requires forall k :: 0 <= k < |parts| ==> |parts[k]| == 1
    ensures |Join(parts)| == |parts| && forall k :: 0 <= k < |parts| ==> Join(parts)[k] == parts[k][0]
  {
    if parts == [] {
    } else {
      JoinSingles(parts[..|parts| - 1]);
    }
  }

  /** The text shows the digits at fixed places. */
  lemma TextAt(n: int)
    requires Year(n) != 0
    ensures var s := MaskText(n);
            && |s| == (if Month(n) == 0 then 6 else if Day(n) == 0 then 9 else 10)
            && Num(s[..4]) == Year(n) && s[4] == '-'
            && (Month(n) == 0 ==> s[5] == '*')
            && (Month(n) != 0 ==> s[7] == '-' && (Day(n) == 0 ==> s[8] == '*'))
            && (Month(n) != 0 ==> Num(s[5..7]) == Month(n) && (Day(n) != 0 ==> Num(s[8..10]) == Day(n)))
  {
    hide ShiftRight, Num, Join;
    var s, c := MaskText(n), Cells(n);
    JoinSingles(c);
    ShiftEight(n);
    NumFour(s[..4]);
    if Month(n) != 0 {
      NumTwo(s[5..7]);
      if Day(n) != 0 {
        NumTwo(s[8..10]);
      }
    }
  }

  /** The text can be read back to the mask, but for what it does not show. */
  lemma ReadBack(n: int)
    ensures ReadMask(MaskText(n)) == Normal(n)
  {
    hide ShiftRight, Cells, Join, Num;
    if Year(n) != 0 {
      TextAt(n);
    }
  }

  lemma Shifts(n: int)
    ensures ShiftRight(n, 0) == n && ShiftRight(n, 4) == n / 0x10 && ShiftRight(n, 8) == n / 0x100
    ensures ShiftRight(n, 12) == n / 0x1000 && ShiftRight(n, 16) == n / 0x1_0000
    ensures ShiftRight(n, 20) == n / 0x10_0000 && ShiftRight(n, 24) == n / 0x100_0000
    ensures ShiftRight(n, 28) == n / 0x1000_0000
  {
    assert ShiftRight(n, 0) == n;
    hide ShiftRight;
    ShiftFour(n, 0);
    ShiftFour(n, 4);
    ShiftFour(n, 8);
    ShiftFour(n, 12);
    ShiftFour(n, 16);
    ShiftFour(n, 20);
    ShiftFour(n, 24);
  }

  lemma PartsOf(n: int)
    ensures Year(n) == n / 0x1_0000 % 0x1_0000 && Month(n) == n / 0x100 % 0x100 && Day(n) == n % 0x100
  {
    hide ShiftRight;
    Shifts(n);
  }

  lemma YearOf(n: int)
    ensures Digit(n, 28) == n / 0x1000_0000 % 16 && Digit(n, 24) == n / 0x100_0000 % 16
    ensures Digit(n, 20) == n / 0x10_0000 % 16 && Digit(n, 16) == n / 0x1_0000 % 16
  {
    hide ShiftRight;
    Shifts(n);
  }

  lemma OtherOf(n: int)
    ensures Digit(n, 12) == n / 0x1000 % 16 && Digit(n, 8) == n / 0x100 % 16
    ensures Digit(n, 4) == n / 0x10 % 16 && Digit(n, 0) == n % 16
  {
    hide ShiftRight;
    Shifts(n);
  }

  lemma OneExample(n: int, cells: seq<string>, text: string)
    requires Year(n) != 0 && Cells(n) == cells
    requires |cells| == |text| && forall k :: 0 <= k < |cells| ==> cells[k] == [text[k]]
    ensures MaskText(n) == text
  {
    hide ShiftRight, Cells, Join;
    JoinSingles(cells);
  }

  lemma DayYearDigits()
    ensures Digit(0x2025_0131, 28) == 2 && Digit(0x2025_0131, 24) == 0
    ensures Digit(0x2025_0131, 20) == 2 && Digit(0x2025_0131, 16) == 5
  {
    hide Digit, Year, Month, Day;
    YearOf(0x2025_0131);
  }

  lemma DayOtherDigits()
    ensures Digit(0x2025_0131, 12) == 0 && Digit(0x2025_0131, 8) == 1
    ensures Digit(0x2025_0131, 4) == 3 && Digit(0x2025_0131, 0) == 1
  {
    hide Digit, Year, Month, Day;
    OtherOf(0x2025_0131);
  }

  lemma DayParts()
    ensures Year(0x2025_0131) == 0x2025 && Month(0x2025_0131) == 0x01 && Day(0x2025_0131) == 0x31
  {
    hide Digit, Year, Month, Day;
    PartsOf(0x2025_0131);
  }

  lemma DayExample()
    ensures MaskText(0x2025_0131) == "2025-01-31"
  {
    hide Digit, Year, Month, Day, MaskText, Join;
    DayYearDigits();
    DayOtherDigits();
    DayParts();
    OneExample(0x2025_0131, ["2", "0", "2", "5", "-", "0", "1", "-", "3", "1"], "2025-01-31");
  }

  lemma MonthYearDigits()
    ensures Digit(0x2025_0100, 28) == 2 && Digit(0x2025_0100, 24) == 0
    ensures Digit(0x2025_0100, 20) == 2 && Digit(0x2025_0100, 16) == 5
  {
    hide Digit, Year, Month, Day;
    YearOf(0x2025_0100);
  }

  lemma MonthOtherDigits()
    ensures Digit(0x2025_0100, 12) == 0 && Digit(0x2025_0100, 8) == 1
    ensures Digit(0x2025_0100, 4) == 0 && Digit(0x2025_0100, 0) == 0
  {
    hide Digit, Year, Month, Day;
    OtherOf(0x2025_0100);
  }

  lemma MonthParts()
    ensures Year(0x2025_0100) == 0x2025 && Month(0x2025_0100) == 0x01 && Day(0x2025_0100) == 0
  {
    hide Digit, Year, Month, Day;
    PartsOf(0x2025_0100);
  }

  lemma MonthExample()
    ensures MaskText(0x2025_0100) == "2025-01-*"
  {
    hide Digit, Year, Month, Day, MaskText, Join;
    MonthYearDigits();
    MonthOtherDigits();
    MonthParts();
    OneExample(0x2025_0100, ["2", "0", "2", "5", "-", "0", "1", "-", "*"], "2025-01-*");
  }

  lemma YearYearDigits()
    ensures Digit(0x2025_0000, 28) == 2 && Digit(0x2025_0000, 24) == 0
    ensures Digit(0x2025_0000, 20) == 2 && Digit(0x2025_0000, 16) == 5
  {
    hide Digit, Year, Month, Day;
    YearOf(0x2025_0000);
  }

  lemma YearOtherDigits()
    ensures Digit(0x2025_0000, 12) == 0 && Digit(0x2025_0000, 8) == 0
    ensures Digit(0x2025_0000, 4) == 0 && Digit(0x2025_0000, 0) == 0
  {
    hide Digit, Year, Month, Day;
    OtherOf(0x2025_0000);
  }

  lemma YearParts()
    ensures Year(0x2025_0000) == 0x2025 && Month(0x2025_0000) == 0 && Day(0x2025_0000) == 0
  {
    hide Digit, Year, Month, Day;
    PartsOf(0x2025_0000);
  }

  lemma YearExample()
    ensures MaskText(0x2025_0000) == "2025-*"
  {
    hide Digit, Year, Month, Day, MaskText, Join;
    YearYearDigits();
    YearOtherDigits();
    YearParts();
    OneExample(0x2025_0000, ["2", "0", "2", "5", "-", "*"], "2025-*");
  }

  lemma NoYear(n: nat)
    requires n < 0x1_0000
    ensures MaskText(n) == "*"
  {
    hide Year;
    PartsOf(n);
  }

  /** A zero month or day is shown as a star, and a zero year hides everything. */
  lemma MaskExamples()
    ensures MaskText(0x2025_0131) == "2025-01-31"
    ensures MaskText(0x2025_0100) == "2025-01-*"
    ensures MaskText(0x2025_0000) == "2025-*"
    ensures MaskText(0x0000_0131) == "*"
  {
    hide MaskText;
    DayExample();
    MonthExample();
    YearExample();
    NoYear(0x0000_0131);
  }

  lemma SameDigits(n: int, m: int)
    ensures Year(n) == Year(m) ==> forall i :: i in {28, 24, 20, 16} ==> Digit(n, i) == Digit(m, i)
    ensures Month(n) == Month(m) ==> Digit(n, 12) == Digit(m, 12) && Digit(n, 8) == Digit(m, 8)
    ensures Day(n) == Day(m) ==> Digit(n, 4) == Digit(m, 4) && Digit(n, 0) == Digit(m, 0)
  {
    hide ShiftRight, Digit, Year, Month, Day;
    ShiftEight(n);
    ShiftEight(m);
  }

  lemma SameParts(n: int, m: int)
    requires Normal(n) == Normal(m)
    ensures Year(n) == Year(m) && (Year(n) != 0 ==> Month(n) == Month(m) && (Month(n) != 0 ==> Day(n) == Day(m)))
  {
    hide ShiftRight;
  }

  lemma SameCells(n: int, m: int)
    requires Year(n) == Year(m) && (Year(n) != 0 ==> Month(n) == Month(m) && (Month(n) != 0 ==> Day(n) == Day(m)))
    ensures MaskText(n) == MaskText(m)
  {
    hide ShiftRight, Join, Chr;
    SameDigits(n, m);
  }

  /** Two masks print the same exactly when they differ only in what is not shown. */
  lemma SameText(n: int, m: int)
    ensures MaskText(n) == MaskText(m) <==> Normal(n) == Normal(m)
  {
    hide ShiftRight, Join, MaskText, ReadMask;
    ReadBack(n);
    ReadBack(m);
    if Normal(n) == Normal(m) {
      SameParts(n, m);
      SameCells(n, m);
    }
  }
}
