/** Delay pairs of input pins, their textual form and the parse of one delay cell. */
module Delays {

  datatype Option<T> = None | Some(value: T)

  /** One input pin of a minterm or implicant: excitatory delay `de`, inhibitory delay `di`. */
  datatype Input = Input(de: int, di: int)

  predicate IsDigit(c: char) {
    '0' <= c <= '9'
  }

  predicate AllDigits(s: string) {
    forall i :: 0 <= i < |s| ==> IsDigit(s[i])
  }

  /** No character of `s` is a dot, so `s` holds no ".." separator. */
  predicate NoDots(s: string) {
    forall i :: 0 <= i < |s| ==> s[i] != '.'
  }

  function DigitChar(d: nat): (c: char)
    requires d < 10
    ensures IsDigit(c) && c as int - '0' as int == d
  {
    ('0' as int + d) as char
  }

  /** Decimal digits of `n` without leading zeros, as Python's `str` writes a non-negative int. */
  function NatToString(n: nat): (s: string)
    ensures |s| >= 1 && AllDigits(s)
    ensures (|s| == 1) == (n < 10)
    ensures s[0] == '0' <==> n == 0
  {
    if n < 10 then [DigitChar(n)] else NatToString(n / 10) + [DigitChar(n % 10)]
  }

  /** Python's `str` of an int: a minus sign for negative values, then the digits. */
  function IntToString(n: int): (s: string)
    ensures NoDots(s) && |s| >= 1
    ensures (s[0] == '-') == (n < 0)
  {
    if n < 0 then "-" + NatToString(-n) else NatToString(n)
  }

  /** The value of a string of decimal digits (leading zeros allowed). */
  function DigitsValue(s: string): nat
    requires AllDigits(s)
  {
    if s == [] then 0 else DigitsValue(s[..|s| - 1]) * 10 + (s[|s| - 1] as int - '0' as int)
  }

  /** Python's `int` on a string: an optional sign and one or more decimal digits. */
  function ParseInt(s: string): (r: Option<int>)
    ensures r.Some? ==> |s| >= 1 && NoDots(s)
  {
    if |s| > 0 && (s[0] == '-' || s[0] == '+') then
      var digits := s[1..];
      if |digits| > 0 && AllDigits(digits) then
        var v: int := DigitsValue(digits);
        Some(if s[0] == '-' then -v else v)
      else None
    else if |s| > 0 && AllDigits(s) then Some(DigitsValue(s))
    else None
  }

  lemma {:induction false} DigitsValueOfNat(n: nat)
    ensures DigitsValue(NatToString(n)) == n
  {
    var s := NatToString(n);
    if n >= 10 {
      assert s[..|s| - 1] == NatToString(n / 10);
      DigitsValueOfNat(n / 10);
    }
  }

  /** Reading back Python's rendering of any int gives the int. */
  lemma ParseIntToString(n: int)
    ensures ParseInt(IntToString(n)) == Some(n)
  {
    var s := IntToString(n);
    if n < 0 {
      var digits := NatToString(-n);
      assert s[0] == '-' && s[1..] == digits;
      DigitsValueOfNat(-n);
    } else {
      assert s == NatToString(n) && IsDigit(s[0]);
      DigitsValueOfNat(n);
    }
  }

  /** Python's `s.split("..")`: the pieces between non-overlapping separators, found left to right. */
  function Split(s: string): (parts: seq<string>)
    ensures |parts| >= 1
  {
    if |s| < 2 then [s]
    else if s[0] == '.' && s[1] == '.' then [""] + Split(s[2..])
    else
      var rest := Split(s[1..]);
      [[s[0]] + rest[0]] + rest[1..]
  }

  /** Python's `"..".join(parts)`: the pieces with ".." between neighbours. */
  function JoinDots(parts: seq<string>): string
    requires |parts| >= 1
  {
    if |parts| == 1 then parts[0] else parts[0] + ".." + JoinDots(parts[1..])
  }

  /** `s` holds no ".." separator. */
  predicate NoSeparator(s: string) {
    forall i :: 0 <= i < |s| - 1 ==> !(s[i] == '.' && s[i + 1] == '.')
  }

  /** Joining the pieces of `s` with ".." gives `s` back. */
  lemma {:induction false} SplitRoundTrip(s: string)
    ensures JoinDots(Split(s)) == s
  {
    if |s| < 2 {
    } else if s[0] == '.' && s[1] == '.' {
      SplitRoundTrip(s[2..]);
      assert Split(s)[1..] == Split(s[2..]);
      assert ".." + s[2..] == s;
    } else {
      SplitRoundTrip(s[1..]);
      var rest := Split(s[1..]);
      assert [s[0]] + s[1..] == s;
      if |rest| > 1 {
        assert Split(s)[1..] == rest[1..];
      }
    }
  }

  /** No piece holds the separator, and the first piece is a prefix of `s`. */
  lemma {:induction false} SplitPieces(s: string)
    ensures forall i :: 0 <= i < |Split(s)| ==> NoSeparator(Split(s)[i])
    ensures |Split(s)[0]| <= |s| && Split(s)[0] == s[..|Split(s)[0]|]
  {
    if |s| < 2 {
    } else if s[0] == '.' && s[1] == '.' {
      SplitPieces(s[2..]);
      assert Split(s)[1..] == Split(s[2..]);
    } else {
      SplitPieces(s[1..]);
      var rest := Split(s[1..]);
      var first := [s[0]] + rest[0];
      assert first == s[..|first|];
      forall i | 0 <= i < |first| - 1 ensures !(first[i] == '.' && first[i + 1] == '.') {
        if i == 0 {
          assert first[1] == s[1];
        } else {
          assert first[i] == rest[0][i - 1] && first[i + 1] == rest[0][i];
        }
      }
      assert Split(s)[1..] == rest[1..];
    }
  }

  lemma {:induction false} SplitNoDots(s: string)
    requires NoDots(s)
    ensures Split(s) == [s]
  {
    if |s| >= 2 {
      SplitNoDots(s[1..]);
      assert [s[0]] + s[1..] == s;
    }
  }

  lemma {:induction false} SplitJoined(a: string, b: string)
    requires NoDots(a) && NoDots(b)
    ensures Split(a + ".." + b) == [a, b]
  {
    var s := a + ".." + b;
    if a == [] {
      assert s[2..] == b;
      SplitNoDots(b);
    } else {
      assert s[1..] == a[1..] + ".." + b;
      SplitJoined(a[1..], b);
      assert [a[0]] + a[1..] == a;
    }
  }

  /** Converts every piece with `int`; fails when any one of them is not a number. */
  function ParseAll(parts: seq<string>): (r: Option<seq<int>>)
    ensures r.Some? ==> |r.value| == |parts|
  {
    if parts == [] then Some([])
    else
      match ParseInt(parts[0])
      case None => None
      case Some(v) =>
        match ParseAll(parts[1..])
        case None => None
        case Some(vs) => Some([v] + vs)
  }

  /**
   * The delay cell of one input pin: "d" is the pair (d, d), "de..di" is (de, di).
   * As in the source, every piece is converted and the first two are kept, so "1..2..3" gives (1, 2).
   */
  function ParseCell(cell: string): (r: Option<Input>)
  {
    var parts := Split(cell);
    var pieces := if |parts| == 1 then parts + [parts[0]] else parts;
    match ParseAll(pieces)
    case None => None
    case Some(vs) => Some(Input(vs[0], vs[1]))
  }

  /** Parses the delay cells of one row, pin by pin. */
  function ParseRow(cells: seq<string>): (r: Option<seq<Input>>)
    ensures r.Some? ==> |r.value| == |cells|
  {
    if cells == [] then Some([])
    else
      match ParseCell(cells[0])
      case None => None
      case Some(p) =>
        match ParseRow(cells[1..])
        case None => None
        case Some(ps) => Some([p] + ps)
  }

  /** A row parses exactly when each of its cells does, and then pin `j` is the parse of cell `j`. */
  lemma {:induction false} ParseRowMeans(cells: seq<string>)
    ensures ParseRow(cells).Some? <==> forall j :: 0 <= j < |cells| ==> ParseCell(cells[j]).Some?
    ensures ParseRow(cells).Some? ==> forall j :: 0 <= j < |cells| ==> ParseCell(cells[j]) == Some(ParseRow(cells).value[j])
  {
    if cells != [] {
      ParseRowMeans(cells[1..]);
      assert forall j :: 1 <= j < |cells| ==> cells[1..][j - 1] == cells[j];
    }
  }

  /** Textual form of a pin: "d" when both delays agree, otherwise "de..di". */
  function Render(p: Input): (s: string)
    ensures |s| >= 1
  {
    if p.de == p.di then IntToString(p.di) else IntToString(p.de) + ".." + IntToString(p.di)
  }

  /** Two numbers convert to the pair of their values. */
  lemma ParseAllTwo(x: string, y: string)
    requires ParseInt(x).Some? && ParseInt(y).Some?
    ensures ParseAll([x, y]) == Some([ParseInt(x).value, ParseInt(y).value])
  {
    var u, v := ParseInt(x).value, ParseInt(y).value;
    assert [y][1..] == [] && [v] + [] == [v];
    assert ParseAll([y]) == Some([v]);
    assert [x, y][0] == x && [x, y][1..] == [y] && [u] + [v] == [u, v];
  }

  /** A single number is the pair of two equal delays; "a..b" is the pair (a, b). */
  lemma ParseCellForms(a: int, b: int)
    ensures ParseCell(IntToString(a)) == Some(Input(a, a))
    ensures ParseCell(IntToString(a) + ".." + IntToString(b)) == Some(Input(a, b))
  {
    ParseIntToString(a);
    ParseIntToString(b);
    SplitNoDots(IntToString(a));
    SplitJoined(IntToString(a), IntToString(b));
    ParseAllTwo(IntToString(a), IntToString(a));
    ParseAllTwo(IntToString(a), IntToString(b));
  }

  /** Parsing the rendering of a pin gives the pin back. */
  lemma ParseRender(p: Input)
    ensures ParseCell(Render(p)) == Some(p)
  {
    ParseCellForms(p.de, p.di);
  }

  /** `int` accepts every one of the pieces. */
  predicate AllInts(parts: seq<string>) {
    forall i :: 0 <= i < |parts| ==> ParseInt(parts[i]).Some?
  }

  /** Converting the pieces succeeds exactly when `int` accepts each of them, and then value `i` is that of piece `i`. */
  lemma {:induction false} ParseAllMeans(parts: seq<string>)
    ensures ParseAll(parts).Some? <==> AllInts(parts)
    ensures ParseAll(parts).Some? ==> forall i :: 0 <= i < |parts| ==> ParseAll(parts).value[i] == ParseInt(parts[i]).value
  {
    if parts != [] {
      ParseAllMeans(parts[1..]);
      assert forall i :: 1 <= i < |parts| ==> parts[1..][i - 1] == parts[i];
    }
  }

  /**
   * A delay cell parses exactly when `int` accepts every piece of its split, so a cell with an empty or
   * non-numeric piece is rejected; the pin is then the first piece and the second (or the first again).
   */
  lemma ParseCellMeans(cell: string)
    ensures ParseCell(cell).Some? <==> AllInts(Split(cell))
    ensures var parts := Split(cell);
      ParseCell(cell).Some? ==>
        ParseCell(cell).value == Input(ParseInt(parts[0]).value, ParseInt(parts[if |parts| == 1 then 0 else 1]).value)
  {
    var parts := Split(cell);
    var pieces := if |parts| == 1 then parts + [parts[0]] else parts;
    ParseAllMeans(pieces);
    if |parts| == 1 {
      assert pieces[0] == pieces[1] == parts[0];
      assert AllInts(pieces) <==> AllInts(parts);
    }
  }
}
