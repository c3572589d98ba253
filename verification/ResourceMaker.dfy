/** resource_maker: a file's bytes as the initializer of a C++ array, and a reader of such
    initializers. */
module ResourceMaker {
  import opened Bytes
  import opened Decimals

  function HexDigit(d: nat): char
    requires d < 16
  {
    if d < 10 then '0' + d as char else 'a' + (d - 10) as char
  }

  /** dec2hex: "0x%02x" */
  function Hex(c: byte): (s: string)
    ensures |s| == 4
  {
    ['0', 'x', HexDigit(c / 16), HexDigit(c % 16)]
  }

  const INDENT := "        "

  // ---------------------------------------------------------------- reading

  function HexValue(c: char): (d: int)
    ensures -1 <= d < 16
  {
    if '0' <= c <= '9' then (c - '0') as int else if 'a' <= c <= 'f' then (c - 'a') as int + 10 else -1
  }

  predicate Blank(c: char) {
    c == ' ' || c == '\n'
  }

  function SkipBlanks(s: string): (r: string)
    ensures |r| <= |s|
  {
    if s != [] && Blank(s[0]) then SkipBlanks(s[1..]) else s
  }

  /** One or more hexadecimal literals, with commas between them and nowhere else */
  function ParseElems(s: string): seq<int>
    decreases |s|
  {
    if |s| < 4 || s[0] != '0' || s[1] != 'x' || HexValue(s[2]) < 0 || HexValue(s[3]) < 0 then [-1]
    else
      var c := 16 * HexValue(s[2]) + HexValue(s[3]);
      var rest := SkipBlanks(s[4..]);
      if rest == [] then [c]
      else if rest[0] != ',' then [-1]
      else [c] + ParseElems(SkipBlanks(rest[1..]))
  }

  /** The elements of an initializer list, with -1 where it is malformed */
  function Parse(s: string): seq<int> {
    var t := SkipBlanks(s);
    if t == [] then [] else ParseElems(t)
  }

  // ---------------------------------------------------------------- writing

  /** Element k as it is written: rows of 16 are indented, all but the last are followed by a comma */
  function Elem(bs: bytes, k: nat): string
    requires k < |bs|
  {
    Indent(k) + Hex(bs[k]) + Comma(bs, k)
  }

  function Indent(k: nat): string {
    if k % 16 == 0 then INDENT else ""
  }

  function Comma(bs: bytes, k: nat): string {
    if k < |bs| - 1 then "," else ""
  }

  function RowBreak(k: nat): string {
    if k > 0 && k % 16 == 0 then "\n" else ""
  }

  /** The first k elements, with a line break before every row but the first */
  function Upto(bs: bytes, k: nat): string
    requires k <= |bs|
  {
    if k == 0 then "" else Upto(bs, k - 1) + RowBreak(k - 1) + Elem(bs, k - 1)
  }

  /** What stands between the braces */
  function Initializer(bs: bytes): string {
    Upto(bs, |bs|) + "\n    "
  }

  /** The two nested loops of write_cpp_file. The buffer ends with a terminator that file2string adds
      and that is not written. */
  method WriteCppFile(buffer: bytes) returns (size: string, text: string)
    requires buffer != []
    ensures size == Decimal(|buffer| - 1)
    ensures text == Initializer(buffer[..|buffer| - 1])
  {
    ghost var bs := buffer[..|buffer| - 1];
    size := Decimal(|buffer| - 1);
    text := "";
    var i := 0;
    ghost var rows: nat := 0;
    while true
      invariant 0 <= i <= |buffer| - 1 && i == 16 * rows
      invariant i > 0 ==> i < |buffer| - 1
      invariant RowStart(bs, i, text)
      decreases |buffer| - i
    {
      i, text := WriteRow(buffer, i, rows, text);
      text := text + "\n";
      if i == |buffer| - 1 {
        break;
      }
      rows := rows + 1;
    }
    text := text + "    ";
    Close(bs, text);
  }

  /** The inner loop: at most 16 elements, without the line break behind them */
  method WriteRow(buffer: bytes, from: nat, ghost rows: nat, start: string) returns (i: nat, text: string)
    requires buffer != [] && from <= |buffer| - 1 && from == 16 * rows && (from > 0 ==> from < |buffer| - 1)
    requires RowStart(buffer[..|buffer| - 1], from, start)
    ensures i == if |buffer| - 1 < from + 16 then |buffer| - 1 else from + 16
    ensures text == Upto(buffer[..|buffer| - 1], i)
  {
    ghost var bs := buffer[..|buffer| - 1];
    i, text := from, start;
    var j := 0;
    while j < 16 && i < |buffer| - 1
      invariant 0 <= j <= 16 && i == from + j && i <= |buffer| - 1
      invariant InRow(bs, i, j, text)
      decreases 16 - j
    {
      ghost var before := text;
      if j == 0 {
        text := text + INDENT;
      }
      text := text + Hex(buffer[i]);
      if i < |buffer| - 2 {
        text := text + ",";
      }
      Step(bs, i, rows, j, before, text);
      j, i := j + 1, i + 1;
    }
  }

  /** At the start of a row: the elements so far, and a line break if there are any */
  predicate RowStart(bs: bytes, i: nat, text: string)
    requires i <= |bs|
  {
    text == if i == 0 then "" else Upto(bs, i) + "\n"
  }

  predicate InRow(bs: bytes, i: nat, j: nat, text: string)
    requires i <= |bs|
  {
    if j == 0 then RowStart(bs, i, text) else text == Upto(bs, i)
  }

  lemma {:induction false} Close(bs: bytes, text: string)
    requires text == Upto(bs, |bs|) + "\n" + "    "
    ensures text == Initializer(bs)
  {
  }

  lemma {:induction false} Column(i: nat, rows: nat, j: nat)
    requires i == 16 * rows + j && j < 16
    ensures (i % 16 == 0) == (j == 0)
  {
  }

  lemma {:induction false} Step(bs: bytes, i: nat, rows: nat, j: nat, before: string, text: string)
    requires i < |bs| && i == 16 * rows + j && j < 16
    requires InRow(bs, i, j, before)
    requires var t := (if j == 0 then before + INDENT else before) + Hex(bs[i]);
             text == if i < |bs| - 1 then t + "," else t
    ensures InRow(bs, i + 1, j + 1, text)
  {
    Column(i, rows, j);
    assert before == Upto(bs, i) + RowBreak(i);
    assert text == before + Indent(i) + Hex(bs[i]) + Comma(bs, i);
    Regroup(Upto(bs, i), RowBreak(i), Indent(i), Hex(bs[i]), Comma(bs, i));
  }

  lemma {:induction false} Regroup(u: string, r: string, n: string, h: string, c: string)
    ensures u + r + n + h + c == u + r + (n + h + c)
  {
  }

  // ---------------------------------------------------------------- reading what was written

  /** The text from element k on */
  function From(bs: bytes, k: nat): string
    requires k <= |bs|
    decreases |bs| - k
  {
    if k == |bs| then "\n    " else RowBreak(k) + Elem(bs, k) + From(bs, k + 1)
  }

  lemma {:induction false} UptoFrom(bs: bytes, k: nat)
    requires k <= |bs|
    ensures Upto(bs, k) + From(bs, k) == Initializer(bs)
    decreases |bs| - k
  {
    if k < |bs| {
      UptoFrom(bs, k + 1);
      Shift(Upto(bs, k), RowBreak(k), Elem(bs, k), From(bs, k + 1));
    }
  }

  lemma {:induction false} Shift(u: string, r: string, e: string, f: string)
    ensures u + (r + e + f) == u + r + e + f
  {
  }

  predicate AllBlank(s: string) {
    forall i | 0 <= i < |s| :: Blank(s[i])
  }

  lemma {:induction false} SkipBlanksOver(b: string, s: string)
    requires AllBlank(b)
    ensures SkipBlanks(b + s) == SkipBlanks(s)
  {
    if b == [] {
      assert b + s == s;
    } else {
      assert (b + s)[1..] == b[1..] + s;
      SkipBlanksOver(b[1..], s);
    }
  }

  /** From the first character of element k's literal on */
  function Literals(bs: bytes, k: nat): string
    requires k < |bs|
  {
    Hex(bs[k]) + (Comma(bs, k) + From(bs, k + 1))
  }

  lemma {:induction false} SkipToLiteral(bs: bytes, k: nat)
    requires k < |bs|
    ensures SkipBlanks(From(bs, k)) == Literals(bs, k)
  {
    BlanksFirst(RowBreak(k), Indent(k), Hex(bs[k]), Comma(bs, k), From(bs, k + 1));
    SkipBlanksOver(RowBreak(k) + Indent(k), Literals(bs, k));
  }

  lemma {:induction false} BlanksFirst(r: string, n: string, h: string, c: string, f: string)
    ensures r + (n + h + c) + f == (r + n) + (h + (c + f))
  {
  }

  lemma {:induction false} ReadHex(c: byte, tail: string)
    ensures var s := Hex(c) + tail;
            && s[..2] == "0x" && s[4..] == tail
            && HexValue(s[2]) == c / 16 && HexValue(s[3]) == c % 16
  {
  }

  lemma {:induction false} ParseLiterals(bs: bytes, k: nat)
    requires k < |bs|
    ensures ParseElems(Literals(bs, k)) == bs[k..]
    decreases |bs| - k
  {
    var tail := Comma(bs, k) + From(bs, k + 1);
    ReadHex(bs[k], tail);
    ParseOne(bs[k], tail);
    if k < |bs| - 1 {
      assert tail[1..] == From(bs, k + 1) && SkipBlanks(tail) == tail;
      SkipToLiteral(bs, k + 1);
      ParseLiterals(bs, k + 1);
      assert bs[k..] == [bs[k]] + bs[k + 1..];
    } else {
      assert tail == "\n    " + "";
      SkipBlanksOver("\n    ", "");
      assert bs[k..] == [bs[k]];
    }
  }

  lemma {:induction false} ParseOne(c: byte, tail: string)
    ensures var rest := SkipBlanks(tail);
            ParseElems(Hex(c) + tail) ==
            if rest == [] then [c]
            else if rest[0] != ',' then [-1]
            else [c] + ParseElems(SkipBlanks(rest[1..]))
  {
    ReadHex(c, tail);
    var s := Hex(c) + tail;
    assert s[0] == s[..2][0] && s[1] == s[..2][1];
  }

  /** For every byte string, the initializer printed reads back as exactly those bytes. */
  lemma {:induction false} InitializerRoundTrips(bs: bytes)
    ensures Parse(Initializer(bs)) == bs
  {
    UptoFrom(bs, 0);
    assert Upto(bs, 0) + From(bs, 0) == From(bs, 0);
    if bs == [] {
      assert From(bs, 0) == "\n    " + "";
      SkipBlanksOver("\n    ", "");
    } else {
      SkipToLiteral(bs, 0);
      ParseLiterals(bs, 0);
    }
  }

  /** The text itself, for two bytes */
  lemma {:induction false} TwoBytes()
    ensures Initializer([7, 171]) == "        0x07,0xab\n    "
  {
    var bs: bytes := [7, 171];
    assert Hex(7) == "0x07" && Hex(171) == "0xab";
    assert Upto(bs, 1) == "" + "" + ("        " + "0x07" + ",") == "        0x07,";
    assert Upto(bs, 2) == Upto(bs, 1) + "" + ("" + "0xab" + "") == "        0x07,0xab";
  }

  // ---------------------------------------------------------------- layout

  function Count(c: char, s: string): nat {
    if s == [] then 0 else (if s[0] == c then 1 else 0) + Count(c, s[1..])
  }

  lemma {:induction false} CountConcat(c: char, s: string, t: string)
    ensures Count(c, s + t) == Count(c, s) + Count(c, t)
  {
    if s == [] {
      assert s + t == t;
    } else {
      assert (s + t)[1..] == s[1..] + t;
      CountConcat(c, s[1..], t);
    }
  }

  lemma {:induction false} CountNone(c: char, s: string)
    requires c !in s
    ensures Count(c, s) == 0
  {
    if s != [] {
      CountNone(c, s[1..]);
    }
  }

  lemma {:induction false} OneChar(d: char)
    ensures forall c :: Count(c, [d]) == if c == d then 1 else 0
  {
    assert [d][1..] == [];
  }

  lemma {:induction false} IndentCounts(k: nat)
    ensures Count('\n', Indent(k)) == Count(',', Indent(k)) == Count('x', Indent(k)) == 0
  {
    CountNone('\n', Indent(k));
    CountNone(',', Indent(k));
    CountNone('x', Indent(k));
  }

  lemma {:induction false} HexCounts(b: byte)
    ensures Count('\n', Hex(b)) == Count(',', Hex(b)) == 0 && Count('x', Hex(b)) == 1
  {
    CountNone('\n', Hex(b));
    CountNone(',', Hex(b));
    var digits := [HexDigit(b / 16), HexDigit(b % 16)];
    CountNone('x', digits);
    OneChar('0');
    OneChar('x');
    CountConcat('x', "0", "x");
    CountConcat('x', "0" + "x", digits);
    assert Hex(b) == "0" + "x" + digits;
  }

  lemma {:induction false} ElemCounts(bs: bytes, k: nat)
    requires k < |bs|
    ensures Count('\n', RowBreak(k) + Elem(bs, k)) == if k > 0 && k % 16 == 0 then 1 else 0
    ensures Count(',', RowBreak(k) + Elem(bs, k)) == if k < |bs| - 1 then 1 else 0
    ensures Count('x', RowBreak(k) + Elem(bs, k)) == 1
  {
    HexCounts(bs[k]);
    IndentCounts(k);
    forall c | c == '\n' || c == ',' || c == 'x'
      ensures Count(c, RowBreak(k) + Elem(bs, k)) ==
              Count(c, RowBreak(k)) + (if c == 'x' then 1 else 0) + Count(c, Comma(bs, k))
    {
      CountConcat(c, RowBreak(k), Elem(bs, k));
      CountConcat(c, Indent(k) + Hex(bs[k]), Comma(bs, k));
      CountConcat(c, Indent(k), Hex(bs[k]));
    }
    OneChar('\n');
    OneChar(',');
  }

  lemma {:induction false} Join(u: string, r: string, e: string)
    ensures u + r + e == u + (r + e)
  {
  }

  lemma {:induction false} UptoCounts(bs: bytes, k: nat)
    requires k <= |bs|
    ensures Count('\n', Upto(bs, k)) == if k == 0 then 0 else (k - 1) / 16
    ensures Count(',', Upto(bs, k)) == if k < |bs| || k == 0 then k else k - 1
    ensures Count('x', Upto(bs, k)) == k
  {
    if k > 0 {
      UptoCounts(bs, k - 1);
      ElemCounts(bs, k - 1);
      Join(Upto(bs, k - 1), RowBreak(k - 1), Elem(bs, k - 1));
      CountConcat('\n', Upto(bs, k - 1), RowBreak(k - 1) + Elem(bs, k - 1));
      CountConcat(',', Upto(bs, k - 1), RowBreak(k - 1) + Elem(bs, k - 1));
      CountConcat('x', Upto(bs, k - 1), RowBreak(k - 1) + Elem(bs, k - 1));
    }
  }

  /** As many lines as 16 elements to a line need (one empty line for no elements), and one comma less
      than elements. */
  lemma {:induction false} Layout(bs: bytes)
    ensures Count('\n', Initializer(bs)) == if bs == [] then 1 else (|bs| + 15) / 16
    ensures Count(',', Initializer(bs)) == if bs == [] then 0 else |bs| - 1
  {
    UptoCounts(bs, |bs|);
    CountConcat('\n', Upto(bs, |bs|), "\n    ");
    CountConcat(',', Upto(bs, |bs|), "\n    ");
    assert "\n    "[1..] == "    ";
    CountNone('\n', "    ");
    CountNone(',', "\n    ");
  }

  /** Of the elements, 16 stand before each line break for every line it ends */
  predicate FullRows(s: string) {
    forall p | 0 <= p < |s| && s[p] == '\n' :: Count('x', s[..p]) == 16 * (Count('\n', s[..p]) + 1)
  }

  lemma {:induction false} AppendRow(u: string, e: string)
    requires FullRows(u)
    requires forall p | 0 <= p < |e| && e[p] == '\n' :: p == 0 && Count('x', u) == 16 * (Count('\n', u) + 1)
    ensures FullRows(u + e)
  {
    forall p | 0 <= p < |u + e| && (u + e)[p] == '\n'
      ensures Count('x', (u + e)[..p]) == 16 * (Count('\n', (u + e)[..p]) + 1)
    {
      if p < |u| {
        assert (u + e)[..p] == u[..p];
      } else {
        assert e[p - |u|] == '\n' && (u + e)[..p] == u;
      }
    }
  }

  lemma {:induction false} UptoHasFullRows(bs: bytes, k: nat)
    requires k <= |bs|
    ensures FullRows(Upto(bs, k))
  {
    if k > 0 {
      var u, e := Upto(bs, k - 1), RowBreak(k - 1) + Elem(bs, k - 1);
      UptoHasFullRows(bs, k - 1);
      forall p | 0 <= p < |e| && e[p] == '\n'
        ensures p == 0 && Count('x', u) == 16 * (Count('\n', u) + 1)
      {
        RowIsFull(bs, k - 1, p);
      }
      AppendRow(u, e);
      Join(u, RowBreak(k - 1), Elem(bs, k - 1));
    }
  }

  lemma {:induction false} RowIsFull(bs: bytes, k: nat, p: nat)
    requires k < |bs| && p < |RowBreak(k) + Elem(bs, k)| && (RowBreak(k) + Elem(bs, k))[p] == '\n'
    ensures p == 0 && Count('x', Upto(bs, k)) == 16 * (Count('\n', Upto(bs, k)) + 1)
  {
    UptoCounts(bs, k);
    ElemBreaks(bs, k, p);
  }

  lemma {:induction false} ElemBreaks(bs: bytes, k: nat, p: nat)
    requires k < |bs| && p < |RowBreak(k) + Elem(bs, k)| && (RowBreak(k) + Elem(bs, k))[p] == '\n'
    ensures p == 0 && k > 0 && k % 16 == 0
  {
    assert '\n' !in Elem(bs, k);
  }

  /** Every line of elements but the last holds 16 of them, and the last one holds the rest. */
  lemma {:induction false} RowsOfSixteen(bs: bytes, p: nat)
    requires p < |Initializer(bs)| && Initializer(bs)[p] == '\n'
    ensures var lines := Count('\n', Initializer(bs)[..p]) + 1;
            Count('x', Initializer(bs)[..p]) == if 16 * lines < |bs| then 16 * lines else |bs|
  {
    var u := Upto(bs, |bs|);
    UptoCounts(bs, |bs|);
    if p < |u| {
      UptoHasFullRows(bs, |bs|);
      assert Initializer(bs)[..p] == u[..p];
      RowIsNotLast(bs, p);
    } else {
      assert Initializer(bs)[..p] == u;
    }
  }

  lemma {:induction false} RowIsNotLast(bs: bytes, p: nat)
    requires p < |Upto(bs, |bs|)|
    ensures Count('x', Upto(bs, |bs|)[..p]) <= |bs|
  {
    var u := Upto(bs, |bs|);
    UptoCounts(bs, |bs|);
    CountConcat('x', u[..p], u[p..]);
    assert u[..p] + u[p..] == u;
  }
}
