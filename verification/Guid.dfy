/**
 * Device ids as text: the printing and scanning of a GUID by a common format, in the braced form of
 * section 2.3.4.3 of [MS-DTYP], and the search for a device by its id.
 */
module Guid {
  import opened Bytes
  import opened Wrappers

  // ---- Hexadecimal fields ----

  const DIGITS: string := "0123456789ABCDEF"

  /** A digit's value, in either case; 16 for any other character. */
  function Value(c: char): nat {
    if '0' <= c <= '9' then c as int - '0' as int
    else if 'A' <= c <= 'F' then c as int - 'A' as int + 10
    else if 'a' <= c <= 'f' then c as int - 'a' as int + 10
    else 16
  }

  function Digit(d: nat): char {
    DIGITS[d % 16]
  }

  function Pow16(n: nat): (p: nat)
    ensures p > 0
  {
    if n == 0 then 1 else 16 * Pow16(n - 1)
  }

  function Quotient(v: nat, p: nat): nat
    requires p > 0
  {
    v / p
  }

  function Remainder(v: nat, p: nat): nat
    requires p > 0
  {
    v % p
  }

  /** The n lowest digits of v, as `%0nX` prints a value that fits. */
  function Hex(v: nat, n: nat): (s: string)
    ensures |s| == n
  {
    if n == 0 then "" else [Digit(Quotient(v, Pow16(n - 1)))] + Hex(Remainder(v, Pow16(n - 1)), n - 1)
  }

  /** Digits, at most n of them, taken off the front of s and added to the value so far. */
  function Scan(acc: nat, s: string, n: nat): (nat, string)
    decreases n
  {
    if n == 0 || s == "" || Value(s[0]) == 16 then (acc, s) else Scan(acc * 16 + Value(s[0]), s[1..], n - 1)
  }

  lemma DigitStep(acc: nat, d: nat, p: nat, low: nat)
    ensures (acc * 16 + d) * p + low == acc * (16 * p) + (d * p + low)
  {
  }

  lemma DivMod(v: nat, p: nat)
    requires p > 0
    ensures v == Quotient(v, p) * p + Remainder(v, p) && Remainder(v, p) < p
  {
  }

  lemma DigitSmall(v: nat, p: nat)
    requires p > 0 && v < 16 * p
    ensures Quotient(v, p) < 16
  {
    hide Quotient, Remainder;
    DivMod(v, p);
    if Quotient(v, p) >= 16 {
      Monotone(16, Quotient(v, p), p);
    }
  }

  lemma Monotone(a: nat, b: nat, p: nat)
    requires a <= b
    ensures a * p <= b * p
  {
  }

  lemma DigitValue(d: nat)
    ensures Value(Digit(d)) == d % 16
  {
  }

  /** The digits of v are those of a first digit d and of what is left. */
  lemma FirstOfHex(v: nat, n: nat) returns (d: nat, low: nat)
    requires n > 0 && v < Pow16(n)
    ensures d < 16 && low < Pow16(n - 1) && v == d * Pow16(n - 1) + low && Hex(v, n) == [Digit(d)] + Hex(low, n - 1)
  {
    hide Quotient, Remainder;
    var p := Pow16(n - 1);
    d, low := Quotient(v, p), Remainder(v, p);
    DivMod(v, p);
    DigitSmall(v, p);
  }

  lemma {:induction false} ScanHex(acc: nat, v: nat, n: nat, rest: string)
    requires v < Pow16(n)
    ensures Scan(acc, Hex(v, n) + rest, n) == (acc * Pow16(n) + v, rest)
    decreases n
  {
    hide Value, Hex, Digit;
    if n == 0 {
      assert Hex(v, 0) + rest == rest;
    } else {
      var d, low := FirstOfHex(v, n);
      DigitValue(d);
      var s := Hex(v, n) + rest;
      assert s[1..] == Hex(low, n - 1) + rest;
      ScanHex(acc * 16 + d, low, n - 1, rest);
      DigitStep(acc, d, Pow16(n - 1), low);
    }
  }

  // ---- printf and sscanf by a format ----

  datatype Format = End | Literal(c: char, rest: Format) | Field(width: nat, rest: Format)

  /** How many values the format takes. */
  function Arity(f: Format): nat {
    match f
    case End => 0
    case Literal(_, rest) => Arity(rest)
    case Field(_, rest) => 1 + Arity(rest)
  }

  /** As many values as the format takes, each no larger than its field. */
  predicate Fits(f: Format, vs: seq<nat>) {
    match f
    case End => vs == []
    case Literal(_, rest) => Fits(rest, vs)
    case Field(width, rest) => vs != [] && width > 0 && vs[0] < Pow16(width) && Fits(rest, vs[1..])
  }

  function Printf(f: Format, vs: seq<nat>): string
    requires Fits(f, vs)
  {
    match f
    case End => ""
    case Literal(c, rest) => [c] + Printf(rest, vs)
    case Field(width, rest) => Hex(vs[0], width) + Printf(rest, vs[1..])
  }

  /** The values converted before the text stops matching. */
  function Sscanf(f: Format, s: string): seq<nat> {
    match f
    case End => []
    case Literal(c, rest) => if s != "" && s[0] == c then Sscanf(rest, s[1..]) else []
    case Field(width, rest) =>
      if s == "" || Value(s[0]) == 16 || width == 0 then []
      else [Scan(0, s, width).0] + Sscanf(rest, Scan(0, s, width).1)
  }

  /** What printf prints sscanf reads back. */
  lemma {:induction false} ScansWhatIsPrinted(f: Format, vs: seq<nat>)
    requires Fits(f, vs)
    ensures Sscanf(f, Printf(f, vs)) == vs
  {
    match f
    case End =>
    case Literal(c, rest) =>
      var s := Printf(f, vs);
      assert s[0] == c && s[1..] == Printf(rest, vs);
      ScansWhatIsPrinted(rest, vs);
    case Field(width, rest) =>
      ScanField(width, rest, vs);
      ScansWhatIsPrinted(rest, vs[1..]);
      assert vs == [vs[0]] + vs[1..];
  }

  /** The first field is read back, and the rest is left. */
  lemma ScanField(width: nat, rest: Format, vs: seq<nat>)
    requires Fits(Field(width, rest), vs)
    ensures var s, f := Printf(Field(width, rest), vs), Field(width, rest);
            Sscanf(f, s) == [vs[0]] + Sscanf(rest, Printf(rest, vs[1..]))
  {
    hide Scan, Hex, Value, Pow16;
    var tail := Printf(rest, vs[1..]);
    ScanHex(0, vs[0], width, tail);
    FirstDigit(vs[0], width);
    assert (Hex(vs[0], width) + tail)[0] == Hex(vs[0], width)[0];
  }

  function LowerCase(c: char): char {
    if 'A' <= c <= 'F' then ((c as int) + 32) as char else c
  }

  function LowerCased(s: string): (t: string)
    ensures |t| == |s| && forall i :: 0 <= i < |s| ==> t[i] == LowerCase(s[i])
  {
    if s == "" then "" else [LowerCase(s[0])] + LowerCased(s[1..])
  }

  lemma LowerValue(c: char)
    ensures Value(LowerCase(c)) == Value(c)
  {
  }

  lemma {:induction false} ScanLower(acc: nat, s: string, n: nat)
    ensures Scan(acc, LowerCased(s), n) == (Scan(acc, s, n).0, LowerCased(Scan(acc, s, n).1))
    decreases n
  {
    hide Value, LowerCase;
    if n > 0 && s != "" {
      LowerValue(s[0]);
      assert LowerCased(s)[1..] == LowerCased(s[1..]);
      if Value(s[0]) != 16 {
        ScanLower(acc * 16 + Value(s[0]), s[1..], n - 1);
      }
    }
  }

  /** A format without letters. */
  predicate NoLetters(f: Format) {
    match f
    case End => true
    case Literal(c, rest) => !('A' <= c <= 'F') && !('a' <= c <= 'f') && NoLetters(rest)
    case Field(_, rest) => NoLetters(rest)
  }

  /** Hexadecimal digits are read in either case. */
  lemma {:induction false} SscanfLower(f: Format, s: string)
    requires NoLetters(f)
    ensures Sscanf(f, LowerCased(s)) == Sscanf(f, s)
    decreases f
  {
    hide Value, Scan;
    match f
    case End =>
    case Literal(c, rest) =>
      if s != "" {
        assert LowerCased(s)[0] == LowerCase(s[0]) && LowerCased(s)[1..] == LowerCased(s[1..]);
        SscanfLower(rest, s[1..]);
      }
    case Field(width, rest) =>
      if s != "" {
        LowerValue(s[0]);
        ScanLower(0, s, width);
        SscanfLower(rest, Scan(0, s, width).1);
      }
  }

  lemma FirstDigit(v: nat, n: nat)
    requires n > 0
    ensures Value(Hex(v, n)[0]) < 16
  {
    hide Value, Digit, Quotient, Remainder;
    DigitValue(Quotient(v, Pow16(n - 1)));
  }

  lemma {:induction false} ScanFits(acc: nat, s: string, n: nat)
    ensures Scan(acc, s, n).0 < (acc + 1) * Pow16(n)
    decreases n
  {
    if n == 0 || s == "" || Value(s[0]) == 16 {
      Monotone(1, Pow16(n), acc + 1);
    } else {
      var d := Value(s[0]);
      ScanFits(acc * 16 + d, s[1..], n - 1);
      FitsNext(acc, d, Pow16(n - 1));
    }
  }

  lemma FitsNext(acc: nat, d: nat, p: nat)
    requires d < 16
    ensures (acc * 16 + d + 1) * p <= (acc + 1) * (16 * p)
  {
    Monotone(acc * 16 + d + 1, (acc + 1) * 16, p);
    assert (acc + 1) * 16 * p == (acc + 1) * (16 * p);
  }

  /** All the values a text gives fit their fields, if it gives as many as the format takes. */
  lemma {:induction false} ScannedFits(f: Format, s: string)
    requires |Sscanf(f, s)| == Arity(f)
    ensures Fits(f, Sscanf(f, s))
  {
    hide Scan;
    match f
    case End =>
    case Literal(c, rest) =>
      if s != "" && s[0] == c {
        ScannedFits(rest, s[1..]);
      } else {
        NothingFits(rest);
      }
    case Field(width, rest) =>
      ScanFits(0, s, width);
      ScannedFits(rest, Scan(0, s, width).1);
  }

  lemma {:induction false} NothingFits(f: Format)
    requires Arity(f) == 0
    ensures Fits(f, [])
  {
    match f
    case End =>
    case Literal(_, rest) => NothingFits(rest);
    case Field(_, _) =>
  }

  // ---- GUIDs ----

  const LAST_SIX := Field(2, Field(2, Field(2, Field(2, Field(2, Field(2, Literal('}', End)))))))
  const FORMAT :=
    Literal('{', Field(8, Literal('-',
      Field(4, Literal('-', Field(4, Literal('-', Field(2, Field(2, Literal('-', LAST_SIX))))))))))

  /** The fields of a GUID: a double word, two words and eight bytes. */
  predicate IsGuid(g: seq<nat>) {
    && |g| == 11
    && g[0] < 0x1_0000_0000 && g[1] < 0x1_0000 && g[2] < 0x1_0000
    && forall i :: 3 <= i < 11 ==> g[i] < 0x100
  }

  lemma FieldSizes()
    ensures Pow16(2) == 0x100 && Pow16(4) == 0x1_0000 && Pow16(8) == 0x1_0000_0000
  {
    assert Pow16(1) == 16 && Pow16(3) == 0x1000;
    assert Pow16(5) == 0x10_0000 && Pow16(6) == 0x100_0000 && Pow16(7) == 0x1000_0000;
  }

  function Widths(f: Format): seq<nat> {
    match f
    case End => []
    case Literal(_, rest) => Widths(rest)
    case Field(width, rest) => [width] + Widths(rest)
  }

  predicate Within(ws: seq<nat>, vs: seq<nat>) {
    |vs| == |ws| && forall i :: 0 <= i < |vs| ==> ws[i] > 0 && vs[i] < Pow16(ws[i])
  }

  lemma WithinFirst(w: nat, ws: seq<nat>, v: nat, vs: seq<nat>)
    ensures Within([w] + ws, [v] + vs) <==> w > 0 && v < Pow16(w) && Within(ws, vs)
  {
    hide Pow16;
    if Within([w] + ws, [v] + vs) {
      forall i | 0 <= i < |vs| ensures ws[i] > 0 && vs[i] < Pow16(ws[i]) {
        assert ([w] + ws)[i + 1] == ws[i] && ([v] + vs)[i + 1] == vs[i];
      }
      assert ([w] + ws)[0] == w && ([v] + vs)[0] == v;
    }
  }

  lemma {:induction false} FitsIff(f: Format, vs: seq<nat>)
    ensures Fits(f, vs) <==> Within(Widths(f), vs)
  {
    hide Pow16, Within;
    match f
    case End => NoneWithin(vs);
    case Literal(_, rest) => FitsIff(rest, vs);
    case Field(width, rest) =>
      if vs == [] {
        SomeWithin(Widths(f));
      } else {
        FitsIff(rest, vs[1..]);
        WithinFirst(width, Widths(rest), vs[0], vs[1..]);
        assert vs == [vs[0]] + vs[1..];
      }
  }

  lemma NoneWithin(vs: seq<nat>)
    ensures Within([], vs) <==> vs == []
  {
  }

  lemma SomeWithin(ws: seq<nat>)
    requires ws != []
    ensures !Within(ws, [])
  {
  }

  lemma FormatWidths()
    ensures Widths(FORMAT) == [8, 4, 4, 2, 2, 2, 2, 2, 2, 2, 2]
  {
    var two := Field(2, Field(2, Literal('}', End)));
    var four := Field(2, Field(2, two));
    var eight := Field(2, Field(2, Literal('-', LAST_SIX)));
    assert Widths(two) == [2, 2] && Widths(four) == [2, 2] + Widths(two) && Widths(LAST_SIX) == [2, 2] + Widths(four);
    assert Widths(Literal('-', LAST_SIX)) == Widths(LAST_SIX) && Widths(eight) == [2, 2] + Widths(LAST_SIX);
    var ten := Literal('-', Field(4, Literal('-', eight)));
    assert Widths(Literal('-', eight)) == Widths(eight) && Widths(ten) == [4] + Widths(eight);
    assert FORMAT == Literal('{', Field(8, Literal('-', Field(4, ten))));
    assert Widths(Literal('-', Field(4, ten))) == [4] + Widths(ten);
  }

  lemma GuidFits(g: seq<nat>)
    ensures IsGuid(g) <==> Fits(FORMAT, g)
  {
    hide Fits, Widths, Pow16;
    FieldSizes();
    FormatWidths();
    FitsIff(FORMAT, g);
  }

  /** The text of a GUID, as `guid_to_string` and the daemon print it. */
  function ToString(g: seq<nat>): string
    requires IsGuid(g)
  {
    GuidFits(g);
    Printf(FORMAT, g)
  }

  /** The closing brace is in the format, but a text without it gives its eleven values all the same. */
  function FromString(s: string): Option<seq<nat>> {
    var vs := Sscanf(FORMAT, s);
    if |vs| == 11 then Some(vs) else None
  }

  /** Printing takes 38 characters, and scanning them gives the GUID back. */
  lemma RoundTrip(g: seq<nat>)
    requires IsGuid(g)
    ensures |ToString(g)| == 38 && FromString(ToString(g)) == Some(g)
  {
    hide Fits, Printf, Sscanf, Arity;
    GuidFits(g);
    ScansWhatIsPrinted(FORMAT, g);
    PrintedLength(FORMAT, g);
    assert Length(FORMAT) == 38 by { FormatLength(); }
  }

  /** Scanning yields GUIDs only. */
  lemma FromStringIsGuid(s: string)
    requires FromString(s).Some?
    ensures IsGuid(FromString(s).value)
  {
    hide Fits, Sscanf, Arity, Widths;
    FormatWidths();
    ArityIs(FORMAT);
    ScannedFits(FORMAT, s);
    GuidFits(FromString(s).value);
  }

  /** Different GUIDs have different texts. */
  lemma ToStringInjective(g: seq<nat>, h: seq<nat>)
    requires IsGuid(g) && IsGuid(h) && ToString(g) == ToString(h)
    ensures g == h
  {
    hide ToString, FromString;
    RoundTrip(g);
    RoundTrip(h);
  }

  function Length(f: Format): nat {
    match f
    case End => 0
    case Literal(_, rest) => 1 + Length(rest)
    case Field(width, rest) => width + Length(rest)
  }

  lemma {:induction false} PrintedLength(f: Format, vs: seq<nat>)
    requires Fits(f, vs)
    ensures |Printf(f, vs)| == Length(f)
  {
    match f
    case End =>
    case Literal(_, rest) => PrintedLength(rest, vs);
    case Field(_, rest) => PrintedLength(rest, vs[1..]);
  }

  lemma {:induction false} ArityIs(f: Format)
    ensures Arity(f) == |Widths(f)|
  {
    match f
    case End =>
    case Literal(_, rest) => ArityIs(rest);
    case Field(_, rest) => ArityIs(rest);
  }

  lemma FormatLength()
    ensures Length(FORMAT) == 38
  {
    var two := Field(2, Field(2, Literal('}', End)));
    var four := Field(2, Field(2, two));
    var eight := Field(2, Field(2, Literal('-', LAST_SIX)));
    assert Length(two) == 5 && Length(four) == 9 && Length(LAST_SIX) == 13;
    assert Length(Literal('-', LAST_SIX)) == 14 && Length(eight) == 18;
    var ten := Literal('-', Field(4, Literal('-', eight)));
    assert Length(Literal('-', eight)) == 19 && Length(ten) == 24;
    assert FORMAT == Literal('{', Field(8, Literal('-', Field(4, ten))));
    assert Length(Literal('-', Field(4, ten))) == 29;
  }

  // ---- The daemon's text and the client's search ----

  /** The fields of an id of sixteen bytes, the first three little-endian. */
  function FromBytes(p: seq<byte>): (g: seq<nat>)
    requires |p| == 16
    ensures IsGuid(g)
  {
    [Le32(p, 0), Le16(p, 4), Le16(p, 6), p[8], p[9], p[10], p[11], p[12], p[13], p[14], p[15]]
  }

  function DaemonText(p: seq<byte>): string
    requires |p| == 16
  {
    ToString(FromBytes(p))
  }

  lemma Gap(d: nat, e: nat, low: nat, q: nat)
    requires low < q && d < e
    ensures d * q + low < e * q
  {
    Monotone(d + 1, e, q);
    assert (d + 1) * q == d * q + q;
  }

  lemma OneSplit(d: nat, low: nat, e: nat, high: nat, q: nat)
    requires d * q + low == e * q + high && low < q && high < q
    ensures d == e && low == high
  {
    if d < e {
      Gap(d, e, low, q);
    } else if e < d {
      Gap(e, d, high, q);
    }
  }

  /** A number's first digit and the rest of it. */
  lemma DigitFirst(d: nat, low: nat, n: nat)
    requires n > 0 && d < 16 && low < Pow16(n - 1)
    ensures Hex(d * Pow16(n - 1) + low, n) == [Digit(d)] + Hex(low, n - 1)
  {
    hide Quotient, Remainder, Digit, Hex;
    Gap(d, 16, low, Pow16(n - 1));
    var e, high := FirstOfHex(d * Pow16(n - 1) + low, n);
    OneSplit(d, low, e, high, Pow16(n - 1));
  }

  /** Two digits, high half first, as the daemon prints a byte. */
  function TwoDigits(b: byte): string {
    [DIGITS[b / 16], DIGITS[b % 16]]
  }

  lemma ByteFirst(b: byte, rest: nat, n: nat)
    requires n >= 2 && rest < Pow16(n - 2)
    ensures Hex(b * Pow16(n - 2) + rest, n) == TwoDigits(b) + Hex(rest, n - 2)
  {
    hide Hex, Digit, TwoDigits;
    var h, l := Halves(b);
    var p := Pow16(n - 2);
    Gap(l, 16, rest, p);
    DigitStep(h, l, p, rest);
    DigitFirst(h, l * p + rest, n);
    DigitFirst(l, rest, n - 1);
  }

  lemma Halves(b: byte) returns (h: nat, l: nat)
    ensures h < 16 && l < 16 && b == h * 16 + l && TwoDigits(b) == [Digit(h)] + [Digit(l)]
  {
    hide Digit;
    h, l := b / 16, b % 16;
    SmallDigit(h);
    SmallDigit(l);
  }

  lemma SmallDigit(d: nat)
    requires d < 16
    ensures Digit(d) == DIGITS[d]
  {
  }

  lemma ByteDigits(b: byte)
    ensures Hex(b, 2) == TwoDigits(b)
  {
    hide TwoDigits;
    ByteFirst(b, 0, 2);
    assert Pow16(0) == 1 && Hex(0, 0) == "" && TwoDigits(b) + "" == TwoDigits(b);
  }

  lemma WordDigits(p: seq<byte>, i: nat)
    requires i + 2 <= |p|
    ensures Hex(Le16(p, i), 4) == TwoDigits(p[i + 1]) + TwoDigits(p[i])
  {
    hide Hex, TwoDigits, Pow16;
    FieldSizes();
    ByteFirst(p[i + 1], p[i], 4);
    ByteDigits(p[i]);
  }

  lemma DoubleDigits(p: seq<byte>, i: nat)
    requires i + 4 <= |p|
    ensures Hex(Le32(p, i), 8)
         == TwoDigits(p[i + 3]) + TwoDigits(p[i + 2]) + TwoDigits(p[i + 1]) + TwoDigits(p[i])
  {
    hide Hex, TwoDigits, Pow16;
    FieldSizes();
    SixDigits();
    var low: nat := Le16(p, i);
    var three: nat := p[i + 2] as int * 0x1_0000 + low;
    ByteFirst(p[i + 3], three, 8);
    ByteFirst(p[i + 2], low, 6);
    WordDigits(p, i);
    assert Le32(p, i) == p[i + 3] as int * 0x100_0000 + three;
    assert TwoDigits(p[i + 3]) + (TwoDigits(p[i + 2]) + (TwoDigits(p[i + 1]) + TwoDigits(p[i])))
        == TwoDigits(p[i + 3]) + TwoDigits(p[i + 2]) + TwoDigits(p[i + 1]) + TwoDigits(p[i]);
  }

  lemma SixDigits()
    ensures Pow16(6) == 0x100_0000
  {
    assert Pow16(3) == 0x1000;
  }

  /** The text of an id byte by byte: the first three groups are little-endian words, the rest stands in order. */
  lemma DaemonTextIs(p: seq<byte>)
    requires |p| == 16
    ensures DaemonText(p)
         == "{" + (TwoDigits(p[3]) + TwoDigits(p[2]) + TwoDigits(p[1]) + TwoDigits(p[0]))
          + ("-" + (TwoDigits(p[5]) + TwoDigits(p[4]))
          + ("-" + (TwoDigits(p[7]) + TwoDigits(p[6]))
          + ("-" + (TwoDigits(p[8]) + TwoDigits(p[9])
          + ("-" + (TwoDigits(p[10]) + TwoDigits(p[11])
                 + (TwoDigits(p[12]) + TwoDigits(p[13]) + (TwoDigits(p[14]) + TwoDigits(p[15]) + "}"))))))))
  {
    hide Hex, TwoDigits, Pow16, Le32, Le16;
    var g := FromBytes(p);
    GuidFits(g);
    DoubleDigits(p, 0);
    WordDigits(p, 4);
    WordDigits(p, 6);
    forall i | 8 <= i < 16 ensures Hex(p[i], 2) == TwoDigits(p[i]) {
      ByteDigits(p[i]);
    }
    PrintedGuid(g);
  }

  lemma PrintTwo(rest: Format, vs: seq<nat>)
    requires Fits(Field(2, Field(2, rest)), vs)
    ensures |vs| >= 2 && Fits(rest, vs[2..])
    ensures Printf(Field(2, Field(2, rest)), vs) == Hex(vs[0], 2) + Hex(vs[1], 2) + Printf(rest, vs[2..])
  {
    hide Hex, Pow16;
    assert vs[1..][1..] == vs[2..];
    assert Printf(Field(2, rest), vs[1..]) == Hex(vs[1], 2) + Printf(rest, vs[2..]);
  }

  lemma PrintGroup(c: char, width: nat, rest: Format, vs: seq<nat>)
    requires Fits(Literal(c, Field(width, rest)), vs)
    ensures |vs| >= 1 && Fits(rest, vs[1..])
    ensures Printf(Literal(c, Field(width, rest)), vs) == [c] + Hex(vs[0], width) + Printf(rest, vs[1..])
  {
    hide Hex, Pow16;
    assert Printf(Field(width, rest), vs) == Hex(vs[0], width) + Printf(rest, vs[1..]);
  }

  lemma PrintLiteral(c: char, rest: Format, vs: seq<nat>)
    requires Fits(Literal(c, rest), vs)
    ensures Fits(rest, vs) && Printf(Literal(c, rest), vs) == [c] + Printf(rest, vs)
  {
  }

  lemma PrintEnd(vs: seq<nat>)
    requires Fits(Literal('}', End), vs)
    ensures vs == [] && Printf(Literal('}', End), vs) == "}"
  {
  }

  /** A GUID in lower case is read as the same one. */
  lemma LowerCaseSame(g: seq<nat>)
    requires IsGuid(g)
    ensures FromString(LowerCased(ToString(g))) == Some(g)
  {
    hide Sscanf, Printf;
    assert NoLetters(LAST_SIX) && NoLetters(FORMAT);
    SscanfLower(FORMAT, ToString(g));
    RoundTrip(g);
  }

  /** What the format prints, group by group. */
  lemma PrintedGuid(g: seq<nat>)
    requires IsGuid(g)
    ensures ToString(g)
         == "{" + Hex(g[0], 8) + ("-" + Hex(g[1], 4) + ("-" + Hex(g[2], 4) + ("-" + (Hex(g[3], 2) + Hex(g[4], 2)
          + ("-" + (Hex(g[5], 2) + Hex(g[6], 2)
                 + (Hex(g[7], 2) + Hex(g[8], 2) + (Hex(g[9], 2) + Hex(g[10], 2) + "}"))))))))
  {
    hide Hex, Pow16, Printf, Fits;
    GuidFits(g);
    var f5 := Literal('-', LAST_SIX);
    var f3 := Field(2, Field(2, f5));
    var f2 := Literal('-', f3);
    var f1 := Literal('-', Field(4, f2));
    PrintGroup('{', 8, Literal('-', Field(4, f1)), g);
    PrintGroup('-', 4, f1, g[1..]);
    PrintGroup('-', 4, f2, g[1..][1..]);
    assert g[1..][1..][1..] == g[3..];
    PrintLiteral('-', f3, g[3..]);
    PrintTwo(f5, g[3..]);
    assert g[3..][2..] == g[5..];
    PrintLiteral('-', LAST_SIX, g[5..]);
    PrintedSix(g[5..]);
  }

  lemma PrintedSix(v: seq<nat>)
    requires |v| == 6 && Fits(LAST_SIX, v)
    ensures Printf(LAST_SIX, v)
         == Hex(v[0], 2) + Hex(v[1], 2) + (Hex(v[2], 2) + Hex(v[3], 2) + (Hex(v[4], 2) + Hex(v[5], 2) + "}"))
  {
    hide Hex, Pow16, Printf, Fits;
    var two := Field(2, Field(2, Literal('}', End)));
    PrintTwo(Field(2, Field(2, two)), v);
    PrintTwo(two, v[2..]);
    PrintTwo(Literal('}', End), v[2..][2..]);
    PrintEnd(v[2..][2..][2..]);
  }

  /** An id is determined by its fields. */
  lemma FromBytesInjective(p: seq<byte>, q: seq<byte>)
    requires |p| == |q| == 16 && FromBytes(p) == FromBytes(q)
    ensures p == q
  {
    hide Le32, Le16;
    var g, h := FromBytes(p), FromBytes(q);
    assert g[0] == h[0] && g[1] == h[1] && g[2] == h[2];
    SameWord(p, q, 0);
    SameHalf(p, q, 4);
    SameHalf(p, q, 6);
    forall i | 0 <= i < 16 ensures p[i] == q[i] {
      if i >= 8 {
        assert g[i - 5] == h[i - 5];
      }
    }
  }

  /** Every GUID is the value of an id. */
  lemma FromBytesOnto(g: seq<nat>) returns (p: seq<byte>)
    requires IsGuid(g)
    ensures |p| == 16 && FromBytes(p) == g
  {
    p := ToLe32(g[0]) + ToLe16(g[1]) + ToLe16(g[2]) + seq(8, i requires 0 <= i < 8 => g[i + 3]);
    assert Le32(p, 0) == Le32(ToLe32(g[0]), 0) && Le16(p, 4) == Le16(ToLe16(g[1]), 0)
        && Le16(p, 6) == Le16(ToLe16(g[2]), 0);
  }

  /** Reading what the daemon printed and printing it again gives the same text; equal texts mean equal ids. */
  lemma DaemonTextFaithful(p: seq<byte>, q: seq<byte>)
    requires |p| == |q| == 16
    ensures FromString(DaemonText(p)) == Some(FromBytes(p))
    ensures ToString(FromString(DaemonText(p)).value) == DaemonText(p)
    ensures DaemonText(p) == DaemonText(q) <==> p == q
  {
    hide ToString, FromString, FromBytes;
    RoundTrip(FromBytes(p));
    if DaemonText(p) == DaemonText(q) {
      ToStringInjective(FromBytes(p), FromBytes(q));
      FromBytesInjective(p, q);
    }
  }

  /** Finds the first device with this id by comparing texts; ids are those the devices' texts were made of. */
  method FindDevice(texts: seq<string>, id: seq<nat>, ghost ids: seq<seq<byte>>) returns (r: Option<nat>)
    requires IsGuid(id) && |ids| == |texts|
    requires forall i :: 0 <= i < |ids| ==> |ids[i]| == 16 && texts[i] == DaemonText(ids[i])
    ensures r.Some? ==> r.value < |ids| && FromBytes(ids[r.value]) == id
    ensures r.Some? ==> forall j :: 0 <= j < r.value ==> FromBytes(ids[j]) != id
    ensures r.None? ==> forall j :: 0 <= j < |ids| ==> FromBytes(ids[j]) != id
  {
    hide ToString, FromString, FromBytes;
    var text := ToString(id);
    var i := 0;
    while i < |texts|
      invariant i <= |texts|
      invariant forall j :: 0 <= j < i ==> FromBytes(ids[j]) != id
    {
      if text == texts[i] {
        ToStringInjective(id, FromBytes(ids[i]));
        return Some(i);
      }
      i := i + 1;
    }
    return None;
  }
}
