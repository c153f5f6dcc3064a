/**
  The C string operations the console relies on, stated over Dafny strings:
  substring search (strstr), newline tokenising (strtok with "\n"), the
  NUL-terminated view of a read buffer (strncat), decimal and "%4.1f"
  formatting (sprintf) and the fixed-width display line.
  A Dafny string here is the C byte string: each char stands for one byte
  (UTF-8 text appears as its bytes), so every length and the display width
  count bytes.
 */
module Text {

  // ---------------------------------------------------------------------------
  // strstr
  // ---------------------------------------------------------------------------

  /** `needle` occurs in `hay` starting at index `i`. */
  ghost predicate OccursAt(hay: string, needle: string, i: int)
  {
    0 <= i && i + |needle| <= |hay| && hay[i..i + |needle|] == needle
  }

  /** strstr(hay, needle) != NULL. The empty needle occurs in every string. */
  function Contains(hay: string, needle: string): bool
    decreases |hay|
  {
    if |needle| > |hay| then false
    else if hay[..|needle|] == needle then true
    else Contains(hay[1..], needle)
  }

  /** Contains is exactly "occurs at some index". */
  lemma {:induction false} ContainsIff(hay: string, needle: string)
    ensures Contains(hay, needle) <==> exists i :: OccursAt(hay, needle, i)
    decreases |hay|
  {
    if |needle| > |hay| {
      forall i ensures !OccursAt(hay, needle, i) { }
    } else if hay[..|needle|] == needle {
      assert OccursAt(hay, needle, 0);
    } else {
      ContainsIff(hay[1..], needle);
      if Contains(hay[1..], needle) {
        var i :| OccursAt(hay[1..], needle, i);
        assert hay[1..][i..i + |needle|] == hay[i + 1..i + 1 + |needle|];
        assert OccursAt(hay, needle, i + 1);
      } else {
        forall i | OccursAt(hay, needle, i) ensures false {
          assert i != 0;
          assert hay[1..][i - 1..i - 1 + |needle|] == hay[i..i + |needle|];
          assert OccursAt(hay[1..], needle, i - 1);
        }
      }
    }
  }

  // ---------------------------------------------------------------------------
  // strtok(buffer, "\n")
  // ---------------------------------------------------------------------------

  /** Length of the run of non-newline characters at the start of `s`. */
  function LineLength(s: string): (n: nat)
    ensures n <= |s|
    ensures forall i :: 0 <= i < n ==> s[i] != '\n'
    ensures n < |s| ==> s[n] == '\n'
  {
    if s == [] || s[0] == '\n' then 0 else 1 + LineLength(s[1..])
  }

  /**
    The tokens strtok(s, "\n") returns, in order: the maximal runs of
    non-newline characters. Runs of several newlines yield no empty token,
    and a last run without a terminating newline is a token like the others.
   */
  function Segments(s: string): (r: seq<string>)
    ensures forall k :: 0 <= k < |r| ==> r[k] != [] && '\n' !in r[k]
    decreases |s|
  {
    if s == [] then []
    else if s[0] == '\n' then Segments(s[1..])
    else
      var n := LineLength(s);
      [s[..n]] + Segments(s[n..])
  }

  /** The characters of `s` other than newlines, in order. */
  function WithoutNewlines(s: string): (r: string)
    ensures '\n' !in r
  {
    if s == [] then [] else (if s[0] == '\n' then [] else [s[0]]) + WithoutNewlines(s[1..])
  }

  function Concat(ss: seq<string>): string
  {
    if ss == [] then [] else ss[0] + Concat(ss[1..])
  }

  lemma {:induction false} WithoutNewlinesAppend(a: string, b: string)
    ensures WithoutNewlines(a + b) == WithoutNewlines(a) + WithoutNewlines(b)
    decreases |a|
  {
    if a == [] {
      assert a + b == b;
    } else {
      assert (a + b)[0] == a[0];
      assert (a + b)[1..] == a[1..] + b;
      WithoutNewlinesAppend(a[1..], b);
    }
  }

  lemma {:induction false} WithoutNewlinesOfLine(s: string)
    requires '\n' !in s
    ensures WithoutNewlines(s) == s
    decreases |s|
  {
    if s != [] {
      WithoutNewlinesOfLine(s[1..]);
    }
  }

  /** Tokenising loses no character and adds none: only the newlines go. */
  lemma {:induction false} SegmentsKeepContent(s: string)
    ensures Concat(Segments(s)) == WithoutNewlines(s)
    decreases |s|
  {
    if s == [] {
    } else if s[0] == '\n' {
      SegmentsKeepContent(s[1..]);
    } else {
      var n := LineLength(s);
      SegmentsKeepContent(s[n..]);
      assert s == s[..n] + s[n..];
      WithoutNewlinesAppend(s[..n], s[n..]);
      WithoutNewlinesOfLine(s[..n]);
      assert ([s[..n]] + Segments(s[n..]))[1..] == Segments(s[n..]);
    }
  }

  lemma {:induction false} LineLengthBeforeNewline(a: string, b: string)
    ensures LineLength(a + "\n" + b) == LineLength(a)
    decreases |a|
  {
    if a != [] && a[0] != '\n' {
      assert (a + "\n" + b)[1..] == a[1..] + "\n" + b;
      LineLengthBeforeNewline(a[1..], b);
    }
  }

  /** A newline separates tokens: what comes before and after it is tokenised independently. */
  lemma {:induction false} SegmentsSplit(a: string, b: string)
    ensures Segments(a + "\n" + b) == Segments(a) + Segments(b)
    decreases |a|
  {
    var s := a + "\n" + b;
    if a == [] {
      assert s == "\n" + b;
      assert s[1..] == b;
    } else if a[0] == '\n' {
      assert s[1..] == a[1..] + "\n" + b;
      SegmentsSplit(a[1..], b);
    } else {
      var n := LineLength(a);
      LineLengthBeforeNewline(a, b);
      assert LineLength(s) == n;
      assert s[..n] == a[..n];
      assert s[n..] == a[n..] + "\n" + b;
      SegmentsSplit(a[n..], b);
    }
  }

  /** A non-empty string without a newline is a single token. */
  lemma SegmentsOfLine(m: string)
    requires m != [] && '\n' !in m
    ensures Segments(m) == [m]
  {
    assert LineLength(m) == |m|;
    assert m[..|m|] == m;
    assert m[|m|..] == [];
    assert Segments(m) == [m] + Segments([]);
  }

  // ---------------------------------------------------------------------------
  // strncat: a C string ends at its first NUL
  // ---------------------------------------------------------------------------

  /** The longest prefix of `bytes` without a NUL: what strncat copies. */
  function CString(bytes: string): (r: string)
    ensures |r| <= |bytes| && r == bytes[..|r|]
    ensures '\0' !in r
    ensures |r| < |bytes| ==> bytes[|r|] == '\0'
  {
    if bytes == [] || bytes[0] == '\0' then [] else [bytes[0]] + CString(bytes[1..])
  }

  /** A read without NUL bytes is copied whole. */
  lemma {:induction false} CStringWhole(bytes: string)
    requires '\0' !in bytes
    ensures CString(bytes) == bytes
  {
    if bytes != [] {
      assert bytes[0] in bytes;
      assert forall c :: c in bytes[1..] ==> c in bytes;
      CStringWhole(bytes[1..]);
    }
  }

  // ---------------------------------------------------------------------------
  // sprintf("%d") and sprintf("%4.1f")
  // ---------------------------------------------------------------------------

  predicate IsDigit(c: char)
  {
    '0' <= c <= '9'
  }

  function DigitChar(d: nat): (c: char)
    requires d < 10
    ensures IsDigit(c)
  {
    ('0' as int + d) as char
  }

  function DigitValue(c: char): nat
  {
    if IsDigit(c) then c as int - '0' as int else 0
  }

  /** The decimal digits of `n`, most significant first, without leading zeros. */
  function Decimal(n: nat): (r: string)
    ensures |r| >= 1
    ensures forall i :: 0 <= i < |r| ==> IsDigit(r[i])
    ensures r[0] == '0' <==> n == 0
  {
    if n < 10 then [DigitChar(n)] else Decimal(n / 10) + [DigitChar(n % 10)]
  }

  /** The number a string of decimal digits denotes (the inverse of Decimal). */
  function DigitsValue(s: string): nat
  {
    if s == [] then 0 else DigitsValue(s[..|s| - 1]) * 10 + DigitValue(s[|s| - 1])
  }

  lemma {:induction false} DecimalRoundTrip(n: nat)
    ensures DigitsValue(Decimal(n)) == n
  {
    if n >= 10 {
      var d := Decimal(n / 10);
      DecimalRoundTrip(n / 10);
      assert (d + [DigitChar(n % 10)])[..|d|] == d;
    }
  }

  const TwoTo31: int := 0x8000_0000
  const TwoTo32: int := 0x1_0000_0000

  /** The value a 64-bit JSON integer has once read as a C `int` (two's complement wrap-around). */
  function Int32(i: int): (r: int)
    ensures -TwoTo31 <= r < TwoTo31
    ensures (r - i) % TwoTo32 == 0
    ensures -TwoTo31 <= i < TwoTo31 ==> r == i
  {
    (i + TwoTo31) % TwoTo32 - TwoTo31
  }

  /** sprintf("%d", i). */
  function IntToDecimal(i: int): string
  {
    if i < 0 then "-" + Decimal(-i) else Decimal(i)
  }

  /** Reads back what IntToDecimal writes: an optional '-' then digits. */
  function ParseInt(s: string): int
  {
    if s != [] && s[0] == '-' then 0 - DigitsValue(s[1..]) else DigitsValue(s)
  }

  lemma IntToDecimalRoundTrip(i: int)
    ensures ParseInt(IntToDecimal(i)) == i
  {
    if i < 0 {
      DecimalRoundTrip(-i);
      assert ("-" + Decimal(-i))[1..] == Decimal(-i);
    } else {
      DecimalRoundTrip(i);
      assert IsDigit(Decimal(i)[0]);
    }
  }

  function Spaces(n: nat): (r: string)
    ensures |r| == n && forall i :: 0 <= i < n ==> r[i] == ' '
  {
    if n == 0 then [] else Spaces(n - 1) + " "
  }

  /** The minimum field width of "%4.1f". */
  const RealFieldWidth: nat := 4

  /**
    sprintf("%4.1f", x) for a number x already rounded to one decimal place and
    given in tenths: an optional '-', the integer part, '.', one digit, the
    whole right-aligned in a field of four characters.
   */
  function FormatTenths(t: int): (r: string)
    ensures |r| >= RealFieldWidth
    ensures r[|r| - 2] == '.' && IsDigit(r[|r| - 1])
    ensures var body := TenthsBody(t);
      && |r| == (if |body| < RealFieldWidth then RealFieldWidth else |body|)
      && r[|r| - |body|..] == body
      && forall j :: 0 <= j < |r| - |body| ==> r[j] == ' '
  {
    var body := TenthsBody(t);
    if |body| < RealFieldWidth then Spaces(RealFieldWidth - |body|) + body else body
  }

  /** The digits of a magnitude in tenths: integer part, '.', one digit. */
  function UnsignedTenths(mag: nat): string
  {
    Decimal(mag / 10) + "." + [DigitChar(mag % 10)]
  }

  /** "%4.1f" before right-alignment: the sign, then the digits. */
  function TenthsBody(t: int): string
  {
    (if t < 0 then "-" else "") + UnsignedTenths(if t < 0 then -t else t)
  }

  function DropLeadingSpaces(s: string): string
  {
    if s != [] && s[0] == ' ' then DropLeadingSpaces(s[1..]) else s
  }

  /** Reads back what FormatTenths writes, in tenths. */
  function ParseTenths(s: string): int
  {
    ParseSignedTenths(DropLeadingSpaces(s))
  }

  /** Reads an optional '-', digits, '.' and one digit, in tenths. */
  function ParseSignedTenths(u: string): int
  {
    var neg := u != [] && u[0] == '-';
    var m := if neg then u[1..] else u;
    var v: int := if |m| < 2 then 0 else DigitsValue(m[..|m| - 2]) * 10 + DigitValue(m[|m| - 1]);
    if neg then -v else v
  }

  lemma {:induction false} DropSpacesPrefix(n: nat, s: string)
    requires s != [] && s[0] != ' '
    ensures DropLeadingSpaces(Spaces(n) + s) == s
  {
    if n > 0 {
      assert Spaces(n) + s == " " + (Spaces(n - 1) + s);
      DropSpacesPrefix(n - 1, s);
    }
  }

  lemma UnsignedTenthsRoundTrip(mag: nat)
    ensures var m := UnsignedTenths(mag);
      |m| >= 3 && DigitsValue(m[..|m| - 2]) * 10 + DigitValue(m[|m| - 1]) == mag
  {
    var digits := Decimal(mag / 10);
    var m := UnsignedTenths(mag);
    assert m[..|m| - 2] == digits;
    DecimalRoundTrip(mag / 10);
  }

  lemma FormatTenthsUnpads(t: int)
    ensures DropLeadingSpaces(FormatTenths(t)) == TenthsBody(t)
  {
    var mag: nat := if t < 0 then -t else t;
    var body := TenthsBody(t);
    var r := FormatTenths(t);
    assert IsDigit(Decimal(mag / 10)[0]);
    assert body[0] != ' ';
    assert r == Spaces(|r| - |body|) + body;
    DropSpacesPrefix(|r| - |body|, body);
  }

  lemma TenthsBodyRoundTrip(t: int)
    ensures ParseSignedTenths(TenthsBody(t)) == t
  {
    var mag: nat := if t < 0 then -t else t;
    var m := UnsignedTenths(mag);
    var body := TenthsBody(t);
    assert IsDigit(Decimal(mag / 10)[0]);
    if t < 0 {
      assert body[0] == '-' && body[1..] == m;
    } else {
      assert body == m && m[0] != '-';
    }
    UnsignedTenthsRoundTrip(mag);
  }

  /** "%4.1f" loses nothing of a value that already has one decimal place. */
  lemma FormatTenthsRoundTrip(t: int)
    ensures ParseTenths(FormatTenths(t)) == t
  {
    FormatTenthsUnpads(t);
    TenthsBodyRoundTrip(t);
  }

  // ---------------------------------------------------------------------------
  // the fixed-width display line
  // ---------------------------------------------------------------------------

  /** LCDWIDTH: characters per display row. */
  const LcdWidth: nat := 20
  /** The header the padding width is measured against, as strlen("MESSAGE 0 0 1 "). */
  const MessageHeader: string := "MESSAGE 0 0 1 "
  /** Every padded display command is this many bytes before its newline. */
  const LineWidth: nat := LcdWidth + |MessageHeader|

  /**
    A display command filled with spaces, or cut, to exactly LineWidth
    bytes and terminated by a newline, so that it overwrites the
    whole row.
   */
  function Padded(line: string): (r: string)
    ensures |r| == LineWidth + 1 && r[LineWidth] == '\n'
    ensures forall j :: 0 <= j < LineWidth ==> r[j] == if j < |line| then line[j] else ' '
  {
    (if |line| >= LineWidth then line[..LineWidth] else line + Spaces(LineWidth - |line|)) + "\n"
  }

  /** The space-filling loop at the end of handleDevice. */
  method PadLine(line: string) returns (r: string)
    ensures r == Padded(line)
  {
    var buf := line;
    var j := |line|;
    while j < LineWidth
      invariant |line| <= j && |buf| == j
      invariant j > LineWidth ==> j == |line|
      invariant buf[..|line|] == line
      invariant forall k :: |line| <= k < j ==> buf[k] == ' '
    {
      buf := buf + " ";
      j := j + 1;
    }
    r := buf[..LineWidth] + "\n";
    var p := Padded(line);
    assert |r| == |p|;
    forall k | 0 <= k < |r| ensures r[k] == p[k] {
      if k < LineWidth && k < |line| {
        assert buf[k] == buf[..|line|][k];
      }
    }
  }
}
