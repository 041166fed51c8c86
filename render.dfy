/** What `main` in grabc.c does with a colour once the server has resolved
    it: each 16-bit channel is cut to its high byte, and the bytes are printed
    as `#rrggbb` (format "#%02x%02x%02x\n") on standard output and as a decimal
    triple (format "%d,%d,%d\n") on standard error. Each line has a parser that
    reads its three values back. */
module Render {
  import opened Wrappers

  /** `v >> 8` of an unsigned short channel. */
  function Channel8(v: bv16): (c: nat)
    ensures c < 256 && c == v as int / 256
  {
    (v >> 8) as nat
  }

  lemma Channel8Boundaries()
    ensures Channel8(0) == 0 && Channel8(255) == 0 && Channel8(256) == 1 && Channel8(65535) == 255
  {
  }

  // ---------------------------------------------------------------- hex

  predicate IsLowerHex(c: char) {
    '0' <= c <= '9' || 'a' <= c <= 'f'
  }

  function HexDigit(d: nat): (c: char)
    requires d < 16
  {
    if d < 10 then ('0' as int + d) as char else ('a' as int + d - 10) as char
  }

  function HexDigitValue(c: char): (d: nat)
    requires IsLowerHex(c)
    ensures d < 16
  {
    if c <= '9' then c as int - '0' as int else c as int - 'a' as int + 10
  }

  /** `%02x` of a byte: two lower-case digits, most significant first. */
  function HexByte(b: nat): (s: string)
    requires b < 256
    ensures |s| == 2 && IsLowerHex(s[0]) && IsLowerHex(s[1])
    ensures HexDigitValue(s[0]) * 16 + HexDigitValue(s[1]) == b
  {
    [HexDigit(b / 16), HexDigit(b % 16)]
  }

  /** A line of the shape `#` six lower-case hex digits, newline. */
  predicate IsHexColorLine(s: string) {
    |s| == 8 && s[0] == '#' && s[7] == '\n' && forall i | 1 <= i < 7 :: IsLowerHex(s[i])
  }

  /** The three byte values a `#rrggbb` line denotes. */
  function HexLineValues(s: string): (v: seq<nat>)
    requires IsHexColorLine(s)
    ensures |v| == 3 && v[0] < 256 && v[1] < 256 && v[2] < 256
  {
    [HexDigitValue(s[1]) * 16 + HexDigitValue(s[2]),
     HexDigitValue(s[3]) * 16 + HexDigitValue(s[4]),
     HexDigitValue(s[5]) * 16 + HexDigitValue(s[6])]
  }

  /** The standard-output line of a successful run. */
  function HexLine(r: nat, g: nat, b: nat): (s: string)
    requires r < 256 && g < 256 && b < 256
    ensures IsHexColorLine(s) && HexLineValues(s) == [r, g, b]
  {
    var line := "#" + HexByte(r) + HexByte(g) + HexByte(b) + "\n";
    assert line[1..3] == HexByte(r) && line[3..5] == HexByte(g) && line[5..7] == HexByte(b);
    line
  }

  // ---------------------------------------------------------------- decimal

  predicate IsDigit(c: char) {
    '0' <= c <= '9'
  }

  predicate AllDigits(s: string) {
    forall i | 0 <= i < |s| :: IsDigit(s[i])
  }

  /** `%d` of a non-negative number: digits, no sign, no leading zero. */
  function Decimal(n: nat): (s: string)
    ensures |s| > 0 && AllDigits(s)
    ensures s[0] == '0' ==> n == 0
    ensures s[0] == '0' ==> s == "0"
    decreases n
  {
    if n < 10 then [('0' as int + n) as char]
    else Decimal(n / 10) + [('0' as int + n % 10) as char]
  }

  /** The number a string of decimal digits denotes. */
  function DecimalValue(s: string): nat
    requires AllDigits(s)
    decreases |s|
  {
    if s == [] then 0 else DecimalValue(s[..|s| - 1]) * 10 + (s[|s| - 1] as int - '0' as int)
  }

  lemma {:induction false} DecimalRoundTrip(n: nat)
    ensures DecimalValue(Decimal(n)) == n
    decreases n
  {
    if n >= 10 {
      var s := Decimal(n / 10);
      var t := s + [('0' as int + n % 10) as char];
      assert t[..|t| - 1] == s;
      DecimalRoundTrip(n / 10);
    }
  }

  /** The standard-error line of a successful run. */
  function DecimalLine(r: nat, g: nat, b: nat): (line: string)
    ensures |line| > 0 && line[|line| - 1] == '\n'
    ensures Split(line[..|line| - 1], ',') == [Decimal(r), Decimal(g), Decimal(b)]
  {
    var dr, dg, db := Decimal(r), Decimal(g), Decimal(b);
    var line := dr + "," + dg + "," + db + "\n";
    assert line[..|line| - 1] == dr + [','] + (dg + [','] + db);
    assert ',' !in dr && ',' !in dg && ',' !in db by {
      assert forall s: string | AllDigits(s) :: ',' !in s;
    }
    SplitAfterField(dr, ',', dg + [','] + db);
    SplitAfterField(dg, ',', db);
    SplitLastField(db, ',');
    line
  }

  /** The fields of `s` between occurrences of `sep`. */
  function Split(s: string, sep: char): (fields: seq<string>)
    ensures |fields| > 0
    decreases |s|
  {
    if s == [] then [[]]
    else
      var rest := Split(s[1..], sep);
      if s[0] == sep then [[]] + rest else [[s[0]] + rest[0]] + rest[1..]
  }

  lemma {:induction false} SplitNoSep(a: string, sep: char, b: string)
    requires sep !in a
    ensures Split(a + b, sep) == [a + Split(b, sep)[0]] + Split(b, sep)[1..]
    decreases |a|
  {
    if a != [] {
      assert (a + b)[1..] == a[1..] + b;
      SplitNoSep(a[1..], sep, b);
      assert [a[0]] + (a[1..] + Split(b, sep)[0]) == a + Split(b, sep)[0];
    } else {
      var fs := Split(b, sep);
      assert a + b == b && a + fs[0] == fs[0];
      assert fs == [fs[0]] + fs[1..];
    }
  }

  /** Splitting after a field that holds no separator yields that field first. */
  lemma SplitAfterField(a: string, sep: char, b: string)
    requires sep !in a
    ensures Split(a + [sep] + b, sep) == [a] + Split(b, sep)
  {
    assert a + [sep] + b == a + ([sep] + b);
    SplitNoSep(a, sep, [sep] + b);
    assert ([sep] + b)[1..] == b;
    var rest := Split([sep] + b, sep);
    assert rest == [[]] + Split(b, sep);
    assert a + rest[0] == a;
  }

  lemma SplitLastField(a: string, sep: char)
    requires sep !in a
    ensures Split(a, sep) == [a]
  {
    SplitNoSep(a, sep, []);
    assert a + [] == a;
  }

  /** The numbers a `r,g,b` line denotes, if it is one. */
  function DecimalLineValues(line: string): Option<seq<nat>> {
    if |line| == 0 || line[|line| - 1] != '\n' then None
    else
      var fields := Split(line[..|line| - 1], ',');
      if forall i | 0 <= i < |fields| :: |fields[i]| > 0 && AllDigits(fields[i]) then
        Some(seq(|fields|, i requires 0 <= i < |fields| && AllDigits(fields[i]) => DecimalValue(fields[i])))
      else None
  }

  lemma DecimalLineRoundTrip(r: nat, g: nat, b: nat)
    ensures DecimalLineValues(DecimalLine(r, g, b)) == Some([r, g, b])
  {
    var line := DecimalLine(r, g, b);
    var fields := Split(line[..|line| - 1], ',');
    assert fields == [Decimal(r), Decimal(g), Decimal(b)];
    DecimalRoundTrip(r);
    DecimalRoundTrip(g);
    DecimalRoundTrip(b);
    var values := seq(|fields|, i requires 0 <= i < |fields| && AllDigits(fields[i]) => DecimalValue(fields[i]));
    assert values == [r, g, b];
  }

  predicate EndsWith(s: string, suffix: string) {
    |suffix| <= |s| && s[|s| - |suffix|..] == suffix
  }
}
