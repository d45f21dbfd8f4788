/** The string functions of the Go standard library that the wiki and slug code use. */
module Text {

  /** unicode.IsSpace. */
  predicate IsSpace(c: char) {
    var u := c as int;
    9 <= u <= 13 || u == 32 || u == 0x85 || u == 0xA0 || u == 0x1680 || 0x2000 <= u <= 0x200A
    || u == 0x2028 || u == 0x2029 || u == 0x202F || u == 0x205F || u == 0x3000
  }

  predicate IsLineEnd(c: char) {
    c == '\r' || c == '\n'
  }

  predicate IsQuote(c: char) {
    c == '"' || c == '\''
  }

  predicate IsDash(c: char) {
    c == '-'
  }

  /** What may be trimmed off the ends of a text. */
  datatype Cut = Blanks | LineEnds | Quotes | Dashes

  predicate In(c: char, p: Cut) {
    match p
    case Blanks => IsSpace(c)
    case LineEnds => IsLineEnd(c)
    case Quotes => IsQuote(c)
    case Dashes => IsDash(c)
  }

  function TrimLeft(s: string, p: Cut): string {
    if s != "" && In(s[0], p) then TrimLeft(s[1..], p) else s
  }

  function TrimRight(s: string, p: Cut): string {
    if s != "" && In(s[|s| - 1], p) then TrimRight(s[..|s| - 1], p) else s
  }

  function Trim(s: string, p: Cut): string {
    TrimRight(TrimLeft(s, p), p)
  }

  function TrimSpace(s: string): string {
    Trim(s, Blanks)
  }

  /** Neither end is in the cut set. */
  predicate Clean(s: string, p: Cut) {
    s == "" || (!In(s[0], p) && !In(s[|s| - 1], p))
  }

  ghost predicate AllIn(s: string, p: Cut) {
    forall i | 0 <= i < |s| :: In(s[i], p)
  }

  /** Lower-casing, character by character. */
  function LowerBy(s: string, lower: char -> char): (r: string)
    ensures |r| == |s| && forall i :: 0 <= i < |s| ==> r[i] == lower(s[i])
  {
    seq(|s|, i requires 0 <= i < |s| => lower(s[i]))
  }

  function Digit(d: nat): (c: char)
    requires d < 10
    ensures '0' <= c <= '9' && c as int == '0' as int + d
  {
    ('0' as int + d) as char
  }

  /** Decimal digits of a number, as %d prints it. */
  function Decimal(n: nat): (r: string)
    ensures r != "" && forall i | 0 <= i < |r| :: '0' <= r[i] <= '9'
  {
    if n < 10 then [Digit(n)] else Decimal(n / 10) + [Digit(n % 10)]
  }

  function HexDigit(n: nat): char
    requires n < 16
  {
    if n < 10 then ('0' as int + n) as char else ('a' as int + n - 10) as char
  }

  function Hex(n: nat, width: nat): string {
    if width == 0 then "" else Hex(n / 16, width - 1) + [HexDigit(n % 16)]
  }

  function HexValue(c: char): nat {
    if '0' <= c <= '9' then c as int - '0' as int
    else if 'a' <= c <= 'f' then c as int - 'a' as int + 10
    else 0
  }

  /** The number a text of hexadecimal digits stands for. */
  function HexReading(s: string): nat {
    if s == "" then 0 else 16 * HexReading(s[..|s| - 1]) + HexValue(s[|s| - 1])
  }

  function Pow16(w: nat): nat {
    if w == 0 then 1 else 16 * Pow16(w - 1)
  }

  lemma PowersOf16()
    ensures Pow16(2) == 256 && Pow16(4) == 0x10000 && Pow16(8) == 0x1_0000_0000
  {
    assert Pow16(2) == 16 * Pow16(1) == 256;
    assert Pow16(4) == 16 * Pow16(3) && Pow16(3) == 16 * Pow16(2);
    assert Pow16(6) == 16 * Pow16(5) && Pow16(5) == 16 * Pow16(4);
    assert Pow16(8) == 16 * Pow16(7) && Pow16(7) == 16 * Pow16(6);
  }

  lemma {:induction false} HexReads(n: nat, width: nat)
    requires n < Pow16(width)
    ensures |Hex(n, width)| == width && HexReading(Hex(n, width)) == n
    decreases width
  {
    if width > 0 {
      HexReads(n / 16, width - 1);
      var front, last := Hex(n / 16, width - 1), HexDigit(n % 16);
      assert HexValue(last) == n % 16;
      assert (front + [last])[..|front|] == front;
    }
  }

  lemma {:induction false} HexAscii(n: nat, width: nat)
    ensures forall i | 0 <= i < |Hex(n, width)| :: Hex(n, width)[i] as int < 0x80
    decreases width
  {
    if width > 0 {
      HexAscii(n / 16, width - 1);
    }
  }

  /** Bytes of a character in UTF-8. */
  function CharBytes(c: char): nat {
    if c as int < 0x80 then 1 else if c as int < 0x800 then 2 else if c as int < 0x10000 then 3 else 4
  }

  function Utf8Bytes(s: string): nat {
    if s == "" then 0 else CharBytes(s[0]) + Utf8Bytes(s[1..])
  }

  lemma {:induction false} Utf8Adds(a: string, b: string)
    ensures Utf8Bytes(a + b) == Utf8Bytes(a) + Utf8Bytes(b)
    decreases |a|
  {
    if a == "" {
      assert a + b == b;
    } else {
      assert (a + b)[1..] == a[1..] + b;
      Utf8Adds(a[1..], b);
    }
  }

  lemma {:induction false} AsciiBytes(s: string)
    requires forall i | 0 <= i < |s| :: s[i] as int < 0x80
    ensures Utf8Bytes(s) == |s|
    decreases |s|
  {
    if s != "" {
      AsciiBytes(s[1..]);
    }
  }

  /** The number a text of digits stands for. */
  function Reading(s: string): int {
    if s == "" then 0 else 10 * Reading(s[..|s| - 1]) + (s[|s| - 1] as int - '0' as int)
  }

  lemma ReadingSnoc(s: string, d: nat)
    requires d < 10
    ensures Reading(s + [Digit(d)]) == 10 * Reading(s) + d
  {
    assert (s + [Digit(d)])[..|s|] == s;
  }

  lemma {:induction false} DecimalReads(n: nat)
    ensures Reading(Decimal(n)) == n
    decreases n
  {
    if n >= 10 {
      DecimalReads(n / 10);
      ReadingSnoc(Decimal(n / 10), n % 10);
    } else {
      ReadingSnoc("", n);
      assert "" + [Digit(n)] == [Digit(n)];
    }
  }

  // ------------------------------------------------------- trimming

  lemma {:induction false} TrimLeftSplits(s: string, p: Cut) returns (cut: string)
    ensures s == cut + TrimLeft(s, p) && AllIn(cut, p)
    ensures TrimLeft(s, p) == "" || !In(TrimLeft(s, p)[0], p)
    decreases |s|
  {
    if s != "" && In(s[0], p) {
      cut := TrimLeftSplits(s[1..], p);
      cut := [s[0]] + cut;
      assert s == [s[0]] + s[1..];
    } else {
      cut := "";
    }
  }

  lemma {:induction false} TrimRightSplits(s: string, p: Cut) returns (cut: string)
    ensures s == TrimRight(s, p) + cut && AllIn(cut, p)
    ensures TrimRight(s, p) == "" || !In(TrimRight(s, p)[|TrimRight(s, p)| - 1], p)
    decreases |s|
  {
    if s != "" && In(s[|s| - 1], p) {
      cut := TrimRightSplits(s[..|s| - 1], p);
      cut := cut + [s[|s| - 1]];
      assert s == s[..|s| - 1] + [s[|s| - 1]];
    } else {
      cut := "";
    }
  }

  /** Trimming leaves clean ends, and nothing to trim leaves the text alone. */
  lemma TrimClean(s: string, p: Cut)
    ensures Clean(Trim(s, p), p)
    ensures Clean(s, p) ==> Trim(s, p) == s
    ensures Trim(s, p) == s ==> Clean(s, p)
  {
    var a := TrimLeftSplits(s, p);
    var l := TrimLeft(s, p);
    var b := TrimRightSplits(l, p);
    var t := TrimRight(l, p);
    if t != "" {
      assert t[0] == l[0];
    }
  }

  /** A cut-set prefix is skipped. */
  lemma {:induction false} TrimLeftSkips(cut: string, s: string, p: Cut)
    requires AllIn(cut, p)
    ensures TrimLeft(cut + s, p) == TrimLeft(s, p)
    decreases |cut|
  {
    if cut == "" {
      assert cut + s == s;
    } else {
      assert (cut + s)[0] == cut[0];
      assert (cut + s)[1..] == cut[1..] + s;
      TrimLeftSkips(cut[1..], s, p);
    }
  }

  lemma {:induction false} TrimRightSkips(s: string, cut: string, p: Cut)
    requires AllIn(cut, p)
    ensures TrimRight(s + cut, p) == TrimRight(s, p)
    decreases |cut|
  {
    if cut == "" {
      assert s + cut == s;
    } else {
      var m := |cut| - 1;
      assert (s + cut)[|s + cut| - 1] == cut[m];
      assert (s + cut)[..|s + cut| - 1] == s + cut[..m];
      TrimRightSkips(s, cut[..m], p);
    }
  }

  /** Trimming on the right does not reach past a clean non-empty part. */
  lemma {:induction false} TrimRightAfter(a: string, s: string, p: Cut)
    requires a != "" && !In(a[|a| - 1], p)
    ensures TrimRight(a + s, p) == a + TrimRight(s, p)
    decreases |s|
  {
    if s == "" {
      assert a + s == a;
    } else if In(s[|s| - 1], p) {
      assert (a + s)[|a + s| - 1] == s[|s| - 1];
      assert (a + s)[..|a + s| - 1] == a + s[..|s| - 1];
      TrimRightAfter(a, s[..|s| - 1], p);
    } else {
      assert (a + s)[|a + s| - 1] == s[|s| - 1];
    }
  }

  lemma {:induction false} TrimRightAll(s: string, p: Cut)
    requires AllIn(s, p)
    ensures TrimRight(s, p) == ""
    decreases |s|
  {
    if s != "" {
      TrimRightAll(s[..|s| - 1], p);
    }
  }
}
