/** Character-level helpers shared by the MAC formatter and the command-line
    parsers: lowercase hex digits (`{:02x}`), `str::split`, `join`, ASCII
    lowercasing and `u8::from_str_radix(_, 16)`. */
module Text {
  import opened Common

  predicate IsHexDigit(c: char) {
    '0' <= c <= '9' || 'a' <= c <= 'f' || 'A' <= c <= 'F'
  }

  function HexValue(c: char): (v: nat)
    requires IsHexDigit(c)
    ensures v < 16
  {
    if '0' <= c <= '9' then c as int - '0' as int
    else if 'a' <= c <= 'f' then c as int - 'a' as int + 10
    else c as int - 'A' as int + 10
  }

  /** The lowercase hex digit for `n`; it reads back as `n`. */
  function HexDigit(n: nat): (c: char)
    requires n < 16
    ensures IsHexDigit(c) && HexValue(c) == n
    ensures c != ':' && c != '+' && !('A' <= c <= 'Z')
  {
    if n < 10 then ('0' as int + n) as char else ('a' as int + n - 10) as char
  }

  /** `format!("{:02x}", b)`: exactly two lowercase hex digits whose value is `b`. */
  function Hex2(b: uint8): (s: string)
    ensures |s| == 2 && IsHexDigit(s[0]) && IsHexDigit(s[1])
    ensures HexValue(s[0]) * 16 + HexValue(s[1]) == b
    ensures ':' !in s && s[0] != '+'
  {
    [HexDigit(b / 16), HexDigit(b % 16)]
  }

  // ---------------------------------------------------------------------------
  // split / join
  // ---------------------------------------------------------------------------

  /** `s.split(sep)`: the pieces between separators, at least one (the empty
      string gives one empty piece), none of which contains `sep`. */
  function Split(s: string, sep: char): (parts: seq<string>)
    ensures |parts| >= 1
    ensures forall k :: 0 <= k < |parts| ==> sep !in parts[k]
  {
    if |s| == 0 then [""]
    else
      var rest := Split(s[1..], sep);
      if s[0] == sep then [""] + rest
      else [[s[0]] + rest[0]] + rest[1..]
  }

  /** `parts.join(sep)`; joining nothing gives the empty string. */
  function Join(parts: seq<string>, sep: char): string {
    if |parts| == 0 then ""
    else if |parts| == 1 then parts[0]
    else parts[0] + [sep] + Join(parts[1..], sep)
  }

  lemma {:induction false} SplitWithoutSeparator(s: string, sep: char)
    requires sep !in s
    ensures Split(s, sep) == [s]
  {
    if |s| > 0 {
      SplitWithoutSeparator(s[1..], sep);
      assert [s[0]] + s[1..] == s;
    }
  }

  lemma {:induction false} SplitAfterPiece(p: string, r: string, sep: char)
    requires sep !in p
    ensures Split(p + [sep] + r, sep) == [p] + Split(r, sep)
  {
    var s := p + [sep] + r;
    if |p| == 0 {
      assert s[1..] == r;
    } else {
      assert s[1..] == p[1..] + [sep] + r;
      SplitAfterPiece(p[1..], r, sep);
      assert [p[0]] + p[1..] == p;
    }
  }

  /** Splitting a join of separator-free pieces gives the pieces back. */
  lemma {:induction false} SplitJoin(parts: seq<string>, sep: char)
    requires |parts| >= 1
    requires forall k :: 0 <= k < |parts| ==> sep !in parts[k]
    ensures Split(Join(parts, sep), sep) == parts
  {
    if |parts| == 1 {
      SplitWithoutSeparator(parts[0], sep);
    } else {
      SplitAfterPiece(parts[0], Join(parts[1..], sep), sep);
      SplitJoin(parts[1..], sep);
      assert [parts[0]] + parts[1..] == parts;
    }
  }

  /** Each byte as two lowercase hex digits. */
  function HexParts(bytes: seq<uint8>): (parts: seq<string>)
    ensures |parts| == |bytes|
    ensures forall k :: 0 <= k < |parts| ==> parts[k] == Hex2(bytes[k])
  {
    seq(|bytes|, k requires 0 <= k < |bytes| => Hex2(bytes[k]))
  }

  /** The bytes as colon-separated hex pairs, `aa:bb:...`. */
  function HexColon(bytes: seq<uint8>): string {
    Join(HexParts(bytes), ':')
  }

  /** Joining `n >= 1` pieces of width `w` takes `n * (w + 1) - 1` characters. */
  lemma {:induction false} JoinLength(parts: seq<string>, sep: char, w: nat)
    requires |parts| >= 1
    requires forall k :: 0 <= k < |parts| ==> |parts[k]| == w
    ensures |Join(parts, sep)| == |parts| * (w + 1) - 1
  {
    if |parts| > 1 {
      JoinLength(parts[1..], sep, w);
      assert |Join(parts, sep)| == w + 1 + (|parts| - 1) * (w + 1) - 1;
    }
  }

  /** `n >= 1` bytes print as `3n - 1` characters; no bytes print as "". */
  lemma HexColonLength(bytes: seq<uint8>)
    ensures |bytes| == 0 ==> HexColon(bytes) == ""
    ensures |bytes| >= 1 ==> |HexColon(bytes)| == 3 * |bytes| - 1
  {
    if |bytes| >= 1 {
      JoinLength(HexParts(bytes), ':', 2);
    }
  }

  /** Splitting the printed form at ':' gives back one hex pair per byte. */
  lemma HexColonSplits(bytes: seq<uint8>)
    requires |bytes| >= 1
    ensures Split(HexColon(bytes), ':') == HexParts(bytes)
  {
    SplitJoin(HexParts(bytes), ':');
  }

  // ---------------------------------------------------------------------------
  // Case
  // ---------------------------------------------------------------------------

  function LowerChar(c: char): char {
    if 'A' <= c <= 'Z' then (c as int + 32) as char else c
  }

  function UpperChar(c: char): char {
    if 'a' <= c <= 'z' then (c as int - 32) as char else c
  }

  /** `str::to_lowercase`, restricted to ASCII letters. */
  function Lower(s: string): string {
    seq(|s|, i requires 0 <= i < |s| => LowerChar(s[i]))
  }

  function Upper(s: string): string {
    seq(|s|, i requires 0 <= i < |s| => UpperChar(s[i]))
  }

  // ---------------------------------------------------------------------------
  // u8::from_str_radix(s, 16)
  // ---------------------------------------------------------------------------

  predicate AllHex(s: string) {
    forall i :: 0 <= i < |s| ==> IsHexDigit(s[i])
  }

  /** The value of a string of hex digits, most significant first. */
  function DigitsValue(ds: string): nat
    requires AllHex(ds)
  {
    if |ds| == 0 then 0 else DigitsValue(ds[..|ds| - 1]) * 16 + HexValue(ds[|ds| - 1])
  }

  /** The digits `from_str_radix` reads: one leading '+' is skipped. */
  function Digits(s: string): string {
    if |s| > 0 && s[0] == '+' then s[1..] else s
  }

  /** `u8::from_str_radix(s, 16)`, `None` standing for its `ParseIntError`. It accepts an
      optional '+' followed by one or more hex digits of either case (leading zeros
      allowed) whose value is below 256. */
  function ParseHexByte(s: string): (r: Option<uint8>)
    ensures r.Some? ==> |Digits(s)| >= 1 && AllHex(Digits(s)) && DigitsValue(Digits(s)) == r.value
    ensures r.None? ==> |Digits(s)| == 0 || !AllHex(Digits(s)) || DigitsValue(Digits(s)) >= 0x100
  {
    var ds := Digits(s);
    if |ds| == 0 || !AllHex(ds) then None
    else if DigitsValue(ds) < 0x100 then Some(DigitsValue(ds))
    else None
  }

  /** What `{:02x}` writes, `from_str_radix` reads back. */
  lemma Hex2Parses(b: uint8)
    ensures ParseHexByte(Hex2(b)) == Some(b)
  {
    var s := Hex2(b);
    assert Digits(s) == s;
    assert s[..1][..0] == [];
    assert DigitsValue(s[..1]) == HexValue(s[0]);
  }
}
