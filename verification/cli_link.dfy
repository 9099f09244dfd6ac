/** Argument parsers of the `ftth-ip-link` command: a MAC address written as
    six ':'-separated hex bytes, and an on/off flag word. */
module CliLink {
  import opened Common
  import opened Text
  import opened Link

  /** Every ':'-separated part of `parts` reads as a hex byte. */
  predicate AllBytes(parts: seq<string>) {
    forall k :: 0 <= k < |parts| ==> ParseHexByte(parts[k]).Some?
  }

  /** What `parse_mac` accepts: exactly six parts, each a hex byte; byte `i` is
      the value of part `i`. Any other input is an InvalidInput error. */
  function MacOf(s: string): (r: Result<MacAddr, ErrorKind>)
    ensures r.Ok? <==> |Split(s, ':')| == 6 && AllBytes(Split(s, ':'))
    ensures r.Err? ==> r.error == InvalidInput
    ensures r.Ok? ==> forall k :: 0 <= k < 6 ==> Some(r.value.inner[k]) == ParseHexByte(Split(s, ':')[k])
  {
    var parts := Split(s, ':');
    if |parts| != 6 || !AllBytes(parts) then Err(InvalidInput)
    else Ok(MacAddr(seq(6, k requires 0 <= k < 6 => ParseHexByte(parts[k]).value)))
  }

  /** `parse_mac`: fills a six-byte array part by part, stopping at the first
      part that does not parse. */
  method ParseMac(s: string) returns (r: Result<MacAddr, ErrorKind>)
    ensures r == MacOf(s)
  {
    var parts := Split(s, ':');
    if |parts| != 6 {
      return Err(InvalidInput);
    }
    var bytes := new uint8[6](_ => 0);
    for i := 0 to 6
      invariant forall k :: 0 <= k < i ==> ParseHexByte(parts[k]) == Some(bytes[k])
    {
      match ParseHexByte(parts[i])
      case None =>
        return Err(InvalidInput);
      case Some(b) =>
        bytes[i] := b;
    }
    assert bytes[..] == seq(6, k requires 0 <= k < 6 => ParseHexByte(parts[k]).value);
    return Ok(MacAddr(bytes[..]));
  }

  /** What `Display` prints, `parse_mac` reads back. */
  lemma ParseDisplayedMac(m: MacAddr)
    ensures MacOf(Display(m)) == Ok(m)
  {
    HexColonSplits(m.inner);
    var parts := Split(Display(m), ':');
    forall k | 0 <= k < 6
      ensures ParseHexByte(parts[k]) == Some(m.inner[k])
    {
      Hex2Parses(m.inner[k]);
    }
    assert MacOf(Display(m)).value.inner == m.inner;
  }

  /** Fewer or more than six parts never make a MAC address. */
  lemma WrongPartCount(s: string)
    requires |Split(s, ':')| != 6
    ensures MacOf(s) == Err(InvalidInput)
  {
  }

  /** The six parts of `s`, by way of the join they came from. */
  lemma SixParts(s: string, parts: seq<string>)
    requires |parts| == 6
    requires forall k :: 0 <= k < 6 ==> ':' !in parts[k]
    requires s == parts[0] + ":" + parts[1] + ":" + parts[2] + ":" + parts[3] + ":" + parts[4] + ":" + parts[5]
    ensures Split(s, ':') == parts
  {
    var p := parts;
    assert Join(p[5..], ':') == p[5];
    assert Join(p[4..], ':') == p[4] + ":" + p[5];
    assert Join(p[3..], ':') == p[3] + ":" + (p[4] + ":" + p[5]);
    assert Join(p[2..], ':') == p[2] + ":" + (p[3] + ":" + (p[4] + ":" + p[5]));
    assert Join(p[1..], ':') == p[1] + ":" + (p[2] + ":" + (p[3] + ":" + (p[4] + ":" + p[5])));
    assert Join(p, ':') == s;
    SplitJoin(p, ':');
  }

  lemma ParseOneDigit(s: string)
    requires |s| == 1 && IsHexDigit(s[0])
    ensures ParseHexByte(s) == Some(HexValue(s[0]))
  {
    assert Digits(s) == s && AllHex(s);
    assert s[..0] == "";
    assert DigitsValue(s) == HexValue(s[0]);
  }

  lemma ParseTwoDigits(s: string)
    requires |s| == 2 && IsHexDigit(s[0]) && IsHexDigit(s[1])
    ensures ParseHexByte(s) == Some(HexValue(s[0]) * 16 + HexValue(s[1]))
  {
    assert s[..1][..0] == "";
    assert DigitsValue(s[..1]) == HexValue(s[0]);
  }

  /** Rust's parser tolerates a leading '+', either case and a missing leading
      zero in each part. */
  lemma MacExample(s: string)
    requires s == "+a:0B:c:00:ff:1"
    ensures MacOf(s) == Ok(MacAddr([0x0a, 0x0b, 0x0c, 0x00, 0xff, 0x01]))
  {
    var parts := ["+a", "0B", "c", "00", "ff", "1"];
    var want: seq<uint8> := [0x0a, 0x0b, 0x0c, 0x00, 0xff, 0x01];
    SixParts(s, parts);
    ParseOneDigit("a");
    assert Digits("+a") == "a";
    ParseTwoDigits("0B");
    ParseOneDigit("c");
    ParseTwoDigits("00");
    ParseTwoDigits("ff");
    ParseOneDigit("1");
    assert forall k :: 0 <= k < 6 ==> ParseHexByte(parts[k]) == Some(want[k]);
    assert AllBytes(parts);
    assert seq(6, k requires 0 <= k < 6 => ParseHexByte(parts[k]).value) == want;
  }

  /** A part above 0xff is rejected. */
  lemma MacByteOverflowExample(s: string)
    requires s == "aa:bb:cc:dd:ee:100"
    ensures MacOf(s).Err?
  {
    var parts := ["aa", "bb", "cc", "dd", "ee", "100"];
    SixParts(s, parts);
    var t := parts[5];
    assert Digits(t) == t && AllHex(t);
    assert t[..2] == "10" && "10"[..1] == "1" && "1"[..0] == "";
    assert DigitsValue(t) == 256;
    assert !AllBytes(parts);
  }

  // ---------------------------------------------------------------------------
  // parse_bool_flag
  // ---------------------------------------------------------------------------

  const TRUE_WORDS: seq<string> := ["up", "enable", "enabled", "true", "on"]
  const FALSE_WORDS: seq<string> := ["down", "disable", "disabled", "false", "off"]

  /** `parse_bool_flag`: the word, lowercased, selects true or false; the error
      quotes the word as given. */
  function ParseBoolFlag(value: string): (r: Result<bool, string>)
    ensures r == Ok(true) <==> Lower(value) in TRUE_WORDS
    ensures r == Ok(false) <==> Lower(value) in FALSE_WORDS
    ensures r.Err? ==> r.error == value
  {
    var word := Lower(value);
    if word in TRUE_WORDS then Ok(true)
    else if word in FALSE_WORDS then Ok(false)
    else Err(value)
  }

  /** Lowercasing after uppercasing is lowercasing. */
  lemma LowerUpper(s: string)
    ensures Lower(Upper(s)) == Lower(s)
  {
  }

  /** Only the case of the letters is ignored: spellings that lowercase alike
      parse alike. */
  lemma BoolFlagIgnoresCase(a: string, b: string)
    requires Lower(a) == Lower(b)
    ensures ParseBoolFlag(a).Ok? == ParseBoolFlag(b).Ok?
    ensures ParseBoolFlag(a).Ok? ==> ParseBoolFlag(a) == ParseBoolFlag(b)
  {
  }

  /** Any spelling of a flag word in upper case parses as the word. */
  lemma BoolFlagUpper(s: string)
    ensures ParseBoolFlag(Upper(s)).Ok? == ParseBoolFlag(s).Ok?
    ensures ParseBoolFlag(s).Ok? ==> ParseBoolFlag(Upper(s)) == ParseBoolFlag(s)
  {
    LowerUpper(s);
    BoolFlagIgnoresCase(Upper(s), s);
  }

  lemma BoolFlagExamples()
    ensures ParseBoolFlag("Enabled") == Ok(true)
    ensures ParseBoolFlag("OFF") == Ok(false)
    ensures ParseBoolFlag("yes").Err?
  {
    assert Lower("Enabled") == "enabled";
    assert Lower("OFF") == "off";
    assert Lower("yes") == "yes";
  }
}
