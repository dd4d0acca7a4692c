/**
 * Human-readable size thresholds ("2KB", "3 MB") as parsed for IfAccumulatedFileSize:
 * a decimal number, an optional single space, and a unit B, KB, MB or GB in any letter case,
 * with 1024-based multiples.
 */
module FileSize {
  import opened Wrappers
  import opened Decimal

  const KB: nat := 1024
  const MB: nat := 1024 * KB
  const GB: nat := 1024 * MB

  datatype Unit = Bytes | Kilobytes | Megabytes | Gigabytes

  function Multiplier(u: Unit): nat {
    match u
    case Bytes => 1
    case Kilobytes => KB
    case Megabytes => MB
    case Gigabytes => GB
  }

  /** ASCII upper-casing; units are matched case-insensitively. */
  function Upper(c: char): char {
    if 'a' <= c <= 'z' then ((c as int) - 32) as char else c
  }

  /** The unit a suffix names, if any. */
  function UnitOf(suffix: string): (r: Option<Unit>)
    ensures r.Some? ==> 1 <= |suffix| <= 2 && !IsDigit(suffix[0]) && suffix[0] != ' '
  {
    if |suffix| == 1 && Upper(suffix[0]) == 'B' then Some(Bytes)
    else if |suffix| == 2 && Upper(suffix[1]) == 'B' then
      if Upper(suffix[0]) == 'K' then Some(Kilobytes)
      else if Upper(suffix[0]) == 'M' then Some(Megabytes)
      else if Upper(suffix[0]) == 'G' then Some(Gigabytes)
      else None
    else None
  }

  /** What may follow the number: a unit, or a single space and a unit. */
  predicate IsUnitSuffix(rest: string) {
    UnitOf(rest).Some? || (|rest| > 0 && rest[0] == ' ' && UnitOf(rest[1..]).Some?)
  }

  /** The accepted size syntax, stated on its own: some non-empty digit prefix followed by a unit suffix. */
  ghost predicate WellFormed(s: string) {
    exists i | 1 <= i <= |s| :: AllDigits(s[..i]) && IsUnitSuffix(s[i..])
  }

  /** The unit of a suffix accepted by IsUnitSuffix. */
  function SuffixUnit(rest: string): Unit
    requires IsUnitSuffix(rest)
  {
    if UnitOf(rest).Some? then UnitOf(rest).value else UnitOf(rest[1..]).value
  }

  /** The size in bytes a threshold string denotes; None when it is not a recognised size. Every accepted size starts with a digit and ends with the letter B. */
  function Parse(s: string): (r: Option<nat>)
    ensures r.Some? ==> 2 <= |s| && IsDigit(s[0]) && Upper(s[|s| - 1]) == 'B'
  {
    var k := DigitRunLength(s);
    if k == 0 || !IsUnitSuffix(s[k..]) then None
    else Some(DigitsValue(s[..k]) * Multiplier(SuffixUnit(s[k..])))
  }

  /** The text of a unit, in upper or lower case. */
  function UnitText(u: Unit, lower: bool): string {
    match u
    case Bytes => if lower then "b" else "B"
    case Kilobytes => if lower then "kb" else "KB"
    case Megabytes => if lower then "mb" else "MB"
    case Gigabytes => if lower then "gb" else "GB"
  }

  /** The canonical spelling of n units, with or without a space before the unit. */
  function Format(n: nat, u: Unit, spaced: bool, lower: bool): string {
    NatToString(n) + (if spaced then " " else "") + UnitText(u, lower)
  }

  lemma UnitTextIsUnit(u: Unit, lower: bool)
    ensures UnitOf(UnitText(u, lower)) == Some(u)
  {
  }

  /** Parse accepts exactly the well-formed size strings. */
  lemma ParseAcceptsWellFormed(s: string)
    ensures Parse(s).Some? <==> WellFormed(s)
  {
    var k := DigitRunLength(s);
    if Parse(s).Some? {
      assert 1 <= k <= |s| && AllDigits(s[..k]) && IsUnitSuffix(s[k..]);
    }
    if WellFormed(s) {
      var i :| 1 <= i <= |s| && AllDigits(s[..i]) && IsUnitSuffix(s[i..]);
      assert s == s[..i] + [s[i]] + s[i + 1..];
      DigitRunStopsAtNonDigit(s[..i], s[i], s[i + 1..]);
    }
  }

  /** Any well-formed size, leading zeros and either letter case included, is its number times its unit's multiple. */
  lemma ParseValue(s: string, i: nat)
    requires 1 <= i <= |s| && AllDigits(s[..i]) && IsUnitSuffix(s[i..])
    ensures Parse(s) == Some(DigitsValue(s[..i]) * Multiplier(SuffixUnit(s[i..])))
  {
    assert s == s[..i] + [s[i]] + s[i + 1..];
    DigitRunStopsAtNonDigit(s[..i], s[i], s[i + 1..]);
  }

  /** "007KB" and "3 kB" are 7 KB and 3 KB. */
  lemma NonCanonicalExamples()
    ensures Parse("007KB") == Some(7 * KB) && Parse("3 kB") == Some(3 * KB)
  {
    assert "007KB"[..3] == "007" && "007KB"[3..] == "KB";
    ParseValue("007KB", 3);
    assert "3 kB"[..1] == "3" && "3 kB"[1..] == " kB" && " kB"[1..] == "kB";
    ParseValue("3 kB", 1);
  }

  /** Parsing the spelling of n units gives n times the unit's multiple, for every spelling variant. */
  lemma ParseFormat(n: nat, u: Unit, spaced: bool, lower: bool)
    ensures Parse(Format(n, u, spaced, lower)) == Some(n * Multiplier(u))
  {
    var digits := NatToString(n);
    var rest := (if spaced then " " else "") + UnitText(u, lower);
    var s := Format(n, u, spaced, lower);
    assert s == digits + rest;
    assert s == digits + [rest[0]] + rest[1..];
    DigitRunStopsAtNonDigit(digits, rest[0], rest[1..]);
    var k := DigitRunLength(s);
    assert s[..k] == digits && s[k..] == rest;
    UnitTextIsUnit(u, lower);
    if spaced {
      assert rest[1..] == UnitText(u, lower);
    }
    assert IsUnitSuffix(rest) && SuffixUnit(rest) == u;
    NatToStringValue(n);
  }

  /** A spelled-out threshold parses to its value. */
  lemma ParseExample(text: string, n: nat, u: Unit, spaced: bool)
    requires text == NatToString(n) + (if spaced then " " else "") + UnitText(u, false)
    ensures Parse(text) == Some(n * Multiplier(u))
  {
    ParseFormat(n, u, spaced, false);
  }

  /** "2B" and "3 B" are 2 and 3 bytes. */
  lemma ByteExamples()
    ensures Parse("2B") == Some(2) && Parse("3 B") == Some(3)
  {
    assert NatToString(2) == "2" && NatToString(3) == "3";
    ParseExample("2B", 2, Bytes, false);
    ParseExample("3 B", 3, Bytes, true);
  }

  /** "2KB" and "3 KB" are 2 and 3 times 1024 bytes. */
  lemma KilobyteExamples()
    ensures Parse("2KB") == Some(2 * 1024) && Parse("3 KB") == Some(3 * 1024)
  {
    assert NatToString(2) == "2" && NatToString(3) == "3";
    ParseExample("2KB", 2, Kilobytes, false);
    ParseExample("3 KB", 3, Kilobytes, true);
  }

  /** "2MB" and "3 MB" are 2 and 3 times 1024 * 1024 bytes. */
  lemma MegabyteExamples()
    ensures Parse("2MB") == Some(2 * 1024 * 1024) && Parse("3 MB") == Some(3 * 1024 * 1024)
  {
    assert NatToString(2) == "2" && NatToString(3) == "3";
    ParseExample("2MB", 2, Megabytes, false);
    ParseExample("3 MB", 3, Megabytes, true);
  }

  /** "2GB" and "3 GB" are 2 and 3 times 1024 * 1024 * 1024 bytes, beyond a 32-bit int. */
  lemma GigabyteExamples()
    ensures Parse("2GB") == Some(2 * 1024 * 1024 * 1024) && Parse("3 GB") == Some(3 * 1024 * 1024 * 1024)
  {
    assert NatToString(2) == "2" && NatToString(3) == "3";
    ParseExample("2GB", 2, Gigabytes, false);
    ParseExample("3 GB", 3, Gigabytes, true);
  }
}
