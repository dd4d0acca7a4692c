/**
 * Ages for IfLastModified, written in the ISO 8601 duration format with designators
 * (ISO 8601:2004 section 4.4.3.2): "P7D", "PT33S", "P1DT2H30M". Days, hours, minutes and
 * whole seconds are read; the age compared against a file is the total in milliseconds.
 */
module Durations {
  import opened Wrappers
  import opened Decimal

  const SecondsPerMinute: nat := 60
  const SecondsPerHour: nat := 60 * SecondsPerMinute
  const SecondsPerDay: nat := 24 * SecondsPerHour

  /** An elapsed time in whole seconds. */
  datatype Duration = Duration(seconds: nat) {
    function ToMillis(): nat {
      seconds * 1000
    }
  }

  function OrZero(v: Option<nat>): nat {
    if v.Some? then v.value else 0
  }

  /** One element of the grammar: one or more digits, then the designator. */
  predicate IsElement(e: string, designator: char) {
    |e| >= 2 && e[|e| - 1] == designator && AllDigits(e[..|e| - 1])
  }

  /** An element that may be left out. */
  predicate IsOptionalElement(e: string, designator: char) {
    e == [] || IsElement(e, designator)
  }

  /** The number an optional element holds: the digits before its designator, or None when it is left out. */
  function ElementValue(e: string, designator: char): Option<nat>
    requires IsOptionalElement(e, designator)
  {
    if e == [] then None else Some(DigitsValue(e[..|e| - 1]))
  }

  /** t is "[nH][nM][nS]" with at least one element present, the hours ending at i and the minutes at j. */
  predicate IsTimeSplit(t: string, i: int, j: int) {
    0 <= i <= j <= |t| && t != []
    && IsOptionalElement(t[..i], 'H') && IsOptionalElement(t[i..j], 'M') && IsOptionalElement(t[j..], 'S')
  }

  /** t is a time part: "[nH][nM][nS]" with at least one element present. */
  ghost predicate IsTimePart(t: string) {
    exists i, j :: IsTimeSplit(t, i, j)
  }

  /**
   * s is "P", an optional days element ending at i, and then either nothing (the days element
   * must then be present) or "T" and a time part.
   */
  ghost predicate IsDurationSplit(s: string, i: int) {
    && 1 <= i <= |s| && s[0] == 'P' && IsOptionalElement(s[1..i], 'D')
    && if i == |s| then i > 1 else s[i] == 'T' && IsTimePart(s[i + 1..])
  }

  /** The duration grammar "P" [n "D"] ["T" [n "H"] [n "M"] [n "S"]], stated on its own. */
  ghost predicate WellFormed(s: string) {
    exists i :: IsDurationSplit(s, i)
  }

  /** Reads one "<digits><designator>" element at the front of s; None and s unchanged when s does not start with one. */
  function Component(s: string, designator: char): (Option<nat>, string) {
    var k := DigitRunLength(s);
    if 0 < k < |s| && s[k] == designator then (Some(DigitsValue(s[..k])), s[k + 1..]) else (None, s)
  }

  /** Seconds denoted by the four optional elements. */
  function TotalSeconds(days: Option<nat>, hours: Option<nat>, minutes: Option<nat>, seconds: Option<nat>): nat {
    OrZero(days) * SecondsPerDay + OrZero(hours) * SecondsPerHour + OrZero(minutes) * SecondsPerMinute + OrZero(seconds)
  }

  /**
   * "P" [n "D"] ["T" [n "H"] [n "M"] [n "S"]]: at least one element, and a "T" only when a time
   * element follows it. Anything else is not a duration.
   */
  function Parse(text: string): (r: Option<Duration>)
    ensures r.Some? ==> 3 <= |text| && text[0] == 'P'
  {
    if |text| == 0 || text[0] != 'P' then None
    else
      var (days, rest) := Component(text[1..], 'D');
      if rest == [] then
        if days.Some? then Some(Duration(days.value * SecondsPerDay)) else None
      else if rest[0] != 'T' then None
      else
        var time := ReadTime(rest[1..]);
        if time.rest != [] || (time.hours.None? && time.minutes.None? && time.seconds.None?) then None
        else Some(Duration(TotalSeconds(days, time.hours, time.minutes, time.seconds)))
  }

  /** The time elements read after the "T", and what is left over. */
  datatype TimeElements = TimeElements(hours: Option<nat>, minutes: Option<nat>, seconds: Option<nat>, rest: string)

  function ReadTime(s: string): TimeElements {
    var (hours, r1) := Component(s, 'H');
    var (minutes, r2) := Component(r1, 'M');
    var (seconds, r3) := Component(r2, 'S');
    TimeElements(hours, minutes, seconds, r3)
  }

  /** The spelling of one optional element. */
  function Part(v: Option<nat>, designator: char): string {
    if v.Some? then NatToString(v.value) + [designator] else ""
  }

  /** The spelling of a duration from its elements; the time part and its "T" appear only when a time element is present. */
  function Format(days: Option<nat>, hours: Option<nat>, minutes: Option<nat>, seconds: Option<nat>): string {
    "P" + Part(days, 'D') + TimeText(hours, minutes, seconds)
  }

  function TimeText(hours: Option<nat>, minutes: Option<nat>, seconds: Option<nat>): string {
    if hours.Some? || minutes.Some? || seconds.Some?
    then "T" + Part(hours, 'H') + Part(minutes, 'M') + Part(seconds, 'S')
    else ""
  }

  /** An element spelled at the front is read back, and reading resumes right after it. */
  lemma ComponentOfPart(v: Option<nat>, designator: char, tail: string)
    requires !IsDigit(designator)
    requires v.None? ==> Component(tail, designator).0.None?
    ensures Component(Part(v, designator) + tail, designator) == (v, tail)
  {
    if v.Some? {
      var digits := NatToString(v.value);
      var s := Part(v, designator) + tail;
      assert s == digits + [designator] + tail;
      DigitRunStopsAtNonDigit(digits, designator, tail);
      assert s[..|digits|] == digits && s[|digits| + 1..] == tail;
      NatToStringValue(v.value);
    } else {
      assert Part(v, designator) + tail == tail;
    }
  }

  /** An element with another designator at the front is not taken for this one. */
  lemma ComponentSkipsPart(v: Option<nat>, other: char, tail: string, designator: char)
    requires !IsDigit(other) && other != designator
    requires v.None? ==> Component(tail, designator).0.None?
    ensures Component(Part(v, other) + tail, designator).0.None?
  {
    if v.Some? {
      var digits := NatToString(v.value);
      assert Part(v, other) + tail == digits + [other] + tail;
      DigitRunStopsAtNonDigit(digits, other, tail);
    } else {
      assert Part(v, other) + tail == tail;
    }
  }

  /** The seconds element is read last, with nothing after it. */
  lemma ReadSecondsPart(seconds: Option<nat>)
    ensures Component(Part(seconds, 'S'), 'S') == (seconds, [])
  {
    assert Part(seconds, 'S') + "" == Part(seconds, 'S');
    ComponentOfPart(seconds, 'S', "");
  }

  /** The minutes element is read before the seconds element. */
  lemma ReadMinutesPart(minutes: Option<nat>, seconds: Option<nat>)
    ensures Component(Part(minutes, 'M') + Part(seconds, 'S'), 'M') == (minutes, Part(seconds, 'S'))
  {
    assert Part(seconds, 'S') + "" == Part(seconds, 'S');
    ComponentSkipsPart(seconds, 'S', "", 'M');
    ComponentOfPart(minutes, 'M', Part(seconds, 'S'));
  }

  /** No hours element is found where the minutes and seconds elements are spelled. */
  lemma NoHoursBeforeMinutes(minutes: Option<nat>, seconds: Option<nat>)
    ensures Component(Part(minutes, 'M') + Part(seconds, 'S'), 'H').0.None?
  {
    var ps := Part(seconds, 'S');
    assert ps + "" == ps;
    ComponentSkipsPart(seconds, 'S', "", 'H');
    ComponentSkipsPart(minutes, 'M', ps, 'H');
  }

  /** The hours element is read first. */
  lemma ReadHoursPart(hours: Option<nat>, minutes: Option<nat>, seconds: Option<nat>)
    ensures Component(Part(hours, 'H') + (Part(minutes, 'M') + Part(seconds, 'S')), 'H')
         == (hours, Part(minutes, 'M') + Part(seconds, 'S'))
  {
    NoHoursBeforeMinutes(minutes, seconds);
    ComponentOfPart(hours, 'H', Part(minutes, 'M') + Part(seconds, 'S'));
  }

  /** Reading the time elements after the "T" gives back exactly the elements spelled. */
  lemma ReadTimeParts(hours: Option<nat>, minutes: Option<nat>, seconds: Option<nat>)
    ensures ReadTime(Part(hours, 'H') + Part(minutes, 'M') + Part(seconds, 'S')) == TimeElements(hours, minutes, seconds, [])
  {
    var t := Part(hours, 'H') + Part(minutes, 'M') + Part(seconds, 'S');
    assert t == Part(hours, 'H') + (Part(minutes, 'M') + Part(seconds, 'S'));
    ReadHoursPart(hours, minutes, seconds);
    ReadMinutesPart(minutes, seconds);
    ReadSecondsPart(seconds);
  }

  /** The days element is read before the time part. */
  lemma ReadDaysPart(days: Option<nat>, hours: Option<nat>, minutes: Option<nat>, seconds: Option<nat>)
    ensures Component(Part(days, 'D') + TimeText(hours, minutes, seconds), 'D') == (days, TimeText(hours, minutes, seconds))
  {
    var time := TimeText(hours, minutes, seconds);
    assert DigitRunLength(time) == 0;
    ComponentOfPart(days, 'D', time);
  }

  /** What Parse returns once the days element and the time elements have been read. */
  lemma ParseOfElements(text: string, days: Option<nat>, time: string, elements: TimeElements)
    requires |text| > 0 && text[0] == 'P' && Component(text[1..], 'D') == (days, time)
    requires time == [] ==> days.Some? && elements == TimeElements(None, None, None, [])
    requires time != [] ==> time[0] == 'T' && ReadTime(time[1..]) == elements
    requires elements.rest == [] && (time != [] ==> elements.hours.Some? || elements.minutes.Some? || elements.seconds.Some?)
    ensures Parse(text) == Some(Duration(TotalSeconds(days, elements.hours, elements.minutes, elements.seconds)))
  {
  }

  /** A spelling starts with "P", then the days element, then the time part. */
  lemma FormatShape(days: Option<nat>, hours: Option<nat>, minutes: Option<nat>, seconds: Option<nat>)
    ensures Format(days, hours, minutes, seconds)[0] == 'P'
    ensures Format(days, hours, minutes, seconds)[1..] == Part(days, 'D') + TimeText(hours, minutes, seconds)
  {
    var rest := Part(days, 'D') + TimeText(hours, minutes, seconds);
    assert Format(days, hours, minutes, seconds) == "P" + rest;
    assert ("P" + rest)[1..] == rest;
  }

  /** A non-empty time part is a "T" and the three time elements. */
  lemma TimeTextShape(hours: Option<nat>, minutes: Option<nat>, seconds: Option<nat>)
    requires TimeText(hours, minutes, seconds) != []
    ensures TimeText(hours, minutes, seconds)[0] == 'T'
    ensures TimeText(hours, minutes, seconds)[1..] == Part(hours, 'H') + Part(minutes, 'M') + Part(seconds, 'S')
  {
  }

  /** Every spelling with at least one element parses back to the total of its elements. */
  lemma ParseFormat(days: Option<nat>, hours: Option<nat>, minutes: Option<nat>, seconds: Option<nat>)
    requires days.Some? || hours.Some? || minutes.Some? || seconds.Some?
    ensures Parse(Format(days, hours, minutes, seconds)) == Some(Duration(TotalSeconds(days, hours, minutes, seconds)))
  {
    var time := TimeText(hours, minutes, seconds);
    FormatShape(days, hours, minutes, seconds);
    ReadDaysPart(days, hours, minutes, seconds);
    if time != [] {
      TimeTextShape(hours, minutes, seconds);
      ReadTimeParts(hours, minutes, seconds);
    }
    ParseOfElements(Format(days, hours, minutes, seconds), days, time, TimeElements(hours, minutes, seconds, []));
  }

  /** A front element with a non-digit designator is read whole, and reading resumes right after it. */
  lemma ComponentReadsElement(e: string, designator: char, tail: string)
    requires !IsDigit(designator) && IsOptionalElement(e, designator)
    requires e == [] ==> Component(tail, designator).0.None?
    ensures Component(e + tail, designator).1 == tail
    ensures Component(e + tail, designator).0 == ElementValue(e, designator)
  {
    if e != [] {
      var digits := e[..|e| - 1];
      assert e + tail == digits + [designator] + tail;
      DigitRunStopsAtNonDigit(digits, designator, tail);
      assert (e + tail)[..|digits|] == digits;
    } else {
      assert e + tail == tail;
    }
  }

  /** An element with another designator at the front is not read as this one. */
  lemma ComponentSkipsElement(e: string, other: char, tail: string, designator: char)
    requires !IsDigit(other) && other != designator && IsElement(e, other)
    ensures Component(e + tail, designator).0.None?
  {
    var digits := e[..|e| - 1];
    assert e + tail == digits + [other] + tail;
    DigitRunStopsAtNonDigit(digits, other, tail);
  }

  /** Nothing, or text starting with a non-digit such as "T", holds no element at its front. */
  lemma ComponentAtNonDigit(s: string, designator: char)
    requires s == [] || !IsDigit(s[0])
    ensures Component(s, designator).0.None?
  {
  }

  /** The seconds element, or nothing, holds no hours or minutes element. */
  lemma NoTimeElementBeforeSeconds(e: string, designator: char)
    requires IsOptionalElement(e, 'S') && designator != 'S' && !IsDigit(designator)
    ensures Component(e, designator).0.None?
  {
    if e == [] {
      ComponentAtNonDigit(e, designator);
    } else {
      assert e + [] == e;
      ComponentSkipsElement(e, 'S', [], designator);
    }
  }

  /** A time part is read back whole: some element is found and nothing is left over. */
  lemma ReadTimeSplit(t: string, i: int, j: int)
    requires IsTimeSplit(t, i, j)
    ensures ReadTime(t).rest == []
    ensures ReadTime(t).hours.Some? || ReadTime(t).minutes.Some? || ReadTime(t).seconds.Some?
    ensures ReadTime(t).hours == ElementValue(t[..i], 'H') && ReadTime(t).minutes == ElementValue(t[i..j], 'M')
    ensures ReadTime(t).seconds == ElementValue(t[j..], 'S')
  {
    var hours, minutes, seconds := t[..i], t[i..j], t[j..];
    assert t == hours + (minutes + seconds);
    assert seconds + [] == seconds;
    ComponentAtNonDigit([], 'S');
    ComponentReadsElement(seconds, 'S', []);
    NoTimeElementBeforeSeconds(seconds, 'M');
    ComponentReadsElement(minutes, 'M', seconds);
    if minutes != [] {
      ComponentSkipsElement(minutes, 'M', seconds, 'H');
    } else {
      assert minutes + seconds == seconds;
      NoTimeElementBeforeSeconds(seconds, 'H');
    }
    ComponentReadsElement(hours, 'H', minutes + seconds);
  }

  /** What Component reads is an optional element at the front, ending at n, and the rest follows it. */
  lemma ComponentSplit(s: string, designator: char) returns (n: nat)
    ensures n <= |s| && s[n..] == Component(s, designator).1 && IsOptionalElement(s[..n], designator)
    ensures Component(s, designator).0.Some? <==> n > 0
  {
    var k := DigitRunLength(s);
    if 0 < k < |s| && s[k] == designator {
      assert s[..k + 1][..k] == s[..k];
      n := k + 1;
    } else {
      n := 0;
    }
  }

  /** Slicing a suffix of t is slicing t further along. */
  lemma SliceOfSuffix(t: string, i: nat, r: string, b: nat)
    requires i <= |t| && t[i..] == r && b <= |r|
    ensures t[i..i + b] == r[..b] && t[i + b..] == r[b..]
  {
    assert t[i..][..b] == t[i..i + b];
    assert t[i..][b..] == t[i + b..];
  }

  /** What ReadTime reads, element by element. */
  lemma ReadTimeSteps(t: string)
    ensures var (hours, r1) := Component(t, 'H');
      var (minutes, r2) := Component(r1, 'M');
      var (seconds, r3) := Component(r2, 'S');
      ReadTime(t) == TimeElements(hours, minutes, seconds, r3)
  {
  }

  /** Whatever ReadTime reads whole, with some element found, is a time part. */
  lemma TimeSplitOfRead(t: string)
    requires ReadTime(t).rest == []
    requires ReadTime(t).hours.Some? || ReadTime(t).minutes.Some? || ReadTime(t).seconds.Some?
    ensures IsTimePart(t)
  {
    ReadTimeSteps(t);
    var r1 := Component(t, 'H').1;
    var r2 := Component(r1, 'M').1;
    var i := ComponentSplit(t, 'H');
    var b := ComponentSplit(r1, 'M');
    var c := ComponentSplit(r2, 'S');
    assert c == |r2| && r2[..c] == r2;
    assert 0 < i || 0 < b || 0 < c;
    TimeSplitOfParts(t, i, r1, b, r2);
  }

  /** Three optional elements read one after another make a time split, when at least one is present. */
  lemma TimeSplitOfParts(t: string, i: nat, r1: string, b: nat, r2: string)
    requires i <= |t| && t[i..] == r1 && b <= |r1| && r1[b..] == r2
    requires IsOptionalElement(t[..i], 'H') && IsOptionalElement(r1[..b], 'M') && IsOptionalElement(r2, 'S')
    requires 0 < i || 0 < b || 0 < |r2|
    ensures IsTimeSplit(t, i, i + b)
  {
    SliceOfSuffix(t, i, r1, b);
  }

  /** An accepted text is "P", what Component reads as days, then nothing (the days being present) or "T" and a time part read whole. */
  lemma AcceptedShape(text: string)
    requires Parse(text).Some?
    ensures |text| > 0 && text[0] == 'P'
    ensures var (days, rest) := Component(text[1..], 'D');
      && (rest == [] ==> days.Some?)
      && (rest != [] ==>
            && rest[0] == 'T' && ReadTime(rest[1..]).rest == []
            && (ReadTime(rest[1..]).hours.Some? || ReadTime(rest[1..]).minutes.Some? || ReadTime(rest[1..]).seconds.Some?))
  {
  }

  /** An accepted text splits where its days element ends. */
  lemma AcceptedIsWellFormed(text: string)
    requires Parse(text).Some?
    ensures WellFormed(text)
  {
    AcceptedShape(text);
    var (days, rest) := Component(text[1..], 'D');
    var n := ComponentSplit(text[1..], 'D');
    var i := n + 1;
    assert IsOptionalElement(text[1..i], 'D') by {
      assert text[1..i] == text[1..][..n];
    }
    assert text[i..] == rest by {
      assert text[1..][n..] == text[i..];
    }
    if rest == [] {
      assert i == |text| && i > 1;
    } else {
      assert text[i] == 'T';
      assert rest[1..] == text[i + 1..];
      TimeSplitOfRead(rest[1..]);
      assert IsTimePart(text[i + 1..]);
    }
    assert IsDurationSplit(text, i);
  }

  /** A well-formed text is read element by element and accepted. */
  lemma WellFormedIsAccepted(text: string, i: int)
    requires IsDurationSplit(text, i)
    ensures Parse(text).Some?
  {
    var days, rest := text[1..i], text[i..];
    assert text[1..] == days + rest;
    ComponentAtNonDigit(rest, 'D');
    ComponentReadsElement(days, 'D', rest);
    assert Component(text[1..], 'D') == (Component(text[1..], 'D').0, rest);
    if i < |text| {
      var h, m :| IsTimeSplit(text[i + 1..], h, m);
      assert rest[1..] == text[i + 1..];
      ReadTimeSplit(text[i + 1..], h, m);
    }
  }

  /** "P" and a days element, leading zeros included, is that many days. */
  lemma DaysOnlyValue(days: string)
    requires IsElement(days, 'D')
    ensures Parse("P" + days) == Some(Duration(ElementValue(days, 'D').value * SecondsPerDay))
  {
    assert ("P" + days)[1..] == days + [];
    ComponentAtNonDigit([], 'D');
    ComponentReadsElement(days, 'D', []);
  }

  /**
   * "P", an optional days element, "T" and a time part, leading zeros included, is the total of
   * its elements: every well-formed duration with a time part is spelled this way.
   */
  lemma TimePartValue(days: string, t: string, h: int, m: int)
    requires IsOptionalElement(days, 'D') && IsTimeSplit(t, h, m)
    ensures Parse("P" + days + "T" + t)
      == Some(Duration(TotalSeconds(ElementValue(days, 'D'), ElementValue(t[..h], 'H'), ElementValue(t[h..m], 'M'), ElementValue(t[m..], 'S'))))
  {
    var rest := "T" + t;
    assert ("P" + days + "T" + t)[1..] == days + rest;
    ComponentAtNonDigit(rest, 'D');
    ComponentReadsElement(days, 'D', rest);
    assert rest[1..] == t;
    ReadTimeSplit(t, h, m);
  }

  /** Parse accepts exactly the well-formed durations. */
  lemma ParseAcceptsWellFormed(text: string)
    ensures Parse(text).Some? <==> WellFormed(text)
  {
    if Parse(text).Some? {
      AcceptedIsWellFormed(text);
    }
    if WellFormed(text) {
      var i :| IsDurationSplit(text, i);
      WellFormedIsAccepted(text, i);
    }
  }

  /** Texts with no element, or a "T" with nothing after it, are rejected. */
  lemma RejectedIncomplete()
    ensures Parse("P") == None && Parse("PT") == None && Parse("P1DT") == None
  {
    assert DigitRunLength("1DT") == 1;
  }

  /** Texts with an element under the wrong part, or time elements out of order, are rejected. */
  lemma RejectedMisplaced()
    ensures Parse("P1H") == None && Parse("PT1D") == None && Parse("PT1S1M") == None
  {
    assert DigitRunLength("1H") == 1;
    assert DigitRunLength("1D") == 1;
    assert DigitRunLength("1S1M") == 1;
  }

  /** "P7D" is seven days. */
  lemma SevenDays()
    ensures Parse("P7D") == Some(Duration(7 * SecondsPerDay))
  {
    assert NatToString(7) == "7";
    assert Part(Some(7), 'D') == "7D";
    assert Format(Some(7), None, None, None) == "P7D";
    ParseFormat(Some(7), None, None, None);
  }

  /** "PT33S" is 33 seconds. */
  lemma ThirtyThreeSeconds()
    ensures Parse("PT33S") == Some(Duration(33))
  {
    assert NatToString(33) == NatToString(3) + [DigitChar(3)];
    assert Part(Some(33), 'S') == "33S";
    assert TimeText(None, None, Some(33)) == "T33S";
    assert Format(None, None, None, Some(33)) == "PT33S";
    ParseFormat(None, None, None, Some(33));
  }

  /** The ages used as examples: seven days, and 33 seconds (33000 milliseconds). */
  lemma Examples()
    ensures Parse("P7D") == Some(Duration(7 * SecondsPerDay))
    ensures Parse("PT33S") == Some(Duration(33)) && Duration(33).ToMillis() == 33000
  {
    SevenDays();
    ThirtyThreeSeconds();
  }
}
