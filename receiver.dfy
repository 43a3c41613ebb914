/**
 * PulseReceiver: polls a biofeedback device (or a placeholder) for the heart rate,
 * parses "pulse=<int>" replies, applies a fixed offset and raises PulseReceived; every
 * period-th message it raises AccelerationCalculated. The serial link is the
 * environment: messages and connection changes arrive as method calls, and requests
 * sent to the device are recorded.
 */
module Receiver {
  import opened Wrappers

  const PulsePrefix: string := "pulse="
  const PulseRequestMessage: string := "1"
  const PulseNotReceived: int := -1

  const Int32Min: int := -0x8000_0000
  const Int32Max: int := 0x7FFF_FFFF

  predicate InInt32(x: int) {
    Int32Min <= x <= Int32Max
  }

  /** Two's-complement 32-bit wrap-around, as unchecked `int` arithmetic does. */
  function Wrap32(x: int): (r: int)
    ensures InInt32(r)
    ensures InInt32(x) ==> r == x
    ensures (r - x) % 0x1_0000_0000 == 0
  {
    (x + 0x8000_0000) % 0x1_0000_0000 - 0x8000_0000
  }

  // ---------------------------------------------------------------- text search

  /** `pat` occurs somewhere in `s`. */
  predicate Contains(s: string, pat: string)
    decreases |s|
  {
    |s| >= |pat| && (s[..|pat|] == pat || (|s| > 0 && Contains(s[1..], pat)))
  }

  /** String.Replace(pat, ""): one left-to-right pass removing non-overlapping occurrences. */
  function RemoveAll(s: string, pat: string): (r: string)
    requires |pat| > 0
    ensures |r| <= |s|
    decreases |s|
  {
    if |s| < |pat| then s
    else if s[..|pat|] == pat then RemoveAll(s[|pat|..], pat)
    else [s[0]] + RemoveAll(s[1..], pat)
  }

  /** Text without the pattern's first character is left as it is. */
  lemma {:induction false} RemoveAllWithoutFirstChar(s: string, pat: string)
    requires |pat| > 0 && pat[0] !in s
    ensures RemoveAll(s, pat) == s
    decreases |s|
  {
    if |s| >= |pat| {
      assert s[..|pat|][0] == s[0];
      RemoveAllWithoutFirstChar(s[1..], pat);
    }
  }

  /** A pattern followed by text without the pattern's first character: the removal
      leaves exactly that text. */
  lemma PrefixRemoved(pat: string, t: string)
    requires |pat| > 0 && pat[0] !in t
    ensures Contains(pat + t, pat)
    ensures RemoveAll(pat + t, pat) == t
  {
    var s := pat + t;
    assert s[..|pat|] == pat && s[|pat|..] == t;
    RemoveAllWithoutFirstChar(t, pat);
  }

  /** Text not containing the pattern is left as it is. */
  lemma {:induction false} RemoveAllWithoutMatch(s: string, pat: string)
    requires |pat| > 0 && !Contains(s, pat)
    ensures RemoveAll(s, pat) == s
    decreases |s|
  {
    if |s| >= |pat| {
      RemoveAllWithoutMatch(s[1..], pat);
    }
  }

  // ---------------------------------------------------------------- int.Parse and ToString

  /** The white space int.Parse skips at either end: U+0009 to U+000D and the space. */
  predicate IsWhite(c: char) {
    c == ' ' || '\t' <= c <= '\r'
  }

  predicate IsDigit(c: char) {
    '0' <= c <= '9'
  }

  function TrimStart(s: string): (r: string)
    ensures |r| <= |s| && r == s[|s| - |r|..]
    ensures |r| > 0 ==> !IsWhite(r[0])
  {
    if |s| > 0 && IsWhite(s[0]) then TrimStart(s[1..]) else s
  }

  function TrimEnd(s: string): (r: string)
    ensures |r| <= |s| && r == s[..|r|]
    ensures |r| > 0 ==> !IsWhite(r[|r| - 1])
  {
    if |s| > 0 && IsWhite(s[|s| - 1]) then TrimEnd(s[..|s| - 1]) else s
  }

  /** The value of a run of decimal digits, most significant first. */
  function DigitsValue(ds: string): (v: nat)
    requires forall i :: 0 <= i < |ds| ==> IsDigit(ds[i])
  {
    if |ds| == 0 then 0
    else
      assert IsDigit(ds[|ds| - 1]);
      DigitsValue(ds[..|ds| - 1]) * 10 + (ds[|ds| - 1] as int - '0' as int)
  }

  datatype IntParse = Parsed(value: int) | FormatError | OverflowError

  /**
   * int.Parse with the default integer style: optional white space at either end, an
   * optional sign, then at least one decimal digit; a value outside 32 bits overflows.
   */
  function ParseInt32(s: string): (r: IntParse)
    ensures r.Parsed? ==> InInt32(r.value)
    ensures |TrimEnd(TrimStart(s))| == 0 ==> r == FormatError
  {
    var t := TrimEnd(TrimStart(s));
    if |t| == 0 then FormatError
    else
      var signed := t[0] == '-' || t[0] == '+';
      var ds := if signed then t[1..] else t;
      if |ds| == 0 || exists i :: 0 <= i < |ds| && !IsDigit(ds[i]) then FormatError
      else
        var v: int := if t[0] == '-' then -(DigitsValue(ds) as int) else DigitsValue(ds);
        if InInt32(v) then Parsed(v) else OverflowError
  }

  function DigitChar(d: nat): (c: char)
    requires d < 10
    ensures IsDigit(c) && c as int - '0' as int == d
  {
    '0' + d as char
  }

  /** The decimal digits of n, without leading zeros. */
  function Digits(n: nat): (ds: string)
    ensures |ds| > 0
    ensures forall i :: 0 <= i < |ds| ==> IsDigit(ds[i])
  {
    if n < 10 then [DigitChar(n)] else Digits(n / 10) + [DigitChar(n % 10)]
  }

  /** int.ToString: a minus sign for negatives, then the digits. */
  function FormatInt(n: int): (s: string)
    ensures |s| > 0
    ensures forall i :: 0 <= i < |s| ==> IsDigit(s[i]) || (i == 0 && s[i] == '-')
  {
    if n < 0 then "-" + Digits(-n) else Digits(n)
  }

  lemma {:induction false} DigitsValueOfDigits(n: nat)
    ensures DigitsValue(Digits(n)) == n
    decreases n
  {
    if n >= 10 {
      var ds := Digits(n);
      assert ds[..|ds| - 1] == Digits(n / 10);
      DigitsValueOfDigits(n / 10);
    }
  }

  /** Formatting then parsing gives back every 32-bit integer. */
  lemma ParseFormatRoundTrip(n: int)
    requires InInt32(n)
    ensures ParseInt32(FormatInt(n)) == Parsed(n)
  {
    var s := FormatInt(n);
    assert TrimStart(s) == s by {
      assert !IsWhite(s[0]);
    }
    assert TrimEnd(s) == s by {
      assert !IsWhite(s[|s| - 1]);
    }
    var ds := if n < 0 then s[1..] else s;
    assert ds == Digits(if n < 0 then -n else n);
    DigitsValueOfDigits(if n < 0 then -n else n);
  }

  // ---------------------------------------------------------------- message parsing

  datatype PulseParse = NoPulse | Pulse(value: int) | ParseFailed(error: IntParse)

  /**
   * GetPulseFromMessage, without the event: a missing message or one without the prefix
   * yields no pulse (the caller then uses 0); otherwise every occurrence of the prefix is
   * removed, the rest is parsed, and the offset is added with 32-bit wrap-around.
   */
  function PulseFromMessage(msg: Option<string>, offset: int): (r: PulseParse)
    ensures r.NoPulse? <==> msg.None? || !Contains(msg.value, PulsePrefix)
    ensures r.Pulse? <==> msg.Some? && Contains(msg.value, PulsePrefix)
                          && ParseInt32(RemoveAll(msg.value, PulsePrefix)).Parsed?
    ensures r.Pulse? ==> InInt32(r.value)
  {
    if msg.Some? && Contains(msg.value, PulsePrefix) then
      match ParseInt32(RemoveAll(msg.value, PulsePrefix))
      case Parsed(v) => Pulse(Wrap32(v + offset))
      case e => ParseFailed(e)
    else NoPulse
  }

  /** The value the pulse event carries, or 0 for a message without a pulse. */
  function ReportedPulse(p: PulseParse): int {
    if p.Pulse? then p.value else 0
  }

  /** A well-formed reply "pulse=<n>" reports n plus the offset. */
  lemma WellFormedReplyReportsValue(n: int, offset: int)
    requires InInt32(n)
    ensures PulseFromMessage(Some(PulsePrefix + FormatInt(n)), offset) == Pulse(Wrap32(n + offset))
  {
    var s := FormatInt(n);
    assert PulsePrefix[0] !in s by {
      forall i | 0 <= i < |s|
        ensures s[i] != 'p'
      {
        assert IsDigit(s[i]) || s[i] == '-';
      }
    }
    PrefixRemoved(PulsePrefix, s);
    var m := PulsePrefix + s;
    assert Contains(m, PulsePrefix) && RemoveAll(m, PulsePrefix) == s;
    ParseFormatRoundTrip(n);
  }

  /** Heart-rate acceleration over one recalculation period, in pulse per second. */
  function Acceleration(pulse: int, anchor: int, pollingRate: real, period: int): (a: real)
    requires pollingRate > 0.0 && period >= 1
    ensures (a > 0.0 <==> Wrap32(pulse - anchor) > 0) && (a == 0.0 <==> Wrap32(pulse - anchor) == 0)
  {
    Wrap32(pulse - anchor) as real / (pollingRate * period as real)
  }

  // ---------------------------------------------------------------- the component

  class PulseReceiver {
    const receivedPulseOffset: int
    /** Seconds between polls (at least 0.000001). */
    const pollingRate: real
    /** Polls per acceleration recalculation (at least 1). */
    const cyclePeriod: int
    const usePlaceholder: bool
    const placeholderPulse: int
    const placeholderAcceleration: real

    var connected: bool
    var timeSinceLastPolling: real
    var cycle: int
    var firstPeriodPulse: int
    /** Values raised through PulseReceived, oldest first. */
    var pulses: seq<int>
    /** Values raised through AccelerationCalculated, oldest first. */
    var accelerations: seq<real>
    /** Messages sent to the serial controller, oldest first. */
    var sent: seq<string>

    ghost predicate Valid()
      reads this
    {
      && InInt32(receivedPulseOffset) && pollingRate > 0.0 && cyclePeriod >= 1
      && 1 <= placeholderPulse <= 150
      && 0 <= cycle < cyclePeriod
    }

    /** Start: cycle and anchor at 0, disconnected, nothing polled yet. */
    constructor (offset: int, rate: real, period: int, placeholder: bool, pPulse: int, pAcceleration: real)
      requires InInt32(offset) && rate >= 0.000001 && period >= 1 && 1 <= pPulse <= 150
      ensures Valid()
      ensures receivedPulseOffset == offset && pollingRate == rate && cyclePeriod == period
      ensures usePlaceholder == placeholder && placeholderPulse == pPulse && placeholderAcceleration == pAcceleration
      ensures !connected && timeSinceLastPolling == 0.0 && cycle == 0 && firstPeriodPulse == 0
      ensures pulses == [] && accelerations == [] && sent == []
    {
      receivedPulseOffset, pollingRate, cyclePeriod := offset, rate, period;
      usePlaceholder, placeholderPulse, placeholderAcceleration := placeholder, pPulse, pAcceleration;
      connected, timeSinceLastPolling := false, 0.0;
      cycle, firstPeriodPulse := 0, 0;
      pulses, accelerations, sent := [], [], [];
    }

    /**
     * CalculateAcceleration: advances the cycle; on its period-th step the cycle restarts,
     * the acceleration since the anchor is raised and the pulse becomes the new anchor.
     */
    method CalculateAcceleration(pulse: int)
      requires Valid()
      modifies this`cycle, this`firstPeriodPulse, this`accelerations
      ensures Valid()
      ensures cycle == (old(cycle) + 1) % cyclePeriod
      ensures old(cycle) + 1 < cyclePeriod ==>
                firstPeriodPulse == old(firstPeriodPulse) && accelerations == old(accelerations)
      ensures old(cycle) + 1 == cyclePeriod ==>
                && firstPeriodPulse == pulse
                && accelerations == old(accelerations) + [Acceleration(pulse, old(firstPeriodPulse), pollingRate, cyclePeriod)]
    {
      cycle := cycle + 1;
      if cycle >= cyclePeriod {
        cycle := 0;
        var acceleration := Acceleration(pulse, firstPeriodPulse, pollingRate, cyclePeriod);
        accelerations := accelerations + [acceleration];
        firstPeriodPulse := pulse;
      }
    }

    /** CreatePlaceholderAcceleration: the same cycle, raising the fixed value. */
    method CreatePlaceholderAcceleration(acceleration: real)
      requires Valid()
      modifies this`cycle, this`accelerations
      ensures Valid()
      ensures cycle == (old(cycle) + 1) % cyclePeriod
      ensures accelerations == old(accelerations) + if old(cycle) + 1 == cyclePeriod then [acceleration] else []
    {
      cycle := cycle + 1;
      if cycle >= cyclePeriod {
        cycle := 0;
        accelerations := accelerations + [acceleration];
      }
    }

    /**
     * GetMessageFromSerial: parses the message, raising PulseReceived for a pulse, and
     * feeds the pulse (0 when there is none) to the acceleration cycle. A reply whose
     * number does not parse throws before anything changes.
     */
    method GetMessageFromSerial(msg: Option<string>) returns (thrown: bool)
      requires Valid()
      modifies this`cycle, this`firstPeriodPulse, this`accelerations, this`pulses
      ensures Valid()
      ensures var p := PulseFromMessage(msg, receivedPulseOffset);
              && (thrown <==> p.ParseFailed?)
              && (thrown ==> cycle == old(cycle) && pulses == old(pulses) && accelerations == old(accelerations))
              && (!thrown ==> cycle == (old(cycle) + 1) % cyclePeriod)
              && pulses == old(pulses) + (if p.Pulse? then [p.value] else [])
              && (old(cycle) + 1 == cyclePeriod && !thrown ==>
                    accelerations == old(accelerations) + [Acceleration(ReportedPulse(p), old(firstPeriodPulse), pollingRate, cyclePeriod)]
                    && firstPeriodPulse == ReportedPulse(p))
    {
      var p := PulseFromMessage(msg, receivedPulseOffset);
      thrown := p.ParseFailed?;
      if thrown {
        return;
      }
      if p.Pulse? {
        pulses := pulses + [p.value];
      }
      CalculateAcceleration(ReportedPulse(p));
    }

    /** GetBiofeedbackFromPlaceholder: reports the placeholder pulse plus the offset and runs
        the placeholder acceleration cycle. */
    method GetBiofeedbackFromPlaceholder()
      requires Valid()
      modifies this`cycle, this`accelerations, this`pulses
      ensures Valid()
      ensures pulses == old(pulses) + [Wrap32(placeholderPulse + receivedPulseOffset)]
      ensures cycle == (old(cycle) + 1) % cyclePeriod
      ensures accelerations == old(accelerations) + if old(cycle) + 1 == cyclePeriod then [placeholderAcceleration] else []
    {
      var message := PulsePrefix + FormatInt(placeholderPulse);
      WellFormedReplyReportsValue(placeholderPulse, receivedPulseOffset);
      var p := PulseFromMessage(Some(message), receivedPulseOffset);
      pulses := pulses + [p.value];
      CreatePlaceholderAcceleration(placeholderAcceleration);
    }

    /** SendMessageToSerialController: while disconnected, first reports -1; the request is
        sent either way. */
    method SendMessageToSerialController()
      modifies this`pulses, this`sent
      ensures pulses == old(pulses) + if connected then [] else [PulseNotReceived]
      ensures sent == old(sent) + [PulseRequestMessage]
    {
      if !connected {
        pulses := pulses + [PulseNotReceived];
      }
      sent := sent + [PulseRequestMessage];
    }

    /** SetConnectionWithSerial: records the state; connecting sends a request at once. */
    method SetConnectionWithSerial(isConnected: bool)
      modifies this`connected, this`pulses, this`sent
      ensures connected == isConnected && pulses == old(pulses)
      ensures sent == old(sent) + if isConnected then [PulseRequestMessage] else []
    {
      connected := isConnected;
      if connected {
        SendMessageToSerialController();
      }
    }

    /**
     * FixedUpdate, once per physics step of `deltaTime` seconds: polls only when the
     * accumulated time strictly exceeds the polling rate, then restarts the accumulator.
     */
    method FixedUpdate(deltaTime: real) returns (polled: bool)
      requires Valid()
      modifies this`timeSinceLastPolling, this`cycle, this`accelerations, this`pulses, this`sent
      ensures Valid()
      ensures polled <==> old(timeSinceLastPolling) + deltaTime > pollingRate
      ensures polled ==> timeSinceLastPolling == 0.0
      ensures !polled ==> timeSinceLastPolling == old(timeSinceLastPolling) + deltaTime
                          && pulses == old(pulses) && sent == old(sent) && cycle == old(cycle)
      ensures polled && usePlaceholder ==>
                && pulses == old(pulses) + [Wrap32(placeholderPulse + receivedPulseOffset)] && sent == old(sent)
                && cycle == (old(cycle) + 1) % cyclePeriod
                && accelerations == old(accelerations) + if old(cycle) + 1 == cyclePeriod then [placeholderAcceleration] else []
      ensures !(polled && usePlaceholder) ==> accelerations == old(accelerations)
      ensures polled && !usePlaceholder ==>
                && sent == old(sent) + [PulseRequestMessage] && cycle == old(cycle)
                && pulses == old(pulses) + if connected then [] else [PulseNotReceived]
    {
      timeSinceLastPolling := timeSinceLastPolling + deltaTime;
      polled := timeSinceLastPolling > pollingRate;
      if polled {
        if usePlaceholder {
          GetBiofeedbackFromPlaceholder();
        } else {
          SendMessageToSerialController();
        }
        timeSinceLastPolling := 0.0;
      }
    }
  }
}
