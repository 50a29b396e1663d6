/** The recording clock of components/chat/voice-recorder.tsx: the seconds
    counter a timer advances while recording, and its `mm:ss` display. */
module VoiceRecorder {

  predicate IsDigit(c: char) {
    '0' <= c <= '9'
  }

  function DigitChar(d: nat): (c: char)
    requires d < 10
    ensures IsDigit(c)
  {
    ['0', '1', '2', '3', '4', '5', '6', '7', '8', '9'][d]
  }

  function DigitValue(c: char): (d: nat)
    requires IsDigit(c)
    ensures d < 10
  {
    (c as int - '0' as int) as nat
  }

  lemma DigitRoundTrip(d: nat)
    requires d < 10
    ensures DigitValue(DigitChar(d)) == d
  {
  }

  /** `n.toString()` for a non-negative integer: its decimal digits, without
      leading zeros. */
  function Decimal(n: nat): (r: string)
    ensures |r| >= 1
    ensures forall i :: 0 <= i < |r| ==> IsDigit(r[i])
    ensures n < 10 <==> |r| == 1
  {
    if n < 10 then [DigitChar(n)] else Decimal(n / 10) + [DigitChar(n % 10)]
  }

  /** The value of a string of decimal digits. */
  function ParseDigits(s: string): nat
    requires forall i :: 0 <= i < |s| ==> IsDigit(s[i])
  {
    if s == [] then 0 else ParseDigits(s[..|s| - 1]) * 10 + DigitValue(s[|s| - 1])
  }

  /** Reading the digits back gives the number. */
  lemma {:induction false} ParseDecimal(n: nat)
    ensures ParseDigits(Decimal(n)) == n
  {
    var r := Decimal(n);
    if n < 10 {
      DigitRoundTrip(n);
    } else {
      ParseDecimal(n / 10);
      DigitRoundTrip(n % 10);
      assert r[..|r| - 1] == Decimal(n / 10);
    }
  }

  /** `s.padStart(2, "0")`. */
  function PadStart2(s: string): (r: string)
    ensures |r| == if |s| >= 2 then |s| else 2
    ensures |s| >= 2 ==> r == s
  {
    if |s| >= 2 then s else if |s| == 1 then "0" + s else "00"
  }

  /** A leading zero does not change the value. */
  lemma {:induction false} ParseLeadingZero(s: string)
    requires forall i :: 0 <= i < |s| ==> IsDigit(s[i])
    ensures ParseDigits("0" + s) == ParseDigits(s)
  {
    if s != [] {
      var init := s[..|s| - 1];
      ParseLeadingZero(init);
      assert ("0" + s)[..|"0" + s| - 1] == "0" + init;
    }
  }

  lemma ParsePadded(s: string)
    requires forall i :: 0 <= i < |s| ==> IsDigit(s[i])
    ensures forall i :: 0 <= i < |PadStart2(s)| ==> IsDigit(PadStart2(s)[i])
    ensures ParseDigits(PadStart2(s)) == ParseDigits(s)
  {
    if |s| == 1 {
      ParseLeadingZero(s);
    } else if |s| == 0 {
      ParseLeadingZero("0");
      assert "0" + "0" == "00";
    }
  }

  /** `formatTime`: whole minutes and remaining seconds, each padded to two digits. */
  function FormatTime(seconds: nat): (r: string)
    ensures |r| >= 5 && r[|r| - 3] == ':'
  {
    PadStart2(Decimal(seconds / 60)) + ":" + PadStart2(Decimal(seconds % 60))
  }

  /** The minutes part, left of the colon. */
  function MinutesPart(r: string): string
    requires |r| >= 3
  {
    r[..|r| - 3]
  }

  /** The seconds part, right of the colon. */
  function SecondsPart(r: string): string
    requires |r| >= 3
  {
    r[|r| - 2..]
  }

  /** The display splits into at least two minute digits and exactly two second
      digits below sixty, and reading both back gives the count of seconds. */
  lemma FormatTimeRoundTrip(seconds: nat)
    ensures var r := FormatTime(seconds);
      && |MinutesPart(r)| >= 2
      && (forall i :: 0 <= i < |MinutesPart(r)| ==> IsDigit(MinutesPart(r)[i]))
      && |SecondsPart(r)| == 2
      && (forall i :: 0 <= i < 2 ==> IsDigit(SecondsPart(r)[i]))
      && ParseDigits(SecondsPart(r)) < 60
      && ParseDigits(MinutesPart(r)) * 60 + ParseDigits(SecondsPart(r)) == seconds
  {
    var r := FormatTime(seconds);
    var mm := PadStart2(Decimal(seconds / 60));
    var ss := PadStart2(Decimal(seconds % 60));
    assert |Decimal(seconds % 60)| == 1 || |Decimal(seconds % 60)| == 2 by {
      if seconds % 60 >= 10 {
        assert Decimal(seconds % 60) == Decimal(seconds % 60 / 10) + [DigitChar(seconds % 60 % 10)];
      }
    }
    assert |ss| == 2;
    assert r == mm + ":" + ss;
    assert MinutesPart(r) == mm;
    assert SecondsPart(r) == ss;
    ParsePadded(Decimal(seconds / 60));
    ParsePadded(Decimal(seconds % 60));
    ParseDecimal(seconds / 60);
    ParseDecimal(seconds % 60);
  }

  class Recorder {
    var isRecording: bool
    var recordingTime: nat
    var timerRunning: bool

    constructor()
      ensures !isRecording && recordingTime == 0 && !timerRunning
    {
      isRecording := false;
      recordingTime := 0;
      timerRunning := false;
    }

    /** With microphone access the recording starts and the counter restarts
        from zero; without it nothing changes. */
    method StartRecording(microphoneGranted: bool)
      modifies this
      ensures microphoneGranted ==> isRecording && recordingTime == 0 && timerRunning
      ensures !microphoneGranted ==>
        isRecording == old(isRecording) && recordingTime == old(recordingTime) && timerRunning == old(timerRunning)
    {
      if microphoneGranted {
        isRecording := true;
        recordingTime := 0;
        timerRunning := true;
      }
    }

    /** One second of the interval timer: the counter advances by one. */
    method Tick()
      modifies this
      ensures recordingTime == old(recordingTime) + (if old(timerRunning) then 1 else 0)
      ensures isRecording == old(isRecording) && timerRunning == old(timerRunning)
    {
      if timerRunning {
        recordingTime := recordingTime + 1;
      }
    }

    /** Stopping clears the timer; the counter keeps its last value. */
    method StopRecording()
      modifies this
      ensures !isRecording && !timerRunning && recordingTime == old(recordingTime)
    {
      isRecording := false;
      timerRunning := false;
    }

    /** What the recorder shows while recording. */
    function Display(): string
      reads this
    {
      FormatTime(recordingTime)
    }
  }

  /** A fresh recording shows 00:00 and, two ticks later, 00:02. */
  method StartAndTickTwice(r: Recorder)
    modifies r
    ensures r.isRecording && r.recordingTime == 2
    ensures r.Display() == "00:02"
  {
    r.StartRecording(true);
    assert r.Display() == "00:00";
    r.Tick();
    r.Tick();
  }
}
