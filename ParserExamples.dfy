/**
 * Worked examples for the deadline extractor. Each example is proved from the
 * declarative description of the pattern: the occurrence is exhibited, and
 * no earlier position could start one, so it is the leftmost.
 */
module ParserExamples {
  import opened SmartParser

  /** No position before `p` reads as a word-initial "in" (in any case). */
  predicate NoAnchorBefore(s: string, p: nat)
  {
    forall q :: 0 <= q < p && q + 2 <= |s| ==>
      !(BoundaryBefore(s, q) && Lower(s[q]) == 'i' && Lower(s[q + 1]) == 'n')
  }

  /** Every occurrence starts with a word-initial "in". */
  lemma OccurrenceAnchor(s: string, o: Occurrence)
    requires IsOccurrence(s, o)
    ensures o.start + 2 <= |s| && BoundaryBefore(s, o.start)
    ensures Lower(s[o.start]) == 'i' && Lower(s[o.start + 1]) == 'n'
  {
    assert Lower(s[o.start + 0]) == "in"[0];
    assert Lower(s[o.start + 1]) == "in"[1];
  }

  /** An occurrence with no anchor before it is the leftmost one. */
  lemma Leftmost(s: string, o: Occurrence)
    requires IsOccurrence(s, o) && NoAnchorBefore(s, o.start)
    ensures forall o' :: IsOccurrence(s, o') ==> o.start <= o'.start
  {
    forall o' | IsOccurrence(s, o') ensures o.start <= o'.start {
      OccurrenceAnchor(s, o');
    }
  }

  /** A text without any anchor has no occurrence, hence no alarm. */
  lemma NoAnchorNoAlarm(s: string, now: int)
    requires NoAnchorBefore(s, |s|)
    ensures Parse(s, now).alarmTime == 0
  {
    forall o | IsOccurrence(s, o) ensures false {
      OccurrenceAnchor(s, o);
    }
    ParseWithoutOccurrence(s, now);
  }

  /** "buy milk" has no deadline. */
  lemma BuyMilk(now: int)
    ensures Parse("buy milk", now).alarmTime == 0
  {
    NoAnchorNoAlarm("buy milk", now);
  }

  /** "within 5 min": the "in" inside "within" has no word boundary before it. */
  lemma Within(now: int)
    ensures Parse("within 5 min", now).alarmTime == 0
  {
    NoAnchorNoAlarm("within 5 min", now);
  }

  lemma PingBefore()
    ensures NoAnchorBefore("ping in 15m", 5)
  {
  }

  lemma PingAmount()
    ensures DigitsValue("ping in 15m"[8..10]) == 15
  {
    assert "ping in 15m"[8..10] == "15" && "15"[..1] == "1" && "1"[..0] == "";
  }

  lemma PingOccurrence()
    ensures IsOccurrence("ping in 15m", Occurrence(5, false, 8, 10, 10, "m"))
  {
    var s := "ping in 15m";
    assert LiteralAt(s, 5, "in") && LiteralAt(s, 10, "m");
  }

  /** "ping in 15m": fifteen minutes from now. */
  lemma Ping(now: int)
    ensures Parse("ping in 15m", now).alarmTime == now + 900000
  {
    var o := Occurrence(5, false, 8, 10, 10, "m");
    PingOccurrence();
    PingAmount();
    PingBefore();
    Leftmost("ping in 15m", o);
    ParseUsesLeftmost("ping in 15m", now, o);
  }

  lemma MeetingBefore()
    ensures NoAnchorBefore("meeting in 2 hours", 8)
  {
  }

  lemma MeetingAmount()
    ensures DigitsValue("meeting in 2 hours"[11..12]) == 2
  {
    assert "meeting in 2 hours"[11..12] == "2" && "2"[..0] == "";
  }

  lemma MeetingOccurrence()
    ensures IsOccurrence("meeting in 2 hours", Occurrence(8, false, 11, 12, 13, "hours"))
  {
    var s := "meeting in 2 hours";
    assert LiteralAt(s, 8, "in") && LiteralAt(s, 13, "hours");
  }

  /** "meeting in 2 hours": two hours from now. */
  lemma Meeting(now: int)
    ensures Parse("meeting in 2 hours", now).alarmTime == now + 7200000
  {
    var o := Occurrence(8, false, 11, 12, 13, "hours");
    MeetingOccurrence();
    MeetingAmount();
    MeetingBefore();
    Leftmost("meeting in 2 hours", o);
    ParseUsesLeftmost("meeting in 2 hours", now, o);
  }

  lemma WaitBefore()
    ensures NoAnchorBefore("wait in 0 minutes", 5)
  {
  }

  lemma WaitAmount()
    ensures DigitsValue("wait in 0 minutes"[8..9]) == 0
  {
    assert "wait in 0 minutes"[8..9] == "0" && "0"[..0] == "";
  }

  lemma WaitLiterals()
    ensures LiteralAt("wait in 0 minutes", 5, "in") && LiteralAt("wait in 0 minutes", 10, "minutes")
  {
  }

  lemma WaitOccurrence()
    ensures IsOccurrence("wait in 0 minutes", Occurrence(5, false, 8, 9, 10, "minutes"))
  {
    WaitLiterals();
  }

  /** "wait in 0 minutes": an amount of zero sets no alarm. */
  lemma WaitZero(now: int)
    ensures Parse("wait in 0 minutes", now).alarmTime == 0
  {
    var o := Occurrence(5, false, 8, 9, 10, "minutes");
    WaitOccurrence();
    WaitAmount();
    WaitBefore();
    Leftmost("wait in 0 minutes", o);
    ParseUsesLeftmost("wait in 0 minutes", now, o);
  }

  lemma UpperAmount()
    ensures DigitsValue("IN 5 MIN"[3..4]) == 5
  {
    assert "IN 5 MIN"[3..4] == "5" && "5"[..0] == "";
  }

  lemma UpperOccurrence()
    ensures IsOccurrence("IN 5 MIN", Occurrence(0, false, 3, 4, 5, "min"))
  {
    var s := "IN 5 MIN";
    assert LiteralAt(s, 0, "in") && LiteralAt(s, 5, "min");
  }

  /** "IN 5 MIN": matching ignores case. */
  lemma UpperCase(now: int)
    ensures Parse("IN 5 MIN", now).alarmTime == now + 300000
  {
    var o := Occurrence(0, false, 3, 4, 5, "min");
    UpperOccurrence();
    UpperAmount();
    Leftmost("IN 5 MIN", o);
    ParseUsesLeftmost("IN 5 MIN", now, o);
  }

  lemma ExactlyAmount()
    ensures DigitsValue("in exactly 5 min"[11..12]) == 5
  {
    assert "in exactly 5 min"[11..12] == "5" && "5"[..0] == "";
  }

  lemma ExactlyLiterals()
    ensures LiteralAt("in exactly 5 min", 0, "in") && LiteralAt("in exactly 5 min", 2, " exactly") && LiteralAt("in exactly 5 min", 13, "min")
  {
  }

  lemma ExactlyOccurrence()
    ensures IsOccurrence("in exactly 5 min", Occurrence(0, true, 11, 12, 13, "min"))
  {
    ExactlyLiterals();
  }

  /** "in exactly 5 min": the optional " exactly" is accepted. */
  lemma Exactly(now: int)
    ensures Parse("in exactly 5 min", now).alarmTime == now + 300000
  {
    var o := Occurrence(0, true, 11, 12, 13, "min");
    ExactlyOccurrence();
    ExactlyAmount();
    Leftmost("in exactly 5 min", o);
    ParseUsesLeftmost("in exactly 5 min", now, o);
  }

  lemma FirstOfTwoAmount()
    ensures DigitsValue("in 5m or in 2h"[3..4]) == 5
  {
    assert "in 5m or in 2h"[3..4] == "5" && "5"[..0] == "";
  }

  lemma FirstOfTwoOccurrence()
    ensures IsOccurrence("in 5m or in 2h", Occurrence(0, false, 3, 4, 4, "m"))
  {
    var s := "in 5m or in 2h";
    assert LiteralAt(s, 0, "in") && LiteralAt(s, 4, "m");
  }

  /** "in 5m or in 2h": only the leftmost match counts. */
  lemma FirstOfTwo(now: int)
    ensures Parse("in 5m or in 2h", now).alarmTime == now + 300000
  {
    var o := Occurrence(0, false, 3, 4, 4, "m");
    FirstOfTwoOccurrence();
    FirstOfTwoAmount();
    Leftmost("in 5m or in 2h", o);
    ParseUsesLeftmost("in 5m or in 2h", now, o);
  }

  lemma MonthsBefore()
    ensures NoAnchorBefore("in 5 months", 11)
      || (BoundaryBefore("in 5 months", 0) && forall q :: 1 <= q < 11 ==> !(Lower("in 5 months"[q]) == 'i'))
  {
  }

  /** No unit alternative ends on a word boundary at position 5 of "in 5 months". */
  lemma MonthsNoUnit(u: string)
    requires u in Units
    ensures !(LiteralAt("in 5 months", 5, u) && BoundaryAfter("in 5 months", 5 + |u|))
  {
    var s := "in 5 months";
    if LiteralAt(s, 5, u) {
      assert Lower(s[5 + 0]) == u[0];
      if |u| > 1 { assert Lower(s[5 + 1]) == u[1]; }
    }
  }

  /** An occurrence without " exactly" whose "in" is followed by one space,
      one digit and one space before a non-space has its unit right there. */
  lemma ShortShape(s: string, o: Occurrence)
    requires IsOccurrence(s, o) && !o.exactly && o.start + 5 < |s|
    requires IsRegexSpace(s[o.start + 2]) && IsDigit(s[o.start + 3])
    requires IsRegexSpace(s[o.start + 4]) && !IsRegexSpace(s[o.start + 5])
    ensures o.unitStart == o.start + 5
  {
    UnitHead(s, o);
    assert !IsRegexSpace(s[o.start + 3]) && !IsDigit(s[o.start + 4]);
  }

  /** The only anchor in "in 5 months" is at 0, without " exactly". */
  lemma MonthsStart(o: Occurrence)
    requires IsOccurrence("in 5 months", o)
    ensures o.start == 0 && !o.exactly
  {
    OccurrenceAnchor("in 5 months", o);
    MonthsBefore();
    NoExactlyBefore("in 5 months", 0);
  }

  /** In "in 5 months" the only anchor is at 0, and after "in 5 " no unit
      alternative ends on a word boundary. */
  lemma MonthsNoOccurrence(o: Occurrence)
    ensures !IsOccurrence("in 5 months", o)
  {
    var s := "in 5 months";
    if IsOccurrence(s, o) {
      MonthsStart(o);
      MonthsNoUnit(o.unit);
      ShortShape(s, o);
      assert false;
    }
  }

  /** "in 5 months": the unit must be followed by a word boundary. */
  lemma Months(now: int)
    ensures Parse("in 5 months", now).alarmTime == 0
  {
    forall o ensures !IsOccurrence("in 5 months", o) { MonthsNoOccurrence(o); }
    ParseWithoutOccurrence("in 5 months", now);
  }
}
