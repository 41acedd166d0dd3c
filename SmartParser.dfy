/**
 * The deadline extractor `SmartParser::parse`. It looks for the first match of
 *
 *     \b(?:in(?: exactly)?)\s+(\d+)\s*(m|min|mins|minutes|h|hr|hrs|hours)\b
 *
 * (case-insensitive) and turns it into `now + amount * unit-milliseconds`.
 * The regular expression is not interpreted by a general engine: `MatchAt`
 * is a hand-written scanner for this one pattern, and `IsOccurrence` is an
 * independent, declarative description of what the pattern accepts; the
 * lemmas below prove that the two agree. The clock read becomes `now`.
 */
module SmartParser {
  import opened Wrappers

  /** The struct `ParsedTask`: the text to store and the deadline (0 = none). */
  datatype ParsedTask = ParsedTask(cleanText: string, alarmTime: int)

  /** What the scanner captures: group 1 as a number and group 2 lower-cased. */
  datatype Hit = Hit(amount: nat, unit: string)

  /** A declarative description of one occurrence of the pattern: where it
      starts, whether the optional " exactly" is taken, where the digits are,
      and which unit alternative closes it. */
  datatype Occurrence = Occurrence(start: nat, exactly: bool, digitsStart: nat,
                                   digitsEnd: nat, unitStart: nat, unit: string)

  const MinuteMs: nat := 60 * 1000
  const HourMs: nat := 60 * 60 * 1000

  /** The unit alternatives, in the order the pattern lists them. */
  const Units: seq<string> := ["m", "min", "mins", "minutes", "h", "hr", "hrs", "hours"]

  // Character classes as the pattern sees them (ASCII only, as in PCRE
  // without Unicode properties).

  predicate IsWordChar(c: char)
  {
    ('a' <= c <= 'z') || ('A' <= c <= 'Z') || ('0' <= c <= '9') || c == '_'
  }

  predicate IsDigit(c: char)
  {
    '0' <= c <= '9'
  }

  predicate IsRegexSpace(c: char)
  {
    c == ' ' || ('\t' <= c <= '\r')
  }

  function Lower(c: char): char
  {
    if 'A' <= c <= 'Z' then (c as int - 'A' as int + 'a' as int) as char else c
  }

  /** The lower-case literal `lit` occurs at position `i` of `s`, ignoring case. */
  predicate LiteralAt(s: string, i: nat, lit: string)
  {
    i + |lit| <= |s| && forall k :: 0 <= k < |lit| ==> Lower(s[i + k]) == lit[k]
  }

  /** `\b` in front of a word character at position `p`. */
  predicate BoundaryBefore(s: string, p: nat)
  {
    p == 0 || (p <= |s| && !IsWordChar(s[p - 1]))
  }

  /** `\b` behind a word character that ends at position `e`. */
  predicate BoundaryAfter(s: string, e: nat)
  {
    e == |s| || (e < |s| && !IsWordChar(s[e]))
  }

  /** The value of a run of decimal digits, read left to right. */
  function DigitsValue(ds: string): nat
  {
    if ds == [] then 0
    else DigitsValue(ds[..|ds| - 1]) * 10 + (var d := ds[|ds| - 1] as int - '0' as int; if 0 <= d then d else 0)
  }

  /** The maximal run of whitespace starting at `i` ends at the result. */
  function SpacesEnd(s: string, i: nat): (e: nat)
    requires i <= |s|
    ensures i <= e <= |s|
    ensures e == |s| || !IsRegexSpace(s[e])
    decreases |s| - i
  {
    if i < |s| && IsRegexSpace(s[i]) then SpacesEnd(s, i + 1) else i
  }

  /** The maximal run of digits starting at `i` ends at the result. */
  function DigitsEnd(s: string, i: nat): (e: nat)
    requires i <= |s|
    ensures i <= e <= |s|
    ensures e == |s| || !IsDigit(s[e])
    decreases |s| - i
  {
    if i < |s| && IsDigit(s[i]) then DigitsEnd(s, i + 1) else i
  }

  /** The first of the alternatives `alts` that occurs at `k` and is followed
      by a word boundary. */
  function UnitAt(s: string, k: nat, alts: seq<string>): (r: Option<string>)
    ensures r.Some? ==> r.value in alts && LiteralAt(s, k, r.value) && BoundaryAfter(s, k + |r.value|)
  {
    if alts == [] then None
    else if LiteralAt(s, k, alts[0]) && BoundaryAfter(s, k + |alts[0]|) then Some(alts[0])
    else UnitAt(s, k, alts[1..])
  }

  /** The part of the pattern after "in" or "in exactly":
      `\s+(\d+)\s*(unit)\b`, starting at `q`. */
  function MatchTail(s: string, q: nat): Option<Hit>
    requires q <= |s|
  {
    var i := SpacesEnd(s, q);
    if i == q then None
    else
      var j := DigitsEnd(s, i);
      if j == i then None
      else
        var k := SpacesEnd(s, j);
        match UnitAt(s, k, Units)
        case None => None
        case Some(u) => Some(Hit(DigitsValue(s[i..j]), u))
  }

  /** The pattern anchored at position `p` (the optional " exactly" is tried
      first, as the greedy `?` does). */
  function MatchAt(s: string, p: nat): Option<Hit>
    requires p <= |s|
  {
    if !(BoundaryBefore(s, p) && LiteralAt(s, p, "in")) then None
    else if LiteralAt(s, p + 2, " exactly") && MatchTail(s, p + 10).Some? then MatchTail(s, p + 10)
    else MatchTail(s, p + 2)
  }

  /** The first present entry of `xs` at or after `from`, with its position. */
  function FirstSome<T>(xs: seq<Option<T>>, from: nat): (r: Option<(nat, T)>)
    requires from <= |xs|
    ensures r.Some? ==> from <= r.value.0 < |xs| && xs[r.value.0] == Some(r.value.1)
    ensures r.Some? ==> forall q :: from <= q < r.value.0 ==> xs[q].None?
    ensures r.None? ==> forall q :: from <= q < |xs| ==> xs[q].None?
    decreases |xs| - from
  {
    if from == |xs| then None
    else if xs[from].Some? then Some((from, xs[from].value))
    else FirstSome(xs, from + 1)
  }

  /** The scanner's verdict at every position of `s`, left to right. */
  function Scan(s: string): (r: seq<Option<Hit>>)
    ensures |r| == |s| + 1
  {
    seq(|s| + 1, p requires 0 <= p <= |s| => MatchAt(s, p))
  }

  /** The leftmost match, with its start position (`QRegularExpression::match`). */
  function FirstMatch(s: string): Option<(nat, Hit)>
  {
    FirstSome(Scan(s), 0)
  }

  /** Milliseconds a captured amount and unit stand for (`msToAdd`). */
  function Contribution(h: Hit): int
  {
    if |h.unit| > 0 && h.unit[0] == 'm' then h.amount * 60 * 1000
    else if |h.unit| > 0 && h.unit[0] == 'h' then h.amount * 60 * 60 * 1000
    else 0
  }

  /** `SmartParser::parse`: the text is kept verbatim and the deadline is
      either 0 (no alarm) or strictly later than `now`. */
  function Parse(rawText: string, now: int): (r: ParsedTask)
    ensures r.cleanText == rawText
    ensures r.alarmTime == 0 || r.alarmTime > now
  {
    var msToAdd := match FirstMatch(rawText)
      case None => 0
      case Some(m) => Contribution(m.1);
    ParsedTask(rawText, if msToAdd > 0 then now + msToAdd else 0)
  }

  // ---------------------------------------------------------------------
  // The declarative description of the pattern, and its agreement with the
  // scanner.

  /** `o` describes a text segment of `s` that the pattern accepts. */
  ghost predicate IsOccurrence(s: string, o: Occurrence)
  {
    var afterIn := o.start + 2 + (if o.exactly then 8 else 0);
    && BoundaryBefore(s, o.start) && LiteralAt(s, o.start, "in")
    && (o.exactly ==> LiteralAt(s, o.start + 2, " exactly"))
    && afterIn < o.digitsStart < o.digitsEnd <= o.unitStart
    && o.unit in Units && LiteralAt(s, o.unitStart, o.unit)
    && BoundaryAfter(s, o.unitStart + |o.unit|)
    && (forall k :: afterIn <= k < o.digitsStart ==> IsRegexSpace(s[k]))
    && (forall k :: o.digitsStart <= k < o.digitsEnd ==> IsDigit(s[k]))
    && (forall k :: o.digitsEnd <= k < o.unitStart ==> IsRegexSpace(s[k]))
  }

  /** The captured amount of an occurrence. */
  ghost function Amount(s: string, o: Occurrence): nat
    requires IsOccurrence(s, o)
  {
    DigitsValue(s[o.digitsStart..o.digitsEnd])
  }

  /** Milliseconds per unit: the minute spellings start with 'm', the hour
      spellings with 'h'. */
  function UnitMs(unit: string): nat
  {
    if unit in {"m", "min", "mins", "minutes"} then MinuteMs
    else if unit in {"h", "hr", "hrs", "hours"} then HourMs
    else 0
  }

  /** Every character a unit alternative matches is a word character. */
  lemma UnitIsWord(s: string, k: nat, u: string)
    requires u in Units && LiteralAt(s, k, u)
    ensures forall i :: k <= i < k + |u| ==> IsWordChar(s[i])
  {
    forall i | k <= i < k + |u| ensures IsWordChar(s[i]) {
      assert Lower(s[k + (i - k)]) == u[i - k];
    }
  }

  /** At most one unit alternative fits at a position and ends on a boundary. */
  lemma UnitUnique(s: string, k: nat, u1: string, u2: string)
    requires u1 in Units && u2 in Units
    requires LiteralAt(s, k, u1) && BoundaryAfter(s, k + |u1|)
    requires LiteralAt(s, k, u2) && BoundaryAfter(s, k + |u2|)
    ensures u1 == u2
  {
    UnitIsWord(s, k, u1);
    UnitIsWord(s, k, u2);
    assert |u1| == |u2|;
    forall i | 0 <= i < |u1| ensures u1[i] == u2[i] {
      assert Lower(s[k + i]) == u1[i];
    }
  }

  /** The alternative that fits is the one the scanner picks. */
  lemma UnitAtFinds(s: string, k: nat, u: string)
    requires u in Units && LiteralAt(s, k, u) && BoundaryAfter(s, k + |u|)
    ensures UnitAt(s, k, Units) == Some(u)
  {
    var r := UnitAt(s, k, Units);
    if r.None? { UnitAtNone(s, k, Units); }
    UnitUnique(s, k, r.value, u);
  }

  /** Everything SpacesEnd skips is whitespace. */
  lemma {:induction false} SpacesRun(s: string, i: nat)
    requires i <= |s|
    ensures forall k :: i <= k < SpacesEnd(s, i) ==> IsRegexSpace(s[k])
    decreases |s| - i
  {
    if i < |s| && IsRegexSpace(s[i]) { SpacesRun(s, i + 1); }
  }

  /** Everything DigitsEnd skips is a digit. */
  lemma {:induction false} DigitsRun(s: string, i: nat)
    requires i <= |s|
    ensures forall k :: i <= k < DigitsEnd(s, i) ==> IsDigit(s[k])
    decreases |s| - i
  {
    if i < |s| && IsDigit(s[i]) { DigitsRun(s, i + 1); }
  }

  /** When UnitAt finds nothing, no alternative fits. */
  lemma {:induction false} UnitAtNone(s: string, k: nat, alts: seq<string>)
    requires UnitAt(s, k, alts).None?
    ensures forall u :: u in alts ==> !(LiteralAt(s, k, u) && BoundaryAfter(s, k + |u|))
  {
    if alts != [] { UnitAtNone(s, k, alts[1..]); }
  }

  /** A whitespace run that is known to end at `d` is what SpacesEnd finds. */
  lemma SpacesEndAt(s: string, i: nat, d: nat)
    requires i <= d <= |s|
    requires forall k :: i <= k < d ==> IsRegexSpace(s[k])
    requires d == |s| || !IsRegexSpace(s[d])
    ensures SpacesEnd(s, i) == d
  {
    SpacesRun(s, i);
  }

  /** A digit run that is known to end at `d` is what DigitsEnd finds. */
  lemma DigitsEndAt(s: string, i: nat, d: nat)
    requires i <= d <= |s|
    requires forall k :: i <= k < d ==> IsDigit(s[k])
    requires d == |s| || !IsDigit(s[d])
    ensures DigitsEnd(s, i) == d
  {
    DigitsRun(s, i);
  }

  /** A unit starts with a letter, which is neither whitespace nor a digit. */
  lemma UnitHead(s: string, o: Occurrence)
    requires o.unit in Units && LiteralAt(s, o.unitStart, o.unit)
    ensures o.unitStart < |s| && !IsRegexSpace(s[o.unitStart]) && !IsDigit(s[o.unitStart])
  {
    assert Lower(s[o.unitStart + 0]) == o.unit[0];
  }

  /** " exactly" cannot follow where whitespace or a digit stands at its 'e'. */
  lemma NoExactlyBefore(s: string, p: nat)
    ensures p + 3 < |s| && (IsRegexSpace(s[p + 3]) || IsDigit(s[p + 3]))
      ==> !LiteralAt(s, p + 2, " exactly")
  {
    if LiteralAt(s, p + 2, " exactly") {
      assert Lower(s[p + 2 + 1]) == " exactly"[1];
    }
  }

  /** What the tail scanner finds is an occurrence of the rest of the pattern. */
  lemma MatchTailSound(s: string, o: Occurrence, q: nat)
    requires q <= |s| && MatchTail(s, q).Some?
    requires q == o.start + 2 + (if o.exactly then 8 else 0)
    requires BoundaryBefore(s, o.start) && LiteralAt(s, o.start, "in")
    requires o.exactly ==> LiteralAt(s, o.start + 2, " exactly")
    ensures var i := SpacesEnd(s, q); var j := DigitsEnd(s, i); var k := SpacesEnd(s, j);
      IsOccurrence(s, o.(digitsStart := i, digitsEnd := j, unitStart := k, unit := MatchTail(s, q).value.unit))
      && MatchTail(s, q).value.amount == DigitsValue(s[i..j])
  {
    var i := SpacesEnd(s, q);
    SpacesRun(s, q);
    DigitsRun(s, i);
    SpacesRun(s, DigitsEnd(s, i));
  }

  /** Soundness: every hit of the scanner is an occurrence of the pattern with
      the same amount and unit. */
  lemma MatchAtSound(s: string, p: nat)
    requires p <= |s| && MatchAt(s, p).Some?
    ensures exists o :: (IsOccurrence(s, o) && o.start == p
      && MatchAt(s, p).value == Hit(Amount(s, o), o.unit))
  {
    var ex := LiteralAt(s, p + 2, " exactly") && MatchTail(s, p + 10).Some?;
    var q := if ex then p + 10 else p + 2;
    var o1 := Occurrence(p, ex, 0, 0, 0, "");
    MatchTailSound(s, o1, q);
    var i := SpacesEnd(s, q);
    var j := DigitsEnd(s, i);
    var k := SpacesEnd(s, j);
    var o := o1.(digitsStart := i, digitsEnd := j, unitStart := k, unit := MatchTail(s, q).value.unit);
    assert IsOccurrence(s, o) && MatchAt(s, p).value == Hit(Amount(s, o), o.unit);
  }

  /** Completeness of the tail scanner for a given occurrence. */
  lemma MatchTailComplete(s: string, o: Occurrence)
    requires IsOccurrence(s, o)
    ensures var q := o.start + 2 + (if o.exactly then 8 else 0);
      q <= |s| && MatchTail(s, q) == Some(Hit(Amount(s, o), o.unit))
  {
    var q := o.start + 2 + (if o.exactly then 8 else 0);
    UnitHead(s, o);
    SpacesEndAt(s, q, o.digitsStart);
    assert o.digitsEnd < o.unitStart ==> IsRegexSpace(s[o.digitsEnd]);
    DigitsEndAt(s, o.digitsStart, o.digitsEnd);
    SpacesEndAt(s, o.digitsEnd, o.unitStart);
    UnitAtFinds(s, o.unitStart, o.unit);
  }

  /** The anchored scanner delivers the tail's hit once "in" (and " exactly"
      exactly when it is there) has been read. */
  lemma AnchoredTail(s: string, p: nat, q: nat, h: Hit)
    requires p <= |s| && q <= |s| && BoundaryBefore(s, p) && LiteralAt(s, p, "in")
    requires (q == p + 10 && LiteralAt(s, p + 2, " exactly"))
          || (q == p + 2 && !LiteralAt(s, p + 2, " exactly"))
    requires MatchTail(s, q) == Some(h)
    ensures MatchAt(s, p) == Some(h)
  {
  }

  /** Completeness: wherever the pattern occurs, the scanner anchored at the
      occurrence's start reports the occurrence's amount and unit. */
  lemma MatchAtComplete(s: string, o: Occurrence)
    requires IsOccurrence(s, o)
    ensures o.start <= |s| && MatchAt(s, o.start) == Some(Hit(Amount(s, o), o.unit))
  {
    MatchTailComplete(s, o);
    var p := o.start;
    var q := p + 2 + (if o.exactly then 8 else 0);
    // after "in " an occurrence without " exactly" has whitespace or a digit,
    // never the 'e' of "exactly"
    assert !o.exactly ==> IsRegexSpace(s[p + 3]) || IsDigit(s[p + 3]);
    NoExactlyBefore(s, p);
    AnchoredTail(s, p, q, Hit(Amount(s, o), o.unit));
  }

  /** Minute spellings contribute 60000 ms per unit, hour spellings 3600000. */
  lemma ContributionIsUnitMs(h: Hit)
    requires h.unit in Units
    ensures Contribution(h) == h.amount * UnitMs(h.unit)
  {
    assert h.amount * 60 * 1000 == h.amount * MinuteMs;
    assert h.amount * 60 * 60 * 1000 == h.amount * HourMs;
  }

  /** The leftmost match is at the first position where the scanner hits. */
  lemma FirstMatchIsLeftmost(s: string)
    ensures FirstMatch(s).Some? ==> var p := FirstMatch(s).value.0;
      p <= |s| && MatchAt(s, p) == Some(FirstMatch(s).value.1)
      && forall q :: 0 <= q < p ==> MatchAt(s, q).None?
    ensures FirstMatch(s).None? ==> forall q :: 0 <= q <= |s| ==> MatchAt(s, q).None?
  {
    var xs := Scan(s);
    forall q | 0 <= q <= |s| ensures xs[q] == MatchAt(s, q) { }
  }

  /** No occurrence anywhere in the text: no alarm. */
  lemma ParseWithoutOccurrence(rawText: string, now: int)
    requires forall o :: !IsOccurrence(rawText, o)
    ensures Parse(rawText, now).alarmTime == 0
  {
    FirstMatchIsLeftmost(rawText);
    var m := FirstMatch(rawText);
    if m.Some? {
      MatchAtSound(rawText, m.value.0);
    }
  }

  /** The leftmost occurrence is what the scanner reports first. */
  lemma LeftmostOccurrenceFound(s: string, o: Occurrence)
    requires IsOccurrence(s, o)
    requires forall o' :: IsOccurrence(s, o') ==> o.start <= o'.start
    ensures FirstMatch(s) == Some((o.start, Hit(Amount(s, o), o.unit)))
  {
    FirstMatchIsLeftmost(s);
    MatchAtComplete(s, o);
    var m := FirstMatch(s);
    assert m.Some?;
    MatchAtSound(s, m.value.0);
  }

  /** The leftmost occurrence decides: its amount times its unit's
      milliseconds is added to `now`, and an amount of 0 means no alarm. */
  lemma ParseUsesLeftmost(rawText: string, now: int, o: Occurrence)
    requires IsOccurrence(rawText, o)
    requires forall o' :: IsOccurrence(rawText, o') ==> o.start <= o'.start
    ensures Parse(rawText, now).alarmTime
      == if Amount(rawText, o) == 0 then 0 else now + Amount(rawText, o) * UnitMs(o.unit)
  {
    LeftmostOccurrenceFound(rawText, o);
    ContributionIsUnitMs(Hit(Amount(rawText, o), o.unit));
  }
}
