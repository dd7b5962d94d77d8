/**
 * Time input: the normalisation of a typed clock time and the duration of a
 * shift between two 12-hour clock times, in whole minutes.
 */
module Clock {
  import opened Wrappers

  /** ASCII whitespace, the characters str.strip() removes in this model. */
  predicate IsSpace(c: char) {
    c == ' ' || c == '\t' || c == '\n' || c == '\r' || c == '\U{0B}' || c == '\U{0C}'
    || ('\U{1C}' <= c <= '\U{1F}')
  }

  /** Drops leading whitespace. */
  function TrimStart(s: string): (r: string)
    ensures |r| <= |s| && r == s[|s| - |r|..]
    ensures forall i :: 0 <= i < |s| - |r| ==> IsSpace(s[i])
    ensures r != [] ==> !IsSpace(r[0])
    decreases |s|
  {
    if s != [] && IsSpace(s[0]) then TrimStart(s[1..]) else s
  }

  /** Drops trailing whitespace. */
  function TrimEnd(s: string): (r: string)
    ensures |r| <= |s| && r == s[..|r|]
    ensures forall i :: |r| <= i < |s| ==> IsSpace(s[i])
    ensures r != [] ==> !IsSpace(r[|r| - 1])
    decreases |s|
  {
    if s != [] && IsSpace(s[|s| - 1]) then TrimEnd(s[..|s| - 1]) else s
  }

  /** `r` sits at position k of `s`, with only whitespace before and after it. */
  predicate StrippedAt(s: string, r: string, k: nat) {
    && k + |r| <= |s| && r == s[k..k + |r|]
    && (forall i :: 0 <= i < k ==> IsSpace(s[i]))
    && (forall i :: k + |r| <= i < |s| ==> IsSpace(s[i]))
  }

  /**
   * str.strip(): the result is the part of the input between a whitespace
   * prefix and a whitespace suffix, and it neither starts nor ends with whitespace.
   */
  function Strip(s: string): (r: string)
    ensures exists k: nat :: StrippedAt(s, r, k)
    ensures r != [] ==> !IsSpace(r[0]) && !IsSpace(r[|r| - 1])
  {
    var a := TrimStart(s);
    var b := TrimEnd(a);
    assert StrippedAt(s, b, |s| - |a|);
    b
  }

  /** str.upper() on ASCII letters. */
  function UpperChar(c: char): (r: char)
    ensures !('a' <= r <= 'z')
    ensures !('a' <= c <= 'z') ==> r == c
    ensures 'a' <= c <= 'z' ==> 'A' <= r <= 'Z' && r as int - 'A' as int == c as int - 'a' as int
  {
    if 'a' <= c <= 'z' then (c as int - 32) as char else c
  }

  /** No lower-case ASCII letter is left, and every other character is kept. */
  function Upper(s: string): (r: string)
    ensures |r| == |s|
    ensures forall i :: 0 <= i < |r| ==> !('a' <= r[i] <= 'z')
    ensures forall i :: 0 <= i < |s| && !('a' <= s[i] <= 'z') ==> r[i] == s[i]
    ensures forall i :: 0 <= i < |s| ==> r[i] == UpperChar(s[i])
  {
    seq(|s|, i requires 0 <= i < |s| => UpperChar(s[i]))
  }

  /** The pattern occurs in the string starting at position k. */
  predicate OccursAt(s: string, pat: string, k: nat) {
    k + |pat| <= |s| && s[k..k + |pat|] == pat
  }

  /** Python's `pat in s`: the pattern occurs at some position of the string. */
  predicate Contains(s: string, pat: string)
    ensures Contains(s, pat) <==> exists k: nat :: OccursAt(s, pat, k)
    decreases |s|
  {
    if |pat| > |s| then false
    else if s[..|pat|] == pat then assert OccursAt(s, pat, 0); true
    else if |s| == 0 then false
    else
      assert forall k: nat :: OccursAt(s[1..], pat, k) <==> OccursAt(s, pat, k + 1) by {
        forall k: nat ensures OccursAt(s[1..], pat, k) <==> OccursAt(s, pat, k + 1) {
          if k + 1 + |pat| <= |s| {
            assert s[1..][k..k + |pat|] == s[k + 1..k + 1 + |pat|];
          }
        }
      }
      assert forall k: nat :: OccursAt(s, pat, k) ==> k > 0;
      assert forall k: nat :: OccursAt(s, pat, k) ==> OccursAt(s[1..], pat, k - 1);
      Contains(s[1..], pat)
  }

  /** str.replace(pat, rep): every non-overlapping occurrence, left to right. */
  function Replace(s: string, pat: string, rep: string): (r: string)
    requires |pat| > 0
    ensures !Contains(s, pat) ==> r == s
    decreases |s|
  {
    if |s| < |pat| then s
    else if s[..|pat|] == pat then rep + Replace(s[|pat|..], pat, rep)
    else
      assert [s[0]] + s[1..] == s;
      [s[0]] + Replace(s[1..], pat, rep)
  }

  lemma {:induction false} ContainsAppend(a: string, b: string, pat: string)
    requires Contains(a, pat)
    ensures Contains(a + b, pat)
    decreases |a|
  {
    assert (a + b)[..|pat|] == a[..|pat|];
    if a[..|pat|] != pat {
      ContainsAppend(a[1..], b, pat);
      assert (a + b)[1..] == a[1..] + b;
    }
  }

  lemma ContainsCons(c: char, s: string, pat: string)
    requires Contains(s, pat)
    ensures Contains([c] + s, pat)
  {
    assert ([c] + s)[1..] == s;
  }

  /** A pattern that occurs in the input still occurs after replacing it by a string that contains it. */
  lemma {:induction false} ReplaceKeeps(s: string, pat: string, rep: string)
    requires |pat| > 0 && Contains(s, pat) && Contains(rep, pat)
    ensures Contains(Replace(s, pat, rep), pat)
    decreases |s|
  {
    if s[..|pat|] == pat {
      ContainsAppend(rep, Replace(s[|pat|..], pat, rep), pat);
    } else {
      ReplaceKeeps(s[1..], pat, rep);
      ContainsCons(s[0], Replace(s[1..], pat, rep), pat);
    }
  }

  /**
   * normalize_time: strip, upper-case, put a space before AM and PM, and fail
   * (None stands for the ValueError) when neither AM nor PM is present.
   */
  function NormalizeTime(t: string): (r: Option<string>)
    ensures r.Some? ==> Contains(r.value, "AM") || Contains(r.value, "PM")
  {
    var u := Replace(Replace(Upper(Strip(t)), "AM", " AM"), "PM", " PM");
    if !(Contains(u, "AM") || Contains(u, "PM")) then None else Some(u)
  }

  /** normalize_time fails exactly when the stripped, upper-cased input has neither AM nor PM. */
  lemma NormalizeTimeFailsIff(t: string)
    ensures NormalizeTime(t).None? <==>
      !Contains(Upper(Strip(t)), "AM") && !Contains(Upper(Strip(t)), "PM")
  {
    var u := Upper(Strip(t));
    var v := Replace(u, "AM", " AM");
    var w := Replace(v, "PM", " PM");
    assert Contains(" AM", "AM") by { assert " AM"[1..][..2] == "AM"; }
    assert Contains(" PM", "PM") by { assert " PM"[1..][..2] == "PM"; }
    if Contains(u, "AM") {
      ReplaceKeeps(u, "AM", " AM");
      if Contains(v, "PM") {
        ReplaceKeeps(v, "PM", " PM");
      } else {
      }
    } else {
      if Contains(u, "PM") {
        ReplaceKeeps(v, "PM", " PM");
      } else {
      }
    }
  }

  /** Upper-casing turns a lower-case "am" or "pm" at position k into "AM" or "PM" there. */
  lemma UpperMeridiemAt(v: string, k: nat)
    requires k + 2 <= |v|
    requires v[k..k + 2] == "pm" || v[k..k + 2] == "am"
    ensures Contains(Upper(v), "AM") || Contains(Upper(v), "PM")
  {
    var u := Upper(v);
    assert v[k] == v[k..k + 2][0] && v[k + 1] == v[k..k + 2][1];
    assert u[k..k + 2] == [UpperChar(v[k]), UpperChar(v[k + 1])];
    if v[k..k + 2] == "pm" {
      assert OccursAt(u, "PM", k);
    } else {
      assert OccursAt(u, "AM", k);
    }
  }

  /** A meridiem typed in lower case ("pm", "am") anywhere in the trimmed input is accepted. */
  lemma LowerCaseMeridiemAccepted(t: string, k: nat)
    requires k + 2 <= |Strip(t)|
    requires Strip(t)[k..k + 2] == "pm" || Strip(t)[k..k + 2] == "am"
    ensures NormalizeTime(t).Some?
  {
    UpperMeridiemAt(Strip(t), k);
    NormalizeTimeFailsIff(t);
  }

  type Hour12 = h: int | 1 <= h <= 12 witness 1
  type Minute = m: int | 0 <= m < 60
  datatype Meridiem = AM | PM

  /** A time accepted by the "%I:%M %p" format. */
  datatype ClockTime = ClockTime(hour: Hour12, minute: Minute, meridiem: Meridiem)

  /** Minutes since midnight: 12 AM is hour 0 and 12 PM is hour 12. */
  function MinutesOfDay(t: ClockTime): (r: int)
    ensures 0 <= r < 1440
    ensures r % 60 == t.minute
    ensures r < 720 <==> t.meridiem == AM
    ensures t.hour < 12 ==> r / 60 == t.hour + (if t.meridiem == PM then 12 else 0)
    ensures t.hour == 12 ==> r / 60 == (if t.meridiem == PM then 12 else 0)
  {
    (t.hour % 12 + (if t.meridiem == PM then 12 else 0)) * 60 + t.minute
  }

  /** Different clock times are different minutes of the day. */
  lemma MinutesOfDayInjective(a: ClockTime, b: ClockTime)
    requires MinutesOfDay(a) == MinutesOfDay(b)
    ensures a == b
  {
    var ha := a.hour % 12 + (if a.meridiem == PM then 12 else 0);
    var hb := b.hour % 12 + (if b.meridiem == PM then 12 else 0);
    assert ha == hb;
  }

  /** Parses a typed time: normalisation, then the externally supplied strptime. */
  function ParseClock(raw: string, strptime: string -> Option<ClockTime>): (r: Option<ClockTime>)
    ensures r.Some? ==> NormalizeTime(raw).Some? && r == strptime(NormalizeTime(raw).value)
    ensures NormalizeTime(raw).Some? ==> r == strptime(NormalizeTime(raw).value)
  {
    match NormalizeTime(raw)
    case None => None
    case Some(n) => strptime(n)
  }

  /** A time without AM or PM is rejected whatever strptime would do. */
  lemma ParseClockNeedsMeridiem(raw: string, strptime: string -> Option<ClockTime>)
    requires !Contains(Upper(Strip(raw)), "AM") && !Contains(Upper(Strip(raw)), "PM")
    ensures ParseClock(raw, strptime).None?
  {
    NormalizeTimeFailsIff(raw);
  }

  /**
   * Shift length in minutes: end minus start, plus a day when negative.
   * The start plus the duration reaches the end, modulo a day.
   */
  function ShiftDuration(start: ClockTime, end: ClockTime): (r: nat)
    ensures r < 1440
    ensures (MinutesOfDay(start) + r) % 1440 == MinutesOfDay(end)
  {
    var d := MinutesOfDay(end) - MinutesOfDay(start);
    if d < 0 then d + 1440 else d
  }

  /** The hour after midnight lasts sixty minutes: 12 AM is the start of the day, 1 AM an hour on. */
  lemma FirstHourAfterMidnight(m: Minute)
    ensures ShiftDuration(ClockTime(12, m, AM), ClockTime(1, m, AM)) == 60
  {
  }

  /** A shift has zero length exactly when it starts and ends at the same time. */
  lemma DurationZeroIff(start: ClockTime, end: ClockTime)
    ensures ShiftDuration(start, end) == 0 <==> start == end
  {
    if ShiftDuration(start, end) == 0 {
      MinutesOfDayInjective(start, end);
    }
  }

  /** The duration is the clock difference taken modulo 24 hours. */
  lemma DurationIsModular(start: ClockTime, end: ClockTime)
    ensures ShiftDuration(start, end) == (MinutesOfDay(end) - MinutesOfDay(start)) % 1440
  {
  }

  /** 11:30 PM to 1:00 AM wraps past midnight and lasts 90 minutes. */
  lemma OvernightShift()
    ensures ShiftDuration(ClockTime(11, 30, PM), ClockTime(1, 0, AM)) == 90
  {
  }
}
