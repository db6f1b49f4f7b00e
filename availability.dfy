/** The per-resource day scan of `Scraper.find_availability`: given the daily
    availability codes of one resource, report the first maximal run of free
    days whose end and start differ by more than five (at least seven days). */
module Availability {
  import opened Common

  /** One day of the daily-availability response: the `availability` code,
      or None when the day object has no such field. */
  type DayCode = Option<int>

  /** The start value the scan resets to when a run breaks. */
  const MaxRange: int := 123456

  /** A run qualifies when `end - start` exceeds this (seven days or more). */
  const SpanThreshold: int := 5

  /** The inclusive (start, end) pair the scan returns. */
  datatype Window = Window(start: int, end: int)

  /** Only the code 0 marks a free day; a missing field or any other code
      breaks a run. */
  predicate Free(d: DayCode) { d == Some(0) }

  predicate AllFree(days: seq<DayCode>, s: int, e: int)
    requires 0 <= s && e < |days|
  {
    forall k :: s <= k <= e ==> Free(days[k])
  }

  /** The shortest qualifying span of free days, starting at day `a`. */
  predicate BlockAt(days: seq<DayCode>, a: int)
    requires 0 <= a && a + SpanThreshold + 1 < |days|
  {
    AllFree(days, a, a + SpanThreshold + 1)
  }

  /** No qualifying span lies wholly before day `n`. */
  predicate NoBlockBefore(days: seq<DayCode>, n: int)
    requires n <= |days|
  {
    forall a :: 0 <= a && a + SpanThreshold + 1 < n ==> !BlockAt(days, a)
  }

  /** No qualifying span anywhere. */
  predicate NoBlock(days: seq<DayCode>)
  {
    NoBlockBefore(days, |days|)
  }

  /** The window the scan is meant to report: a maximal run of free days of
      qualifying length, such that no qualifying span starts before it. */
  predicate IsFirstWindow(days: seq<DayCode>, s: int, e: int)
  {
    && 0 <= s <= e < |days|
    && e - s > SpanThreshold
    && AllFree(days, s, e)
    && (s == 0 || !Free(days[s - 1]))
    && (e == |days| - 1 || !Free(days[e + 1]))
    && forall a :: 0 <= a < s && a + SpanThreshold + 1 < |days| ==> !BlockAt(days, a)
  }

  function Min(a: int, b: int): int { if a <= b then a else b }

  /** The loop of `find_availability` from day `i` on, with the current
      `found_start` and `found_end`, sentinel included. */
  function Scan(days: seq<DayCode>, i: nat, foundStart: int, foundEnd: int): Option<Window>
    requires i <= |days|
    decreases |days| - i
  {
    if i == |days| then
      if foundEnd - foundStart > SpanThreshold then Some(Window(foundStart, foundEnd)) else None
    else if Free(days[i]) then
      Scan(days, i + 1, Min(foundStart, i), i)
    else if foundEnd - foundStart > SpanThreshold then
      Some(Window(foundStart, foundEnd))
    else
      Scan(days, i + 1, MaxRange, foundEnd)
  }

  /** What `find_availability` returns for a response; None stands for a
      failed request. */
  function FindAvailabilityModel(response: Option<seq<DayCode>>): Option<Window>
  {
    match response
    case None => None
    case Some(days) => Scan(days, 0, MaxRange, -1)
  }

  /** The scan loop. `response` is what the daily-availability request
      returned (None when it failed or raised). */
  method FindAvailability(response: Option<seq<DayCode>>) returns (r: Option<Window>)
    ensures r == FindAvailabilityModel(response)
    ensures response.None? ==> r.None?
    ensures response.Some? && |response.value| <= MaxRange ==>
              (r.Some? ==> IsFirstWindow(response.value, r.value.start, r.value.end))
              && (r.None? <==> NoBlock(response.value))
  {
    if response.None? {
      return None;
    }
    var days := response.value;
    if |days| <= MaxRange {
      FirstWindowFound(days);
    }
    var n := |days|;
    var foundStart, foundEnd := MaxRange, -1;
    var i := 0;
    while i < n
      invariant 0 <= i <= n
      invariant Scan(days, i, foundStart, foundEnd) == Scan(days, 0, MaxRange, -1)
    {
      var available := days[i];
      if available == Some(0) {
        foundStart := Min(foundStart, i);
        foundEnd := i;
      } else {
        if foundEnd - foundStart > SpanThreshold {
          return Some(Window(foundStart, foundEnd));
        }
        foundStart := MaxRange;
      }
      i := i + 1;
    }
    if foundEnd - foundStart > SpanThreshold {
      r := Some(Window(foundStart, foundEnd));
    } else {
      r := None;
    }
  }

  /** What holds of the scan state before day `i`: either a run of free days
      is open (it started at `foundStart` and ends at day i-1), or it is
      closed and `foundStart` holds the sentinel. Either way no qualifying
      span lies wholly before the open run, or before day `i`. */
  ghost predicate ScanState(days: seq<DayCode>, i: nat, foundStart: int, foundEnd: int)
  {
    && i <= |days| <= MaxRange
    && if i > 0 && Free(days[i - 1]) then
         && 0 <= foundStart <= i - 1 && foundEnd == i - 1
         && AllFree(days, foundStart, i - 1)
         && (foundStart == 0 || !Free(days[foundStart - 1]))
         && NoBlockBefore(days, foundStart)
       else
         foundStart == MaxRange && foundEnd < i && NoBlockBefore(days, i)
  }

  /** A span that starts before a non-free day `s - 1` and reaches it is not
      free, so no span wholly before `s` means none starting before `s`. */
  lemma NoBlockStartingBefore(days: seq<DayCode>, s: int)
    requires 0 <= s <= |days|
    requires s == 0 || !Free(days[s - 1])
    requires NoBlockBefore(days, s)
    ensures forall a :: 0 <= a < s && a + SpanThreshold + 1 < |days| ==> !BlockAt(days, a)
  {
    forall a | 0 <= a < s && a + SpanThreshold + 1 < |days|
      ensures !BlockAt(days, a)
    {
      if a + SpanThreshold + 1 >= s {
        assert !Free(days[s - 1]);
      }
    }
  }

  /** When the open run [s, e] is too short, no span overlapping it, nor any
      before it, qualifies: nothing qualifies before day e + 2. */
  lemma ShortRunClosed(days: seq<DayCode>, s: int, e: int)
    requires 0 <= s <= e + 1 && e + 1 < |days|
    requires e - s <= SpanThreshold
    requires s == 0 || !Free(days[s - 1])
    requires !Free(days[e + 1])
    requires NoBlockBefore(days, s)
    ensures NoBlockBefore(days, e + 2)
  {
    forall a | 0 <= a && a + SpanThreshold + 1 < e + 2
      ensures !BlockAt(days, a)
    {
      if a + SpanThreshold + 1 == e + 1 {
        assert !Free(days[e + 1]);
      } else if a < s && a + SpanThreshold + 1 >= s {
        assert !Free(days[s - 1]);
      } else if a >= s {
        assert false;
      }
    }
  }

  /** A too-short run that reaches the last day leaves nothing qualifying. */
  lemma ShortRunAtEnd(days: seq<DayCode>, s: int)
    requires 0 <= s < |days|
    requires |days| - 1 - s <= SpanThreshold
    requires s == 0 || !Free(days[s - 1])
    requires NoBlockBefore(days, s)
    ensures NoBlock(days)
  {
    forall a | 0 <= a && a + SpanThreshold + 1 < |days|
      ensures !BlockAt(days, a)
    {
      if a < s && a + SpanThreshold + 1 >= s {
        assert !Free(days[s - 1]);
      }
    }
  }

  /** The scan, run from any state described by ScanState, returns the first
      window, or None exactly when nothing qualifies. */
  lemma {:induction false} ScanFindsFirstWindow(days: seq<DayCode>, i: nat, foundStart: int, foundEnd: int)
    requires ScanState(days, i, foundStart, foundEnd)
    ensures match Scan(days, i, foundStart, foundEnd)
      case Some(w) => IsFirstWindow(days, w.start, w.end)
      case None => NoBlock(days)
    decreases |days| - i
  {
    var open := i > 0 && Free(days[i - 1]);
    if i == |days| {
      if open {
        if foundEnd - foundStart > SpanThreshold {
          NoBlockStartingBefore(days, foundStart);
        } else {
          ShortRunAtEnd(days, foundStart);
        }
      }
    } else if Free(days[i]) {
      var s := Min(foundStart, i);
      if !open {
        assert s == i;
      }
      assert AllFree(days, s, i);
      ScanFindsFirstWindow(days, i + 1, s, i);
    } else if foundEnd - foundStart > SpanThreshold {
      assert open;
      NoBlockStartingBefore(days, foundStart);
    } else {
      if open {
        ShortRunClosed(days, foundStart, i - 1);
      } else {
        forall a | 0 <= a && a + SpanThreshold + 1 < i + 1
          ensures !BlockAt(days, a)
        {
          if a + SpanThreshold + 1 == i {
            assert !Free(days[i]);
          }
        }
      }
      ScanFindsFirstWindow(days, i + 1, MaxRange, foundEnd);
    }
  }

  /** For a response no longer than the sentinel, `find_availability` returns
      the first qualifying window, and None exactly when none exists. */
  lemma FirstWindowFound(days: seq<DayCode>)
    requires |days| <= MaxRange
    ensures var r := Scan(days, 0, MaxRange, -1);
              (r.Some? ==> IsFirstWindow(days, r.value.start, r.value.end))
              && (r.None? <==> NoBlock(days))
  {
    ScanFindsFirstWindow(days, 0, MaxRange, -1);
    var r := Scan(days, 0, MaxRange, -1);
    if r.Some? {
      var s := r.value.start;
      assert BlockAt(days, s);
    }
  }

  /** The first window is unique: it is determined by the day codes. */
  lemma FirstWindowUnique(days: seq<DayCode>, s1: int, e1: int, s2: int, e2: int)
    requires IsFirstWindow(days, s1, e1) && IsFirstWindow(days, s2, e2)
    ensures s1 == s2 && e1 == e2
  {
    if s1 < s2 {
      assert BlockAt(days, s1);
    } else if s2 < s1 {
      assert BlockAt(days, s2);
    }
  }
}
