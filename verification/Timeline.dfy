/** Window queries by binary search over sorted timelines (utils/grid.py). */
module Timeline {
  import opened Seqs

  datatype Range = Range(start: int, end: int)

  /** Ranges in order, with no overlap; a range may start where the one before it ends. */
  ghost predicate InOrder(ranges: seq<Range>) {
    && (forall i :: 0 <= i < |ranges| ==> ranges[i].start <= ranges[i].end)
    && (forall i, j :: 0 <= i < j < |ranges| ==> ranges[i].end <= ranges[j].start)
  }

  predicate Holds(r: Range, key: int) {
    r.start <= key <= r.end
  }

  ghost predicate InSomeRange(ranges: seq<Range>, key: int) {
    exists i :: 0 <= i < |ranges| && Holds(ranges[i], key)
  }

  /** The range has a point in the window. */
  predicate Meets(r: Range, start: int, end: int) {
    r.start <= end && start <= r.end
  }

  /** The ranges that have a point in the window, in order. */
  ghost function MeetingOf(ranges: seq<Range>, start: int, end: int): seq<Range> {
    if ranges == [] then [] else
      var r := ranges[|ranges| - 1];
      MeetingOf(ranges[..|ranges| - 1], start, end) + if Meets(r, start, end) then [r] else []
  }

  // --------------------------------------------------------------- positions in the order

  /** How many ranges end before the key. */
  ghost function EndedBefore(ranges: seq<Range>, key: int): nat {
    if ranges == [] then 0
    else EndedBefore(ranges[..|ranges| - 1], key) + if ranges[|ranges| - 1].end < key then 1 else 0
  }

  /** How many ranges have started by the key. */
  ghost function StartedBy(ranges: seq<Range>, key: int): nat {
    if ranges == [] then 0
    else StartedBy(ranges[..|ranges| - 1], key) + if ranges[|ranges| - 1].start <= key then 1 else 0
  }

  /** In an ordered list both counts are positions: what they count comes first. */
  lemma {:induction false} CountsArePositions(ranges: seq<Range>, key: int)
    requires InOrder(ranges)
    ensures EndedBefore(ranges, key) <= StartedBy(ranges, key) <= |ranges|
    ensures forall i :: 0 <= i < |ranges| ==> (ranges[i].end < key <==> i < EndedBefore(ranges, key))
    ensures forall i :: 0 <= i < |ranges| ==> (ranges[i].start <= key <==> i < StartedBy(ranges, key))
  {
    if ranges != [] {
      var k := |ranges| - 1;
      CountsArePositions(ranges[..k], key);
      assert forall i :: 0 <= i < k ==> ranges[..k][i] == ranges[i];
      assert forall i :: 0 <= i < k ==> ranges[i].end <= ranges[k].start <= ranges[k].end;
    }
  }

  /** The ranges that hold a key are neighbours. */
  lemma HoldersAreNeighbours(ranges: seq<Range>, key: int)
    requires InOrder(ranges)
    ensures forall i :: 0 <= i < |ranges| ==>
      (Holds(ranges[i], key) <==> EndedBefore(ranges, key) <= i < StartedBy(ranges, key))
    ensures InSomeRange(ranges, key) <==> EndedBefore(ranges, key) < StartedBy(ranges, key)
  {
    CountsArePositions(ranges, key);
    if EndedBefore(ranges, key) < StartedBy(ranges, key) {
      assert Holds(ranges[EndedBefore(ranges, key)], key);
    }
  }

  /** So are the ranges that meet a window. */
  lemma WindowPositions(ranges: seq<Range>, start: int, end: int)
    requires InOrder(ranges) && start <= end
    ensures EndedBefore(ranges, start) <= StartedBy(ranges, end) <= |ranges|
    ensures forall i :: 0 <= i < |ranges| ==>
      (Meets(ranges[i], start, end) <==> EndedBefore(ranges, start) <= i < StartedBy(ranges, end))
  {
    CountsArePositions(ranges, start);
    CountsArePositions(ranges, end);
    var a := EndedBefore(ranges, start);
    if a > 0 {
      assert ranges[a - 1].start <= end;
    }
  }

  lemma LastCounts(ranges: seq<Range>, start: int, end: int)
    requires InOrder(ranges) && start <= end && ranges != []
    ensures var k, init := |ranges| - 1, ranges[..|ranges| - 1];
      var a, b := EndedBefore(ranges, start), StartedBy(ranges, end);
      if Meets(ranges[k], start, end) then b == k + 1 && EndedBefore(init, start) == a && StartedBy(init, end) == k
      else if ranges[k].start > end then EndedBefore(init, start) == a && StartedBy(init, end) == b
      else a == b == k + 1 && EndedBefore(init, start) == StartedBy(init, end) == k
  {
    CountsArePositions(ranges, start);
    CountsArePositions(ranges, end);
  }

  lemma {:induction false} MeetingIsSlice(ranges: seq<Range>, start: int, end: int)
    requires InOrder(ranges) && start <= end
    ensures EndedBefore(ranges, start) <= StartedBy(ranges, end) <= |ranges|
    ensures MeetingOf(ranges, start, end) == ranges[EndedBefore(ranges, start)..StartedBy(ranges, end)]
  {
    WindowPositions(ranges, start, end);
    if ranges != [] {
      var k := |ranges| - 1;
      var a, b := EndedBefore(ranges, start), StartedBy(ranges, end);
      MeetingIsSlice(ranges[..k], start, end);
      LastCounts(ranges, start, end);
      if Meets(ranges[k], start, end) {
        PrefixSlice(ranges, k, a, k);
        SliceOneMore(ranges, a, k);
      } else if ranges[k].start > end {
        PrefixSlice(ranges, k, a, b);
      }
    }
  }

  // -------------------------------------------------------------------------- the search

  /** The first midpoint that falls into a..b when l..u is halved again and again. */
  function FirstProbe(l: int, u: int, a: int, b: int): (i: int)
    requires l <= a < b <= u + 1
    ensures a <= i < b
    decreases u - l
  {
    var i := (l + u) / 2;
    if i < a then FirstProbe(i + 1, u, a, b) else if b <= i then FirstProbe(l, i - 1, a, b) else i
  }

  /** Where halving first meets the ranges that hold the key. */
  ghost function Hit(ranges: seq<Range>, key: int): (i: int)
    requires InOrder(ranges) && InSomeRange(ranges, key)
    ensures 0 <= EndedBefore(ranges, key) <= i < StartedBy(ranges, key) <= |ranges|
  {
    HoldersAreNeighbours(ranges, key);
    CountsArePositions(ranges, key);
    FirstProbe(0, |ranges| - 1, EndedBefore(ranges, key), StartedBy(ranges, key))
  }

  /** Lines 105-122. */
  method SearchRanges(ranges: seq<Range>, key: int) returns (r: int)
    requires InOrder(ranges)
    ensures r == -1 <==> !InSomeRange(ranges, key)
    ensures r != -1 ==> 0 <= r < |ranges| && Holds(ranges[r], key) && r == Hit(ranges, key)
  {
    ghost var a, b := EndedBefore(ranges, key), StartedBy(ranges, key);
    HoldersAreNeighbours(ranges, key);
    CountsArePositions(ranges, key);
    var l, u := 0, |ranges| - 1;
    while l <= u
      invariant 0 <= l <= u + 1 <= |ranges|
      invariant a < b ==> l <= a && b <= u + 1 && FirstProbe(l, u, a, b) == Hit(ranges, key)
    {
      var i := (l + u) / 2;
      if key >= ranges[i].start && key <= ranges[i].end {
        return i;
      } else if key < ranges[i].start {
        u := i - 1;
      } else {
        l := i + 1;
      }
    }
    return -1;
  }

  // ------------------------------------------------------------------------------ queries

  /** The search for the key finds the first range that holds it, if any does. */
  ghost predicate HitsFirst(ranges: seq<Range>, key: int)
    requires InOrder(ranges)
  {
    InSomeRange(ranges, key) ==> Hit(ranges, key) == EndedBefore(ranges, key)
  }

  /** The search for the key finds the last range that holds it, if any does. */
  ghost predicate HitsLast(ranges: seq<Range>, key: int)
    requires InOrder(ranges)
  {
    InSomeRange(ranges, key) ==> Hit(ranges, key) == StartedBy(ranges, key) - 1
  }

  /** Where no two ranges touch at the key, the search has no choice. */
  lemma OneHolderIsHit(ranges: seq<Range>, key: int)
    requires InOrder(ranges)
    requires forall i, j :: 0 <= i < j < |ranges| ==> !(Holds(ranges[i], key) && Holds(ranges[j], key))
    ensures HitsFirst(ranges, key) && HitsLast(ranges, key)
  {
    HoldersAreNeighbours(ranges, key);
    CountsArePositions(ranges, key);
    var a, b := EndedBefore(ranges, key), StartedBy(ranges, key);
    assert a + 1 < |ranges| ==> !(Holds(ranges[a], key) && Holds(ranges[a + 1], key));
  }

  /**
    When a query sees every range that meets its window: an end of the window lies in a range, and
    where ranges touch at an end, the search hits the outer one. With both ends outside all ranges
    the query gives up, so then no range may meet the window.
  */
  ghost predicate SeesWindow(ranges: seq<Range>, start: int, end: int)
    requires InOrder(ranges)
  {
    if InSomeRange(ranges, start) || InSomeRange(ranges, end)
    then HitsFirst(ranges, start) && HitsLast(ranges, end)
    else forall i :: 0 <= i < |ranges| ==> !Meets(ranges[i], start, end)
  }

  /** From the hit of the start, or the first range, to the hit of the end, or the last range. */
  ghost predicate BoundsOf(ranges: seq<Range>, start: int, end: int, lo: int, hi: int)
    requires InOrder(ranges)
  {
    if InSomeRange(ranges, start) || InSomeRange(ranges, end) then
      && lo == (if InSomeRange(ranges, start) then Hit(ranges, start) else 0)
      && hi == if InSomeRange(ranges, end) then Hit(ranges, end) + 1 else |ranges|
    else lo == hi == 0
  }

  lemma BoundsInOrder(ranges: seq<Range>, start: int, end: int, lo: int, hi: int)
    requires InOrder(ranges) && start <= end && BoundsOf(ranges, start, end, lo, hi)
    ensures 0 <= lo <= hi <= |ranges|
  {
    HoldersAreNeighbours(ranges, start);
    HoldersAreNeighbours(ranges, end);
    if InSomeRange(ranges, start) && InSomeRange(ranges, end) {
      assert Holds(ranges[lo], start) && Holds(ranges[hi - 1], end);
    }
  }

  /** The bounds take in every range that meets the window exactly when the query sees its window. */
  lemma SeenIffWithinBounds(ranges: seq<Range>, start: int, end: int, lo: int, hi: int)
    requires InOrder(ranges) && start <= end && BoundsOf(ranges, start, end, lo, hi)
    ensures SeesWindow(ranges, start, end) <==>
      forall i :: 0 <= i < |ranges| && Meets(ranges[i], start, end) ==> lo <= i < hi
  {
    var a, b := EndedBefore(ranges, start), StartedBy(ranges, end);
    WindowPositions(ranges, start, end);
    HoldersAreNeighbours(ranges, start);
    HoldersAreNeighbours(ranges, end);
    if InSomeRange(ranges, start) {
      assert Holds(ranges[a], start) && Meets(ranges[a], start, end);
    }
    if InSomeRange(ranges, end) {
      assert Holds(ranges[b - 1], end) && Meets(ranges[b - 1], start, end);
    }
  }

  /** Lines 153-169; the empty bounds (0, 0) stand for no ranges. */
  method GetRangesBounds(ranges: seq<Range>, start: int, end: int) returns (lo: int, hi: int)
    requires InOrder(ranges)
    ensures BoundsOf(ranges, start, end, lo, hi) && 0 <= lo && 0 <= hi <= |ranges|
    ensures start <= end ==> (SeesWindow(ranges, start, end) <==>
      forall i :: 0 <= i < |ranges| && Meets(ranges[i], start, end) ==> lo <= i < hi)
    ensures start <= end && InSomeRange(ranges, start) && InSomeRange(ranges, end) ==>
      forall i :: 0 <= i < |ranges| && lo <= i < hi ==> Meets(ranges[i], start, end)
  {
    var s := SearchRanges(ranges, start);
    var e := SearchRanges(ranges, end);
    if s == -1 && e == -1 {
      lo, hi := 0, 0;
    } else if s == -1 {
      lo, hi := 0, e + 1;
    } else if e == -1 {
      lo, hi := s, |ranges|;
    } else {
      lo, hi := s, e + 1;
    }
    if start <= end {
      SeenIffWithinBounds(ranges, start, end, lo, hi);
      WindowPositions(ranges, start, end);
    }
  }

  /** A slice has all ranges that meet the window exactly when its bounds take them in. */
  lemma SliceMeeting(ranges: seq<Range>, start: int, end: int, lo: nat, hi: nat)
    requires InOrder(ranges) && start <= end && lo <= hi <= |ranges|
    ensures MeetingOf(ranges[lo..hi], start, end) == MeetingOf(ranges, start, end) <==>
      forall i :: 0 <= i < |ranges| && Meets(ranges[i], start, end) ==> lo <= i < hi
  {
    var a, b := EndedBefore(ranges, start), StartedBy(ranges, end);
    MeetingInSlice(ranges, start, end, lo, hi);
    MeetingIsSlice(ranges, start, end);
    WindowPositions(ranges, start, end);
    if a < b {
      assert Meets(ranges[a], start, end) && Meets(ranges[b - 1], start, end);
    }
  }

  lemma MeetingInSlice(ranges: seq<Range>, start: int, end: int, lo: nat, hi: nat)
    requires InOrder(ranges) && start <= end && lo <= hi <= |ranges|
    ensures lo <= Clamp(EndedBefore(ranges, start), lo, hi) <= Clamp(StartedBy(ranges, end), lo, hi) <= hi
    ensures MeetingOf(ranges[lo..hi], start, end) ==
      ranges[Clamp(EndedBefore(ranges, start), lo, hi)..Clamp(StartedBy(ranges, end), lo, hi)]
  {
    var found := ranges[lo..hi];
    MeetingIsSlice(found, start, end);
    PositionInSlice(ranges, start, lo, hi);
    PositionInSlice(ranges, end, lo, hi);
    var c, d := EndedBefore(found, start), StartedBy(found, end);
    assert lo + c == Clamp(EndedBefore(ranges, start), lo, hi) && lo + d == Clamp(StartedBy(ranges, end), lo, hi);
    SliceOfSlice(ranges, lo, hi, c, d);
  }

  lemma {:induction false} AllMeeting(ranges: seq<Range>, start: int, end: int)
    requires forall i :: 0 <= i < |ranges| ==> Meets(ranges[i], start, end)
    ensures MeetingOf(ranges, start, end) == ranges
  {
    if ranges != [] {
      AllMeeting(ranges[..|ranges| - 1], start, end);
    }
  }

  lemma SliceAllMeeting(ranges: seq<Range>, start: int, end: int, lo: nat, hi: nat)
    requires lo <= hi <= |ranges| && forall i :: 0 <= i < |ranges| && lo <= i < hi ==> Meets(ranges[i], start, end)
    ensures MeetingOf(ranges[lo..hi], start, end) == ranges[lo..hi]
  {
    AllMeeting(ranges[lo..hi], start, end);
  }

  function Clamp(x: int, lo: int, hi: int): int {
    if x < lo then lo else if x > hi then hi else x
  }

  lemma PositionInSlice(ranges: seq<Range>, key: int, lo: nat, hi: nat)
    requires InOrder(ranges) && lo <= hi <= |ranges|
    ensures lo + EndedBefore(ranges[lo..hi], key) == Clamp(EndedBefore(ranges, key), lo, hi)
    ensures lo + StartedBy(ranges[lo..hi], key) == Clamp(StartedBy(ranges, key), lo, hi)
  {
    var found := ranges[lo..hi];
    CountsArePositions(ranges, key);
    CountsArePositions(found, key);
    assert forall i :: 0 <= i < |found| ==> found[i] == ranges[lo + i];
    var c, d := EndedBefore(found, key), StartedBy(found, key);
    assert c > 0 ==> found[c - 1].end < key;
    assert c < |found| ==> found[c].end >= key;
    assert d > 0 ==> found[d - 1].start <= key;
    assert d < |found| ==> found[d].start > key;
  }

  /**
    Lines 136-152. The query finds every range that meets the window exactly when it sees its window.
    What else it finds: nothing if both ends of the window lie in ranges; everything after the hit of
    the start, or before the hit of the end, if only that end does.
  */
  method GetRanges(ranges: seq<Range>, start: int, end: int) returns (found: seq<Range>)
    requires InOrder(ranges)
    ensures start <= end ==>
      (MeetingOf(found, start, end) == MeetingOf(ranges, start, end) <==> SeesWindow(ranges, start, end))
    ensures start <= end && InSomeRange(ranges, start) && InSomeRange(ranges, end) ==>
      Hit(ranges, start) <= Hit(ranges, end) + 1 &&
      MeetingOf(found, start, end) == found == ranges[Hit(ranges, start)..Hit(ranges, end) + 1]
    ensures InSomeRange(ranges, start) && !InSomeRange(ranges, end) ==> found == ranges[Hit(ranges, start)..]
    ensures !InSomeRange(ranges, start) && InSomeRange(ranges, end) ==> found == ranges[..Hit(ranges, end) + 1]
    ensures !InSomeRange(ranges, start) && !InSomeRange(ranges, end) ==> found == []
  {
    var lo, hi := GetRangesBounds(ranges, start, end);
    found := if lo <= hi then ranges[lo..hi] else [];
    if start <= end {
      BoundsInOrder(ranges, start, end, lo, hi);
      SliceMeeting(ranges, start, end, lo, hi);
      if InSomeRange(ranges, start) && InSomeRange(ranges, end) {
        SliceAllMeeting(ranges, start, end, lo, hi);
      }
    }
  }

  /** One range, and a window that starts before it and ends after it: the query finds nothing. */
  method WindowAroundRangeFindsNothing() returns (ranges: seq<Range>, found: seq<Range>)
    ensures InOrder(ranges) && MeetingOf(ranges, 1, 4) == ranges != [] && found == []
  {
    ranges := [Range(2, 3)];
    AroundRange(ranges);
    found := GetRanges(ranges, 1, 4);
  }

  lemma AroundRange(ranges: seq<Range>)
    requires ranges == [Range(2, 3)]
    ensures InOrder(ranges) && MeetingOf(ranges, 1, 4) == ranges
    ensures !InSomeRange(ranges, 1) && !InSomeRange(ranges, 4)
  {
    AllMeeting(ranges, 1, 4);
  }

  /** Three ranges that touch, and a window that starts where two of them do: the first is not found. */
  method TouchingRangeIsLost() returns (ranges: seq<Range>, found: seq<Range>)
    ensures ranges == [Range(0, 5), Range(5, 9), Range(9, 12)] && InOrder(ranges) && Meets(ranges[0], 5, 7)
    ensures found == [Range(5, 9)]
  {
    ranges := [Range(0, 5), Range(5, 9), Range(9, 12)];
    HoldersAreNeighbours(ranges, 5);
    HoldersAreNeighbours(ranges, 7);
    assert Holds(ranges[0], 5) && Holds(ranges[1], 5) && !Holds(ranges[2], 5);
    assert !Holds(ranges[0], 7) && Holds(ranges[1], 7) && !Holds(ranges[2], 7);
    assert Hit(ranges, 5) == 1 && Hit(ranges, 7) == 1;
    found := GetRanges(ranges, 5, 7);
  }

  /** Two ranges that touch, and a window that starts there: the lower midpoint is the first, and both are found. */
  method TouchingPairIsFound() returns (ranges: seq<Range>, found: seq<Range>)
    ensures ranges == [Range(0, 5), Range(5, 9)] && InOrder(ranges) && found == ranges
  {
    ranges := [Range(0, 5), Range(5, 9)];
    HoldersAreNeighbours(ranges, 5);
    HoldersAreNeighbours(ranges, 7);
    assert Holds(ranges[0], 5) && Holds(ranges[1], 5) && !Holds(ranges[0], 7) && Holds(ranges[1], 7);
    assert Hit(ranges, 5) == 0 && Hit(ranges, 7) == 1;
    found := GetRanges(ranges, 5, 7);
  }

  // ------------------------------------------------------------------------------ events

  datatype Event = Event(at: int, value: string)

  ghost predicate Increasing(events: seq<Event>) {
    forall i, j :: 0 <= i < j < |events| ==> events[i].at < events[j].at
  }

  /** Lines 201-218: the first position whose time is not before the key. */
  method SearchEvents(events: seq<Event>, key: int) returns (r: int)
    requires Increasing(events)
    ensures 0 <= r <= |events|
    ensures forall i :: 0 <= i < r ==> events[i].at < key
    ensures forall i :: r <= i < |events| ==> key <= events[i].at
    ensures forall i :: r < i < |events| ==> key < events[i].at
  {
    var l, u := 0, |events| - 1;
    while l <= u
      invariant 0 <= l <= u + 1 <= |events|
      invariant forall i :: 0 <= i < l ==> events[i].at < key
      invariant forall i :: u < i < |events| ==> key < events[i].at
    {
      var i := (l + u) / 2;
      if key == events[i].at {
        return i;
      } else if key < events[i].at {
        u := i - 1;
      } else {
        l := i + 1;
      }
    }
    return l;
  }

  /** All events of the window, in order, and after them at most one event, the first one past the window. */
  method GetEvents(events: seq<Event>, start: int, end: int) returns (found: seq<Event>)
    requires Increasing(events)
    ensures forall x :: x in events && start <= x.at <= end ==> x in found
    ensures forall k :: 0 <= k < |found| ==> found[k] in events && start <= found[k].at
    ensures forall k :: 0 <= k < |found| - 1 ==> found[k].at < end
    ensures forall i :: 0 <= i < |events| ==>
      (events[i] in found <==> start <= events[i].at && (i == 0 || events[i - 1].at < end))
    ensures Increasing(found)
  {
    var s := SearchEvents(events, start);
    var e := SearchEvents(events, end);
    var hi := if e + 1 <= |events| then e + 1 else |events|;
    found := if s <= hi then events[s..hi] else [];
    if s <= hi {
      SliceHolds(events, s, hi);
    }
    forall i | 0 <= i < |events|
      ensures events[i] in found <==> start <= events[i].at && (i == 0 || events[i - 1].at < end)
    {
      assert s <= i <==> start <= events[i].at;
      assert i < hi <==> i == 0 || events[i - 1].at < end;
    }
  }

  lemma SliceHolds(events: seq<Event>, lo: nat, hi: nat)
    requires Increasing(events) && lo <= hi <= |events|
    ensures forall i :: 0 <= i < |events| ==> (events[i] in events[lo..hi] <==> lo <= i < hi)
  {
    forall i | 0 <= i < |events| ensures events[i] in events[lo..hi] <==> lo <= i < hi {
      if lo <= i < hi {
        assert events[lo..hi][i - lo] == events[i];
      }
    }
  }
}
