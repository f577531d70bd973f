/**
  The arena that places buffers with usage intervals in one block of memory
  (SimpleMemoryArena). Offsets are chosen best-fit among the gaps left by the
  allocations whose usage intervals meet the new one.
 */
module SimpleMemoryArena {
  // size_t is 64 bits wide.
  const SIZE_MAX: nat := 0xFFFF_FFFF_FFFF_FFFF

  datatype Status = Ok | Error

  datatype Alloc = Alloc(offset: nat, size: nat, tensor: int, firstNode: int, lastNode: int) {
    // Some node uses both buffers.
    predicate Meets(first: int, last: int) { first <= lastNode && firstNode <= last }

    predicate DisjointFrom(off: nat, len: nat) {
      offset + size <= off || off + len <= offset
    }

    predicate InBounds() { offset < SIZE_MAX && offset + size <= SIZE_MAX }
  }

  const NO_ALLOC := Alloc(0, 0, -1, -1, -1)

  predicate SortedByOffset(s: seq<Alloc>) {
    forall j, k | 0 <= j < k < |s| :: s[j].offset <= s[k].offset
  }

  // The least multiple of the alignment that is not below the offset.
  function AlignTo(alignment: nat, offset: nat): (r: nat)
    requires alignment > 0
    ensures offset <= r < offset + alignment && r % alignment == 0
  {
    var remainder := offset % alignment;
    if remainder == 0 then offset else
    assert (offset + alignment - remainder) % alignment == 0 by { AddMultiple(offset, alignment); }
    offset + (alignment - remainder)
  }

  lemma AddMultiple(offset: nat, alignment: nat)
    requires alignment > 0
    ensures (offset + alignment - offset % alignment) % alignment == 0
  {
    var q := offset / alignment;
    assert offset == q * alignment + offset % alignment;
    assert offset + alignment - offset % alignment == (q + 1) * alignment;
    MultipleHasNoRemainder(q + 1, alignment);
  }

  lemma MultipleHasNoRemainder(q: nat, alignment: nat)
    requires alignment > 0
    ensures (q * alignment) % alignment == 0
  {
    var r := (q * alignment) % alignment;
    var d := (q * alignment) / alignment;
    assert q * alignment == d * alignment + r;
    assert (q - d) * alignment == r;
    assert q - d >= 1 ==> (q - d) * alignment >= alignment;
    assert q - d <= -1 ==> (d - q) * alignment >= alignment;
  }

  // End of the highest of the first n allocations that meet the interval.
  function EndOfMeeting(s: seq<Alloc>, n: nat, first: int, last: int): nat
    requires n <= |s|
  {
    if n == 0 then 0 else
    var below := EndOfMeeting(s, n - 1, first, last);
    var a := s[n - 1];
    if a.Meets(first, last) && a.offset + a.size > below then a.offset + a.size else below
  }

  // The new buffer fits below allocation k, above all the earlier ones.
  predicate FitsBelow(s: seq<Alloc>, k: nat, alignment: nat, size: nat, first: int, last: int)
    requires k < |s| && alignment > 0
  {
    s[k].Meets(first, last)
    && AlignTo(alignment, EndOfMeeting(s, k, first, last)) + size <= s[k].offset
  }

  lemma {:induction false} EndOfMeetingIsAbove(s: seq<Alloc>, n: nat, first: int, last: int)
    requires n <= |s|
    ensures forall j | 0 <= j < n && s[j].Meets(first, last) ::
              s[j].offset + s[j].size <= EndOfMeeting(s, n, first, last)
  {
    if n > 0 {
      EndOfMeetingIsAbove(s, n - 1, first, last);
    }
  }

  function UpperBound(s: seq<Alloc>, offset: nat): (k: nat)
    ensures k <= |s|
    ensures forall j | 0 <= j < k :: s[j].offset <= offset
    ensures k < |s| ==> s[k].offset > offset
  {
    if s == [] || s[0].offset > offset then 0
    else
      var k := UpperBound(s[1..], offset);
      assert forall j | 1 <= j < k + 1 :: s[j] == s[1..][j - 1];
      1 + k
  }

  function InsertByOffset(s: seq<Alloc>, a: Alloc): seq<Alloc> {
    var k := UpperBound(s, a.offset);
    s[..k] + [a] + s[k..]
  }

  lemma InsertKeepsOrder(s: seq<Alloc>, a: Alloc)
    requires SortedByOffset(s)
    ensures SortedByOffset(InsertByOffset(s, a))
    ensures multiset(InsertByOffset(s, a)) == multiset(s) + multiset{a}
  {
    var k := UpperBound(s, a.offset);
    hide UpperBound;
    forall j | k <= j < |s|
      ensures a.offset <= s[j].offset
    {
      assert s[k].offset <= s[j].offset;
    }
    InsertAtKeepsOrder(s, a, k);
    InsertAtAdds(s, a, k);
  }

  lemma InsertedMembers(s: seq<Alloc>, a: Alloc)
    ensures forall b :: b in InsertByOffset(s, a) <==> b in s || b == a
  {
    var k := UpperBound(s, a.offset);
    hide UpperBound;
    assert s == s[..k] + s[k..];
  }

  lemma InsertAtAdds(s: seq<Alloc>, a: Alloc, k: nat)
    requires k <= |s|
    ensures multiset(s[..k] + [a] + s[k..]) == multiset(s) + multiset{a}
  {
    assert s == s[..k] + s[k..];
  }

  lemma InsertAtKeepsOrder(s: seq<Alloc>, a: Alloc, k: nat)
    requires SortedByOffset(s) && k <= |s|
    requires forall j | 0 <= j < k :: s[j].offset <= a.offset
    requires forall j | k <= j < |s| :: a.offset <= s[j].offset
    ensures SortedByOffset(s[..k] + [a] + s[k..])
  {
    var t := s[..k] + [a] + s[k..];
    assert forall j | 0 <= j < |t| ::
        t[j] == if j < k then s[j] else if j == k then a else s[j - 1];
  }

  // Two buffers that are in use at the same time share no byte.
  ghost predicate DisjointFromMeeting(s: seq<Alloc>, offset: nat, size: nat, first: int, last: int) {
    forall a | a in s && a.Meets(first, last) :: a.DisjointFrom(offset, size)
  }

  // A gap is used whenever there is one; otherwise the buffer goes right after the others.
  ghost predicate BestOffset(s: seq<Alloc>, offset: nat, alignment: nat, size: nat, first: int, last: int)
    requires alignment > 0
  {
    if exists k: nat | k < |s| :: FitsBelow(s, k, alignment, size, first, last)
    then exists k: nat | k < |s| ::
        FitsBelow(s, k, alignment, size, first, last)
        && offset == AlignTo(alignment, EndOfMeeting(s, k, first, last))
    else offset == AlignTo(alignment, EndOfMeeting(s, |s|, first, last))
  }

  // ---- Which gap is taken

  predicate AllAligned(s: seq<Alloc>, alignment: nat)
    requires alignment > 0
  {
    forall a | a in s :: a.offset % alignment == 0
  }

  // What is left of the gap below allocation k once the new buffer is aligned in it.
  function Slack(s: seq<Alloc>, k: nat, alignment: nat, first: int, last: int): int
    requires k < |s| && alignment > 0
  {
    s[k].offset - AlignTo(alignment, EndOfMeeting(s, k, first, last))
  }

  // No gap that is large enough is tighter than the one that is taken.
  ghost predicate TightestOffset(s: seq<Alloc>, offset: nat, alignment: nat, size: nat, first: int, last: int)
    requires alignment > 0
  {
    (exists k: nat | k < |s| :: FitsBelow(s, k, alignment, size, first, last)) ==>
      exists k: nat | k < |s| :: IsTightest(s, k, alignment, size, first, last)
                                 && offset == AlignTo(alignment, EndOfMeeting(s, k, first, last))
  }

  ghost predicate IsTightest(s: seq<Alloc>, k: nat, alignment: nat, size: nat, first: int, last: int)
    requires k < |s| && alignment > 0
  {
    && FitsBelow(s, k, alignment, size, first, last)
    && forall j: nat | j < |s| && FitsBelow(s, j, alignment, size, first, last) ::
        Slack(s, k, alignment, first, last) <= Slack(s, j, alignment, first, last)
  }

  // The allocation above the gap found so far, |s| if there is none, and how good it is: gaps are
  // compared with their aligned size and remembered with their full size.
  datatype Search = Search(gap: nat, fit: nat)

  function SearchUpTo(s: seq<Alloc>, n: nat, alignment: nat, size: nat, first: int, last: int): (r: Search)
    requires n <= |s| && alignment > 0
    ensures r.gap < n || r.gap == |s|
  {
    if n == 0 then Search(|s|, SIZE_MAX) else
    var r := SearchUpTo(s, n - 1, alignment, size, first, last);
    if FitsBelow(s, n - 1, alignment, size, first, last) && Slack(s, n - 1, alignment, first, last) < r.fit
    then Search(n - 1, s[n - 1].offset - EndOfMeeting(s, n - 1, first, last))
    else r
  }

  function ChosenOffset(s: seq<Alloc>, alignment: nat, size: nat, first: int, last: int): nat
    requires alignment > 0
  {
    AlignTo(alignment, EndOfMeeting(s, SearchUpTo(s, |s|, alignment, size, first, last).gap, first, last))
  }

  lemma {:induction false} SearchFinds(s: seq<Alloc>, n: nat, alignment: nat, size: nat, first: int, last: int)
    requires n <= |s| && alignment > 0 && forall a | a in s :: a.InBounds()
    ensures var r := SearchUpTo(s, n, alignment, size, first, last);
            if r.gap < |s| then
              r.gap < n && FitsBelow(s, r.gap, alignment, size, first, last)
              && r.fit == s[r.gap].offset - EndOfMeeting(s, r.gap, first, last)
            else
              r.fit == SIZE_MAX && forall k: nat | k < n :: !FitsBelow(s, k, alignment, size, first, last)
  {
    if n > 0 {
      SearchFinds(s, n - 1, alignment, size, first, last);
      hide AlignTo, EndOfMeeting;
      assert s[n - 1] in s;
    }
  }

  // A gap that is filled completely is never given up.
  lemma {:induction false} PerfectFitStays(s: seq<Alloc>, n: nat, n': nat, alignment: nat, size: nat, first: int, last: int)
    requires n <= n' <= |s| && alignment > 0 && SearchUpTo(s, n, alignment, size, first, last).fit == 0
    ensures SearchUpTo(s, n', alignment, size, first, last) == SearchUpTo(s, n, alignment, size, first, last)
    decreases n'
  {
    if n < n' {
      PerfectFitStays(s, n, n' - 1, alignment, size, first, last);
      hide AlignTo, EndOfMeeting;
    }
  }

  lemma NextMultiple(a: int, b: int, alignment: nat)
    requires alignment > 0 && a % alignment == 0 && b % alignment == 0 && a < b + alignment
    ensures a <= b
  {
    var p, q := a / alignment, b / alignment;
    assert a == p * alignment && b == q * alignment;
    assert p > q ==> p * alignment >= (q + 1) * alignment;
  }

  // As long as all offsets are multiples of the alignment, the mixed comparison makes no difference:
  // the search ends in a gap that is no less tight than any gap k.
  lemma {:induction false} SearchIsTightest(s: seq<Alloc>, n: nat, k: nat, alignment: nat, size: nat, first: int, last: int)
    requires k < n <= |s| && alignment > 0 && AllAligned(s, alignment) && forall a | a in s :: a.InBounds()
    requires FitsBelow(s, k, alignment, size, first, last)
    ensures var gap := SearchUpTo(s, n, alignment, size, first, last).gap;
            gap < |s| && Slack(s, gap, alignment, first, last) <= Slack(s, k, alignment, first, last)
  {
    hide AlignTo, EndOfMeeting, AllAligned, FitsBelow, Slack;
    var r := SearchUpTo(s, n - 1, alignment, size, first, last);
    SearchFinds(s, n - 1, alignment, size, first, last);
    if k < n - 1 {
      SearchIsTightest(s, n - 1, k, alignment, size, first, last);
    }
    SlackInBounds(s, n - 1, alignment, first, last);
    if r.gap < |s| {
      SlackAligned(s, n - 1, alignment, first, last);
      SlackAligned(s, r.gap, alignment, first, last);
      if Slack(s, n - 1, alignment, first, last) < r.fit {
        NextMultiple(Slack(s, n - 1, alignment, first, last), Slack(s, r.gap, alignment, first, last), alignment);
      }
    }
  }

  lemma SlackInBounds(s: seq<Alloc>, k: nat, alignment: nat, first: int, last: int)
    requires k < |s| && alignment > 0 && forall a | a in s :: a.InBounds()
    ensures Slack(s, k, alignment, first, last) < SIZE_MAX
  {
    assert s[k] in s;
  }

  lemma SlackAligned(s: seq<Alloc>, k: nat, alignment: nat, first: int, last: int)
    requires k < |s| && alignment > 0 && AllAligned(s, alignment)
    ensures Slack(s, k, alignment, first, last) % alignment == 0
    ensures var full := s[k].offset - EndOfMeeting(s, k, first, last);
            Slack(s, k, alignment, first, last) <= full < Slack(s, k, alignment, first, last) + alignment
  {
    var a, b := s[k].offset, AlignTo(alignment, EndOfMeeting(s, k, first, last));
    assert s[k] in s;
    DifferenceOfMultiples(a, b, alignment);
  }

  lemma DifferenceOfMultiples(a: nat, b: nat, alignment: nat)
    requires alignment > 0 && a % alignment == 0 && b % alignment == 0
    ensures (a - b) % alignment == 0
  {
    var p, q := a / alignment, b / alignment;
    assert a - b == (p - q) * alignment;
    var d, r := (a - b) / alignment, (a - b) % alignment;
    assert (p - q - d) * alignment == r;
    assert p - q - d >= 1 ==> (p - q - d) * alignment >= alignment;
    assert p - q - d <= -1 ==> (d - p + q) * alignment >= alignment;
  }

  // With offsets that are not multiples of the alignment the search can pass over a tighter gap.
  lemma MixedAlignmentMissesTightest()
    ensures var s := [Alloc(0, 1, 0, 0, 0), Alloc(9, 7, 1, 0, 0), Alloc(21, 1, 2, 0, 0)];
            && SortedByOffset(s) && (forall a | a in s :: a.InBounds()) && !AllAligned(s, 8)
            && ChosenOffset(s, 8, 1, 0, 0) == 16 && !TightestOffset(s, 16, 8, 1, 0, 0)
  {
    var s := [Alloc(0, 1, 0, 0, 0), Alloc(9, 7, 1, 0, 0), Alloc(21, 1, 2, 0, 0)];
    assert s[1] in s;
    assert EndOfMeeting(s, 0, 0, 0) == 0 && EndOfMeeting(s, 1, 0, 0) == 1 && EndOfMeeting(s, 2, 0, 0) == 16;
    assert AlignTo(8, 0) == 0 && AlignTo(8, 1) == 8 && AlignTo(8, 16) == 16;
    assert FitsBelow(s, 1, 8, 1, 0, 0) && Slack(s, 1, 8, 0, 0) == 1;
    assert FitsBelow(s, 2, 8, 1, 0, 0) && Slack(s, 2, 8, 0, 0) == 5;
    assert SearchUpTo(s, 1, 8, 1, 0, 0) == Search(3, SIZE_MAX);
    assert SearchUpTo(s, 2, 8, 1, 0, 0) == Search(1, 8);
    assert SearchUpTo(s, 3, 8, 1, 0, 0) == Search(2, 5);
  }

  // ---- Gaps, without the order in which the search looks at them

  ghost predicate InUse(a: Alloc, first: int, last: int) { a.firstNode <= last && first <= a.lastNode }

  // Nothing in use during [first, last] lies between lo and hi, a buffer in use begins at hi, and
  // one ends at lo, unless lo is the start of the arena.
  ghost predicate IsGap(s: seq<Alloc>, first: int, last: int, lo: nat, hi: nat) {
    && (exists a :: a in s && InUse(a, first, last) && a.offset == hi)
    && (lo == 0 || exists a :: a in s && InUse(a, first, last) && a.offset + a.size == lo)
    && (forall a | a in s && InUse(a, first, last) :: a.offset + a.size <= lo || hi <= a.offset)
  }

  ghost predicate FitsInto(s: seq<Alloc>, first: int, last: int, lo: nat, hi: nat, alignment: nat, size: nat)
    requires alignment > 0
  {
    IsGap(s, first, last, lo, hi) && AlignTo(alignment, lo) + size <= hi
  }

  // Above everything in use.
  ghost predicate IsTop(s: seq<Alloc>, first: int, last: int, top: nat) {
    && (forall a | a in s && InUse(a, first, last) :: a.offset + a.size <= top)
    && (top == 0 || exists a :: a in s && InUse(a, first, last) && a.offset + a.size == top)
  }

  // The buffer lies at the start of a gap into which it fits, if there is one, and above everything
  // in use otherwise.
  ghost predicate LiesInGap(s: seq<Alloc>, offset: nat, alignment: nat, size: nat, first: int, last: int)
    requires alignment > 0
  {
    if exists lo: nat, hi: nat :: FitsInto(s, first, last, lo, hi, alignment, size)
    then exists lo: nat, hi: nat :: FitsInto(s, first, last, lo, hi, alignment, size) && offset == AlignTo(alignment, lo)
    else exists top: nat :: IsTop(s, first, last, top) && offset == AlignTo(alignment, top)
  }

  // ... and in no other gap would less room be left above it.
  ghost predicate LiesInTightestGap(s: seq<Alloc>, offset: nat, alignment: nat, size: nat, first: int, last: int)
    requires alignment > 0
  {
    (exists lo: nat, hi: nat :: FitsInto(s, first, last, lo, hi, alignment, size)) ==>
      exists lo: nat, hi: nat :: FitsInto(s, first, last, lo, hi, alignment, size) && offset == AlignTo(alignment, lo)
                       && NoGapIsTighter(s, first, last, hi - AlignTo(alignment, lo), alignment, size)
  }

  ghost predicate NoGapIsTighter(s: seq<Alloc>, first: int, last: int, left: int, alignment: nat, size: nat)
    requires alignment > 0
  {
    forall lo: nat, hi: nat | FitsInto(s, first, last, lo, hi, alignment, size) :: left <= hi - AlignTo(alignment, lo)
  }

  lemma {:induction false} EndIsReached(s: seq<Alloc>, n: nat, first: int, last: int)
    requires n <= |s|
    ensures var end := EndOfMeeting(s, n, first, last);
            end == 0 || exists a :: a in s && InUse(a, first, last) && a.offset + a.size == end
  {
    if n > 0 {
      EndIsReached(s, n - 1, first, last);
      assert s[n - 1] in s && (s[n - 1].Meets(first, last) <==> InUse(s[n - 1], first, last));
    }
  }

  // Below an allocation into which the buffer fits there is a gap ...
  lemma FitIsGap(s: seq<Alloc>, k: nat, alignment: nat, size: nat, first: int, last: int)
    requires SortedByOffset(s) && k < |s| && alignment > 0 && FitsBelow(s, k, alignment, size, first, last)
    ensures FitsInto(s, first, last, EndOfMeeting(s, k, first, last), s[k].offset, alignment, size)
  {
    var lo, hi := EndOfMeeting(s, k, first, last), s[k].offset;
    EndIsReached(s, k, first, last);
    EndOfMeetingIsAbove(s, k, first, last);
    hide AlignTo, EndOfMeeting;
    assert s[k] in s && InUse(s[k], first, last);
    forall a | a in s && InUse(a, first, last)
      ensures a.offset + a.size <= lo || hi <= a.offset
    {
      var j :| 0 <= j < |s| && s[j] == a;
      assert a.Meets(first, last);
    }
  }

  // ... and every gap into which it fits is one of these.
  lemma GapIsFit(s: seq<Alloc>, lo: nat, hi: nat, alignment: nat, size: nat, first: int, last: int) returns (k: nat)
    requires SortedByOffset(s) && alignment > 0 && size > 0 && FitsInto(s, first, last, lo, hi, alignment, size)
    ensures k < |s| && FitsBelow(s, k, alignment, size, first, last)
    ensures EndOfMeeting(s, k, first, last) == lo && s[k].offset == hi
  {
    assert lo <= AlignTo(alignment, lo) < hi;
    k := FirstAt(s, first, last, hi);
    EndIsReached(s, k, first, last);
    EndOfMeetingIsAbove(s, k, first, last);
    hide AlignTo, EndOfMeeting;
    EndBelow(s, k, k, lo, hi, first, last);
    if lo != 0 {
      var a :| a in s && InUse(a, first, last) && a.offset + a.size == lo;
      var j :| 0 <= j < |s| && s[j] == a;
      assert a.Meets(first, last);
      LowerComesFirst(s, j, k);
    }
  }

  lemma LowerComesFirst(s: seq<Alloc>, j: nat, k: nat)
    requires SortedByOffset(s) && j < |s| && k < |s| && s[j].offset < s[k].offset
    ensures j < k
  {
  }

  lemma FirstAt(s: seq<Alloc>, first: int, last: int, hi: nat) returns (k: nat)
    requires exists a :: a in s && InUse(a, first, last) && a.offset == hi
    ensures k < |s| && s[k].Meets(first, last) && s[k].offset == hi
    ensures forall j | 0 <= j < k :: !(s[j].Meets(first, last) && s[j].offset == hi)
  {
    var a :| a in s && InUse(a, first, last) && a.offset == hi;
    k := 0;
    while !(s[k].Meets(first, last) && s[k].offset == hi)
      invariant k < |s| && exists j :: k <= j < |s| && s[j] == a
      invariant forall j | 0 <= j < k :: !(s[j].Meets(first, last) && s[j].offset == hi)
      decreases |s| - k
    {
      k := k + 1;
    }
  }

  lemma {:induction false} EndBelow(s: seq<Alloc>, n: nat, k: nat, lo: nat, hi: nat, first: int, last: int)
    requires SortedByOffset(s) && n <= k < |s| && s[k].offset == hi
    requires forall j | 0 <= j < k :: !(s[j].Meets(first, last) && s[j].offset == hi)
    requires forall a | a in s && InUse(a, first, last) :: a.offset + a.size <= lo || hi <= a.offset
    ensures EndOfMeeting(s, n, first, last) <= lo
  {
    if n > 0 {
      EndBelow(s, n - 1, k, lo, hi, first, last);
      assert s[n - 1] in s && s[n - 1].offset <= s[k].offset;
      assert s[n - 1].Meets(first, last) ==> InUse(s[n - 1], first, last);
    }
  }

  // The search puts the buffer where the gaps say.
  lemma BestLiesInGap(s: seq<Alloc>, offset: nat, alignment: nat, size: nat, first: int, last: int)
    requires SortedByOffset(s) && alignment > 0 && size > 0
    requires BestOffset(s, offset, alignment, size, first, last)
    ensures LiesInGap(s, offset, alignment, size, first, last)
  {
    hide AlignTo, EndOfMeeting, FitsBelow, FitsInto, IsTop, SortedByOffset;
    if k: nat :| k < |s| && FitsBelow(s, k, alignment, size, first, last)
                 && offset == AlignTo(alignment, EndOfMeeting(s, k, first, last)) {
      FitIsGap(s, k, alignment, size, first, last);
      assert FitsInto(s, first, last, EndOfMeeting(s, k, first, last), s[k].offset, alignment, size);
    } else {
      if lo: nat, hi: nat :| FitsInto(s, first, last, lo, hi, alignment, size) {
        var k := GapIsFit(s, lo, hi, alignment, size, first, last);
      }
      EndIsTop(s, first, last);
    }
  }

  lemma EndIsTop(s: seq<Alloc>, first: int, last: int)
    ensures IsTop(s, first, last, EndOfMeeting(s, |s|, first, last))
  {
    EndIsReached(s, |s|, first, last);
    EndOfMeetingIsAbove(s, |s|, first, last);
    forall a | a in s && InUse(a, first, last)
      ensures a.offset + a.size <= EndOfMeeting(s, |s|, first, last)
    {
      var j :| 0 <= j < |s| && s[j] == a;
      assert a.Meets(first, last);
    }
  }

  lemma TightestLiesInTightestGap(s: seq<Alloc>, offset: nat, alignment: nat, size: nat, first: int, last: int)
    requires SortedByOffset(s) && alignment > 0 && size > 0
    requires TightestOffset(s, offset, alignment, size, first, last)
    ensures LiesInTightestGap(s, offset, alignment, size, first, last)
  {
    hide AlignTo, EndOfMeeting, FitsBelow, FitsInto, SortedByOffset;
    if lo: nat, hi: nat :| FitsInto(s, first, last, lo, hi, alignment, size) {
      var j := GapIsFit(s, lo, hi, alignment, size, first, last);
      var k: nat :| k < |s| && IsTightest(s, k, alignment, size, first, last)
                    && offset == AlignTo(alignment, EndOfMeeting(s, k, first, last));
      FitIsGap(s, k, alignment, size, first, last);
      forall lo': nat, hi': nat | FitsInto(s, first, last, lo', hi', alignment, size)
        ensures Slack(s, k, alignment, first, last) <= hi' - AlignTo(alignment, lo')
      {
        var j' := GapIsFit(s, lo', hi', alignment, size, first, last);
        assert Slack(s, k, alignment, first, last) <= Slack(s, j', alignment, first, last);
      }
      assert NoGapIsTighter(s, first, last, Slack(s, k, alignment, first, last), alignment, size);
    }
  }

  lemma InsertKeepsValid(s: seq<Alloc>, a: Alloc, alignment: nat)
    requires SortedByOffset(s) && (forall b | b in s :: b.InBounds())
    requires a.InBounds() && alignment > 0 && a.offset % alignment == 0
    ensures SortedByOffset(InsertByOffset(s, a))
    ensures forall b | b in InsertByOffset(s, a) :: b.InBounds()
    ensures AllAligned(s, alignment) ==> AllAligned(InsertByOffset(s, a), alignment)
  {
    InsertKeepsOrder(s, a);
    InsertedMembers(s, a);
    hide InsertByOffset;
  }

  // ---- How far buffers reach

  // Behind every buffer there is room for that many bytes, within 64 bits.
  predicate Roomy(s: seq<Alloc>, room: nat) {
    && room <= 0xFFFF_FFFF_FFFF_FFFF
    && forall a | a in s :: a.offset + a.size + room <= 0xFFFF_FFFF_FFFF_FFFF
  }

  lemma {:induction false} EndOfMeetingBelow(s: seq<Alloc>, n: nat, first: int, last: int, highest: nat)
    requires n <= |s| && forall a | a in s :: a.offset + a.size <= highest
    ensures EndOfMeeting(s, n, first, last) <= highest
  {
    if n > 0 {
      EndOfMeetingBelow(s, n - 1, first, last, highest);
      assert s[n - 1] in s;
    }
  }

  // A new buffer does not reach much further than the highest one.
  lemma OffsetBelow(s: seq<Alloc>, offset: nat, alignment: nat, size: nat, first: int, last: int, highest: nat)
    requires alignment > 0 && BestOffset(s, offset, alignment, size, first, last)
    requires forall a | a in s :: a.offset + a.size <= highest
    ensures offset <= highest + alignment
  {
    hide AlignTo;
    if exists k: nat | k < |s| :: FitsBelow(s, k, alignment, size, first, last) {
      var k: nat :| k < |s| && FitsBelow(s, k, alignment, size, first, last)
                    && offset == AlignTo(alignment, EndOfMeeting(s, k, first, last));
      EndOfMeetingBelow(s, k, first, last, highest);
    } else {
      EndOfMeetingBelow(s, |s|, first, last, highest);
    }
  }

  lemma SearchStart(s: seq<Alloc>, alignment: nat, size: nat, first: int, last: int)
    requires alignment > 0
    ensures EndOfMeeting(s, 0, first, last) == 0 && SearchUpTo(s, 0, alignment, size, first, last) == Search(|s|, SIZE_MAX)
  {
  }

  // What one round of the search does.
  lemma SearchStep(s: seq<Alloc>, i: nat, alignment: nat, size: nat, first: int, last: int)
    requires i < |s| && alignment > 0
    ensures var a, end, r := s[i], EndOfMeeting(s, i, first, last), SearchUpTo(s, i, alignment, size, first, last);
            var aligned := AlignTo(alignment, end);
            && end <= aligned
            && EndOfMeeting(s, i + 1, first, last)
               == (if a.Meets(first, last) && a.offset + a.size > end then a.offset + a.size else end)
            && SearchUpTo(s, i + 1, alignment, size, first, last)
               == if a.Meets(first, last) && aligned + size <= a.offset && a.offset - aligned < r.fit
                  then Search(i, a.offset - end) else r
    ensures Roomy(s, alignment + size) ==> s[i].offset + s[i].size + alignment + size <= SIZE_MAX
  {
    assert s[i] in s;
  }

  // The search loop of Allocate.
  method FindOffset(s: seq<Alloc>, alignment: nat, size: nat, first: int, last: int)
    returns (status: Status, bestOffset: nat)
    requires SortedByOffset(s) && (forall a | a in s :: a.InBounds())
    requires alignment > 0 && size > 0
    ensures status.Ok? ==>
              && bestOffset + size <= 0xFFFF_FFFF_FFFF_FFFF
              && bestOffset % alignment == 0
              && DisjointFromMeeting(s, bestOffset, size, first, last)
              && BestOffset(s, bestOffset, alignment, size, first, last)
              && bestOffset == ChosenOffset(s, alignment, size, first, last)
    ensures status.Ok? && AllAligned(s, alignment) ==> TightestOffset(s, bestOffset, alignment, size, first, last)
    // In terms of the gaps between the buffers in use.
    ensures status.Ok? ==> LiesInGap(s, bestOffset, alignment, size, first, last)
    ensures status.Ok? && AllAligned(s, alignment) ==> LiesInTightestGap(s, bestOffset, alignment, size, first, last)
    ensures Roomy(s, alignment + size) ==> status.Ok?
  {
    hide AlignTo, BestOffset, DisjointFromMeeting, TightestOffset, AllAligned, SortedByOffset;
    hide LiesInGap, LiesInTightestGap;
    bestOffset := 0;
    assert Roomy(s, alignment + size) ==> alignment + size <= SIZE_MAX;
    hide EndOfMeeting, SearchUpTo, FitsBelow, Slack, Roomy;
    var found, bestFit: nat, currentOffset: nat := false, SIZE_MAX, 0;
    ghost var gap: nat := |s|;
    var i := 0;
    SearchStart(s, alignment, size, first, last);
    while i < |s|
      invariant 0 <= i <= |s|
      invariant currentOffset == EndOfMeeting(s, i, first, last)
      invariant Roomy(s, alignment + size) ==> currentOffset + alignment + size <= SIZE_MAX
      invariant found ==> bestOffset + size <= SIZE_MAX
      invariant SearchUpTo(s, i, alignment, size, first, last) == Search(gap, bestFit)
      invariant found ==> gap < |s| && bestOffset == AlignTo(alignment, EndOfMeeting(s, gap, first, last))
      invariant !found ==> gap == |s| && bestFit == SIZE_MAX
    {
      var alloc := s[i];
      SearchStep(s, i, alignment, size, first, last);
      if alloc.Meets(first, last) {
        var alignedOffset := AlignTo(alignment, currentOffset);
        if alignedOffset > SIZE_MAX || alignedOffset + size > SIZE_MAX {
          return Error, 0;
        }
        if alignedOffset + size <= alloc.offset && alloc.offset - alignedOffset < bestFit {
          found, bestOffset, bestFit := true, alignedOffset, alloc.offset - currentOffset;
          gap := i;
        }
        // Placed buffers end within size_t, so the overflow check on their end never fires.
        assert alloc in s && alloc.offset + alloc.size <= SIZE_MAX;
        if alloc.offset + alloc.size > currentOffset {
          currentOffset := alloc.offset + alloc.size;
        }
        // The search cannot get better.
        if bestFit == 0 {
          PerfectFitStays(s, i + 1, |s|, alignment, size, first, last);
          break;
        }
      }
      i := i + 1;
    }
    if !found {
      bestOffset := AlignTo(alignment, currentOffset);
    }
    assert bestOffset == ChosenOffset(s, alignment, size, first, last);
    if bestOffset > SIZE_MAX || bestOffset + size > SIZE_MAX {
      return Error, bestOffset;
    }
    status := Ok;
    ChosenIsBest(s, alignment, size, first, last);
    if AllAligned(s, alignment) {
      ChosenIsTightest(s, alignment, size, first, last);
      TightestLiesInTightestGap(s, bestOffset, alignment, size, first, last);
    }
    BestLiesInGap(s, bestOffset, alignment, size, first, last);
  }

  lemma ChosenIsBest(s: seq<Alloc>, alignment: nat, size: nat, first: int, last: int)
    requires SortedByOffset(s) && alignment > 0 && forall a | a in s :: a.InBounds()
    ensures var offset := ChosenOffset(s, alignment, size, first, last);
            BestOffset(s, offset, alignment, size, first, last)
            && DisjointFromMeeting(s, offset, size, first, last) && offset % alignment == 0
  {
    SearchFinds(s, |s|, alignment, size, first, last);
    hide AlignTo, EndOfMeeting, SearchUpTo, FitsBelow;
    var gap := SearchUpTo(s, |s|, alignment, size, first, last).gap;
    FoundIsBest(s, gap, ChosenOffset(s, alignment, size, first, last), alignment, size, first, last);
  }

  // On aligned buffers the search takes a tightest gap.
  lemma ChosenIsTightest(s: seq<Alloc>, alignment: nat, size: nat, first: int, last: int)
    requires alignment > 0 && AllAligned(s, alignment) && forall a | a in s :: a.InBounds()
    ensures TightestOffset(s, ChosenOffset(s, alignment, size, first, last), alignment, size, first, last)
  {
    hide AlignTo, EndOfMeeting, SearchUpTo, AllAligned, FitsBelow, Slack;
    SearchFinds(s, |s|, alignment, size, first, last);
    forall j: nat | j < |s| && FitsBelow(s, j, alignment, size, first, last)
      ensures var gap := SearchUpTo(s, |s|, alignment, size, first, last).gap;
              gap < |s| && Slack(s, gap, alignment, first, last) <= Slack(s, j, alignment, first, last)
    {
      SearchIsTightest(s, |s|, j, alignment, size, first, last);
    }
    var gap := SearchUpTo(s, |s|, alignment, size, first, last).gap;
    if k: nat :| k < |s| && FitsBelow(s, k, alignment, size, first, last) {
      assert IsTightest(s, gap, alignment, size, first, last);
    }
  }

  // What the search has found: a gap below allocation `gap`, or the end if there is none.
  lemma FoundIsBest(s: seq<Alloc>, gap: nat, offset: nat, alignment: nat, size: nat, first: int, last: int)
    requires SortedByOffset(s) && gap <= |s| && alignment > 0
    requires offset == AlignTo(alignment, EndOfMeeting(s, gap, first, last))
    requires if gap < |s| then FitsBelow(s, gap, alignment, size, first, last)
             else forall k: nat | k < |s| :: !FitsBelow(s, k, alignment, size, first, last)
    ensures BestOffset(s, offset, alignment, size, first, last)
    ensures DisjointFromMeeting(s, offset, size, first, last) && offset % alignment == 0
  {
    EndOfMeetingIsAbove(s, gap, first, last);
    forall a | a in s && a.Meets(first, last)
      ensures a.DisjointFrom(offset, size)
    {
      var j :| 0 <= j < |s| && s[j] == a;
      assert gap <= j ==> s[gap].offset <= s[j].offset;
    }
  }

  class Arena {
    // Alignment of the underlying buffer.
    const bufferAlignment: nat
    var committed: bool
    var highWaterMark: nat
    var bufferSize: nat
    // Moves whenever the buffer is reallocated.
    var base: int
    var activeAllocs: seq<Alloc>

    ghost predicate Valid()
      reads this
    {
      SortedByOffset(activeAllocs) && forall a | a in activeAllocs :: a.InBounds()
    }

    constructor (alignment: nat)
      ensures Valid() && bufferAlignment == alignment
      ensures !committed && highWaterMark == 0 && bufferSize == 0 && activeAllocs == []
    {
      bufferAlignment := alignment;
      committed, highWaterMark, bufferSize, base, activeAllocs := false, 0, 0, 0, [];
    }

    method ResetAllocs()
      modifies this`activeAllocs
      ensures Valid() && activeAllocs == []
    {
      activeAllocs := [];
    }

    method PurgeAfter(node: int)
      requires Valid()
      modifies this`activeAllocs
      ensures Valid()
      ensures forall a :: a in activeAllocs <==> a in old(activeAllocs) && a.tensor != -1 && a.firstNode <= node
    {
      activeAllocs := RemoveMarked((a: Alloc) => a.firstNode > node);
    }

    method PurgeActiveAllocs(node: int)
      requires Valid()
      modifies this`activeAllocs
      ensures Valid()
      ensures forall a :: a in activeAllocs <==> a in old(activeAllocs) && a.tensor != -1 && node <= a.lastNode
    {
      activeAllocs := RemoveMarked((a: Alloc) => a.lastNode < node);
    }

    // Marks allocations with tensor -1, then erases everything so marked.
    method RemoveMarked(mark: Alloc -> bool) returns (kept: seq<Alloc>)
      requires Valid()
      ensures SortedByOffset(kept)
      ensures forall a :: a in kept <==> a in activeAllocs && a.tensor != -1 && !mark(a)
    {
      var marked := activeAllocs;
      for i := 0 to |marked|
        invariant |marked| == |activeAllocs|
        invariant forall j | 0 <= j < |marked| ::
                    marked[j] == if j < i && mark(activeAllocs[j]) then activeAllocs[j].(tensor := -1)
                                 else activeAllocs[j]
      {
        if mark(marked[i]) {
          marked := marked[i := marked[i].(tensor := -1)];
        }
      }
      kept := [];
      for i := 0 to |marked|
        invariant SortedByOffset(kept)
        invariant forall j, k | 0 <= j < |kept| && i <= k < |marked| :: kept[j].offset <= marked[k].offset
        invariant forall a | a in kept :: a in activeAllocs && a.tensor != -1 && !mark(a)
        invariant forall j | 0 <= j < i && activeAllocs[j].tensor != -1 && !mark(activeAllocs[j]) ::
                    activeAllocs[j] in kept
      {
        if marked[i].tensor != -1 {
          kept := kept + [marked[i]];
        }
      }
    }

    method CalculateActiveAllocs(allocs: seq<Alloc>, node: int)
      requires forall a | a in allocs :: a.InBounds()
      modifies this`activeAllocs
      ensures Valid()
      ensures forall a :: a in activeAllocs <==> a in allocs && a.firstNode <= node <= a.lastNode
    {
      var found := [];
      for i := 0 to |allocs|
        invariant forall a :: a in found <==> a in allocs[..i] && a.firstNode <= node <= a.lastNode
      {
        assert allocs[..i + 1] == allocs[..i] + [allocs[i]];
        if allocs[i].firstNode <= node && allocs[i].lastNode >= node {
          found := found + [allocs[i]];
        }
      }
      assert allocs[..|allocs|] == allocs;
      activeAllocs := SortByOffset(found);
      assert forall a :: a in activeAllocs <==> a in multiset(activeAllocs);
      assert forall a :: a in found <==> a in multiset(found);
    }

    // Picks an offset for a buffer of the given size used in [firstNode, lastNode]. The
    // allocation record is the caller's and is partly written even on failure.
    method Allocate(alignment: nat, size: nat, tensor: int, firstNode: int, lastNode: int, record: Alloc)
      returns (status: Status, newAlloc: Alloc)
      requires Valid()
      modifies this`activeAllocs, this`highWaterMark
      ensures Valid()
      ensures status.Ok? ==> 0 < alignment <= bufferAlignment
      ensures status.Ok? ==> newAlloc == Alloc(newAlloc.offset, size, tensor, firstNode, lastNode) && newAlloc.InBounds()
      ensures status.Error? ==> activeAllocs == old(activeAllocs) && highWaterMark == old(highWaterMark)
      ensures status.Ok? && size > 0 ==>
                && DisjointFromMeeting(old(activeAllocs), newAlloc.offset, size, firstNode, lastNode)
                && newAlloc.offset % alignment == 0
                && activeAllocs == InsertByOffset(old(activeAllocs), newAlloc)
                && highWaterMark >= newAlloc.offset + size
                && highWaterMark == (if newAlloc.offset + size > old(highWaterMark)
                                     then newAlloc.offset + size else old(highWaterMark))
      ensures status.Ok? && size == 0 ==>
                newAlloc.offset == 0 && activeAllocs == old(activeAllocs) && highWaterMark == old(highWaterMark)
      ensures status.Ok? && size > 0 ==>
                BestOffset(old(activeAllocs), newAlloc.offset, alignment, size, firstNode, lastNode)
      // It lies at the start of a gap between the buffers in use, or above them all if it fits into none.
      ensures status.Ok? && size > 0 ==>
                LiesInGap(old(activeAllocs), newAlloc.offset, alignment, size, firstNode, lastNode)
      // While all offsets are multiples of the alignment, the tightest gap is taken, and they remain so.
      ensures status.Ok? && size > 0 && AllAligned(old(activeAllocs), alignment) ==>
                && TightestOffset(old(activeAllocs), newAlloc.offset, alignment, size, firstNode, lastNode)
                && LiesInTightestGap(old(activeAllocs), newAlloc.offset, alignment, size, firstNode, lastNode)
      ensures status.Ok? && AllAligned(old(activeAllocs), alignment) ==> AllAligned(activeAllocs, alignment)
      // It only fails on a bad alignment or when sizes overflow.
      ensures 0 < alignment <= bufferAlignment && Roomy(old(activeAllocs), alignment + size) ==> status.Ok?
    {
      if alignment == 0 || alignment > bufferAlignment {
        return Error, record;
      }
      newAlloc := Alloc(record.offset, size, tensor, firstNode, lastNode);
      if size == 0 {
        return Ok, newAlloc.(offset := 0);
      }
      hide BestOffset, TightestOffset, ChosenOffset, DisjointFromMeeting, InsertByOffset, SortedByOffset;
      hide LiesInGap, LiesInTightestGap, AllAligned, Roomy;
      var bestOffset;
      status, bestOffset := FindOffset(activeAllocs, alignment, size, firstNode, lastNode);
      if status.Error? {
        return Error, newAlloc;
      }
      if bestOffset + size > highWaterMark {
        highWaterMark := bestOffset + size;
      }
      newAlloc := newAlloc.(offset := bestOffset);
      InsertKeepsValid(activeAllocs, newAlloc, alignment);
      activeAllocs := InsertByOffset(activeAllocs, newAlloc);
      status := Ok;
    }

    // Reserves the memory the plan needs. Whether the system grants it, and whether the
    // block moves, is not ours to decide: newBase is where the block would end up.
    method Commit(granted: bool, newBase: int) returns (status: Status, reallocated: bool)
      modifies this`committed, this`bufferSize, this`base
      ensures status.Ok? <==> (highWaterMark <= old(bufferSize) || granted)
      ensures committed <==> status.Ok?
      ensures status.Ok? ==> bufferSize >= highWaterMark
      ensures reallocated <==> base != old(base)
      ensures base == old(base) || base == newBase
      ensures status.Error? ==> bufferSize == old(bufferSize) && base == old(base)
    {
      committed, reallocated := false, false;
      if highWaterMark <= bufferSize {
        committed := true;
        return Ok, false;
      }
      if !granted {
        return Error, false;
      }
      reallocated := newBase != base;
      bufferSize, base := highWaterMark, newBase;
      committed := true;
      status := Ok;
    }

    // The committed block contains the allocation.
    predicate Resolvable(alloc: Alloc)
      reads this
    {
      committed && alloc.offset + alloc.size <= SIZE_MAX && bufferSize >= alloc.offset + alloc.size
    }

    // The address of an allocation; null for an empty one.
    method ResolveAlloc(alloc: Alloc) returns (status: Status, isNull: bool, address: int)
      ensures status.Ok? <==> Resolvable(alloc)
      ensures status.Ok? ==> (isNull <==> alloc.size == 0)
      ensures status.Ok? && !isNull ==>
                address == base + alloc.offset && base <= address && address + alloc.size <= base + bufferSize
    {
      isNull, address := true, 0;
      if !committed || alloc.offset + alloc.size > SIZE_MAX || bufferSize < alloc.offset + alloc.size {
        return Error, isNull, address;
      }
      if alloc.size != 0 {
        isNull, address := false, base + alloc.offset;
      }
      status := Ok;
    }

    method ClearPlan()
      modifies this`committed, this`highWaterMark, this`activeAllocs
      ensures Valid() && !committed && highWaterMark == 0 && activeAllocs == []
    {
      committed, highWaterMark, activeAllocs := false, 0, [];
    }
  }

  // std::sort by offset; the order of equal offsets is left open by the contract.
  method SortByOffset(s: seq<Alloc>) returns (t: seq<Alloc>)
    ensures SortedByOffset(t) && multiset(t) == multiset(s)
  {
    t := [];
    for i := 0 to |s|
      invariant SortedByOffset(t) && multiset(t) == multiset(s[..i])
    {
      assert s[..i + 1] == s[..i] + [s[i]];
      InsertKeepsOrder(t, s[i]);
      t := InsertByOffset(t, s[i]);
    }
    assert s[..|s|] == s;
  }
}
