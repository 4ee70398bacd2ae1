/** Channel ranges, their validation, and which channels a configuration selects
    (native/include/showmesh/brightness.h, native/src/brightness.cpp). */
module ChannelRanges {

  const TWO_TO_THE_32 := 0x1_0000_0000

  type u32 = x: int | 0 <= x < 0x1_0000_0000

  /** One-based, half open. EndExclusive wraps the way 32-bit addition does; Covers does not. */
  datatype ChannelRange = ChannelRange(startChannel: u32, channelCount: u32) {
    function EndExclusive(): u32 {
      if Wraps() then startChannel + channelCount - TWO_TO_THE_32 else startChannel + channelCount
    }

    predicate Wraps() {
      startChannel + channelCount >= TWO_TO_THE_32
    }

    predicate Covers(c: int) {
      startChannel <= c < startChannel + channelCount
    }

    predicate Apart(r: ChannelRange) {
      startChannel + channelCount <= r.startChannel || r.startChannel + r.channelCount <= startChannel
    }
  }

  datatype RangeConfig = RangeConfig(apply: seq<ChannelRange>, exclude: seq<ChannelRange>)

  ghost predicate InRanges(rs: seq<ChannelRange>, c: int) {
    exists r <- rs :: r.Covers(c)
  }

  ghost predicate NoWrap(rs: seq<ChannelRange>) {
    forall r <- rs :: !r.Wraps()
  }

  /** No two ranges of one list share a channel. */
  ghost predicate AllApart(rs: seq<ChannelRange>) {
    rs != [] ==> (forall r <- rs[1..] :: rs[0].Apart(r)) && AllApart(rs[1..])
  }

  /** Each range ends before every later one starts. */
  predicate InOrder(rs: seq<ChannelRange>) {
    rs != [] ==> (forall r <- rs[1..] :: rs[0].startChannel + rs[0].channelCount <= r.startChannel) && InOrder(rs[1..])
  }

  predicate SortedByStart(rs: seq<ChannelRange>) {
    rs != [] ==> (forall r <- rs[1..] :: rs[0].startChannel <= r.startChannel) && SortedByStart(rs[1..])
  }

  lemma Head(rs: seq<ChannelRange>)
    requires rs != []
    ensures forall x :: x in rs <==> x == rs[0] || x in rs[1..]
  {
    assert rs == [rs[0]] + rs[1..];
  }

  function Insert(r: ChannelRange, rs: seq<ChannelRange>): (s: seq<ChannelRange>)
    ensures |s| == |rs| + 1
    ensures forall x :: x in s <==> x == r || x in rs
    ensures SortedByStart(rs) ==> SortedByStart(s)
  {
    if rs == [] then [r]
    else
      Head(rs);
      if r.startChannel <= rs[0].startChannel then
        assert ([r] + rs)[1..] == rs;
        [r] + rs
      else
        var rest := Insert(r, rs[1..]);
        assert ([rs[0]] + rest)[1..] == rest;
        [rs[0]] + rest
  }

  /** What std::sort by start channel leaves behind. */
  function SortByStart(rs: seq<ChannelRange>): (s: seq<ChannelRange>)
    ensures |s| == |rs|
    ensures SortedByStart(s)
    ensures forall r :: r in s <==> r in rs
  {
    if rs == [] then []
    else
      Head(rs);
      Insert(rs[0], SortByStart(rs[1..]))
  }

  /** The check validateOneList makes after sorting: neighbours only. */
  predicate NeighboursApart(s: seq<ChannelRange>) {
    forall i :: 1 <= i < |s| ==> s[i].startChannel >= s[i - 1].EndExclusive()
  }

  predicate Fits(r: ChannelRange, totalChannels: u32) {
    && r.channelCount != 0
    && r.startChannel != 0
    && (totalChannels != 0 ==> r.EndExclusive() <= (totalChannels + 1) % TWO_TO_THE_32)
  }

  predicate EachFits(rs: seq<ChannelRange>, totalChannels: u32) {
    forall r <- rs :: Fits(r, totalChannels)
  }

  predicate ValidList(rs: seq<ChannelRange>, totalChannels: u32) {
    EachFits(rs, totalChannels) && NeighboursApart(SortByStart(rs))
  }

  predicate ValidRanges(config: RangeConfig, totalChannels: u32) {
    ValidList(config.apply, totalChannels) && ValidList(config.exclude, totalChannels)
  }

  lemma {:induction false} InsertKeepsApart(r: ChannelRange, rs: seq<ChannelRange>)
    ensures AllApart(Insert(r, rs)) <==> AllApart(rs) && forall x <- rs :: r.Apart(x)
  {
    if rs == [] {
    } else {
      Head(rs);
      if r.startChannel <= rs[0].startChannel {
        assert ([r] + rs)[1..] == rs;
      } else {
        var rest := Insert(r, rs[1..]);
        InsertKeepsApart(r, rs[1..]);
        assert ([rs[0]] + rest)[1..] == rest;
        assert r in rest && forall x <- rs[1..] :: x in rest;
        assert (forall x <- rest :: rs[0].Apart(x)) <==> rs[0].Apart(r) && (forall x <- rs[1..] :: rs[0].Apart(x));
        assert rs[0].Apart(r) <==> r.Apart(rs[0]);
        assert (forall x <- rs :: r.Apart(x)) <==> r.Apart(rs[0]) && (forall x <- rs[1..] :: r.Apart(x));
      }
    }
  }

  /** Sorting neither makes nor hides an overlap. */
  lemma {:induction false} SortKeepsApart(rs: seq<ChannelRange>)
    ensures AllApart(SortByStart(rs)) <==> AllApart(rs)
  {
    if rs == [] {
    } else {
      SortKeepsApart(rs[1..]);
      InsertKeepsApart(rs[0], SortByStart(rs[1..]));
    }
  }

  lemma NeighboursOfTail(s: seq<ChannelRange>)
    requires |s| > 1
    ensures NeighboursApart(s) <==> s[1].startChannel >= s[0].EndExclusive() && NeighboursApart(s[1..])
  {
  }

  /** No range runs past 2^32 but perhaps the last one. */
  predicate OnlyLastWraps(s: seq<ChannelRange>) {
    forall i :: 0 <= i < |s| - 1 ==> !s[i].Wraps()
  }

  lemma LastOfTail(s: seq<ChannelRange>)
    requires |s| > 1
    ensures OnlyLastWraps(s) <==> !s[0].Wraps() && OnlyLastWraps(s[1..])
  {
    assert forall i :: 0 <= i < |s[1..]| ==> s[1..][i] == s[i + 1];
    assert forall i :: 1 <= i < |s| - 1 ==> s[i] == s[1..][i - 1];
  }

  /** In a sorted list the neighbours tell whether any two ranges meet, exactly if only the last one wraps. */
  lemma {:induction false} SortedNeighbours(s: seq<ChannelRange>)
    requires SortedByStart(s)
    requires forall r <- s :: r.channelCount > 0
    ensures AllApart(s) <==> NeighboursApart(s) && OnlyLastWraps(s)
  {
    if |s| <= 1 {
    } else {
      Head(s);
      Head(s[1..]);
      SortedNeighbours(s[1..]);
      NeighboursOfTail(s);
      LastOfTail(s);
      assert s[0].Apart(s[1]) ==> s[1].startChannel >= s[0].EndExclusive() && !s[0].Wraps();
    }
  }

  /** InOrder by indices. */
  predicate LeftToRight(rs: seq<ChannelRange>) {
    forall i, j :: 0 <= i < j < |rs| ==> rs[i].startChannel + rs[i].channelCount <= rs[j].startChannel
  }

  lemma {:induction false} InOrderAt(s: seq<ChannelRange>)
    requires InOrder(s)
    ensures LeftToRight(s)
  {
    if s == [] {
    } else {
      InOrderAt(s[1..]);
      assert forall k :: 0 < k < |s| ==> s[k] == s[1..][k - 1] && s[k] in s[1..];
    }
  }

  /** The ranges that do not run past 2^32. */
  function Unwrapped(rs: seq<ChannelRange>): (u: seq<ChannelRange>)
    ensures forall r :: r in u <==> r in rs && !r.Wraps()
  {
    if rs == [] then []
    else
      Head(rs);
      if rs[0].Wraps() then Unwrapped(rs[1..]) else [rs[0]] + Unwrapped(rs[1..])
  }

  lemma {:induction false} UnwrappedInOrder(s: seq<ChannelRange>)
    requires SortedByStart(s) && NeighboursApart(s)
    ensures InOrder(Unwrapped(s))
  {
    hide NeighboursApart;
    if |s| > 1 {
      Head(s);
      Head(s[1..]);
      NeighboursOfTail(s);
      UnwrappedInOrder(s[1..]);
      if !s[0].Wraps() {
        assert Unwrapped(s)[1..] == Unwrapped(s[1..]);
        assert forall r <- Unwrapped(s[1..]) :: s[1].startChannel <= r.startChannel;
      }
    } else if |s| == 1 {
      assert s[1..] == [];
    }
  }

  /** What validation gives the span computation: of the sorted list, what does not wrap goes from left to right. */
  lemma ValidSortedInOrder(rs: seq<ChannelRange>, totalChannels: u32)
    requires ValidList(rs, totalChannels)
    ensures LeftToRight(Unwrapped(SortByStart(rs)))
  {
    UnwrappedInOrder(SortByStart(rs));
    InOrderAt(Unwrapped(SortByStart(rs)));
  }

  /** Which lists of ranges that fit keep them apart: exactly the lists validation accepts in which no range wraps but
      the one that starts last. */
  lemma ValidListMeansApart(rs: seq<ChannelRange>, totalChannels: u32)
    requires EachFits(rs, totalChannels)
    ensures AllApart(rs) <==> ValidList(rs, totalChannels) && OnlyLastWraps(SortByStart(rs))
    ensures NoWrap(rs) ==> OnlyLastWraps(SortByStart(rs))
  {
    SortKeepsApart(rs);
    SortedNeighbours(SortByStart(rs));
  }

  /** A range that runs past 2^32 hides its overlap with a later one from validation, whatever the channel count. */
  lemma WrappedOverlapIsAccepted(totalChannels: u32)
    ensures var a, b := ChannelRange(7, 0xFFFF_FFFA), ChannelRange(9, 3);
            && !AllApart([a, b])
            && (ValidList([a, b], totalChannels) <==> totalChannels == 0 || 11 <= totalChannels < 0xFFFF_FFFF)
  {
    var a, b := ChannelRange(7, 0xFFFF_FFFA), ChannelRange(9, 3);
    assert [a, b][1..] == [b] && [b][1..] == [];
    assert SortByStart([b]) == [b];
    assert SortByStart([a, b]) == [a, b];
    assert b in [b] && !a.Apart(b);
  }

  /** The span an empty apply list stands for. */
  function WholeUniverse(totalChannels: u32): ChannelRange {
    ChannelRange(1, if totalChannels != 0 then totalChannels else 0xFFFF_FFFE)
  }

  /** Every channel from the first on: all there are, or all a range can hold where that is not known. */
  lemma WholeUniverseCovers(totalChannels: u32, c: int)
    ensures WholeUniverse(totalChannels).Covers(c) <==>
              1 <= c <= if totalChannels == 0 then 0x1_0000_0000 - 2 else totalChannels
  {
  }

  function ApplySpans(config: RangeConfig, totalChannels: u32): seq<ChannelRange> {
    if config.apply == [] then [WholeUniverse(totalChannels)] else config.apply
  }

  /** The per-channel rule. */
  ghost predicate Selected(config: RangeConfig, totalChannels: u32, c: int) {
    InRanges(ApplySpans(config, totalChannels), c) && !InRanges(config.exclude, c)
  }

  /** What the precomputed form reaches: a range that wraps counts for nothing. */
  ghost predicate Reached(config: RangeConfig, totalChannels: u32, c: int) {
    InRanges(Unwrapped(ApplySpans(config, totalChannels)), c) && !InRanges(config.exclude, c)
  }

  ghost predicate Ordered(spans: seq<ChannelRange>) {
    && (forall r <- spans :: r.startChannel > 0 && !r.Wraps())
    && LeftToRight(spans)
  }

  /** The precomputed form: in order, never twice over a channel, and exactly the selected channels. */
  ghost predicate SpansFit(spans: seq<ChannelRange>, config: RangeConfig, totalChannels: u32) {
    && Ordered(spans)
    && forall c :: InRanges(spans, c) <==> Selected(config, totalChannels, c)
  }

  lemma InRangesAppend(a: seq<ChannelRange>, b: seq<ChannelRange>)
    ensures forall c :: InRanges(a + b, c) <==> InRanges(a, c) || InRanges(b, c)
  {
    assert forall r :: r in a + b <==> r in a || r in b;
  }

  /** What is left of the span once no exclusion reaches into it any more. */
  function Rest(cursor: u32, end: u32): seq<ChannelRange> {
    if cursor < end then [ChannelRange(cursor, end - cursor)] else []
  }

  /** The channels from cursor up to end with the exclusions, sorted by start, cut out. */
  function CutFrom(cursor: u32, end: u32, excludes: seq<ChannelRange>): seq<ChannelRange>
    decreases |excludes|
  {
    if excludes == [] then Rest(cursor, end)
    else
      var ex := excludes[0];
      if ex.EndExclusive() <= cursor then CutFrom(cursor, end, excludes[1..])
      else if ex.startChannel >= end then Rest(cursor, end)
      else
        Rest(cursor, ex.startChannel) +
        if ex.EndExclusive() >= end then [] else CutFrom(ex.EndExclusive(), end, excludes[1..])
  }

  function CutAll(spans: seq<ChannelRange>, excludes: seq<ChannelRange>): seq<ChannelRange> {
    if spans == [] then []
    else CutFrom(spans[0].startChannel, spans[0].EndExclusive(), excludes) + CutAll(spans[1..], excludes)
  }

  /** The precomputed form of a configuration. */
  function SpansFor(config: RangeConfig, totalChannels: u32): seq<ChannelRange> {
    CutAll(SortByStart(ApplySpans(config, totalChannels)), SortByStart(config.exclude))
  }

  ghost predicate Within(rs: seq<ChannelRange>, from: int, to: int) {
    forall r <- rs :: from <= r.startChannel && r.startChannel + r.channelCount <= to
  }

  lemma OrderedAppend(a: seq<ChannelRange>, b: seq<ChannelRange>, at: int)
    requires Ordered(a) && Ordered(b)
    requires forall r <- a :: r.startChannel + r.channelCount <= at
    requires forall r <- b :: at <= r.startChannel
    ensures Ordered(a + b)
  {
  }

  lemma RestFits(cursor: u32, end: u32)
    requires 0 < cursor
    ensures Ordered(Rest(cursor, end)) && Within(Rest(cursor, end), cursor, end)
    ensures forall c :: InRanges(Rest(cursor, end), c) <==> cursor <= c < end
  {
  }

  /** Ranges that all start at or after a channel cover nothing before it. */
  lemma NothingBefore(rs: seq<ChannelRange>, at: int)
    requires forall r <- rs :: at <= r.startChannel
    ensures forall c :: c < at ==> !InRanges(rs, c)
  {
  }

  lemma {:induction false} CutFromOrdered(cursor: u32, end: u32, excludes: seq<ChannelRange>)
    requires 0 < cursor && NoWrap(excludes)
    ensures Ordered(CutFrom(cursor, end, excludes)) && Within(CutFrom(cursor, end, excludes), cursor, end)
    decreases |excludes|
  {
    RestFits(cursor, end);
    if excludes == [] {
    } else {
      var ex := excludes[0];
      RestFits(cursor, ex.startChannel);
      if ex.EndExclusive() <= cursor {
        CutFromOrdered(cursor, end, excludes[1..]);
      } else if ex.startChannel < end && ex.EndExclusive() < end {
        CutFromOrdered(ex.EndExclusive(), end, excludes[1..]);
        JoinPieces(Rest(cursor, ex.startChannel), CutFrom(ex.EndExclusive(), end, excludes[1..]),
                   cursor, ex.EndExclusive(), end);
      }
    }
  }

  lemma {:induction false} CutFromFits(cursor: u32, end: u32, excludes: seq<ChannelRange>)
    requires 0 < cursor && NoWrap(excludes) && LeftToRight(excludes)
    ensures forall c :: InRanges(CutFrom(cursor, end, excludes), c) <==> cursor <= c < end && !InRanges(excludes, c)
    decreases |excludes|
  {
    hide InRanges, NoWrap, LeftToRight, Rest, Ordered, Within;
    RestFits(cursor, end);
    if excludes == [] {
      NothingIn();
    } else {
      var ex, later := excludes[0], excludes[1..];
      FirstExclusion(excludes);
      if ex.EndExclusive() <= cursor {
        CutFromFits(cursor, end, later);
      } else if ex.startChannel < end {
        RestFits(cursor, ex.startChannel);
        if ex.EndExclusive() >= end {
          assert CutFrom(cursor, end, excludes) == Rest(cursor, ex.startChannel);
        } else {
          CutFromFits(ex.EndExclusive(), end, later);
          InRangesAppend(Rest(cursor, ex.startChannel), CutFrom(ex.EndExclusive(), end, later));
        }
      }
    }
  }

  lemma NothingIn()
    ensures forall c :: !InRanges([], c)
  {
  }

  /** Of exclusions from left to right: the first one, and the others behind its end. */
  lemma FirstExclusion(excludes: seq<ChannelRange>)
    requires excludes != [] && NoWrap(excludes) && LeftToRight(excludes)
    ensures var ex, later := excludes[0], excludes[1..];
            && !ex.Wraps() && NoWrap(later) && LeftToRight(later)
            && (forall c :: InRanges(excludes, c) <==> ex.Covers(c) || InRanges(later, c))
            && (forall c :: c < ex.EndExclusive() ==> !InRanges(later, c))
  {
    Head(excludes);
    NothingBefore(excludes[1..], excludes[0].EndExclusive());
  }

  lemma JoinPieces(a: seq<ChannelRange>, b: seq<ChannelRange>, from: int, middle: int, to: int)
    requires Ordered(a) && Ordered(b) && Within(a, from, middle) && Within(b, middle, to) && from <= middle <= to
    ensures Ordered(a + b) && Within(a + b, from, to)
  {
    OrderedAppend(a, b, middle);
  }

  lemma {:induction false} CutAllFits(spans: seq<ChannelRange>, excludes: seq<ChannelRange>)
    requires NoWrap(excludes) && LeftToRight(excludes)
    requires Ordered(spans)
    ensures Ordered(CutAll(spans, excludes))
    ensures spans != [] ==> forall r <- CutAll(spans, excludes) :: spans[0].startChannel <= r.startChannel
    ensures forall c :: InRanges(CutAll(spans, excludes), c) <==> InRanges(spans, c) && !InRanges(excludes, c)
  {
    if spans == [] {
    } else {
      var first, later := spans[0], spans[1..];
      Head(spans);
      CutFromOrdered(first.startChannel, first.EndExclusive(), excludes);
      CutFromFits(first.startChannel, first.EndExclusive(), excludes);
      CutAllFits(later, excludes);
      var pieces := CutFrom(first.startChannel, first.EndExclusive(), excludes);
      OrderedAppend(pieces, CutAll(later, excludes), first.EndExclusive());
      InRangesAppend(pieces, CutAll(later, excludes));
      assert forall c :: InRanges(spans, c) <==> first.Covers(c) || InRanges(later, c);
    }
  }

  lemma {:induction false} NothingToCut(cursor: u32, end: u32, excludes: seq<ChannelRange>)
    requires end <= cursor
    ensures CutFrom(cursor, end, excludes) == []
    decreases |excludes|
  {
    if excludes == [] {
    } else {
      NothingToCut(cursor, end, excludes[1..]);
    }
  }

  /** A span that wraps leaves nothing behind. */
  lemma {:induction false} CutAllUnwrapped(spans: seq<ChannelRange>, excludes: seq<ChannelRange>)
    ensures CutAll(spans, excludes) == CutAll(Unwrapped(spans), excludes)
  {
    if spans == [] {
    } else {
      CutAllUnwrapped(spans[1..], excludes);
      if spans[0].Wraps() {
        NothingToCut(spans[0].startChannel, spans[0].EndExclusive(), excludes);
        assert [] + CutAll(spans[1..], excludes) == CutAll(spans[1..], excludes);
      } else {
        assert Unwrapped(spans)[1..] == Unwrapped(spans[1..]);
      }
    }
  }

  /** What the spans of a valid configuration cover, each channel once. */
  lemma SpansForReach(config: RangeConfig, totalChannels: u32)
    requires ValidRanges(config, totalChannels) && NoWrap(config.exclude)
    ensures Ordered(SpansFor(config, totalChannels))
    ensures forall c :: InRanges(SpansFor(config, totalChannels), c) <==> Reached(config, totalChannels, c)
  {
    var spans := SortByStart(ApplySpans(config, totalChannels));
    var excludes := SortByStart(config.exclude);
    ValidSortedInOrder(config.exclude, totalChannels);
    NoneFiltered(excludes);
    if config.apply != [] {
      ValidSortedInOrder(config.apply, totalChannels);
    }
    CutAllUnwrapped(spans, excludes);
    CutAllFits(Unwrapped(spans), excludes);
    SameMembers(Unwrapped(spans), Unwrapped(ApplySpans(config, totalChannels)));
    SameMembers(excludes, config.exclude);
  }

  lemma {:induction false} NoneFiltered(rs: seq<ChannelRange>)
    requires NoWrap(rs)
    ensures Unwrapped(rs) == rs
  {
    if rs == [] {
    } else {
      Head(rs);
      NoneFiltered(rs[1..]);
      assert rs == [rs[0]] + rs[1..];
    }
  }

  /** Where nothing wraps, that is the per-channel rule. */
  lemma ReachedIsSelected(config: RangeConfig, totalChannels: u32, c: int)
    requires NoWrap(ApplySpans(config, totalChannels))
    ensures Reached(config, totalChannels, c) <==> Selected(config, totalChannels, c)
  {
    NoneFiltered(ApplySpans(config, totalChannels));
  }

  /** The fast form refines the per-channel rule exactly when no apply range wraps: one that does holds channel
      2^32 - 1, which no exclusion and no span can. */
  lemma SpansForFit(config: RangeConfig, totalChannels: u32)
    requires ValidRanges(config, totalChannels) && NoWrap(config.exclude)
    ensures SpansFit(SpansFor(config, totalChannels), config, totalChannels) <==>
            NoWrap(ApplySpans(config, totalChannels))
  {
    hide SpansFor, ValidRanges, Ordered;
    SpansForReach(config, totalChannels);
    var spans := ApplySpans(config, totalChannels);
    if NoWrap(spans) {
      NoneFiltered(spans);
    } else {
      var r :| r in spans && r.Wraps();
      assert r.Covers(0xFFFF_FFFF);
      assert Selected(config, totalChannels, 0xFFFF_FFFF) && !Reached(config, totalChannels, 0xFFFF_FFFF);
    }
  }

  lemma SameMembers(a: seq<ChannelRange>, b: seq<ChannelRange>)
    requires forall r :: r in a <==> r in b
    ensures forall c :: InRanges(a, c) <==> InRanges(b, c)
  {
  }

  /** The wrapped end of a universe of 2^32 - 1 channels leaves no span at all. */
  lemma FullUniverseHasNoSpan(exclude: seq<ChannelRange>)
    ensures SpansFor(RangeConfig([], exclude), 0xFFFF_FFFF) == []
  {
    var whole := WholeUniverse(0xFFFF_FFFF);
    var excludes := SortByStart(exclude);
    assert SortByStart([whole]) == [whole];
    CutFromEmpty(excludes);
    assert CutAll([whole], excludes) == CutFrom(1, 0, excludes) + CutAll([whole][1..], excludes);
  }

  /** With no apply range the default span fits, unless the universe has 2^32 - 1 channels. */
  lemma DefaultSpanFits(exclude: seq<ChannelRange>, totalChannels: u32)
    requires ValidList(exclude, totalChannels) && NoWrap(exclude)
    ensures SpansFit(SpansFor(RangeConfig([], exclude), totalChannels), RangeConfig([], exclude), totalChannels) <==>
            totalChannels != 0xFFFF_FFFF
  {
    assert ValidList([], totalChannels);
    SpansForFit(RangeConfig([], exclude), totalChannels);
    assert WholeUniverse(totalChannels) in [WholeUniverse(totalChannels)];
  }

  /** An exclusion that wrapped would be worse: channels scaled twice, and channels scaled that it holds. */
  lemma WrappedExclusionScalesTwice()
    ensures var config := RangeConfig([ChannelRange(1, 512)], [ChannelRange(100, 0xFFFF_FFA6)]);
            ValidRanges(config, 512) && SpansFor(config, 512) == [ChannelRange(1, 99), ChannelRange(10, 503)]
  {
    var span, ex := ChannelRange(1, 512), ChannelRange(100, 0xFFFF_FFA6);
    assert SortByStart([span]) == [span] && SortByStart([ex]) == [ex];
    assert [ex][1..] == [] && [span][1..] == [];
    assert CutFrom(10, 513, []) == [ChannelRange(10, 503)];
    assert CutAll([span], [ex]) == CutFrom(1, 513, [ex]) + CutAll([], [ex]);
  }

  lemma {:induction false} CutFromEmpty(excludes: seq<ChannelRange>)
    ensures CutFrom(1, 0, excludes) == []
  {
    if excludes == [] {
    } else {
      CutFromEmpty(excludes[1..]);
    }
  }
}
