/** The engine class of native/src/brightness.cpp, whose methods update its members and the frame buffer
    in place, proved against the state functions of Brightness and the per-channel rule of ChannelRanges. */
module BrightnessEngine {
  import opened Basics
  import opened Ordering
  import opened Fading
  import opened Brightness
  import opened ChannelRanges

  /** One channel value scaled to a percentage, rounding half up. */
  function Scale(v: byte, percent: int): (r: byte)
    requires 0 <= percent <= 100
    ensures r <= v
    ensures percent == 100 ==> r == v
    ensures percent == 0 ==> r == 0
    ensures 100 * r - 50 <= v * percent < 100 * r + 50
  {
    assert v * percent <= v * 100;
    (v * percent + 50) / 100
  }

  /** A byte r is what a byte v is dimmed to at this ceiling and gain: their product to the nearest percent, and the
      byte at that percentage to the nearest. */
  ghost predicate Dimmed(r: byte, v: byte, ceiling: real, gain: real) {
    exists percent: int :: Nearest(percent, Share(ceiling, gain)) && 100 * r - 50 <= v * percent < 100 * r + 50
  }

  /** In numbers: never off by more than half, and half a percent of the byte; nothing is changed at 100 with 100, and
      all is dark where either is 0. */
  lemma DimmedBounds(r: byte, v: byte, ceiling: real, gain: real)
    requires 0.0 <= ceiling <= 100.0 && 0.0 <= gain <= 100.0 && Dimmed(r, v, ceiling, gain)
    ensures var exact := v as real * Share(ceiling, gain) / 100.0;
            exact - v as real / 200.0 - 0.5 <= r as real <= exact + v as real / 200.0 + 0.5
    ensures ceiling == 100.0 && gain == 100.0 ==> r == v
    ensures ceiling == 0.0 || gain == 0.0 ==> r == 0
  {
    var x := Share(ceiling, gain);
    var percent: int :| Nearest(percent, x) && 100 * r - 50 <= v * percent < 100 * r + 50;
    ByteBounds(r, v, percent, x);
  }

  lemma ByteBounds(r: byte, v: byte, percent: int, x: real)
    requires Nearest(percent, x) && 100 * r - 50 <= v * percent < 100 * r + 50
    ensures var exact := v as real * x / 100.0;
            exact - v as real / 200.0 - 0.5 <= r as real <= exact + v as real / 200.0 + 0.5
    ensures x == 100.0 ==> r == v
    ensures x == 0.0 ==> r == 0
  {
    var w, p := v as real, percent as real;
    ProductNonNegative(w, x + 0.5 - p);
    ProductNonNegative(w, p - x + 0.5);
    assert w * p == (v * percent) as real;
    assert w * (x + 0.5 - p) == w * x + w * 0.5 - w * p && w * (p - x + 0.5) == w * p - w * x + w * 0.5;
  }

  lemma ScaledIsDimmed(e: Engine, now: int)
    requires e.content.InRange() && !e.gateClosed && 0 <= EffectivePercent(e, now) <= 100
    ensures forall v: byte :: Dimmed(Scale(v, EffectivePercent(e, now)), v, e.content.ceiling.ValueAt(now),
                                     e.content.gain.ValueAt(now))
  {
    PercentIsProduct(e, now);
    AllDimmed(EffectivePercent(e, now), e.content.ceiling.ValueAt(now), e.content.gain.ValueAt(now));
    hide EffectivePercent, Nearest, Dimmed, Share;
  }

  lemma AllDimmed(percent: int, ceiling: real, gain: real)
    requires 0 <= percent <= 100 && Nearest(percent, Share(ceiling, gain))
    ensures forall v: byte :: Dimmed(Scale(v, percent), v, ceiling, gain)
  {
    hide Nearest, Share;
    forall v: byte
      ensures Dimmed(Scale(v, percent), v, ceiling, gain)
    {
      var r := Scale(v, percent);
      assert Nearest(percent, Share(ceiling, gain)) && 100 * r - 50 <= v * percent < 100 * r + 50;
    }
  }

  lemma ScaleMonotone(v: byte, w: byte, p: int, q: int)
    requires v <= w && 0 <= p <= q <= 100
    ensures Scale(v, p) <= Scale(w, q)
  {
    ProductMonotone(v, w, p);
    ProductMonotone(p, q, w);
    var a, b := v * p, w * q;
    assert (a + 50) / 100 <= (b + 50) / 100;
  }

  lemma ProductMonotone(x: int, y: int, k: nat)
    requires x <= y
    ensures x * k <= y * k
  {
    assert (y - x) * k >= 0;
  }

  /** One frame as the precomputed spans leave it. */
  ghost predicate ScaledBy(was: seq<byte>, becomes: seq<byte>, spans: seq<ChannelRange>, percent: int)
    requires 0 <= percent <= 100
  {
    && |was| == |becomes|
    && forall i :: 0 <= i < |was| ==> becomes[i] == if InRanges(spans, i + 1) then Scale(was[i], percent) else was[i]
  }

  lemma Regroup<T>(a: seq<T>, b: seq<T>, c: seq<T>)
    ensures a + (b + c) == a + b + c
  {
  }

  /** Cuts the excluded channels, sorted by start, out of one span. */
  method SplitSpan(span: ChannelRange, excludes: seq<ChannelRange>) returns (pieces: seq<ChannelRange>)
    ensures pieces == CutFrom(span.startChannel, span.EndExclusive(), excludes)
  {
    pieces := [];
    var cursor: u32 := span.startChannel;
    var end := span.EndExclusive();
    ghost var whole := CutFrom(cursor, end, excludes);
    var k := 0;
    while k < |excludes|
      invariant 0 <= k <= |excludes|
      invariant whole == pieces + CutFrom(cursor, end, excludes[k..])
    {
      var ex := excludes[k];
      assert excludes[k..][1..] == excludes[k + 1..];
      if ex.EndExclusive() <= cursor {
        k := k + 1;
        continue;
      }
      if ex.startChannel >= end {
        break;
      }
      ghost var before := pieces;
      if ex.startChannel > cursor {
        pieces := pieces + [ChannelRange(cursor, ex.startChannel - cursor)];
      }
      assert pieces == before + Rest(cursor, ex.startChannel);
      assert ex.EndExclusive() < end ==> whole == pieces + CutFrom(ex.EndExclusive(), end, excludes[k + 1..]) by {
        if ex.EndExclusive() < end {
          Regroup(before, Rest(cursor, ex.startChannel), CutFrom(ex.EndExclusive(), end, excludes[k + 1..]));
        }
      }
      cursor := Max(cursor, ex.EndExclusive());
      k := k + 1;
      if cursor >= end {
        assert whole == pieces + [];
        break;
      }
    }
    if cursor < end {
      pieces := pieces + [ChannelRange(cursor, end - cursor)];
    }
  }

  /** The frame loop: spans from left to right, each cut off at the end of the buffer. */
  method ScaleSpans(spans: seq<ChannelRange>, percent: int, channelData: array<byte>)
    requires 0 <= percent <= 100
    modifies channelData
    ensures Ordered(spans) ==> ScaledBy(old(channelData[..]), channelData[..], spans, percent)
    ensures spans == [] ==> channelData[..] == old(channelData[..])
  {
    var n := channelData.Length;
    for k := 0 to |spans|
      invariant Ordered(spans) ==> ScaledBy(old(channelData[..]), channelData[..], spans[..k], percent)
      invariant k == 0 ==> channelData[..] == old(channelData[..])
    {
      var span := spans[k];
      assert spans[..k + 1] == spans[..k] + [span];
      InRangesAppend(spans[..k], [span]);
      assert forall c :: InRanges([span], c) <==> span.Covers(c);
      if span.startChannel == 0 {
        continue;
      }
      var begin := span.startChannel - 1;
      if begin >= n {
        continue;
      }
      var end := begin + span.channelCount;
      if end > n {
        end := n;
      }
      assert Ordered(spans) ==> forall c :: span.Covers(c) ==> !InRanges(spans[..k], c);
      ghost var was := channelData[..];
      for i := begin to end
        invariant forall j :: 0 <= j < n ==>
                    channelData[j] == if begin <= j < i then Scale(was[j], percent) else was[j]
      {
        channelData[i] := Scale(channelData[i], percent);
      }
    }
    assert spans[..|spans|] == spans;
  }

  /** native/src/brightness.cpp: BrightnessEngine. hash is the ordering hash of a Content. */
  class BrightnessEngine {
    const hash: Hash
    const ceiling: FadingValue
    const gain: FadingValue
    var ranges: RangeConfig
    var scaledSpans: seq<ChannelRange>
    var totalChannels: u32
    var revision: nat
    var stateChangedAtMillis: int
    var ceilingChangedAtMillis: int
    var instanceId: Bytes
    var lastAppliedCeiling: real
    var lastAppliedGain: real
    var gateClosed: bool
    var gateRevision: nat
    var orderingInstanceId: Bytes
    var orderingHash: Bytes

    ghost predicate Valid()
      reads this
    {
      ceiling != gain
    }

    /** The spans are either not computed yet or fit the configuration they were computed for. */
    ghost predicate SpansReady()
      reads this
    {
      scaledSpans != [] ==> scaledSpans == SpansFor(ranges, totalChannels)
    }

    function Channels(): (RangeConfig, u32, seq<ChannelRange>)
      reads this
    {
      (ranges, totalChannels, scaledSpans)
    }

    function State(): Engine
      reads this, ceiling, gain
    {
      Engine(instanceId, Content(ceiling.Value(), gain.Value()),
             Key(stateChangedAtMillis, orderingInstanceId, orderingHash),
             revision, ceilingChangedAtMillis, lastAppliedCeiling, lastAppliedGain, gateClosed, gateRevision)
    }

    constructor (hash: Hash)
      ensures Valid() && SpansReady() && fresh(ceiling) && fresh(gain) && this.hash == hash
      ensures State() == Fresh([])
      ensures ranges == RangeConfig([], []) && totalChannels == 0
    {
      this.hash := hash;
      ceiling := new FadingValue(100.0);
      gain := new FadingValue(100.0);
      ranges := RangeConfig([], []);
      scaledSpans := [];
      totalChannels := 0;
      revision, stateChangedAtMillis, ceilingChangedAtMillis, gateRevision := 0, 0, 0, 0;
      instanceId, orderingInstanceId, orderingHash := [], [], [];
      lastAppliedCeiling, lastAppliedGain := 100.0, 100.0;
      gateClosed := false;
    }

    method SetInstanceId(id: Bytes)
      requires Valid()
      modifies this
      ensures Channels() == old(Channels())
      ensures State() == old(State()).(id := id, key := old(State()).key.(id := id))
    {
      instanceId := id;
      orderingInstanceId := id;
    }

    method BumpRevision(now: int)
      requires Valid()
      modifies this
      ensures Channels() == old(Channels())
      ensures State() == Bumped(hash, old(State()), now)
    {
      revision := revision + 1;
      stateChangedAtMillis := Max(now, stateChangedAtMillis + 1);
      orderingInstanceId := instanceId;
      orderingHash := hash(Content(ceiling.Value(), gain.Value()));
    }

    method SetCeiling(targetPercent: int, fadeSeconds: int, now: int) returns (ok: bool)
      requires Valid()
      modifies this, ceiling
      ensures Channels() == old(Channels())
      ensures ok == Accepts(Command.SetCeiling(targetPercent, fadeSeconds), now)
      ensures State() == Commanded(hash, old(State()), Command.SetCeiling(targetPercent, fadeSeconds), now)
    {
      ok := ValidAction(targetPercent, fadeSeconds);
      if ok {
        ceiling.FadeTo(targetPercent as real, fadeSeconds * 1000, now);
        BumpRevision(now);
        ceilingChangedAtMillis := stateChangedAtMillis;
      }
    }

    method SetGain(targetPercent: int, fadeSeconds: int, now: int) returns (ok: bool)
      requires Valid()
      modifies this, gain
      ensures Channels() == old(Channels())
      ensures ok == Accepts(Command.SetGain(targetPercent, fadeSeconds), now)
      ensures State() == Commanded(hash, old(State()), Command.SetGain(targetPercent, fadeSeconds), now)
    {
      ok := ValidAction(targetPercent, fadeSeconds);
      if ok {
        gain.FadeTo(targetPercent as real, fadeSeconds * 1000, now);
        BumpRevision(now);
      }
    }

    method SetGainBetween(targetPercent: int, startMillis: int, endMillis: int, now: int) returns (ok: bool)
      requires Valid()
      modifies this, gain
      ensures Channels() == old(Channels())
      ensures ok == Accepts(Command.SetGainBetween(targetPercent, startMillis, endMillis), now)
      ensures State() == Commanded(hash, old(State()), Command.SetGainBetween(targetPercent, startMillis, endMillis),
                                   now)
    {
      ok := ValidAction(targetPercent, 0) && endMillis - Max(startMillis, now) <= MAX_FADE_SECONDS * 1000;
      if ok {
        gain.FadeBetween(targetPercent as real, startMillis, endMillis, now);
        BumpRevision(now);
      }
    }

    method SetWeatherGate(closed: bool, given: nat, now: int)
      requires Valid()
      modifies this
      ensures Channels() == old(Channels())
      ensures State() == Commanded(hash, old(State()), Command.SetWeatherGate(closed, given), now)
    {
      gateClosed := closed;
      var next := Min(gateRevision + 1, MAX_GATE_REVISION);
      gateRevision := Max(next, Min(given, MAX_GATE_REVISION));
      BumpRevision(now);
    }

    method CaptureState(now: int) returns (p: Payload)
      requires Valid()
      ensures p == Captured(State(), now)
    {
      p := Payload(SCHEMA_VERSION, revision, stateChangedAtMillis, instanceId, Content(ceiling.Value(), gain.Value()),
                   lastAppliedCeiling, lastAppliedGain, now, gateClosed, gateRevision, ceilingChangedAtMillis);
    }

    /** A peer's closed gate, taken before and independent of the ordering key. */
    method AdoptGate(p: Payload)
      requires Valid()
      modifies this`gateClosed, this`gateRevision, this`revision
      ensures State() == GateAdopted(old(State()), p)
    {
      if p.gateClosed && p.gateRevision > gateRevision {
        gateClosed := true;
        gateRevision := Min(p.gateRevision, MAX_GATE_REVISION);
        revision := revision + 1;
      }
    }

    method IsNewer(p: Payload, incomingHash: Bytes) returns (newer: bool)
      ensures newer == Key(stateChangedAtMillis, orderingInstanceId, orderingHash)
                       .Less(Key(p.changedAt, p.instanceId, incomingHash))
    {
      if p.changedAt != stateChangedAtMillis {
        newer := p.changedAt > stateChangedAtMillis;
      } else if p.instanceId != orderingInstanceId {
        newer := SeqLess(orderingInstanceId, p.instanceId);
      } else {
        newer := SeqLess(orderingHash, incomingHash);
      }
    }

    method AdoptState(p: Payload, now: int) returns (r: Adoption)
      requires Valid()
      modifies this, ceiling, gain
      ensures Channels() == old(Channels())
      ensures (State(), r) == Adopt(hash, old(State()), p, now)
    {
      if p.schemaVersion != SCHEMA_VERSION {
        return UnsupportedVersion;
      }
      AdoptGate(p);
      if !TimestampIsPlausible(p.changedAt) {
        return ImplausibleTimestamp;
      }
      if p.changedAt - MAX_KEY_AHEAD_MILLIS > now {
        return ImplausibleTimestamp;
      }
      if !FadeWindowIsPlausible(p.content.ceiling.startMillis, p.content.ceiling.endMillis) ||
         !FadeWindowIsPlausible(p.content.gain.startMillis, p.content.gain.endMillis) {
        return InvalidFadeWindow;
      }
      var incomingHash := hash(p.content);
      var newer := IsNewer(p, incomingHash);
      if !newer {
        return StaleRevision;
      }
      TakeState(p, incomingHash);
      r := Adopted;
    }

    /** The state and the key become exactly those received; only the revision is this node's own. */
    method TakeState(p: Payload, incomingHash: Bytes)
      requires Valid()
      modifies this`ceilingChangedAtMillis, this`stateChangedAtMillis, this`orderingInstanceId, this`orderingHash
      modifies this`revision, ceiling, gain
      ensures State() == old(State()).(content := ClampContent(p.content),
                                       key := Key(p.changedAt, p.instanceId, incomingHash),
                                       revision := old(State()).revision + 1,
                                       ceilingChangedAt := if TimestampIsPlausible(p.ceilingChangedAt)
                                                           then p.ceilingChangedAt else 0)
    {
      ceilingChangedAtMillis := if TimestampIsPlausible(p.ceilingChangedAt) then p.ceilingChangedAt else 0;
      ceiling.Restore(ClampFade(p.content.ceiling));
      gain.Restore(ClampFade(p.content.gain));
      stateChangedAtMillis := p.changedAt;
      orderingInstanceId := p.instanceId;
      orderingHash := incomingHash;
      revision := revision + 1;
    }

    method RestoreFade(value: FadingValue, f: Fade, applied: real, persistedAt: int, now: int)
      modifies value
      ensures value.Value() == RestoredFade(f, applied, persistedAt, now)
    {
      var safe := MinReal(ClampPercent(applied), ClampPercent(f.target));
      var shape := ClassifyWindow(f.startMillis, f.endMillis);
      if shape == NoFade {
        value.Settle(ClampPercent(f.target));
      } else if shape == Implausible {
        value.Settle(safe);
      } else if TimingIsTrustworthy(f.startMillis, f.endMillis, persistedAt, now) {
        value.Restore(ClampFade(f));
        var bound := ClampPercent(applied);
        if value.Value().ValueAt(now) > bound {
          if now < f.endMillis {
            value.Restore(Fade(bound, ClampPercent(f.target), now, f.endMillis));
          } else {
            value.Settle(bound);
          }
        }
      } else {
        value.Settle(safe);
      }
    }

    method SettleBoth(safeCeiling: real, safeGain: real)
      requires Valid()
      modifies this`lastAppliedCeiling, this`lastAppliedGain, ceiling, gain
      ensures State() == old(State()).(content := Content(Settled(safeCeiling), Settled(safeGain)),
                                       lastCeiling := safeCeiling, lastGain := safeGain)
    {
      ceiling.Settle(safeCeiling);
      gain.Settle(safeGain);
      lastAppliedCeiling := safeCeiling;
      lastAppliedGain := safeGain;
    }

    method RestoreFromPersisted(p: Payload, now: int) returns (r: Adoption)
      requires Valid()
      modifies this, ceiling, gain
      ensures Channels() == old(Channels())
      ensures (State(), r) == Restored(hash, old(State()), p, now)
    {
      var safeCeiling := MinReal(ClampPercent(p.lastCeiling), ClampPercent(p.content.ceiling.target));
      var safeGain := MinReal(ClampPercent(p.lastGain), ClampPercent(p.content.gain.target));
      gateClosed := p.gateClosed;
      gateRevision := Min(p.gateRevision, MAX_GATE_REVISION);
      if p.schemaVersion != SCHEMA_VERSION {
        SettleBoth(safeCeiling, safeGain);
        return UnsupportedVersion;
      }
      if !TimestampIsPlausible(p.changedAt) {
        SettleBoth(safeCeiling, safeGain);
        return ImplausibleTimestamp;
      }
      TakeRecord(p);
      RestoreFade(ceiling, p.content.ceiling, p.lastCeiling, p.persistedAt, now);
      RestoreFade(gain, p.content.gain, p.lastGain, p.persistedAt, now);
      r := Adopted;
    }

    /** Everything of a trusted record but its two fades. */
    method TakeRecord(p: Payload)
      requires Valid()
      modifies this`revision, this`stateChangedAtMillis, this`ceilingChangedAtMillis, this`instanceId
      modifies this`orderingInstanceId, this`orderingHash, this`lastAppliedCeiling, this`lastAppliedGain
      ensures State() == old(State()).(id := p.instanceId,
                                       key := Key(p.changedAt, p.instanceId, hash(p.content)),
                                       revision := p.revision,
                                       ceilingChangedAt := if TimestampIsPlausible(p.ceilingChangedAt)
                                                           then p.ceilingChangedAt else 0,
                                       lastCeiling := ClampPercent(p.lastCeiling),
                                       lastGain := ClampPercent(p.lastGain))
    {
      revision := p.revision;
      stateChangedAtMillis := p.changedAt;
      ceilingChangedAtMillis := if TimestampIsPlausible(p.ceilingChangedAt) then p.ceilingChangedAt else 0;
      instanceId := p.instanceId;
      orderingInstanceId := p.instanceId;
      orderingHash := hash(p.content);
      lastAppliedCeiling := ClampPercent(p.lastCeiling);
      lastAppliedGain := ClampPercent(p.lastGain);
    }

    method SettleSafeAfterUntrustedRestart(safeCeilingPercent: int, now: int, closed: bool, given: nat)
      requires Valid()
      modifies this, ceiling, gain
      ensures Channels() == old(Channels())
      ensures State() == SafeSettled(hash, old(State()), safeCeilingPercent, now, closed, given)
    {
      var safeCeiling := ClampPercent(safeCeilingPercent as real);
      ceiling.Settle(safeCeiling);
      gain.Settle(100.0);
      lastAppliedCeiling := safeCeiling;
      lastAppliedGain := 100.0;
      gateClosed := closed;
      gateRevision := Min(given, MAX_GATE_REVISION);
      BumpRevision(now);
    }

    method RecomputeScaledSpans()
      modifies this`scaledSpans
      ensures scaledSpans == SpansFor(ranges, totalChannels)
    {
      hide CutFrom, SortByStart, ApplySpans;
      var spans := SortByStart(ApplySpans(ranges, totalChannels));
      var excludes := SortByStart(ranges.exclude);
      scaledSpans := [];
      for i := 0 to |spans|
        invariant scaledSpans + CutAll(spans[i..], excludes) == SpansFor(ranges, totalChannels)
      {
        assert spans[i..][1..] == spans[i + 1..];
        var pieces := SplitSpan(spans[i], excludes);
        scaledSpans := scaledSpans + pieces;
      }
    }

    method ValidateOneList(list: seq<ChannelRange>, total: u32) returns (ok: bool)
      ensures ok == ValidList(list, total)
    {
      for k := 0 to |list|
        invariant forall r <- list[..k] :: Fits(r, total)
      {
        if !Fits(list[k], total) {
          assert list[k] in list;
          return false;
        }
      }
      assert list[..|list|] == list;
      var sorted := SortByStart(list);
      var i := 1;
      while i < |sorted|
        invariant forall j :: 1 <= j < i && j < |sorted| ==> sorted[j].startChannel >= sorted[j - 1].EndExclusive()
      {
        if sorted[i].startChannel < sorted[i - 1].EndExclusive() {
          return false;
        }
        i := i + 1;
      }
      ok := true;
    }

    method ConfigureRanges(config: RangeConfig, total: u32) returns (ok: bool)
      requires Valid() && SpansReady()
      modifies this
      ensures SpansReady() && State() == old(State())
      ensures ok == ValidRanges(config, total)
      ensures ok ==> ranges == config && totalChannels == total && scaledSpans == SpansFor(config, total)
      ensures !ok ==> ranges == old(ranges) && totalChannels == old(totalChannels) && scaledSpans == old(scaledSpans)
    {
      hide SpansFor, ValidList;
      ok := ValidateOneList(config.apply, total);
      if ok {
        ok := ValidateOneList(config.exclude, total);
      }
      if ok {
        ranges := config;
        totalChannels := total;
        RecomputeScaledSpans();
      }
    }

    method ApplyToFrame(channelData: array<byte>, now: int)
      requires Valid() && SpansReady()
      modifies this, channelData
      ensures SpansReady() && ranges == old(ranges) && totalChannels == old(totalChannels)
      ensures State() == FrameApplied(old(State()), now)
      ensures gateClosed ==> forall i :: 0 <= i < channelData.Length ==> channelData[i] == 0
      ensures !gateClosed && ValidRanges(ranges, totalChannels) && NoWrap(ranges.exclude) ==>
                forall i :: 0 <= i < channelData.Length ==>
                  channelData[i] == if Reached(ranges, totalChannels, i + 1)
                                    then Scale(old(channelData[i]), EffectivePercent(old(State()), now))
                                    else old(channelData[i])
      ensures !gateClosed && ValidRanges(ranges, totalChannels) && NoWrap(ranges.exclude)
              && State().content.InRange() ==>
                forall i :: 0 <= i < channelData.Length && Reached(ranges, totalChannels, i + 1) ==>
                  Dimmed(channelData[i], old(channelData[i]), ceiling.Value().ValueAt(now), gain.Value().ValueAt(now))
      ensures lastAppliedCeiling == ceiling.Value().ValueAt(now) && lastAppliedGain == gain.Value().ValueAt(now)
    {
      lastAppliedCeiling := ceiling.Value().ValueAt(now);
      lastAppliedGain := gain.Value().ValueAt(now);
      if channelData.Length == 0 {
        return;
      }
      if gateClosed {
        for i := 0 to channelData.Length
          invariant forall j :: 0 <= j < i ==> channelData[j] == 0
          modifies channelData
        {
          channelData[i] := 0;
        }
        return;
      }
      var percent := EffectivePercent(State(), now);
      EffectivePercentIsAPercent(State(), now);
      hide EffectivePercent, Scale, Dimmed;
      if State().content.InRange() {
        ScaledIsDimmed(State(), now);
      }
      if percent == 100 {
        return;
      }
      if scaledSpans == [] {
        RecomputeScaledSpans();
      }
      ScaleSpans(scaledSpans, percent, channelData);
      if ValidRanges(ranges, totalChannels) && NoWrap(ranges.exclude) {
        SpansForReach(ranges, totalChannels);
      }
    }
  }
}
