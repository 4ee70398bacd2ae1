/** The two channel-range settings and what an adapter makes of them (native/src/channel_ranges_setting.cpp). */
module ChannelRangesSetting {
  import opened Basics
  import opened Ordering
  import opened JsonBasics
  import opened JsonNumber
  import opened ChannelRanges
  import opened BrightnessEngine

  const COMMA: byte := 0x2C
  const HYPHEN: byte := 0x2D
  const MAX_CHANNEL := 0xFFFF_FFFF
  const MAX_64 := 0xFFFF_FFFF_FFFF_FFFF

  /** The ranges a setting can hold. */
  predicate Storable(r: ChannelRange) {
    r.startChannel > 0 && r.channelCount > 0 && r.startChannel + r.channelCount <= MAX_CHANNEL
  }

  predicate AllStorable(rs: seq<ChannelRange>) {
    forall r <- rs :: Storable(r)
  }

  /* ---- Cutting up the text ---- */

  /** How many bytes stand before the first b. */
  function Before(s: Bytes, b: byte): (n: nat)
    ensures n <= |s|
    ensures n < |s| ==> s[n] == b
    ensures forall i :: 0 <= i < n ==> s[i] != b
  {
    if s == [] || s[0] == b then 0 else 1 + Before(s[1..], b)
  }

  function TrimmedRight(s: Bytes): Bytes {
    if s != [] && IsSpace(s[|s| - 1]) then TrimmedRight(s[..|s| - 1]) else s
  }

  function Trimmed(s: Bytes): Bytes {
    TrimmedRight(s[Spaces(s)..])
  }

  /* ---- The strict form ---- */

  function WholeNumber(s: Bytes): Option<nat> {
    if s != [] && |s| <= 10 && AllDigits(s) then Some(NatOf(s)) else None
  }

  function StrictToken(token: Bytes): (r: Option<ChannelRange>)
    ensures r.Some? ==> Storable(r.value)
  {
    var dash := Before(token, HYPHEN);
    if dash == |token| then None
    else
      var start, count := WholeNumber(token[..dash]), WholeNumber(token[dash + 1..]);
      if start.None? || count.None? || start.value == 0 || count.value == 0
         || start.value + count.value > MAX_CHANNEL then None
      else Some(ChannelRange(start.value, count.value))
  }

  /** A list found so far with what the rest of the text gives. */
  function Behind(ranges: seq<ChannelRange>, rest: Option<seq<ChannelRange>>): (r: Option<seq<ChannelRange>>)
    ensures AllStorable(ranges) && (rest.Some? ==> AllStorable(rest.value)) && r.Some? ==> AllStorable(r.value)
  {
    if rest.None? then None else Some(ranges + rest.value)
  }

  function StrictFrom(s: Bytes): (r: Option<seq<ChannelRange>>)
    ensures r.Some? ==> AllStorable(r.value)
    decreases |s|
  {
    var comma := Before(s, COMMA);
    var range := StrictToken(Trimmed(s[..comma]));
    if range.None? then None
    else Behind([range.value], if comma == |s| then Some([]) else StrictFrom(s[comma + 1..]))
  }

  function ParseStrict(s: Bytes): (r: Option<seq<ChannelRange>>)
    ensures r.Some? ==> AllStorable(r.value)
  {
    if Trimmed(s) == [] then Some([]) else StrictFrom(s)
  }

  /* ---- The form that skips bad tokens: numbers are read the way strtoull reads them ---- */

  predicate IsCSpace(b: byte) {
    b == 0x20 || 0x09 <= b <= 0x0D
  }

  function CSpaces(s: Bytes): (n: nat)
    ensures n <= |s|
  {
    if s != [] && IsCSpace(s[0]) then 1 + CSpaces(s[1..]) else 0
  }

  /** The value strtoull gives a text it reads to the end; nothing when it stops before. */
  function LooseNumber(token: Bytes): Option<nat> {
    var s := token[..Before(token, 0)];
    var body := s[CSpaces(s)..];
    var signed := StartsWith(body, PLUS) || StartsWith(body, MINUS);
    var digits := if signed then body[1..] else body;
    if token == [] then None
    else if s == [] then Some(0)
    else if digits == [] || !AllDigits(digits) then None
    else
      var n := NatOf(digits);
      Some(if n > MAX_64 then MAX_64 else if signed && body[0] == MINUS && n > 0 then MAX_64 + 1 - n else n)
  }

  function LooseToken(token: Bytes): (r: Option<ChannelRange>)
    ensures r.Some? ==> Storable(r.value)
  {
    var dash := Before(token, HYPHEN);
    if dash == |token| then None
    else
      var start, count := LooseNumber(token[..dash]), LooseNumber(token[dash + 1..]);
      if start.Some? && count.Some? && 0 < start.value <= MAX_CHANNEL && 0 < count.value <= MAX_CHANNEL
         && start.value + count.value <= MAX_CHANNEL
      then Some(ChannelRange(start.value, count.value))
      else None
  }

  function ListOf(range: Option<ChannelRange>): seq<ChannelRange> {
    if range.Some? then [range.value] else []
  }

  function ParseLoose(s: Bytes): (r: seq<ChannelRange>)
    ensures AllStorable(r)
    decreases |s|
  {
    if s == [] then []
    else
      var comma := Before(s, COMMA);
      ListOf(LooseToken(s[..comma])) + if comma == |s| then [] else ParseLoose(s[comma + 1..])
  }

  /* ---- Printing ---- */

  function FormatOne(r: ChannelRange): (s: Bytes) {
    NatText(r.startChannel) + [HYPHEN] + NatText(r.channelCount)
  }

  function Format(rs: seq<ChannelRange>): Bytes {
    if rs == [] then []
    else if |rs| == 1 then FormatOne(rs[0])
    else FormatOne(rs[0]) + [COMMA] + Format(rs[1..])
  }

  /** A range as it is printed: where it starts, a hyphen, how many channels it has, in decimal. */
  ghost predicate IsRangeText(s: Bytes, r: ChannelRange) {
    exists k: nat ::
      k < |s| && s[k] == 0x2D && IsDecimal(s[..k], r.startChannel) && IsDecimal(s[k + 1..], r.channelCount)
  }

  /** Digits without a leading zero. */
  predicate IsDecimal(s: Bytes, n: nat) {
    s != [] && AllDigits(s) && NatOf(s) == n && (s[0] == 0x30 ==> s == [0x30])
  }

  /** A list of them, with commas between. */
  ghost predicate IsListText(s: Bytes, rs: seq<ChannelRange>) {
    if rs == [] then s == []
    else if |rs| == 1 then IsRangeText(s, rs[0])
    else exists k: nat :: k < |s| && s[k] == 0x2C && IsRangeText(s[..k], rs[0]) && IsListText(s[k + 1..], rs[1..])
  }

  lemma {:induction false} FormatIsListText(rs: seq<ChannelRange>)
    ensures IsListText(Format(rs), rs)
  {
    hide FormatOne, IsRangeText;
    if rs == [] {
    } else {
      FormatOneIsRangeText(rs[0]);
      if |rs| > 1 {
        FormatIsListText(rs[1..]);
        var s, k := Format(rs), |FormatOne(rs[0])|;
        assert s[..k] == FormatOne(rs[0]) && s[k] == 0x2C && s[k + 1..] == Format(rs[1..]);
      }
    }
  }

  lemma FormatOneIsRangeText(r: ChannelRange)
    ensures IsRangeText(FormatOne(r), r)
  {
    hide NatText, NatOf;
    var s, k := FormatOne(r), |NatText(r.startChannel)|;
    assert s[..k] == NatText(r.startChannel) && s[k] == 0x2D && s[k + 1..] == NatText(r.channelCount);
  }

  /* ---- What is printed is read back ---- */

  lemma {:induction false} BeforeIs(s: Bytes, b: byte, n: nat)
    requires n <= |s| && (n < |s| ==> s[n] == b) && forall i :: 0 <= i < n ==> s[i] != b
    ensures Before(s, b) == n
  {
  }

  lemma PrintedBytes(r: ChannelRange)
    ensures var s := FormatOne(r); s != [] && IsDigit(s[0]) && IsDigit(s[|s| - 1])
    ensures forall i :: 0 <= i < |FormatOne(r)| ==> IsDigit(FormatOne(r)[i]) || FormatOne(r)[i] == HYPHEN
  {
  }

  lemma PrintedDash(r: ChannelRange)
    ensures var s, dash := FormatOne(r), |NatText(r.startChannel)|;
            && Before(s, HYPHEN) == dash < |s|
            && s[..dash] == NatText(r.startChannel)
            && s[dash + 1..] == NatText(r.channelCount)
  {
    BeforeIs(FormatOne(r), HYPHEN, |NatText(r.startChannel)|);
  }

  lemma {:induction false} NatTextFits(n: nat, digits: nat)
    requires digits > 0 && n < Power10(digits)
    ensures |NatText(n)| <= digits
    decreases digits
  {
    if n < 10 {
    } else {
      NatTextFits(n / 10, digits - 1);
    }
  }

  function Power10(n: nat): nat {
    if n == 0 then 1 else 10 * Power10(n - 1)
  }

  lemma TenDigits(n: nat)
    requires n <= MAX_CHANNEL
    ensures WholeNumber(NatText(n)) == Some(n)
  {
    assert Power10(10) == 10 * (10 * (10 * (10 * (10 * (10 * (10 * (10 * (10 * (10 * Power10(0))))))))));
    NatTextFits(n, 10);
  }

  lemma StrictTokenIsRead(r: ChannelRange)
    ensures StrictToken(FormatOne(r)) == if Storable(r) then Some(r) else None
  {
    hide FormatOne, WholeNumber, Before, NatText;
    PrintedDash(r);
    TenDigits(r.startChannel);
    TenDigits(r.channelCount);
  }

  lemma LooseNumberIsRead(n: nat)
    requires n <= MAX_64
    ensures LooseNumber(NatText(n)) == Some(n)
  {
    hide NatText;
    var s := NatText(n);
    BeforeIs(s, 0, |s|);
    assert s[..|s|] == s && s[0..] == s;
  }

  lemma LooseTokenIsRead(r: ChannelRange)
    ensures LooseToken(FormatOne(r)) == if Storable(r) then Some(r) else None
  {
    hide FormatOne, LooseNumber, Before, NatText;
    PrintedDash(r);
    LooseNumberIsRead(r.startChannel);
    LooseNumberIsRead(r.channelCount);
  }

  lemma PrintedTrimmed(r: ChannelRange)
    ensures Trimmed(FormatOne(r)) == FormatOne(r)
  {
  }

  /** The first token of a printed list, and what follows it. */
  lemma PrintedComma(rs: seq<ChannelRange>)
    requires rs != []
    ensures var s, comma := Format(rs), Before(Format(rs), COMMA);
            && comma == |FormatOne(rs[0])| && s[..comma] == FormatOne(rs[0])
            && (comma == |s| <==> |rs| == 1)
            && (comma < |s| ==> s[comma + 1..] == Format(rs[1..]))
  {
    hide FormatOne;
    PrintedBytes(rs[0]);
    var s := Format(rs);
    BeforeIs(s, COMMA, |FormatOne(rs[0])|);
  }

  lemma {:induction false} StrictIsRead(rs: seq<ChannelRange>)
    requires rs != [] && AllStorable(rs)
    ensures StrictFrom(Format(rs)) == Some(rs)
  {
    hide Format, FormatOne, StrictToken, Trimmed, Before;
    PrintedComma(rs);
    PrintedTrimmed(rs[0]);
    StrictTokenIsRead(rs[0]);
    assert rs == [rs[0]] + rs[1..];
    if |rs| == 1 {
      assert rs[1..] == [];
    } else {
      StrictIsRead(rs[1..]);
    }
  }

  /** Strict parsing undoes printing for exactly the lists a setting can hold. */
  lemma StrictParseUndoesFormat(rs: seq<ChannelRange>)
    ensures ParseStrict(Format(rs)) == Some(rs) <==> AllStorable(rs)
  {
    if rs != [] && AllStorable(rs) {
      StrictIsRead(rs);
      PrintedIsNotBlank(rs);
    }
  }

  lemma PrintedIsNotBlank(rs: seq<ChannelRange>)
    requires rs != []
    ensures Trimmed(Format(rs)) != []
  {
    hide FormatOne;
    PrintedComma(rs);
    PrintedBytes(rs[0]);
    var s := Format(rs);
    assert s[0] == FormatOne(rs[0])[0];
    SpacesAre(s, 0);
    assert s[0..] == s;
    TrimmedKeepsFront(s);
  }

  lemma {:induction false} TrimmedKeepsFront(s: Bytes)
    requires s != [] && !IsSpace(s[0])
    ensures TrimmedRight(s) != []
  {
    if IsSpace(s[|s| - 1]) {
      TrimmedKeepsFront(s[..|s| - 1]);
    }
  }

  function Kept(rs: seq<ChannelRange>): seq<ChannelRange> {
    if rs == [] then [] else (if Storable(rs[0]) then [rs[0]] else []) + Kept(rs[1..])
  }

  /** The loose parser reads what it can of any printed list, so all of one a setting can hold. */
  lemma {:induction false} LooseParseOfFormat(rs: seq<ChannelRange>)
    ensures ParseLoose(Format(rs)) == Kept(rs)
    ensures ParseLoose(Format(rs)) == rs <==> AllStorable(rs)
  {
    hide FormatOne, LooseToken, Before;
    if rs == [] {
    } else {
      PrintedComma(rs);
      PrintedBytes(rs[0]);
      LooseTokenIsRead(rs[0]);
      LooseParseOfFormat(rs[1..]);
      assert Kept(rs) == ListOf(LooseToken(FormatOne(rs[0]))) + Kept(rs[1..]);
      KeptIsAll(rs);
    }
  }

  lemma {:induction false} KeptIsAll(rs: seq<ChannelRange>)
    ensures |Kept(rs)| <= |rs|
    ensures Kept(rs) == rs <==> AllStorable(rs)
  {
    if rs == [] {
    } else {
      KeptIsAll(rs[1..]);
      Head(rs);
      assert rs == [rs[0]] + rs[1..];
      assert Storable(rs[0]) ==> Kept(rs)[1..] == Kept(rs[1..]);
    }
  }

  /* ---- From settings to the engine ---- */

  /** What an adapter reads before it configures the engine. */
  datatype Sources = Sources(applySetting: Bytes, excludeSetting: Bytes, outputRanges: seq<ChannelRange>)

  /** The lists configureApplyRanges tries, in its order. */
  function Candidates(setting: seq<ChannelRange>, outputRanges: seq<ChannelRange>, total: u32): seq<seq<ChannelRange>> {
    (if setting == [] then [] else [setting]) + (if outputRanges == [] then [] else [outputRanges])
    + [[ChannelRange(1, total)]]
  }

  /** The first list that passes validation. */
  function FirstValid(lists: seq<seq<ChannelRange>>, total: u32): (r: Option<seq<ChannelRange>>)
    ensures r.Some? ==> r.value in lists && ValidList(r.value, total)
    ensures r.None? ==> forall list <- lists :: !ValidList(list, total)
  {
    if lists == [] then None
    else if ValidList(lists[0], total) then Some(lists[0])
    else FirstValid(lists[1..], total)
  }

  function ExclusionsRead(text: Bytes, total: u32): Option<seq<ChannelRange>> {
    var parsed := ParseStrict(text);
    if parsed.Some? && ValidList(parsed.value, total) then parsed else None
  }

  function ExclusionsFor(text: Bytes, total: u32, current: seq<ChannelRange>): seq<ChannelRange> {
    var read := ExclusionsRead(text, total);
    if read.Some? then read.value else current
  }

  /** What the engine holds after the call; nothing when it refused every list. */
  function Configured(sources: Sources, total: u32, current: seq<ChannelRange>): Option<RangeConfig> {
    var exclude := ExclusionsFor(sources.excludeSetting, total, current);
    var apply := FirstValid(Candidates(ParseLoose(sources.applySetting), sources.outputRanges, total), total);
    if !ValidList(exclude, total) || apply.None? then None else Some(RangeConfig(apply.value, exclude))
  }

  lemma WholeBufferIsValid(total: u32)
    ensures ValidList([ChannelRange(1, total)], total) <==> total > 0
  {
  }

  /** The last resort never fails but for a host without channels, so that exactly these calls leave the engine as it
      was: the exclusions it would keep no longer fit, or there are no channels and no list to fall back on. */
  lemma ConfiguredIff(sources: Sources, total: u32, current: seq<ChannelRange>)
    ensures var setting, output := ParseLoose(sources.applySetting), sources.outputRanges;
            Configured(sources, total, current).Some? <==>
            && (ExclusionsRead(sources.excludeSetting, total).Some? || ValidList(current, total))
            && (total > 0 || (setting != [] && ValidList(setting, total)) || (output != [] && ValidList(output, total)))
  {
    hide ValidList, ParseLoose;
    WholeBufferIsValid(total);
    var setting, output := ParseLoose(sources.applySetting), sources.outputRanges;
    var lists := Candidates(setting, output, total);
    assert ChannelRange(1, total) in lists[|lists| - 1] && lists[|lists| - 1] in lists;
    assert setting != [] ==> setting == lists[0];
    assert output != [] ==> output == lists[|lists| - 2];
  }

  /** A range list that was stored is the list a later start configures: every kept exclusion is kept. */
  lemma StoredExclusionsComeBack(rs: seq<ChannelRange>, apply: Bytes, output: seq<ChannelRange>, total: u32,
                                 current: seq<ChannelRange>)
    requires AllStorable(rs) && ValidList(rs, total) && total > 0
    ensures Configured(Sources(apply, Format(rs), output), total, current).Some?
    ensures Configured(Sources(apply, Format(rs), output), total, current).value.exclude == rs
  {
    hide ValidList, ParseLoose, ParseStrict, Format;
    StrictParseUndoesFormat(rs);
    ConfiguredIff(Sources(apply, Format(rs), output), total, current);
  }

  lemma StoredApplyListComesBack(rs: seq<ChannelRange>, exclude: Bytes, output: seq<ChannelRange>, total: u32,
                                 current: seq<ChannelRange>)
    requires rs != [] && AllStorable(rs) && ValidList(rs, total)
    requires ValidList(ExclusionsFor(exclude, total, current), total)
    ensures Configured(Sources(Format(rs), exclude, output), total, current) ==
            Some(RangeConfig(rs, ExclusionsFor(exclude, total, current)))
  {
    hide ValidList, ParseLoose, ParseStrict, Format;
    LooseParseOfFormat(rs);
    assert Candidates(rs, output, total)[0] == rs;
  }

  /** What a configured engine can rely on. Its exclusions never wrap and are apart. Its apply ranges are apart exactly
      if none wraps but the one that starts last, and the frame loop scales exactly the selected channels exactly if
      none wraps at all: only FPP's own output ranges can break either, and the whole buffer at 2^32 - 1 channels the
      second. */
  lemma ConfiguredFits(sources: Sources, total: u32, current: seq<ChannelRange>)
    requires Configured(sources, total, current).Some? && NoWrap(current)
    ensures var config := Configured(sources, total, current).value;
            && NoWrap(config.exclude) && AllApart(config.exclude)
            && (AllApart(config.apply) <==> OnlyLastWraps(SortByStart(config.apply)))
            && (SpansFit(SpansFor(config, total), config, total) <==> NoWrap(config.apply))
            && (config.apply != sources.outputRanges ==>
                  AllApart(config.apply) && (NoWrap(config.apply) <==> config.apply != [ChannelRange(1, 0xFFFF_FFFF)]))
  {
    var config := Configured(sources, total, current).value;
    var setting := ParseLoose(sources.applySetting);
    hide ParseLoose, ParseStrict, SpansFor, SpansFit, AllApart, SortByStart, OnlyLastWraps, NeighboursApart;
    assert config.apply in Candidates(setting, sources.outputRanges, total);
    StorableDoNotWrap(setting);
    StorableDoNotWrap(config.exclude);
    ValidListMeansApart(config.exclude, total);
    ValidListMeansApart(config.apply, total);
    SpansForFit(config, total);
    WholeBufferIsValid(total);
    if config.apply != setting && config.apply != sources.outputRanges {
      WholeIsApart(total);
    }
  }

  lemma StorableDoNotWrap(rs: seq<ChannelRange>)
    ensures AllStorable(rs) ==> NoWrap(rs) && rs != [ChannelRange(1, 0xFFFF_FFFF)]
  {
    var whole := [ChannelRange(1, 0xFFFF_FFFF)];
    assert rs == whole ==> whole[0] in rs;
  }

  lemma WholeIsApart(total: u32)
    ensures AllApart([ChannelRange(1, total)])
    ensures NoWrap([ChannelRange(1, total)]) <==> total != 0xFFFF_FFFF
  {
    var whole := ChannelRange(1, total);
    assert whole in [whole];
  }

  /** Output ranges that share channels do reach the engine, when no setting comes before them. */
  lemma OverlapReachesTheEngine(total: u32)
    requires total == 0 || 11 <= total < 0xFFFF_FFFF
    ensures var output := [ChannelRange(7, 0xFFFF_FFFA), ChannelRange(9, 3)];
            !AllApart(output) && Configured(Sources([], [], output), total, []) == Some(RangeConfig(output, []))
  {
    hide EachFits;
    var output := [ChannelRange(7, 0xFFFF_FFFA), ChannelRange(9, 3)];
    WrappedOverlapIsAccepted(total);
    assert ParseStrict([]) == Some([]) && ParseLoose([]) == [];
    NothingIsValid(total);
    assert Candidates([], output, total)[0] == output;
    hide ParseStrict, ParseLoose, ValidList;
  }

  lemma NothingIsValid(total: u32)
    ensures ValidList([], total)
  {
  }

  /* ---- The loops ---- */

  method FindByte(text: Bytes, b: byte, from: nat) returns (at: nat)
    requires from <= |text|
    ensures at == from + Before(text[from..], b)
  {
    at := from;
    while at < |text| && text[at] != b
      invariant from <= at <= |text|
      invariant from + Before(text[from..], b) == at + Before(text[at..], b)
    {
      assert text[at..][1..] == text[at + 1..];
      at := at + 1;
    }
  }

  lemma StrictStep(value: Bytes, pos: nat, comma: nat, ranges: seq<ChannelRange>)
    requires pos <= comma <= |value| && comma == pos + Before(value[pos..], COMMA)
    ensures var range := StrictToken(Trimmed(value[pos..comma]));
            Behind(ranges, StrictFrom(value[pos..])) ==
            if range.None? then None
            else Behind(ranges + [range.value], if comma == |value| then Some([]) else StrictFrom(value[comma + 1..]))
  {
    hide Trimmed, StrictToken, Before;
    var s := value[pos..];
    assert s[..comma - pos] == value[pos..comma];
    var range := StrictToken(Trimmed(value[pos..comma]));
    var rest := if comma == |value| then Some([]) else StrictFrom(value[comma + 1..]);
    if comma < |value| {
      assert s[comma - pos + 1..] == value[comma + 1..];
    }
    if range.Some? && rest.Some? {
      assert ranges + ([range.value] + rest.value) == ranges + [range.value] + rest.value;
    }
  }

  lemma LooseUnfolds(s: Bytes)
    requires s != []
    ensures var comma := Before(s, COMMA);
            ParseLoose(s) == ListOf(LooseToken(s[..comma])) + if comma == |s| then [] else ParseLoose(s[comma + 1..])
  {
    hide LooseToken, Before;
  }

  lemma LooseStep(value: Bytes, pos: nat, comma: nat)
    requires pos <= comma <= |value| && pos < |value| && comma == pos + Before(value[pos..], COMMA)
    ensures ParseLoose(value[pos..]) == ListOf(LooseToken(value[pos..comma]))
                                        + if comma == |value| then [] else ParseLoose(value[comma + 1..])
  {
    hide LooseToken, Before, ParseLoose;
    var s := value[pos..];
    LooseUnfolds(s);
    assert s[..comma - pos] == value[pos..comma];
    if comma < |value| {
      assert s[comma - pos + 1..] == value[comma + 1..];
    }
  }

  method ParseChannelRangesSettingStrict(value: Bytes) returns (ok: bool, ranges: seq<ChannelRange>)
    ensures (if ok then Some(ranges) else None) == ParseStrict(value)
    ensures !ok ==> ranges == []
  {
    hide Trimmed, StrictToken, Before, StrictFrom;
    ok, ranges := true, [];
    if Trimmed(value) == [] {
      return;
    }
    var pos := 0;
    assert value[0..] == value;
    BehindNothing(StrictFrom(value));
    while true
      invariant ok && pos <= |value|
      invariant StrictFrom(value) == Behind(ranges, StrictFrom(value[pos..]))
      decreases |value| - pos
    {
      var comma := FindByte(value, COMMA, pos);
      StrictStep(value, pos, comma, ranges);
      var range := StrictToken(Trimmed(value[pos..comma]));
      if range.None? {
        ok, ranges := false, [];
        return;
      }
      ranges := ranges + [range.value];
      if comma == |value| {
        assert ranges + [] == ranges;
        return;
      }
      pos := comma + 1;
    }
  }

  method ParseChannelRangesSetting(value: Bytes) returns (ranges: seq<ChannelRange>)
    ensures ranges == ParseLoose(value)
  {
    hide LooseToken, Before, ParseLoose;
    ranges := [];
    var pos := 0;
    assert value[0..] == value;
    while pos < |value|
      invariant pos <= |value|
      invariant ParseLoose(value) == ranges + ParseLoose(value[pos..])
    {
      var comma := FindByte(value, COMMA, pos);
      LooseStep(value, pos, comma);
      ranges := ranges + ListOf(LooseToken(value[pos..comma]));
      if comma == |value| {
        assert ranges + [] == ranges;
        return;
      }
      pos := comma + 1;
    }
    assert value[pos..] == [];
    NothingLoose();
  }

  lemma NothingLoose()
    ensures ParseLoose([]) == []
  {
  }

  lemma BehindNothing(r: Option<seq<ChannelRange>>)
    ensures Behind([], r) == r
  {
    if r.Some? {
      assert [] + r.value == r.value;
    }
  }

  method FormatChannelRangesSetting(ranges: seq<ChannelRange>) returns (text: Bytes)
    ensures text == Format(ranges)
  {
    hide FormatOne, Format;
    text := [];
    assert ranges[0..] == ranges;
    for i := 0 to |ranges|
      invariant text == [] <==> i == 0
      invariant Format(ranges) == (text + Lead(ranges, i)) + Format(ranges[i..])
    {
      PrintedBytes(ranges[i]);
      FormatUnfold(ranges, i);
      ghost var before := text + Lead(ranges, i);
      if text != [] {
        text := text + [COMMA];
      }
      text := text + FormatOne(ranges[i]);
      assert before + FormatOne(ranges[i]) == text;
      Regroup(before, FormatOne(ranges[i]), Lead(ranges, i + 1), Format(ranges[i + 1..]));
    }
    FormatNothing();
    assert ranges[|ranges|..] == [] && text + [] == text;
  }

  /** The comma before the range at i. */
  ghost function Lead(ranges: seq<ChannelRange>, i: nat): Bytes {
    if 0 < i < |ranges| then [COMMA] else []
  }

  lemma FormatUnfold(ranges: seq<ChannelRange>, i: nat)
    requires i < |ranges|
    ensures Format(ranges[i..]) == FormatOne(ranges[i]) + (Lead(ranges, i + 1) + Format(ranges[i + 1..]))
  {
    hide FormatOne;
    var rest := ranges[i..];
    assert rest[1..] == ranges[i + 1..];
  }

  lemma FormatNothing()
    ensures Format([]) == []
  {
  }

  lemma Regroup(a: Bytes, b: Bytes, c: Bytes, d: Bytes)
    ensures a + (b + (c + d)) == a + b + c + d
  {
  }

  method ConfigureApplyRanges(setting: seq<ChannelRange>, outputRanges: seq<ChannelRange>, exclude: seq<ChannelRange>,
                              total: u32, engine: BrightnessEngine)
    requires engine.Valid() && engine.SpansReady()
    modifies engine
    ensures engine.SpansReady() && engine.State() == old(engine.State())
    ensures var apply := FirstValid(Candidates(setting, outputRanges, total), total);
            if ValidList(exclude, total) && apply.Some? then
              engine.Channels() == (RangeConfig(apply.value, exclude), total,
                                    SpansFor(RangeConfig(apply.value, exclude), total))
            else engine.Channels() == old(engine.Channels())
  {
    hide ValidList, SpansFor;
    if setting != [] {
      var ok := engine.ConfigureRanges(RangeConfig(setting, exclude), total);
      if ok {
        return;
      }
    }
    if outputRanges != [] {
      var ok := engine.ConfigureRanges(RangeConfig(outputRanges, exclude), total);
      if ok {
        return;
      }
    }
    var whole := [ChannelRange(1, total)];
    var _ := engine.ConfigureRanges(RangeConfig(whole, exclude), total);
  }

  /** lastRejected is what the caller remembers of the last bad exclusion text, so that each is reported once. */
  method ConfigureChannelRangesFrom(sources: Sources, total: u32, engine: BrightnessEngine, lastRejected: Bytes)
    returns (rejected: Bytes, reported: bool)
    requires engine.Valid() && engine.SpansReady()
    modifies engine
    ensures engine.SpansReady() && engine.State() == old(engine.State())
    ensures var config := Configured(sources, total, old(engine.ranges.exclude));
            engine.Channels() == if config.Some? then (config.value, total, SpansFor(config.value, total))
                                 else old(engine.Channels())
    ensures var good := ExclusionsRead(sources.excludeSetting, total).Some?;
            && rejected == (if good then [] else sources.excludeSetting)
            && reported == (!good && lastRejected != sources.excludeSetting)
  {
    hide ValidList, SpansFor, FirstValid, ParseStrict, ParseLoose;
    rejected, reported := lastRejected, false;
    var exclude := engine.ranges.exclude;
    var ok, excluded := ParseChannelRangesSettingStrict(sources.excludeSetting);
    if ok {
      ok := ValidList(excluded, total);
    }
    if ok {
      exclude, rejected := excluded, [];
    } else if lastRejected != sources.excludeSetting {
      rejected, reported := sources.excludeSetting, true;
    }
    var setting := ParseChannelRangesSetting(sources.applySetting);
    ConfigureApplyRanges(setting, sources.outputRanges, exclude, total, engine);
  }
}
