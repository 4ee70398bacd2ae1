/** What the two readers of a channel setting take (native/src/channel_ranges_setting.cpp:10-92), spelled out. */
module SettingGrammar {
  import opened Basics
  import opened Ordering
  import opened JsonBasics
  import opened JsonNumber
  import opened ChannelRanges
  import opened ChannelRangesSetting

  /* ---- One token, strictly ---- */

  /** One to ten digits. */
  predicate IsCount(s: Bytes, n: nat) {
    1 <= |s| <= 10 && AllDigits(s) && NatOf(s) == n
  }

  /** A channel of its own to start at, a hyphen, and how many: none of them past 2^32 - 1. */
  predicate IsToken(s: Bytes, r: ChannelRange, k: nat) {
    && k < |s| && s[k] == 0x2D && IsCount(s[..k], r.startChannel) && IsCount(s[k + 1..], r.channelCount)
    && r.startChannel > 0 && r.channelCount > 0 && r.startChannel + r.channelCount <= 0xFFFF_FFFF
  }

  lemma TokenIff(s: Bytes, r: ChannelRange)
    ensures StrictToken(s) == Some(r) <==> exists k: nat :: IsToken(s, r, k)
  {
    var dash := Before(s, HYPHEN);
    if StrictToken(s) == Some(r) {
      assert IsToken(s, r, dash);
    }
    forall k: nat | IsToken(s, r, k)
      ensures StrictToken(s) == Some(r)
    {
      FirstHyphen(s, k);
    }
  }

  /** Digits are no hyphens. */
  lemma FirstHyphen(s: Bytes, k: nat)
    requires k < |s| && s[k] == HYPHEN && AllDigits(s[..k])
    ensures Before(s, HYPHEN) == k
  {
    assert forall i :: 0 <= i < k ==> s[..k][i] == s[i];
  }

  /* ---- White space around it ---- */

  predicate Blank(s: Bytes) {
    forall i :: 0 <= i < |s| ==> s[i] == 0x20 || s[i] == 0x09 || s[i] == 0x0A || s[i] == 0x0D
  }

  /** Between i and j stands what is left without white space on either side. */
  predicate IsTrimmed(s: Bytes, i: nat, j: nat) {
    && i <= j <= |s| && Blank(s[..i]) && Blank(s[j..])
    && (i < j ==> !Blank([s[i]]) && !Blank([s[j - 1]]))
  }

  lemma {:induction false} TrimmedRightIs(s: Bytes) returns (j: nat)
    ensures j <= |s| && TrimmedRight(s) == s[..j] && Blank(s[j..]) && (j > 0 ==> !Blank([s[j - 1]]))
    decreases |s|
  {
    if s != [] && IsSpace(s[|s| - 1]) {
      var t := s[..|s| - 1];
      j := TrimmedRightIs(t);
      assert t[..j] == s[..j] && s[j..] == t[j..] + [s[|s| - 1]];
    } else {
      j := |s|;
      assert s[..j] == s;
      if s != [] {
        assert [s[j - 1]][0] == s[j - 1];
      }
    }
  }

  lemma TrimmedIs(s: Bytes) returns (i: nat, j: nat)
    ensures IsTrimmed(s, i, j) && Trimmed(s) == s[i..j]
  {
    i := Spaces(s);
    var t := s[i..];
    var k := TrimmedRightIs(t);
    j := i + k;
    assert t[..k] == s[i..j] && t[k..] == s[j..];
    if i < j {
      assert [s[i]][0] == s[i] && t[k - 1] == s[j - 1];
    }
  }

  /** There is but one way to trim. */
  lemma TrimmedIff(s: Bytes, i: nat, j: nat)
    requires IsTrimmed(s, i, j)
    ensures Trimmed(s) == s[i..j]
  {
    var p, q := TrimmedIs(s);
    if i < j {
      SameEnds(s, i, j, p, q);
      SameEnds(s, p, q, i, j);
    } else {
      assert forall k :: 0 <= k < |s| ==> s[k] == if k < i then s[..i][k] else s[j..][k - j];
      assert s[i..j] == [] == s[p..q];
    }
  }

  lemma SameEnds(s: Bytes, i: nat, j: nat, p: nat, q: nat)
    requires IsTrimmed(s, i, j) && IsTrimmed(s, p, q) && i < j
    ensures p <= i && j <= q && p < q
  {
  }

  /* ---- The whole setting, strictly ---- */

  /** A token with white space around it, and no comma. */
  ghost predicate IsItem(s: Bytes, r: ChannelRange) {
    0x2C !in s && exists i: nat, j: nat, k: nat :: IsTrimmed(s, i, j) && IsToken(s[i..j], r, k)
  }

  /** One of them for each range, with commas between. */
  ghost predicate IsSetting(s: Bytes, rs: seq<ChannelRange>) {
    if rs == [] then false
    else if |rs| == 1 then IsItem(s, rs[0])
    else exists k: nat :: k < |s| && s[k] == 0x2C && IsItem(s[..k], rs[0]) && IsSetting(s[k + 1..], rs[1..])
  }

  /** The strict reader takes white space as no ranges, and otherwise exactly such lists. */
  lemma StrictIff(s: Bytes, rs: seq<ChannelRange>)
    ensures ParseStrict(s) == Some(rs) <==> if Blank(s) then rs == [] else IsSetting(s, rs)
  {
    hide StrictFrom, IsSetting, Trimmed;
    BlankIff(s);
    StrictFromIff(s, rs);
  }

  lemma BlankIff(s: Bytes)
    ensures Trimmed(s) == [] <==> Blank(s)
  {
    hide Trimmed;
    var i, j := TrimmedIs(s);
    if i < j {
      assert [s[i]][0] == s[i];
    } else {
      assert forall k :: 0 <= k < |s| ==> s[k] == if k < i then s[..i][k] else s[j..][k - j];
    }
  }

  lemma ItemIff(s: Bytes, r: ChannelRange)
    requires 0x2C !in s
    ensures StrictToken(Trimmed(s)) == Some(r) <==> IsItem(s, r)
  {
    hide Trimmed, StrictToken, IsToken, IsTrimmed;
    var i, j := TrimmedIs(s);
    TokenIff(s[i..j], r);
    forall p: nat, q: nat | IsTrimmed(s, p, q)
      ensures p <= q <= |s| && s[p..q] == s[i..j]
    {
      TrimmedIff(s, p, q);
      TrimmedWithin(s, p, q);
    }
  }

  lemma TrimmedWithin(s: Bytes, i: nat, j: nat)
    requires IsTrimmed(s, i, j)
    ensures i <= j <= |s|
  {
  }

  lemma {:induction false} StrictFromIff(s: Bytes, rs: seq<ChannelRange>)
    ensures StrictFrom(s) == Some(rs) <==> IsSetting(s, rs)
    decreases |s|
  {
    hide StrictToken, Trimmed, IsItem;
    var comma := Before(s, 0x2C);
    assert 0x2C !in s[..comma];
    if rs != [] {
      ItemIff(s[..comma], rs[0]);
      assert rs == [rs[0]] + rs[1..];
      if comma < |s| {
        StrictFromIff(s[comma + 1..], rs[1..]);
        ItemHasNoComma(s, rs[0]);
        forall k: nat | k < |s| && s[k] == 0x2C && IsItem(s[..k], rs[0])
          ensures k == comma
        {
          ItemEndsAtComma(s, rs[0], k);
        }
      } else {
        assert s[..comma] == s;
      }
    }
  }

  lemma ItemHasNoComma(s: Bytes, r: ChannelRange)
    ensures 0x2C in s ==> !IsItem(s, r)
  {
  }

  lemma ItemEndsAtComma(s: Bytes, r: ChannelRange, k: nat)
    requires k < |s| && s[k] == 0x2C && IsItem(s[..k], r)
    ensures Before(s, 0x2C) == k
  {
    assert forall i :: 0 <= i < k ==> s[..k][i] == s[i];
  }

  /* ---- One token, the way strtoull reads ---- */

  predicate IsCBlank(s: Bytes) {
    forall i :: 0 <= i < |s| ==> s[i] == 0x20 || 0x09 <= s[i] <= 0x0D
  }

  /** What a number comes to in 64 bits: at most the greatest there is, and from there backwards behind a minus. */
  function In64(n: nat, minus: bool): nat {
    if n > 0xFFFF_FFFF_FFFF_FFFF then 0xFFFF_FFFF_FFFF_FFFF
    else if minus && n > 0 then 0x1_0000_0000_0000_0000 - n else n
  }

  /** White space up to i, perhaps a sign, and digits from d on. */
  predicate IsSigned(s: Bytes, n: nat, i: nat, d: nat) {
    && i <= d < |s| && IsCBlank(s[..i]) && AllDigits(s[d..])
    && (d == i || (d == i + 1 && (s[i] == 0x2B || s[i] == 0x2D)))
    && n == In64(NatOf(s[d..]), d == i + 1 && s[i] == 0x2D)
  }

  /** The text ends where a zero byte stands, if there is one; nothing before it counts as zero. */
  ghost predicate IsLoose(s: Bytes, n: nat) {
    s != [] && exists z: nat ::
      && z <= |s| && 0 !in s[..z] && (z < |s| ==> s[z] == 0)
      && (if z == 0 then n == 0 else exists i: nat, d: nat :: IsSigned(s[..z], n, i, d))
  }

  lemma LooseIff(s: Bytes, n: nat)
    ensures LooseNumber(s) == Some(n) <==> IsLoose(s, n)
  {
    hide IsSigned, LooseNumber;
    var z := Before(s, 0);
    assert 0 !in s[..z];
    forall y: nat | y <= |s| && 0 !in s[..y] && (y < |s| ==> s[y] == 0)
      ensures y == z
    {
      EndIsFirst(s, y);
    }
    LooseIsLocal(s);
    if z > 0 {
      SignedIff(s[..z], n);
    }
  }

  lemma EndIsFirst(s: Bytes, z: nat)
    requires z <= |s| && 0 !in s[..z] && (z < |s| ==> s[z] == 0)
    ensures Before(s, 0) == z
  {
    assert forall i :: 0 <= i < z ==> s[..z][i] == s[i];
  }

  /** Behind a zero byte nothing is read. */
  lemma LooseIsLocal(s: Bytes)
    ensures var z := Before(s, 0);
            LooseNumber(s) == if s == [] then None else if z == 0 then Some(0) else LooseNumber(s[..z])
  {
    hide NatOf, AllDigits, CSpaces, StartsWith;
    var t := s[..Before(s, 0)];
    EndIsFirst(t, |t|);
    assert t[..|t|] == t;
  }

  lemma SignedIff(s: Bytes, n: nat)
    requires s != [] && 0 !in s
    ensures LooseNumber(s) == Some(n) <==> exists i: nat, d: nat :: IsSigned(s, n, i, d)
  {
    EndIsFirst(s, |s|);
    assert s[..|s|] == s;
    var i := CSpaces(s);
    CSpacesAre(s);
    var body := s[i..];
    var d := if StartsWith(body, PLUS) || StartsWith(body, MINUS) then i + 1 else i;
    assert d <= |s| && s[d..] == if d > i then body[1..] else body;
    if LooseNumber(s) == Some(n) {
      assert IsSigned(s, n, i, d);
    }
    forall p: nat, q: nat | IsSigned(s, n, p, q)
      ensures LooseNumber(s) == Some(n)
    {
      SpacesEnd(s, n, p, q);
    }
  }

  lemma {:induction false} CSpacesAre(s: Bytes)
    ensures IsCBlank(s[..CSpaces(s)]) && (CSpaces(s) < |s| ==> !IsCSpace(s[CSpaces(s)]))
    decreases |s|
  {
    if s != [] && IsCSpace(s[0]) {
      CSpacesAre(s[1..]);
      assert s[..CSpaces(s)] == [s[0]] + s[1..][..CSpaces(s[1..])];
    }
  }

  lemma SpacesEnd(s: Bytes, n: nat, i: nat, d: nat)
    requires IsSigned(s, n, i, d)
    ensures i == CSpaces(s) && (d > i <==> s[i] == PLUS || s[i] == MINUS)
  {
    CSpacesAre(s);
    var k := CSpaces(s);
    assert s[d..][0] == s[d];
    assert forall j :: 0 <= j < k ==> s[..k][j] == s[j];
    assert forall j :: 0 <= j < i ==> s[..i][j] == s[j];
  }

  /** A token the forgiving reader takes: two such numbers about the first hyphen, in range. */
  ghost predicate IsLooseToken(s: Bytes, r: ChannelRange) {
    && (exists k: nat :: k < |s| && s[k] == 0x2D && 0x2D !in s[..k] && IsLoose(s[..k], r.startChannel)
                         && IsLoose(s[k + 1..], r.channelCount))
    && r.startChannel > 0 && r.channelCount > 0 && r.startChannel + r.channelCount <= 0xFFFF_FFFF
  }

  lemma LooseTokenIff(s: Bytes, r: ChannelRange)
    ensures LooseToken(s) == Some(r) <==> IsLooseToken(s, r)
  {
    hide LooseNumber, IsLoose;
    var dash := Before(s, HYPHEN);
    assert HYPHEN !in s[..dash];
    if dash < |s| {
      LooseIff(s[..dash], r.startChannel);
      LooseIff(s[dash + 1..], r.channelCount);
    }
    forall k: nat | k < |s| && s[k] == 0x2D && 0x2D !in s[..k]
      ensures k == dash
    {
      HyphenIsFirst(s, k);
    }
  }

  lemma HyphenIsFirst(s: Bytes, k: nat)
    requires k < |s| && s[k] == HYPHEN && HYPHEN !in s[..k]
    ensures Before(s, HYPHEN) == k
  {
    assert forall i :: 0 <= i < k ==> s[..k][i] == s[i];
  }

  /** The forgiving reader goes from comma to comma and leaves out what is no such token. */
  ghost predicate IsLooseList(s: Bytes, rs: seq<ChannelRange>)
    decreases |s|
  {
    if s == [] then rs == []
    else if 0x2C !in s then IsLooseItem(s, rs)
    else exists k: nat, n: nat ::
           k < |s| && s[k] == 0x2C && 0x2C !in s[..k] && n <= |rs| && IsLooseItem(s[..k], rs[..n])
           && IsLooseList(s[k + 1..], rs[n..])
  }

  /** The range of a token, or none. */
  ghost predicate IsLooseItem(s: Bytes, rs: seq<ChannelRange>) {
    if exists r :: IsLooseToken(s, r) then |rs| == 1 && IsLooseToken(s, rs[0]) else rs == []
  }

  lemma {:induction false} LooseListIs(s: Bytes)
    ensures IsLooseList(s, ParseLoose(s))
    decreases |s|
  {
    hide LooseToken, IsLooseToken, IsLooseItem;
    if s != [] {
      var comma := Before(s, 0x2C);
      assert 0x2C !in s[..comma];
      var head := ListOf(LooseToken(s[..comma]));
      LooseItemIs(s[..comma]);
      if comma == |s| {
        assert s[..comma] == s && head + [] == head;
      } else {
        LooseListIs(s[comma + 1..]);
        assert ParseLoose(s)[..|head|] == head && ParseLoose(s)[|head|..] == ParseLoose(s[comma + 1..]);
      }
    }
  }

  lemma LooseItemIs(s: Bytes)
    ensures IsLooseItem(s, ListOf(LooseToken(s)))
  {
    hide LooseToken, IsLooseToken;
    forall r
      ensures LooseToken(s) == Some(r) <==> IsLooseToken(s, r)
    {
      LooseTokenIff(s, r);
    }
  }
}
