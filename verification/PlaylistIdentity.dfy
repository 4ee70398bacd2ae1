/** Entry keys (native/src/playlist_identity.cpp): the canonical JSON hashed for a playlist entry says which entry it
    is, whatever bytes the fields hold. */
module PlaylistIdentity {
  import opened Ordering
  import opened Utf8
  import opened JsonBasics
  import opened JsonNumber
  import opened JsonNumberMeaning
  import opened JsonString
  import opened Json
  import opened JsonCanonical

  datatype EntryIdentity = EntryIdentity(
    instanceUuid: Bytes, playlistHash: Bytes, playlistName: Bytes, position: int, section: Bytes)

  /** The decimal a whole number is. */
  function OfInt(n: int): NormalDecimal {
    var digits := NatText(if n < 0 then -n else n);
    Normalize(n < 0, digits, |digits|)
  }

  const INSTANCE_UUID: Bytes := [0x69, 0x6E, 0x73, 0x74, 0x61, 0x6E, 0x63, 0x65, 0x55, 0x75, 0x69, 0x64]
  const PLAYLIST_HASH: Bytes := [0x70, 0x6C, 0x61, 0x79, 0x6C, 0x69, 0x73, 0x74, 0x48, 0x61, 0x73, 0x68]
  const PLAYLIST_NAME: Bytes := [0x70, 0x6C, 0x61, 0x79, 0x6C, 0x69, 0x73, 0x74, 0x4E, 0x61, 0x6D, 0x65]
  const POSITION: Bytes := [0x70, 0x6F, 0x73, 0x69, 0x74, 0x69, 0x6F, 0x6E]
  const SECTION: Bytes := [0x73, 0x65, 0x63, 0x74, 0x69, 0x6F, 0x6E]

  function MembersOf(e: EntryIdentity): seq<Member> {
    [Member(INSTANCE_UUID, String(e.instanceUuid)), Member(PLAYLIST_HASH, String(e.playlistHash)),
     Member(PLAYLIST_NAME, String(e.playlistName)), Member(POSITION, Number(OfInt(e.position))),
     Member(SECTION, String(e.section))]
  }

  /** The bytes deriveEntryKey hashes. */
  function Preimage(e: EntryIdentity): Bytes {
    CanonicalText(Object(MembersOf(e)))
  }

  function DeriveEntryKey(hash: Bytes -> Bytes, e: EntryIdentity): Bytes {
    hash(Preimage(e))
  }

  /* ---- The members already stand in order ---- */

  lemma {:induction false} AsciiUnits(s: Bytes)
    requires forall i :: 0 <= i < |s| ==> s[i] < 0x80
    ensures ToUtf16(s) == s
  {
    if s == [] {
    } else {
      AsciiUnits(s[1..]);
      assert s == [s[0]] + s[1..];
    }
  }

  lemma {:induction false} FirstDifferenceDecides(a: seq<int>, b: seq<int>, k: nat)
    requires k < |a| && k < |b| && a[k] < b[k] && forall i :: 0 <= i < k ==> a[i] == b[i]
    ensures SeqLess(a, b)
    decreases k
  {
    if k == 0 {
    } else {
      FirstDifferenceDecides(a[1..], b[1..], k - 1);
    }
  }

  lemma AsciiLess(a: Bytes, b: Bytes, k: nat)
    requires forall i :: 0 <= i < |a| ==> a[i] < 0x80
    requires forall i :: 0 <= i < |b| ==> b[i] < 0x80
    requires k < |a| && k < |b| && a[k] < b[k] && forall i :: 0 <= i < k ==> a[i] == b[i]
    ensures LessUtf16(a, b)
  {
    hide ToUtf16, SeqLess;
    AsciiUnits(a);
    AsciiUnits(b);
    FirstDifferenceDecides(a, b, k);
  }

  lemma NamesInOrder()
    ensures LessUtf16(INSTANCE_UUID, PLAYLIST_HASH) && LessUtf16(PLAYLIST_HASH, PLAYLIST_NAME)
    ensures LessUtf16(PLAYLIST_NAME, POSITION) && LessUtf16(POSITION, SECTION)
  {
    hide LessUtf16;
    AsciiLess(INSTANCE_UUID, PLAYLIST_HASH, 0);
    AsciiLess(PLAYLIST_HASH, PLAYLIST_NAME, 8);
    AsciiLess(PLAYLIST_NAME, POSITION, 1);
    AsciiLess(POSITION, SECTION, 0);
  }

  /** Members already in order stay where they are. */
  lemma {:induction false} SortedStays(members: seq<Member>)
    requires forall i :: 0 <= i < |members| - 1 ==> LessUtf16(members[i].name, members[i + 1].name)
    ensures SortByName(members) == members
    decreases |members|
  {
    hide LessUtf16;
    if members == [] {
    } else {
      var tail := members[1..];
      SortedStays(tail);
      if tail != [] {
        assert tail[0] == members[1];
        Asymmetric(members[0].name, tail[0].name);
      }
      assert members == [members[0]] + tail;
    }
  }

  lemma Asymmetric(a: Bytes, b: Bytes)
    requires LessUtf16(a, b)
    ensures !LessUtf16(b, a)
  {
    SeqLessAsymmetric(ToUtf16(a), ToUtf16(b));
  }

  /* ---- The text, field by field ---- */

  /** Where a field's value starts. */
  function Label(lead: byte, name: Bytes): Bytes {
    [lead] + (StringText(name) + [COLON])
  }

  function Laid(e: EntryIdentity): Bytes {
    Label(OPEN_OBJECT, INSTANCE_UUID) + (StringText(e.instanceUuid)
    + (Label(COMMA, PLAYLIST_HASH) + (StringText(e.playlistHash)
    + (Label(COMMA, PLAYLIST_NAME) + (StringText(e.playlistName)
    + (Label(COMMA, POSITION) + (NumberText(OfInt(e.position))
    + (Label(COMMA, SECTION) + (StringText(e.section)
    + [CLOSE_OBJECT])))))))))
  }

  lemma FieldJoins(lead: byte, m: Member, rest: Bytes)
    ensures [lead] + (MemberText(m) + rest) == Label(lead, m.name) + (Text(m.value) + rest)
  {
  }

  lemma PreimageIsLaid(e: EntryIdentity)
    ensures Preimage(e) == Laid(e)
  {
    hide StringText, LessUtf16, Label, OfInt, MembersText, MemberText;
    var ms := MembersOf(e);
    PreimageText(e);
    MembersTextOfFive(ms);
    FieldsJoin(ms);
  }

  lemma PreimageText(e: EntryIdentity)
    ensures Preimage(e) == [OPEN_OBJECT] + MembersText(MembersOf(e))
  {
    hide MembersText, Arranged, MembersOf;
    IdentityIsArranged(e);
    HasFiveMembers(e);
  }

  lemma HasFiveMembers(e: EntryIdentity)
    ensures |MembersOf(e)| == 5
  {
    hide OfInt;
  }

  lemma IdentityIsArranged(e: EntryIdentity)
    ensures Arranged(Object(MembersOf(e))) == Object(MembersOf(e))
  {
    hide LessUtf16, OfInt, SortByName, ArrangedMembers;
    ArrangedScalars(e);
    NamesInOrder();
    SortedStays(MembersOf(e));
  }

  lemma FieldsJoin(ms: seq<Member>)
    requires |ms| == 5
    ensures [OPEN_OBJECT] + (MemberText(ms[0]) + ([COMMA] + (MemberText(ms[1]) + ([COMMA] + (MemberText(ms[2])
      + ([COMMA] + (MemberText(ms[3]) + ([COMMA] + (MemberText(ms[4]) + [CLOSE_OBJECT])))))))))
      == Label(OPEN_OBJECT, ms[0].name) + (Text(ms[0].value)
       + (Label(COMMA, ms[1].name) + (Text(ms[1].value)
       + (Label(COMMA, ms[2].name) + (Text(ms[2].value)
       + (Label(COMMA, ms[3].name) + (Text(ms[3].value)
       + (Label(COMMA, ms[4].name) + (Text(ms[4].value) + [CLOSE_OBJECT])))))))))
  {
    hide MemberText, Text, Label;
    FieldJoins(COMMA, ms[4], [CLOSE_OBJECT]);
    var fifth := Label(COMMA, ms[4].name) + (Text(ms[4].value) + [CLOSE_OBJECT]);
    FieldJoins(COMMA, ms[3], fifth);
    var fourth := Label(COMMA, ms[3].name) + (Text(ms[3].value) + fifth);
    FieldJoins(COMMA, ms[2], fourth);
    var third := Label(COMMA, ms[2].name) + (Text(ms[2].value) + fourth);
    FieldJoins(COMMA, ms[1], third);
    var second := Label(COMMA, ms[1].name) + (Text(ms[1].value) + third);
    FieldJoins(OPEN_OBJECT, ms[0], second);
  }

  lemma ArrangedScalars(e: EntryIdentity)
    ensures ArrangedMembers(MembersOf(e)) == MembersOf(e)
  {
  }

  lemma MembersTextOfFive(ms: seq<Member>)
    requires |ms| == 5
    ensures MembersText(ms) == MemberText(ms[0]) + ([COMMA] + (MemberText(ms[1]) + ([COMMA] + (MemberText(ms[2])
      + ([COMMA] + (MemberText(ms[3]) + ([COMMA] + (MemberText(ms[4]) + [CLOSE_OBJECT]))))))))
  {
    hide MemberText;
    assert ms[1..][1..] == ms[2..] && ms[2..][1..] == ms[3..] && ms[3..][1..] == ms[4..];
    assert MembersText(ms[4..]) == MemberText(ms[4]) + [CLOSE_OBJECT];
    assert MembersText(ms[3..]) == MemberText(ms[3]) + ([COMMA] + MembersText(ms[4..]));
    assert MembersText(ms[2..]) == MemberText(ms[2]) + ([COMMA] + MembersText(ms[3..]));
    assert MembersText(ms[1..]) == MemberText(ms[1]) + ([COMMA] + MembersText(ms[2..]));
  }

  /* ---- Injectivity ---- */

  lemma StringFieldDetermined(front: Bytes, a: Bytes, u: Bytes, b: Bytes, v: Bytes)
    requires front + (StringText(a) + u) == front + (StringText(b) + v)
    ensures a == b && u == v
  {
    DropFront(front, StringText(a) + u);
    DropFront(front, StringText(b) + v);
    Assoc4([QUOTE], Escaped(a), [QUOTE], u);
    Assoc4([QUOTE], Escaped(b), [QUOTE], v);
    DropFront([QUOTE], Escaped(a) + [QUOTE] + u);
    DropFront([QUOTE], Escaped(b) + [QUOTE] + v);
    EscapedIsInjective(a, b, u, v);
  }

  lemma NumberFieldDetermined(front: Bytes, x: int, u: Bytes, y: int, v: Bytes)
    requires NumberEnd(u) && NumberEnd(v) && front + (NumberText(OfInt(x)) + u) == front + (NumberText(OfInt(y)) + v)
    ensures x == y && u == v
  {
    hide NumberText, OfInt;
    DropFront(front, NumberText(OfInt(x)) + u);
    DropFront(front, NumberText(OfInt(y)) + v);
    NumberTextIsInjective(OfInt(x), OfInt(y), u, v);
    OfIntMeans(x);
    OfIntMeans(y);
  }

  lemma OfIntMeans(n: int)
    ensures JsonNumberMeaning.Meaning(OfInt(n)) == n as real
  {
    hide Normalize, NatText, Scaled, Times;
    var k := if n < 0 then -n else n;
    var digits := NatText(k);
    NormalizeKeepsMeaning(n < 0, digits, |digits|);
    ScaledIsShiftedNat(digits, |digits|);
    TimesIsProduct(k, 1.0);
  }

  /** Two entries with one preimage are one entry, for all byte strings in the fields. */
  lemma PreimageIsInjective(a: EntryIdentity, b: EntryIdentity)
    requires Preimage(a) == Preimage(b)
    ensures a == b
  {
    hide StringText, Preimage, OfInt, NumberText;
    PreimageIsLaid(a);
    PreimageIsLaid(b);
    var u5, v5 := Label(COMMA, SECTION) + (StringText(a.section) + [CLOSE_OBJECT]),
                  Label(COMMA, SECTION) + (StringText(b.section) + [CLOSE_OBJECT]);
    var u4, v4 := Label(COMMA, POSITION) + (NumberText(OfInt(a.position)) + u5),
                  Label(COMMA, POSITION) + (NumberText(OfInt(b.position)) + v5);
    var u3, v3 := Label(COMMA, PLAYLIST_NAME) + (StringText(a.playlistName) + u4),
                  Label(COMMA, PLAYLIST_NAME) + (StringText(b.playlistName) + v4);
    var u2, v2 := Label(COMMA, PLAYLIST_HASH) + (StringText(a.playlistHash) + u3),
                  Label(COMMA, PLAYLIST_HASH) + (StringText(b.playlistHash) + v3);
    StringFieldDetermined(Label(OPEN_OBJECT, INSTANCE_UUID), a.instanceUuid, u2, b.instanceUuid, v2);
    StringFieldDetermined(Label(COMMA, PLAYLIST_HASH), a.playlistHash, u3, b.playlistHash, v3);
    StringFieldDetermined(Label(COMMA, PLAYLIST_NAME), a.playlistName, u4, b.playlistName, v4);
    assert u5[0] == COMMA && v5[0] == COMMA;
    NumberFieldDetermined(Label(COMMA, POSITION), a.position, u5, b.position, v5);
    StringFieldDetermined(Label(COMMA, SECTION), a.section, [CLOSE_OBJECT], b.section, [CLOSE_OBJECT]);
  }

  /** Two entries share a key only where the hash itself collides. */
  lemma SharedKeyIsACollision(hash: Bytes -> Bytes, a: EntryIdentity, b: EntryIdentity)
    requires DeriveEntryKey(hash, a) == DeriveEntryKey(hash, b)
    ensures a == b || (Preimage(a) != Preimage(b) && hash(Preimage(a)) == hash(Preimage(b)))
  {
    hide Preimage;
    if Preimage(a) == Preimage(b) {
      PreimageIsInjective(a, b);
    }
  }

  /* ---- From a playlist's definition ---- */

  /** What an entry is resolved from. */
  datatype Place = Place(instanceUuid: Bytes, playlistName: Bytes, definition: Bytes, section: Bytes, position: int)

  datatype Identified = Identified(identity: EntryIdentity, entryKey: Bytes) | Unavailable

  function ResolveEntryIdentity(hash: Bytes -> Bytes, p: Place): Identified {
    if p.instanceUuid == [] || p.playlistName == [] || p.definition == [] || p.position < 0 then Unavailable
    else
      match Canonicalize(p.definition)
      case Rejected => Unavailable
      case Written(text) =>
        var identity := EntryIdentity(p.instanceUuid, hash(text), p.playlistName, p.position, p.section);
        Identified(identity, DeriveEntryKey(hash, identity))
  }

  /** The two pairs of texts that are hashed for two entries do not collide. */
  predicate NoCollision(hash: Bytes -> Bytes, p: Place, q: Place)
    requires ResolveEntryIdentity(hash, p).Identified? && ResolveEntryIdentity(hash, q).Identified?
  {
    var a, b := ResolveEntryIdentity(hash, p).identity, ResolveEntryIdentity(hash, q).identity;
    var s, t := Canonicalize(p.definition).text, Canonicalize(q.definition).text;
    (s != t ==> hash(s) != hash(t)) && (Preimage(a) != Preimage(b) ==> hash(Preimage(a)) != hash(Preimage(b)))
  }

  /** However their definitions are spelled, two entries have one key exactly when they stand at the same place of the
      same playlist on the same player, and the definitions mean the same. */
  lemma OneKeyPerEntry(hash: Bytes -> Bytes, p: Place, q: Place)
    requires ResolveEntryIdentity(hash, p).Identified? && ResolveEntryIdentity(hash, q).Identified?
    requires NoCollision(hash, p, q)
    ensures ResolveEntryIdentity(hash, p).entryKey == ResolveEntryIdentity(hash, q).entryKey <==>
            && (p.instanceUuid, p.playlistName, p.section, p.position) ==
               (q.instanceUuid, q.playlistName, q.section, q.position)
            && MeaningOf(Parse(p.definition).value) == MeaningOf(Parse(q.definition).value)
  {
    hide Preimage, Parse, CanonicalText, MeaningOf;
    CanonicalIffSameMeaning(p.definition, q.definition);
    var a, b := ResolveEntryIdentity(hash, p).identity, ResolveEntryIdentity(hash, q).identity;
    if Preimage(a) == Preimage(b) {
      PreimageIsInjective(a, b);
    }
  }
}
