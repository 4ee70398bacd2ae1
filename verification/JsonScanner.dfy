/** The raw-span scanner (native/adapters/shared/fallback_program_fetch.h): it finds where a value's bytes end, and
    agrees with the parser on every text the parser accepts. */
module JsonScanner {
  import opened Ordering
  import opened Utf8
  import opened JsonBasics
  import opened JsonNumber
  import opened JsonString
  import opened Json
  import opened JsonLocal

  /* ---- skipJsonStringLiteral, skipJsonValue, skipJsonContainer ---- */

  /** A string literal behind its opening quote; escapes are stepped over unread. */
  function SkipBody(s: Bytes): (r: Parsed<()>)
    ensures r.Ok? ==> 0 < r.used <= |s|
    decreases |s|
  {
    if s == [] then Err
    else if s[0] == QUOTE then Ok((), 1)
    else
      var k := if s[0] == BACKSLASH then 2 else 1;
      if (s[0] != BACKSLASH && s[0] < 0x20) || |s| < k then Err
      else
        match SkipBody(s[k..])
        case Err => Err
        case Ok(_, n) => Ok((), k + n)
  }

  function SkipString(s: Bytes): (r: Parsed<()>)
    ensures r.Ok? ==> 0 < r.used <= |s|
  {
    if !StartsWith(s, QUOTE) then Err
    else
      match SkipBody(s[1..])
      case Err => Err
      case Ok(_, n) => Ok((), 1 + n)
  }

  /** What may stand between two quotes: any byte behind a backslash, and bytes from 0x20 on that are neither a quote
      nor a backslash. */
  predicate IsContent(t: Bytes)
    decreases |t|
  {
    if t == [] then true
    else if t[0] == 0x5C then |t| >= 2 && IsContent(t[2..])
    else t[0] != 0x22 && t[0] >= 0x20 && IsContent(t[1..])
  }

  /** A literal is skipped exactly up to the quote that ends it. */
  lemma LiteralIff(s: Bytes, n: nat)
    ensures SkipString(s).Ok? && SkipString(s).used == n <==>
              2 <= n <= |s| && s[0] == 0x22 && s[n - 1] == 0x22 && IsContent(s[1..n - 1])
  {
    hide SkipBody, IsContent;
    if s != [] && n > 0 {
      BodyIff(s[1..], n - 1);
      if 2 <= n <= |s| {
        assert s[1..][..n - 2] == s[1..n - 1];
      }
    }
  }

  lemma {:induction false} BodyIff(s: Bytes, n: nat)
    ensures SkipBody(s).Ok? && SkipBody(s).used == n <==>
              0 < n <= |s| && s[n - 1] == 0x22 && IsContent(s[..n - 1])
    decreases |s|
  {
    if s == [] || s[0] == QUOTE {
      if 1 < n <= |s| {
        assert s[..n - 1][0] == 0x22;
      }
    } else {
      var k := if s[0] == BACKSLASH then 2 else 1;
      if |s| >= k && n > k {
        BodyIff(s[k..], n - k);
        if n <= |s| {
          assert s[..n - 1][k..] == s[k..][..n - k - 1] && s[..n - 1][0] == s[0];
        }
      }
    }
  }

  function SkipNumber(s: Bytes): (r: Parsed<()>)
    ensures r.Ok? ==> 0 < r.used <= |s|
  {
    var sign := if StartsWith(s, MINUS) then 1 else 0;
    var n := LeadingDigits(s[sign..]);
    if n == 0 then Err else Ok((), sign + n + SkipTail(s[sign..][n..]))
  }

  function SkipTail(s: Bytes): (n: nat)
    ensures n <= |s|
  {
    SkipFraction(s) + SkipExponent(s[SkipFraction(s)..])
  }

  function SkipFraction(s: Bytes): (n: nat)
    ensures n <= |s|
  {
    if StartsWith(s, POINT) then 1 + LeadingDigits(s[1..]) else 0
  }

  function SkipExponent(s: Bytes): (n: nat)
    ensures n <= |s|
  {
    if !StartsWith(s, LOWER_E) && !StartsWith(s, UPPER_E) then 0
    else
      var k := if StartsWith(s[1..], PLUS) || StartsWith(s[1..], MINUS) then 2 else 1;
      k + LeadingDigits(s[k..])
  }

  function SkipScalar(s: Bytes): (r: Parsed<()>)
    ensures r.Ok? ==> 0 < r.used <= |s|
  {
    if StartsWith(s, QUOTE) then SkipString(s)
    else if TRUE_WORD <= s then Ok((), 4)
    else if FALSE_WORD <= s then Ok((), 5)
    else if NULL_WORD <= s then Ok((), 4)
    else SkipNumber(s)
  }

  function SkipValue(s: Bytes): (r: Parsed<()>)
    ensures r.Ok? ==> 0 < r.used <= |s|
    decreases |s|, 0
  {
    var w := Spaces(s);
    var t := s[w..];
    if StartsWith(t, OPEN_OBJECT) then
      match SkipContainer(t[1..], true)
      case Err => Err
      case Ok(_, n) => Ok((), w + 1 + n)
    else if StartsWith(t, OPEN_ARRAY) then
      match SkipContainer(t[1..], false)
      case Err => Err
      case Ok(_, n) => Ok((), w + 1 + n)
    else
      match SkipScalar(t)
      case Err => Err
      case Ok(_, n) => Ok((), w + n)
  }

  function Closing(object_: bool): byte {
    if object_ then CLOSE_OBJECT else CLOSE_ARRAY
  }

  function SkipContainer(s: Bytes, object_: bool): (r: Parsed<()>)
    ensures r.Ok? ==> 0 < r.used <= |s|
    decreases |s|, 3
  {
    if StartsWith(s[Spaces(s)..], Closing(object_)) then Ok((), Spaces(s) + 1)
    else SkipElements(s, object_)
  }

  /** The elements still to come, each with its key in an object. */
  function SkipElements(s: Bytes, object_: bool): (r: Parsed<()>)
    ensures r.Ok? ==> 0 < r.used <= |s|
    decreases |s|, 2
  {
    match SkipElement(s, object_)
    case Err => Err
    case Ok(_, n) =>
      match Separator(s[n..], Closing(object_))
      case Err => Err
      case Ok(more, k) =>
        if !more then Ok((), n + k)
        else
          match SkipElements(s[n + k..], object_)
          case Err => Err
          case Ok(_, m) => Ok((), n + k + m)
  }

  function SkipElement(s: Bytes, object_: bool): (r: Parsed<()>)
    ensures r.Ok? ==> 0 < r.used <= |s|
    decreases |s|, 1
  {
    if !object_ then SkipValue(s)
    else
      match SkipKey(s)
      case Err => Err
      case Ok(_, n) =>
        match SkipValue(s[n..])
        case Err => Err
        case Ok(_, m) => Ok((), n + m)
  }

  function SpacedLiteral(s: Bytes): (r: Parsed<Bytes>)
    ensures r.Ok? ==> 0 < r.used <= |s|
  {
    var w := Spaces(s);
    match SkipString(s[w..])
    case Err => Err
    case Ok(_, n) => Ok(s[w..w + n], w + n)
  }

  /** A key and its colon; the value is the key as it is spelled, quotes and all. */
  function SkipKey(s: Bytes): (r: Parsed<Bytes>)
    ensures r.Ok? ==> 0 < r.used <= |s|
  {
    match SpacedLiteral(s)
    case Err => Err
    case Ok(spelled, n) =>
      match Colon(s[n..])
      case Err => Err
      case Ok(_, k) => Ok(spelled, n + k)
  }

  /* ---- extractRawRootMember ---- */

  datatype Extraction = Found(span: Bytes) | NotFound

  function Extract(s: Bytes, member: Bytes): Extraction {
    var t := s[Spaces(s)..];
    if !StartsWith(t, OPEN_OBJECT) then NotFound
    else if StartsWith(t[1..][Spaces(t[1..])..], CLOSE_OBJECT) then NotFound
    else ExtractFrom(t[1..], [QUOTE] + member + [QUOTE])
  }

  /** A root member as the text spells it: its key with quotes, and its value's own bytes. */
  datatype Spelled = Spelled(key: Bytes, span: Bytes)

  /** A value behind its colon, as it is spelled. */
  function ScanValue(s: Bytes): (r: Parsed<Bytes>)
    ensures r.Ok? ==> 0 < r.used <= |s|
  {
    var u := s[Spaces(s)..];
    match SkipValue(u)
    case Err => Err
    case Ok(_, n) => Ok(u[..n], Spaces(s) + n)
  }

  function ScanMember(s: Bytes): (r: Parsed<Spelled>)
    ensures r.Ok? ==> 0 < r.used <= |s|
  {
    match SkipKey(s)
    case Err => Err
    case Ok(key, n) =>
      match ScanValue(s[n..])
      case Err => Err
      case Ok(span, m) => Ok(Spelled(key, span), n + m)
  }

  function ExtractFrom(s: Bytes, quoted: Bytes): Extraction
    decreases |s|
  {
    match ScanMember(s)
    case Err => NotFound
    case Ok(spelled, n) =>
      if spelled.key == quoted then Found(spelled.span)
      else
        match Separator(s[n..], CLOSE_OBJECT)
        case Err => NotFound
        case Ok(more, k) => if more then ExtractFrom(s[n + k..], quoted) else NotFound
  }

  /* ---- The scanner steps over exactly what the parser reads ---- */

  /** Bytes that cannot end or escape anything are stepped over one by one. */
  lemma {:induction false} PlainBytesAreSkipped(s: Bytes, n: nat)
    requires n <= |s| && forall i :: 0 <= i < n ==> s[i] >= 0x20 && s[i] != QUOTE && s[i] != BACKSLASH
    requires SkipBody(s[n..]).Ok?
    ensures SkipBody(s) == Ok((), n + SkipBody(s[n..]).used)
    decreases n
  {
    if n == 0 {
      assert s[0..] == s;
    } else {
      assert s[1..][n - 1..] == s[n..];
      PlainBytesAreSkipped(s[1..], n - 1);
    }
  }

  lemma CharIsPlain(s: Bytes)
    requires CharLength(s) > 0 && s[0] != QUOTE && s[0] != BACKSLASH && s[0] >= 0x20
    ensures forall i :: 0 <= i < CharLength(s) ==> s[i] >= 0x20 && s[i] != QUOTE && s[i] != BACKSLASH
  {
  }

  lemma HexIsPlain(s: Bytes)
    requires Hex4(s).Ok?
    ensures forall i :: 0 <= i < 4 ==> s[i] >= 0x20 && s[i] != QUOTE && s[i] != BACKSLASH
  {
  }

  lemma UnicodeIsSkipped(s: Bytes)
    requires UnicodeEscape(s).Ok?
    requires SkipBody(s[UnicodeEscape(s).used..]).Ok?
    ensures SkipBody(s) == Ok((), UnicodeEscape(s).used + SkipBody(s[UnicodeEscape(s).used..]).used)
  {
    hide SkipBody, Hex4;
    HexIsPlain(s);
    if UnicodeEscape(s).used == 10 {
      var t := s[6..];
      assert t[4..] == s[10..];
      HexIsPlain(t);
      PlainBytesAreSkipped(t, 4);
      BackslashIsSkipped(s[4..], t);
    }
    PlainBytesAreSkipped(s, 4);
  }

  lemma BackslashIsSkipped(s: Bytes, t: Bytes)
    requires |s| >= 2 && s[0] == BACKSLASH && t == s[2..] && SkipBody(t).Ok?
    ensures SkipBody(s) == Ok((), 2 + SkipBody(t).used)
  {
  }

  lemma ElementIsSkipped(s: Bytes)
    requires s != [] && Element(s).Ok? && SkipBody(s[Element(s).used..]).Ok?
    ensures SkipBody(s) == Ok((), Element(s).used + SkipBody(s[Element(s).used..]).used)
  {
    hide SkipBody, UnicodeEscape, SimpleEscape, CharLength;
    var n := Element(s).used;
    if s[0] != BACKSLASH {
      CharIsPlain(s);
      PlainBytesAreSkipped(s, n);
    } else {
      if s[1] == LOWER_U {
        assert s[2..][n - 2..] == s[n..];
        UnicodeIsSkipped(s[2..]);
      }
      BackslashIsSkipped(s, s[2..]);
    }
  }

  lemma {:induction false} BodyIsSkipped(s: Bytes)
    requires StringBody(s).Ok?
    ensures SkipBody(s) == Ok((), StringBody(s).used)
    decreases |s|
  {
    hide Element;
    if s[0] == QUOTE {
    } else {
      BodyIsSkipped(s[Element(s).used..]);
      ElementIsSkipped(s);
    }
  }

  lemma NumberIsSkipped(s: Bytes, n: nat)
    requires ParseNumber(s).Ok? && ParseNumber(s).used == n && (s[n..] == [] || !IsDigit(s[n]))
    ensures SkipNumber(s) == Ok((), n)
  {
    hide Whole, FractionAndExponent, SkipTail;
    var sign := if StartsWith(s, MINUS) then 1 else 0;
    var t := s[sign..];
    assert t[n - sign..] == s[n..];
    WholeIsSkipped(t, n - sign);
    TailIsSkipped(t[Whole(t).used..]);
  }

  lemma TailIsSkipped(s: Bytes)
    requires FractionAndExponent(s).Ok?
    ensures SkipTail(s) == FractionAndExponent(s).used
  {
  }

  lemma WholeIsSkipped(t: Bytes, n: nat)
    requires Unsigned(t).Ok? && Unsigned(t).used == n && (t[n..] == [] || !IsDigit(t[n]))
    ensures LeadingDigits(t) == Whole(t).used
  {
  }

  lemma ScalarIsSkipped(s: Bytes, n: nat)
    requires ParseScalar(s).Ok? && ParseScalar(s).used == n && (s[n..] == [] || !IsDigit(s[n]))
    ensures SkipScalar(s) == Ok((), n)
  {
    hide ParseNumber, SkipNumber, StringBody, SkipBody;
    if StartsWith(s, QUOTE) {
      BodyIsSkipped(s[1..]);
    } else if !StartsWith(s, 0x6E) && !StartsWith(s, 0x74) && !StartsWith(s, 0x66) {
      NumberIsSkipped(s, n);
    }
  }

  lemma {:induction false} ValueIsSkipped(s: Bytes, depth: nat)
    requires ParseSpacedValue(s, depth).Ok?
    requires var n := ParseSpacedValue(s, depth).used; s[n..] == [] || !IsDigit(s[n])
    ensures SkipValue(s) == Ok((), ParseSpacedValue(s, depth).used)
    decreases |s|, 0
  {
    hide ParseScalar, SkipScalar, ParseArray, ParseObject, SkipContainer;
    var w := Spaces(s);
    var t := s[w..];
    var n := ParseValue(t, depth).used;
    assert t[n..] == s[w + n..];
    if StartsWith(t, OPEN_ARRAY) {
      ArrayIsSkipped(t[1..], depth + 1);
    } else if StartsWith(t, OPEN_OBJECT) {
      ObjectIsSkipped(t[1..], depth + 1);
    } else {
      ScalarIsSkipped(t, n);
    }
  }

  lemma {:induction false} ArrayIsSkipped(s: Bytes, depth: nat)
    requires ParseArray(s, depth).Ok?
    ensures SkipContainer(s, false) == Ok((), ParseArray(s, depth).used)
    decreases |s|, 2
  {
    hide ParseItems, SkipElements;
    if !StartsWith(s[Spaces(s)..], CLOSE_ARRAY) {
      ItemsAreSkipped(s, depth);
    }
  }

  lemma {:induction false} ItemsAreSkipped(s: Bytes, depth: nat)
    requires ParseItems(s, depth).Ok?
    ensures SkipElements(s, false) == Ok((), ParseItems(s, depth).used)
    decreases |s|, 1
  {
    hide ParseSpacedValue, Separator, SkipValue;
    var n := ParseSpacedValue(s, depth).used;
    SeparatorStart(s[n..], CLOSE_ARRAY);
    ValueIsSkipped(s, depth);
    var separator := Separator(s[n..], CLOSE_ARRAY);
    if separator.value {
      ItemsAreSkipped(s[n + separator.used..], depth);
    }
  }

  lemma {:induction false} ObjectIsSkipped(s: Bytes, depth: nat)
    requires ParseObject(s, depth).Ok?
    ensures SkipContainer(s, true) == Ok((), ParseObject(s, depth).used)
    decreases |s|, 3
  {
    hide ParseMembers, SkipElements;
    if !StartsWith(s[Spaces(s)..], CLOSE_OBJECT) {
      MembersAreSkipped(s, depth, {});
    }
  }

  lemma KeyIsSkipped(s: Bytes)
    requires MemberName(s).Ok?
    ensures SkipKey(s).Ok? && SkipKey(s).used == MemberName(s).used
    ensures var spelled := SkipKey(s).value;
            |spelled| >= 2 && spelled[0] == QUOTE && StringBody(spelled[1..]) == Ok(MemberName(s).value, |spelled| - 1)
  {
    hide StringBody, SkipBody, Colon;
    var w := Spaces(s);
    var body := s[w + 1..];
    BodyIsSkipped(body);
    assert s[w..][1..] == body;
    var n := StringBody(body).used;
    var spelled := s[w..w + 1 + n];
    assert spelled[1..] == body[..n];
    BodyIsLocal(body, body[..n], n);
  }

  lemma MemberIsSkipped(s: Bytes, depth: nat, seen: set<Bytes>)
    requires ParseMember(s, depth, seen).Ok?
    requires var n := ParseMember(s, depth, seen).used; s[n..] == [] || !IsDigit(s[n])
    ensures SkipElement(s, true) == Ok((), ParseMember(s, depth, seen).used)
    decreases |s|, 1
  {
    hide MemberName, SkipKey, ParseSpacedValue, SkipValue;
    KeyIsSkipped(s);
    var t := s[MemberName(s).used..];
    var n := ParseSpacedValue(t, depth).used;
    assert t[n..] == s[MemberName(s).used + n..];
    ValueIsSkipped(t, depth);
  }

  lemma {:induction false} MembersAreSkipped(s: Bytes, depth: nat, seen: set<Bytes>)
    requires ParseMembers(s, depth, seen).Ok?
    ensures SkipElements(s, true) == Ok((), ParseMembers(s, depth, seen).used)
    decreases |s|, 2
  {
    hide ParseMember, Separator, SkipElement;
    var member := ParseMember(s, depth, seen);
    var n := member.used;
    SeparatorStart(s[n..], CLOSE_OBJECT);
    MemberIsSkipped(s, depth, seen);
    var separator := Separator(s[n..], CLOSE_OBJECT);
    if separator.value {
      MembersAreSkipped(s[n + separator.used..], depth, seen + {member.value.name});
    }
  }

  /* ---- What is extracted ---- */

  /** Where a member's value stands. */
  function AtValue(s: Bytes): Bytes
    requires MemberName(s).Ok?
  {
    var t := s[MemberName(s).used..];
    t[Spaces(t)..]
  }

  function SpelledMember(s: Bytes, depth: nat, seen: set<Bytes>): Spelled
    requires ParseMember(s, depth, seen).Ok?
  {
    var u := AtValue(s);
    assert ParseSpacedValue(s[MemberName(s).used..], depth).Ok?;
    Spelled(s[Spaces(s)..SpacedString(s).used], u[..ParseValue(u, depth).used])
  }

  /** The members the parser reads here, as the text spells them. */
  function Spellings(s: Bytes, depth: nat, seen: set<Bytes>): seq<Spelled>
    requires ParseMembers(s, depth, seen).Ok?
    decreases |s|
  {
    hide ParseMember, Separator, SpelledMember;
    var member := ParseMember(s, depth, seen);
    var separator := Separator(s[member.used..], CLOSE_OBJECT);
    [SpelledMember(s, depth, seen)]
    + if separator.value then Spellings(s[member.used + separator.used..], depth, seen + {member.value.name}) else []
  }

  /** Read on its own, a spelled member is the parsed one. */
  ghost predicate Spells(spelled: Spelled, m: Member) {
    && |spelled.key| >= 2 && spelled.key[0] == QUOTE
    && StringBody(spelled.key[1..]) == Ok(m.name, |spelled.key| - 1)
    && Parse(spelled.span) == Accepted(m.value)
  }

  lemma KeyIsSpelled(s: Bytes)
    requires MemberName(s).Ok?
    ensures SkipKey(s) == Ok(s[Spaces(s)..SpacedString(s).used], MemberName(s).used)
    ensures var spelled := SkipKey(s).value;
            |spelled| >= 2 && spelled[0] == QUOTE && StringBody(spelled[1..]) == Ok(MemberName(s).value, |spelled| - 1)
  {
    hide StringBody, SkipBody, Colon, Spaces;
    KeyIsSkipped(s);
    BodyIsSkipped(s[Spaces(s) + 1..]);
    assert s[Spaces(s)..][1..] == s[Spaces(s) + 1..];
  }

  lemma SpelledMemberSpells(s: Bytes, depth: nat, seen: set<Bytes>)
    requires ParseMember(s, depth, seen).Ok?
    ensures Spells(SpelledMember(s, depth, seen), ParseMember(s, depth, seen).value)
  {
    hide StringBody, MemberName, ParseValue, Parse, SpacedString, SkipKey;
    KeyIsSpelled(s);
    SpanIsDocument(AtValue(s), depth);
  }

  lemma {:induction false} SpellingsSpell(s: Bytes, depth: nat, seen: set<Bytes>)
    requires ParseMembers(s, depth, seen).Ok?
    ensures var spelled, members := Spellings(s, depth, seen), ParseMembers(s, depth, seen).value;
            |spelled| == |members| && forall i :: 0 <= i < |members| ==> Spells(spelled[i], members[i])
    decreases |s|
  {
    hide ParseMember, Separator, Spells, SpelledMember;
    var member := ParseMember(s, depth, seen);
    SpelledMemberSpells(s, depth, seen);
    var separator := Separator(s[member.used..], CLOSE_OBJECT);
    if separator.value {
      SpellingsSpell(s[member.used + separator.used..], depth, seen + {member.value.name});
    }
  }

  /** The span of the first member spelled so. */
  function FirstSpelled(spelled: seq<Spelled>, key: Bytes): Extraction {
    if spelled == [] then NotFound
    else if spelled[0].key == key then Found(spelled[0].span)
    else FirstSpelled(spelled[1..], key)
  }

  /** One round of the scan: key, value and separator are stepped over together. */
  lemma MemberIsScanned(s: Bytes, depth: nat, seen: set<Bytes>)
    requires ParseMember(s, depth, seen).Ok?
    requires var n := ParseMember(s, depth, seen).used; s[n..] == [] || !IsDigit(s[n])
    ensures ScanMember(s) == Ok(SpelledMember(s, depth, seen), ParseMember(s, depth, seen).used)
  {
    hide MemberName, SkipKey, ParseValue, SkipValue, SpacedString;
    KeyIsSpelled(s);
    var n := MemberName(s).used;
    var u := AtValue(s);
    var w := n + Spaces(s[n..]);
    var m := ParseValue(u, depth).used;
    assert u[m..] == s[w + m..];
    ValueIsScanned(u, depth);
  }

  lemma ValueIsScanned(u: Bytes, depth: nat)
    requires ParseValue(u, depth).Ok?
    requires var n := ParseValue(u, depth).used; u[n..] == [] || !IsDigit(u[n])
    ensures SkipValue(u) == Ok((), ParseValue(u, depth).used)
  {
    hide ParseValue, SkipValue;
    ValueStart(u, depth);
    assert u[0..] == u && Spaces(u) == 0;
    ValueIsSkipped(u, depth);
  }

  lemma {:induction false} ExtractFromMembers(s: Bytes, depth: nat, seen: set<Bytes>, key: Bytes)
    requires ParseMembers(s, depth, seen).Ok?
    ensures ExtractFrom(s, key) == FirstSpelled(Spellings(s, depth, seen), key)
    decreases |s|
  {
    hide ParseMember, Separator, ScanMember, SpelledMember;
    var member := ParseMember(s, depth, seen);
    var separator := Separator(s[member.used..], CLOSE_OBJECT);
    SeparatorStart(s[member.used..], CLOSE_OBJECT);
    MemberIsScanned(s, depth, seen);
    var spelled := Spellings(s, depth, seen);
    if separator.value {
      var t := s[member.used + separator.used..];
      ExtractFromMembers(t, depth, seen + {member.value.name}, key);
      assert spelled[1..] == Spellings(t, depth, seen + {member.value.name});
    } else {
      assert spelled[1..] == [];
    }
  }

  lemma {:induction false} FirstSpelledIs(spelled: seq<Spelled>, key: Bytes)
    ensures var r := FirstSpelled(spelled, key);
            && (r.Found? ==> exists i :: 0 <= i < |spelled| && spelled[i] == Spelled(key, r.span))
            && (r.NotFound? ==> forall i :: 0 <= i < |spelled| ==> spelled[i].key != key)
  {
    if spelled != [] && spelled[0].key != key {
      FirstSpelledIs(spelled[1..], key);
      var r := FirstSpelled(spelled[1..], key);
      if r.Found? {
        var i :| 0 <= i < |spelled| - 1 && spelled[1..][i] == Spelled(key, r.span);
        assert spelled[i + 1] == Spelled(key, r.span);
      }
    }
  }

  /** The text of an accepted object behind its opening bracket. */
  function RootBody(s: Bytes): (t: Bytes)
    requires Parse(s).Accepted? && Parse(s).value.Object?
    ensures StartsWith(s[Spaces(s)..], OPEN_OBJECT) && t == s[Spaces(s)..][1..]
    ensures ParseObject(t, 1).Ok? && ParseObject(t, 1).value == Parse(s).value.members
  {
    hide ParseObject, ParseArray;
    var t := s[Spaces(s)..];
    assert ParseSpacedValue(s, 0).Ok? && ParseValue(t, 0) == Ok(Parse(s).value, ParseValue(t, 0).used);
    assert StartsWith(t, OPEN_OBJECT);
    t[1..]
  }

  /** The root members of an accepted object, as its text spells them. */
  function RootSpellings(s: Bytes): seq<Spelled>
    requires Parse(s).Accepted? && Parse(s).value.Object?
  {
    hide Parse, ParseMembers;
    var t := RootBody(s);
    if StartsWith(t[Spaces(t)..], CLOSE_OBJECT) then [] else Spellings(t, 1, {})
  }

  lemma RootSpellingsSpell(s: Bytes)
    requires Parse(s).Accepted? && Parse(s).value.Object?
    ensures var spelled, members := RootSpellings(s), Parse(s).value.members;
            |spelled| == |members| && forall i :: 0 <= i < |members| ==> Spells(spelled[i], members[i])
  {
    hide Parse, ParseMembers, Spells, Spellings;
    var t := RootBody(s);
    if !StartsWith(t[Spaces(t)..], CLOSE_OBJECT) {
      SpellingsSpell(t, 1, {});
    }
  }

  /** The scanner gives the first root member spelled with the key asked for, and nothing when there is none. */
  lemma ExtractIsFirstSpelled(s: Bytes, member: Bytes)
    requires Parse(s).Accepted? && Parse(s).value.Object?
    ensures Extract(s, member) == FirstSpelled(RootSpellings(s), [QUOTE] + member + [QUOTE])
  {
    hide Parse, ParseMembers, Spellings, ExtractFrom;
    var t := RootBody(s);
    if !StartsWith(t[Spaces(t)..], CLOSE_OBJECT) {
      ExtractFromMembers(t, 1, {}, [QUOTE] + member + [QUOTE]);
    }
  }

  /* ---- The results ---- */

  /** The name the parser reads where a key is spelled with these bytes between its quotes. */
  ghost predicate DecodesTo(spelled: Bytes, name: Bytes) {
    StringBody(spelled + [QUOTE]) == Ok(name, |spelled| + 1)
  }

  /** Escapes only shorten: the two are equal exactly when nothing is escaped. */
  ghost predicate Shortens(decoded: Bytes, spelled: Bytes) {
    if BACKSLASH in spelled then |decoded| < |spelled| else decoded == spelled
  }

  lemma NothingShortens()
    ensures Shortens([], [])
  {
  }

  lemma ShortensTogether(a: Bytes, u: Bytes, b: Bytes, v: Bytes)
    requires Shortens(a, u) && Shortens(b, v)
    ensures Shortens(a + b, u + v)
  {
  }

  lemma {:induction false} DecodingShortens(s: Bytes)
    requires StringBody(s).Ok?
    ensures Shortens(StringBody(s).value, s[..StringBody(s).used - 1])
    decreases |s|
  {
    hide Element, Shortens;
    if s[0] == QUOTE {
      NothingShortens();
    } else {
      var n := Element(s).used;
      var tail := s[n..];
      var m := StringBody(tail).used;
      DecodingShortens(tail);
      ElementShortens(s);
      ShortensTogether(Element(s).value, s[..n], StringBody(tail).value, tail[..m - 1]);
      assert s[..n + m - 1] == s[..n] + tail[..m - 1];
    }
  }

  lemma ElementShortens(s: Bytes)
    requires s != [] && Element(s).Ok?
    ensures Shortens(Element(s).value, s[..Element(s).used])
  {
  }

  lemma SpelledNameIs(spelled: Bytes, name: Bytes)
    requires DecodesTo(spelled, name)
    ensures name == spelled <==> BACKSLASH !in spelled
  {
    hide StringBody;
    DecodingShortens(spelled + [QUOTE]);
    assert (spelled + [QUOTE])[..|spelled|] == spelled;
  }

  /** Soundness: whatever is extracted is, byte for byte, a document that parses to the very value the parser gave
      the member the key decodes to; for a key without escapes that is the member of that name. */
  lemma ExtractedIsTheMember(s: Bytes, member: Bytes)
    requires Parse(s).Accepted? && Parse(s).value.Object? && Extract(s, member).Found?
    ensures exists i :: 0 <= i < |Parse(s).value.members|
              && DecodesTo(member, Parse(s).value.members[i].name)
              && Parse(Extract(s, member).span) == Accepted(Parse(s).value.members[i].value)
              && (Parse(s).value.members[i].name == member <==> BACKSLASH !in member)
  {
    hide Parse, RootSpellings, Extract, StringBody;
    var spelled, key := RootSpellings(s), [QUOTE] + member + [QUOTE];
    ExtractIsFirstSpelled(s, member);
    FirstSpelledIs(spelled, key);
    RootSpellingsSpell(s);
    var i :| 0 <= i < |spelled| && spelled[i] == Spelled(key, Extract(s, member).span);
    assert Spells(spelled[i], Parse(s).value.members[i]);
    assert key[1..] == member + [QUOTE];
    SpelledNameIs(member, Parse(s).value.members[i].name);
  }

  /** Completeness: a root member is found exactly when some key of the text is spelled with those bytes, and every
      member whose key is spelled without escapes is found under its name. */
  lemma UnescapedIsAlwaysFound(s: Bytes, member: Bytes, i: nat)
    requires Parse(s).Accepted? && Parse(s).value.Object?
    ensures Extract(s, member).Found? <==>
              exists j :: 0 <= j < |RootSpellings(s)| && RootSpellings(s)[j].key == [QUOTE] + member + [QUOTE]
    ensures |RootSpellings(s)| == |Parse(s).value.members|
    ensures i < |RootSpellings(s)| && Parse(s).value.members[i].name == member && BACKSLASH !in RootSpellings(s)[i].key
         ==> Extract(s, member).Found? && RootSpellings(s)[i].key == [QUOTE] + member + [QUOTE]
  {
    hide Parse, RootSpellings, Extract, StringBody;
    var spelled, key := RootSpellings(s), [QUOTE] + member + [QUOTE];
    ExtractIsFirstSpelled(s, member);
    FirstSpelledIs(spelled, key);
    RootSpellingsSpell(s);
    if i < |spelled| && Parse(s).value.members[i].name == member && BACKSLASH !in spelled[i].key {
      assert Spells(spelled[i], Parse(s).value.members[i]);
      UnescapedKey(spelled[i].key, member);
    }
  }

  lemma UnescapedKey(key: Bytes, name: Bytes)
    requires |key| >= 2 && key[0] == QUOTE && StringBody(key[1..]) == Ok(name, |key| - 1) && BACKSLASH !in key
    ensures key == [QUOTE] + name + [QUOTE]
  {
    hide StringBody;
    var body := key[1..];
    DecodingShortens(body);
    assert body[..|body| - 1] == name && body[|body| - 1] == QUOTE;
    assert body == body[..|body| - 1] + [QUOTE];
    assert key == [QUOTE] + body;
  }
}
