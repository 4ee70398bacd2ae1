/** Printed JSON reads back as the value it was printed from. */
module JsonRoundTrip {
  import opened Ordering
  import opened Utf8
  import opened JsonBasics
  import opened JsonNumber
  import opened JsonString
  import opened Json

  lemma TextStart(v: Value)
    ensures Text(v) != [] && !IsSpace(Text(v)[0]) && Text(v)[0] != CLOSE_ARRAY
  {
  }

  lemma NoSpaces(s: Bytes)
    requires s != [] && !IsSpace(s[0])
    ensures Spaces(s) == 0 && s[0..] == s
  {
  }

  lemma LiteralIsRead(word: Bytes, v: Value, rest: Bytes)
    requires word != []
    ensures Literal(word + rest, word, v) == Ok(v, |word|)
  {
    assert word <= word + rest;
  }

  /** Printing then parsing, with anything behind it that cannot extend a number. */
  lemma {:induction false} ValueIsRead(v: Value, depth: nat, rest: Bytes)
    requires WellFormed(v, depth) && NumberEnd(rest)
    ensures ParseValue(Text(v) + rest, depth) == Ok(v, |Text(v)|)
    decreases v, 0
  {
    hide ParseScalar, ParseArray, ParseObject;
    match v
    case Array(items) =>
      var body := if items == [] then [CLOSE_ARRAY] else ItemsText(items);
      ArrayIsRead(items, depth + 1, rest);
      OpenedArray(v, depth, body, rest);
      assert Text(v) == [OPEN_ARRAY] + body;
    case Object(members) =>
      var body := if members == [] then [CLOSE_OBJECT] else MembersText(members);
      ObjectIsRead(members, depth + 1, rest);
      OpenedObject(v, depth, body, rest);
      assert Text(v) == [OPEN_OBJECT] + body;
    case _ =>
      PlainValueIsRead(v, depth, rest);
  }

  lemma PlainValueIsRead(v: Value, depth: nat, rest: Bytes)
    requires WellFormed(v, depth) && NumberEnd(rest) && !v.Array? && !v.Object?
    ensures ParseScalar(Text(v) + rest) == Ok(v, |Text(v)|)
    ensures !StartsWith(Text(v) + rest, OPEN_ARRAY) && !StartsWith(Text(v) + rest, OPEN_OBJECT)
  {
    if v.Number? {
      NumberTextStart(v.number);
      NumberIsRead(v.number, rest);
      NumberStep(NumberText(v.number) + rest, v.number, |NumberText(v.number)|);
    } else if v.String? {
      StringIsRead(v.text, rest);
    } else {
      LiteralIsRead(Text(v), v, rest);
    }
  }

  lemma NumberStep(s: Bytes, d: NormalDecimal, n: nat)
    requires s != [] && (IsDigit(s[0]) || s[0] == MINUS) && ParseNumber(s) == Ok(d, n)
    ensures ParseScalar(s) == Ok(Number(d), n)
  {
  }

  lemma StringIsRead(text: Bytes, rest: Bytes)
    requires ValidUtf8(text)
    ensures ParseScalar(StringText(text) + rest) == Ok(String(text), |StringText(text)|)
  {
    var body := Escaped(text) + [QUOTE] + rest;
    BodyIsRead(text, rest);
    Assoc4([QUOTE], Escaped(text), [QUOTE], rest);
    DropFront([QUOTE], body);
  }

  lemma OpenedArray(v: Value, depth: nat, body: Bytes, rest: Bytes)
    requires v.Array? && ParseArray(body + rest, depth + 1) == Ok(v.items, |body|)
    ensures ParseValue([OPEN_ARRAY] + body + rest, depth) == Ok(v, 1 + |body|)
  {
    Assoc([OPEN_ARRAY], body, rest);
    DropFront([OPEN_ARRAY], body + rest);
  }

  lemma OpenedObject(v: Value, depth: nat, body: Bytes, rest: Bytes)
    requires v.Object? && ParseObject(body + rest, depth + 1) == Ok(v.members, |body|)
    ensures ParseValue([OPEN_OBJECT] + body + rest, depth) == Ok(v, 1 + |body|)
  {
    Assoc([OPEN_OBJECT], body, rest);
    DropFront([OPEN_OBJECT], body + rest);
  }

  lemma {:induction false} SpacedValueIsRead(v: Value, depth: nat, rest: Bytes)
    requires WellFormed(v, depth) && NumberEnd(rest)
    ensures ParseSpacedValue(Text(v) + rest, depth) == Ok(v, |Text(v)|)
    decreases v, 1
  {
    TextStart(v);
    NoSpaces(Text(v) + rest);
    ValueIsRead(v, depth, rest);
  }

  lemma SeparatorIsRead(b: byte, close: byte, rest: Bytes)
    requires b == COMMA || (b == close && !IsSpace(b))
    ensures Separator([b] + rest, close) == Ok(b == COMMA, 1)
  {
    NoSpaces([b] + rest);
  }

  lemma {:induction false} ArrayIsRead(items: seq<Value>, depth: nat, rest: Bytes)
    requires depth <= MAX_DEPTH && forall v :: v in items ==> WellFormed(v, depth)
    ensures var body := if items == [] then [CLOSE_ARRAY] else ItemsText(items);
            ParseArray(body + rest, depth) == Ok(items, |body|)
    decreases items, 1
  {
    if items == [] {
      NoSpaces([CLOSE_ARRAY] + rest);
    } else {
      TextStart(items[0]);
      assert ItemsText(items)[0] == Text(items[0])[0];
      NoSpaces(ItemsText(items) + rest);
      ItemsAreRead(items, depth, rest);
    }
  }

  lemma {:induction false} ItemsAreRead(items: seq<Value>, depth: nat, rest: Bytes)
    requires items != [] && forall v :: v in items ==> WellFormed(v, depth)
    ensures ParseItems(ItemsText(items) + rest, depth) == Ok(items, |ItemsText(items)|)
    decreases items, 0
  {
    hide ParseSpacedValue, Separator;
    var first := Text(items[0]);
    if |items| == 1 {
      SpacedValueIsRead(items[0], depth, [CLOSE_ARRAY] + rest);
      SeparatorIsRead(CLOSE_ARRAY, CLOSE_ARRAY, rest);
      Assoc(first, [CLOSE_ARRAY], rest);
      DropFront(first, [CLOSE_ARRAY] + rest);
      assert items == [items[0]];
    } else {
      var others := ItemsText(items[1..]);
      ItemsAreRead(items[1..], depth, rest);
      SpacedValueIsRead(items[0], depth, [COMMA] + (others + rest));
      MoreItems(first, others, rest, depth, items);
      assert ItemsText(items) == first + ([COMMA] + others);
    }
  }

  lemma MoreItems(first: Bytes, others: Bytes, rest: Bytes, depth: nat, items: seq<Value>)
    requires items != [] && ParseItems(others + rest, depth) == Ok(items[1..], |others|)
    requires ParseSpacedValue(first + ([COMMA] + (others + rest)), depth) == Ok(items[0], |first|)
    ensures ParseItems(first + ([COMMA] + others) + rest, depth) == Ok(items, |first| + 1 + |others|)
  {
    hide ParseItems, ParseSpacedValue, Separator;
    var s := first + ([COMMA] + (others + rest));
    SeparatorIsRead(COMMA, CLOSE_ARRAY, others + rest);
    FourParts(first, COMMA, others, rest);
    ItemsStep(s, depth, items[0], |first|, items[1..], |others|);
    assert items == [items[0]] + items[1..];
  }

  lemma ItemsStep(s: Bytes, depth: nat, v: Value, n: nat, items: seq<Value>, m: nat)
    requires ParseSpacedValue(s, depth) == Ok(v, n)
    requires Separator(s[n..], CLOSE_ARRAY) == Ok(true, 1)
    requires ParseItems(s[n + 1..], depth) == Ok(items, m)
    ensures ParseItems(s, depth) == Ok([v] + items, n + 1 + m)
  {
  }

  lemma FourParts(a: Bytes, b: byte, c: Bytes, d: Bytes)
    ensures a + ([b] + c) + d == a + ([b] + (c + d))
    ensures (a + ([b] + (c + d)))[|a|..] == [b] + (c + d)
    ensures (a + ([b] + (c + d)))[|a| + 1..] == c + d
  {
  }

  lemma {:induction false} ObjectIsRead(members: seq<Member>, depth: nat, rest: Bytes)
    requires depth <= MAX_DEPTH && DistinctNames(members)
    requires forall m :: m in members ==> ValidUtf8(m.name) && WellFormed(m.value, depth)
    ensures var body := if members == [] then [CLOSE_OBJECT] else MembersText(members);
            ParseObject(body + rest, depth) == Ok(members, |body|)
    decreases members, 2
  {
    if members == [] {
      NoSpaces([CLOSE_OBJECT] + rest);
    } else {
      assert MembersText(members)[0] == QUOTE;
      NoSpaces(MembersText(members) + rest);
      MembersAreRead(members, depth, {}, rest);
    }
  }

  lemma NameIsRead(name: Bytes, rest: Bytes)
    requires ValidUtf8(name)
    ensures MemberName(StringText(name) + [COLON] + rest) == Ok(name, |StringText(name)| + 1)
  {
    hide MemberName, StringBody, Escaped;
    var after := [COLON] + rest;
    BodyIsRead(name, after);
    QuotedName(Escaped(name) + [QUOTE], after, name);
    Assoc(StringText(name), [COLON], rest);
    Assoc4([QUOTE], Escaped(name), [QUOTE], after);
  }

  lemma QuotedName(body: Bytes, after: Bytes, name: Bytes)
    requires StringBody(body + after) == Ok(name, |body|) && StartsWith(after, COLON)
    ensures MemberName([QUOTE] + (body + after)) == Ok(name, |body| + 2)
  {
    hide StringBody;
    var s := [QUOTE] + (body + after);
    NoSpaces(s);
    DropFront([QUOTE], body + after);
    assert SpacedString(s) == Ok(name, |body| + 1);
    NoSpaces(after);
    assert s[1 + |body|..] == after;
  }

  lemma {:induction false} MemberIsRead(m: Member, depth: nat, seen: set<Bytes>, rest: Bytes)
    requires ValidUtf8(m.name) && WellFormed(m.value, depth) && m.name !in seen && NumberEnd(rest)
    ensures ParseMember(MemberText(m) + rest, depth, seen) == Ok(m, |MemberText(m)|)
    decreases m, 0
  {
    var name := StringText(m.name) + [COLON];
    NameIsRead(m.name, Text(m.value) + rest);
    SpacedValueIsRead(m.value, depth, rest);
    Assoc(name, Text(m.value), rest);
    DropFront(name, Text(m.value) + rest);
  }

  lemma {:induction false} MembersAreRead(members: seq<Member>, depth: nat, seen: set<Bytes>, rest: Bytes)
    requires members != [] && DistinctNames(members)
    requires forall m :: m in members ==> ValidUtf8(m.name) && WellFormed(m.value, depth) && m.name !in seen
    ensures ParseMembers(MembersText(members) + rest, depth, seen) == Ok(members, |MembersText(members)|)
    decreases members, 1
  {
    var m := members[0];
    if |members| == 1 {
      MemberIsRead(m, depth, seen, [CLOSE_OBJECT] + rest);
      LastMember(members, depth, seen, rest);
    } else {
      TailIsFresh(members, seen);
      MembersAreRead(members[1..], depth, seen + {m.name}, rest);
      MemberIsRead(m, depth, seen, [COMMA] + (MembersText(members[1..]) + rest));
      MoreMembers(members, depth, seen, rest);
    }
  }

  lemma TailIsFresh(members: seq<Member>, seen: set<Bytes>)
    requires members != [] && DistinctNames(members) && forall m :: m in members ==> m.name !in seen
    ensures DistinctNames(members[1..])
    ensures forall m :: m in members[1..] ==> m in members && m.name !in seen + {members[0].name}
  {
  }

  lemma LastMember(members: seq<Member>, depth: nat, seen: set<Bytes>, rest: Bytes)
    requires |members| == 1
    requires ParseMember(MemberText(members[0]) + ([CLOSE_OBJECT] + rest), depth, seen) ==
             Ok(members[0], |MemberText(members[0])|)
    ensures ParseMembers(MembersText(members) + rest, depth, seen) == Ok(members, |MembersText(members)|)
  {
    hide ParseMember, MemberText, Separator;
    var first := MemberText(members[0]);
    assert MembersText(members) == first + [CLOSE_OBJECT];
    SeparatorIsRead(CLOSE_OBJECT, CLOSE_OBJECT, rest);
    Assoc(first, [CLOSE_OBJECT], rest);
    DropFront(first, [CLOSE_OBJECT] + rest);
    assert members == [members[0]];
  }

  lemma MoreMembers(members: seq<Member>, depth: nat, seen: set<Bytes>, rest: Bytes)
    requires |members| > 1
    requires var others := MembersText(members[1..]);
             && ParseMembers(others + rest, depth, seen + {members[0].name}) == Ok(members[1..], |others|)
             && ParseMember(MemberText(members[0]) + ([COMMA] + (others + rest)), depth, seen)
             == Ok(members[0], |MemberText(members[0])|)
    ensures ParseMembers(MembersText(members) + rest, depth, seen) == Ok(members, |MembersText(members)|)
  {
    hide ParseMembers, ParseMember;
    JoinMembers(MemberText(members[0]), MembersText(members[1..]), rest, depth, seen, members[0], members[1..]);
    assert members == [members[0]] + members[1..];
  }

  lemma JoinMembers(first: Bytes, others: Bytes, rest: Bytes, depth: nat, seen: set<Bytes>, m: Member,
                    members: seq<Member>)
    requires ParseMembers(others + rest, depth, seen + {m.name}) == Ok(members, |others|)
    requires ParseMember(first + ([COMMA] + (others + rest)), depth, seen) == Ok(m, |first|)
    ensures ParseMembers(first + ([COMMA] + others) + rest, depth, seen) == Ok([m] + members, |first| + 1 + |others|)
  {
    hide *;
    var t := [COMMA] + (others + rest);
    SeparatorIsRead(COMMA, CLOSE_OBJECT, others + rest);
    FourParts(first, COMMA, others, rest);
    MembersStep(first + t, depth, seen, m, |first|, t, others + rest, members, |others|);
  }

  lemma MembersStep(s: Bytes, depth: nat, seen: set<Bytes>, m: Member, n: nat, t: Bytes, u: Bytes,
                    members: seq<Member>, k: nat)
    requires ParseMember(s, depth, seen) == Ok(m, n) && t == s[n..] && t != [] && u == s[n + 1..]
    requires Separator(t, CLOSE_OBJECT) == Ok(true, 1)
    requires ParseMembers(u, depth, seen + {m.name}) == Ok(members, k)
    ensures ParseMembers(s, depth, seen) == Ok([m] + members, n + 1 + k)
  {
  }

  /** A whole document: what is printed for a value a text can carry is accepted as that very value. */
  lemma PrintedIsAccepted(v: Value)
    requires WellFormed(v, 0)
    ensures Parse(Text(v)) == Accepted(v)
  {
    assert Text(v) + [] == Text(v);
    SpacedValueIsRead(v, 0, []);
  }
}
