/** The parser looks at nothing but the value's own bytes: it reads the same value from any text that starts with
    them, at the same or a lesser depth. */
module JsonLocal {
  import opened Ordering
  import opened JsonBasics
  import opened JsonNumber
  import opened JsonString
  import opened Json

  lemma SeparatorStart(s: Bytes, close: byte)
    requires Separator(s, close).Ok? && (close == CLOSE_ARRAY || close == CLOSE_OBJECT)
    ensures s != [] && NumberEnd(s)
  {
  }

  lemma SeparatorIsLocal(s: Bytes, t: Bytes, close: byte, n: nat)
    requires Separator(s, close).Ok? && Separator(s, close).used == n && Agree(s, t, n)
    ensures Separator(t, close) == Separator(s, close)
  {
  }

  lemma ColonIsLocal(s: Bytes, t: Bytes, n: nat)
    requires Colon(s).Ok? && Colon(s).used == n && Agree(s, t, n)
    ensures Colon(t) == Colon(s)
  {
    SpacesAgree(s, t, n);
    AgreeAt(s, t, n, Spaces(s));
  }

  lemma SpacedStringIsLocal(s: Bytes, t: Bytes, n: nat)
    requires SpacedString(s).Ok? && SpacedString(s).used == n && Agree(s, t, n)
    ensures SpacedString(t) == SpacedString(s)
  {
    hide StringBody;
    var w := Spaces(s);
    SpacesAgree(s, t, n);
    AgreeAt(s, t, n, w);
    AgreeDrop(s, t, n, w + 1, n - w - 1);
    BodyIsLocal(s[w + 1..], t[w + 1..], n - w - 1);
  }

  lemma MemberNameIsLocal(s: Bytes, t: Bytes, n: nat)
    requires MemberName(s).Ok? && MemberName(s).used == n && Agree(s, t, n)
    ensures MemberName(t) == MemberName(s)
  {
    hide SpacedString, Colon;
    var k := SpacedString(s).used;
    AgreeLess(s, t, n, k);
    SpacedStringIsLocal(s, t, k);
    AgreeDrop(s, t, n, k, n - k);
    ColonIsLocal(s[k..], t[k..], n - k);
  }

  lemma LiteralIsLocal(s: Bytes, t: Bytes, word: Bytes, v: Value, n: nat)
    requires word != [] && Literal(s, word, v).Ok? && Literal(s, word, v).used == n && Agree(s, t, n)
    ensures Literal(t, word, v) == Literal(s, word, v)
  {
    assert s[..n] == word;
  }

  lemma ScalarIsLocal(s: Bytes, t: Bytes, n: nat)
    requires ParseScalar(s).Ok? && ParseScalar(s).used == n && Agree(s, t, n) && NumberEnd(t[n..])
    ensures ParseScalar(t) == ParseScalar(s)
  {
    hide ParseNumber, StringBody, Literal;
    AgreeAt(s, t, n, 0);
    if StartsWith(s, 0x6E) {
      LiteralIsLocal(s, t, NULL_WORD, Null, n);
    } else if StartsWith(s, 0x74) {
      LiteralIsLocal(s, t, TRUE_WORD, Bool(true), n);
    } else if StartsWith(s, 0x66) {
      LiteralIsLocal(s, t, FALSE_WORD, Bool(false), n);
    } else if StartsWith(s, QUOTE) {
      AgreeDrop(s, t, n, 1, n - 1);
      BodyIsLocal(s[1..], t[1..], n - 1);
    } else {
      NumberIsLocal(s, t, n);
    }
  }

  lemma {:induction false} ValueIsLocal(s: Bytes, t: Bytes, n: nat, depth: nat, d: nat)
    requires ParseValue(s, depth).Ok? && ParseValue(s, depth).used == n && Agree(s, t, n) && NumberEnd(t[n..])
             && d <= depth
    ensures ParseValue(t, d) == ParseValue(s, depth)
    decreases |s|, 0
  {
    hide ParseScalar, ParseArray, ParseObject;
    AgreeAt(s, t, n, 0);
    if StartsWith(s, OPEN_ARRAY) {
      AgreeDrop(s, t, n, 1, n - 1);
      ArrayIsLocal(s[1..], t[1..], n - 1, depth + 1, d + 1);
    } else if StartsWith(s, OPEN_OBJECT) {
      AgreeDrop(s, t, n, 1, n - 1);
      ObjectIsLocal(s[1..], t[1..], n - 1, depth + 1, d + 1);
    } else {
      ScalarIsLocal(s, t, n);
    }
  }

  lemma {:induction false} SpacedValueIsLocal(s: Bytes, t: Bytes, n: nat, depth: nat, d: nat)
    requires ParseSpacedValue(s, depth).Ok? && ParseSpacedValue(s, depth).used == n
    requires Agree(s, t, n) && NumberEnd(t[n..]) && d <= depth
    ensures ParseSpacedValue(t, d) == ParseSpacedValue(s, depth)
    decreases |s|, 1
  {
    hide ParseValue;
    var w := Spaces(s);
    SpacesAgree(s, t, n);
    AgreeDrop(s, t, n, w, n - w);
    assert t[w..][n - w..] == t[n..];
    ValueIsLocal(s[w..], t[w..], n - w, depth, d);
  }

  /** A bracket closed at once. */
  lemma EmptyIsLocal(s: Bytes, t: Bytes, close: byte, n: nat)
    requires StartsWith(s[Spaces(s)..], close) && Agree(s, t, n) && Spaces(s) < n
    ensures Spaces(t) == Spaces(s) && StartsWith(t[Spaces(t)..], close)
  {
    SpacesAgree(s, t, n);
    AgreeAt(s, t, n, Spaces(s));
  }

  lemma NotEmptyIsLocal(s: Bytes, t: Bytes, close: byte, n: nat)
    requires !StartsWith(s[Spaces(s)..], close) && Agree(s, t, n) && Spaces(s) < n
    ensures !StartsWith(t[Spaces(t)..], close)
  {
    SpacesAgree(s, t, n);
    AgreeAt(s, t, n, Spaces(s));
  }

  lemma {:induction false} ArrayIsLocal(s: Bytes, t: Bytes, n: nat, depth: nat, d: nat)
    requires ParseArray(s, depth).Ok? && ParseArray(s, depth).used == n && Agree(s, t, n) && d <= depth
    ensures ParseArray(t, d) == ParseArray(s, depth)
    decreases |s|, 3
  {
    hide ParseItems;
    if StartsWith(s[Spaces(s)..], CLOSE_ARRAY) {
      EmptyIsLocal(s, t, CLOSE_ARRAY, n);
    } else {
      ItemsStart(s, depth);
      NotEmptyIsLocal(s, t, CLOSE_ARRAY, n);
      ItemsAreLocal(s, t, n, depth, d);
    }
  }

  lemma ItemsStart(s: Bytes, depth: nat)
    requires ParseItems(s, depth).Ok?
    ensures Spaces(s) < ParseItems(s, depth).used
  {
    hide ParseValue, Separator;
  }

  lemma MembersStart(s: Bytes, depth: nat, seen: set<Bytes>)
    requires ParseMembers(s, depth, seen).Ok?
    ensures Spaces(s) < ParseMembers(s, depth, seen).used
  {
    hide ParseSpacedValue, Separator, StringBody;
  }

  lemma {:induction false} ItemsAreLocal(s: Bytes, t: Bytes, n: nat, depth: nat, d: nat)
    requires ParseItems(s, depth).Ok? && ParseItems(s, depth).used == n && Agree(s, t, n) && d <= depth
    ensures ParseItems(t, d) == ParseItems(s, depth)
    decreases |s|, 2
  {
    hide ParseSpacedValue, Separator;
    var k := ParseSpacedValue(s, depth).used;
    var separator := Separator(s[k..], CLOSE_ARRAY);
    AgreeLess(s, t, n, k);
    AgreeDrop(s, t, n, k, separator.used);
    SeparatorStart(s[k..], CLOSE_ARRAY);
    SeparatorIsLocal(s[k..], t[k..], CLOSE_ARRAY, separator.used);
    SeparatorStart(t[k..], CLOSE_ARRAY);
    SpacedValueIsLocal(s, t, k, depth, d);
    if separator.value {
      var m := k + separator.used;
      AgreeDrop(s, t, n, m, n - m);
      ItemsAreLocal(s[m..], t[m..], n - m, depth, d);
    }
  }

  lemma {:induction false} ObjectIsLocal(s: Bytes, t: Bytes, n: nat, depth: nat, d: nat)
    requires ParseObject(s, depth).Ok? && ParseObject(s, depth).used == n && Agree(s, t, n) && d <= depth
    ensures ParseObject(t, d) == ParseObject(s, depth)
    decreases |s|, 3
  {
    hide ParseMembers;
    if StartsWith(s[Spaces(s)..], CLOSE_OBJECT) {
      EmptyIsLocal(s, t, CLOSE_OBJECT, n);
    } else {
      MembersStart(s, depth, {});
      NotEmptyIsLocal(s, t, CLOSE_OBJECT, n);
      MembersAreLocal(s, t, n, depth, d, {});
    }
  }

  lemma {:induction false} MemberIsLocal(s: Bytes, t: Bytes, n: nat, depth: nat, d: nat, seen: set<Bytes>)
    requires ParseMember(s, depth, seen).Ok? && ParseMember(s, depth, seen).used == n
    requires Agree(s, t, n) && NumberEnd(t[n..]) && d <= depth
    ensures ParseMember(t, d, seen) == ParseMember(s, depth, seen)
    decreases |s|, 1
  {
    hide MemberName, ParseSpacedValue;
    var k := MemberName(s).used;
    AgreeLess(s, t, n, k);
    MemberNameIsLocal(s, t, k);
    AgreeDrop(s, t, n, k, n - k);
    assert t[k..][n - k..] == t[n..];
    SpacedValueIsLocal(s[k..], t[k..], n - k, depth, d);
  }

  lemma {:induction false} MembersAreLocal(s: Bytes, t: Bytes, n: nat, depth: nat, d: nat, seen: set<Bytes>)
    requires ParseMembers(s, depth, seen).Ok? && ParseMembers(s, depth, seen).used == n && Agree(s, t, n) && d <= depth
    ensures ParseMembers(t, d, seen) == ParseMembers(s, depth, seen)
    decreases |s|, 2
  {
    hide ParseMember, Separator;
    var member := ParseMember(s, depth, seen);
    var k := member.used;
    var separator := Separator(s[k..], CLOSE_OBJECT);
    AgreeLess(s, t, n, k);
    AgreeDrop(s, t, n, k, separator.used);
    SeparatorIsLocal(s[k..], t[k..], CLOSE_OBJECT, separator.used);
    SeparatorStart(t[k..], CLOSE_OBJECT);
    MemberIsLocal(s, t, k, depth, d, seen);
    if separator.value {
      var m := k + separator.used;
      AgreeDrop(s, t, n, m, n - m);
      MembersAreLocal(s[m..], t[m..], n - m, depth, d, seen + {member.value.name});
    }
  }

  /** A value cut out of its surroundings is a document of its own. */
  lemma SpanIsDocument(s: Bytes, depth: nat)
    requires ParseValue(s, depth).Ok?
    ensures Parse(s[..ParseValue(s, depth).used]) == Accepted(ParseValue(s, depth).value)
  {
    hide ParseValue;
    var n := ParseValue(s, depth).used;
    var span := s[..n];
    assert span[n..] == [];
    ValueIsLocal(s, span, n, depth, 0);
    ValueStart(s, depth);
    assert span[0] == s[0] && span[0..] == span;
    assert Spaces(span) == 0;
  }

  lemma ValueStart(s: Bytes, depth: nat)
    requires ParseValue(s, depth).Ok?
    ensures s != [] && !IsSpace(s[0])
  {
    hide StringBody, FractionAndExponent, ParseArray, ParseObject;
    assert StartsWith(s, MINUS) || s[0..] == s;
  }
}
