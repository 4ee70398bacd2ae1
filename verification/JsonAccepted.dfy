/** What the parser lets through: valid strings, distinct names and bounded depth. */
module JsonAccepted {
  import opened Ordering
  import opened Utf8
  import opened JsonBasics
  import opened JsonNumber
  import opened JsonString
  import opened Json

  /* ---- Every accepted value is one a text can carry ---- */

  ghost predicate MembersFit(members: seq<Member>, depth: nat, seen: set<Bytes>) {
    && DistinctNames(members)
    && forall m :: m in members ==> ValidUtf8(m.name) && WellFormed(m.value, depth) && m.name !in seen
  }

  lemma {:induction false} ValueFits(s: Bytes, depth: nat)
    requires depth <= MAX_DEPTH && ParseValue(s, depth).Ok?
    ensures WellFormed(ParseValue(s, depth).value, depth)
    decreases |s|, 0
  {
    hide ParseScalar;
    if StartsWith(s, OPEN_ARRAY) {
      ArrayFits(s[1..], depth + 1);
    } else if StartsWith(s, OPEN_OBJECT) {
      ObjectFits(s[1..], depth + 1);
    } else {
      ScalarFits(s, depth);
    }
  }

  lemma ScalarFits(s: Bytes, depth: nat)
    requires ParseScalar(s).Ok?
    ensures WellFormed(ParseScalar(s).value, depth)
  {
    hide ParseNumber, StringBody;
    if StartsWith(s, QUOTE) {
      BodyIsValid(s[1..]);
    }
  }

  lemma {:induction false} ArrayFits(s: Bytes, depth: nat)
    requires ParseArray(s, depth).Ok?
    ensures depth <= MAX_DEPTH
    ensures forall v :: v in ParseArray(s, depth).value ==> WellFormed(v, depth)
    decreases |s|, 3
  {
    hide ParseItems;
    if depth <= MAX_DEPTH && !StartsWith(s[Spaces(s)..], CLOSE_ARRAY) {
      ItemsFit(s, depth);
    }
  }

  lemma {:induction false} ItemsFit(s: Bytes, depth: nat)
    requires depth <= MAX_DEPTH && ParseItems(s, depth).Ok?
    ensures forall v :: v in ParseItems(s, depth).value ==> WellFormed(v, depth)
    decreases |s|, 2
  {
    hide Separator, ParseValue;
    var n := ParseSpacedValue(s, depth).used;
    ValueFits(s[Spaces(s)..], depth);
    var separator := Separator(s[n..], CLOSE_ARRAY);
    if separator.value {
      ItemsFit(s[n + separator.used..], depth);
    }
  }

  lemma {:induction false} ObjectFits(s: Bytes, depth: nat)
    requires ParseObject(s, depth).Ok?
    ensures depth <= MAX_DEPTH && MembersFit(ParseObject(s, depth).value, depth, {})
    decreases |s|, 3
  {
    hide ParseMembers;
    if depth <= MAX_DEPTH && !StartsWith(s[Spaces(s)..], CLOSE_OBJECT) {
      MembersFitAll(s, depth, {});
    }
  }

  lemma {:induction false} MemberFits(s: Bytes, depth: nat, seen: set<Bytes>)
    requires depth <= MAX_DEPTH && ParseMember(s, depth, seen).Ok?
    ensures var m := ParseMember(s, depth, seen).value;
            ValidUtf8(m.name) && WellFormed(m.value, depth) && m.name !in seen
    decreases |s|, 1
  {
    hide ParseValue, StringBody, WellFormed, ValidUtf8, Colon;
    var w := Spaces(s);
    BodyIsValid(s[w + 1..]);
    var n := MemberName(s).used;
    ValueFits(s[n..][Spaces(s[n..])..], depth);
  }

  lemma {:induction false} MembersFitAll(s: Bytes, depth: nat, seen: set<Bytes>)
    requires depth <= MAX_DEPTH && ParseMembers(s, depth, seen).Ok?
    ensures MembersFit(ParseMembers(s, depth, seen).value, depth, seen)
    decreases |s|, 2
  {
    hide Separator, ParseMember;
    MemberFits(s, depth, seen);
    var first := ParseMember(s, depth, seen);
    var separator := Separator(s[first.used..], CLOSE_OBJECT);
    if separator.value {
      var t := s[first.used + separator.used..];
      MembersFitAll(t, depth, seen + {first.value.name});
      NewNameFits(first.value, ParseMembers(t, depth, seen + {first.value.name}).value, depth, seen);
    }
  }

  lemma NewNameFits(first: Member, members: seq<Member>, depth: nat, seen: set<Bytes>)
    requires ValidUtf8(first.name) && WellFormed(first.value, depth) && first.name !in seen
    requires MembersFit(members, depth, seen + {first.name})
    ensures MembersFit([first] + members, depth, seen)
  {
  }

  /** A document the parser accepts holds valid strings, distinct names and at most 200 levels. */
  lemma AcceptedIsWellFormed(s: Bytes)
    requires Parse(s).Accepted?
    ensures WellFormed(Parse(s).value, 0)
  {
    hide ParseValue;
    ValueFits(s[Spaces(s)..], 0);
  }
}
