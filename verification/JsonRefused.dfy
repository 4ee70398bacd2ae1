/** A printed value is accepted only if a text can carry it: invalid strings, names used twice and nesting too deep
    are refused when they are read back. */
module JsonRefused {
  import opened Ordering
  import opened Utf8
  import opened JsonBasics
  import opened JsonNumber
  import opened JsonString
  import opened Json
  import opened JsonRoundTrip
  import opened JsonAccepted
  import opened JsonCanonical

  /* ---- Strings ---- */

  /** The first k bytes are as they were, and what comes next is no more a continuation than it was. */
  lemma EscapedStart(t: Bytes, tail: Bytes, k: nat)
    requires k <= |t| && forall i :: 0 <= i < k ==> t[i] >= 0x80
    ensures var s := Escaped(t) + ([QUOTE] + tail);
            && |s| > k && s[..k] == t[..k]
            && (if k < |t| && t[k] >= 0x80 then s[k] == t[k] else s[k] < 0x80)
  {
    EscapedTail(t, k);
    var s := Escaped(t) + ([QUOTE] + tail);
    var after := Escaped(t[k..]) + ([QUOTE] + tail);
    assert s == t[..k] + after;
    if k < |t| {
      assert after[0] == Escape(t[k])[0];
    } else {
      assert Escaped(t[k..]) == [];
      assert after[0] == QUOTE;
    }
  }

  /** Bytes that start no character start none when written and closed. */
  lemma NoCharStaysNone(t: Bytes, tail: Bytes)
    requires t != [] && CharLength(t) == 0
    ensures var s := Escaped(t) + ([QUOTE] + tail); s != [] && s[0] == t[0] >= 0x80 && CharLength(s) == 0
  {
    var s := Escaped(t) + ([QUOTE] + tail);
    EscapedStart(t, tail, 0);
    EscapedStart(t, tail, 1);
    if |t| >= 2 && t[1] >= 0x80 {
      EscapedStart(t, tail, 2);
      assert s[..2][1] == s[1] && t[..2][1] == t[1];
      if |t| >= 3 && t[2] >= 0x80 {
        EscapedStart(t, tail, 3);
        assert s[..3][2] == s[2] && t[..3][2] == t[2];
      }
    }
  }

  lemma {:induction false} BodyIsRefused(t: Bytes, rest: Bytes)
    requires !ValidUtf8(t)
    ensures StringBody(Escaped(t) + [QUOTE] + rest).Err?
    decreases |t|
  {
    hide CharLength, Escape, SimpleEscape, UnicodeEscape;
    var after := [QUOTE] + rest;
    Assoc(Escaped(t), [QUOTE], rest);
    var n := CharLength(t);
    if n == 0 {
      NoCharStaysNone(t, rest);
    } else {
      hide Element;
      FirstCharIsRead(t, after);
      Assoc(Escaped(t[n..]), [QUOTE], rest);
      BodyIsRefused(t[n..], rest);
    }
  }

  /* ---- Values ---- */

  lemma {:induction false} ValueIsRefused(v: Value, depth: nat, rest: Bytes)
    requires !WellFormed(v, depth) && NumberEnd(rest)
    ensures ParseValue(Text(v) + rest, depth).Err?
    decreases v, 0
  {
    hide ParseArray, ParseObject, StringBody, ParseNumber;
    match v
    case String(text) =>
      BodyIsRefused(text, rest);
      Assoc4([QUOTE], Escaped(text), [QUOTE], rest);
      DropFront([QUOTE], Escaped(text) + [QUOTE] + rest);
    case Array(items) =>
      var body := if items == [] then [CLOSE_ARRAY] else ItemsText(items);
      ArrayIsRefused(items, depth + 1, rest);
      assert Text(v) == [OPEN_ARRAY] + body;
      Assoc([OPEN_ARRAY], body, rest);
      DropFront([OPEN_ARRAY], body + rest);
    case Object(members) =>
      var body := if members == [] then [CLOSE_OBJECT] else MembersText(members);
      ObjectIsRefused(members, depth + 1, rest);
      assert Text(v) == [OPEN_OBJECT] + body;
      Assoc([OPEN_OBJECT], body, rest);
      DropFront([OPEN_OBJECT], body + rest);
    case _ =>
  }

  lemma {:induction false} SpacedValueIsRefused(v: Value, depth: nat, rest: Bytes)
    requires !WellFormed(v, depth) && NumberEnd(rest)
    ensures ParseSpacedValue(Text(v) + rest, depth).Err?
    decreases v, 1
  {
    hide ParseValue;
    TextStart(v);
    NoSpaces(Text(v) + rest);
    ValueIsRefused(v, depth, rest);
  }

  lemma {:induction false} ArrayIsRefused(items: seq<Value>, depth: nat, rest: Bytes)
    requires depth > MAX_DEPTH || exists v :: v in items && !WellFormed(v, depth)
    ensures var body := if items == [] then [CLOSE_ARRAY] else ItemsText(items);
            ParseArray(body + rest, depth).Err?
    decreases items, 1
  {
    hide ParseItems;
    if depth <= MAX_DEPTH {
      TextStart(items[0]);
      assert ItemsText(items)[0] == Text(items[0])[0];
      NoSpaces(ItemsText(items) + rest);
      ItemsAreRefused(items, depth, rest);
    }
  }

  lemma {:induction false} ItemsAreRefused(items: seq<Value>, depth: nat, rest: Bytes)
    requires items != [] && depth <= MAX_DEPTH && exists v :: v in items && !WellFormed(v, depth)
    ensures ParseItems(ItemsText(items) + rest, depth).Err?
    decreases items, 0
  {
    hide ParseSpacedValue, Separator, ParseItems;
    var first := Text(items[0]);
    var after := if |items| == 1 then [CLOSE_ARRAY] + rest else [COMMA] + (ItemsText(items[1..]) + rest);
    assert ItemsText(items) + rest == first + after by {
      if |items| == 1 {
        Assoc(first, [CLOSE_ARRAY], rest);
      } else {
        FourParts(first, COMMA, ItemsText(items[1..]), rest);
      }
    }
    if !WellFormed(items[0], depth) {
      SpacedValueIsRefused(items[0], depth, after);
      FirstItemRefused(first + after, depth);
    } else {
      var bad :| bad in items && !WellFormed(bad, depth);
      assert bad in items[1..];
      ItemsAreRefused(items[1..], depth, rest);
      SpacedValueIsRead(items[0], depth, after);
      var others := ItemsText(items[1..]) + rest;
      SeparatorIsRead(COMMA, CLOSE_ARRAY, others);
      assert (first + after)[|first|..] == after && (first + after)[|first| + 1..] == others;
      LaterItemsRefused(first + after, depth, items[0], |first|);
    }
  }

  lemma FirstItemRefused(s: Bytes, depth: nat)
    requires ParseSpacedValue(s, depth).Err?
    ensures ParseItems(s, depth).Err?
  {
    hide ParseSpacedValue;
  }

  lemma LaterItemsRefused(s: Bytes, depth: nat, v: Value, n: nat)
    requires ParseSpacedValue(s, depth) == Ok(v, n) && Separator(s[n..], CLOSE_ARRAY) == Ok(true, 1)
    requires ParseItems(s[n + 1..], depth).Err?
    ensures ParseItems(s, depth).Err?
  {
    hide ParseSpacedValue, Separator;
  }

  lemma {:induction false} ObjectIsRefused(members: seq<Member>, depth: nat, rest: Bytes)
    requires depth > MAX_DEPTH || !MembersFit(members, depth, {})
    ensures var body := if members == [] then [CLOSE_OBJECT] else MembersText(members);
            ParseObject(body + rest, depth).Err?
    decreases members, 2
  {
    hide ParseMembers;
    if depth <= MAX_DEPTH {
      assert MembersText(members)[0] == QUOTE;
      NoSpaces(MembersText(members) + rest);
      MembersAreRefused(members, depth, {}, rest);
    }
  }

  ghost predicate MemberFit(m: Member, depth: nat, seen: set<Bytes>) {
    ValidUtf8(m.name) && WellFormed(m.value, depth) && m.name !in seen
  }

  lemma {:induction false} MemberIsRefused(m: Member, depth: nat, seen: set<Bytes>, rest: Bytes)
    requires !MemberFit(m, depth, seen) && NumberEnd(rest)
    ensures ParseMember(MemberText(m) + rest, depth, seen).Err?
    decreases m, 0
  {
    hide MemberName, ParseSpacedValue;
    var after := Text(m.value) + rest;
    var name := StringText(m.name) + [COLON];
    Assoc(name, Text(m.value), rest);
    if !ValidUtf8(m.name) {
      NameIsRefused(m.name, [COLON] + after);
      Assoc(StringText(m.name), [COLON], after);
    } else {
      NameIsRead(m.name, after);
      DropFront(name, after);
      if m.name !in seen {
        SpacedValueIsRefused(m.value, depth, rest);
      }
    }
  }

  lemma NameIsRefused(name: Bytes, after: Bytes)
    requires !ValidUtf8(name)
    ensures MemberName(StringText(name) + after).Err?
  {
    hide StringBody, Escaped;
    var body := Escaped(name) + [QUOTE] + after;
    BodyIsRefused(name, after);
    Assoc4([QUOTE], Escaped(name), [QUOTE], after);
    NoSpaces([QUOTE] + body);
    DropFront([QUOTE], body);
  }

  lemma {:induction false} MembersAreRefused(members: seq<Member>, depth: nat, seen: set<Bytes>, rest: Bytes)
    requires members != [] && depth <= MAX_DEPTH && !MembersFit(members, depth, seen)
    ensures ParseMembers(MembersText(members) + rest, depth, seen).Err?
    decreases members, 1
  {
    hide ParseMember, Separator, ParseMembers, MemberText, MembersFit, MemberFit;
    var first := MemberText(members[0]);
    var after := if |members| == 1 then [CLOSE_OBJECT] + rest else [COMMA] + (MembersText(members[1..]) + rest);
    assert MembersText(members) + rest == first + after by {
      if |members| == 1 {
        Assoc(first, [CLOSE_OBJECT], rest);
      } else {
        FourParts(first, COMMA, MembersText(members[1..]), rest);
      }
    }
    if !MemberFit(members[0], depth, seen) {
      MemberIsRefused(members[0], depth, seen, after);
      FirstMemberRefused(first + after, depth, seen);
    } else {
      OthersDoNotFit(members, depth, seen);
      MembersAreRefused(members[1..], depth, seen + {members[0].name}, rest);
      FitMemberIsRead(members[0], depth, seen, after);
      var others := MembersText(members[1..]) + rest;
      SeparatorIsRead(COMMA, CLOSE_OBJECT, others);
      assert (first + after)[|first|..] == after && (first + after)[|first| + 1..] == others;
      LaterMembersRefused(first + after, depth, seen, members[0], |first|);
    }
  }

  lemma FitMemberIsRead(m: Member, depth: nat, seen: set<Bytes>, rest: Bytes)
    requires MemberFit(m, depth, seen) && NumberEnd(rest)
    ensures ParseMember(MemberText(m) + rest, depth, seen) == Ok(m, |MemberText(m)|)
  {
    hide ParseMember, MemberText;
    MemberIsRead(m, depth, seen, rest);
  }

  /** If the first member is fine, the trouble is with those behind it. */
  lemma OthersDoNotFit(members: seq<Member>, depth: nat, seen: set<Bytes>)
    requires members != [] && !MembersFit(members, depth, seen) && MemberFit(members[0], depth, seen)
    ensures |members| > 1 && !MembersFit(members[1..], depth, seen + {members[0].name})
  {
  }

  lemma FirstMemberRefused(s: Bytes, depth: nat, seen: set<Bytes>)
    requires ParseMember(s, depth, seen).Err?
    ensures ParseMembers(s, depth, seen).Err?
  {
    hide ParseMember;
  }

  lemma LaterMembersRefused(s: Bytes, depth: nat, seen: set<Bytes>, m: Member, n: nat)
    requires ParseMember(s, depth, seen) == Ok(m, n) && Separator(s[n..], CLOSE_OBJECT) == Ok(true, 1)
    requires ParseMembers(s[n + 1..], depth, seen + {m.name}).Err?
    ensures ParseMembers(s, depth, seen).Err?
  {
    hide ParseMember, Separator;
  }

  /** A printed value is read back as itself if a text can carry it, and refused if not. */
  lemma PrintedIsAcceptedIff(v: Value)
    ensures Parse(Text(v)) == if WellFormed(v, 0) then Accepted(v) else Refused
  {
    hide ParseSpacedValue, WellFormed, Text;
    assert Text(v) + [] == Text(v);
    if WellFormed(v, 0) {
      PrintedIsAccepted(v);
    } else {
      SpacedValueIsRefused(v, 0, []);
    }
  }

  /* ---- Arranging neither mends nor breaks a value ---- */

  ghost function Names(members: seq<Member>): set<Bytes> {
    set m | m in members :: m.name
  }

  lemma NamesSplit(members: seq<Member>)
    requires members != []
    ensures Names(members) == {members[0].name} + Names(members[1..])
  {
    assert members == [members[0]] + members[1..];
  }

  lemma DistinctSplits(members: seq<Member>)
    requires members != []
    ensures DistinctNames(members) <==> DistinctNames(members[1..]) && members[0].name !in Names(members[1..])
  {
  }

  lemma {:induction false} NamesCount(members: seq<Member>)
    ensures |Names(members)| <= |members|
    ensures |Names(members)| == |members| <==> DistinctNames(members)
  {
    hide DistinctNames;
    if members == [] {
      assert DistinctNames([]) by {
        NoNames();
      }
      assert Names([]) == {};
    } else {
      NamesCount(members[1..]);
      NamesSplit(members);
      DistinctSplits(members);
    }
  }

  lemma NoNames()
    ensures DistinctNames([])
  {
  }

  /** Reordering members keeps their names distinct, or not distinct. */
  lemma ReorderedNames(a: seq<Member>, b: seq<Member>)
    requires |a| == |b| && Names(a) == Names(b)
    ensures DistinctNames(a) <==> DistinctNames(b)
  {
    hide Names, DistinctNames;
    NamesCount(a);
    NamesCount(b);
  }

  lemma SameNames(members: seq<Member>)
    ensures DistinctNames(SortByName(ArrangedMembers(members))) <==> DistinctNames(members)
    ensures forall m :: m in ArrangedMembers(members) <==> m in SortByName(ArrangedMembers(members))
  {
    hide Arranged, SortByName;
    var arranged := ArrangedMembers(members);
    var sorted := SortByName(arranged);
    SameMembers(sorted, arranged);
    assert |sorted| == |multiset(sorted)| == |multiset(arranged)| == |arranged|;
    ReorderedNames(arranged, sorted);
  }

  lemma {:induction false} ArrangedFitsIff(v: Value, depth: nat)
    ensures WellFormed(Arranged(v), depth) <==> WellFormed(v, depth)
    decreases v
  {
    hide ValidUtf8, SortByName, DistinctNames;
    if WellFormed(v, depth) {
      ArrangedFits(v, depth);
    } else if WellFormed(Arranged(v), depth) {
      match v
      case Array(items) =>
        forall w | w in items
          ensures WellFormed(w, depth + 1)
        {
          var i :| 0 <= i < |items| && items[i] == w;
          assert ArrangedItems(items)[i] in ArrangedItems(items);
          ArrangedFitsIff(w, depth + 1);
        }
      case Object(members) =>
        SameNames(members);
        forall m | m in members
          ensures ValidUtf8(m.name) && WellFormed(m.value, depth + 1)
        {
          var i :| 0 <= i < |members| && members[i] == m;
          assert ArrangedMembers(members)[i] in ArrangedMembers(members);
          ArrangedFitsIff(m.value, depth + 1);
        }
      case _ =>
    }
  }

  /** Canonical text is accepted, with its value's meaning, exactly for the values a text can carry. */
  lemma CanonicalIsAcceptedIff(v: Value)
    ensures Parse(CanonicalText(v)) == if WellFormed(v, 0) then Accepted(Arranged(v)) else Refused
  {
    hide WellFormed, Arranged, Text, Parse;
    ArrangedFitsIff(v, 0);
    PrintedIsAcceptedIff(Arranged(v));
  }
}
