/** The grammar of RFC 8259 as a relation between texts and values, and that the parser (native/src/json.cpp) accepts
    exactly what it derives. */
module JsonGrammar {
  import opened Ordering
  import opened JsonBasics
  import opened JsonNumber
  import opened JsonString
  import opened Json
  import opened JsonLocal

  /** Section 2: the four white space bytes. */
  predicate Blank(t: Bytes) {
    forall i :: 0 <= i < |t| ==> t[i] in {0x20, 0x09, 0x0A, 0x0D}
  }

  /** Section 7: a string with its quotes. */
  predicate IsString(t: Bytes, text: Bytes) {
    |t| >= 2 && t[0] == 0x22 && StringBody(t[1..]) == Ok(text, |t| - 1)
  }

  /** Section 3: a value without white space around it, in so many arrays and objects. */
  ghost predicate IsValue(t: Bytes, v: Value, depth: nat)
    decreases v, 0
  {
    match v
    case Null => t == [0x6E, 0x75, 0x6C, 0x6C]
    case Bool(flag) => t == if flag then [0x74, 0x72, 0x75, 0x65] else [0x66, 0x61, 0x6C, 0x73, 0x65]
    case Number(d) => ParseNumber(t) == Ok(d, |t|)
    case String(text) => IsString(t, text)
    case Array(items) =>
      && depth < 200 && |t| >= 2 && t[0] == 0x5B && t[|t| - 1] == 0x5D
      && if items == [] then Blank(t[1..|t| - 1]) else AreItems(t[1..|t| - 1], items, depth + 1)
    case Object(members) =>
      && depth < 200 && |t| >= 2 && t[0] == 0x7B && t[|t| - 1] == 0x7D && DistinctNames(members)
      && if members == [] then Blank(t[1..|t| - 1]) else AreMembers(t[1..|t| - 1], members, depth + 1)
  }

  /** A value from i up to j, with white space around it. */
  ghost predicate StandsAt(t: Bytes, v: Value, depth: nat, i: nat, j: nat)
    decreases v, 1
  {
    i <= j <= |t| && Blank(t[..i]) && Blank(t[j..]) && IsValue(t[i..j], v, depth)
  }

  ghost predicate IsSpaced(t: Bytes, v: Value, depth: nat)
    decreases v, 2
  {
    exists i: nat, j: nat :: StandsAt(t, v, depth, i, j)
  }

  /** Section 5: values with commas between them. */
  ghost predicate AreItems(t: Bytes, items: seq<Value>, depth: nat)
    requires items != []
    decreases items, 0
  {
    if |items| == 1 then IsSpaced(t, items[0], depth)
    else exists k: nat :: CommaAt(t, k) && IsSpaced(t[..k], items[0], depth) && AreItems(t[k + 1..], items[1..], depth)
  }

  predicate CommaAt(t: Bytes, k: nat) {
    k < |t| && t[k] == 0x2C
  }

  /** A name from i up to j, with white space around it, and a colon at k. */
  predicate NameStands(t: Bytes, name: Bytes, i: nat, j: nat, k: nat) {
    i <= j <= k < |t| && t[k] == 0x3A && Blank(t[..i]) && IsString(t[i..j], name) && Blank(t[j..k])
  }

  /** Section 4: a name, a colon and a value. */
  ghost predicate IsMember(t: Bytes, m: Member, depth: nat)
    decreases m, 3
  {
    exists i: nat, j: nat, k: nat :: NameStands(t, m.name, i, j, k) && IsSpaced(t[k + 1..], m.value, depth)
  }

  ghost predicate AreMembers(t: Bytes, members: seq<Member>, depth: nat)
    requires members != []
    decreases members, 0
  {
    if |members| == 1 then IsMember(t, members[0], depth)
    else
      exists k: nat ::
        CommaAt(t, k) && IsMember(t[..k], members[0], depth) && AreMembers(t[k + 1..], members[1..], depth)
  }

  /* ---- What is accepted is derived ---- */

  lemma SpacesAreBlank(s: Bytes)
    ensures Blank(s[..Spaces(s)])
  {
  }

  lemma ScalarIsDerived(s: Bytes, depth: nat)
    requires ParseScalar(s).Ok?
    ensures IsValue(s[..ParseScalar(s).used], ParseScalar(s).value, depth)
  {
    var n := ParseScalar(s).used;
    var t := s[..n];
    assert t[n..] == [] && Agree(s, t, n);
    ScalarIsLocal(s, t, n);
    hide ParseNumber, StringBody;
  }

  lemma {:induction false} ValueIsDerived(s: Bytes, depth: nat)
    requires ParseValue(s, depth).Ok?
    ensures IsValue(s[..ParseValue(s, depth).used], ParseValue(s, depth).value, depth)
    decreases |s|, 0
  {
    hide ParseScalar, ParseArray, ParseObject;
    var n, v := ParseValue(s, depth).used, ParseValue(s, depth).value;
    if StartsWith(s, OPEN_ARRAY) {
      ArrayIsDerived(s[1..], depth + 1);
      assert s[..n][1..n - 1] == s[1..][..n - 2];
    } else if StartsWith(s, OPEN_OBJECT) {
      ObjectIsDerived(s[1..], depth + 1);
      assert s[..n][1..n - 1] == s[1..][..n - 2];
    } else {
      ScalarIsDerived(s, depth);
    }
  }

  /** A value that is read, with all the white space up to m. */
  lemma {:induction false} SpacedIsDerived(s: Bytes, depth: nat, m: nat)
    requires ParseSpacedValue(s, depth).Ok? && ParseSpacedValue(s, depth).used <= m <= |s|
    requires Blank(s[ParseSpacedValue(s, depth).used..m])
    ensures IsSpaced(s[..m], ParseSpacedValue(s, depth).value, depth)
    decreases |s|, 1
  {
    hide ParseValue, IsValue;
    var w, n, v := Spaces(s), ParseSpacedValue(s, depth).used, ParseSpacedValue(s, depth).value;
    ValueIsDerived(s[w..], depth);
    SpacesAreBlank(s);
    assert s[..m][w..n] == s[w..][..n - w] && s[..m][..w] == s[..w] && s[..m][n..] == s[n..m];
    assert StandsAt(s[..m], v, depth, w, n);
  }

  lemma SeparatorIsDerived(s: Bytes, close: byte)
    requires Separator(s, close).Ok?
    ensures var k := Separator(s, close).used;
            k > 0 && Blank(s[..k - 1]) && s[k - 1] == if Separator(s, close).value then COMMA else close
  {
    SpacesAreBlank(s);
  }

  lemma {:induction false} ArrayIsDerived(s: Bytes, depth: nat)
    requires ParseArray(s, depth).Ok?
    ensures var n, items := ParseArray(s, depth).used, ParseArray(s, depth).value;
            && n > 0 && s[n - 1] == CLOSE_ARRAY && depth <= 200
            && if items == [] then Blank(s[..n - 1]) else AreItems(s[..n - 1], items, depth)
    decreases |s|, 3
  {
    hide ParseItems, AreItems;
    if StartsWith(s[Spaces(s)..], CLOSE_ARRAY) {
      SpacesAreBlank(s);
    } else {
      ItemsAreDerived(s, depth);
    }
  }

  lemma {:induction false} ItemsAreDerived(s: Bytes, depth: nat)
    requires ParseItems(s, depth).Ok?
    ensures var n, items := ParseItems(s, depth).used, ParseItems(s, depth).value;
            n > 0 && s[n - 1] == CLOSE_ARRAY && items != [] && AreItems(s[..n - 1], items, depth)
    decreases |s|, 2
  {
    hide ParseSpacedValue, Separator, IsSpaced;
    var first := ParseSpacedValue(s, depth);
    var separator := Separator(s[first.used..], CLOSE_ARRAY);
    SeparatorIsDerived(s[first.used..], CLOSE_ARRAY);
    var k := first.used + separator.used - 1;
    assert s[first.used..k] == s[first.used..][..separator.used - 1];
    SpacedIsDerived(s, depth, k);
    if separator.value {
      ItemsAreDerived(s[k + 1..], depth);
      MoreAreItems(s, first.value, k, ParseItems(s[k + 1..], depth).value, ParseItems(s, depth).used, depth);
    }
  }

  lemma MoreAreItems(s: Bytes, v: Value, k: nat, items: seq<Value>, n: nat, depth: nat)
    requires k + 1 < n <= |s| && s[k] == COMMA && IsSpaced(s[..k], v, depth)
    requires items != [] && AreItems(s[k + 1..][..n - 1 - (k + 1)], items, depth)
    ensures AreItems(s[..n - 1], [v] + items, depth)
  {
    hide IsSpaced;
    var t := s[..n - 1];
    assert t[..k] == s[..k] && t[k + 1..] == s[k + 1..][..n - 1 - (k + 1)] && ([v] + items)[1..] == items;
    assert CommaAt(t, k);
  }

  lemma {:induction false} ObjectIsDerived(s: Bytes, depth: nat)
    requires ParseObject(s, depth).Ok?
    ensures var n, members := ParseObject(s, depth).used, ParseObject(s, depth).value;
            && n > 0 && s[n - 1] == CLOSE_OBJECT && depth <= 200 && DistinctNames(members)
            && if members == [] then Blank(s[..n - 1]) else AreMembers(s[..n - 1], members, depth)
    decreases |s|, 4
  {
    hide ParseMembers, AreMembers;
    if StartsWith(s[Spaces(s)..], CLOSE_OBJECT) {
      SpacesAreBlank(s);
    } else {
      MembersAreDerived(s, depth, {});
    }
  }

  lemma NameIsDerived(s: Bytes) returns (i: nat, j: nat)
    requires MemberName(s).Ok?
    ensures var n := MemberName(s).used; NameStands(s[..n], MemberName(s).value, i, j, n - 1)
  {
    hide StringBody;
    i, j := Spaces(s), SpacedString(s).used;
    var n := MemberName(s).used;
    SpacesAreBlank(s);
    SpacesAreBlank(s[j..]);
    QuotedIsString(s[i..], j - i);
    assert s[i..][1..] == s[i + 1..];
    NameParts(s, i, j, n);
    hide MemberName, SpacedString, Blank, IsString, Spaces;
  }

  lemma NameParts(s: Bytes, i: nat, j: nat, n: nat)
    requires i <= j < n <= |s|
    ensures var t := s[..n];
            t[..i] == s[..i] && t[i..j] == s[i..][..j - i] && t[j..n - 1] == s[j..][..n - 1 - j] && t[n - 1] == s[n - 1]
  {
  }

  lemma QuotedIsString(s: Bytes, n: nat)
    requires StartsWith(s, QUOTE) && StringBody(s[1..]).Ok? && n == 1 + StringBody(s[1..]).used
    ensures IsString(s[..n], StringBody(s[1..]).value)
  {
    assert s[..n][1..] == s[1..][..n - 1] && s[..n][1..][..n - 1] == s[1..][..n - 1];
    BodyIsLocal(s[1..], s[..n][1..], n - 1);
    hide StringBody;
  }

  lemma {:induction false} MemberIsDerived(s: Bytes, depth: nat, seen: set<Bytes>, m: nat)
    requires ParseMember(s, depth, seen).Ok? && ParseMember(s, depth, seen).used <= m <= |s|
    requires Blank(s[ParseMember(s, depth, seen).used..m])
    ensures IsMember(s[..m], ParseMember(s, depth, seen).value, depth)
    ensures ParseMember(s, depth, seen).value.name !in seen
    decreases |s|, 2
  {
    hide ParseSpacedValue, MemberName, IsSpaced, Blank, NameStands;
    var n := MemberName(s).used;
    var i, j := NameIsDerived(s);
    var value := ParseSpacedValue(s[n..], depth);
    assert s[n..][value.used..m - n] == s[n + value.used..m];
    SpacedIsDerived(s[n..], depth, m - n);
    assert s[..m][n..] == s[n..][..m - n];
    NameStandsOn(s, MemberName(s).value, i, j, n, m);
  }

  lemma NameStandsOn(s: Bytes, name: Bytes, i: nat, j: nat, n: nat, m: nat)
    requires 0 < n <= m <= |s| && NameStands(s[..n], name, i, j, n - 1)
    ensures NameStands(s[..m], name, i, j, n - 1)
  {
    NameParts(s, i, j, n);
    var t := s[..m];
    assert t[..i] == s[..i] && t[i..j] == s[i..][..j - i] && t[j..n - 1] == s[j..][..n - 1 - j];
    hide IsString, Blank;
  }

  lemma {:induction false} MembersAreDerived(s: Bytes, depth: nat, seen: set<Bytes>)
    requires ParseMembers(s, depth, seen).Ok?
    ensures var n, members := ParseMembers(s, depth, seen).used, ParseMembers(s, depth, seen).value;
            && n > 0 && s[n - 1] == CLOSE_OBJECT && members != [] && AreMembers(s[..n - 1], members, depth)
            && DistinctNames(members) && forall m :: m in members ==> m.name !in seen
    decreases |s|, 3
  {
    hide ParseMember, ParseMembers, Separator, IsMember, AreMembers, DistinctNames;
    var first := ParseMember(s, depth, seen);
    MembersUnfold(s, depth, seen);
    var separator := Separator(s[first.used..], CLOSE_OBJECT);
    SeparatorIsDerived(s[first.used..], CLOSE_OBJECT);
    var k := first.used + separator.used - 1;
    assert s[first.used..k] == s[first.used..][..separator.used - 1];
    MemberIsDerived(s, depth, seen, k);
    if separator.value {
      var later := seen + {first.value.name};
      MembersAreDerived(s[k + 1..], depth, later);
      MoreAreMembers(s, first.value, k, ParseMembers(s[k + 1..], depth, later).value,
                     ParseMembers(s, depth, seen).used, depth);
    } else {
      OneIsMembers(s[..k], first.value, depth);
    }
  }

  lemma MembersUnfold(s: Bytes, depth: nat, seen: set<Bytes>)
    requires ParseMembers(s, depth, seen).Ok?
    ensures var first := ParseMember(s, depth, seen);
            && first.Ok?
            && var separator := Separator(s[first.used..], CLOSE_OBJECT);
            && separator.Ok?
            && var n := first.used + separator.used;
            && (!separator.value ==> ParseMembers(s, depth, seen) == Ok([first.value], n))
            && (separator.value ==>
                  && var rest := ParseMembers(s[n..], depth, seen + {first.value.name});
                  rest.Ok? && ParseMembers(s, depth, seen) == Ok([first.value] + rest.value, n + rest.used))
  {
    hide ParseMember, Separator;
  }

  lemma OneIsMembers(t: Bytes, m: Member, depth: nat)
    requires IsMember(t, m, depth)
    ensures AreMembers(t, [m], depth) && DistinctNames([m])
  {
    hide IsMember;
  }

  lemma MoreAreMembers(s: Bytes, m: Member, k: nat, members: seq<Member>, n: nat, depth: nat)
    requires k + 1 < n <= |s| && s[k] == COMMA && IsMember(s[..k], m, depth)
    requires members != [] && AreMembers(s[k + 1..][..n - 1 - (k + 1)], members, depth)
    requires DistinctNames(members) && forall x :: x in members ==> x.name != m.name
    ensures AreMembers(s[..n - 1], [m] + members, depth) && DistinctNames([m] + members)
  {
    hide IsMember;
    var t := s[..n - 1];
    assert t[..k] == s[..k] && t[k + 1..] == s[k + 1..][..n - 1 - (k + 1)] && ([m] + members)[1..] == members;
    assert CommaAt(t, k);
  }

  /* ---- What is derived is accepted ---- */

  lemma BlankIsSkipped(w: Bytes, rest: Bytes)
    requires Blank(w) && (rest == [] || !IsSpace(rest[0]))
    ensures Spaces(w + rest) == |w|
  {
    SpacesAre(w + rest, |w|);
  }

  lemma ValueStarts(t: Bytes, v: Value, depth: nat)
    requires IsValue(t, v, depth)
    ensures t != [] && !IsSpace(t[0]) && t[0] != CLOSE_ARRAY && t[0] != CLOSE_OBJECT
  {
  }

  lemma ScalarIsParsed(t: Bytes, v: Value, depth: nat, rest: Bytes)
    requires IsValue(t, v, depth) && !v.Array? && !v.Object? && NumberEnd(rest)
    ensures ParseValue(t + rest, depth) == Ok(v, |t|)
  {
    hide ParseNumber, StringBody;
    ValueStarts(t, v, depth);
    assert ParseScalar(t) == Ok(v, |t|) by {
      ScalarAlone(t, v, depth);
    }
    assert (t + rest)[|t|..] == rest && Agree(t, t + rest, |t|);
    hide ParseScalar;
    ScalarIsLocal(t, t + rest, |t|);
    ScalarFirst(t, v, depth);
  }

  lemma ScalarFirst(t: Bytes, v: Value, depth: nat)
    requires IsValue(t, v, depth) && !v.Array? && !v.Object?
    ensures t != [] && t[0] != OPEN_ARRAY && t[0] != OPEN_OBJECT
  {
  }

  lemma ScalarAlone(t: Bytes, v: Value, depth: nat)
    requires IsValue(t, v, depth) && !v.Array? && !v.Object?
    ensures ParseScalar(t) == Ok(v, |t|)
  {
    hide StringBody;
  }

  lemma {:induction false} ValueIsParsed(t: Bytes, v: Value, depth: nat, rest: Bytes)
    requires IsValue(t, v, depth) && NumberEnd(rest)
    ensures ParseValue(t + rest, depth) == Ok(v, |t|)
    decreases v, 0
  {
    hide AreItems, AreMembers, ParseArray, ParseObject, ParseScalar, Blank;
    match v
    case Array(items) =>
      hide DistinctNames;
      var body := t[1..|t| - 1];
      ArrayIsParsed(body, items, depth + 1, rest);
      Bracketed(t, rest);
    case Object(members) =>
      var body := t[1..|t| - 1];
      ObjectIsParsed(body, members, depth + 1, rest);
      Bracketed(t, rest);
    case _ =>
      ScalarIsParsed(t, v, depth, rest);
  }

  lemma Bracketed(t: Bytes, rest: Bytes)
    requires |t| >= 2
    ensures (t + rest)[1..] == t[1..|t| - 1] + [t[|t| - 1]] + rest && (t + rest)[0] == t[0]
  {
  }

  /** A value with white space around it, up to what ends it. */
  lemma {:induction false} SpacedIsParsed(t: Bytes, v: Value, depth: nat, close: byte, rest: Bytes)
    requires IsSpaced(t, v, depth) && (close == CLOSE_ARRAY || close == CLOSE_OBJECT)
    requires rest != [] && (rest[0] == COMMA || rest[0] == close)
    ensures var p := ParseSpacedValue(t + rest, depth);
            && p.Ok? && p.value == v && p.used <= |t|
            && Separator((t + rest)[p.used..], close) == Ok(rest[0] == COMMA, |t| - p.used + 1)
    decreases v, 1
  {
    hide IsValue, ParseSpacedValue, ParseValue, Separator, NumberEnd;
    var i: nat, j: nat :| StandsAt(t, v, depth, i, j);
    hide Blank;
    ValueStarts(t[i..j], v, depth);
    EndsNumber(t[j..], rest);
    ValueIsParsed(t[i..j], v, depth, t[j..] + rest);
    SpacedPieces(t[..i], t[i..j], t[j..], v, depth, close, rest);
    SpacedParts(t, i, j, rest);
  }

  lemma SpacedPieces(a: Bytes, text: Bytes, w: Bytes, v: Value, depth: nat, close: byte, rest: Bytes)
    requires Blank(a) && Blank(w) && text != [] && !IsSpace(text[0])
    requires ParseValue(text + (w + rest), depth) == Ok(v, |text|)
    requires rest != [] && (rest[0] == COMMA || rest[0] == close) && (close == CLOSE_ARRAY || close == CLOSE_OBJECT)
    ensures var s := a + (text + (w + rest));
            && ParseSpacedValue(s, depth) == Ok(v, |a| + |text|)
            && Separator(s[|a| + |text|..], close) == Ok(rest[0] == COMMA, |w| + 1)
  {
    var after := w + rest;
    BlankIsSkipped(a, text + after);
    BlankIsSkipped(w, rest);
    DropFront(a, text + after);
    DropFront(w, rest);
    hide Blank, Spaces, ParseValue;
    assert (a + (text + after))[|a| + |text|..] == after;
  }

  lemma EndsNumber(w: Bytes, rest: Bytes)
    requires Blank(w) && (rest == [] || rest[0] == COMMA || rest[0] == CLOSE_ARRAY || rest[0] == CLOSE_OBJECT)
    ensures NumberEnd(w + rest)
  {
  }

  lemma SpacedParts(t: Bytes, i: nat, j: nat, rest: Bytes)
    requires i <= j <= |t|
    ensures t + rest == t[..i] + (t[i..j] + (t[j..] + rest)) && i + |t[i..j]| == j
  {
  }

  lemma ItemsDoNotClose(s: Bytes, depth: nat)
    requires ParseItems(s, depth).Ok?
    ensures !StartsWith(s[Spaces(s)..], CLOSE_ARRAY)
  {
    ValueDoesNotClose(s[Spaces(s)..], depth);
    hide Separator, ParseValue;
  }

  lemma ValueDoesNotClose(t: Bytes, depth: nat)
    requires ParseValue(t, depth).Ok?
    ensures !StartsWith(t, CLOSE_ARRAY)
  {
    hide StringBody, FractionAndExponent;
    assert t[0..] == t;
  }

  lemma MembersDoNotClose(s: Bytes, depth: nat)
    requires ParseMembers(s, depth, {}).Ok?
    ensures !StartsWith(s[Spaces(s)..], CLOSE_OBJECT)
  {
    hide Separator, StringBody, ParseSpacedValue;
  }

  lemma {:induction false} ArrayIsParsed(t: Bytes, items: seq<Value>, depth: nat, rest: Bytes)
    requires depth <= 200 && if items == [] then Blank(t) else AreItems(t, items, depth)
    ensures ParseArray(t + [CLOSE_ARRAY] + rest, depth) == Ok(items, |t| + 1)
    decreases items, 1
  {
    hide ParseItems, AreItems;
    var s := t + [CLOSE_ARRAY] + rest;
    if items == [] {
      assert s == t + ([CLOSE_ARRAY] + rest);
      BlankIsSkipped(t, [CLOSE_ARRAY] + rest);
    } else {
      ItemsAreParsed(t, items, depth, rest);
      ItemsDoNotClose(s, depth);
    }
  }

  lemma {:induction false} ItemsAreParsed(t: Bytes, items: seq<Value>, depth: nat, rest: Bytes)
    requires items != [] && AreItems(t, items, depth)
    ensures ParseItems(t + [CLOSE_ARRAY] + rest, depth) == Ok(items, |t| + 1)
    decreases items, 0
  {
    hide ParseSpacedValue, Separator, IsSpaced;
    if |items| == 1 {
      Assoc(t, [CLOSE_ARRAY], rest);
      SpacedIsParsed(t, items[0], depth, CLOSE_ARRAY, [CLOSE_ARRAY] + rest);
      assert items == [items[0]];
    } else {
      var k: nat :| CommaAt(t, k) && IsSpaced(t[..k], items[0], depth) && AreItems(t[k + 1..], items[1..], depth);
      var after := t[k + 1..] + [CLOSE_ARRAY] + rest;
      AtComma(t, k, CLOSE_ARRAY, rest);
      SpacedIsParsed(t[..k], items[0], depth, CLOSE_ARRAY, [COMMA] + after);
      ItemsAreParsed(t[k + 1..], items[1..], depth, rest);
      hide ParseItems, AreItems;
      ItemsGoOn(t[..k] + ([COMMA] + after), k, depth, items[0], items[1..], after, |t| - k);
      assert items == [items[0]] + items[1..];
    }
  }

  lemma AtComma(t: Bytes, k: nat, close: byte, rest: Bytes)
    requires CommaAt(t, k)
    ensures var after := t[k + 1..] + [close] + rest;
            t + [close] + rest == t[..k] + ([COMMA] + after) && (t[..k] + ([COMMA] + after))[k + 1..] == after
  {
  }

  lemma ItemsGoOn(s: Bytes, k: nat, depth: nat, v: Value, items: seq<Value>, after: Bytes, m: nat)
    requires var p := ParseSpacedValue(s, depth);
             && p.Ok? && p.value == v && p.used <= k < |s|
             && Separator(s[p.used..], CLOSE_ARRAY) == Ok(true, k - p.used + 1)
    requires s[k + 1..] == after && ParseItems(after, depth) == Ok(items, m)
    ensures ParseItems(s, depth) == Ok([v] + items, k + 1 + m)
  {
    hide ParseSpacedValue, Separator;
  }

  lemma {:induction false} ObjectIsParsed(t: Bytes, members: seq<Member>, depth: nat, rest: Bytes)
    requires depth <= 200 && DistinctNames(members)
    requires if members == [] then Blank(t) else AreMembers(t, members, depth)
    ensures ParseObject(t + [CLOSE_OBJECT] + rest, depth) == Ok(members, |t| + 1)
    decreases members, 5
  {
    hide ParseMembers, AreMembers;
    var s := t + [CLOSE_OBJECT] + rest;
    if members == [] {
      assert s == t + ([CLOSE_OBJECT] + rest);
      BlankIsSkipped(t, [CLOSE_OBJECT] + rest);
    } else {
      MembersAreParsed(t, members, depth, {}, rest);
      MembersDoNotClose(s, depth);
    }
  }

  lemma NameIsParsed(t: Bytes, name: Bytes, i: nat, j: nat, k: nat, rest: Bytes)
    requires NameStands(t, name, i, j, k)
    ensures MemberName(t + rest) == Ok(name, k + 1)
  {
    hide StringBody;
    var s, text := t + rest, t[i..j];
    NameAlone(text, name, s[j..]);
    SplitAt(t, i, j, k, rest);
    BlankIsSkipped(t[..i], s[i..]);
    BlankIsSkipped(t[j..k], s[k..]);
    hide Blank, IsString;
    assert s[i..][1..] == s[i + 1..];
    NameStep(s, i, name, j, k);
  }

  lemma SplitAt(t: Bytes, i: nat, j: nat, k: nat, rest: Bytes)
    requires i < j <= k < |t|
    ensures var s := t + rest;
            && s == t[..i] + s[i..] && s[i..] == t[i..j] + s[j..] && s[i..][0] == t[i..j][0]
            && s[j..] == t[j..k] + s[k..] && s[k..][0] == t[k] && s[j..][k - j..] == s[k..]
  {
  }

  /** A string reads the same whatever follows. */
  lemma NameAlone(text: Bytes, name: Bytes, rest: Bytes)
    requires IsString(text, name)
    ensures (text + rest)[0] == QUOTE && StringBody((text + rest)[1..]) == Ok(name, |text| - 1)
  {
    assert (text + rest)[1..][..|text| - 1] == text[1..] && text[1..][..|text| - 1] == text[1..];
    BodyIsLocal(text[1..], (text + rest)[1..], |text| - 1);
    hide StringBody;
  }

  lemma NameStep(s: Bytes, w: nat, name: Bytes, j: nat, k: nat)
    requires w < j <= k < |s| && Spaces(s) == w && s[w] == QUOTE && StringBody(s[w + 1..]) == Ok(name, j - w - 1)
    requires Spaces(s[j..]) == k - j && s[k] == COLON
    ensures MemberName(s) == Ok(name, k + 1)
  {
    hide StringBody, Spaces;
    assert SpacedString(s) == Ok(name, j) by {
      assert StartsWith(s[w..], QUOTE);
    }
    assert Colon(s[j..]) == Ok(true, k - j + 1) by {
      assert s[j..][k - j..] == s[k..] && StartsWith(s[k..], COLON);
    }
    hide SpacedString, Colon;
  }

  lemma {:induction false} MemberIsParsed(t: Bytes, m: Member, depth: nat, seen: set<Bytes>, rest: Bytes)
    requires IsMember(t, m, depth) && m.name !in seen && rest != [] && (rest[0] == COMMA || rest[0] == CLOSE_OBJECT)
    ensures var p := ParseMember(t + rest, depth, seen);
            && p.Ok? && p.value == m && p.used <= |t|
            && Separator((t + rest)[p.used..], CLOSE_OBJECT) == Ok(rest[0] == COMMA, |t| - p.used + 1)
    decreases m, 4
  {
    hide ParseSpacedValue, MemberName, IsSpaced, Separator;
    var i: nat, j: nat, k: nat :| NameStands(t, m.name, i, j, k) && IsSpaced(t[k + 1..], m.value, depth);
    NameIsParsed(t, m.name, i, j, k, rest);
    SpacedIsParsed(t[k + 1..], m.value, depth, CLOSE_OBJECT, rest);
    assert (t + rest)[k + 1..] == t[k + 1..] + rest;
    var n := ParseSpacedValue(t[k + 1..] + rest, depth).used;
    assert (t + rest)[k + 1 + n..] == (t[k + 1..] + rest)[n..];
  }

  lemma {:induction false} MembersAreParsed(t: Bytes, members: seq<Member>, depth: nat, seen: set<Bytes>, rest: Bytes)
    requires members != [] && AreMembers(t, members, depth) && DistinctNames(members)
    requires forall m :: m in members ==> m.name !in seen
    ensures ParseMembers(t + [CLOSE_OBJECT] + rest, depth, seen) == Ok(members, |t| + 1)
    decreases members, 4
  {
    hide ParseMember, Separator, IsMember, ParseMembers, DistinctNames, AreMembers, CommaAt;
    var k := FirstOfMembers(t, members, depth);
    if |members| == 1 {
      MemberIsParsed(t, members[0], depth, seen, [CLOSE_OBJECT] + rest);
      LastIsParsed(t, members[0], depth, seen, rest);
      assert members == [members[0]];
    } else {
      RestIsNew(members, seen);
      var later := seen + {members[0].name};
      MembersAreParsed(t[k + 1..], members[1..], depth, later, rest);
      MoreAreParsed(t, k, members, depth, seen, later, rest);
    }
  }

  /** Where the first of some members ends. */
  lemma FirstOfMembers(t: Bytes, members: seq<Member>, depth: nat) returns (k: nat)
    requires members != [] && AreMembers(t, members, depth)
    ensures if |members| == 1 then IsMember(t, members[0], depth)
            else CommaAt(t, k) && k < |t| && IsMember(t[..k], members[0], depth)
                 && AreMembers(t[k + 1..], members[1..], depth)
  {
    hide IsMember;
    k := 0;
    if |members| > 1 {
      k :| CommaAt(t, k) && IsMember(t[..k], members[0], depth) && AreMembers(t[k + 1..], members[1..], depth);
    }
  }

  lemma {:induction false} MoreAreParsed(t: Bytes, k: nat, members: seq<Member>, depth: nat, seen: set<Bytes>,
                                         later: set<Bytes>, rest: Bytes)
    requires |members| > 1 && CommaAt(t, k) && IsMember(t[..k], members[0], depth) && members[0].name !in seen
    requires later == seen + {members[0].name}
    requires ParseMembers(t[k + 1..] + [CLOSE_OBJECT] + rest, depth, later) == Ok(members[1..], |t| - k)
    ensures ParseMembers(t + [CLOSE_OBJECT] + rest, depth, seen) == Ok(members, |t| + 1)
    decreases members, 3
  {
    hide ParseMember, Separator, IsMember, ParseMembers;
    var after := t[k + 1..] + [CLOSE_OBJECT] + rest;
    AtComma(t, k, CLOSE_OBJECT, rest);
    MemberIsParsed(t[..k], members[0], depth, seen, [COMMA] + after);
    MembersGoOn(t[..k] + ([COMMA] + after), k, depth, seen, members[0], members[1..], after, |t| - k);
    assert members == [members[0]] + members[1..];
  }

  lemma LastIsParsed(t: Bytes, m: Member, depth: nat, seen: set<Bytes>, rest: Bytes)
    requires var s := t + ([CLOSE_OBJECT] + rest);
             var p := ParseMember(s, depth, seen);
             && p.Ok? && p.value == m && p.used <= |t|
             && Separator(s[p.used..], CLOSE_OBJECT) == Ok(false, |t| - p.used + 1)
    ensures ParseMembers(t + [CLOSE_OBJECT] + rest, depth, seen) == Ok([m], |t| + 1)
  {
    hide ParseMember, Separator;
    Assoc(t, [CLOSE_OBJECT], rest);
  }

  lemma MembersGoOn(s: Bytes, k: nat, depth: nat, seen: set<Bytes>, m: Member, members: seq<Member>, after: Bytes,
                    n: nat)
    requires var p := ParseMember(s, depth, seen);
             && p.Ok? && p.value == m && p.used <= k < |s|
             && Separator(s[p.used..], CLOSE_OBJECT) == Ok(true, k - p.used + 1)
    requires s[k + 1..] == after && ParseMembers(after, depth, seen + {m.name}) == Ok(members, n)
    ensures ParseMembers(s, depth, seen) == Ok([m] + members, k + 1 + n)
  {
    hide ParseMember, Separator;
  }

  lemma RestIsNew(members: seq<Member>, seen: set<Bytes>)
    requires members != [] && DistinctNames(members) && forall m :: m in members ==> m.name !in seen
    ensures DistinctNames(members[1..])
    ensures forall m :: m in members[1..] ==> m.name !in seen + {members[0].name}
  {
  }

  /** A text is accepted as a value exactly if the grammar derives it, with distinct names and at most 200 levels. */
  lemma AcceptedIff(s: Bytes, v: Value)
    ensures Parse(s) == Accepted(v) <==> IsSpaced(s, v, 0)
  {
    hide IsValue;
    if Parse(s) == Accepted(v) {
      var n := ParseSpacedValue(s, 0).used;
      SpacesAreBlank(s[n..]);
      assert s[n..][..Spaces(s[n..])] == s[n..|s|];
      SpacedIsDerived(s, 0, |s|);
      assert s[..|s|] == s;
    }
    if i: nat, j: nat :| StandsAt(s, v, 0, i, j) {
      DerivedIsAccepted(s, v, i, j);
    }
  }

  lemma DerivedIsAccepted(s: Bytes, v: Value, i: nat, j: nat)
    requires StandsAt(s, v, 0, i, j)
    ensures Parse(s) == Accepted(v)
  {
    hide IsValue, ParseValue, Parse, NumberEnd;
    ValueStarts(s[i..j], v, 0);
    assert s[j..] + [] == s[j..];
    EndsNumber(s[j..], []);
    ValueIsParsed(s[i..j], v, 0, s[j..]);
    DocumentPieces(s[..i], s[i..j], s[j..], v);
    assert s == s[..i] + (s[i..j] + s[j..]);
  }

  lemma DocumentPieces(a: Bytes, text: Bytes, w: Bytes, v: Value)
    requires Blank(a) && Blank(w) && text != [] && !IsSpace(text[0]) && ParseValue(text + w, 0) == Ok(v, |text|)
    ensures Parse(a + (text + w)) == Accepted(v)
  {
    BlankIsSkipped(a, text + w);
    BlankIsSkipped(w, []);
    DropFront(a, text + w);
    hide Blank, Spaces, ParseValue;
    assert w + [] == w && (a + (text + w))[|a| + |text|..] == w;
  }
}
