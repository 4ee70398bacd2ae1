/** The printer of native/src/json.cpp as it runs: it appends to the text written so far, sorting each object's
    members just before it writes them. */
module JsonWriter {
  import opened Ordering
  import opened Utf8
  import opened JsonBasics
  import opened JsonNumber
  import opened JsonString
  import opened Json
  import opened JsonCanonical

  /** toUtf16: one step of the loop takes one character, or one stray byte. */
  method DecodeUtf16(s: Bytes) returns (out: seq<int>)
    ensures out == ToUtf16(s)
  {
    hide CodePointOf, Units, LeadLength, ToUtf16;
    out := [];
    var i := 0;
    assert s[0..] == s;
    while i < |s|
      invariant i <= |s|
      invariant ToUtf16(s) == out + ToUtf16(s[i..])
    {
      var rest := s[i..];
      ToUtf16Unfold(rest);
      var len := LeadLength(s[i]);
      var units, step;
      if len == 0 || i + len > |s| {
        units, step := [s[i] as int], 1;
      } else {
        units, step := Units(CodePointOf(len, rest)), len;
      }
      assert rest[step..] == s[i + step..];
      assert out + (units + ToUtf16(rest[step..])) == out + units + ToUtf16(rest[step..]);
      out := out + units;
      i := i + step;
    }
    ToUtf16OfNothing();
    assert s[|s|..] == [] && out + [] == out;
  }

  lemma ToUtf16OfNothing()
    ensures ToUtf16([]) == []
  {
  }

  lemma ToUtf16Unfold(s: Bytes)
    requires s != []
    ensures var len := LeadLength(s[0]);
            ToUtf16(s) == if len == 0 || len > |s| then [s[0] as int] + ToUtf16(s[1..])
                          else Units(CodePointOf(len, s)) + ToUtf16(s[len..])
  {
    hide CodePointOf, Units, LeadLength;
  }

  method AppendEscaped(s: Bytes, out: Bytes) returns (r: Bytes)
    ensures r == out + StringText(s)
  {
    hide Escape;
    r := out + [QUOTE];
    assert s[0..] == s;
    for i := 0 to |s|
      invariant r + Escaped(s[i..]) == out + [QUOTE] + Escaped(s)
    {
      assert s[i..][1..] == s[i + 1..];
      Assoc(r, Escape(s[i]), Escaped(s[i + 1..]));
      r := r + Escape(s[i]);
    }
    assert r + [] == r;
    r := r + [QUOTE];
    assert out + [QUOTE] + Escaped(s) + [QUOTE] == out + StringText(s);
  }

  /* ---- Sorting before or after the members are arranged is one and the same ---- */

  function ArrangedMember(m: Member): Member {
    Member(m.name, Arranged(m.value))
  }

  lemma {:induction false} InsertArranged(m: Member, sorted: seq<Member>)
    ensures Insert(ArrangedMember(m), ArrangedMembers(sorted)) == ArrangedMembers(Insert(m, sorted))
    decreases |sorted|
  {
    hide Arranged, LessUtf16;
    if sorted != [] && LessUtf16(sorted[0].name, m.name) {
      InsertArranged(m, sorted[1..]);
      assert ArrangedMembers(sorted)[1..] == ArrangedMembers(sorted[1..]);
    } else {
      assert ([m] + sorted)[1..] == sorted;
    }
  }

  lemma {:induction false} SortArranged(members: seq<Member>)
    ensures SortByName(ArrangedMembers(members)) == ArrangedMembers(SortByName(members))
    decreases |members|
  {
    hide Arranged, Insert;
    if members == [] {
    } else {
      SortArranged(members[1..]);
      assert ArrangedMembers(members)[1..] == ArrangedMembers(members[1..]);
      InsertArranged(members[0], SortByName(members[1..]));
    }
  }

  /* ---- writeValue ---- */

  method WriteValue(v: Value, out: Bytes) returns (r: Bytes)
    ensures r == out + CanonicalText(v)
    decreases v, 0
  {
    match v
    case Null => r := out + NULL_WORD;
    case Bool(flag) => r := out + if flag then TRUE_WORD else FALSE_WORD;
    case Number(d) => r := out + NumberText(d);
    case String(text) => r := AppendEscaped(text, out);
    case Array(items) => r := WriteItems(items, out);
    case Object(members) => r := WriteMembers(members, out);
  }

  /** What is still to be written of an array whose first i items are done. */
  ghost function ItemsLeft(items: seq<Value>, i: nat): Bytes
    requires i <= |items|
  {
    if i == |items| then [CLOSE_ARRAY]
    else (if i == 0 then [] else [COMMA]) + ItemsText(ArrangedItems(items)[i..])
  }

  lemma ItemsLeftStep(items: seq<Value>, i: nat)
    requires i < |items|
    ensures ItemsLeft(items, i) == (if i == 0 then [] else [COMMA]) + CanonicalText(items[i]) + ItemsLeft(items, i + 1)
  {
  }

  method WriteItems(items: seq<Value>, out: Bytes) returns (r: Bytes)
    ensures r == out + CanonicalText(Array(items))
    decreases items, 1
  {
    hide CanonicalText, ItemsLeft;
    r := out + [OPEN_ARRAY];
    var first := true;
    for i := 0 to |items|
      invariant first == (i == 0)
      invariant r + ItemsLeft(items, i) == out + [OPEN_ARRAY] + ItemsLeft(items, 0)
    {
      ItemsLeftStep(items, i);
      ghost var before, comma := r, if first then [] else [COMMA];
      if !first {
        r := r + [COMMA];
      }
      first := false;
      r := WriteValue(items[i], r);
      assert r + ItemsLeft(items, i + 1) == before + ItemsLeft(items, i) by {
        Assoc4(before, comma, CanonicalText(items[i]), ItemsLeft(items, i + 1));
        assert before + [] == before;
      }
    }
    ArrayIsWritten(items);
    r := r + [CLOSE_ARRAY];
    Assoc(out, [OPEN_ARRAY], ItemsLeft(items, 0));
  }

  lemma ArrayIsWritten(items: seq<Value>)
    ensures [OPEN_ARRAY] + ItemsLeft(items, 0) == CanonicalText(Array(items))
    ensures ItemsLeft(items, |items|) == [CLOSE_ARRAY]
  {
  }

  ghost function MembersLeft(sorted: seq<Member>, i: nat): Bytes
    requires i <= |sorted|
  {
    if i == |sorted| then [CLOSE_OBJECT]
    else (if i == 0 then [] else [COMMA]) + MembersText(ArrangedMembers(sorted)[i..])
  }

  lemma MembersLeftStep(sorted: seq<Member>, i: nat)
    requires i < |sorted|
    ensures MembersLeft(sorted, i)
         == (if i == 0 then [] else [COMMA]) + (StringText(sorted[i].name) + [COLON] + CanonicalText(sorted[i].value))
          + MembersLeft(sorted, i + 1)
  {
    hide Text, Arranged, StringText;
    var rest := ArrangedMembers(sorted)[i..];
    assert rest[0] == ArrangedMember(sorted[i]) && rest[1..] == ArrangedMembers(sorted)[i + 1..];
    Assoc(if i == 0 then [] else [COMMA], MemberText(rest[0]), MembersLeft(sorted, i + 1));
  }

  method WriteMembers(members: seq<Member>, out: Bytes) returns (r: Bytes)
    ensures r == out + CanonicalText(Object(members))
    decreases members, 1
  {
    hide CanonicalText, MembersLeft, StringText, SortByName;
    var sorted := SortByName(members);
    SameMembers(sorted, members);
    r := out + [OPEN_OBJECT];
    var first := true;
    for i := 0 to |sorted|
      invariant first == (i == 0)
      invariant r + MembersLeft(sorted, i) == out + [OPEN_OBJECT] + MembersLeft(sorted, 0)
    {
      MembersLeftStep(sorted, i);
      assert sorted[i] in members;
      ghost var before, comma := r, if first then [] else [COMMA];
      if !first {
        r := r + [COMMA];
      }
      first := false;
      assert r == before + comma;
      r := AppendEscaped(sorted[i].name, r);
      r := r + [COLON];
      r := WriteValue(sorted[i].value, r);
      MemberAppended(before, comma, StringText(sorted[i].name), CanonicalText(sorted[i].value),
                     MembersLeft(sorted, i + 1));
    }
    ObjectIsWritten(members);
    r := r + [CLOSE_OBJECT];
    Assoc(out, [OPEN_OBJECT], MembersLeft(sorted, 0));
  }

  lemma MemberAppended(before: Bytes, comma: Bytes, name: Bytes, value: Bytes, left: Bytes)
    ensures before + comma + name + [COLON] + value + left == before + (comma + (name + [COLON] + value) + left)
  {
  }

  lemma ObjectIsWritten(members: seq<Member>)
    ensures var sorted := SortByName(members);
            [OPEN_OBJECT] + MembersLeft(sorted, 0) == CanonicalText(Object(members))
    ensures MembersLeft(SortByName(members), |SortByName(members)|) == [CLOSE_OBJECT]
  {
    hide MembersText, SortByName;
    SortArranged(members);
    var arranged := ArrangedMembers(SortByName(members));
    assert arranged[0..] == arranged;
    assert arranged != [] ==> [] + MembersText(arranged) == MembersText(arranged);
  }
}
