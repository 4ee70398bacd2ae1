/** The recursive-descent parser of native/src/json.cpp as it runs: a position and a nesting depth that its methods
    move along the text. Each method is proved against the function of the text still to be read. */
module JsonParser {
  import opened Ordering
  import opened Utf8
  import opened JsonBasics
  import opened JsonNumber
  import opened JsonString
  import opened Json

  datatype Outcome<+T> = Got(value: T) | Failed

  /** A method that started at from and stopped at to read what the function reads. */
  ghost predicate Reads<T>(spec: Parsed<T>, r: Outcome<T>, from: nat, to: nat) {
    match spec
    case Ok(v, n) => r == Got(v) && to == from + n
    case Err => r.Failed? && from <= to
  }

  /** What was read before, and then what the rest gives. */
  ghost function Resume<T>(before: seq<T>, used: nat, rest: Parsed<seq<T>>): Parsed<seq<T>> {
    match rest
    case Err => Err
    case Ok(after, n) => Ok(before + after, used + n)
  }

  lemma ResumeStep<T>(before: seq<T>, one: seq<T>, used: nat, n: nat, rest: Parsed<seq<T>>)
    ensures Resume(before + one, used + n, rest) == Resume(before, used, Resume(one, n, rest))
  {
    if rest.Ok? {
      assert before + one + rest.value == before + (one + rest.value);
    }
  }

  lemma ResumeFromNothing<T>(r: Parsed<seq<T>>)
    ensures Resume([], 0, r) == r
  {
    if r.Ok? {
      assert [] + r.value == r.value;
    }
  }

  /** One round of parseArray's loop. */
  lemma ItemsUnfold(s: Bytes, depth: nat)
    ensures var v := ParseSpacedValue(s, depth);
            var separator := if v.Ok? then Separator(s[v.used..], CLOSE_ARRAY) else Err;
            ParseItems(s, depth) ==
              if separator.Err? then Err
              else if separator.value then
                Resume([v.value], v.used + separator.used, ParseItems(s[v.used + separator.used..], depth))
              else Ok([v.value], v.used + separator.used)
  {
    hide ParseSpacedValue, Separator;
  }

  lemma EmptyIsNoValue()
    ensures ParseScalar([]).Err?
  {
  }

  /** White space skipped once is not there a second time. */
  lemma SpacesAgain(s: Bytes, depth: nat)
    ensures var w := Spaces(s);
            var later := ParseItems(s[w..], depth);
            ParseItems(s, depth) == if later.Err? then Err else Ok(later.value, w + later.used)
  {
    hide ParseValue, Separator;
    var w := Spaces(s);
    var t := s[w..];
    assert Spaces(t) == 0 && t[0..] == t;
    if ParseValue(t, depth).Ok? {
      var n := ParseValue(t, depth).used;
      assert s[w + n..] == t[n..];
      var separator := Separator(t[n..], CLOSE_ARRAY);
      if separator.Ok? {
        assert s[w + n + separator.used..] == t[n + separator.used..];
      }
    }
  }

  ghost function NamesOf(members: seq<Member>): set<Bytes> {
    set m | m in members :: m.name
  }

  lemma MembersUnfold(s: Bytes, depth: nat, seen: set<Bytes>)
    ensures var m := ParseMember(s, depth, seen);
            var separator := if m.Ok? then Separator(s[m.used..], CLOSE_OBJECT) else Err;
            ParseMembers(s, depth, seen) ==
              if separator.Err? then Err
              else if separator.value then
                Resume([m.value], m.used + separator.used,
                       ParseMembers(s[m.used + separator.used..], depth, seen + {m.value.name}))
              else Ok([m.value], m.used + separator.used)
  {
    hide ParseMember, Separator;
  }

  lemma NameSpacesAgain(s: Bytes)
    ensures var w := Spaces(s);
            var later := MemberName(s[w..]);
            MemberName(s) == if later.Err? then Err else Ok(later.value, w + later.used)
  {
    hide StringBody, Colon;
    var w := Spaces(s);
    var t := s[w..];
    assert Spaces(t) == 0 && t[0..] == t;
    if SpacedString(t).Ok? {
      assert s[w + 1..] == t[1..];
      assert s[w + SpacedString(t).used..] == t[SpacedString(t).used..];
    }
  }

  lemma MemberSpacesAgain(s: Bytes, depth: nat)
    ensures var w := Spaces(s);
            var later := ParseMembers(s[w..], depth, {});
            ParseMembers(s, depth, {}) == if later.Err? then Err else Ok(later.value, w + later.used)
  {
    hide ParseMember, Separator, ParseMembers;
    var w := Spaces(s);
    var t := s[w..];
    OneMemberSpacesAgain(s, depth);
    MembersUnfold(s, depth, {});
    MembersUnfold(t, depth, {});
    var m := ParseMember(t, depth, {});
    if m.Ok? {
      assert s[w + m.used..] == t[m.used..];
      var separator := Separator(t[m.used..], CLOSE_OBJECT);
      if separator.Ok? {
        assert s[w + m.used + separator.used..] == t[m.used + separator.used..];
      }
    }
  }

  lemma OneMemberSpacesAgain(s: Bytes, depth: nat)
    ensures var w := Spaces(s);
            var later := ParseMember(s[w..], depth, {});
            ParseMember(s, depth, {}) == if later.Err? then Err else Ok(later.value, w + later.used)
  {
    hide MemberName, ParseSpacedValue;
    var t := s[Spaces(s)..];
    NameSpacesAgain(s);
    if MemberName(t).Ok? {
      assert s[Spaces(s) + MemberName(t).used..] == t[MemberName(t).used..];
    }
  }

  lemma NamesGrow(members: seq<Member>, m: Member)
    ensures NamesOf(members + [m]) == NamesOf(members) + {m.name}
  {
    assert forall n :: n in members + [m] <==> n in members || n == m;
    assert m in members + [m];
  }

  /** The duplicate check: one look along the members read so far. */
  method NameSeen(members: seq<Member>, name: Bytes) returns (seen: bool)
    ensures seen <==> name in NamesOf(members)
  {
    for i := 0 to |members|
      invariant forall j :: 0 <= j < i ==> members[j].name != name
    {
      if members[i].name == name {
        assert members[i] in members;
        return true;
      }
    }
    seen := false;
  }

  class Parser {
    const text: Bytes
    var pos: nat
    var depth: nat

    constructor (text: Bytes)
      ensures this.text == text && pos == 0 && depth == 0
    {
      this.text := text;
      pos, depth := 0, 0;
    }

    ghost predicate Valid()
      reads this
    {
      pos <= |text|
    }

    /** What is left to read. */
    ghost function Rest(): Bytes
      reads this
      requires Valid()
    {
      text[pos..]
    }

    method SkipWhitespace()
      requires Valid()
      modifies this`pos
      ensures Valid() && pos == old(pos) + Spaces(old(Rest()))
    {
      while pos < |text| && IsSpace(text[pos])
        invariant old(pos) <= pos <= |text|
        invariant Spaces(old(Rest())) == pos - old(pos) + Spaces(text[pos..])
      {
        assert text[pos..][1..] == text[pos + 1..];
        pos := pos + 1;
      }
    }

    method SkipDigits()
      requires Valid()
      modifies this`pos
      ensures Valid() && pos == old(pos) + LeadingDigits(old(Rest()))
    {
      while pos < |text| && IsDigit(text[pos])
        invariant old(pos) <= pos <= |text|
        invariant LeadingDigits(old(Rest())) == pos - old(pos) + LeadingDigits(text[pos..])
      {
        assert text[pos..][1..] == text[pos + 1..];
        pos := pos + 1;
      }
    }

    method ParseLiteral(word: Bytes, v: Value) returns (r: Outcome<Value>)
      requires Valid() && word != []
      modifies this`pos
      ensures Valid() && Reads(Literal(old(Rest()), word, v), r, old(pos), pos)
    {
      r := Failed;
      if |word| <= |text| - pos {
        assert Rest()[..|word|] == text[pos..pos + |word|];
        if text[pos..pos + |word|] == word {
          pos := pos + |word|;
          r := Got(v);
        }
      }
    }

    /** Advances over four hexadecimal digits. */
    method ParseHex4() returns (r: Outcome<nat>)
      requires Valid()
      modifies this`pos
      ensures Valid() && Reads(Hex4(old(Rest())), r, old(pos), pos)
    {
      if pos + 4 > |text| {
        return Failed;
      }
      var v, i := 0, 0;
      ghost var s := Rest();
      while i < 4
        invariant 0 <= i <= 4 && pos == old(pos)
        invariant forall k :: 0 <= k < i ==> IsHex(s[k])
        invariant i == 1 ==> v == HexValue(s[0])
        invariant i == 2 ==> v == HexValue(s[0]) * 16 + HexValue(s[1])
        invariant i == 3 ==> v == (HexValue(s[0]) * 16 + HexValue(s[1])) * 16 + HexValue(s[2])
        invariant i == 4 ==> Hex4(s) == Ok(v, 4)
        invariant i == 0 ==> v == 0
      {
        var c := text[pos + i];
        assert c == s[i];
        if !IsHex(c) {
          return Failed;
        }
        v := v * 16 + HexValue(c);
        i := i + 1;
      }
      pos := pos + 4;
      r := Got(v);
    }

    /** Behind \u: one escape, or two that pair up. */
    method ParseUnicodeEscape() returns (r: Outcome<nat>)
      requires Valid()
      modifies this`pos
      ensures Valid() && Reads(UnicodeEscape(old(Rest())), r, old(pos), pos)
    {
      hide Hex4;
      ghost var s := Rest();
      var first := ParseHex4();
      if first.Failed? {
        return Failed;
      }
      var cp := first.value;
      assert text[pos..] == s[4..];
      if 0xD800 <= cp <= 0xDBFF {
        if pos + 1 < |text| && text[pos] == BACKSLASH && text[pos + 1] == LOWER_U {
          pos := pos + 2;
          assert text[pos..] == s[6..];
          var second := ParseHex4();
          if second.Failed? || second.value < 0xDC00 || second.value > 0xDFFF {
            return Failed;
          }
          cp := 0x10000 + (cp - 0xD800) * 1024 + (second.value - 0xDC00);
        } else {
          return Failed;
        }
      } else if 0xDC00 <= cp <= 0xDFFF {
        return Failed;
      }
      r := Got(cp);
    }

    method ParseElement() returns (r: Outcome<Bytes>)
      requires Valid() && pos < |text| && text[pos] != QUOTE
      modifies this`pos
      ensures Valid() && Reads(Element(old(Rest())), r, old(pos), pos)
    {
      hide CharLength, UnicodeEscape, SimpleEscape;
      ghost var s := Rest();
      var c := text[pos];
      if c < 0x20 {
        return Failed;
      }
      if c != BACKSLASH {
        var n := CharLength(text[pos..]);
        if n == 0 {
          return Failed;
        }
        r := Got(text[pos..pos + n]);
        assert text[pos..pos + n] == s[..n];
        pos := pos + n;
        return;
      }
      if pos + 1 >= |text| {
        return Failed;
      }
      var e := text[pos + 1];
      pos := pos + 2;
      assert text[pos..] == s[2..];
      if e == LOWER_U {
        var cp := ParseUnicodeEscape();
        r := if cp.Failed? then Failed else Got(Encode(cp.value));
      } else {
        var piece := SimpleEscape(e);
        r := if piece == [] then Failed else Got(piece);
      }
    }

    /** parseString, behind the opening quote. */
    method ParseStringBody() returns (r: Outcome<Bytes>)
      requires Valid()
      modifies this`pos
      ensures Valid() && Reads(StringBody(old(Rest())), r, old(pos), pos)
    {
      hide Element;
      var out: Bytes := [];
      ghost var start := pos;
      ResumeFromNothing(StringBody(Rest()));
      while true
        invariant start <= pos <= |text|
        invariant StringBody(text[start..]) == Resume(out, pos - start, StringBody(text[pos..]))
        decreases |text| - pos
      {
        if pos >= |text| {
          return Failed;
        }
        if text[pos] == QUOTE {
          pos := pos + 1;
          assert out + [] == out;
          return Got(out);
        }
        ghost var s := Rest();
        ghost var before := pos;
        var piece := ParseElement();
        if piece.Failed? {
          return Failed;
        }
        assert text[pos..] == s[pos - before..];
        ResumeStep(out, piece.value, before - start, pos - before, StringBody(text[pos..]));
        out := out + piece.value;
      }
    }

    method ParseFraction() returns (r: Outcome<Bytes>)
      requires Valid()
      modifies this`pos
      ensures Valid() && Reads(Fraction(old(Rest())), r, old(pos), pos)
    {
      ghost var s := Rest();
      if pos >= |text| || text[pos] != POINT {
        return Got([]);
      }
      pos := pos + 1;
      var start := pos;
      assert text[pos..] == s[1..];
      if pos >= |text| || !IsDigit(text[pos]) {
        return Failed;
      }
      SkipDigits();
      r := Got(text[start..pos]);
      assert text[start..pos] == s[1..1 + (pos - start)];
    }

    method ParseExponent() returns (r: Outcome<int>)
      requires Valid()
      modifies this`pos
      ensures Valid() && Reads(Exponent(old(Rest())), r, old(pos), pos)
    {
      hide NatOf, LeadingDigits;
      ghost var s := Rest();
      if pos >= |text| || (text[pos] != LOWER_E && text[pos] != UPPER_E) {
        return Got(0);
      }
      pos := pos + 1;
      assert text[pos..] == s[1..];
      var negative := pos < |text| && text[pos] == MINUS;
      ghost var k := if StartsWith(s[1..], PLUS) || StartsWith(s[1..], MINUS) then 2 else 1;
      if pos < |text| && (text[pos] == PLUS || text[pos] == MINUS) {
        pos := pos + 1;
      }
      assert pos == old(pos) + k && text[pos..] == s[k..];
      if pos >= |text| || !IsDigit(text[pos]) {
        return Failed;
      }
      var start := pos;
      ghost var digits := text[pos..];
      SkipDigits();
      assert text[start..pos] == digits[..pos - start] == s[k..k + (pos - start)];
      var size: int := NatOf(text[start..pos]);
      r := Got(if negative then -size else size);
    }

    method ParseFractionAndExponent() returns (r: Outcome<Raw>)
      requires Valid()
      modifies this`pos
      ensures Valid() && Reads(FractionAndExponent(old(Rest())), r, old(pos), pos)
    {
      hide Fraction, Exponent;
      ghost var s := Rest();
      var fraction := ParseFraction();
      if fraction.Failed? {
        return Failed;
      }
      assert text[pos..] == s[pos - old(pos)..];
      var e := ParseExponent();
      r := if e.Failed? then Failed else Got(Raw(fraction.value, e.value));
    }

    method ParseWhole() returns (r: Outcome<Bytes>)
      requires Valid()
      modifies this`pos
      ensures Valid() && Reads(Whole(old(Rest())), r, old(pos), pos)
    {
      ghost var s := Rest();
      var start := pos;
      if pos >= |text| {
        return Failed;
      }
      if text[pos] == ZERO {
        pos := pos + 1;
      } else if IsDigit(text[pos]) {
        SkipDigits();
      } else {
        return Failed;
      }
      r := Got(text[start..pos]);
      assert text[start..pos] == s[..pos - start];
    }

    /** parseNumber; the digits are kept as an exact decimal. */
    method ParseNumberText() returns (r: Outcome<NormalDecimal>)
      requires Valid()
      modifies this`pos
      ensures Valid() && Reads(ParseNumber(old(Rest())), r, old(pos), pos)
    {
      hide Whole, FractionAndExponent, Normalize;
      ghost var s := Rest();
      var negative := pos < |text| && text[pos] == MINUS;
      if negative {
        pos := pos + 1;
      }
      ghost var t := s[if negative then 1 else 0..];
      assert text[pos..] == t;
      ghost var start := pos;
      var whole := ParseWhole();
      if whole.Failed? {
        return Failed;
      }
      assert text[pos..] == t[pos - start..];
      var tail := ParseFractionAndExponent();
      if tail.Failed? {
        return Failed;
      }
      r := Got(Normalize(negative, whole.value + tail.value.digits, |whole.value| + tail.value.exponent));
    }

    /** A comma (true) or the closing bracket (false). */
    method ParseSeparator(close: byte) returns (r: Outcome<bool>)
      requires Valid()
      modifies this`pos
      ensures Valid() && Reads(Separator(old(Rest()), close), r, old(pos), pos)
    {
      ghost var s := Rest();
      SkipWhitespace();
      assert text[pos..] == s[pos - old(pos)..];
      if pos < |text| && text[pos] == COMMA {
        pos := pos + 1;
        return Got(true);
      }
      if pos < |text| && text[pos] == close {
        pos := pos + 1;
        return Got(false);
      }
      r := Failed;
    }

    method ParseSpacedString() returns (r: Outcome<Bytes>)
      requires Valid()
      modifies this`pos
      ensures Valid() && Reads(SpacedString(old(Rest())), r, old(pos), pos)
    {
      hide StringBody;
      ghost var s := Rest();
      SkipWhitespace();
      assert text[pos..] == s[pos - old(pos)..];
      if pos >= |text| || text[pos] != QUOTE {
        return Failed;
      }
      pos := pos + 1;
      assert text[pos..] == s[pos - old(pos)..];
      r := ParseStringBody();
    }

    method ParseColon() returns (r: Outcome<bool>)
      requires Valid()
      modifies this`pos
      ensures Valid() && Reads(Colon(old(Rest())), r, old(pos), pos)
    {
      ghost var s := Rest();
      SkipWhitespace();
      assert text[pos..] == s[pos - old(pos)..];
      if pos >= |text| || text[pos] != COLON {
        return Failed;
      }
      pos := pos + 1;
      r := Got(true);
    }

    method ParseScalarAt() returns (r: Outcome<Value>)
      requires Valid() && pos < |text|
      modifies this`pos
      ensures Valid() && Reads(ParseScalar(old(Rest())), r, old(pos), pos)
    {
      hide Literal, StringBody, ParseNumber;
      ghost var s := Rest();
      var c := text[pos];
      if c == 0x6E {
        r := ParseLiteral(NULL_WORD, Null);
      } else if c == 0x74 {
        r := ParseLiteral(TRUE_WORD, Bool(true));
      } else if c == 0x66 {
        r := ParseLiteral(FALSE_WORD, Bool(false));
      } else if c == QUOTE {
        pos := pos + 1;
        assert text[pos..] == s[1..];
        var body := ParseStringBody();
        r := if body.Failed? then Failed else Got(String(body.value));
      } else {
        var d := ParseNumberText();
        r := if d.Failed? then Failed else Got(Number(d.value));
      }
    }

    /** parseValue. */
    method ParseValueAt() returns (r: Outcome<Value>)
      requires Valid()
      modifies this`pos, this`depth
      ensures Valid() && Reads(ParseValue(old(Rest()), old(depth)), r, old(pos), pos)
      ensures r.Got? ==> depth == old(depth)
      decreases |text| - pos, 2
    {
      hide ParseScalar, ParseArray, ParseObject;
      ghost var s := Rest();
      if pos >= |text| {
        EmptyIsNoValue();
        return Failed;
      }
      var c := text[pos];
      if c == OPEN_ARRAY || c == OPEN_OBJECT {
        pos := pos + 1;
        depth := depth + 1;
        assert text[pos..] == s[1..];
        if c == OPEN_ARRAY {
          var items := ParseArrayBody();
          r := if items.Failed? then Failed else Got(Array(items.value));
        } else {
          var members := ParseObjectBody();
          r := if members.Failed? then Failed else Got(Object(members.value));
        }
      } else {
        r := ParseScalarAt();
      }
    }

    method ParseSpacedValueAt() returns (r: Outcome<Value>)
      requires Valid()
      modifies this`pos, this`depth
      ensures Valid() && Reads(ParseSpacedValue(old(Rest()), old(depth)), r, old(pos), pos)
      ensures r.Got? ==> depth == old(depth)
      decreases |text| - pos, 3
    {
      hide ParseValue;
      ghost var s := Rest();
      SkipWhitespace();
      assert text[pos..] == s[pos - old(pos)..];
      r := ParseValueAt();
    }

    /** parseArray, behind the bracket that depth already counts. */
    method ParseArrayBody() returns (r: Outcome<seq<Value>>)
      requires Valid() && depth > 0
      modifies this`pos, this`depth
      ensures Valid() && Reads(ParseArray(old(Rest()), old(depth)), r, old(pos), pos)
      ensures r.Got? ==> depth == old(depth) - 1
      decreases |text| - pos, 5
    {
      hide ParseItems;
      ghost var s := Rest();
      if depth > MAX_DEPTH {
        return Failed;
      }
      var start := pos;
      SkipWhitespace();
      assert text[pos..] == s[pos - start..];
      if pos < |text| && text[pos] == CLOSE_ARRAY {
        pos := pos + 1;
        depth := depth - 1;
        return Got([]);
      }
      SpacesAgain(s, depth);
      r := ParseItemList();
    }

    method ParseItemList() returns (r: Outcome<seq<Value>>)
      requires Valid() && depth > 0
      modifies this`pos, this`depth
      ensures Valid() && Reads(ParseItems(old(Rest()), old(depth)), r, old(pos), pos)
      ensures r.Got? ==> depth == old(depth) - 1
      decreases |text| - pos, 4
    {
      hide ParseSpacedValue, Separator, ParseItems;
      var items: seq<Value> := [];
      ghost var start := pos;
      ResumeFromNothing(ParseItems(Rest(), depth));
      while true
        invariant start <= pos <= |text| && depth == old(depth)
        invariant ParseItems(text[start..], depth) == Resume(items, pos - start, ParseItems(text[pos..], depth))
        decreases |text| - pos
      {
        ghost var s, from := Rest(), pos;
        ItemsUnfold(s, depth);
        var v := ParseSpacedValueAt();
        if v.Failed? {
          return Failed;
        }
        ghost var n := pos - from;
        assert text[pos..] == s[n..];
        var more := ParseSeparator(CLOSE_ARRAY);
        if more.Failed? {
          return Failed;
        }
        ghost var k := pos - from - n;
        assert text[pos..] == s[n + k..];
        ResumeStep(items, [v.value], from - start, n + k, ParseItems(text[pos..], depth));
        items := items + [v.value];
        if !more.value {
          depth := depth - 1;
          return Got(items);
        }
      }
    }

    method ParseMemberName() returns (r: Outcome<Bytes>)
      requires Valid()
      modifies this`pos
      ensures Valid() && Reads(MemberName(old(Rest())), r, old(pos), pos)
    {
      hide SpacedString, Colon;
      ghost var s := Rest();
      r := ParseSpacedString();
      if r.Failed? {
        return;
      }
      assert text[pos..] == s[pos - old(pos)..];
      var colon := ParseColon();
      if colon.Failed? {
        r := Failed;
      }
    }

    /** One member; the names of those before it are refused. */
    method ParseMemberAt(members: seq<Member>) returns (r: Outcome<Member>)
      requires Valid()
      modifies this`pos, this`depth
      ensures Valid() && Reads(ParseMember(old(Rest()), old(depth), NamesOf(members)), r, old(pos), pos)
      ensures r.Got? ==> depth == old(depth)
      decreases |text| - pos, 4
    {
      hide MemberName, ParseSpacedValue;
      ghost var s := Rest();
      var name := ParseMemberName();
      if name.Failed? {
        return Failed;
      }
      assert text[pos..] == s[pos - old(pos)..];
      var seen := NameSeen(members, name.value);
      if seen {
        return Failed;
      }
      var v := ParseSpacedValueAt();
      r := if v.Failed? then Failed else Got(Member(name.value, v.value));
    }

    /** parseObject, behind the bracket that depth already counts. */
    method ParseObjectBody() returns (r: Outcome<seq<Member>>)
      requires Valid() && depth > 0
      modifies this`pos, this`depth
      ensures Valid() && Reads(ParseObject(old(Rest()), old(depth)), r, old(pos), pos)
      ensures r.Got? ==> depth == old(depth) - 1
      decreases |text| - pos, 6
    {
      hide ParseMembers;
      ghost var s := Rest();
      if depth > MAX_DEPTH {
        return Failed;
      }
      var start := pos;
      SkipWhitespace();
      assert text[pos..] == s[pos - start..];
      if pos < |text| && text[pos] == CLOSE_OBJECT {
        pos := pos + 1;
        depth := depth - 1;
        return Got([]);
      }
      MemberSpacesAgain(s, depth);
      r := ParseMemberList();
    }

    method ParseMemberList() returns (r: Outcome<seq<Member>>)
      requires Valid() && depth > 0
      modifies this`pos, this`depth
      ensures Valid() && Reads(ParseMembers(old(Rest()), old(depth), {}), r, old(pos), pos)
      ensures r.Got? ==> depth == old(depth) - 1
      decreases |text| - pos, 5
    {
      hide ParseMember, Separator, ParseMembers;
      var members: seq<Member> := [];
      ghost var start := pos;
      assert NamesOf(members) == {};
      ResumeFromNothing(ParseMembers(Rest(), depth, {}));
      while true
        invariant start <= pos <= |text| && depth == old(depth)
        invariant ParseMembers(text[start..], depth, {})
               == Resume(members, pos - start, ParseMembers(text[pos..], depth, NamesOf(members)))
        decreases |text| - pos
      {
        ghost var s, from, seen := Rest(), pos, NamesOf(members);
        MembersUnfold(s, depth, seen);
        var m := ParseMemberAt(members);
        if m.Failed? {
          return Failed;
        }
        ghost var n := pos - from;
        assert text[pos..] == s[n..];
        var more := ParseSeparator(CLOSE_OBJECT);
        if more.Failed? {
          return Failed;
        }
        ghost var k := pos - from - n;
        assert text[pos..] == s[n + k..];
        ResumeStep(members, [m.value], from - start, n + k, ParseMembers(text[pos..], depth, seen + {m.value.name}));
        NamesGrow(members, m.value);
        members := members + [m.value];
        if !more.value {
          depth := depth - 1;
          return Got(members);
        }
      }
    }

    /** run. */
    method Run() returns (r: Outcome<Value>)
      requires pos == 0 && depth == 0
      modifies this`pos, this`depth
      ensures r == match Parse(text) case Accepted(v) => Got(v) case Refused => Failed
    {
      hide ParseSpacedValue;
      assert Rest() == text;
      var v := ParseSpacedValueAt();
      if v.Failed? {
        return Failed;
      }
      SkipWhitespace();
      r := if pos != |text| then Failed else v;
    }
  }
}
