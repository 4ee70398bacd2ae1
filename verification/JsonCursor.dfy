/** The raw-span scanner of native/adapters/shared/fallback_program_fetch.h as it runs: one position moved along the
    text by loops, proved against the functions of JsonScanner. */
module JsonCursor {
  import opened Ordering
  import opened JsonBasics
  import opened Json
  import opened JsonScanner

  /** A skip that started at from did what the function does, or failed as it fails. */
  ghost predicate Skips<T>(spec: Parsed<T>, ok: bool, from: nat, to: nat) {
    match spec
    case Ok(_, n) => ok && to == from + n
    case Err => !ok && from <= to
  }

  ghost function Past(used: nat, rest: Parsed<()>): Parsed<()> {
    match rest
    case Err => Err
    case Ok(_, n) => Ok((), used + n)
  }

  lemma PastNothing(r: Parsed<()>)
    ensures Past(0, r) == r
  {
    if r.Ok? {
      assert r.value == ();
    }
  }

  /** One round of skipJsonContainer's loop. */
  lemma ElementsUnfold(s: Bytes, object_: bool)
    ensures var e := SkipElement(s, object_);
            var separator := if e.Ok? then Separator(s[e.used..], Closing(object_)) else Err;
            SkipElements(s, object_) ==
              if separator.Err? then Err
              else if separator.value then Past(e.used + separator.used,
                                                SkipElements(s[e.used + separator.used..], object_))
              else Ok((), e.used + separator.used)
  {
    hide SkipElement, Separator;
  }

  /** White space skipped once is not there a second time. */
  lemma ValueSpacesAgain(s: Bytes)
    ensures SkipValue(s) == Past(Spaces(s), SkipValue(s[Spaces(s)..]))
  {
    hide SkipContainer, SkipScalar;
    var t := s[Spaces(s)..];
    assert Spaces(t) == 0 && t[0..] == t;
  }

  lemma KeySpacesAgain(s: Bytes)
    ensures var later := SkipKey(s[Spaces(s)..]);
            SkipKey(s) == if later.Err? then Err else Ok(later.value, Spaces(s) + later.used)
  {
    hide SkipString, Colon;
    var w := Spaces(s);
    var t := s[w..];
    assert Spaces(t) == 0 && t[0..] == t;
    if SkipString(t).Ok? {
      var n := SkipString(t).used;
      assert s[w..w + n] == t[..n] && s[w + n..] == t[n..];
    }
  }

  lemma ElementSpacesAgain(s: Bytes, object_: bool)
    ensures SkipElement(s, object_) == Past(Spaces(s), SkipElement(s[Spaces(s)..], object_))
  {
    hide SkipKey, SkipValue;
    var t := s[Spaces(s)..];
    ValueSpacesAgain(s);
    KeySpacesAgain(s);
    if SkipKey(t).Ok? {
      assert s[Spaces(s) + SkipKey(t).used..] == t[SkipKey(t).used..];
    }
  }

  lemma ElementsSpacesAgain(s: Bytes, object_: bool)
    ensures SkipElements(s, object_) == Past(Spaces(s), SkipElements(s[Spaces(s)..], object_))
  {
    hide SkipElement, Separator, SkipElements;
    var w := Spaces(s);
    var t := s[w..];
    ElementSpacesAgain(s, object_);
    ElementsUnfold(s, object_);
    ElementsUnfold(t, object_);
    var e := SkipElement(t, object_);
    if e.Ok? {
      assert s[w + e.used..] == t[e.used..];
      var separator := Separator(t[e.used..], Closing(object_));
      if separator.Ok? {
        assert s[w + e.used + separator.used..] == t[e.used + separator.used..];
      }
    }
  }

  class Cursor {
    const text: Bytes
    var pos: nat

    constructor (text: Bytes)
      ensures this.text == text && pos == 0
    {
      this.text := text;
      pos := 0;
    }

    ghost predicate Valid()
      reads this
    {
      pos <= |text|
    }

    ghost function Rest(): Bytes
      reads this
      requires Valid()
    {
      text[pos..]
    }

    method SkipWhitespace()
      requires Valid()
      modifies this`pos
      ensures Valid() && pos == old(pos) + Spaces(old(Rest()))
    {
      while pos < |text| && IsSpace(text[pos])
        invariant old(pos) <= pos <= |text|
        invariant Spaces(old(Rest())) == pos - old(pos) + Spaces(text[pos..])
      {
        assert text[pos..][1..] == text[pos + 1..];
        pos := pos + 1;
      }
    }

    method SkipDigits()
      requires Valid()
      modifies this`pos
      ensures Valid() && pos == old(pos) + LeadingDigits(old(Rest()))
    {
      while pos < |text| && IsDigit(text[pos])
        invariant old(pos) <= pos <= |text|
        invariant LeadingDigits(old(Rest())) == pos - old(pos) + LeadingDigits(text[pos..])
      {
        assert text[pos..][1..] == text[pos + 1..];
        pos := pos + 1;
      }
    }

    /** skipJsonStringLiteral. */
    method SkipStringLiteral() returns (ok: bool)
      requires Valid()
      modifies this`pos
      ensures Valid() && Skips(SkipString(old(Rest())), ok, old(pos), pos)
    {
      hide SkipBody;
      if pos >= |text| || text[pos] != QUOTE {
        return false;
      }
      assert Rest()[1..] == text[pos + 1..];
      pos := pos + 1;
      ghost var start := pos;
      PastNothing(SkipBody(text[start..]));
      while pos < |text|
        invariant start <= pos <= |text|
        invariant SkipBody(text[start..]) == Past(pos - start, SkipBody(text[pos..]))
      {
        var c := text[pos];
        BodyUnfold(text, pos);
        if c == QUOTE {
          pos := pos + 1;
          return true;
        }
        if c == BACKSLASH {
          pos := pos + 1;
          if pos >= |text| {
            return false;
          }
          pos := pos + 1;
        } else if c < 0x20 {
          return false;
        } else {
          pos := pos + 1;
        }
      }
      assert text[pos..] == [];
      NothingIsNoBody();
      ok := false;
    }

    method SkipWord(word: Bytes) returns (ok: bool)
      requires Valid() && word != []
      modifies this`pos
      ensures Valid() && ok == (word <= old(Rest())) && pos == old(pos) + if ok then |word| else 0
    {
      ok := false;
      if |word| <= |text| - pos {
        assert Rest()[..|word|] == text[pos..pos + |word|];
        if text[pos..pos + |word|] == word {
          pos := pos + |word|;
          ok := true;
        }
      }
    }

    method SkipFractionDigits()
      requires Valid()
      modifies this`pos
      ensures Valid() && pos == old(pos) + SkipFraction(old(Rest()))
    {
      if pos < |text| && text[pos] == POINT {
        assert Rest()[1..] == text[pos + 1..];
        pos := pos + 1;
        SkipDigits();
      }
    }

    method SkipExponentDigits()
      requires Valid()
      modifies this`pos
      ensures Valid() && pos == old(pos) + SkipExponent(old(Rest()))
    {
      hide LeadingDigits;
      ghost var s := Rest();
      if pos < |text| && (text[pos] == LOWER_E || text[pos] == UPPER_E) {
        pos := pos + 1;
        assert text[pos..] == s[1..];
        if pos < |text| && (text[pos] == PLUS || text[pos] == MINUS) {
          pos := pos + 1;
          assert text[pos..] == s[2..];
        }
        SkipDigits();
      }
    }

    method SkipNumberTail()
      requires Valid()
      modifies this`pos
      ensures Valid() && pos == old(pos) + SkipTail(old(Rest()))
    {
      hide SkipFraction, SkipExponent;
      ghost var s := Rest();
      SkipFractionDigits();
      assert Rest() == s[pos - old(pos)..];
      SkipExponentDigits();
    }

    method SkipNumberText() returns (ok: bool)
      requires Valid()
      modifies this`pos
      ensures Valid() && Skips(SkipNumber(old(Rest())), ok, old(pos), pos)
    {
      hide LeadingDigits, SkipTail;
      ghost var s := Rest();
      var start := pos;
      if pos < |text| && text[pos] == MINUS {
        pos := pos + 1;
      }
      ghost var t := Rest();
      var from := pos;
      assert t == s[from - start..];
      SkipDigits();
      if pos == from {
        pos := start;
        return false;
      }
      assert Rest() == t[pos - from..];
      SkipNumberTail();
      ok := true;
    }

    method SkipScalarValue() returns (ok: bool)
      requires Valid()
      modifies this`pos
      ensures Valid() && Skips(SkipScalar(old(Rest())), ok, old(pos), pos)
    {
      hide SkipString, SkipNumber;
      if pos < |text| && text[pos] == QUOTE {
        ok := SkipStringLiteral();
        return;
      }
      ok := SkipWord(TRUE_WORD);
      if ok {
        return;
      }
      ok := SkipWord(FALSE_WORD);
      if ok {
        return;
      }
      ok := SkipWord(NULL_WORD);
      if ok {
        return;
      }
      ok := SkipNumberText();
    }

    /** skipJsonValue. */
    method SkipJsonValue() returns (ok: bool)
      requires Valid()
      modifies this`pos
      ensures Valid() && Skips(SkipValue(old(Rest())), ok, old(pos), pos)
      decreases |text| - pos, 2
    {
      hide SkipContainer, SkipScalar;
      ghost var s := Rest();
      SkipWhitespace();
      ghost var t := Rest();
      assert t == s[pos - old(pos)..];
      if pos >= |text| {
        NothingIsNoScalar();
        return false;
      }
      var c := text[pos];
      if c == OPEN_OBJECT || c == OPEN_ARRAY {
        pos := pos + 1;
        assert Rest() == t[1..];
        ok := SkipJsonContainer(c == OPEN_OBJECT);
      } else {
        ok := SkipScalarValue();
      }
    }

    /** A separator, as the loop's tail reads it. */
    method SkipSeparator(close: byte) returns (ok: bool, more: bool)
      requires Valid()
      modifies this`pos
      ensures Valid() && Skips(Separator(old(Rest()), close), ok, old(pos), pos)
      ensures ok ==> more == Separator(old(Rest()), close).value
    {
      ghost var s := Rest();
      more := false;
      SkipWhitespace();
      assert Rest() == s[pos - old(pos)..];
      if pos < |text| && text[pos] == COMMA {
        pos := pos + 1;
        return true, true;
      }
      ok := pos < |text| && text[pos] == close;
      if ok {
        pos := pos + 1;
      }
    }

    method SkipSpacedLiteral() returns (ok: bool, keyStart: nat, keyEnd: nat)
      requires Valid()
      modifies this`pos
      ensures Valid() && Skips(SpacedLiteral(old(Rest())), ok, old(pos), pos)
      ensures ok ==> keyStart <= keyEnd <= |text| && text[keyStart..keyEnd] == SpacedLiteral(old(Rest())).value
    {
      hide SkipString;
      ghost var s := Rest();
      SkipWhitespace();
      keyStart, keyEnd := pos, pos;
      ghost var w := pos - old(pos);
      assert Rest() == s[w..];
      ok := SkipStringLiteral();
      if ok {
        keyEnd := pos;
        assert text[keyStart..keyEnd] == s[w..w + (keyEnd - keyStart)];
      }
    }

    method SkipColon() returns (ok: bool)
      requires Valid()
      modifies this`pos
      ensures Valid() && Skips(Colon(old(Rest())), ok, old(pos), pos)
    {
      ghost var s := Rest();
      SkipWhitespace();
      assert Rest() == s[pos - old(pos)..];
      ok := pos < |text| && text[pos] == COLON;
      if ok {
        pos := pos + 1;
      }
    }

    method SkipMemberKey() returns (ok: bool, keyStart: nat, keyEnd: nat)
      requires Valid()
      modifies this`pos
      ensures Valid() && Skips(SkipKey(old(Rest())), ok, old(pos), pos)
      ensures ok ==> keyStart <= keyEnd <= |text| && text[keyStart..keyEnd] == SkipKey(old(Rest())).value
    {
      hide SpacedLiteral, Colon;
      ghost var s := Rest();
      ok, keyStart, keyEnd := SkipSpacedLiteral();
      if ok {
        assert Rest() == s[pos - old(pos)..];
        ok := SkipColon();
      }
    }

    /** skipJsonContainer, behind its opening bracket. */
    method SkipJsonContainer(object_: bool) returns (ok: bool)
      requires Valid()
      modifies this`pos
      ensures Valid() && Skips(SkipContainer(old(Rest()), object_), ok, old(pos), pos)
      decreases |text| - pos, 4
    {
      hide SkipElements;
      ghost var s := Rest();
      SkipWhitespace();
      assert Rest() == s[pos - old(pos)..];
      if pos < |text| && text[pos] == Closing(object_) {
        pos := pos + 1;
        return true;
      }
      ElementsSpacesAgain(s, object_);
      ok := SkipElementList(object_);
    }

    method SkipElementList(object_: bool) returns (ok: bool)
      requires Valid()
      modifies this`pos
      ensures Valid() && Skips(SkipElements(old(Rest()), object_), ok, old(pos), pos)
      decreases |text| - pos, 3
    {
      hide SkipElements, SkipKey, SkipValue, Separator;
      ghost var start := pos;
      PastNothing(SkipElements(Rest(), object_));
      while true
        invariant start <= pos <= |text|
        invariant SkipElements(text[start..], object_) == Past(pos - start, SkipElements(text[pos..], object_))
        decreases |text| - pos
      {
        ghost var s, from := Rest(), pos;
        ElementsUnfold(s, object_);
        if object_ {
          var keyOk, _, _ := SkipMemberKey();
          if !keyOk {
            return false;
          }
          assert Rest() == s[pos - from..];
        }
        ok := SkipJsonValue();
        if !ok {
          return false;
        }
        ghost var n := pos - from;
        assert Rest() == s[n..];
        var separated, more := SkipSeparator(Closing(object_));
        if !separated {
          return false;
        }
        if !more {
          return true;
        }
        assert Rest() == s[pos - from..];
      }
    }

    /** extractRawRootMember. */
    method ExtractRawRootMember(member: Bytes) returns (r: Extraction)
      requires pos == 0
      modifies this`pos
      ensures r == Extract(text, member)
    {
      hide ExtractFrom;
      assert Rest() == text;
      SkipWhitespace();
      ghost var t := Rest();
      if pos >= |text| || text[pos] != OPEN_OBJECT {
        return NotFound;
      }
      pos := pos + 1;
      ghost var s, from := Rest(), pos;
      assert s == t[1..];
      SkipWhitespace();
      assert Rest() == s[pos - from..];
      if pos < |text| && text[pos] == CLOSE_OBJECT {
        return NotFound;
      }
      ExtractSpacesAgain(s, [QUOTE] + member + [QUOTE]);
      r := ExtractLoop([QUOTE] + member + [QUOTE]);
    }

    method ScanValueAt() returns (ok: bool, valueStart: nat)
      requires Valid()
      modifies this`pos
      ensures Valid() && Skips(ScanValue(old(Rest())), ok, old(pos), pos)
      ensures ok ==> valueStart <= pos && text[valueStart..pos] == ScanValue(old(Rest())).value
    {
      hide SkipValue;
      ghost var s := Rest();
      SkipWhitespace();
      valueStart := pos;
      ghost var u := Rest();
      assert u == s[pos - old(pos)..];
      ok := SkipJsonValue();
      if ok {
        assert text[valueStart..pos] == u[..pos - valueStart];
      }
    }

    /** A key and its value; the key is compared byte for byte as it is spelled. */
    method ScanMemberAt(quoted: Bytes) returns (ok: bool, isMatch: bool, valueStart: nat)
      requires Valid()
      modifies this`pos
      ensures Valid() && Skips(ScanMember(old(Rest())), ok, old(pos), pos)
      ensures ok ==> isMatch == (ScanMember(old(Rest())).value.key == quoted)
      ensures ok ==> valueStart <= pos && text[valueStart..pos] == ScanMember(old(Rest())).value.span
    {
      hide SkipKey, ScanValue;
      ghost var s := Rest();
      var keyStart, keyEnd;
      ok, keyStart, keyEnd := SkipMemberKey();
      isMatch, valueStart := false, pos;
      if ok {
        isMatch := text[keyStart..keyEnd] == quoted;
        assert Rest() == s[pos - old(pos)..];
        ok, valueStart := ScanValueAt();
      }
    }

    method ExtractLoop(quoted: Bytes) returns (r: Extraction)
      requires Valid()
      modifies this`pos
      ensures r == ExtractFrom(old(Rest()), quoted)
    {
      hide ScanMember, Separator, ExtractFrom;
      ghost var start := pos;
      while true
        invariant start <= pos <= |text|
        invariant ExtractFrom(text[start..], quoted) == ExtractFrom(text[pos..], quoted)
        decreases |text| - pos
      {
        ghost var s, from := Rest(), pos;
        ExtractUnfold(s, quoted);
        var ok, isMatch, valueStart := ScanMemberAt(quoted);
        if !ok {
          return NotFound;
        }
        if isMatch {
          return Found(text[valueStart..pos]);
        }
        assert Rest() == s[pos - from..];
        var separated, more := SkipSeparator(CLOSE_OBJECT);
        if !separated || !more {
          return NotFound;
        }
        assert Rest() == s[pos - from..];
      }
    }
  }

  lemma NothingIsNoScalar()
    ensures SkipScalar([]).Err?
  {
  }

  lemma NothingIsNoBody()
    ensures SkipBody([]).Err?
  {
  }

  /** One round of skipJsonStringLiteral's loop. */
  lemma BodyUnfold(text: Bytes, pos: nat)
    requires pos < |text|
    ensures var c := text[pos]; var k := if c == BACKSLASH then 2 else 1;
            SkipBody(text[pos..]) ==
              if c == QUOTE then Parsed.Ok((), 1)
              else if (c != BACKSLASH && c < 0x20) || |text| - pos < k then Err
              else Past(k, SkipBody(text[pos + k..]))
  {
    var s := text[pos..];
    var k := if s[0] == BACKSLASH then 2 else 1;
    if |s| >= k {
      assert s[k..] == text[pos + k..];
    }
  }

  /** One round of extractRawRootMember's loop. */
  lemma ExtractUnfold(s: Bytes, quoted: Bytes)
    ensures var m := ScanMember(s);
            var separator := if m.Ok? then Separator(s[m.used..], CLOSE_OBJECT) else Err;
            ExtractFrom(s, quoted) ==
              if m.Err? then NotFound
              else if m.value.key == quoted then Found(m.value.span)
              else if separator.Ok? && separator.value then ExtractFrom(s[m.used + separator.used..], quoted)
              else NotFound
  {
    hide ScanMember, Separator;
    var m := ScanMember(s);
    if m.Ok? && m.value.key != quoted {
      var separator := Separator(s[m.used..], CLOSE_OBJECT);
      assert separator.Ok? ==> m.used + separator.used <= |s|;
    }
  }

  lemma ScanSpacesAgain(s: Bytes)
    ensures var later := ScanMember(s[Spaces(s)..]);
            ScanMember(s) == if later.Err? then Err else Ok(later.value, Spaces(s) + later.used)
  {
    hide SkipKey, ScanValue;
    var t := s[Spaces(s)..];
    KeySpacesAgain(s);
    if SkipKey(t).Ok? {
      assert s[Spaces(s) + SkipKey(t).used..] == t[SkipKey(t).used..];
    }
  }

  lemma ExtractSpacesAgain(s: Bytes, quoted: Bytes)
    ensures ExtractFrom(s, quoted) == ExtractFrom(s[Spaces(s)..], quoted)
  {
    hide Separator, ExtractFrom, ScanMember;
    var w := Spaces(s);
    var t := s[w..];
    ScanSpacesAgain(s);
    ExtractUnfold(s, quoted);
    ExtractUnfold(t, quoted);
    if ScanMember(t).Ok? {
      var m := ScanMember(t).used;
      assert s[w + m..] == t[m..];
      var separator := Separator(t[m..], CLOSE_OBJECT);
      if separator.Ok? {
        assert s[w + m + separator.used..] == t[m + separator.used..];
      }
    }
  }
}
