/** The JSON tree, its parser and its printer (native/src/json.cpp), as functions of the text still to be read. */
module Json {
  import opened Ordering
  import opened Utf8
  import opened JsonBasics
  import opened JsonNumber
  import opened JsonString

  const MAX_DEPTH := 200

  datatype Value =
    | Null
    | Bool(flag: bool)
    | Number(number: NormalDecimal)
    | String(text: Bytes)
    | Array(items: seq<Value>)
    | Object(members: seq<Member>)

  datatype Member = Member(name: Bytes, value: Value)

  const NULL_WORD: Bytes := [0x6E, 0x75, 0x6C, 0x6C]
  const TRUE_WORD: Bytes := [0x74, 0x72, 0x75, 0x65]
  const FALSE_WORD: Bytes := [0x66, 0x61, 0x6C, 0x73, 0x65]

  /* ---- Parsing ---- */

  function Literal(s: Bytes, word: Bytes, v: Value): (r: Parsed<Value>)
    requires word != []
    ensures r.Ok? ==> 0 < r.used <= |s|
  {
    if word <= s then Ok(v, |word|) else Err
  }

  /** A comma (true) or the closing bracket (false) behind a value. */
  function Separator(s: Bytes, close: byte): (r: Parsed<bool>)
    ensures r.Ok? ==> 0 < r.used <= |s|
  {
    var w := Spaces(s);
    if StartsWith(s[w..], COMMA) then Ok(true, w + 1)
    else if StartsWith(s[w..], close) then Ok(false, w + 1)
    else Err
  }

  function Colon(s: Bytes): (r: Parsed<bool>)
    ensures r.Ok? ==> 0 < r.used <= |s|
  {
    var w := Spaces(s);
    if StartsWith(s[w..], COLON) then Ok(true, w + 1) else Err
  }

  /** A string literal, with the white space before it. */
  function SpacedString(s: Bytes): (r: Parsed<Bytes>)
    ensures r.Ok? ==> 0 < r.used <= |s|
  {
    var w := Spaces(s);
    if !StartsWith(s[w..], QUOTE) then Err
    else
      match StringBody(s[w + 1..])
      case Err => Err
      case Ok(name, n) => Ok(name, w + 1 + n)
  }

  /** A member's name and its colon. */
  function MemberName(s: Bytes): (r: Parsed<Bytes>)
    ensures r.Ok? ==> 0 < r.used <= |s|
  {
    match SpacedString(s)
    case Err => Err
    case Ok(name, n) =>
      match Colon(s[n..])
      case Err => Err
      case Ok(_, k) => Ok(name, n + k)
  }

  /** A value that holds no others. */
  function ParseScalar(s: Bytes): (r: Parsed<Value>)
    ensures r.Ok? ==> 0 < r.used <= |s|
  {
    if StartsWith(s, 0x6E) then Literal(s, NULL_WORD, Null)
    else if StartsWith(s, 0x74) then Literal(s, TRUE_WORD, Bool(true))
    else if StartsWith(s, 0x66) then Literal(s, FALSE_WORD, Bool(false))
    else if StartsWith(s, QUOTE) then
      match StringBody(s[1..])
      case Err => Err
      case Ok(text, n) => Ok(String(text), 1 + n)
    else
      match ParseNumber(s)
      case Err => Err
      case Ok(d, n) => Ok(Number(d), n)
  }

  function ParseValue(s: Bytes, depth: nat): (r: Parsed<Value>)
    ensures r.Ok? ==> 0 < r.used <= |s|
    decreases |s|, 0
  {
    if StartsWith(s, OPEN_ARRAY) then
      match ParseArray(s[1..], depth + 1)
      case Err => Err
      case Ok(items, n) => Ok(Array(items), 1 + n)
    else if StartsWith(s, OPEN_OBJECT) then
      match ParseObject(s[1..], depth + 1)
      case Err => Err
      case Ok(members, n) => Ok(Object(members), 1 + n)
    else ParseScalar(s)
  }

  function ParseSpacedValue(s: Bytes, depth: nat): (r: Parsed<Value>)
    ensures r.Ok? ==> 0 < r.used <= |s|
    decreases |s|, 1
  {
    var w := Spaces(s);
    match ParseValue(s[w..], depth)
    case Err => Err
    case Ok(v, n) => Ok(v, w + n)
  }

  /** An array behind its opening bracket, which depth already counts. */
  function ParseArray(s: Bytes, depth: nat): (r: Parsed<seq<Value>>)
    ensures r.Ok? ==> 0 < r.used <= |s|
    decreases |s|, 3
  {
    if depth > MAX_DEPTH then Err
    else if StartsWith(s[Spaces(s)..], CLOSE_ARRAY) then Ok([], Spaces(s) + 1)
    else ParseItems(s, depth)
  }

  function ParseItems(s: Bytes, depth: nat): (r: Parsed<seq<Value>>)
    ensures r.Ok? ==> 0 < r.used <= |s|
    decreases |s|, 2
  {
    match ParseSpacedValue(s, depth)
    case Err => Err
    case Ok(v, n) =>
      match Separator(s[n..], CLOSE_ARRAY)
      case Err => Err
      case Ok(more, k) =>
        if !more then Ok([v], n + k)
        else
          match ParseItems(s[n + k..], depth)
          case Err => Err
          case Ok(items, m) => Ok([v] + items, n + k + m)
  }

  function ParseObject(s: Bytes, depth: nat): (r: Parsed<seq<Member>>)
    ensures r.Ok? ==> 0 < r.used <= |s|
    decreases |s|, 3
  {
    if depth > MAX_DEPTH then Err
    else if StartsWith(s[Spaces(s)..], CLOSE_OBJECT) then Ok([], Spaces(s) + 1)
    else ParseMembers(s, depth, {})
  }

  /** The members still to come; a name seen before is refused. */
  function ParseMembers(s: Bytes, depth: nat, seen: set<Bytes>): (r: Parsed<seq<Member>>)
    ensures r.Ok? ==> 0 < r.used <= |s|
    decreases |s|, 2
  {
    match ParseMember(s, depth, seen)
    case Err => Err
    case Ok(member, n) =>
      match Separator(s[n..], CLOSE_OBJECT)
      case Err => Err
      case Ok(more, k) =>
        if !more then Ok([member], n + k)
        else
          match ParseMembers(s[n + k..], depth, seen + {member.name})
          case Err => Err
          case Ok(members, m) => Ok([member] + members, n + k + m)
  }

  function ParseMember(s: Bytes, depth: nat, seen: set<Bytes>): (r: Parsed<Member>)
    ensures r.Ok? ==> 0 < r.used <= |s|
    decreases |s|, 1
  {
    match MemberName(s)
    case Err => Err
    case Ok(name, n) =>
      if name in seen then Err
      else
        match ParseSpacedValue(s[n..], depth)
        case Err => Err
        case Ok(v, m) => Ok(Member(name, v), n + m)
  }

  datatype Document = Accepted(value: Value) | Refused

  /** parse: one value, and nothing but white space around it. */
  function Parse(s: Bytes): Document {
    match ParseSpacedValue(s, 0)
    case Err => Refused
    case Ok(v, n) => if n + Spaces(s[n..]) == |s| then Accepted(v) else Refused
  }

  /* ---- Printing, in the order the members stand ---- */

  function Text(v: Value): Bytes {
    match v
    case Null => NULL_WORD
    case Bool(flag) => if flag then TRUE_WORD else FALSE_WORD
    case Number(d) => NumberText(d)
    case String(text) => StringText(text)
    case Array(items) => [OPEN_ARRAY] + if items == [] then [CLOSE_ARRAY] else ItemsText(items)
    case Object(members) => [OPEN_OBJECT] + if members == [] then [CLOSE_OBJECT] else MembersText(members)
  }

  function ItemsText(items: seq<Value>): Bytes
    requires items != []
  {
    Text(items[0]) + if |items| == 1 then [CLOSE_ARRAY] else [COMMA] + ItemsText(items[1..])
  }

  function MembersText(members: seq<Member>): Bytes
    requires members != []
  {
    MemberText(members[0]) + if |members| == 1 then [CLOSE_OBJECT] else [COMMA] + MembersText(members[1..])
  }

  function MemberText(m: Member): Bytes {
    StringText(m.name) + [COLON] + Text(m.value)
  }

  /* ---- The values a text can carry at a depth ---- */

  ghost predicate DistinctNames(members: seq<Member>) {
    forall i, j :: 0 <= i < j < |members| ==> members[i].name != members[j].name
  }

  ghost predicate WellFormed(v: Value, depth: nat) {
    match v
    case String(text) => ValidUtf8(text)
    case Array(items) => depth < MAX_DEPTH && forall w :: w in items ==> WellFormed(w, depth + 1)
    case Object(members) =>
      depth < MAX_DEPTH && DistinctNames(members)
      && forall m :: m in members ==> ValidUtf8(m.name) && WellFormed(m.value, depth + 1)
    case _ => true
  }
}
