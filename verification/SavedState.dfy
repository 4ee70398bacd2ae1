/** The saved fallback state survives the round trip through its file. */
module SavedState {
  import opened Basics
  import opened Ordering
  import opened Utf8
  import opened JsonBasics
  import opened JsonNumber
  import opened Json
  import opened JsonCanonical
  import opened JsonRefused
  import opened Rfc3339
  import FallbackProgram
  import opened FallbackState
  import opened PlaylistIdentity

  /* ---- Integers survive ---- */

  /** A number's whole part, before zeros are dropped. */
  function WholePart(negative: bool, digits: Bytes, exponent: int): int
    requires AllDigits(digits)
  {
    if exponent <= 0 then 0
    else
      var whole := if exponent >= |digits| then digits + Zeros(exponent - |digits|) else digits[..exponent];
      var size: int := NatOf(whole);
      if negative then -size else size
  }

  lemma {:induction false} ZerosAreNothing(n: nat)
    ensures NatOf(Zeros(n)) == 0
  {
    if n == 0 {
    } else {
      ZerosAreNothing(n - 1);
      ZerosCountNothing(n, []);
      assert Zeros(n) + [] == Zeros(n);
    }
  }

  /** A whole number keeps its value when its zeros are dropped. */
  lemma {:induction false} NormalizeKeepsWhole(negative: bool, digits: Bytes, zeros: nat)
    requires AllDigits(digits) && (digits == [] || digits[0] != ZERO)
    ensures IntOf(Normalize(negative, digits, |digits| + zeros)) == WholePart(negative, digits, |digits| + zeros)
    decreases |digits|
  {
    if digits == [] {
      ZerosAreNothing(zeros);
      assert [] + Zeros(zeros) == Zeros(zeros);
    } else if digits[|digits| - 1] == ZERO {
      var front := digits[..|digits| - 1];
      NormalizeKeepsWhole(negative, front, zeros + 1);
      assert digits + Zeros(zeros) == front + Zeros(zeros + 1) by {
        assert digits == front + [ZERO];
        assert [ZERO] + Zeros(zeros) == Zeros(zeros + 1);
        Assoc(front, [ZERO], Zeros(zeros));
      }
      hide NatOf, Zeros;
    } else {
      hide NatOf, Zeros;
    }
  }

  lemma IntIsKept(n: int)
    ensures IntOf(OfInt(n)) == n
  {
    hide NatText, Normalize;
    var digits := NatText(if n < 0 then -n else n);
    if n == 0 {
      ZeroIsZero();
    } else {
      NormalizeKeepsWhole(n < 0, digits, 0);
      assert digits + Zeros(0) == digits;
    }
  }

  lemma ZeroIsZero()
    ensures OfInt(0) == Zero
  {
    assert [ZERO][1..] == [];
    assert Normalize(false, [ZERO], 1) == Normalize(false, [], 0);
  }

  /* ---- Looking members up ---- */

  lemma {:induction false} FindIs(members: seq<Member>, m: Member)
    requires DistinctNames(members) && m in members
    ensures Find(members, m.name) == Some(m.value)
    decreases |members|
  {
    if members[0] == m {
    } else {
      assert m in members[1..];
      FindIs(members[1..], m);
    }
  }

  lemma {:induction false} FindNothing(members: seq<Member>, name: Bytes)
    requires forall m :: m in members ==> m.name != name
    ensures Find(members, name) == None
  {
    if members == [] {
    } else {
      FindNothing(members[1..], name);
    }
  }

  /** What is looked up in a printed and reread object is what was put in, arranged. */
  lemma FindArranged(members: seq<Member>, i: nat)
    requires DistinctNames(members) && ValidNames(members) && i < |members|
    ensures Find(SortByName(ArrangedMembers(members)), members[i].name) == Some(Arranged(members[i].value))
  {
    hide Arranged, SortByName, Find;
    var arranged := ArrangedMembers(members);
    ArrangedNames(members);
    assert arranged[i] == Member(members[i].name, Arranged(members[i].value)) && arranged[i] in arranged;
    FindIs(SortByName(arranged), arranged[i]);
  }

  lemma FindMissing(members: seq<Member>, name: Bytes)
    requires DistinctNames(members) && ValidNames(members) && forall m :: m in members ==> m.name != name
    ensures Find(SortByName(ArrangedMembers(members)), name) == None
  {
    hide Arranged, SortByName, Find;
    var arranged := ArrangedMembers(members);
    ArrangedNames(members);
    forall m | m in SortByName(arranged)
      ensures m.name != name
    {
      assert m in arranged;
      var i :| 0 <= i < |arranged| && arranged[i] == m;
      assert members[i] in members;
    }
    FindNothing(SortByName(arranged), name);
  }

  /* ---- Execution ids: an object's members in order ---- */

  ghost predicate DistinctNodes(ids: seq<NodeId>) {
    forall i, j :: 0 <= i < j < |ids| ==> ids[i].node != ids[j].node
  }

  ghost predicate ValidIds(ids: seq<NodeId>) {
    forall id :: id in ids ==> ValidUtf8(id.node) && ValidUtf8(id.executionId)
  }

  /** The ids as they are read back: in the order of the nodes' names. */
  function IdsInOrder(ids: seq<NodeId>): seq<NodeId> {
    match IdsOf(SortByName(IdMembers(ids)))
    case Some(sorted) => sorted
    case None => []
  }

  lemma {:induction false} IdsOfStrings(members: seq<Member>)
    requires forall m :: m in members ==> m.value.String?
    ensures IdsOf(members).Some? && |IdsOf(members).value| == |members|
    ensures forall i :: 0 <= i < |members| ==> IdsOf(members).value[i] == NodeId(members[i].name, members[i].value.text)
  {
    if members == [] {
    } else {
      IdsOfStrings(members[1..]);
    }
  }

  lemma IdsComeBack(ids: seq<NodeId>)
    ensures IdsOf(SortByName(ArrangedMembers(IdMembers(ids)))) == Some(IdsInOrder(ids))
    ensures forall id :: id in IdsInOrder(ids) <==> id in ids
  {
    hide SortByName;
    var members := IdMembers(ids);
    var sorted := SortByName(members);
    assert ArrangedMembers(members) == members;
    SameMembers(sorted, members);
    forall m | m in sorted
      ensures m.value.String?
    {
      assert m in members;
    }
    IdsOfStrings(sorted);
    SameIds(ids, members, sorted, IdsInOrder(ids));
  }

  lemma SameIds(ids: seq<NodeId>, members: seq<Member>, sorted: seq<Member>, r: seq<NodeId>)
    requires |members| == |ids| && forall i :: 0 <= i < |ids| ==>
             members[i] == Member(ids[i].node, String(ids[i].executionId))
    requires |r| == |sorted| && forall i :: 0 <= i < |r| ==> sorted[i] == Member(r[i].node, String(r[i].executionId))
    requires forall m :: m in members <==> m in sorted
    ensures forall id :: id in r <==> id in ids
  {
    forall id | id in ids
      ensures id in r
    {
      var i :| 0 <= i < |ids| && ids[i] == id;
      assert members[i] in members && members[i] in sorted;
      var j :| 0 <= j < |sorted| && sorted[j] == members[i];
      assert r[j] == id;
    }
    forall id | id in r
      ensures id in ids
    {
      var j :| 0 <= j < |r| && r[j] == id;
      assert sorted[j] in sorted && sorted[j] in members;
      var i :| 0 <= i < |members| && members[i] == sorted[j];
      assert ids[i] == id;
    }
  }

  /* ---- The state ---- */

  ghost predicate RestorableOccurrence(o: Occurrence) {
    ValidUtf8(o.entryKey) && DistinctNodes(o.executionIds) && ValidIds(o.executionIds)
  }

  /** The texts of a state that JSON can carry. */
  ghost predicate Carriable(s: State) {
    && ValidUtf8(s.playlistName) && ValidUtf8(s.packageId) && ValidUtf8(s.packageRevision) && ValidUtf8(s.cutoffAt)
    && (s.occurrence.Some? ==> RestorableOccurrence(s.occurrence.value))
  }

  /** What a saved state needs in order to be readable: a playlist, valid texts, and no node named twice. */
  ghost predicate Restorable(s: State) {
    s.playlistName != [] && Carriable(s)
  }

  function ReloadedOccurrence(o: Occurrence): Occurrence {
    o.(executionIds := IdsInOrder(o.executionIds))
  }

  /** The occurrence's value as canonical text lists it. */
  function ArrangedOccurrence(occurrence: Option<Occurrence>): Option<Value> {
    match occurrence
    case None => None
    case Some(o) => Some(Object(SortByName(ArrangedMembers(OccurrenceMembers(o)))))
  }

  /** The state as a restart finds it: the last boundary's result is not kept. */
  function Reloaded(s: State): State {
    s.(occurrence := match s.occurrence case None => None case Some(o) => Some(ReloadedOccurrence(o)),
       lastBoundary := NothingYet, lastProblem := FallbackProgram.NoProblem)
  }

  lemma AsciiIsValid(s: Bytes)
    requires forall i :: 0 <= i < |s| ==> s[i] < 0x80
    ensures ValidUtf8(s)
  {
  }

  lemma StateNamesAreValid()
    ensures ValidUtf8(VERSION) && ValidUtf8(STATE) && ValidUtf8(FallbackState.PLAYLIST_NAME) && ValidUtf8(SINCE_MILLIS)
    ensures ValidUtf8(PACKAGE_ID) && ValidUtf8(PACKAGE_REVISION) && ValidUtf8(CUTOFF_AT) && ValidUtf8(OCCURRENCE)
    ensures ValidUtf8(NORMAL_WORD) && ValidUtf8(FALLBACK_WORD) && ValidUtf8(RESTING_WORD)
  {
    hide ValidUtf8;
    AsciiIsValid(VERSION);
    AsciiIsValid(STATE);
    AsciiIsValid(FallbackState.PLAYLIST_NAME);
    AsciiIsValid(SINCE_MILLIS);
    AsciiIsValid(PACKAGE_ID);
    AsciiIsValid(PACKAGE_REVISION);
    AsciiIsValid(CUTOFF_AT);
    AsciiIsValid(OCCURRENCE);
    AsciiIsValid(NORMAL_WORD);
    AsciiIsValid(FALLBACK_WORD);
    AsciiIsValid(RESTING_WORD);
  }

  lemma OccurrenceNamesAreValid()
    ensures ValidUtf8(ENTRY_KEY) && ValidUtf8(IDENTITY_RESOLVED) && ValidUtf8(DELIVERED)
    ensures ValidUtf8(EXECUTION_IDS) && ValidUtf8(PLAYLIST_LOOP)
  {
    hide ValidUtf8;
    AsciiIsValid(ENTRY_KEY);
    AsciiIsValid(IDENTITY_RESOLVED);
    AsciiIsValid(DELIVERED);
    AsciiIsValid(EXECUTION_IDS);
    AsciiIsValid(PLAYLIST_LOOP);
  }

  lemma IdMembersFit(ids: seq<NodeId>, depth: nat)
    requires DistinctNodes(ids) && ValidIds(ids) && depth < MAX_DEPTH
    ensures WellFormed(Object(IdMembers(ids)), depth)
  {
  }

  lemma OccurrenceFits(o: Occurrence, depth: nat)
    requires RestorableOccurrence(o) && depth < MAX_DEPTH - 1
    ensures WellFormed(Object(OccurrenceMembers(o)), depth)
    ensures DistinctNames(OccurrenceMembers(o)) && ValidNames(OccurrenceMembers(o))
  {
    hide ValidUtf8, OfInt, IdMembers;
    OccurrenceNamesAreValid();
    IdMembersFit(o.executionIds, depth + 1);
    var members := OccurrenceMembers(o);
    assert EXECUTION_IDS[0] != PLAYLIST_LOOP[0];
    assert DistinctNames(members);
  }

  lemma StateFits(s: State)
    requires Carriable(s)
    ensures WellFormed(Object(StateMembers(s)), 0) && DistinctNames(StateMembers(s)) && ValidNames(StateMembers(s))
  {
    hide ValidUtf8, OfInt, OccurrenceMembers;
    StateNamesAreValid();
    if s.occurrence.Some? {
      OccurrenceFits(s.occurrence.value, 1);
    }
    assert DistinctNames(StateMembers(s));
  }

  /** A printed and reread object: its members can all be looked up. */
  ghost predicate AllFound(ms: seq<Member>, found: seq<Member>) {
    forall i :: 0 <= i < |ms| ==> Find(found, ms[i].name) == Some(Arranged(ms[i].value))
  }

  lemma EverythingIsFound(ms: seq<Member>)
    requires DistinctNames(ms) && ValidNames(ms)
    ensures AllFound(ms, SortByName(ArrangedMembers(ms)))
  {
    hide Find, SortByName, ArrangedMembers, Arranged;
    forall i | 0 <= i < |ms|
      ensures Find(SortByName(ArrangedMembers(ms)), ms[i].name) == Some(Arranged(ms[i].value))
    {
      FindArranged(ms, i);
    }
  }

  lemma OccurrenceComesBack(o: Occurrence)
    requires RestorableOccurrence(o)
    ensures var inner := SortByName(ArrangedMembers(OccurrenceMembers(o)));
            && FindText(inner, ENTRY_KEY) == Some(o.entryKey)
            && FindBool(inner, IDENTITY_RESOLVED) == Some(o.identityResolved)
            && FindBool(inner, DELIVERED) == Some(o.delivered) && FindInt(inner, PLAYLIST_LOOP) == o.playlistLoop
            && Find(inner, EXECUTION_IDS) == Some(Object(SortByName(ArrangedMembers(IdMembers(o.executionIds)))))
  {
    OccurrenceFits(o, 0);
    var ms := OccurrenceMembers(o);
    EverythingIsFound(ms);
    OccurrenceIsAt(o);
    hide *;
    if o.playlistLoop.None? {
      FindMissing(ms, PLAYLIST_LOOP);
    }
    OccurrenceFieldsFound(o, ms, SortByName(ArrangedMembers(ms)));
  }

  lemma OccurrenceFieldsFound(o: Occurrence, ms: seq<Member>, inner: seq<Member>)
    requires AllFound(ms, inner) && |ms| == (if o.playlistLoop.Some? then 5 else 4)
    requires ms[0] == Member(ENTRY_KEY, String(o.entryKey))
             && ms[1] == Member(IDENTITY_RESOLVED, Bool(o.identityResolved))
    requires ms[2] == Member(DELIVERED, Bool(o.delivered))
             && ms[3] == Member(EXECUTION_IDS, Object(IdMembers(o.executionIds)))
    requires o.playlistLoop.Some? ==> ms[4] == Member(PLAYLIST_LOOP, IntNumber(o.playlistLoop.value))
    requires o.playlistLoop.None? ==> Find(inner, PLAYLIST_LOOP) == None
    ensures && FindText(inner, ENTRY_KEY) == Some(o.entryKey)
            && FindBool(inner, IDENTITY_RESOLVED) == Some(o.identityResolved)
            && FindBool(inner, DELIVERED) == Some(o.delivered) && FindInt(inner, PLAYLIST_LOOP) == o.playlistLoop
            && Find(inner, EXECUTION_IDS) == Some(Object(SortByName(ArrangedMembers(IdMembers(o.executionIds)))))
  {
    hide Find, SortByName, ArrangedMembers, IdMembers, OfInt, IntOf;
    if o.playlistLoop.Some? {
      IntIsKept(o.playlistLoop.value);
    }
  }

  lemma OccurrenceIsAt(o: Occurrence)
    ensures var ms := OccurrenceMembers(o);
            && |ms| == (if o.playlistLoop.Some? then 5 else 4)
            && ms[0] == Member(ENTRY_KEY, String(o.entryKey))
            && ms[1] == Member(IDENTITY_RESOLVED, Bool(o.identityResolved))
            && ms[2] == Member(DELIVERED, Bool(o.delivered))
            && ms[3] == Member(EXECUTION_IDS, Object(IdMembers(o.executionIds)))
            && (o.playlistLoop.Some? ==> ms[4] == Member(PLAYLIST_LOOP, IntNumber(o.playlistLoop.value)))
            && (o.playlistLoop.None? ==> forall m :: m in ms ==> m.name != PLAYLIST_LOOP)
  {
    hide OfInt, IdMembers;
    assert EXECUTION_IDS[0] != PLAYLIST_LOOP[0];
  }

  lemma StateIsAt(s: State)
    ensures var ms := StateMembers(s);
            && |ms| == (if s.occurrence.Some? then 8 else 7)
            && ms[0] == Member(VERSION, IntNumber(1)) && ms[1] == Member(STATE, String(ModeWord(s.mode)))
            && ms[2] == Member(FallbackState.PLAYLIST_NAME, String(s.playlistName))
            && ms[3] == Member(SINCE_MILLIS, IntNumber(s.sinceMillis))
            && ms[4] == Member(PACKAGE_ID, String(s.packageId))
            && ms[5] == Member(PACKAGE_REVISION, String(s.packageRevision))
            && ms[6] == Member(CUTOFF_AT, String(s.cutoffAt))
            && (s.occurrence.Some? ==> ms[7] == Member(OCCURRENCE, Object(OccurrenceMembers(s.occurrence.value))))
            && (s.occurrence.None? ==> forall m :: m in ms ==> m.name != OCCURRENCE)
  {
    hide OfInt, OccurrenceMembers, ModeWord;
  }

  lemma FieldsComeBack(s: State)
    requires Carriable(s)
    ensures var members := SortByName(ArrangedMembers(StateMembers(s)));
            && Find(members, VERSION) == Some(IntNumber(1)) && FindText(members, STATE) == Some(ModeWord(s.mode))
            && FindText(members, FallbackState.PLAYLIST_NAME) == Some(s.playlistName)
            && FindText(members, PACKAGE_ID) == Some(s.packageId)
            && FindText(members, PACKAGE_REVISION) == Some(s.packageRevision)
            && FindText(members, CUTOFF_AT) == Some(s.cutoffAt) && FindInt(members, SINCE_MILLIS) == Some(s.sinceMillis)
            && Find(members, OCCURRENCE) == ArrangedOccurrence(s.occurrence)
  {
    StateFits(s);
    var ms := StateMembers(s);
    EverythingIsFound(ms);
    StateIsAt(s);
    hide *;
    if s.occurrence.None? {
      FindMissing(ms, OCCURRENCE);
    }
    TextsFound(ms, SortByName(ArrangedMembers(ms)), s);
    OthersFound(ms, SortByName(ArrangedMembers(ms)), s);
  }

  lemma TextsFound(ms: seq<Member>, members: seq<Member>, s: State)
    requires AllFound(ms, members) && |ms| >= 7 && ms[1] == Member(STATE, String(ModeWord(s.mode)))
    requires ms[2] == Member(FallbackState.PLAYLIST_NAME, String(s.playlistName))
             && ms[4] == Member(PACKAGE_ID, String(s.packageId))
    requires ms[5] == Member(PACKAGE_REVISION, String(s.packageRevision))
             && ms[6] == Member(CUTOFF_AT, String(s.cutoffAt))
    ensures FindText(members, STATE) == Some(ModeWord(s.mode))
    ensures FindText(members, FallbackState.PLAYLIST_NAME) == Some(s.playlistName)
    ensures FindText(members, PACKAGE_ID) == Some(s.packageId)
    ensures FindText(members, PACKAGE_REVISION) == Some(s.packageRevision)
    ensures FindText(members, CUTOFF_AT) == Some(s.cutoffAt)
  {
    hide Find, ModeWord;
  }

  lemma OthersFound(ms: seq<Member>, members: seq<Member>, s: State)
    requires AllFound(ms, members) && |ms| == (if s.occurrence.Some? then 8 else 7)
             && ms[0] == Member(VERSION, IntNumber(1))
    requires ms[3] == Member(SINCE_MILLIS, IntNumber(s.sinceMillis))
    requires s.occurrence.Some? ==> ms[7] == Member(OCCURRENCE, Object(OccurrenceMembers(s.occurrence.value)))
    requires s.occurrence.None? ==> Find(members, OCCURRENCE) == None
    ensures Find(members, VERSION) == Some(IntNumber(1)) && FindInt(members, SINCE_MILLIS) == Some(s.sinceMillis)
    ensures Find(members, OCCURRENCE) == ArrangedOccurrence(s.occurrence)
  {
    hide Find, OfInt, IntOf, SortByName, ArrangedMembers, OccurrenceMembers;
    IntIsKept(s.sinceMillis);
  }

  /** What is saved is what a restart finds, if the record is readable; otherwise a restart finds nothing. */
  lemma SavedStateComesBack(s: State)
    requires !s.mode.Normal?
    ensures ParseState(Render(s)) == if Restorable(s) then Loaded(Reloaded(s)) else NothingSaved
  {
    StateFitsIff(s);
    CanonicalIsAcceptedIff(Object(StateMembers(s)));
    var members := SortByName(ArrangedMembers(StateMembers(s)));
    assert Arranged(Object(StateMembers(s))) == Object(members);
    if Carriable(s) {
      CarriedIsRead(s);
    } else {
      hide Parse, WellFormed, Arranged, CanonicalText, StateMembers, Carriable;
    }
  }

  lemma CarriedIsRead(s: State)
    requires Carriable(s) && !s.mode.Normal?
    requires Parse(Render(s)) == Accepted(Object(SortByName(ArrangedMembers(StateMembers(s)))))
    ensures ParseState(Render(s)) == if s.playlistName != [] then Loaded(Reloaded(s)) else NothingSaved
  {
    hide ValidUtf8, OfInt, Find, FindText, FindBool, FindInt, WellFormed, Parse, OccurrenceMembers, StateMembers,
         ModeWord, ModeOf, IdsOf, IdsInOrder, SortByName, ArrangedMembers, Render, FallbackState.OccurrenceOf;
    var members := SortByName(ArrangedMembers(StateMembers(s)));
    FieldsComeBack(s);
    ModeComesBack(s.mode);
    OccurrenceFound(s, members);
  }

  lemma StateFitsIff(s: State)
    ensures WellFormed(Object(StateMembers(s)), 0) <==> Carriable(s)
  {
    if Carriable(s) {
      StateFits(s);
    } else if WellFormed(Object(StateMembers(s)), 0) {
      FitsIsCarriable(s);
    }
  }

  lemma FitsIsCarriable(s: State)
    requires WellFormed(Object(StateMembers(s)), 0)
    ensures Carriable(s)
  {
    StateIsAt(s);
    var ms := StateMembers(s);
    hide ValidUtf8, StateMembers, OccurrenceMembers, OfInt, DistinctNames;
    assert ms[2] in ms && ms[4] in ms && ms[5] in ms && ms[6] in ms;
    if s.occurrence.Some? {
      assert ms[7] in ms;
      OccurrenceFitsBack(s.occurrence.value, 1);
    }
  }

  lemma OccurrenceFitsBack(o: Occurrence, depth: nat)
    requires WellFormed(Object(OccurrenceMembers(o)), depth)
    ensures RestorableOccurrence(o)
  {
    OccurrenceIsAt(o);
    var ms := OccurrenceMembers(o);
    hide ValidUtf8, OccurrenceMembers, OfInt;
    assert ms[0] in ms && ms[3] in ms;
    assert WellFormed(ms[3].value, depth + 1);
    IdMembersFitBack(o.executionIds, depth + 1);
  }

  lemma IdMembersFitBack(ids: seq<NodeId>, depth: nat)
    requires WellFormed(Object(IdMembers(ids)), depth)
    ensures DistinctNodes(ids) && ValidIds(ids)
  {
  }

  lemma OccurrenceFound(s: State, members: seq<Member>)
    requires s.occurrence.Some? ==> RestorableOccurrence(s.occurrence.value)
    requires Find(members, OCCURRENCE) == ArrangedOccurrence(s.occurrence)
    ensures OccurrenceOf(members) == Some(Reloaded(s).occurrence)
  {
    hide ValidUtf8, OfInt, Find, FindText, FindBool, FindInt, OccurrenceMembers, IdsOf, IdsInOrder, SortByName,
         ArrangedMembers;
    if s.occurrence.Some? {
      OccurrenceComesBack(s.occurrence.value);
      IdsComeBack(s.occurrence.value.executionIds);
    }
  }

  lemma ModeComesBack(m: Mode)
    requires !m.Normal?
    ensures ModeOf(Some(ModeWord(m))) == Some(m)
  {
    assert FALLBACK_WORD[0] != RESTING_WORD[0];
  }
}
