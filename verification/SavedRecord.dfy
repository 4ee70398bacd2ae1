/** What a start takes for a saved state (native/adapters/shared/fallback_state_store.h:141-197), whoever wrote it, in
    the words of its format. */
module SavedRecord {
  import opened Basics
  import opened Ordering
  import opened JsonNumber
  import opened JsonNumberMeaning
  import opened Json
  import opened JsonAccepted
  import FallbackProgram
  import opened FallbackState
  import SavedState
  import opened MemberNames

  /** No member of this name is of that kind. */
  ghost predicate NoObject(ms: seq<Member>, name: string) {
    forall inner :: !Says(ms, name, Object(inner))
  }

  ghost predicate NoNumber(ms: seq<Member>, name: string) {
    forall d :: !Says(ms, name, Number(d))
  }

  /** The word for the mode. */
  ghost predicate IsModeWord(word: Bytes, m: Mode) {
    (Spells(word, "fallback") && m == Fallback) || (Spells(word, "resting") && m == Resting)
  }

  /** An occurrence as it is written down. */
  ghost predicate IsOccurrence(ms: seq<Member>, o: Occurrence) {
    && Says(ms, "entryKey", String(o.entryKey)) && Says(ms, "identityResolved", Bool(o.identityResolved))
    && Says(ms, "delivered", Bool(o.delivered)) && Says(ms, "executionIds", Object(IdMembers(o.executionIds)))
    && (match o.playlistLoop
        case None => NoNumber(ms, "playlistLoop")
        case Some(n) => exists d :: Says(ms, "playlistLoop", Number(d)) && n == IntOf(d))
  }

  /** A record, and the state it stands for. An occurrence that is no object is none. */
  ghost predicate IsRecord(ms: seq<Member>, s: State) {
    && Says(ms, "version", IntNumber(1))
    && (exists word :: Says(ms, "state", String(word)) && IsModeWord(word, s.mode))
    && Says(ms, "playlistName", String(s.playlistName)) && s.playlistName != []
    && Says(ms, "packageId", String(s.packageId)) && Says(ms, "packageRevision", String(s.packageRevision))
    && Says(ms, "cutoffAt", String(s.cutoffAt))
    && (exists d :: Says(ms, "sinceMillis", Number(d)) && s.sinceMillis == IntOf(d))
    && (match s.occurrence
        case None => NoObject(ms, "occurrence")
        case Some(o) => exists inner :: Says(ms, "occurrence", Object(inner)) && IsOccurrence(inner, o))
    && s.lastBoundary == NothingYet && s.lastProblem == FallbackProgram.NoProblem
  }

  /** A number is taken for a whole one by leaving out its fraction. */
  lemma IntOfMeans(d: NormalDecimal)
    ensures var n, x := IntOf(d), Meaning(d);
            if x >= 0.0 then n >= 0 && n as real <= x < n as real + 1.0 else n <= 0 && n as real - 1.0 < x <= n as real
  {
    hide Scaled, NatOf, Pow10;
    if !d.Zero? {
      WholePartIs(d.digits, d.exponent);
    }
  }

  function WholeDigits(digits: Bytes, exponent: nat): Bytes {
    if exponent >= |digits| then digits + Zeros(exponent - |digits|) else digits[..exponent]
  }

  lemma WholePartIs(digits: Bytes, exponent: int)
    requires AllDigits(digits)
    ensures exponent <= 0 ==> 0.0 <= Scaled(digits, exponent) < 1.0
    ensures exponent > 0 ==> AllDigits(WholeDigits(digits, exponent))
    ensures exponent > 0 ==>
              var n := NatOf(WholeDigits(digits, exponent)) as real; n <= Scaled(digits, exponent) < n + 1.0
  {
    hide Scaled, NatOf;
    if exponent <= 0 {
      ScaledBounds(digits, exponent);
      Pow10Monotone(exponent, 0);
    } else {
      var whole := WholeDigits(digits, exponent);
      ScaledIsShiftedNat(whole, exponent);
      TimesIsProduct(NatOf(whole), 1.0);
      if exponent >= |digits| {
        ScaledConcat(digits, Zeros(exponent - |digits|), exponent);
        ZerosAdd(exponent - |digits|, exponent - |digits|);
      } else {
        ScaledConcat(whole, digits[exponent..], exponent);
        assert digits == whole + digits[exponent..];
        ScaledBounds(digits[exponent..], 0);
      }
    }
  }

  lemma {:induction false} ZerosAdd(k: nat, n: int)
    ensures Scaled(Zeros(k), n) == 0.0
  {
    if k > 0 {
      ZerosAdd(k - 1, n - 1);
      assert Zeros(k)[1..] == Zeros(k - 1);
    }
  }

  /* ---- Looking up by name is what the members say ---- */

  lemma SpelledOnce(a: Bytes, b: Bytes, word: string)
    requires Spells(a, word) && Spells(b, word)
    ensures a == b
  {
  }

  lemma {:induction false} SaysIff(ms: seq<Member>, name: Bytes, word: string, v: Value)
    requires DistinctNames(ms) && Spells(name, word)
    ensures Says(ms, word, v) <==> Find(ms, name) == Some(v)
  {
    hide Spells;
    if Find(ms, name).Some? {
      FoundIsSaid(ms, name, word);
    }
    forall m | m in ms && Spells(m.name, word) && m.value == v
      ensures Find(ms, name) == Some(v)
    {
      SpelledOnce(m.name, name, word);
      SavedState.FindIs(ms, m);
    }
  }

  lemma {:induction false} IdsIff(ms: seq<Member>, ids: seq<NodeId>)
    ensures IdsOf(ms) == Some(ids) <==> ms == IdMembers(ids)
  {
    if ms == [] || ids == [] {
    } else {
      IdsIff(ms[1..], ids[1..]);
      assert ids == [ids[0]] + ids[1..] && ms == [ms[0]] + ms[1..];
    }
  }

  /* ---- The occurrence ---- */

  /** What the reader makes of the members of an occurrence. */
  function OccurrenceIn(inner: seq<Member>): Option<Occurrence> {
    match (FindText(inner, ENTRY_KEY), FindBool(inner, IDENTITY_RESOLVED), FindBool(inner, DELIVERED),
           Find(inner, EXECUTION_IDS))
    case (Some(key), Some(resolved), Some(delivered), Some(Object(idMembers))) =>
      (match IdsOf(idMembers)
       case Some(ids) => Some(Occurrence(resolved, key, FindInt(inner, PLAYLIST_LOOP), ids, delivered))
       case None => None)
    case _ => None
  }

  lemma OccurrenceIff(inner: seq<Member>, o: Occurrence)
    requires DistinctNames(inner)
    ensures OccurrenceIn(inner) == Some(o) <==> IsOccurrence(inner, o)
  {
    hide Spells, Find, IntOf, IdsOf, IdMembers, Says, DistinctNames;
    OccurrenceNames();
    SaysIff(inner, ENTRY_KEY, "entryKey", String(o.entryKey));
    SaysIff(inner, IDENTITY_RESOLVED, "identityResolved", Bool(o.identityResolved));
    SaysIff(inner, DELIVERED, "delivered", Bool(o.delivered));
    SaysIff(inner, EXECUTION_IDS, "executionIds", Object(IdMembers(o.executionIds)));
    forall d
      ensures Says(inner, "playlistLoop", Number(d)) <==> Find(inner, PLAYLIST_LOOP) == Some(Number(d))
    {
      SaysIff(inner, PLAYLIST_LOOP, "playlistLoop", Number(d));
    }
    forall ms
      ensures IdsOf(ms) == Some(o.executionIds) <==> ms == IdMembers(o.executionIds)
    {
      IdsIff(ms, o.executionIds);
    }
  }

  /* ---- The record ---- */

  lemma ModeIff(word: Bytes, m: Mode)
    ensures ModeOf(Some(word)) == Some(m) <==> IsModeWord(word, m)
  {
    hide Spells;
    ModeNames();
    if Spells(word, "fallback") {
      SpelledOnce(word, FALLBACK_WORD, "fallback");
    }
    if Spells(word, "resting") {
      SpelledOnce(word, RESTING_WORD, "resting");
    }
    WordsDiffer();
  }

  lemma WordsDiffer()
    ensures FALLBACK_WORD != RESTING_WORD
  {
    assert FALLBACK_WORD[0] != RESTING_WORD[0];
  }

  /** Exactly the records so written are taken up, each as the state it stands for. */
  lemma LoadedIff(text: Bytes, s: State)
    ensures ParseState(text) == Loaded(s) <==>
              Parse(text).Accepted? && Parse(text).value.Object? && IsRecord(Parse(text).value.members, s)
  {
    hide Parse, IsRecord;
    if Parse(text).Accepted? && Parse(text).value.Object? {
      NamesAreDistinct(text);
      RecordIff(text, Parse(text).value.members, s);
    }
  }

  lemma NamesAreDistinct(text: Bytes)
    requires Parse(text).Accepted? && Parse(text).value.Object?
    ensures var ms := Parse(text).value.members;
            && DistinctNames(ms)
            && forall m :: m in ms && m.value.Object? ==> DistinctNames(m.value.members)
  {
    hide Parse;
    AcceptedIsWellFormed(text);
  }

  lemma TextIff(ms: seq<Member>, name: Bytes, word: string, t: Bytes)
    requires DistinctNames(ms) && Spells(name, word)
    ensures FindText(ms, name) == Some(t) <==> Says(ms, word, String(t))
  {
    hide Says, Spells, Find, DistinctNames;
    SaysIff(ms, name, word, String(t));
  }

  lemma NumberIff(ms: seq<Member>, name: Bytes, word: string, n: int)
    requires DistinctNames(ms) && Spells(name, word)
    ensures FindInt(ms, name) == Some(n) <==> exists d :: Says(ms, word, Number(d)) && n == IntOf(d)
  {
    hide Says, Spells, Find, DistinctNames, IntOf;
    forall d
      ensures Says(ms, word, Number(d)) <==> Find(ms, name) == Some(Number(d))
    {
      SaysIff(ms, name, word, Number(d));
    }
  }

  lemma StateModeIff(ms: seq<Member>, m: Mode)
    requires DistinctNames(ms)
    ensures ModeOf(FindText(ms, STATE)) == Some(m) <==>
              exists word :: Says(ms, "state", String(word)) && IsModeWord(word, m)
  {
    hide Says, Spells, FindText, DistinctNames, IsModeWord;
    StateNames();
    forall word
      ensures FindText(ms, STATE) == Some(word) <==> Says(ms, "state", String(word))
      ensures ModeOf(Some(word)) == Some(m) <==> IsModeWord(word, m)
    {
      TextIff(ms, STATE, "state", word);
      ModeIff(word, m);
    }
  }

  lemma {:induction false} FoundIsThere(ms: seq<Member>, name: Bytes)
    requires Find(ms, name).Some?
    ensures exists m :: m in ms && m.value == Find(ms, name).value
  {
    if ms[0].name == name {
      assert ms[0] in ms;
    } else {
      FoundIsThere(ms[1..], name);
    }
  }

  lemma OccurrencePartIff(ms: seq<Member>, occurrence: Option<Occurrence>)
    requires DistinctNames(ms)
    requires forall m :: m in ms && m.value.Object? ==> DistinctNames(m.value.members)
    ensures FallbackState.OccurrenceOf(ms) == Some(occurrence) <==>
              match occurrence
              case None => NoObject(ms, "occurrence")
              case Some(o) => exists inner :: Says(ms, "occurrence", Object(inner)) && IsOccurrence(inner, o)
  {
    hide Says, Spells, Find, IsOccurrence, FindText, FindBool, FindInt, IdsOf;
    StateNames();
    forall v
      ensures Says(ms, "occurrence", v) <==> Find(ms, OCCURRENCE) == Some(v)
    {
      SaysIff(ms, OCCURRENCE, "occurrence", v);
    }
    match Find(ms, OCCURRENCE)
    case Some(Object(inner)) =>
      FoundIsThere(ms, OCCURRENCE);
      assert FallbackState.OccurrenceOf(ms) ==
             if OccurrenceIn(inner).Some? then Some(OccurrenceIn(inner)) else None;
      if occurrence.Some? {
        OccurrenceIff(inner, occurrence.value);
      }
    case _ =>
  }

  lemma RecordIff(text: Bytes, ms: seq<Member>, s: State)
    requires Parse(text) == Accepted(Object(ms)) && DistinctNames(ms)
    requires forall m :: m in ms && m.value.Object? ==> DistinctNames(m.value.members)
    ensures ParseState(text) == Loaded(s) <==> IsRecord(ms, s)
  {
    hide Parse, Spells, Find, FindText, FindInt, IntOf, Says, DistinctNames, IsOccurrence, IsModeWord, ModeOf, NoObject,
         FallbackState.OccurrenceOf;
    StateNames();
    SaysIff(ms, VERSION, "version", IntNumber(1));
    StateModeIff(ms, s.mode);
    TextIff(ms, FallbackState.PLAYLIST_NAME, "playlistName", s.playlistName);
    TextIff(ms, PACKAGE_ID, "packageId", s.packageId);
    TextIff(ms, PACKAGE_REVISION, "packageRevision", s.packageRevision);
    TextIff(ms, CUTOFF_AT, "cutoffAt", s.cutoffAt);
    NumberIff(ms, SINCE_MILLIS, "sinceMillis", s.sinceMillis);
    OccurrencePartIff(ms, s.occurrence);
  }

  /** A record of another version is told from one that cannot be read. */
  lemma UnknownVersionIff(text: Bytes)
    ensures ParseState(text) == UnknownVersion <==>
              && Parse(text).Accepted? && Parse(text).value.Object?
              && !Says(Parse(text).value.members, "version", IntNumber(1))
  {
    hide Parse, Says, Spells, Find;
    if Parse(text).Accepted? && Parse(text).value.Object? {
      NamesAreDistinct(text);
      StateNames();
      SaysIff(Parse(text).value.members, VERSION, "version", IntNumber(1));
    }
  }
}
