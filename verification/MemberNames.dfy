/** The two documents the player writes for itself, in the words of their format: what is hashed for an entry key
    (native/src/playlist_identity.cpp) and the saved fallback state (native/adapters/shared/fallback_state_store.h). */
module MemberNames {
  import opened Ordering
  import opened Utf8
  import opened Json
  import opened JsonCanonical
  import opened FallbackState
  import opened SavedState
  import opened PlaylistIdentity

  /** The bytes of a text in ASCII. */
  predicate Spells(s: Bytes, text: string) {
    |s| == |text| && forall i :: 0 <= i < |s| ==> s[i] == text[i] as int < 128
  }

  lemma IdentityNames()
    ensures Spells(INSTANCE_UUID, "instanceUuid") && Spells(PLAYLIST_HASH, "playlistHash")
    ensures Spells(PlaylistIdentity.PLAYLIST_NAME, "playlistName") && Spells(POSITION, "position")
    ensures Spells(SECTION, "section")
  {
  }

  /** What is hashed for an entry key: an object of five members, by these names. */
  lemma PreimageMeans(e: EntryIdentity)
    requires ValidUtf8(e.instanceUuid) && ValidUtf8(e.playlistHash) && ValidUtf8(e.playlistName) && ValidUtf8(e.section)
    ensures var read := Parse(Preimage(e));
            && read.Accepted? && read.value.Object? && |read.value.members| == 5
            && var ms := read.value.members;
            && Spells(ms[0].name, "instanceUuid") && ms[0].value == String(e.instanceUuid)
            && Spells(ms[1].name, "playlistHash") && ms[1].value == String(e.playlistHash)
            && Spells(ms[2].name, "playlistName") && ms[2].value == String(e.playlistName)
            && Spells(ms[3].name, "position") && ms[3].value.Number? && IntOf(ms[3].value.number) == e.position
            && Spells(ms[4].name, "section") && ms[4].value == String(e.section)
  {
    hide Spells, ValidUtf8, Parse, Preimage, IntOf, OfInt;
    PreimageIsRead(e);
    IdentityNames();
    IntIsKept(e.position);
  }

  lemma PreimageIsRead(e: EntryIdentity)
    requires ValidUtf8(e.instanceUuid) && ValidUtf8(e.playlistHash) && ValidUtf8(e.playlistName) && ValidUtf8(e.section)
    ensures Parse(Preimage(e)) == Accepted(Object(MembersOf(e)))
  {
    hide ValidUtf8, Parse, CanonicalText, Arranged, MembersOf, WellFormed;
    IdentityFits(e);
    CanonicalIsAccepted(Object(MembersOf(e)));
    IdentityIsArranged(e);
  }

  lemma IdentityFits(e: EntryIdentity)
    requires ValidUtf8(e.instanceUuid) && ValidUtf8(e.playlistHash) && ValidUtf8(e.playlistName) && ValidUtf8(e.section)
    ensures WellFormed(Object(MembersOf(e)), 0)
  {
    hide ValidUtf8, OfInt;
    AsciiIsValid(INSTANCE_UUID);
    AsciiIsValid(PLAYLIST_HASH);
    AsciiIsValid(PlaylistIdentity.PLAYLIST_NAME);
    AsciiIsValid(POSITION);
    AsciiIsValid(SECTION);
  }

  /** An entry is identified exactly if the player and the playlist have names, the position is none below zero, and the
      definition is JSON; its hash is that of the canonical text. */
  lemma IdentifiedIff(hash: Bytes -> Bytes, p: Place)
    ensures var r := ResolveEntryIdentity(hash, p);
            && (r.Identified? <==>
                  p.instanceUuid != [] && p.playlistName != [] && p.position >= 0 && Parse(p.definition).Accepted?)
            && (r.Identified? ==>
                  && r.entryKey == hash(Preimage(r.identity))
                  && r.identity.playlistHash == hash(CanonicalText(Parse(p.definition).value))
                  && r.identity.instanceUuid == p.instanceUuid && r.identity.playlistName == p.playlistName
                  && r.identity.position == p.position && r.identity.section == p.section)
  {
    hide Parse, CanonicalText, Preimage;
    NothingIsRefused();
  }

  lemma NothingIsRefused()
    ensures Parse([]).Refused?
  {
  }

  /* ---- The saved state ---- */

  lemma StateNames()
    ensures Spells(VERSION, "version") && Spells(STATE, "state") && Spells(FallbackState.PLAYLIST_NAME, "playlistName")
    ensures Spells(SINCE_MILLIS, "sinceMillis") && Spells(PACKAGE_ID, "packageId")
    ensures Spells(PACKAGE_REVISION, "packageRevision") && Spells(CUTOFF_AT, "cutoffAt")
    ensures Spells(OCCURRENCE, "occurrence")
  {
  }

  lemma ModeNames()
    ensures Spells(FALLBACK_WORD, "fallback") && Spells(RESTING_WORD, "resting")
  {
  }

  lemma OccurrenceNames()
    ensures Spells(ENTRY_KEY, "entryKey") && Spells(IDENTITY_RESOLVED, "identityResolved")
    ensures Spells(DELIVERED, "delivered") && Spells(EXECUTION_IDS, "executionIds")
    ensures Spells(PLAYLIST_LOOP, "playlistLoop")
  {
  }

  /** A member of this name has this value. */
  ghost predicate Says(ms: seq<Member>, name: string, v: Value) {
    exists m <- ms :: Spells(m.name, name) && m.value == v
  }

  lemma {:induction false} FoundIsSaid(ms: seq<Member>, name: Bytes, word: string)
    requires Find(ms, name).Some? && Spells(name, word)
    ensures Says(ms, word, Find(ms, name).value)
  {
    hide Spells;
    if ms[0].name == name {
      assert ms[0] in ms;
    } else {
      FoundIsSaid(ms[1..], name, word);
    }
  }

  /** The value of the occurrence member. */
  function OccurrenceValue(o: Occurrence): seq<Member> {
    SortByName(ArrangedMembers(OccurrenceMembers(o)))
  }

  /** The saved state: an object whose members say so, by these names. */
  lemma SavedTextMeans(s: State)
    requires Carriable(s) && !s.mode.Normal?
    ensures var read := Parse(Render(s));
            && read.Accepted? && read.value.Object?
            && var ms := read.value.members;
            && Says(ms, "version", IntNumber(1)) && Says(ms, "state", String(ModeWord(s.mode)))
            && Spells(ModeWord(s.mode), if s.mode.Fallback? then "fallback" else "resting")
            && Says(ms, "playlistName", String(s.playlistName)) && Says(ms, "sinceMillis", IntNumber(s.sinceMillis))
            && Says(ms, "packageId", String(s.packageId)) && Says(ms, "packageRevision", String(s.packageRevision))
            && Says(ms, "cutoffAt", String(s.cutoffAt))
            && (s.occurrence.Some? ==> Says(ms, "occurrence", Object(OccurrenceValue(s.occurrence.value))))
  {
    hide Spells, Says, Carriable, Parse, CanonicalText, OfInt, SortByName, WellFormed, StateMembers, ArrangedMembers,
         AllFound;
    StateFits(s);
    CanonicalIsAccepted(Object(StateMembers(s)));
    EverythingIsFound(StateMembers(s));
    ModeNames();
    StateFieldsSaid(s, SortByName(ArrangedMembers(StateMembers(s))));
  }

  lemma StateFieldsSaid(s: State, ms: seq<Member>)
    requires AllFound(StateMembers(s), ms)
    ensures Says(ms, "version", IntNumber(1)) && Says(ms, "state", String(ModeWord(s.mode)))
    ensures Says(ms, "playlistName", String(s.playlistName)) && Says(ms, "sinceMillis", IntNumber(s.sinceMillis))
    ensures Says(ms, "packageId", String(s.packageId)) && Says(ms, "packageRevision", String(s.packageRevision))
    ensures Says(ms, "cutoffAt", String(s.cutoffAt))
    ensures s.occurrence.Some? ==> Says(ms, "occurrence", Object(OccurrenceValue(s.occurrence.value)))
  {
    hide Spells, Says, Find, OfInt, SortByName, StateMembers, ArrangedMembers, ModeWord, OccurrenceMembers;
    StateIsAt(s);
    StateNames();
    FoundIsSaid(ms, VERSION, "version");
    FoundIsSaid(ms, STATE, "state");
    FoundIsSaid(ms, FallbackState.PLAYLIST_NAME, "playlistName");
    FoundIsSaid(ms, SINCE_MILLIS, "sinceMillis");
    FoundIsSaid(ms, PACKAGE_ID, "packageId");
    FoundIsSaid(ms, PACKAGE_REVISION, "packageRevision");
    FoundIsSaid(ms, CUTOFF_AT, "cutoffAt");
    if s.occurrence.Some? {
      FoundIsSaid(ms, OCCURRENCE, "occurrence");
    }
  }

  /** And its occurrence likewise. */
  lemma OccurrenceTextMeans(o: Occurrence)
    requires RestorableOccurrence(o)
    ensures var ms := OccurrenceValue(o);
            && Says(ms, "entryKey", String(o.entryKey)) && Says(ms, "identityResolved", Bool(o.identityResolved))
            && Says(ms, "delivered", Bool(o.delivered))
            && Says(ms, "executionIds", Object(SortByName(IdMembers(o.executionIds))))
            && (o.playlistLoop.Some? ==> Says(ms, "playlistLoop", IntNumber(o.playlistLoop.value)))
  {
    OccurrenceFits(o, 0);
    hide Spells, Says, Find, OfInt, SortByName, ArrangedMembers, OccurrenceMembers, RestorableOccurrence, IdMembers,
         WellFormed, DistinctNames, ValidNames, AllFound;
    EverythingIsFound(OccurrenceMembers(o));
    OccurrenceFieldsSaid(o, OccurrenceValue(o));
  }

  lemma OccurrenceFieldsSaid(o: Occurrence, ms: seq<Member>)
    requires AllFound(OccurrenceMembers(o), ms)
    ensures Says(ms, "entryKey", String(o.entryKey)) && Says(ms, "identityResolved", Bool(o.identityResolved))
    ensures Says(ms, "delivered", Bool(o.delivered))
    ensures Says(ms, "executionIds", Object(SortByName(IdMembers(o.executionIds))))
    ensures o.playlistLoop.Some? ==> Says(ms, "playlistLoop", IntNumber(o.playlistLoop.value))
  {
    hide Spells, Says, Find, OfInt, SortByName, ArrangedMembers, OccurrenceMembers, IdMembers;
    OccurrenceIsAt(o);
    OccurrenceNames();
    StringsStay(IdMembers(o.executionIds));
    FoundIsSaid(ms, ENTRY_KEY, "entryKey");
    FoundIsSaid(ms, IDENTITY_RESOLVED, "identityResolved");
    FoundIsSaid(ms, DELIVERED, "delivered");
    FoundIsSaid(ms, EXECUTION_IDS, "executionIds");
    if o.playlistLoop.Some? {
      FoundIsSaid(ms, PLAYLIST_LOOP, "playlistLoop");
    }
  }

  lemma {:induction false} StringsStay(ms: seq<Member>)
    requires forall i :: 0 <= i < |ms| ==> ms[i].value.String?
    ensures ArrangedMembers(ms) == ms
  {
    if ms == [] {
    } else {
      StringsStay(ms[1..]);
      assert ms == [ms[0]] + ms[1..];
    }
  }
}
