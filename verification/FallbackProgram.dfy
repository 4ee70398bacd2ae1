/** The installed fallback program, and what it says about one playlist entry
    (native/adapters/shared/fallback_activation_resolver.h). Signatures are a flag: the document verifies, or not. */
module FallbackProgram {
  import opened Basics
  import opened Ordering
  import opened Rfc3339

  /** One target node; live when it names a render or an audio activation. */
  datatype Target = Target(nodeId: Bytes, live: bool, address: Option<Bytes>, catalogRevision: Option<Bytes>)

  /** An entry; complete when it states a cue, its revision and a list of targets. */
  datatype Entry = Entry(entryKey: Bytes, complete: bool, targets: seq<Target>)

  datatype Program = Program(
    packageId: Bytes, revision: Bytes, expiresAt: Bytes, executorKey: Bytes, rulesKnown: bool, generation: Option<int>,
    entries: seq<Entry>)

  /** What a player has to go by at one moment: its keys, the program on disk and whether that still verifies. */
  datatype Host = Host(pinnedKey: bool, playerKey: Option<Bytes>, program: Option<Program>, verifies: bool)

  datatype Resolution =
    | NoProgramInstalled | ProgramFailedReverification | ProgramExpired
    | UnknownEntry | AmbiguousEntry | NoActivatableTarget
    | Match(program: Program, entry: Entry)

  /** The entries carrying a key. */
  function EntriesFor(entries: seq<Entry>, key: Bytes): seq<Entry> {
    if entries == [] then []
    else if entries[0].entryKey == key then [entries[0]] + EntriesFor(entries[1..], key)
    else EntriesFor(entries[1..], key)
  }

  lemma {:induction false} EntriesForAre(entries: seq<Entry>, key: Bytes)
    ensures forall e :: e in EntriesFor(entries, key) <==> e in entries && e.entryKey == key
  {
    if entries == [] {
    } else {
      EntriesForAre(entries[1..], key);
      assert entries == [entries[0]] + entries[1..];
    }
  }

  predicate AnyLive(targets: seq<Target>) {
    exists t :: t in targets && t.live
  }

  function ResolveIn(p: Program, key: Bytes): Resolution {
    var matches := EntriesFor(p.entries, key);
    if matches == [] then UnknownEntry
    else if |matches| > 1 then AmbiguousEntry
    else if !matches[0].complete then ProgramFailedReverification
    else if !AnyLive(matches[0].targets) then NoActivatableTarget
    else Match(p, matches[0])
  }

  /** Whether a program's own expiry has passed; one it cannot read counts as passed. */
  predicate Expired(p: Program, now: int) {
    match ParseUtc(p.expiresAt)
    case None => true
    case Some(seconds) => now >= seconds * 1000
  }

  /** ResolveInstalledActivation. */
  function Resolve(h: Host, key: Bytes, now: int): Resolution {
    if h.program.None? then NoProgramInstalled
    else if !h.verifies then ProgramFailedReverification
    else if Expired(h.program.value, now) then ProgramExpired
    else ResolveIn(h.program.value, key)
  }

  /** Why an entry gets nothing. */
  datatype Problem =
    | NoProblem | NoCoordinatorKey | NoProgram | ProgramNotVerified | PlanExpired | RulesUnknown | EntryUnknown
    | EntryAmbiguous | NoTarget | NoPlayerKey | PlayerKeyNotInProgram | NoAddress | IncompleteProgram
    | EntryNotIdentified | SigningFailed | AtRest

  /** PlayerOutcomeWord. */
  function ProblemOf(r: Resolution): Problem {
    match r
    case NoProgramInstalled => NoProgram
    case ProgramFailedReverification => ProgramNotVerified
    case ProgramExpired => PlanExpired
    case UnknownEntry => EntryUnknown
    case AmbiguousEntry => EntryAmbiguous
    case NoActivatableTarget => NoTarget
    case Match(_, _) => NoProblem
  }

  /** usableProgramProblem: what keeps the installed program from being used. */
  function UsableProblem(h: Host, now: int): Problem {
    if !h.pinnedKey then NoCoordinatorKey
    else
      var installed := Resolve(h, [], now);
      if installed.NoProgramInstalled? || installed.ProgramFailedReverification? || installed.ProgramExpired? then
        ProblemOf(installed)
      else if h.playerKey.None? then NoPlayerKey
      else if h.program.value.executorKey != h.playerKey.value then PlayerKeyNotInProgram
      else if !h.program.value.rulesKnown then RulesUnknown
      else NoProblem
  }

  /** A match is never a guess: the program verifies and is current, and of all its entries exactly one, complete and
      with something to do, carries the key. */
  lemma MatchIsTheOnlyEntry(h: Host, key: Bytes, now: int)
    ensures Resolve(h, key, now).Match? <==>
              && h.program.Some? && h.verifies && !Expired(h.program.value, now)
              && exists e :: EntriesFor(h.program.value.entries, key) == [e] && e.complete && AnyLive(e.targets)
    ensures Resolve(h, key, now).Match? ==>
              && Resolve(h, key, now).program == h.program.value
              && Resolve(h, key, now).entry in h.program.value.entries && Resolve(h, key, now).entry.entryKey == key
              && forall e :: e in h.program.value.entries && e.entryKey == key ==> e == Resolve(h, key, now).entry
  {
    if h.program.Some? {
      EntriesForAre(h.program.value.entries, key);
      var matches := EntriesFor(h.program.value.entries, key);
      if |matches| == 1 {
        assert matches == [matches[0]];
        assert matches[0] in matches;
        forall e | e in h.program.value.entries && e.entryKey == key
          ensures e == matches[0]
        {
          assert e in matches;
        }
      }
    }
  }

  /** The resolver's first loop: the entries with this key, collected in order. */
  method CollectMatches(entries: seq<Entry>, key: Bytes) returns (matches: seq<Entry>)
    ensures matches == EntriesFor(entries, key)
  {
    matches := [];
    assert entries[0..] == entries;
    for i := 0 to |entries|
      invariant matches + EntriesFor(entries[i..], key) == EntriesFor(entries, key)
    {
      var rest := entries[i..];
      assert rest[1..] == entries[i + 1..];
      if entries[i].entryKey == key {
        Prepend(matches, entries[i], EntriesFor(rest[1..], key));
        matches := matches + [entries[i]];
      }
    }
    assert matches + [] == matches;
  }

  lemma Prepend(a: seq<Entry>, e: Entry, b: seq<Entry>)
    ensures a + ([e] + b) == a + [e] + b
  {
  }

  /** The last test before a match: does anything in it do something? */
  method AnyActivation(targets: seq<Target>) returns (any: bool)
    ensures any <==> AnyLive(targets)
  {
    for i := 0 to |targets|
      invariant forall j :: 0 <= j < i ==> !targets[j].live
    {
      if targets[i].live {
        assert targets[i] in targets;
        return true;
      }
    }
    any := false;
  }

  method ResolveActivation(h: Host, key: Bytes, now: int) returns (r: Resolution)
    ensures r == Resolve(h, key, now)
  {
    if h.program.None? {
      return NoProgramInstalled;
    }
    var p := h.program.value;
    if !h.verifies {
      return ProgramFailedReverification;
    }
    if Expired(p, now) {
      return ProgramExpired;
    }
    var matches := CollectMatches(p.entries, key);
    if matches == [] {
      return UnknownEntry;
    }
    if |matches| > 1 {
      return AmbiguousEntry;
    }
    if !matches[0].complete {
      return ProgramFailedReverification;
    }
    var any := AnyActivation(matches[0].targets);
    r := if any then Match(p, matches[0]) else NoActivatableTarget;
  }
}
