/** Where a player stands, and its copy on disk (native/adapters/shared/fallback_state_store.h): how a state is
    rendered, and how a text is read. */
module FallbackState {
  import opened Basics
  import opened Ordering
  import opened JsonNumber
  import opened Json
  import opened JsonCanonical
  import FallbackProgram
  import PlaylistIdentity

  datatype Mode = Normal | Fallback | Resting

  /** What the last entry boundary in fallback came to. */
  datatype BoundaryResult = NothingYet | Started | NothingToStart | StartedOnSomeNodes | NotStarted

  datatype NodeId = NodeId(node: Bytes, executionId: Bytes)

  /** The entry occurrence last acted on, with the execution id used for each node. */
  datatype Occurrence = Occurrence(
    identityResolved: bool, entryKey: Bytes, playlistLoop: Option<int>, executionIds: seq<NodeId>, delivered: bool)

  datatype State = State(
    mode: Mode, sinceMillis: int, playlistName: Bytes, packageId: Bytes, packageRevision: Bytes, cutoffAt: Bytes,
    occurrence: Option<Occurrence>, lastBoundary: BoundaryResult, lastProblem: FallbackProgram.Problem)

  function NormalSince(now: int): State {
    State(Normal, now, [], [], [], [], None, NothingYet, FallbackProgram.NoProblem)
  }

  function Entered(now: int, playlist: Bytes, package: Bytes, revision: Bytes, cutoff: Bytes): State {
    State(Fallback, now, playlist, package, revision, cutoff, None, NothingYet, FallbackProgram.NoProblem)
  }

  function Rested(s: State, now: int): State {
    s.(mode := Resting, sinceMillis := now)
  }

  /* ---- The file ---- */

  const VERSION: Bytes := [0x76, 0x65, 0x72, 0x73, 0x69, 0x6F, 0x6E]
  const STATE: Bytes := [0x73, 0x74, 0x61, 0x74, 0x65]
  const PLAYLIST_NAME: Bytes := [0x70, 0x6C, 0x61, 0x79, 0x6C, 0x69, 0x73, 0x74, 0x4E, 0x61, 0x6D, 0x65]
  const SINCE_MILLIS: Bytes := [0x73, 0x69, 0x6E, 0x63, 0x65, 0x4D, 0x69, 0x6C, 0x6C, 0x69, 0x73]
  const PACKAGE_ID: Bytes := [0x70, 0x61, 0x63, 0x6B, 0x61, 0x67, 0x65, 0x49, 0x64]
  const PACKAGE_REVISION: Bytes :=
    [0x70, 0x61, 0x63, 0x6B, 0x61, 0x67, 0x65, 0x52, 0x65, 0x76, 0x69, 0x73, 0x69, 0x6F, 0x6E]
  const CUTOFF_AT: Bytes := [0x63, 0x75, 0x74, 0x6F, 0x66, 0x66, 0x41, 0x74]
  const OCCURRENCE: Bytes := [0x6F, 0x63, 0x63, 0x75, 0x72, 0x72, 0x65, 0x6E, 0x63, 0x65]
  const ENTRY_KEY: Bytes := [0x65, 0x6E, 0x74, 0x72, 0x79, 0x4B, 0x65, 0x79]
  const IDENTITY_RESOLVED: Bytes :=
    [0x69, 0x64, 0x65, 0x6E, 0x74, 0x69, 0x74, 0x79, 0x52, 0x65, 0x73, 0x6F, 0x6C, 0x76, 0x65, 0x64]
  const DELIVERED: Bytes := [0x64, 0x65, 0x6C, 0x69, 0x76, 0x65, 0x72, 0x65, 0x64]
  const EXECUTION_IDS: Bytes := [0x65, 0x78, 0x65, 0x63, 0x75, 0x74, 0x69, 0x6F, 0x6E, 0x49, 0x64, 0x73]
  const PLAYLIST_LOOP: Bytes := [0x70, 0x6C, 0x61, 0x79, 0x6C, 0x69, 0x73, 0x74, 0x4C, 0x6F, 0x6F, 0x70]

  const NORMAL_WORD: Bytes := [0x6E, 0x6F, 0x72, 0x6D, 0x61, 0x6C]
  const FALLBACK_WORD: Bytes := [0x66, 0x61, 0x6C, 0x6C, 0x62, 0x61, 0x63, 0x6B]
  const RESTING_WORD: Bytes := [0x72, 0x65, 0x73, 0x74, 0x69, 0x6E, 0x67]

  function ModeWord(m: Mode): Bytes {
    match m
    case Normal => NORMAL_WORD
    case Fallback => FALLBACK_WORD
    case Resting => RESTING_WORD
  }

  function IntNumber(n: int): Value {
    Number(PlaylistIdentity.OfInt(n))
  }

  function IdMembers(ids: seq<NodeId>): (r: seq<Member>)
    ensures |r| == |ids| && forall i :: 0 <= i < |r| ==> r[i] == Member(ids[i].node, String(ids[i].executionId))
  {
    if ids == [] then [] else [Member(ids[0].node, String(ids[0].executionId))] + IdMembers(ids[1..])
  }

  function OccurrenceMembers(o: Occurrence): seq<Member> {
    [Member(ENTRY_KEY, String(o.entryKey)), Member(IDENTITY_RESOLVED, Bool(o.identityResolved)),
     Member(DELIVERED, Bool(o.delivered)), Member(EXECUTION_IDS, Object(IdMembers(o.executionIds)))]
    + match o.playlistLoop case None => [] case Some(n) => [Member(PLAYLIST_LOOP, IntNumber(n))]
  }

  function StateMembers(s: State): seq<Member> {
    [Member(VERSION, IntNumber(1)), Member(STATE, String(ModeWord(s.mode))),
     Member(PLAYLIST_NAME, String(s.playlistName)),
     Member(SINCE_MILLIS, IntNumber(s.sinceMillis)), Member(PACKAGE_ID, String(s.packageId)),
     Member(PACKAGE_REVISION, String(s.packageRevision)), Member(CUTOFF_AT, String(s.cutoffAt))]
    + match s.occurrence case None => [] case Some(o) => [Member(OCCURRENCE, Object(OccurrenceMembers(o)))]
  }

  /** RenderFallbackState. */
  function Render(s: State): Bytes {
    CanonicalText(Object(StateMembers(s)))
  }

  function Find(members: seq<Member>, name: Bytes): Option<Value> {
    if members == [] then None
    else if members[0].name == name then Some(members[0].value)
    else Find(members[1..], name)
  }

  function FindText(members: seq<Member>, name: Bytes): Option<Bytes> {
    match Find(members, name)
    case Some(String(text)) => Some(text)
    case _ => None
  }

  function FindBool(members: seq<Member>, name: Bytes): Option<bool> {
    match Find(members, name)
    case Some(Bool(flag)) => Some(flag)
    case _ => None
  }

  function FindInt(members: seq<Member>, name: Bytes): Option<int> {
    match Find(members, name)
    case Some(Number(d)) => Some(IntOf(d))
    case _ => None
  }

  /** A number cast to an integer: the fraction is dropped. */
  function IntOf(d: NormalDecimal): int {
    if d.Zero? || d.exponent <= 0 then 0
    else
      var whole := if d.exponent >= |d.digits| then d.digits + Zeros(d.exponent - |d.digits|)
                   else d.digits[..d.exponent];
      var size: int := NatOf(whole);
      if d.negative then -size else size
  }

  function IdsOf(members: seq<Member>): Option<seq<NodeId>> {
    if members == [] then Some([])
    else
      match (members[0].value, IdsOf(members[1..]))
      case (String(id), Some(rest)) => Some([NodeId(members[0].name, id)] + rest)
      case _ => None
  }

  datatype SavedRead = NothingSaved | UnknownVersion | Loaded(state: State)

  function ModeOf(word: Option<Bytes>): Option<Mode> {
    if word == Some(FALLBACK_WORD) then Some(Fallback) else if word == Some(RESTING_WORD) then Some(Resting) else None
  }

  /** A missing occurrence, or one that is no object, is no occurrence; a broken one spoils the record. */
  function OccurrenceOf(members: seq<Member>): Option<Option<Occurrence>> {
    match Find(members, OCCURRENCE)
    case Some(Object(inner)) =>
      (match (FindText(inner, ENTRY_KEY), FindBool(inner, IDENTITY_RESOLVED), FindBool(inner, DELIVERED),
              Find(inner, EXECUTION_IDS))
       case (Some(key), Some(resolved), Some(delivered), Some(Object(idMembers))) =>
         (match IdsOf(idMembers)
          case Some(ids) => Some(Some(Occurrence(resolved, key, FindInt(inner, PLAYLIST_LOOP), ids, delivered)))
          case None => None)
       case _ => None)
    case _ => Some(None)
  }

  /** ParseFallbackState. */
  function ParseState(text: Bytes): SavedRead {
    match Parse(text)
    case Accepted(Object(members)) =>
      if Find(members, VERSION) != Some(IntNumber(1)) then UnknownVersion
      else
        (match (ModeOf(FindText(members, STATE)), FindText(members, PLAYLIST_NAME), FindText(members, PACKAGE_ID),
                FindText(members, PACKAGE_REVISION), FindText(members, CUTOFF_AT), FindInt(members, SINCE_MILLIS))
         case (Some(mode), Some(playlist), Some(package), Some(revision), Some(cutoff), Some(since)) =>
           if playlist == [] then NothingSaved
           else
             (match OccurrenceOf(members)
              case Some(occurrence) =>
                Loaded(State(mode, since, playlist, package, revision, cutoff, occurrence, NothingYet,
                             FallbackProgram.NoProblem))
              case None => NothingSaved)
         case _ => NothingSaved)
    case _ => NothingSaved
  }
}
