/**
  Chunked uploads as a state machine: what each request does to the session table, the
  tombstones and the files, and what every run of requests keeps.
 */
module Upload {
  import opened Bits
  import opened UploadPlan

  const IDLE_TIMEOUT: nat := 30 * 60
  const CANCEL_TTL: nat := 15 * 60
  const MAX_SESSIONS: nat := 16
  const MAX_TOMBSTONES: nat := 1024

  datatype Session = Session(target: Path, stage: Path, total: u64, chunkSize: u64, chunkCount: u64,
                             received: set<nat>, updatedAt: nat)

  datatype State = State(uploads: map<string, Session>, canceled: map<string, nat>, files: map<Path, seq<byte>>)

  datatype Refusal =
    | BadMetadata | WasCancelled | MetadataChanged | UnknownSession | TooManySessions
    | TransferFailed | Incomplete | TargetIsDirectory | StageLost | BadPath

  datatype Reply = Received(written: nat, offset: nat) | Committed(total: nat) | Cancelled | Refused(why: Refusal)

  datatype Outcome = Outcome(state: State, reply: Reply)

  // ---- Expiry ----

  /** Time since `t`; a clock that seems to have gone back counts as none. */
  function Since(now: nat, t: nat): nat
  {
    if now < t then 0 else now - t
  }

  function Expired(uploads: map<string, Session>, now: nat): set<string>
  {
    set id | id in uploads && Since(now, uploads[id].updatedAt) >= IDLE_TIMEOUT
  }

  function Stages(uploads: map<string, Session>, ids: set<string>): set<Path>
  {
    set id | id in ids && id in uploads :: uploads[id].stage
  }

  /** Drop the sessions left idle and their stage files. */
  function Pruned(s: State, now: nat): State
  {
    var gone := Expired(s.uploads, now);
    s.(uploads := s.uploads - gone, files := s.files - Stages(s.uploads, gone))
  }

  function LiveTombstones(canceled: map<string, nat>, now: nat): map<string, nat>
  {
    map id | id in canceled && Since(now, canceled[id]) < CANCEL_TTL :: canceled[id]
  }

  // ---- Requests ----

  /** An upload of one chunk; `body` is what the transfer delivers, if it succeeds. */
  datatype UploadArgs = UploadArgs(id: string, target: Path, offset: u64, index: u64, count: u64, total: u64,
                                   chunk: u64, body: Option<seq<byte>>)

  datatype CommitArgs = CommitArgs(id: string, path: Path, total: u64, chunkSize: u64, chunkCount: u64)

  predicate SamePlan(s: Session, target: Path, total: nat, chunk: nat, count: nat)
  {
    s.target == target && s.total == total && s.chunkSize == chunk && s.chunkCount == count
  }

  /** Store a delivered chunk in the stage file of its session. */
  function StoreChunk(s: State, a: UploadArgs, length: nat, now: nat): Outcome
    requires a.id in s.uploads
  {
    var u := s.uploads[a.id];
    if a.body == None || |a.body.value| != length then Outcome(s, Refused(TransferFailed))
    else if u.stage !in s.files then Outcome(s, Refused(StageLost))
    else
      Outcome(s.(files := s.files[u.stage := WriteAt(s.files[u.stage], a.offset, a.body.value)],
                 uploads := s.uploads[a.id := u.(received := u.received + {a.index}, updatedAt := now)]),
              Received(length, a.offset + length))
  }

  /** A fresh session and its empty stage file. */
  function OpenSession(s: State, a: UploadArgs, now: nat): State
  {
    var stage := UploadPartPath(a.target, a.id);
    s.(files := s.files[stage := []],
       uploads := s.uploads[a.id := Session(a.target, stage, a.total, a.chunk, a.count, {}, now)])
  }

  /** Find or open the session of an upload and store the chunk. */
  function IntoSession(s: State, a: UploadArgs, length: nat, now: nat): Outcome
  {
    if a.id in s.uploads then
      if !SamePlan(s.uploads[a.id], a.target, a.total, a.chunk, a.count) then Outcome(s, Refused(MetadataChanged))
      else StoreChunk(s.(uploads := s.uploads[a.id := s.uploads[a.id].(updatedAt := now)]), a, length, now)
    else if a.index != 0 then Outcome(s, Refused(UnknownSession))
    else if |s.uploads| >= MAX_SESSIONS then Outcome(s, Refused(TooManySessions))
    else StoreChunk(OpenSession(s, a, now), a, length, now)
  }

  function Uploaded(s: State, a: UploadArgs, now: nat): Outcome
  {
    var range := ValidatedChunk(a.index, a.count, a.total, a.chunk);
    if a.target == [] then Outcome(s, Refused(BadPath))
    else if range == None || !ValidUploadId(a.id) || a.offset != range.value.offset then
      Outcome(s, Refused(BadMetadata))
    else
      var t := s.(canceled := LiveTombstones(s.canceled, now));
      if a.id in t.canceled then Outcome(t, Refused(WasCancelled))
      else IntoSession(Pruned(t, now), a, range.value.length, now)
  }

  /** Put the stage file of a complete session in place of the target. */
  function Replaced(s: State, id: string): State
    requires id in s.uploads && s.uploads[id].stage in s.files
    requires |s.files[s.uploads[id].stage]| >= s.uploads[id].total
  {
    var u := s.uploads[id];
    State(s.uploads - {id}, s.canceled - {id}, (s.files - {u.stage})[u.target := s.files[u.stage][..u.total]])
  }

  function CommitLive(s: State, a: CommitArgs, dirs: set<Path>): Outcome
    requires a.id in s.uploads
  {
    var u := s.uploads[a.id];
    if a.path == [] then Outcome(s, Refused(BadPath))
    else if !SamePlan(u, a.path, a.total, a.chunkSize, a.chunkCount) then Outcome(s, Refused(MetadataChanged))
    else if |u.received| != u.chunkCount then Outcome(s, Refused(Incomplete))
    else if u.target in dirs then Outcome(s, Refused(TargetIsDirectory))
    else if u.stage !in s.files || |s.files[u.stage]| < u.total then Outcome(s, Refused(StageLost))
    else Outcome(Replaced(s, a.id), Committed(u.total))
  }

  function CommittedTo(s: State, a: CommitArgs, dirs: set<Path>, now: nat): Outcome
  {
    if !ValidUploadId(a.id) then Outcome(s, Refused(BadMetadata))
    else
      var p := Pruned(s, now);
      if a.id !in p.uploads then Outcome(p, Refused(UnknownSession)) else CommitLive(p, a, dirs)
  }

  /** `victim` is a tombstone that may make room for another: one of the oldest. */
  predicate IsOldest(canceled: map<string, nat>, victim: string)
  {
    victim in canceled && forall id :: id in canceled ==> canceled[victim] <= canceled[id]
  }

  /** `marked` is what marking `id` may leave: which of several oldest tombstones goes is open. */
  ghost predicate Marks(canceled: map<string, nat>, id: string, now: nat, marked: map<string, nat>)
  {
    var live := LiveTombstones(canceled, now);
    if |live| >= MAX_TOMBSTONES && id !in live then
      exists victim :: IsOldest(live, victim) && marked == (live - {victim})[id := now]
    else marked == live[id := now]
  }

  /** The file a cancellation removes. */
  function CancelledFile(s: State, id: string, path: Option<Path>): set<Path>
  {
    if id in s.uploads then {s.uploads[id].stage}
    else if path.Some? then {UploadPartPath(path.value, id)} else {}
  }

  ghost predicate Cancels(s: State, id: string, path: Option<Path>, now: nat, o: Outcome)
  {
    var p := Pruned(s, now);
    if !ValidUploadId(id) then o == Outcome(s, Refused(BadMetadata))
    else if id in p.uploads && path.Some? && path.value != p.uploads[id].target then
      o == Outcome(p, Refused(MetadataChanged))
    else
      && o.reply == Cancelled && Marks(s.canceled, id, now, o.state.canceled)
      && o.state.uploads == p.uploads - {id} && o.state.files == p.files - CancelledFile(p, id, path)
  }

  // ---- Runs ----

  datatype Request = UploadReq(u: UploadArgs) | CommitReq(c: CommitArgs) | CancelReq(id: string, path: Option<Path>)

  /** A request, when it comes, and which paths are directories then. */
  datatype Input = Input(req: Request, now: nat, dirs: set<Path>)

  ghost predicate Steps(s: State, i: Input, o: Outcome)
  {
    match i.req
    case UploadReq(a) => o == Uploaded(s, a, i.now)
    case CommitReq(a) => o == CommittedTo(s, a, i.dirs, i.now)
    case CancelReq(id, path) => Cancels(s, id, path, i.now, o)
  }

  /** For each session, the last data recorded for each chunk since it was opened. */
  type Log = map<string, map<nat, seq<byte>>>

  /** The log of a session that goes on; one that had expired and was opened anew starts afresh. */
  function Kept(s: State, log: Log, id: string, now: nat, after: Session): map<nat, seq<byte>>
  {
    if id in s.uploads && id in log && (id !in Expired(s.uploads, now) || after == s.uploads[id]) then log[id]
    else map[]
  }

  function Put(data: map<nat, seq<byte>>, index: nat, body: seq<byte>): map<nat, seq<byte>>
  {
    data[index := body]
  }

  function Logged(s: State, log: Log, i: Input, o: Outcome): Log
  {
    map id | id in o.state.uploads ::
      if i.req.UploadReq? && i.req.u.id == id && o.reply.Received? && i.req.u.body.Some? then
        Put(Kept(s, log, id, i.now, o.state.uploads[id]), i.req.u.index, i.req.u.body.value)
      else Kept(s, log, id, i.now, o.state.uploads[id])
  }

  /** Chunk `i` is in its place in the stage file. */
  predicate InPlace(file: seq<byte>, data: seq<byte>, i: nat, total: nat, chunk: nat)
  {
    var from, to := Upto(i, total, chunk), Upto(i + 1, total, chunk);
    from + |data| == to <= |file| && file[from..to] == data
  }

  ghost predicate SessionOk(id: string, u: Session, data: map<nat, seq<byte>>, files: map<Path, seq<byte>>)
  {
    && ValidUploadId(id) && PlanOk(u.chunkCount, u.total, u.chunkSize)
    && u.stage == UploadPartPath(u.target, id)
    && u.received == data.Keys && u.stage in files && |files[u.stage]| <= u.total
    && (forall i :: i in data ==> i < u.chunkCount && InPlace(files[u.stage], data[i], i, u.total, u.chunkSize))
  }

  ghost predicate SessionsOk(uploads: map<string, Session>, log: Log, files: map<Path, seq<byte>>)
  {
    && log.Keys == uploads.Keys
    && forall id :: id in uploads ==> SessionOk(id, uploads[id], log[id], files)
  }

  ghost predicate Inv(s: State, log: Log)
  {
    |s.uploads| <= MAX_SESSIONS && |s.canceled| <= MAX_TOMBSTONES && SessionsOk(s.uploads, log, s.files)
  }

  /** No session's target is the stage file of another. */
  ghost predicate Apart(uploads: map<string, Session>)
  {
    forall id, k :: id in uploads && k in uploads && id != k ==> uploads[id].target != uploads[k].stage
  }

  function Record(log: Log, id: string, index: nat, body: seq<byte>): Log
  {
    log[id := Put(if id in log then log[id] else map[], index, body)]
  }

  // ---- Each step keeps the invariant ----

  lemma {:induction false} FewerTombstones(a: map<string, nat>, b: map<string, nat>)
    requires a.Keys <= b.Keys
    ensures |a| <= |b|
  {
    KeysBound(a.Keys, b.Keys);
    assert |a| == |a.Keys| && |b| == |b.Keys|;
  }

  lemma {:induction false} KeysBound(a: set<string>, b: set<string>)
    requires a <= b
    ensures |a| <= |b|
  {
    if a != {} {
      var x :| x in a;
      KeysBound(a - {x}, b - {x});
    }
  }

  lemma FewerSessions(a: map<string, Session>, b: map<string, Session>)
    requires a.Keys <= b.Keys
    ensures |a| <= |b|
  {
    KeysBound(a.Keys, b.Keys);
    assert |a| == |a.Keys| && |b| == |b.Keys|;
  }

  /** A session is as sound as before if its stage file still reads the same. */
  lemma Undisturbed(id: string, u: Session, data: map<nat, seq<byte>>, files: map<Path, seq<byte>>,
                    files': map<Path, seq<byte>>)
    requires SessionOk(id, u, data, files) && u.stage in files' && files'[u.stage] == files[u.stage]
    ensures SessionOk(id, u, data, files')
  {
  }

  /** A session's stage file is no other session's. */
  lemma OwnStage(s: State, log: Log, id: string, other: string)
    requires Inv(s, log) && id in s.uploads && other in s.uploads && id != other
    ensures s.uploads[id].stage != s.uploads[other].stage
  {
    assert SessionOk(id, s.uploads[id], log[id], s.files);
    assert SessionOk(other, s.uploads[other], log[other], s.files);
    StagesDiffer(s.uploads[id].target, id, s.uploads[other].target, other);
  }

  /** A log cut down to some sessions. */
  function Restrict(log: Log, ids: set<string>): Log
  {
    map id | id in log && id in ids :: log[id]
  }

  lemma PrunedKeeps(s: State, log: Log, now: nat)
    requires Inv(s, log)
    ensures Inv(Pruned(s, now), Restrict(log, Pruned(s, now).uploads.Keys))
  {
    var gone, p := Expired(s.uploads, now), Pruned(s, now);
    FewerSessions(p.uploads, s.uploads);
    forall id | id in p.uploads ensures SessionOk(id, p.uploads[id], log[id], p.files) {
      assert SessionOk(id, s.uploads[id], log[id], s.files);
      if s.uploads[id].stage in Stages(s.uploads, gone) {
        var other :| other in gone && other in s.uploads && s.uploads[other].stage == s.uploads[id].stage;
        OwnStage(s, log, id, other);
      }
    }
  }

  lemma OpenedIsOk(a: UploadArgs, now: nat, files: map<Path, seq<byte>>)
    requires ValidUploadId(a.id) && PlanOk(a.count, a.total, a.chunk)
    ensures
      var stage := UploadPartPath(a.target, a.id);
      SessionOk(a.id, Session(a.target, stage, a.total, a.chunk, a.count, {}, now), map[], files[stage := []])
  {
  }

  /** Changing one session and its own stage file leaves the others as they are. */
  lemma UpdateKeeps(s: State, log: Log, id: string, u: Session, data: map<nat, seq<byte>>, content: seq<byte>)
    requires Inv(s, log) && (id in s.uploads || |s.uploads| < MAX_SESSIONS)
    requires SessionOk(id, u, data, s.files[u.stage := content])
    ensures Inv(State(s.uploads[id := u], s.canceled, s.files[u.stage := content]), log[id := data])
  {
    AllOthers(s, log, id, u, s.files[u.stage := content]);
    OneMoreOk(s.uploads, log, s.files[u.stage := content], id, u, data);
    OneMoreKey(s.uploads, id, u);
  }

  lemma OneMoreKey(uploads: map<string, Session>, id: string, u: Session)
    ensures |uploads[id := u]| == if id in uploads then |uploads| else |uploads| + 1
  {
    assert uploads[id := u].Keys == uploads.Keys + {id};
  }

  lemma AllOthers(s: State, log: Log, id: string, u: Session, files: map<Path, seq<byte>>)
    requires Inv(s, log) && ValidUploadId(id) && u.stage == UploadPartPath(u.target, id)
    requires forall p :: p in s.files && p != u.stage ==> p in files && files[p] == s.files[p]
    ensures forall k :: k in s.uploads && k != id ==> SessionOk(k, s.uploads[k], log[k], files)
  {
    forall k | k in s.uploads && k != id ensures SessionOk(k, s.uploads[k], log[k], files) {
      OthersUndisturbed(s, log, k, id, u, files);
    }
  }

  lemma OneMoreOk(uploads: map<string, Session>, log: Log, files: map<Path, seq<byte>>, id: string, u: Session,
                  data: map<nat, seq<byte>>)
    requires log.Keys == uploads.Keys && SessionOk(id, u, data, files)
    requires forall k :: k in uploads && k != id ==> SessionOk(k, uploads[k], log[k], files)
    ensures SessionsOk(uploads[id := u], log[id := data], files)
  {
  }

  lemma OthersUndisturbed(s: State, log: Log, k: string, id: string, u: Session, files: map<Path, seq<byte>>)
    requires Inv(s, log) && k in s.uploads && k != id && ValidUploadId(id) && u.stage == UploadPartPath(u.target, id)
    requires forall p :: p in s.files && p != u.stage ==> p in files && files[p] == s.files[p]
    ensures SessionOk(k, s.uploads[k], log[k], files)
  {
    assert SessionOk(k, s.uploads[k], log[k], s.files);
    StagesDiffer(s.uploads[k].target, k, u.target, id);
    Undisturbed(k, s.uploads[k], log[k], s.files, files);
  }

  lemma OpenKeeps(s: State, log: Log, a: UploadArgs, now: nat)
    requires Inv(s, log) && a.id !in s.uploads && |s.uploads| < MAX_SESSIONS
    requires ValidUploadId(a.id) && PlanOk(a.count, a.total, a.chunk)
    ensures Inv(OpenSession(s, a, now), log[a.id := map[]])
  {
    OpenedIsOk(a, now, s.files);
    var u := OpenSession(s, a, now).uploads[a.id];
    UpdateKeeps(s, log, a.id, u, map[], []);
  }

  /** Writing a chunk puts it in place and moves no other chunk. */
  lemma WriteInPlace(file: seq<byte>, data: map<nat, seq<byte>>, index: nat, body: seq<byte>,
                     count: nat, total: nat, chunk: nat, r: Range)
    requires PlanOk(count, total, chunk) && total <= U64_MAX
    requires ValidatedChunk(index, count, total, chunk) == Some(r) && |body| == r.length && |file| <= total
    requires forall i :: i in data ==> i < count && InPlace(file, data[i], i, total, chunk)
    ensures |WriteAt(file, r.offset, body)| <= total
    ensures
      var data' := data[index := body];
      forall i :: i in data' ==> i < count && InPlace(WriteAt(file, r.offset, body), data'[i], i, total, chunk)
  {
    ChunksTile(index, count, total, chunk);
    var file' := WriteAt(file, r.offset, body);
    WriteAtReads(file, r.offset, body);
    forall i | i in data && i != index ensures InPlace(file', data[i], i, total, chunk) {
      if i < index { MulMono(i + 1, index, chunk); } else { MulMono(index + 1, i, chunk); }
      WriteAtKeeps(file, r.offset, body, Upto(i, total, chunk), Upto(i + 1, total, chunk));
    }
  }

  lemma TouchKeeps(s: State, log: Log, id: string, now: nat)
    requires Inv(s, log) && id in s.uploads
    ensures Inv(s.(uploads := s.uploads[id := s.uploads[id].(updatedAt := now)]), log)
  {
    var t := s.(uploads := s.uploads[id := s.uploads[id].(updatedAt := now)]);
    assert t.uploads.Keys == s.uploads.Keys;
    forall k | k in t.uploads ensures SessionOk(k, t.uploads[k], log[k], t.files) {
      assert SessionOk(k, s.uploads[k], log[k], s.files);
    }
  }

  /** A session after one of its chunks has been written. */
  lemma StoredIsOk(id: string, u: Session, data: map<nat, seq<byte>>, files: map<Path, seq<byte>>,
                   index: nat, body: seq<byte>, r: Range, now: nat)
    requires SessionOk(id, u, data, files)
    requires ValidatedChunk(index, u.chunkCount, u.total, u.chunkSize) == Some(r) && |body| == r.length
    ensures SessionOk(id, u.(received := u.received + {index}, updatedAt := now), Put(data, index, body),
                      files[u.stage := WriteAt(files[u.stage], r.offset, body)])
  {
    WriteInPlace(files[u.stage], data, index, body, u.chunkCount, u.total, u.chunkSize, r);
  }

  lemma StoreKeeps(s: State, log: Log, a: UploadArgs, r: Range, now: nat)
    requires Inv(s, log) && a.id in s.uploads && SamePlan(s.uploads[a.id], a.target, a.total, a.chunk, a.count)
    requires ValidatedChunk(a.index, a.count, a.total, a.chunk) == Some(r) && a.offset == r.offset
    ensures
      var o := StoreChunk(s, a, r.length, now);
      Inv(o.state, if o.reply.Received? then Record(log, a.id, a.index, a.body.value) else log)
  {
    var u := s.uploads[a.id];
    assert SessionOk(a.id, u, log[a.id], s.files);
    if a.body.Some? && |a.body.value| == r.length {
      StoredIsOk(a.id, u, log[a.id], s.files, a.index, a.body.value, r, now);
      var u' := u.(received := u.received + {a.index}, updatedAt := now);
      var content := WriteAt(s.files[u.stage], r.offset, a.body.value);
      UpdateKeeps(s, log, a.id, u', Put(log[a.id], a.index, a.body.value), content);
    }
  }

  /** Replacing the target of one session disturbs no other. */
  lemma NotReplaced(s: State, log: Log, id: string, k: string)
    requires Inv(s, log) && id in s.uploads && k in s.uploads && k != id && s.uploads[id].stage in s.files
    requires |s.files[s.uploads[id].stage]| >= s.uploads[id].total && s.uploads[id].target != s.uploads[k].stage
    ensures SessionOk(k, s.uploads[k], log[k], Replaced(s, id).files)
  {
    assert SessionOk(k, s.uploads[k], log[k], s.files);
    OwnStage(s, log, k, id);
    Undisturbed(k, s.uploads[k], log[k], s.files, Replaced(s, id).files);
  }

  lemma ReplacedKeeps(s: State, log: Log, id: string)
    requires Inv(s, log) && id in s.uploads && s.uploads[id].stage in s.files
    requires |s.files[s.uploads[id].stage]| >= s.uploads[id].total && Apart(s.uploads)
    ensures Inv(Replaced(s, id), Restrict(log, Replaced(s, id).uploads.Keys))
  {
    var r := Replaced(s, id);
    FewerSessions(r.uploads, s.uploads);
    FewerTombstones(r.canceled, s.canceled);
    forall k | k in r.uploads ensures SessionOk(k, r.uploads[k], log[k], r.files) {
      NotReplaced(s, log, id, k);
    }
  }

  /** Where every session stays as it was, so does its log. */
  lemma Unchanged(s: State, log: Log, i: Input, o: Outcome)
    requires Inv(s, log) && o.state.uploads == s.uploads && o.state.files == s.files && o.reply.Refused?
    requires |o.state.canceled| <= MAX_TOMBSTONES
    ensures Inv(o.state, Logged(s, log, i, o))
  {
    assert Logged(s, log, i, o) == log;
  }

  /** Sessions that drop out take their logs with them. */
  lemma LoggedRestricts(s: State, log: Log, i: Input, o: Outcome)
    requires log.Keys == s.uploads.Keys && o.state.uploads.Keys <= Pruned(s, i.now).uploads.Keys && !o.reply.Received?
    ensures Logged(s, log, i, o) == Restrict(log, o.state.uploads.Keys)
  {
  }

  function Opened(log: Log, id: string): Log
  {
    if id in log then log else log[id := map[]]
  }

  /** A stored chunk goes into the log that its session kept, or into a fresh one. */
  lemma LoggedRecords(s: State, log: Log, i: Input, o: Outcome)
    requires log.Keys == s.uploads.Keys && i.req.UploadReq?
    requires o.state.uploads.Keys == Pruned(s, i.now).uploads.Keys + {i.req.u.id}
    requires i.req.u.id in o.state.uploads && o.state.uploads[i.req.u.id].updatedAt == i.now
    requires o.reply.Received? ==> i.req.u.body.Some?
    ensures
      var l := Opened(Restrict(log, Pruned(s, i.now).uploads.Keys), i.req.u.id);
      Logged(s, log, i, o) == if o.reply.Received? then Record(l, i.req.u.id, i.req.u.index, i.req.u.body.value) else l
  {
  }

  lemma WithTombstones(s: State, log: Log, canceled: map<string, nat>)
    requires Inv(s, log) && |canceled| <= MAX_TOMBSTONES
    ensures Inv(s.(canceled := canceled), log)
  {
  }

  lemma LiveBound(canceled: map<string, nat>, now: nat)
    ensures |LiveTombstones(canceled, now)| <= |canceled|
  {
    FewerTombstones(LiveTombstones(canceled, now), canceled);
  }

  lemma StoreSessions(s: State, a: UploadArgs, length: nat, now: nat)
    requires a.id in s.uploads && s.uploads[a.id].updatedAt == now
    ensures
      var o := StoreChunk(s, a, length, now);
      && o.state.uploads.Keys == s.uploads.Keys && o.state.uploads[a.id].updatedAt == now
      && (o.reply.Refused? || (o.reply.Received? && a.body.Some?))
  {
  }

  /** What storing a chunk in session `id` leaves: one more session at most, and its log. */
  ghost predicate Entered(o: Outcome, s: State, log: Log, a: UploadArgs, now: nat)
  {
    && o.state.uploads.Keys == s.uploads.Keys + {a.id} && o.state.uploads[a.id].updatedAt == now
    && (o.reply.Refused? || (o.reply.Received? && a.body.Some?))
    && Inv(o.state, if o.reply.Received? then Record(log, a.id, a.index, a.body.value) else log)
  }

  lemma StoredEnters(s: State, t: State, log: Log, a: UploadArgs, r: Range, now: nat)
    requires Inv(t, log) && a.id in t.uploads && SamePlan(t.uploads[a.id], a.target, a.total, a.chunk, a.count)
    requires ValidatedChunk(a.index, a.count, a.total, a.chunk) == Some(r) && a.offset == r.offset
    requires t.uploads.Keys == s.uploads.Keys + {a.id} && t.uploads[a.id].updatedAt == now
    ensures Entered(StoreChunk(t, a, r.length, now), s, log, a, now)
  {
    StoreKeeps(t, log, a, r, now);
    StoreSessions(t, a, r.length, now);
  }

  lemma TouchedEnters(s: State, log: Log, a: UploadArgs, r: Range, now: nat)
    requires Inv(s, log) && a.id in s.uploads && SamePlan(s.uploads[a.id], a.target, a.total, a.chunk, a.count)
    requires ValidatedChunk(a.index, a.count, a.total, a.chunk) == Some(r) && a.offset == r.offset
    ensures Entered(IntoSession(s, a, r.length, now), s, log, a, now)
  {
    var t := s.(uploads := s.uploads[a.id := s.uploads[a.id].(updatedAt := now)]);
    TouchKeeps(s, log, a.id, now);
    assert t.uploads.Keys == s.uploads.Keys == s.uploads.Keys + {a.id};
    StoredEnters(s, t, log, a, r, now);
  }

  lemma OpensAndStores(s: State, a: UploadArgs, length: nat, now: nat)
    requires a.id !in s.uploads && a.index == 0 && |s.uploads| < MAX_SESSIONS
    ensures
      var t := OpenSession(s, a, now);
      && t.uploads.Keys == s.uploads.Keys + {a.id} && t.uploads[a.id].updatedAt == now
      && SamePlan(t.uploads[a.id], a.target, a.total, a.chunk, a.count)
      && IntoSession(s, a, length, now) == StoreChunk(t, a, length, now)
  {
  }

  lemma OpenedEnters(s: State, log: Log, a: UploadArgs, r: Range, now: nat)
    requires Inv(s, log) && a.id !in s.uploads && ValidUploadId(a.id)
    requires a.index == 0 && |s.uploads| < MAX_SESSIONS
    requires ValidatedChunk(a.index, a.count, a.total, a.chunk) == Some(r) && a.offset == r.offset
    ensures Entered(IntoSession(s, a, r.length, now), s, log[a.id := map[]], a, now)
  {
    ChunksTile(a.index, a.count, a.total, a.chunk);
    OpenKeeps(s, log, a, now);
    OpensAndStores(s, a, r.length, now);
    StoredEnters(s, OpenSession(s, a, now), log[a.id := map[]], a, r, now);
  }

  /** The chunk goes into a session, old or new. */
  lemma EnteredKeeps(s: State, log: Log, a: UploadArgs, r: Range, now: nat)
    requires Inv(s, log) && ValidUploadId(a.id)
    requires ValidatedChunk(a.index, a.count, a.total, a.chunk) == Some(r) && a.offset == r.offset
    requires if a.id in s.uploads then SamePlan(s.uploads[a.id], a.target, a.total, a.chunk, a.count)
             else a.index == 0 && |s.uploads| < MAX_SESSIONS
    ensures Entered(IntoSession(s, a, r.length, now), s, Opened(log, a.id), a, now)
  {
    if a.id in s.uploads {
      TouchedEnters(s, log, a, r, now);
    } else {
      OpenedEnters(s, log, a, r, now);
    }
  }

  /** A chunk is stored, or refused, after the idle sessions have gone. */
  lemma PrunedEntered(s: State, p: State, log: Log, i: Input, r: Range, o: Outcome)
    requires i.req.UploadReq? && ValidUploadId(i.req.u.id) && log.Keys == s.uploads.Keys
    requires p.uploads == Pruned(s, i.now).uploads && Inv(p, Restrict(log, p.uploads.Keys))
    requires
      var a := i.req.u;
      && ValidatedChunk(a.index, a.count, a.total, a.chunk) == Some(r) && a.offset == r.offset
      && o == IntoSession(p, a, r.length, i.now)
    ensures Inv(o.state, Logged(s, log, i, o))
  {
    var a, l := i.req.u, Restrict(log, p.uploads.Keys);
    if if a.id in p.uploads then SamePlan(p.uploads[a.id], a.target, a.total, a.chunk, a.count)
       else a.index == 0 && |p.uploads| < MAX_SESSIONS {
      EnteredKeeps(p, l, a, r, i.now);
      LoggedRecords(s, log, i, o);
    } else {
      LoggedRestricts(s, log, i, o);
    }
  }

  lemma UploadedKeeps(s: State, log: Log, i: Input)
    requires Inv(s, log) && i.req.UploadReq?
    ensures var o := Uploaded(s, i.req.u, i.now); Inv(o.state, Logged(s, log, i, o))
  {
    var a, o := i.req.u, Uploaded(s, i.req.u, i.now);
    var range := ValidatedChunk(a.index, a.count, a.total, a.chunk);
    var live := LiveTombstones(s.canceled, i.now);
    LiveBound(s.canceled, i.now);
    if a.target == [] || range == None || !ValidUploadId(a.id) || a.offset != range.value.offset || a.id in live {
      Unchanged(s, log, i, o);
    } else {
      var p := Pruned(s.(canceled := live), i.now);
      WithTombstones(s, log, live);
      PrunedKeeps(s.(canceled := live), log, i.now);
      PrunedEntered(s, p, log, i, range.value, o);
    }
  }

  /** A commit either leaves the pruned state as it is or puts the file in place. */
  lemma CommitLiveCases(s: State, a: CommitArgs, dirs: set<Path>)
    requires a.id in s.uploads
    ensures
      var o := CommitLive(s, a, dirs);
      || (o.reply.Refused? && o.state == s)
      || (o.reply.Committed? && s.uploads[a.id].stage in s.files
          && |s.files[s.uploads[a.id].stage]| >= s.uploads[a.id].total && o.state == Replaced(s, a.id))
  {
  }

  lemma CommittedKeeps(s: State, log: Log, i: Input)
    requires Inv(s, log) && i.req.CommitReq? && Apart(s.uploads)
    ensures var o := CommittedTo(s, i.req.c, i.dirs, i.now); Inv(o.state, Logged(s, log, i, o))
  {
    var a, o := i.req.c, CommittedTo(s, i.req.c, i.dirs, i.now);
    if !ValidUploadId(a.id) {
      Unchanged(s, log, i, o);
    } else {
      PrunedThen(s, log, i, o);
    }
  }

  lemma RestrictTwice(log: Log, a: set<string>, b: set<string>)
    requires b <= a
    ensures Restrict(Restrict(log, a), b) == Restrict(log, b)
  {
  }

  lemma PrunedThen(s: State, log: Log, i: Input, o: Outcome)
    requires Inv(s, log) && Apart(s.uploads) && i.req.CommitReq? && ValidUploadId(i.req.c.id)
    requires o == CommittedTo(s, i.req.c, i.dirs, i.now)
    ensures Inv(o.state, Logged(s, log, i, o))
  {
    var p, id := Pruned(s, i.now), i.req.c.id;
    var l := Restrict(log, p.uploads.Keys);
    PrunedKeeps(s, log, i.now);
    if id in p.uploads {
      CommitLiveCases(p, i.req.c, i.dirs);
      if o.reply.Committed? { ReplacedKeeps(p, l, id); }
    }
    LoggedRestricts(s, log, i, o);
    RestrictTwice(log, p.uploads.Keys, o.state.uploads.Keys);
  }

  lemma MarksBound(canceled: map<string, nat>, id: string, now: nat, marked: map<string, nat>)
    requires |canceled| <= MAX_TOMBSTONES && Marks(canceled, id, now, marked)
    ensures |marked| <= MAX_TOMBSTONES && id in marked && marked[id] == now
  {
    var live := LiveTombstones(canceled, now);
    LiveBound(canceled, now);
    if |live| >= MAX_TOMBSTONES && id !in live {
      var victim :| IsOldest(live, victim) && marked == (live - {victim})[id := now];
      assert (live - {victim}).Keys == live.Keys - {victim};
      assert marked.Keys == (live.Keys - {victim}) + {id};
      assert |marked| == |marked.Keys| && |live| == |live.Keys|;
    } else {
      assert marked.Keys == live.Keys + {id};
      assert |marked| == |marked.Keys| && |live| == |live.Keys|;
    }
  }

  /** A cancellation removes no other session's stage file. */
  lemma CancelledKeeps(s: State, log: Log, i: Input, o: Outcome)
    requires Inv(s, log) && i.req.CancelReq? && Cancels(s, i.req.id, i.req.path, i.now, o)
    ensures Inv(o.state, Logged(s, log, i, o))
  {
    var id, p := i.req.id, Pruned(s, i.now);
    if !ValidUploadId(id) {
      Unchanged(s, log, i, o);
    } else {
      var l := Restrict(log, p.uploads.Keys);
      PrunedKeeps(s, log, i.now);
      if o.reply.Cancelled? {
        MarksBound(s.canceled, id, i.now, o.state.canceled);
        DroppedKeeps(p, l, id, i.req.path, o.state.canceled);
      }
      LoggedRestricts(s, log, i, o);
      RestrictTwice(log, p.uploads.Keys, o.state.uploads.Keys);
    }
  }

  lemma DroppedKeeps(s: State, log: Log, id: string, path: Option<Path>, canceled: map<string, nat>)
    requires Inv(s, log) && ValidUploadId(id) && |canceled| <= MAX_TOMBSTONES
    ensures
      var uploads := s.uploads - {id};
      Inv(State(uploads, canceled, s.files - CancelledFile(s, id, path)), Restrict(log, uploads.Keys))
  {
    var uploads, files := s.uploads - {id}, s.files - CancelledFile(s, id, path);
    FewerSessions(uploads, s.uploads);
    forall k | k in uploads ensures SessionOk(k, uploads[k], log[k], files) {
      assert SessionOk(k, s.uploads[k], log[k], s.files);
      if id in s.uploads {
        OwnStage(s, log, k, id);
      } else if path.Some? {
        StagesDiffer(s.uploads[k].target, k, path.value, id);
      }
      Undisturbed(k, s.uploads[k], log[k], s.files, files);
    }
  }

  /** Every request keeps the invariant, while no session's target is another's stage file. */
  lemma StepKeeps(s: State, log: Log, i: Input, o: Outcome)
    requires Inv(s, log) && Apart(s.uploads) && Steps(s, i, o)
    ensures Inv(o.state, Logged(s, log, i, o))
  {
    match i.req
    case UploadReq(_) => UploadedKeeps(s, log, i);
    case CommitReq(_) => CommittedKeeps(s, log, i);
    case CancelReq(_, _) => CancelledKeeps(s, log, i, o);
  }

  // ---- Commits ----

  /** Every chunk of a session has been recorded. */
  predicate AllRecorded(data: map<nat, seq<byte>>, count: nat)
  {
    forall i :: 0 <= i < count ==> i in data
  }

  /** Chunks in place read, one after the other, as the data recorded for them. */
  lemma {:induction false} PlacedJoin(file: seq<byte>, data: map<nat, seq<byte>>, k: nat,
                                      count: nat, total: nat, chunk: nat)
    requires k <= count && AllRecorded(data, count) && |file| <= total
    requires forall i :: i in data ==> i < count && InPlace(file, data[i], i, total, chunk)
    ensures Upto(k, total, chunk) <= |file| || k == 0
    ensures k > 0 ==> file[..Upto(k, total, chunk)] == Joined(data, k)
  {
    if k > 0 {
      PlacedJoin(file, data, k - 1, count, total, chunk);
      var from, to := Upto(k - 1, total, chunk), Upto(k, total, chunk);
      assert InPlace(file, data[k - 1], k - 1, total, chunk);
      assert file[..to] == file[..from] + file[from..to];
      assert k == 1 ==> from == 0;
    }
  }

  lemma CompleteStage(id: string, u: Session, data: map<nat, seq<byte>>, files: map<Path, seq<byte>>)
    requires SessionOk(id, u, data, files)
    ensures |u.received| == u.chunkCount <==> AllRecorded(data, u.chunkCount)
    ensures AllRecorded(data, u.chunkCount) ==>
      |files[u.stage]| == u.total && files[u.stage] == Joined(data, u.chunkCount)
  {
    Pigeonhole(u.received, u.chunkCount);
    if AllRecorded(data, u.chunkCount) {
      CountBounds(u.chunkCount, u.total, u.chunkSize);
      ChunksTile(0, u.chunkCount, u.total, u.chunkSize);
      PlacedJoin(files[u.stage], data, u.chunkCount, u.chunkCount, u.total, u.chunkSize);
    }
  }

  /** What a commit needs, said of the request and of what has been recorded. */
  ghost predicate MayCommit(s: State, log: Log, a: CommitArgs, dirs: set<Path>, now: nat)
  {
    && ValidUploadId(a.id) && a.id in s.uploads && Since(now, s.uploads[a.id].updatedAt) < IDLE_TIMEOUT
    && a.path != [] && SamePlan(s.uploads[a.id], a.path, a.total, a.chunkSize, a.chunkCount)
    && a.path !in dirs && a.id in log && AllRecorded(log[a.id], a.chunkCount)
  }

  lemma CommitsWhen(s: State, log: Log, a: CommitArgs, dirs: set<Path>)
    requires Inv(s, log) && a.id in s.uploads
    ensures
      CommitLive(s, a, dirs).reply.Committed? <==>
        && a.path != [] && SamePlan(s.uploads[a.id], a.path, a.total, a.chunkSize, a.chunkCount)
        && a.path !in dirs && AllRecorded(log[a.id], a.chunkCount)
  {
    assert SessionOk(a.id, s.uploads[a.id], log[a.id], s.files);
    CompleteStage(a.id, s.uploads[a.id], log[a.id], s.files);
  }

  /** The target holds the chunks' last data end to end; only the stage file goes. */
  lemma CommitPutsInPlace(s: State, log: Log, a: CommitArgs, dirs: set<Path>)
    requires Inv(s, log) && a.id in s.uploads && CommitLive(s, a, dirs).reply.Committed?
    ensures
      var o := CommitLive(s, a, dirs);
      && a.id in log && AllRecorded(log[a.id], a.chunkCount)
      && o.reply == Committed(a.total) && |Joined(log[a.id], a.chunkCount)| == a.total
      && o.state.files == (s.files - {UploadPartPath(a.path, a.id)})[a.path := Joined(log[a.id], a.chunkCount)]
      && o.state.uploads == s.uploads - {a.id} && o.state.canceled == s.canceled - {a.id}
  {
    var u := s.uploads[a.id];
    assert SessionOk(a.id, u, log[a.id], s.files);
    CompleteStage(a.id, u, log[a.id], s.files);
    assert s.files[u.stage][..u.total] == s.files[u.stage];
  }

  /**
    A commit succeeds exactly when every chunk of the live session has been recorded, and then
    the target holds the chunks' last data end to end, of the announced length; no other file
    changes but the stage file, which is gone, and those of expired sessions.
   */
  lemma CommitIsComplete(s: State, log: Log, a: CommitArgs, dirs: set<Path>, now: nat)
    requires Inv(s, log)
    ensures CommittedTo(s, a, dirs, now).reply.Committed? <==> MayCommit(s, log, a, dirs, now)
    ensures MayCommit(s, log, a, dirs, now) ==>
      var o, p, whole := CommittedTo(s, a, dirs, now), Pruned(s, now), Joined(log[a.id], a.chunkCount);
      && o.reply == Committed(a.total) && |whole| == a.total
      && o.state.files == (p.files - {UploadPartPath(a.path, a.id)})[a.path := whole]
      && o.state.uploads == p.uploads - {a.id} && o.state.canceled == p.canceled - {a.id}
  {
    var p := Pruned(s, now);
    var l := Restrict(log, p.uploads.Keys);
    PrunedKeeps(s, log, now);
    if ValidUploadId(a.id) && a.id in p.uploads {
      CommitsWhen(p, l, a, dirs);
      if CommitLive(p, a, dirs).reply.Committed? {
        CommitPutsInPlace(p, l, a, dirs);
      }
    }
  }

  /** A refused commit creates and changes no file. */
  lemma CommitRefused(s: State, a: CommitArgs, dirs: set<Path>, now: nat)
    requires !CommittedTo(s, a, dirs, now).reply.Committed?
    ensures var files := CommittedTo(s, a, dirs, now).state.files;
      forall path :: path in files ==> path in s.files && files[path] == s.files[path]
  {
    if ValidUploadId(a.id) && a.id in Pruned(s, now).uploads { CommitLiveCases(Pruned(s, now), a, dirs); }
  }
}
