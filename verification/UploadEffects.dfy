/**
  What each upload request asks for and what it leaves behind, said of the request, the sessions
  and the files before and after it, with the limits written out.
 */
module UploadEffects {
  import opened Bits
  import opened UploadPlan
  import opened Upload

  /** A session touched within the last half hour. */
  ghost predicate Live(s: State, id: string, now: nat)
  {
    id in s.uploads && now < s.uploads[id].updatedAt + 1800
  }

  /** The stage file of a session left idle for longer. */
  ghost predicate IdleStage(s: State, p: Path, now: nat)
  {
    exists id :: id in s.uploads && !Live(s, id, now) && s.uploads[id].stage == p
  }

  ghost function LiveIds(s: State, now: nat): set<string>
  {
    set id | id in s.uploads && Live(s, id, now)
  }

  /** Cancelled within the last quarter of an hour. */
  ghost predicate Barred(s: State, id: string, now: nat)
  {
    id in s.canceled && now < s.canceled[id] + 900
  }

  /** The sessions afterwards are the live ones and all as they were, except that of `id`. */
  ghost predicate OtherSessionsStay(s: State, now: nat, id: string, after: State)
  {
    forall k :: k != id ==>
      (k in after.uploads <==> Live(s, k, now)) && (k in after.uploads ==> after.uploads[k] == s.uploads[k])
  }

  /** A file is there afterwards exactly when it was there before and was not the stage of an idle session. */
  ghost predicate FileStays(s: State, now: nat, p: Path, after: State)
  {
    && (p in after.files <==> p in s.files && !IdleStage(s, p, now))
    && (p in after.files ==> after.files[p] == s.files[p])
  }

  // ---- Expiry ----

  lemma PrunedSessions(s: State, now: nat)
    ensures forall k :: k in Pruned(s, now).uploads <==> Live(s, k, now)
    ensures forall k :: k in Pruned(s, now).uploads ==> Pruned(s, now).uploads[k] == s.uploads[k]
  {
  }

  lemma PrunedFile(s: State, now: nat, p: Path)
    ensures FileStays(s, now, p, Pruned(s, now))
  {
    var gone := Expired(s.uploads, now);
    if p in Stages(s.uploads, gone) {
      var id :| id in gone && id in s.uploads && s.uploads[id].stage == p;
      assert !Live(s, id, now);
    }
    if IdleStage(s, p, now) {
      var id :| id in s.uploads && !Live(s, id, now) && s.uploads[id].stage == p;
      assert id in gone;
    }
  }

  /** Expiry drops the idle sessions and their stage files, and nothing else. */
  lemma PrunedExactly(s: State, now: nat)
    ensures forall k :: k in Pruned(s, now).uploads <==> Live(s, k, now)
    ensures forall k :: k in Pruned(s, now).uploads ==> Pruned(s, now).uploads[k] == s.uploads[k]
    ensures forall p :: FileStays(s, now, p, Pruned(s, now))
  {
    PrunedSessions(s, now);
    forall p ensures FileStays(s, now, p, Pruned(s, now)) { PrunedFile(s, now, p); }
  }

  // ---- Cancellation ----

  /** A cancellation is accepted unless it names another target than that of a live session. */
  lemma CancelAccepted(s: State, id: string, path: Option<Path>, now: nat, o: Outcome)
    requires Cancels(s, id, path, now, o)
    ensures o.reply == Cancelled <==>
      ValidUploadId(id) && (Live(s, id, now) && path.Some? ==> path.value == s.uploads[id].target)
  {
    PrunedSessions(s, now);
  }

  /** The stage file a cancellation is about: that of its session or, without one, that of its path. */
  ghost predicate StageMeant(s: State, id: string, path: Option<Path>, now: nat, p: Path)
  {
    if Live(s, id, now) then p == s.uploads[id].stage else path.Some? && p == UploadPartPath(path.value, id)
  }

  /** What is cancelled is gone: the session, its stage file, or what an earlier session left behind. */
  lemma CancelRemoves(s: State, id: string, path: Option<Path>, now: nat, o: Outcome)
    requires Cancels(s, id, path, now, o) && o.reply == Cancelled
    ensures id !in o.state.uploads
    ensures Live(s, id, now) ==> s.uploads[id].stage !in o.state.files
    ensures !Live(s, id, now) && path.Some? ==> UploadPartPath(path.value, id) !in o.state.files
  {
    PrunedSessions(s, now);
  }

  /** Every other file and session is as it was, but for what had expired. */
  lemma CancelSpares(s: State, id: string, path: Option<Path>, now: nat, o: Outcome, p: Path)
    requires Cancels(s, id, path, now, o) && o.reply == Cancelled && !StageMeant(s, id, path, now, p)
    ensures FileStays(s, now, p, o.state)
  {
    PrunedSessions(s, now);
    PrunedFile(s, now, p);
  }

  lemma CancelSparesSessions(s: State, id: string, path: Option<Path>, now: nat, o: Outcome)
    requires Cancels(s, id, path, now, o) && o.reply == Cancelled
    ensures OtherSessionsStay(s, now, id, o.state)
  {
    PrunedSessions(s, now);
  }

  /** In a sound state the stage file removed is that of no other session. */
  lemma StageMeantIsOwn(s: State, log: Log, id: string, path: Option<Path>, now: nat, p: Path, k: string)
    requires Inv(s, log) && ValidUploadId(id) && StageMeant(s, id, path, now, p) && k in s.uploads && k != id
    ensures s.uploads[k].stage != p
  {
    assert SessionOk(k, s.uploads[k], log[k], s.files);
    if Live(s, id, now) {
      OwnStage(s, log, id, k);
    } else {
      StagesDiffer(path.value, id, s.uploads[k].target, k);
    }
  }

  /** A cancellation exactly undoes an upload and leaves the rest of the state alone. */
  lemma CancelExact(s: State, log: Log, id: string, path: Option<Path>, now: nat, o: Outcome)
    requires Inv(s, log) && Cancels(s, id, path, now, o) && o.reply == Cancelled
    ensures id !in o.state.uploads && OtherSessionsStay(s, now, id, o.state)
    ensures forall p :: if StageMeant(s, id, path, now, p) then p !in o.state.files else FileStays(s, now, p, o.state)
    ensures forall k :: k in o.state.uploads ==> k in s.uploads && s.uploads[k].stage in o.state.files
  {
    CancelRemoves(s, id, path, now, o);
    CancelSparesSessions(s, id, path, now, o);
    forall p ensures if StageMeant(s, id, path, now, p) then p !in o.state.files else FileStays(s, now, p, o.state) {
      if !StageMeant(s, id, path, now, p) { CancelSpares(s, id, path, now, o, p); }
    }
    forall k | k in o.state.uploads ensures k in s.uploads && s.uploads[k].stage in o.state.files {
      LiveStageStays(s, log, id, path, now, o, k);
    }
  }

  lemma LiveStageStays(s: State, log: Log, id: string, path: Option<Path>, now: nat, o: Outcome, k: string)
    requires Inv(s, log) && Cancels(s, id, path, now, o) && o.reply == Cancelled && k in o.state.uploads
    ensures k in s.uploads && s.uploads[k].stage in o.state.files
  {
    PrunedSessions(s, now);
    var p := s.uploads[k].stage;
    assert SessionOk(k, s.uploads[k], log[k], s.files);
    if StageMeant(s, id, path, now, p) { StageMeantIsOwn(s, log, id, path, now, p, k); }
    CancelSpares(s, id, path, now, o, p);
    NotIdle(s, log, k, now);
  }

  /** The stage file of a live session is not that of an idle one. */
  lemma NotIdle(s: State, log: Log, id: string, now: nat)
    requires Inv(s, log) && Live(s, id, now)
    ensures !IdleStage(s, s.uploads[id].stage, now)
  {
    if k :| k in s.uploads && !Live(s, k, now) && s.uploads[k].stage == s.uploads[id].stage { OwnStage(s, log, id, k); }
  }

  /** A refused cancellation marks nothing and does nothing but drop what had expired. */
  lemma CancelRefusedKeeps(s: State, id: string, path: Option<Path>, now: nat, o: Outcome)
    requires Cancels(s, id, path, now, o) && o.reply != Cancelled
    ensures o.state.canceled == s.canceled && (o.state == s || o.state == Pruned(s, now))
    ensures Live(s, id, now) && ValidUploadId(id) ==> id in o.state.uploads
  {
    PrunedSessions(s, now);
  }

  // ---- Uploads ----

  /** A request for a chunk of a plan, at its place, that no cancellation bars. */
  ghost predicate InOrder(s: State, a: UploadArgs, now: nat)
  {
    && a.target != [] && ValidUploadId(a.id) && !Barred(s, a.id, now)
    && PlanOk(a.count, a.total, a.chunk) && a.index < a.count && a.offset == a.index * a.chunk
  }

  /** The request fits the live session of its name or, without one, opens one while there is room. */
  ghost predicate HasRoom(s: State, a: UploadArgs, now: nat)
  {
    if Live(s, a.id, now) then
      var u := s.uploads[a.id];
      u.target == a.target && u.total == a.total && u.chunkSize == a.chunk && u.chunkCount == a.count
    else a.index == 0 && |LiveIds(s, now)| < 16
  }

  /** The transfer delivers the bytes of the chunk, all of them and no more. */
  ghost predicate ComesWhole(a: UploadArgs)
  {
    a.body.Some? && a.offset + |a.body.value| == Upto(a.index + 1, a.total, a.chunk)
  }

  ghost predicate MayUpload(s: State, a: UploadArgs, now: nat)
  {
    InOrder(s, a, now) && HasRoom(s, a, now) && ComesWhole(a)
  }

  lemma LiveCount(s: State, now: nat)
    ensures |Pruned(s, now).uploads| == |LiveIds(s, now)|
  {
    PrunedSessions(s, now);
    var u := Pruned(s, now).uploads;
    assert u.Keys == LiveIds(s, now);
    assert |u| == |u.Keys|;
  }

  lemma SameExpiry(s: State, canceled: map<string, nat>, now: nat)
    ensures Pruned(s.(canceled := canceled), now) == Pruned(s, now).(canceled := canceled)
  {
  }

  /** Where the chunk goes; `None` when the metadata are wrong. */
  lemma PlaceInFile(a: UploadArgs)
    ensures ValidatedChunk(a.index, a.count, a.total, a.chunk).Some? <==>
      PlanOk(a.count, a.total, a.chunk) && a.index < a.count
    ensures ValidatedChunk(a.index, a.count, a.total, a.chunk).Some? ==>
      var r := ValidatedChunk(a.index, a.count, a.total, a.chunk).value;
      r.offset == a.index * a.chunk && r.offset + r.length == Upto(a.index + 1, a.total, a.chunk)
  {
    ChunksTile(a.index, a.count, a.total, a.chunk);
  }

  /** The stage file a session's chunk is written to is there. */
  lemma StageThere(s: State, log: Log, p: State, a: UploadArgs, now: nat)
    requires Inv(s, log) && Live(s, a.id, now) && UpToDate(s, now, p)
    ensures
      var u := s.uploads[a.id];
      u.stage == UploadPartPath(u.target, a.id) && u.stage in p.files && p.files[u.stage] == s.files[u.stage]
  {
    assert SessionOk(a.id, s.uploads[a.id], log[a.id], s.files);
    PrunedFile(s, now, s.uploads[a.id].stage);
    NotIdle(s, log, a.id, now);
  }

  /** The state once what has expired is dropped. */
  ghost predicate UpToDate(s: State, now: nat, p: State)
  {
    p.uploads == Pruned(s, now).uploads && p.files == Pruned(s, now).files
  }

  /** What is left of an upload request once its metadata are found good. */
  lemma UploadGoesOn(s: State, a: UploadArgs, length: nat, now: nat) returns (p: State)
    requires InOrder(s, a, now) && a.offset + length == Upto(a.index + 1, a.total, a.chunk)
    ensures UpToDate(s, now, p) && Uploaded(s, a, now) == IntoSession(p, a, length, now)
  {
    PlaceInFile(a);
    p := Pruned(s, now).(canceled := LiveTombstones(s.canceled, now));
    SameExpiry(s, LiveTombstones(s.canceled, now), now);
  }

  /** `file` with `data` put in at `offset`; what lies between its end and the data is zero. */
  ghost predicate PutIn(file: seq<byte>, offset: nat, data: seq<byte>, file': seq<byte>)
  {
    && |file'| == (if |file| < offset + |data| then offset + |data| else |file|)
    && forall q :: 0 <= q < |file'| ==>
         file'[q] == if offset <= q < offset + |data| then data[q - offset] else if q < |file| then file[q] else 0
  }

  lemma WriteAtPuts(file: seq<byte>, offset: nat, data: seq<byte>)
    ensures PutIn(file, offset, data, WriteAt(file, offset, data))
  {
    var file' := WriteAt(file, offset, data);
    var padded := if |file| < offset then file + seq(offset - |file|, _ => 0) else file;
    forall q | 0 <= q < |file'|
      ensures file'[q] ==
        if offset <= q < offset + |data| then data[q - offset] else if q < |file| then file[q] else 0
    {
      if q < offset { assert file'[q] == padded[q]; }
    }
  }

  /** What the stage file of an upload held before its chunk: nothing, for a session just opened. */
  ghost function StagedBefore(s: State, a: UploadArgs, now: nat): seq<byte>
  {
    var stage := UploadPartPath(a.target, a.id);
    if Live(s, a.id, now) && stage in s.files then s.files[stage] else []
  }

  ghost function ReceivedBefore(s: State, a: UploadArgs, now: nat): set<nat>
  {
    if Live(s, a.id, now) then s.uploads[a.id].received else {}
  }

  /** The session and the stage file of an upload after its chunk. */
  ghost predicate Enters(s: State, a: UploadArgs, now: nat, after: State)
    requires a.body.Some?
  {
    var stage := UploadPartPath(a.target, a.id);
    && a.id in after.uploads
    && after.uploads[a.id] ==
         Session(a.target, stage, a.total, a.chunk, a.count, ReceivedBefore(s, a, now) + {a.index}, now)
    && stage in after.files && PutIn(StagedBefore(s, a, now), a.offset, a.body.value, after.files[stage])
  }

  /** What storing a chunk in a session changes. */
  lemma StoreEffect(p: State, a: UploadArgs, length: nat, now: nat)
    requires a.id in p.uploads
    ensures
      var o, u := StoreChunk(p, a, length, now), p.uploads[a.id];
      && (o.reply.Received? <==> a.body.Some? && |a.body.value| == length && u.stage in p.files)
      && (o.reply.Received? ==>
           && o.reply == Received(length, a.offset + length)
           && o.state == State(p.uploads[a.id := u.(received := u.received + {a.index}, updatedAt := now)], p.canceled,
                               p.files[u.stage := WriteAt(p.files[u.stage], a.offset, a.body.value)]))
      && (!o.reply.Received? ==> o.state == p)
  {
  }

  /** Whether a good request is served: its session fits it, or it opens one and there is room. */
  ghost predicate Admitted(p: State, a: UploadArgs)
  {
    if a.id in p.uploads then SamePlan(p.uploads[a.id], a.target, a.total, a.chunk, a.count)
    else a.index == 0 && |p.uploads| < 16
  }

  /** The session a request is served in, with its stage file. */
  ghost function Served(p: State, a: UploadArgs, now: nat): State
  {
    if a.id in p.uploads then p.(uploads := p.uploads[a.id := p.uploads[a.id].(updatedAt := now)])
    else OpenSession(p, a, now)
  }

  lemma IntoServed(p: State, a: UploadArgs, length: nat, now: nat)
    ensures Admitted(p, a) ==> IntoSession(p, a, length, now) == StoreChunk(Served(p, a, now), a, length, now)
    ensures !Admitted(p, a) ==>
      IntoSession(p, a, length, now).reply.Refused? && IntoSession(p, a, length, now).state == p
  {
  }

  lemma AdmittedExact(s: State, p: State, a: UploadArgs, now: nat)
    requires UpToDate(s, now, p)
    ensures Admitted(p, a) <==> HasRoom(s, a, now)
  {
    PrunedSessions(s, now);
    LiveCount(s, now);
  }

  /** The stage file of a served request is there, with what it held before. */
  lemma ServedStage(s: State, log: Log, p: State, a: UploadArgs, now: nat)
    requires Inv(s, log) && Admitted(p, a) && UpToDate(s, now, p)
    ensures
      var t, stage := Served(p, a, now), UploadPartPath(a.target, a.id);
      && t.uploads[a.id] == Session(a.target, stage, a.total, a.chunk, a.count, ReceivedBefore(s, a, now), now)
      && stage in t.files && t.files[stage] == StagedBefore(s, a, now)
  {
    PrunedSessions(s, now);
    if Live(s, a.id, now) { StageThere(s, log, p, a, now); }
  }

  lemma OutOfOrder(s: State, a: UploadArgs, now: nat)
    requires !InOrder(s, a, now)
    ensures Uploaded(s, a, now).reply.Refused?
  {
    PlaceInFile(a);
  }

  lemma ServedWhole(s: State, log: Log, p: State, a: UploadArgs, length: nat, now: nat)
    requires Inv(s, log) && UpToDate(s, now, p)
    ensures IntoSession(p, a, length, now).reply.Received? <==>
      Admitted(p, a) && a.body.Some? && |a.body.value| == length
  {
    IntoServed(p, a, length, now);
    if Admitted(p, a) {
      ServedStage(s, log, p, a, now);
      StoreEffect(Served(p, a, now), a, length, now);
    }
  }

  lemma PlaceFrom(a: UploadArgs) returns (length: nat)
    requires PlanOk(a.count, a.total, a.chunk) && a.index < a.count && a.offset == a.index * a.chunk
    ensures a.offset + length == Upto(a.index + 1, a.total, a.chunk)
  {
    PlaceInFile(a);
    length := ValidatedChunk(a.index, a.count, a.total, a.chunk).value.length;
  }

  lemma InOrderAccepted(s: State, log: Log, a: UploadArgs, length: nat, now: nat)
    requires Inv(s, log) && InOrder(s, a, now) && a.offset + length == Upto(a.index + 1, a.total, a.chunk)
    ensures Uploaded(s, a, now).reply.Received? <==> HasRoom(s, a, now) && a.body.Some? && |a.body.value| == length
  {
    var p := UploadGoesOn(s, a, length, now);
    AdmittedExact(s, p, a, now);
    ServedWhole(s, log, p, a, length, now);
  }

  lemma WholeIs(a: UploadArgs, length: nat)
    requires a.offset + length == Upto(a.index + 1, a.total, a.chunk)
    ensures ComesWhole(a) <==> a.body.Some? && |a.body.value| == length
  {
  }

  /** A chunk is stored exactly when its metadata are right, nothing bars it and it comes whole. */
  lemma UploadAccepted(s: State, log: Log, a: UploadArgs, now: nat)
    requires Inv(s, log)
    ensures Uploaded(s, a, now).reply.Received? <==> InOrder(s, a, now) && HasRoom(s, a, now) && ComesWhole(a)
  {
    if InOrder(s, a, now) {
      var length := PlaceFrom(a);
      InOrderAccepted(s, log, a, length, now);
      WholeIs(a, length);
    } else {
      OutOfOrder(s, a, now);
    }
  }

  /** What a stored chunk was served in. */
  lemma UploadServed(s: State, log: Log, a: UploadArgs, now: nat) returns (p: State)
    requires Inv(s, log) && MayUpload(s, a, now)
    ensures UpToDate(s, now, p) && Admitted(p, a)
    ensures Uploaded(s, a, now) == StoreChunk(Served(p, a, now), a, |a.body.value|, now)
    ensures Uploaded(s, a, now).reply.Received?
  {
    p := UploadGoesOn(s, a, |a.body.value|, now);
    AdmittedExact(s, p, a, now);
    IntoServed(p, a, |a.body.value|, now);
    UploadAccepted(s, log, a, now);
  }

  lemma UploadReplies(s: State, log: Log, a: UploadArgs, now: nat)
    requires Inv(s, log) && MayUpload(s, a, now)
    ensures Uploaded(s, a, now).reply == Received(|a.body.value|, a.offset + |a.body.value|)
  {
    var p := UploadServed(s, log, a, now);
    StoreEffect(Served(p, a, now), a, |a.body.value|, now);
  }

  lemma UploadEnters(s: State, log: Log, a: UploadArgs, now: nat)
    requires Inv(s, log) && MayUpload(s, a, now)
    ensures Enters(s, a, now, Uploaded(s, a, now).state)
  {
    var p := UploadServed(s, log, a, now);
    ServedStage(s, log, p, a, now);
    StoreEffect(Served(p, a, now), a, |a.body.value|, now);
    WriteAtPuts(StagedBefore(s, a, now), a.offset, a.body.value);
  }

  lemma UploadSpares(s: State, log: Log, a: UploadArgs, now: nat, path: Path)
    requires Inv(s, log) && MayUpload(s, a, now) && path != UploadPartPath(a.target, a.id)
    ensures FileStays(s, now, path, Uploaded(s, a, now).state)
  {
    var p := UploadServed(s, log, a, now);
    ServedStage(s, log, p, a, now);
    StoreEffect(Served(p, a, now), a, |a.body.value|, now);
    PrunedFile(s, now, path);
  }

  lemma UploadSparesSessions(s: State, log: Log, a: UploadArgs, now: nat)
    requires Inv(s, log) && MayUpload(s, a, now)
    ensures OtherSessionsStay(s, now, a.id, Uploaded(s, a, now).state)
  {
    var p := UploadServed(s, log, a, now);
    StoreEffect(Served(p, a, now), a, |a.body.value|, now);
    ServedSessions(s, p, a, now);
  }

  lemma ServedSessions(s: State, p: State, a: UploadArgs, now: nat)
    requires UpToDate(s, now, p)
    ensures OtherSessionsStay(s, now, a.id, Served(p, a, now))
  {
    PrunedSessions(s, now);
  }

  /**
    A stored chunk is in its session and its stage file, byte for byte; every other session and
    file is as it was, but for what had expired.
   */
  lemma UploadExact(s: State, log: Log, a: UploadArgs, now: nat)
    requires Inv(s, log) && MayUpload(s, a, now)
    ensures
      var o := Uploaded(s, a, now);
      && o.reply == Received(|a.body.value|, a.offset + |a.body.value|) && Enters(s, a, now, o.state)
      && OtherSessionsStay(s, now, a.id, o.state)
      && forall p :: p != UploadPartPath(a.target, a.id) ==> FileStays(s, now, p, o.state)
  {
    UploadReplies(s, log, a, now);
    UploadEnters(s, log, a, now);
    UploadSparesSessions(s, log, a, now);
    forall p | p != UploadPartPath(a.target, a.id) ensures FileStays(s, now, p, Uploaded(s, a, now).state) {
      UploadSpares(s, log, a, now, p);
    }
  }

  /** Nothing has been lost but what had expired, and nothing has been changed or made. */
  ghost predicate Untouched(s: State, now: nat, p: Path, after: State)
  {
    && (p in after.files ==> p in s.files && after.files[p] == s.files[p])
    && (p in s.files && !IdleStage(s, p, now) ==> p in after.files)
  }

  lemma RefusedInSession(s: State, p: State, a: UploadArgs, length: nat, now: nat, path: Path)
    requires UpToDate(s, now, p) && IntoSession(p, a, length, now).reply.Refused?
    requires path != UploadPartPath(a.target, a.id) || Live(s, a.id, now)
    ensures Untouched(s, now, path, IntoSession(p, a, length, now).state)
  {
    PrunedSessions(s, now);
    PrunedFile(s, now, path);
    IntoServed(p, a, length, now);
    if Admitted(p, a) { StoreEffect(Served(p, a, now), a, length, now); }
  }

  /** A refused upload touches no file, except that a session it opens has an empty stage file. */
  lemma RefusedUpload(s: State, a: UploadArgs, now: nat, path: Path)
    requires Uploaded(s, a, now).reply.Refused?
    requires path != UploadPartPath(a.target, a.id) || Live(s, a.id, now)
    ensures Untouched(s, now, path, Uploaded(s, a, now).state)
  {
    if InOrder(s, a, now) {
      var length := PlaceFrom(a);
      var p := UploadGoesOn(s, a, length, now);
      RefusedInSession(s, p, a, length, now, path);
    } else {
      PlaceInFile(a);
    }
  }
}
