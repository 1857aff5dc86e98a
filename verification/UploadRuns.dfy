/** What holds over every run of upload requests, and exactly when every commit of every run is complete. */
module UploadRuns {
  import opened Bits
  import opened UploadPlan
  import opened Upload

  // ---- Runs ----

  /** A point of a run: the state, and the log of what has been recorded so far. */
  datatype Point = Point(s: State, log: Log)

  ghost predicate Goes(p: Point, i: Input, q: Point)
  {
    exists reply :: Steps(p.s, i, Outcome(q.s, reply)) && q.log == Logged(p.s, p.log, i, Outcome(q.s, reply))
  }

  /** Any sequence of requests, from an agent that has just started over whatever files there are. */
  ghost predicate IsRun(points: seq<Point>, inputs: seq<Input>)
  {
    && |points| == |inputs| + 1
    && points[0].s.uploads == map[] && points[0].s.canceled == map[] && points[0].log == map[]
    && forall k :: 0 <= k < |inputs| ==> Goes(points[k], inputs[k], points[k + 1])
  }

  lemma GoesBy(p: Point, i: Input, q: Point) returns (o: Outcome)
    requires Goes(p, i, q)
    ensures Steps(p.s, i, o) && q == Point(o.state, Logged(p.s, p.log, i, o))
  {
    var reply :| Steps(p.s, i, Outcome(q.s, reply)) && q.log == Logged(p.s, p.log, i, Outcome(q.s, reply));
    o := Outcome(q.s, reply);
  }

  // ---- Bounds, in every run whatever ----

  ghost predicate Bounded(s: State)
  {
    |s.uploads| <= MAX_SESSIONS && |s.canceled| <= MAX_TOMBSTONES
  }

  lemma PrunedBounded(s: State, now: nat)
    requires Bounded(s)
    ensures Bounded(Pruned(s, now))
  {
    FewerSessions(Pruned(s, now).uploads, s.uploads);
  }

  lemma IntoSessionBounded(s: State, a: UploadArgs, length: nat, now: nat)
    requires Bounded(s)
    ensures Bounded(IntoSession(s, a, length, now).state)
  {
    if a.id in s.uploads {
      var t := s.uploads[a.id := s.uploads[a.id].(updatedAt := now)];
      OneMoreKey(s.uploads, a.id, t[a.id]);
      StoredBounded(s.(uploads := t), a, length, now);
    } else if a.index == 0 && |s.uploads| < MAX_SESSIONS {
      var t := OpenSession(s, a, now);
      OneMoreKey(s.uploads, a.id, t.uploads[a.id]);
      StoredBounded(t, a, length, now);
    }
  }

  lemma StoredBounded(s: State, a: UploadArgs, length: nat, now: nat)
    requires Bounded(s) && a.id in s.uploads
    ensures Bounded(StoreChunk(s, a, length, now).state)
  {
    var u := s.uploads[a.id].(received := s.uploads[a.id].received + {a.index}, updatedAt := now);
    OneMoreKey(s.uploads, a.id, u);
  }

  lemma CommitBounded(s: State, a: CommitArgs, dirs: set<Path>)
    requires Bounded(s) && a.id in s.uploads
    ensures Bounded(CommitLive(s, a, dirs).state)
  {
    CommitLiveCases(s, a, dirs);
    FewerSessions(s.uploads - {a.id}, s.uploads);
    FewerTombstones(s.canceled - {a.id}, s.canceled);
  }

  lemma UploadedBounded(s: State, a: UploadArgs, now: nat)
    requires Bounded(s)
    ensures Bounded(Uploaded(s, a, now).state)
  {
    LiveBound(s.canceled, now);
    var t := s.(canceled := LiveTombstones(s.canceled, now));
    PrunedBounded(t, now);
    var range := ValidatedChunk(a.index, a.count, a.total, a.chunk);
    if range.Some? { IntoSessionBounded(Pruned(t, now), a, range.value.length, now); }
  }

  lemma CancelledBounded(s: State, id: string, path: Option<Path>, now: nat, o: Outcome)
    requires Bounded(s) && Cancels(s, id, path, now, o)
    ensures Bounded(o.state)
  {
    PrunedBounded(s, now);
    if o.reply.Cancelled? {
      MarksBound(s.canceled, id, now, o.state.canceled);
      FewerSessions(o.state.uploads, Pruned(s, now).uploads);
    }
  }

  lemma StepBounded(s: State, i: Input, o: Outcome)
    requires Bounded(s) && Steps(s, i, o)
    ensures Bounded(o.state)
  {
    match i.req
    case UploadReq(a) => UploadedBounded(s, a, i.now);
    case CommitReq(a) =>
      PrunedBounded(s, i.now);
      if a.id in Pruned(s, i.now).uploads { CommitBounded(Pruned(s, i.now), a, i.dirs); }
    case CancelReq(id, path) => CancelledBounded(s, id, path, i.now, o);
  }

  /** In every run, at every point: at most 16 sessions and at most 1024 tombstones. */
  lemma {:induction false} RunBounded(points: seq<Point>, inputs: seq<Input>, k: nat)
    requires IsRun(points, inputs) && k < |points|
    ensures |points[k].s.uploads| <= 16 && |points[k].s.canceled| <= 1024
  {
    if k > 0 {
      RunBounded(points, inputs, k - 1);
      assert Goes(points[k - 1], inputs[k - 1], points[k]);
      var o := GoesBy(points[k - 1], inputs[k - 1], points[k]);
      StepBounded(points[k - 1].s, inputs[k - 1], o);
    }
  }

  // ---- What a step does to the targets ----

  ghost predicate SameTargets(s: State, t: State)
  {
    forall id :: id in t.uploads ==> id in s.uploads && t.uploads[id].target == s.uploads[id].target
  }

  /** Only the session of the request may be new. */
  ghost predicate TargetsFrom(s: State, a: UploadArgs, t: State)
  {
    forall id :: id in t.uploads ==>
      || (id in s.uploads && t.uploads[id].target == s.uploads[id].target)
      || (id == a.id && t.uploads[id].target == a.target)
  }

  lemma StoredTargets(s: State, a: UploadArgs, length: nat, now: nat)
    requires a.id in s.uploads
    ensures SameTargets(s, StoreChunk(s, a, length, now).state)
  {
  }

  lemma IntoSessionTargets(s: State, a: UploadArgs, length: nat, now: nat)
    ensures TargetsFrom(s, a, IntoSession(s, a, length, now).state)
  {
    if a.id in s.uploads {
      StoredTargets(s.(uploads := s.uploads[a.id := s.uploads[a.id].(updatedAt := now)]), a, length, now);
    } else if a.index == 0 && |s.uploads| < MAX_SESSIONS {
      StoredTargets(OpenSession(s, a, now), a, length, now);
    }
  }

  lemma UploadedTargets(s: State, a: UploadArgs, now: nat)
    ensures a.target == [] ==> Uploaded(s, a, now).state == s
    ensures TargetsFrom(s, a, Uploaded(s, a, now).state)
  {
    var range := ValidatedChunk(a.index, a.count, a.total, a.chunk);
    if range.Some? {
      var p := Pruned(s.(canceled := LiveTombstones(s.canceled, now)), now);
      IntoSessionTargets(p, a, range.value.length, now);
      assert SameTargets(s, p);
    }
  }

  lemma CommittedTargets(s: State, a: CommitArgs, dirs: set<Path>, now: nat)
    ensures SameTargets(s, CommittedTo(s, a, dirs, now).state)
  {
    if a.id in Pruned(s, now).uploads { CommitLiveCases(Pruned(s, now), a, dirs); }
  }

  // ---- Cancelled uploads stay cancelled ----

  /** The identifiers that the first `k` requests cancel at `t` or later. */
  ghost function CancelledSince(inputs: seq<Input>, k: nat, t: nat): set<string>
    requires k <= |inputs|
  {
    set m | 0 <= m < k && inputs[m].req.CancelReq? && inputs[m].now >= t :: inputs[m].req.id
  }

  lemma CancelledGrows(inputs: seq<Input>, m: nat, k: nat, t: nat)
    requires m <= k <= |inputs|
    ensures CancelledSince(inputs, m, t) <= CancelledSince(inputs, k, t)
  {
  }

  ghost predicate AllFrom(canceled: map<string, nat>, t: nat, ids: set<string>)
  {
    forall id :: id in canceled && canceled[id] >= t ==> id in ids
  }

  /** A step sets a tombstone only for the identifier it cancels, with the time at which it does. */
  lemma StepTombstones(s: State, i: Input, o: Outcome, id: string)
    requires Steps(s, i, o) && id in o.state.canceled
    ensures
      || (id in s.canceled && o.state.canceled[id] == s.canceled[id])
      || (i.req.CancelReq? && i.req.id == id && o.state.canceled[id] == i.now)
  {
    match i.req
    case UploadReq(a) => UploadTombstones(s, a, i.now);
    case CommitReq(a) => CommitTombstones(s, a, i.dirs, i.now);
    case CancelReq(_, _) =>
  }

  lemma CommitTombstones(s: State, a: CommitArgs, dirs: set<Path>, now: nat)
    ensures
      var canceled := CommittedTo(s, a, dirs, now).state.canceled;
      canceled == s.canceled || canceled == s.canceled - {a.id}
  {
    if a.id in Pruned(s, now).uploads { CommitLiveCases(Pruned(s, now), a, dirs); }
  }

  lemma SameTombstones(s: State, a: UploadArgs, length: nat, now: nat)
    ensures IntoSession(s, a, length, now).state.canceled == s.canceled
  {
  }

  /** An upload only drops dead tombstones, if any. */
  lemma UploadTombstones(s: State, a: UploadArgs, now: nat)
    ensures
      var canceled := Uploaded(s, a, now).state.canceled;
      canceled == s.canceled || canceled == LiveTombstones(s.canceled, now)
  {
    var range := ValidatedChunk(a.index, a.count, a.total, a.chunk);
    if range.Some? {
      SameTombstones(Pruned(s.(canceled := LiveTombstones(s.canceled, now)), now), a, range.value.length, now);
    }
  }

  lemma {:induction false} TombstonesFrom(points: seq<Point>, inputs: seq<Input>, k: nat, t: nat)
    requires IsRun(points, inputs) && k < |points|
    ensures AllFrom(points[k].s.canceled, t, CancelledSince(inputs, k, t))
  {
    if k > 0 {
      var p, i := points[k - 1], inputs[k - 1];
      TombstonesFrom(points, inputs, k - 1, t);
      assert Goes(p, i, points[k]);
      var o := GoesBy(p, i, points[k]);
      CancelledGrows(inputs, k - 1, k, t);
      forall id | id in o.state.canceled && o.state.canceled[id] >= t ensures id in CancelledSince(inputs, k, t) {
        StepTombstones(p.s, i, o, id);
      }
    }
  }

  /** `id` has no session, and a tombstone set at `t` or later. */
  ghost predicate Buried(s: State, id: string, t: nat)
  {
    id !in s.uploads && id in s.canceled && s.canceled[id] >= t
  }

  /** Until the tombstone is too old, an upload cannot bring the session back. */
  lemma UploadBuried(s: State, a: UploadArgs, now: nat, id: string, t: nat)
    requires Buried(s, id, t) && Since(now, t) < CANCEL_TTL
    ensures Buried(Uploaded(s, a, now).state, id, t)
    ensures
      var o := Uploaded(s, a, now);
      a.id == id ==> o.reply.Refused? && o.state.uploads == s.uploads && o.state.files == s.files
  {
    UploadTombstones(s, a, now);
    assert id in LiveTombstones(s.canceled, now);
    if a.id != id { UploadedTargets(s, a, now); }
  }

  /** Nor can a commit remove the tombstone: it would need the session. */
  lemma CommitBuried(s: State, a: CommitArgs, dirs: set<Path>, now: nat, id: string, t: nat)
    requires Buried(s, id, t)
    ensures Buried(CommittedTo(s, a, dirs, now).state, id, t)
  {
    if a.id in Pruned(s, now).uploads { CommitLiveCases(Pruned(s, now), a, dirs); }
  }

  /** A cancellation evicts the tombstone only if 1024 other identifiers have been cancelled since `t`. */
  lemma CancelBuried(s: State, other: string, path: Option<Path>, now: nat, o: Outcome,
                     id: string, t: nat, ids: set<string>)
    requires Buried(s, id, t) && Since(now, t) < CANCEL_TTL && t <= now && Cancels(s, other, path, now, o)
    requires AllFrom(s.canceled, t, ids) && |ids + {other}| <= MAX_TOMBSTONES
    ensures Buried(o.state, id, t)
  {
    var live := LiveTombstones(s.canceled, now);
    assert id in live;
    if o.reply.Cancelled? && |live| >= MAX_TOMBSTONES && other !in live {
      var victim :| IsOldest(live, victim) && o.state.canceled == (live - {victim})[other := now];
      if victim == id {
        assert live.Keys <= ids && |live.Keys| == |live|;
        KeysBound(live.Keys + {other}, ids + {other});
      }
    }
  }

  /** Between the requests `j` and `k` at most 15 minutes go by. */
  ghost predicate WithinTtl(inputs: seq<Input>, j: nat, k: nat)
    requires j < k < |inputs|
  {
    forall m :: j < m <= k ==> inputs[j].now <= inputs[m].now < inputs[j].now + CANCEL_TTL
  }

  ghost predicate CancelledAt(points: seq<Point>, inputs: seq<Input>, j: nat, id: string)
    requires |points| == |inputs| + 1 && j < |inputs|
  {
    && inputs[j].req.CancelReq? && inputs[j].req.id == id
    && Cancels(points[j].s, id, inputs[j].req.path, inputs[j].now, Outcome(points[j + 1].s, Cancelled))
  }

  lemma StepBuried(s: State, i: Input, o: Outcome, id: string, t: nat, ids: set<string>, ids': set<string>)
    requires Buried(s, id, t) && t <= i.now < t + CANCEL_TTL && Steps(s, i, o)
    requires AllFrom(s.canceled, t, ids) && ids <= ids' && |ids'| <= MAX_TOMBSTONES
    requires i.req.CancelReq? ==> i.req.id in ids'
    ensures Buried(o.state, id, t)
  {
    match i.req
    case UploadReq(a) => UploadBuried(s, a, i.now, id, t);
    case CommitReq(a) => CommitBuried(s, a, i.dirs, i.now, id, t);
    case CancelReq(other, path) =>
      KeysBound(ids + {other}, ids');
      CancelBuried(s, other, path, i.now, o, id, t, ids);
  }

  lemma CancelledIsBuried(s: State, id: string, path: Option<Path>, now: nat, o: Outcome)
    requires Cancels(s, id, path, now, o) && o.reply.Cancelled?
    ensures Buried(o.state, id, now)
  {
  }

  lemma NextBuried(points: seq<Point>, inputs: seq<Input>, j: nat, m: nat, k: nat, id: string)
    requires IsRun(points, inputs) && j < m < k < |inputs| && Buried(points[m].s, id, inputs[j].now)
    requires WithinTtl(inputs, j, k) && |CancelledSince(inputs, k, inputs[j].now)| <= MAX_TOMBSTONES
    ensures Buried(points[m + 1].s, id, inputs[j].now)
  {
    var t := inputs[j].now;
    var ids, ids', all := CancelledSince(inputs, m, t), CancelledSince(inputs, m + 1, t), CancelledSince(inputs, k, t);
    assert Goes(points[m], inputs[m], points[m + 1]);
    var o := GoesBy(points[m], inputs[m], points[m + 1]);
    TombstonesFrom(points, inputs, m, t);
    CancelledGrows(inputs, m, m + 1, t);
    CancelledGrows(inputs, m + 1, k, t);
    KeysBound(ids', all);
    StepBuried(points[m].s, inputs[m], o, id, t, ids, ids');
  }

  /** What each step keeps holds to the end. */
  lemma {:induction false} StaysBuried(points: seq<Point>, j: nat, m: nat, k: nat, id: string, t: nat)
    requires j < m <= k < |points| && Buried(points[j + 1].s, id, t)
    requires forall n :: j < n < k && Buried(points[n].s, id, t) ==> Buried(points[n + 1].s, id, t)
    ensures Buried(points[m].s, id, t)
    decreases m
  {
    if m > j + 1 {
      StaysBuried(points, j, m - 1, k, id, t);
    }
  }

  lemma RunBuries(points: seq<Point>, inputs: seq<Input>, j: nat, k: nat, id: string)
    requires IsRun(points, inputs) && j < k < |inputs| && Buried(points[j + 1].s, id, inputs[j].now)
    requires WithinTtl(inputs, j, k) && |CancelledSince(inputs, k, inputs[j].now)| <= MAX_TOMBSTONES
    ensures Buried(points[k].s, id, inputs[j].now)
  {
    var t := inputs[j].now;
    forall n | j < n < k && Buried(points[n].s, id, t) ensures Buried(points[n + 1].s, id, t) {
      NextBuried(points, inputs, j, n, k, id);
    }
    StaysBuried(points, j, k, k, id, t);
  }

  /**
    In every run: for 15 minutes after a cancellation every upload of that identifier is refused
    and changes no session and no file, unless 1024 other identifiers are cancelled meanwhile.
   */
  lemma CancelSticks(points: seq<Point>, inputs: seq<Input>, j: nat, k: nat, id: string)
    requires IsRun(points, inputs) && j < k < |inputs| && CancelledAt(points, inputs, j, id)
    requires WithinTtl(inputs, j, k) && |CancelledSince(inputs, k, inputs[j].now)| <= 1024
    requires inputs[k].req.UploadReq? && inputs[k].req.u.id == id
    ensures Uploaded(points[k].s, inputs[k].req.u, inputs[k].now).reply.Refused?
    ensures points[k + 1].s.uploads == points[k].s.uploads && points[k + 1].s.files == points[k].s.files
  {
    CancelledIsBuried(points[j].s, id, inputs[j].req.path, inputs[j].now, Outcome(points[j + 1].s, Cancelled));
    RunBuries(points, inputs, j, k, id);
    assert Goes(points[k], inputs[k], points[k + 1]);
    UploadBuried(points[k].s, inputs[k].req.u, inputs[k].now, id, inputs[j].now);
  }

  // ---- Uploads that cannot disturb one another ----

  /** The identifier and the target that the chunks of an upload come with. */
  datatype Pair = Pair(id: string, target: Path)

  /** The second upload's target is the stage file of the first. */
  ghost predicate Clash(p: Pair, q: Pair)
  {
    && ValidUploadId(p.id) && ValidUploadId(q.id) && p.id != q.id
    && p.target != [] && q.target == UploadPartPath(p.target, p.id)
  }

  ghost predicate NoClash(pairs: iset<Pair>)
  {
    forall p, q :: p in pairs && q in pairs ==> !Clash(p, q)
  }

  /** Every upload request of the run is of one of the pairs; all other arguments, and all other requests, are free. */
  ghost predicate DrawsOn(inputs: seq<Input>, pairs: iset<Pair>)
  {
    forall k :: 0 <= k < |inputs| && inputs[k].req.UploadReq? ==>
      Pair(inputs[k].req.u.id, inputs[k].req.u.target) in pairs
  }

  ghost predicate FromPairs(s: State, pairs: iset<Pair>)
  {
    forall id :: id in s.uploads ==> s.uploads[id].target != [] && Pair(id, s.uploads[id].target) in pairs
  }

  lemma PairsApart(s: State, log: Log, pairs: iset<Pair>)
    requires Inv(s, log) && FromPairs(s, pairs) && NoClash(pairs)
    ensures Apart(s.uploads)
  {
    forall id, k | id in s.uploads && k in s.uploads && id != k ensures s.uploads[id].target != s.uploads[k].stage {
      assert SessionOk(id, s.uploads[id], log[id], s.files);
      assert SessionOk(k, s.uploads[k], log[k], s.files);
      assert !Clash(Pair(k, s.uploads[k].target), Pair(id, s.uploads[id].target));
    }
  }

  /** A session that is new after a step is that of the step's upload request; no session changes its target. */
  lemma StepTargets(s: State, i: Input, o: Outcome, id: string)
    requires Steps(s, i, o) && id in o.state.uploads
    ensures
      || (id in s.uploads && o.state.uploads[id].target == s.uploads[id].target)
      || (i.req.UploadReq? && i.req.u.id == id && i.req.u.target == o.state.uploads[id].target && i.req.u.target != [])
  {
    match i.req
    case UploadReq(a) => UploadedTargets(s, a, i.now);
    case CommitReq(a) => CommittedTargets(s, a, i.dirs, i.now);
    case CancelReq(_, _) =>
  }

  lemma StepFromPairs(s: State, i: Input, o: Outcome, pairs: iset<Pair>)
    requires FromPairs(s, pairs) && Steps(s, i, o)
    requires i.req.UploadReq? ==> Pair(i.req.u.id, i.req.u.target) in pairs
    ensures FromPairs(o.state, pairs)
  {
    forall id | id in o.state.uploads
      ensures o.state.uploads[id].target != [] && Pair(id, o.state.uploads[id].target) in pairs
    {
      StepTargets(s, i, o, id);
    }
  }

  /** In every run over uploads that do not clash, no recorded chunk is ever out of place. */
  lemma {:induction false} RunKeeps(points: seq<Point>, inputs: seq<Input>, pairs: iset<Pair>, k: nat)
    requires IsRun(points, inputs) && DrawsOn(inputs, pairs) && NoClash(pairs) && k < |points|
    ensures Inv(points[k].s, points[k].log) && FromPairs(points[k].s, pairs)
  {
    if k > 0 {
      var p, i := points[k - 1], inputs[k - 1];
      RunKeeps(points, inputs, pairs, k - 1);
      assert Goes(p, i, points[k]);
      var o := GoesBy(p, i, points[k]);
      PairsApart(p.s, p.log, pairs);
      StepKeeps(p.s, p.log, i, o);
      StepFromPairs(p.s, i, o, pairs);
    }
  }

  // ---- Complete commits ----

  /**
    The commit at `k` leaves exactly the recorded data at its target when every chunk has been
    recorded and nothing else speaks against it; otherwise it creates and changes no file.
   */
  ghost predicate CompleteAt(points: seq<Point>, inputs: seq<Input>, k: nat)
    requires |points| == |inputs| + 1 && k < |inputs| && inputs[k].req.CommitReq?
  {
    var p, i, a, files := points[k], inputs[k], inputs[k].req.c, points[k + 1].s.files;
    if MayCommit(p.s, p.log, a, i.dirs, i.now) then
      a.path in files && |files[a.path]| == a.total && files[a.path] == Joined(p.log[a.id], a.chunkCount)
    else forall path :: path in files ==> path in p.s.files && files[path] == p.s.files[path]
  }

  ghost predicate Complete(points: seq<Point>, inputs: seq<Input>)
    requires |points| == |inputs| + 1
  {
    forall k :: 0 <= k < |inputs| && inputs[k].req.CommitReq? ==> CompleteAt(points, inputs, k)
  }

  lemma CommitCompletes(points: seq<Point>, inputs: seq<Input>, pairs: iset<Pair>, k: nat)
    requires IsRun(points, inputs) && DrawsOn(inputs, pairs) && NoClash(pairs)
    requires k < |inputs| && inputs[k].req.CommitReq?
    ensures CompleteAt(points, inputs, k)
  {
    var p, i := points[k], inputs[k];
    RunKeeps(points, inputs, pairs, k);
    assert Goes(points[k], inputs[k], points[k + 1]);
    var o := GoesBy(p, i, points[k + 1]);
    CommitIsComplete(p.s, p.log, i.req.c, i.dirs, i.now);
    if !MayCommit(p.s, p.log, i.req.c, i.dirs, i.now) {
      CommitRefused(p.s, i.req.c, i.dirs, i.now);
    }
  }

  // ---- The steps of a run that goes wrong ----

  function Finish(id: string, target: Path, count: u64): Input
  {
    Input(CommitReq(CommitArgs(id, target, count, 1, count)), 0, {})
  }

  lemma FirstStore(s: State, a: UploadArgs, first: byte)
    requires a.id !in s.uploads && a.offset == 0 && a.index == 0 && a.body == Some([first])
    ensures
      var stage := UploadPartPath(a.target, a.id);
      var o := StoreChunk(OpenSession(s, a, 0), a, 1, 0);
      && o.reply.Received? && o.state.canceled == s.canceled
      && o.state.uploads == s.uploads[a.id := Session(a.target, stage, a.total, a.chunk, a.count, {0}, 0)]
      && o.state.files == s.files[stage := [first]]
  {
    assert WriteAt([], 0, [first]) == [first];
    assert {} + {0} == {0};
  }

  /** A first chunk opens a session. */
  lemma FirstChunk(s: State, id: string, target: Path, count: u64, first: byte) returns (a: UploadArgs)
    requires ValidUploadId(id) && target != [] && 1 <= count && id !in s.uploads && |s.uploads| < MAX_SESSIONS
    requires s.canceled == map[] && forall k :: k in s.uploads ==> s.uploads[k].updatedAt == 0
    ensures a.id == id && a.target == target && a.index == 0 && a.body == Some([first])
    ensures
      var stage := UploadPartPath(target, id);
      var o := Uploaded(s, a, 0);
      && o.reply.Received? && o.state.canceled == map[]
      && o.state.uploads == s.uploads[id := Session(target, stage, count, 1, count, {0}, 0)]
      && o.state.files == s.files[stage := [first]]
  {
    a := UploadArgs(id, target, 0, 0, count, count, 1, Some([first]));
    assert CeilDiv(count, 1) == count;
    assert ValidatedChunk(0, count, count, 1) == Some(Range(0, 1));
    NothingExpires(s);
    OpensAndStores(s, a, 1, 0);
    FirstStore(s, a, first);
  }

  lemma NothingExpires(s: State)
    requires s.canceled == map[] && forall k :: k in s.uploads ==> s.uploads[k].updatedAt == 0
    ensures Pruned(s, 0) == s && LiveTombstones(s.canceled, 0) == map[]
  {
    assert Expired(s.uploads, 0) == {};
    assert Stages(s.uploads, {}) == {};
    assert s.uploads - {} == s.uploads && s.files - {} == s.files;
  }

  /** Nothing expires, and the chunk is logged in its session, old or new. */
  lemma LogReceives(s: State, log: Log, i: Input, o: Outcome)
    requires i.now == 0 && log.Keys == s.uploads.Keys && forall k :: k in s.uploads ==> s.uploads[k].updatedAt == 0
    requires i.req.UploadReq? && o.reply.Received? && i.req.u.body.Some?
    requires o.state.uploads.Keys == s.uploads.Keys + {i.req.u.id}
    ensures Logged(s, log, i, o) == Record(log, i.req.u.id, i.req.u.index, i.req.u.body.value)
  {
  }

  lemma Receive(p: Point, a: UploadArgs) returns (i: Input, q: Point)
    requires p.log.Keys == p.s.uploads.Keys && forall k :: k in p.s.uploads ==> p.s.uploads[k].updatedAt == 0
    requires a.body.Some?
    requires
      var o := Uploaded(p.s, a, 0);
      o.reply.Received? && o.state.uploads.Keys == p.s.uploads.Keys + {a.id}
    ensures Goes(p, i, q) && i.req == UploadReq(a)
    ensures q == Point(Uploaded(p.s, a, 0).state, Record(p.log, a.id, a.index, a.body.value))
  {
    var o := Uploaded(p.s, a, 0);
    i := Input(UploadReq(a), 0, {});
    LogReceives(p.s, p.log, i, o);
    q := Point(o.state, Logged(p.s, p.log, i, o));
    assert Steps(p.s, i, Outcome(o.state, o.reply));
  }

  lemma LogDrops(s: State, log: Log, i: Input, o: Outcome)
    requires i.now == 0 && log.Keys == s.uploads.Keys && forall k :: k in s.uploads ==> s.uploads[k].updatedAt == 0
    requires !i.req.UploadReq? && o.state.uploads.Keys <= s.uploads.Keys
    ensures Logged(s, log, i, o) == Restrict(log, o.state.uploads.Keys)
  {
  }

  lemma Commit(p: Point, a: CommitArgs) returns (q: Point)
    requires p.log.Keys == p.s.uploads.Keys && forall k :: k in p.s.uploads ==> p.s.uploads[k].updatedAt == 0
    requires CommittedTo(p.s, a, {}, 0).state.uploads.Keys <= p.s.uploads.Keys
    ensures Goes(p, Input(CommitReq(a), 0, {}), q)
    ensures q.s == CommittedTo(p.s, a, {}, 0).state && q.log == Restrict(p.log, q.s.uploads.Keys)
  {
    var i, o := Input(CommitReq(a), 0, {}), CommittedTo(p.s, a, {}, 0);
    LogDrops(p.s, p.log, i, o);
    q := Point(o.state, Logged(p.s, p.log, i, o));
    assert Steps(p.s, i, Outcome(o.state, o.reply));
  }

  // The points the run passes: upload `a` opened, `b` opened on its stage file, `b` committed, `a` filled up.

  ghost predicate AtFirst(p: Point, t: Path, a: string)
  {
    var stage := UploadPartPath(t, a);
    p == Point(State(map[a := Session(t, stage, 2, 1, 2, {0}, 0)], map[], map[stage := [1]]), map[a := map[0 := [1]]])
  }

  ghost predicate AtOther(p: Point, t: Path, a: string, b: string)
  {
    var stage := UploadPartPath(t, a);
    var other := UploadPartPath(stage, b);
    && other != stage
    && p.s.uploads == map[a := Session(t, stage, 2, 1, 2, {0}, 0), b := Session(stage, other, 1, 1, 1, {0}, 0)]
    && p.s.canceled == map[] && p.s.files == map[stage := [1], other := [2]]
    && p.log == map[a := map[0 := [1]], b := map[0 := [2]]]
  }

  ghost predicate AtOverwritten(p: Point, t: Path, a: string)
  {
    var stage := UploadPartPath(t, a);
    p == Point(State(map[a := Session(t, stage, 2, 1, 2, {0}, 0)], map[], map[stage := [2]]), map[a := map[0 := [1]]])
  }

  ghost predicate AtSecond(p: Point, t: Path, a: string)
  {
    var stage := UploadPartPath(t, a);
    && p.s == State(map[a := Session(t, stage, 2, 1, 2, {0, 1}, 0)], map[], map[stage := [2, 3]])
    && p.log == map[a := map[0 := [1], 1 := [3]]]
  }

  /** An input that, if it is an upload at all, is one of the given pair. */
  predicate IsOf(i: Input, p: Pair)
  {
    i.req.UploadReq? ==> i.req.u.id == p.id && i.req.u.target == p.target
  }

  lemma AfterFirst(t: Path, a: string, p: Point) returns (i: Input, q: Point)
    requires ValidUploadId(a) && t != [] && p == Point(State(map[], map[], map[]), map[])
    ensures Goes(p, i, q) && IsOf(i, Pair(a, t)) && AtFirst(q, t, a)
  {
    var u := FirstChunk(p.s, a, t, 2, 1);
    i, q := Receive(p, u);
    assert q.log == map[a := map[0 := [1]]];
  }

  lemma AfterOther(t: Path, a: string, b: string, p: Point) returns (i: Input, q: Point)
    requires ValidUploadId(a) && ValidUploadId(b) && a != b && t != [] && AtFirst(p, t, a)
    ensures Goes(p, i, q) && IsOf(i, Pair(b, UploadPartPath(t, a))) && AtOther(q, t, a, b)
  {
    var stage := UploadPartPath(t, a);
    StagesDiffer(t, a, stage, b);
    var u := FirstChunk(p.s, b, stage, 1, 2);
    i, q := Receive(p, u);
    assert q.log == map[a := map[0 := [1]], b := map[0 := [2]]];
  }

  lemma AfterOtherCommit(t: Path, a: string, b: string, p: Point) returns (i: Input, q: Point)
    requires ValidUploadId(b) && a != b && AtOther(p, t, a, b)
    ensures Goes(p, i, q) && IsOf(i, Pair(a, t)) && AtOverwritten(q, t, a)
  {
    var u := CommitArgs(b, UploadPartPath(t, a), 1, 1, 1);
    CommitOther(p.s, a, t, b);
    i := Input(CommitReq(u), 0, {});
    q := Commit(p, u);
    assert q.log == map[a := map[0 := [1]]];
  }

  lemma SecondRecorded(log: Log, a: string)
    requires log == map[a := map[0 := [1]]]
    ensures Record(log, a, 1, [3]) == map[a := map[0 := [1], 1 := [3]]]
  {
  }

  lemma AfterSecond(t: Path, a: string, p: Point) returns (i: Input, q: Point)
    requires ValidUploadId(a) && t != [] && AtOverwritten(p, t, a)
    ensures Goes(p, i, q) && IsOf(i, Pair(a, t)) && AtSecond(q, t, a)
  {
    var u := SecondChunk(p.s, a, t);
    i, q := Receive(p, u);
    SecondRecorded(p.log, a);
  }

  lemma AfterBoth(t: Path, a: string, p: Point) returns (q: Point)
    requires ValidUploadId(a) && t != [] && AtSecond(p, t, a)
    ensures Goes(p, Finish(a, t, 2), q) && t in q.s.files && q.s.files[t] == [2, 3]
  {
    CommitBoth(p.s, a, t);
    q := Commit(p, Finish(a, t, 2).req.c);
  }

  /** Everything speaks for the last commit, and its chunks were recorded as 1 and 3. */
  lemma BothRecorded(p: Point, t: Path, a: string)
    requires ValidUploadId(a) && t != [] && AtSecond(p, t, a)
    ensures MayCommit(p.s, p.log, Finish(a, t, 2).req.c, {}, 0) && Joined(p.log[a], 2) == [1, 3]
  {
    var data: map<nat, seq<byte>> := map[0 := [1], 1 := [3]];
    assert AllRecorded(data, 2);
    assert Joined(data, 0) == [] && Joined(data, 1) == [1] && Joined(data, 2) == [1] + [3];
  }

  lemma CommitOther(s: State, a: string, t: Path, b: string)
    requires ValidUploadId(b) && a != b && s.canceled == map[]
    requires
      var stage := UploadPartPath(t, a);
      var other := UploadPartPath(stage, b);
      && s.uploads == map[a := Session(t, stage, 2, 1, 2, {0}, 0), b := Session(stage, other, 1, 1, 1, {0}, 0)]
      && other != stage && s.files == map[stage := [1], other := [2]]
    ensures
      var stage := UploadPartPath(t, a);
      var r := CommittedTo(s, CommitArgs(b, stage, 1, 1, 1), {}, 0).state;
      && r.uploads == map[a := Session(t, stage, 2, 1, 2, {0}, 0)]
      && r.canceled == map[] && r.files == map[stage := [2]]
  {
    NothingExpires(s);
    var stage := UploadPartPath(t, a);
    assert [2][..1] == [2];
    assert s.uploads - {b} == map[a := Session(t, stage, 2, 1, 2, {0}, 0)];
    assert (s.files - {UploadPartPath(stage, b)})[stage := [2]] == map[stage := [2]];
    assert s.canceled - {b} == map[];
  }

  lemma SecondChunk(s: State, a: string, t: Path) returns (u: UploadArgs)
    requires ValidUploadId(a) && t != [] && s.canceled == map[]
    requires s.uploads == map[a := Session(t, UploadPartPath(t, a), 2, 1, 2, {0}, 0)]
    requires s.files == map[UploadPartPath(t, a) := [2]]
    ensures u.id == a && u.target == t && u.index == 1 && u.body == Some([3])
    ensures
      var o := Uploaded(s, u, 0);
      var r := o.state;
      && o.reply.Received? && r.uploads == map[a := Session(t, UploadPartPath(t, a), 2, 1, 2, {0, 1}, 0)]
      && r.uploads.Keys == s.uploads.Keys + {a}
      && r.canceled == map[] && r.files == map[UploadPartPath(t, a) := [2, 3]]
  {
    u := UploadArgs(a, t, 1, 1, 2, 2, 1, Some([3]));
    NothingExpires(s);
    assert CeilDiv(2, 1) == 2;
    assert WriteAt([2], 1, [3]) == [2, 3];
    assert {0} + {1} == {0, 1};
  }

  lemma CommitBoth(s: State, a: string, t: Path)
    requires ValidUploadId(a) && t != [] && s.canceled == map[]
    requires s.uploads == map[a := Session(t, UploadPartPath(t, a), 2, 1, 2, {0, 1}, 0)]
    requires s.files == map[UploadPartPath(t, a) := [2, 3]]
    ensures
      var o := CommittedTo(s, CommitArgs(a, t, 2, 1, 2), {}, 0);
      o.reply == Committed(2) && t in o.state.files && o.state.files[t] == [2, 3]
  {
    NothingExpires(s);
    assert [2, 3][..2] == [2, 3];
    assert |{0, 1}| == 2;
  }

  // ---- The run that goes wrong ----

  lemma StillGoes(points: seq<Point>, inputs: seq<Input>, i: Input, q: Point, k: nat)
    requires IsRun(points, inputs) && Goes(points[|inputs|], i, q) && k <= |inputs|
    ensures Goes((points + [q])[k], (inputs + [i])[k], (points + [q])[k + 1])
  {
    if k < |inputs| {
      assert Goes(points[k], inputs[k], points[k + 1]);
    }
  }

  lemma Extended(points: seq<Point>, inputs: seq<Input>, pairs: iset<Pair>, p: Pair, i: Input, q: Point)
    returns (points': seq<Point>, inputs': seq<Input>)
    requires IsRun(points, inputs) && DrawsOn(inputs, pairs) && Goes(points[|inputs|], i, q) && IsOf(i, p) && p in pairs
    ensures IsRun(points', inputs') && DrawsOn(inputs', pairs) && |inputs'| == |inputs| + 1
    ensures points' == points + [q] && inputs'[|inputs|] == i
  {
    points', inputs' := points + [q], inputs + [i];
    forall k | 0 <= k < |inputs'| ensures Goes(points'[k], inputs'[k], points'[k + 1]) {
      StillGoes(points, inputs, i, q, k);
    }
  }

  lemma ToFirst(t: Path, a: string, pairs: iset<Pair>) returns (points: seq<Point>, inputs: seq<Input>)
    requires ValidUploadId(a) && t != [] && Pair(a, t) in pairs
    ensures IsRun(points, inputs) && DrawsOn(inputs, pairs) && |inputs| == 1 && AtFirst(points[1], t, a)
  {
    var p := Point(State(map[], map[], map[]), map[]);
    var i, q := AfterFirst(t, a, p);
    points, inputs := Extended([p], [], pairs, Pair(a, t), i, q);
  }

  lemma ToOther(t: Path, a: string, b: string, pairs: iset<Pair>) returns (points: seq<Point>, inputs: seq<Input>)
    requires ValidUploadId(a) && ValidUploadId(b) && a != b && t != []
    requires Pair(a, t) in pairs && Pair(b, UploadPartPath(t, a)) in pairs
    ensures IsRun(points, inputs) && DrawsOn(inputs, pairs) && |inputs| == 2 && AtOther(points[2], t, a, b)
  {
    points, inputs := ToFirst(t, a, pairs);
    var i, q := AfterOther(t, a, b, points[1]);
    points, inputs := Extended(points, inputs, pairs, Pair(b, UploadPartPath(t, a)), i, q);
  }

  lemma ToOverwritten(t: Path, a: string, b: string, pairs: iset<Pair>) returns (points: seq<Point>, inputs: seq<Input>)
    requires ValidUploadId(a) && ValidUploadId(b) && a != b && t != []
    requires Pair(a, t) in pairs && Pair(b, UploadPartPath(t, a)) in pairs
    ensures IsRun(points, inputs) && DrawsOn(inputs, pairs) && |inputs| == 3 && AtOverwritten(points[3], t, a)
  {
    points, inputs := ToOther(t, a, b, pairs);
    var i, q := AfterOtherCommit(t, a, b, points[2]);
    points, inputs := Extended(points, inputs, pairs, Pair(a, t), i, q);
  }

  lemma ToSecond(t: Path, a: string, b: string, pairs: iset<Pair>) returns (points: seq<Point>, inputs: seq<Input>)
    requires ValidUploadId(a) && ValidUploadId(b) && a != b && t != []
    requires Pair(a, t) in pairs && Pair(b, UploadPartPath(t, a)) in pairs
    ensures IsRun(points, inputs) && DrawsOn(inputs, pairs) && |inputs| == 4 && AtSecond(points[4], t, a)
  {
    points, inputs := ToOverwritten(t, a, b, pairs);
    var i, q := AfterSecond(t, a, points[3]);
    points, inputs := Extended(points, inputs, pairs, Pair(a, t), i, q);
  }

  /**
    A client may name the stage file of one upload as the target of another. Committing the
    other then replaces bytes already recorded: here chunks 0 and 1 were recorded as the bytes 1
    and 3, but 2 and 3 are committed.
   */
  lemma StageTargetsInterfere(t: Path, a: string, b: string, pairs: iset<Pair>)
    returns (points: seq<Point>, inputs: seq<Input>)
    requires ValidUploadId(a) && ValidUploadId(b) && a != b && t != []
    requires Pair(a, t) in pairs && Pair(b, UploadPartPath(t, a)) in pairs
    ensures IsRun(points, inputs) && DrawsOn(inputs, pairs) && |inputs| == 5 && inputs[4] == Finish(a, t, 2)
    ensures points[4].log == map[a := map[0 := [1], 1 := [3]]]
    ensures t in points[5].s.files && points[5].s.files[t] == [2, 3]
    ensures !CompleteAt(points, inputs, 4)
  {
    points, inputs := ToSecond(t, a, b, pairs);
    var q := AfterBoth(t, a, points[4]);
    BothRecorded(points[4], t, a);
    points, inputs := Extended(points, inputs, pairs, Pair(a, t), Finish(a, t, 2), q);
  }

  // ---- Exactly when ----

  /**
    For any set of uploads: in every run over them every commit is complete if and only if none
    of them has the stage file of another as its target.
   */
  lemma CompleteUnlessClashing(pairs: iset<Pair>)
    ensures
      NoClash(pairs) <==>
      forall points: seq<Point>, inputs: seq<Input> ::
        IsRun(points, inputs) && DrawsOn(inputs, pairs) ==> Complete(points, inputs)
  {
    if NoClash(pairs) {
      forall points: seq<Point>, inputs: seq<Input> | IsRun(points, inputs) && DrawsOn(inputs, pairs)
        ensures Complete(points, inputs)
      {
        forall k | 0 <= k < |inputs| && inputs[k].req.CommitReq? ensures CompleteAt(points, inputs, k) {
          CommitCompletes(points, inputs, pairs, k);
        }
      }
    } else {
      var p, q :| p in pairs && q in pairs && Clash(p, q);
      var points, inputs := StageTargetsInterfere(p.target, p.id, q.id, pairs);
      assert !CompleteAt(points, inputs, 4);
    }
  }
}
