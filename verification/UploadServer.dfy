/** The upload requests as the agent handles them, on shared tables and files. */
module UploadServer {
  import opened Bits
  import opened UploadPlan
  import opened Upload

  lemma NothingDropped(uploads: map<string, Session>, files: map<Path, seq<byte>>)
    ensures uploads - {} == uploads && files - Stages(uploads, {}) == files
  {
    assert Stages(uploads, {}) == {};
  }

  /** One more session dropped. */
  lemma DropOne(uploads: map<string, Session>, files: map<Path, seq<byte>>, done: set<string>, id: string)
    requires id in uploads && id !in done
    ensures id in uploads - done && (uploads - done)[id] == uploads[id]
    ensures (uploads - done) - {id} == uploads - (done + {id})
    ensures (files - Stages(uploads, done)) - {uploads[id].stage} == files - Stages(uploads, done + {id})
  {
    assert Stages(uploads, done + {id}) == Stages(uploads, done) + {uploads[id].stage};
  }

  class Server {
    var uploads: map<string, Session>
    var canceled: map<string, nat>
    var files: map<Path, seq<byte>>

    constructor (files: map<Path, seq<byte>>)
      ensures Now() == State(map[], map[], files)
    {
      uploads, canceled, this.files := map[], map[], files;
    }

    /** The state of the machine. */
    ghost function Now(): State
      reads this
    {
      State(uploads, canceled, files)
    }

    method RemoveFile(path: Path)
      modifies this`files
      ensures files == old(files) - {path}
    {
      files := files - {path};
    }

    /** Drop the sessions idle for half an hour. */
    method PruneUploads(now: nat)
      modifies this`uploads, this`files
      ensures Now() == Pruned(old(Now()), now)
    {
      ghost var before, start, done := uploads, files, {};
      var expired := set id | id in uploads && Since(now, uploads[id].updatedAt) >= IDLE_TIMEOUT;
      NothingDropped(uploads, files);
      while expired != {}
        invariant done !! expired && done + expired == Expired(before, now)
        invariant uploads == before - done && files == start - Stages(before, done)
        decreases |expired|
      {
        var id :| id in expired;
        DropOne(before, start, done, id);
        RemoveFile(uploads[id].stage);
        uploads := uploads - {id};
        expired := expired - {id};
        done := done + {id};
      }
      assert done == Expired(before, now);
    }

    /** Drop the tombstones older than a quarter of an hour. */
    method PruneCanceled(now: nat)
      modifies this`canceled
      ensures canceled == LiveTombstones(old(canceled), now)
    {
      canceled := map id | id in canceled && Since(now, canceled[id]) < CANCEL_TTL :: canceled[id];
    }

    method UploadIsCanceled(id: string, now: nat) returns (yes: bool)
      modifies this`canceled
      ensures canceled == LiveTombstones(old(canceled), now)
      ensures yes <==> id in canceled
    {
      PruneCanceled(now);
      yes := id in canceled;
    }

    /** One of the oldest of some tombstones. */
    method Oldest() returns (victim: string)
      requires |canceled| > 0
      ensures IsOldest(canceled, victim)
    {
      var left := canceled.Keys;
      assert |left| == |canceled|;
      victim :| victim in left;
      left := left - {victim};
      while left != {}
        invariant left <= canceled.Keys && victim in canceled
        invariant forall k :: k in canceled && k !in left ==> canceled[victim] <= canceled[k]
        decreases |left|
      {
        var k :| k in left;
        if canceled[k] < canceled[victim] {
          victim := k;
        }
        left := left - {k};
      }
    }

    /** Remember that an upload was cancelled, making room if the tombstones are full. */
    method MarkUploadCanceled(id: string, now: nat)
      modifies this`canceled
      ensures Marks(old(canceled), id, now, canceled)
    {
      PruneCanceled(now);
      if |canceled| >= MAX_TOMBSTONES && id !in canceled {
        var victim := Oldest();
        canceled := canceled - {victim};
      }
      canceled := canceled[id := now];
    }

    /** Receive one chunk. */
    method UploadStream(a: UploadArgs, now: nat) returns (r: Reply)
      modifies this
      ensures Outcome(Now(), r) == Uploaded(old(Now()), a, now)
    {
      if a.target == [] {
        return Refused(BadPath);
      }
      var range := ValidatedChunk(a.index, a.count, a.total, a.chunk);
      if range == None {
        return Refused(BadMetadata);
      }
      if !ValidUploadId(a.id) || a.offset != range.value.offset {
        return Refused(BadMetadata);
      }
      var gone := UploadIsCanceled(a.id, now);
      if gone {
        return Refused(WasCancelled);
      }
      PruneUploads(now);
      if a.id in uploads {
        var u := uploads[a.id];
        if u.target != a.target || u.total != a.total || u.chunkSize != a.chunk || u.chunkCount != a.count {
          return Refused(MetadataChanged);
        }
        uploads := uploads[a.id := u.(updatedAt := now)];
      } else {
        if a.index != 0 {
          return Refused(UnknownSession);
        }
        if |uploads| >= MAX_SESSIONS {
          return Refused(TooManySessions);
        }
        CreateSession(a, now);
      }
      r := ReceiveChunk(a, range.value.length, now);
    }

    /** Open a session over an empty stage file. */
    method CreateSession(a: UploadArgs, now: nat)
      requires a.id !in uploads
      modifies this`uploads, this`files
      ensures Now() == OpenSession(old(Now()), a, now)
    {
      var stage := UploadPartPath(a.target, a.id);
      RemoveFile(stage);
      files := files[stage := []];
      assert files == old(files)[stage := []];
      uploads := uploads[a.id := Session(a.target, stage, a.total, a.chunk, a.count, {}, now)];
    }

    /** Take the transferred chunk into the stage file. */
    method ReceiveChunk(a: UploadArgs, expected: nat, now: nat) returns (r: Reply)
      requires a.id in uploads
      modifies this`uploads, this`files
      ensures Outcome(Now(), r) == StoreChunk(old(Now()), a, expected, now)
    {
      if a.body == None || |a.body.value| != expected {
        return Refused(TransferFailed);
      }
      var u := uploads[a.id];
      if u.stage !in files {
        return Refused(StageLost);
      }
      files := files[u.stage := WriteAt(files[u.stage], a.offset, a.body.value)];
      uploads := uploads[a.id := u.(received := u.received + {a.index}, updatedAt := now)];
      r := Received(expected, a.offset + expected);
    }

    /** Put a complete upload in place of its target. */
    method UploadCommit(a: CommitArgs, dirs: set<Path>, now: nat) returns (r: Reply)
      modifies this
      ensures Outcome(Now(), r) == CommittedTo(old(Now()), a, dirs, now)
    {
      if !ValidUploadId(a.id) {
        return Refused(BadMetadata);
      }
      PruneUploads(now);
      if a.id !in uploads {
        return Refused(UnknownSession);
      }
      var u := uploads[a.id];
      if a.path == [] {
        return Refused(BadPath);
      }
      if u.target != a.path || u.total != a.total || u.chunkSize != a.chunkSize || u.chunkCount != a.chunkCount {
        return Refused(MetadataChanged);
      }
      if |u.received| != u.chunkCount {
        return Refused(Incomplete);
      }
      if u.target in dirs {
        return Refused(TargetIsDirectory);
      }
      if u.stage !in files || |files[u.stage]| < u.total {
        return Refused(StageLost);
      }
      var content := files[u.stage][..u.total];
      files := (files - {u.stage})[u.target := content];
      uploads := uploads - {a.id};
      canceled := canceled - {a.id};
      r := Committed(u.total);
    }

    /** Give an upload up. */
    method UploadCancel(id: string, path: Option<Path>, now: nat) returns (r: Reply)
      modifies this
      ensures Cancels(old(Now()), id, path, now, Outcome(Now(), r))
    {
      if !ValidUploadId(id) {
        return Refused(BadMetadata);
      }
      PruneUploads(now);
      if id in uploads && path.Some? && path.value != uploads[id].target {
        return Refused(MetadataChanged);
      }
      MarkUploadCanceled(id, now);
      if id in uploads {
        var stage := uploads[id].stage;
        uploads := uploads - {id};
        RemoveFile(stage);
      } else if path.Some? {
        RemoveFile(UploadPartPath(path.value, id));
        assert uploads == uploads - {id};
      } else {
        assert uploads == uploads - {id} && files == files - {};
      }
      r := Cancelled;
    }
  }
}
