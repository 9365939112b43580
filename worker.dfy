/**
 * The worker's mutable state, as in worker/app.py: one `TSDFSession` object
 * per token, held in the process-wide `sessions` registry, and the three
 * endpoint bodies that update them. Each method is proved against the
 * functions of SessionModel; the endpoint bodies run as if atomic (the
 * locks are not modelled).
 */
module Worker {
  import opened Wrappers
  import opened Intrinsics
  import opened SessionModel

  /** `TSDFSession`: a lazily created volume and two counters. */
  class TSDFSession {
    const token: Token
    const voxelLength: real := VOXEL_LENGTH
    const sdfTrunc: real := SDF_TRUNC
    const colorType: ColorType := RGB8
    var volume: Option<Volume>
    var frameCount: nat
    var chunkCount: nat

    /** The session's state as a value. */
    function State(): Session
      reads this
    {
      Session(token, volume, frameCount, chunkCount)
    }

    /** `TSDFSession(token)`: no volume yet, both counters zero. */
    constructor (token: Token)
      ensures State() == NewSession(token)
    {
      this.token := token;
      volume := None;
      frameCount := 0;
      chunkCount := 0;
    }

    /**
     * `initialize_tsdf`: install a new, empty volume built from the session's
     * parameters; the counters are untouched. It replaces any volume there
     * was, so it keeps the session invariant only when there was none, which
     * is how both of its callers use it.
     */
    method InitializeTsdf()
      modifies this
      ensures State() == old(State()).(volume := Some(NewVolume()))
      ensures old(volume).None? && Consistent(old(State())) ==> Consistent(State())
    {
      volume := Some(Volume(voxelLength, sdfTrunc, colorType, VOLUME_UNIT_RESOLUTION, DEPTH_SAMPLING_STRIDE, []));
    }

    /**
     * `integrate_frame`: create the volume if absent, then integrate frame
     * `id`. `integrates` is whether Open3D's integrate call returns normally;
     * `raised` reports that it did not, in which case `frame_count` is unchanged.
     */
    method IntegrateFrame(id: FrameId, integrates: bool) returns (raised: bool)
      modifies this
      ensures raised == !integrates
      ensures State() == SessionModel.IntegrateFrame(old(State()), id, integrates)
    {
      if volume.None? {
        InitializeTsdf();
      }
      if !integrates {
        return true;
      }
      volume := Some(volume.value.(fused := volume.value.fused + [id]));
      frameCount := frameCount + 1;
      return false;
    }
  }

  /** The `sessions` registry. */
  class SessionStore {
    var sessions: map<Token, TSDFSession>

    /** Each entry is its own token's session, and no two tokens share one. */
    ghost predicate Valid()
      reads this, sessions.Values
    {
      && (forall t :: t in sessions ==> sessions[t].token == t)
      && (forall t, u :: t in sessions && u in sessions && t != u ==> sessions[t] != sessions[u])
    }

    /** The registry as a map of session values. */
    function View(): map<Token, Session>
      reads this, sessions.Values
    {
      map t | t in sessions :: sessions[t].State()
    }

    /** The registry at startup: empty. */
    constructor ()
      ensures Valid() && View() == map[]
    {
      sessions := map[];
    }

    /** `get_session`: the session of `token`, created and registered if there is none. */
    method GetSession(token: Token) returns (s: TSDFSession)
      requires Valid()
      modifies this
      ensures Valid()
      ensures token in sessions && s == sessions[token]
      ensures token in old(sessions) ==> sessions == old(sessions)
      ensures token !in old(sessions) ==> fresh(s) && sessions == old(sessions)[token := s]
      ensures View() == Register(old(View()), token)
    {
      if token !in sessions {
        s := new TSDFSession(token);
        sessions := sessions[token := s];
        assert View() == old(View())[token := NewSession(token)];
      } else {
        s := sessions[token];
      }
    }

    /** The locked part of `init_session`: create the volume of `token`'s session if absent. */
    method InitializeRegistered(token: Token)
      requires Valid() && token in sessions
      modifies sessions[token]
      ensures Valid() && sessions == old(sessions)
      ensures View() == old(View())[token := EnsureVolume(old(View())[token])]
    {
      var s := sessions[token];
      if s.volume.None? {
        s.InitializeTsdf();
      }
      ViewChangesAt(token);
    }

    /** The `init_session` endpoint. */
    method InitSession(token: Token)
      requires Valid()
      modifies this, sessions.Values
      ensures Valid()
      ensures View() == SessionModel.InitSession(old(View()), token)
    {
      var s := GetSession(token);
      InitializeRegistered(token);
    }

    /**
     * The frame loop of `ingest_chunk` on session `s`, in list order; each
     * frame either reaches `integrate_frame` and is processed when it returns
     * normally, or counts as failed and the loop goes on.
     */
    static method ProcessFrames(s: TSDFSession, chunk: Chunk, ids: seq<FrameId>) returns (processed: nat, failed: nat)
      modifies s
      ensures Tally(s.State(), processed, failed) == RunFrames(old(s.State()), chunk, ids)
    {
      processed, failed := 0, 0;
      for i := 0 to |ids|
        invariant Tally(s.State(), processed, failed) == RunFrames(old(s.State()), chunk, ids[..i])
      {
        var id := ids[i];
        assert ids[..i + 1][..i] == ids[..i];
        var files := FilesOf(chunk, id);
        if !files.hasRgb {
          failed := failed + 1;
          continue;
        }
        if !files.hasDepth {
          failed := failed + 1;
          continue;
        }
        if !files.hasMeta {
          failed := failed + 1;
          continue;
        }
        // loading, the intrinsic and the pose raise inside the per-frame try
        if !files.decodes || CreateIntrinsic(files.meta, true).Failure? || !files.poseInvertible {
          failed := failed + 1;
          continue;
        }
        var raised := s.IntegrateFrame(id, files.integrates);
        if raised {
          failed := failed + 1;
        } else {
          processed := processed + 1;
        }
      }
      assert ids[..|ids|] == ids;
    }

    /**
     * When only the session of `token` has changed, the registry's view
     * changes at `token` only.
     */
    twostate lemma ViewChangesAt(token: Token)
      requires old(Valid()) && token in old(sessions) && sessions == old(sessions)
      requires forall t :: t in sessions && t != token ==> unchanged(sessions[t])
      ensures Valid()
      ensures View() == old(View())[token := sessions[token].State()]
    {
    }

    /**
     * The locked part of `ingest_chunk` for a non-empty frame list on the
     * registered session of `token`: the frame loop, the chunk counter, and
     * the best-effort preview.
     */
    method IntegrateChunk(token: Token, c: Chunk, ids: seq<FrameId>, previewOk: bool)
      returns (reply: Result<IngestReply, ServiceError>, previewWritten: bool)
      requires Valid() && token in sessions
      modifies sessions[token]
      ensures Valid() && sessions == old(sessions)
      ensures var t := RunFrames(old(View())[token], c, ids);
        var after := t.session.(chunkCount := t.session.chunkCount + 1);
        && View() == old(View())[token := after]
        && reply == Success(ChunkProcessed(t.processed, t.failed, after.frameCount))
        && previewWritten == (after.volume.Some? && previewOk)
    {
      var s := sessions[token];
      var processed, failed := ProcessFrames(s, c, ids);
      s.chunkCount := s.chunkCount + 1;
      previewWritten := s.volume.Some? && previewOk;
      reply := Success(ChunkProcessed(processed, failed, s.frameCount));
      ViewChangesAt(token);
    }

    /**
     * The `ingest_chunk` endpoint. `chunk` is None when the chunk path does not
     * exist; `previewOk` is whether extracting and writing the preview mesh
     * succeeds; `previewWritten` reports that it was written.
     */
    method IngestChunk(token: Token, chunk: Option<Chunk>, previewOk: bool)
      returns (reply: Result<IngestReply, ServiceError>, previewWritten: bool)
      requires Valid()
      modifies this, sessions.Values
      ensures Valid()
      ensures IngestOutcome(View(), reply, previewWritten) == SessionModel.IngestChunk(old(View()), token, chunk, previewOk)
    {
      if chunk.None? {
        return Failure(ChunkPathMissing), false;
      }
      var c := chunk.value;
      var s := GetSession(token);
      reply, previewWritten := IngestRegistered(token, c, previewOk, old(View()));
    }

    /**
     * `ingest_chunk` after `get_session` has registered `token`, the registry
     * having been `store` before: the index checks and, for a non-empty frame
     * list, the locked part.
     */
    method IngestRegistered(token: Token, c: Chunk, previewOk: bool, ghost store: map<Token, Session>)
      returns (reply: Result<IngestReply, ServiceError>, previewWritten: bool)
      requires Valid() && token in sessions && View() == Register(store, token)
      modifies sessions[token]
      ensures Valid() && sessions == old(sessions)
      ensures IngestOutcome(View(), reply, previewWritten) == SessionModel.IngestChunk(store, token, Some(c), previewOk)
    {
      if c.index.NoIndexFile? {
        return Failure(IndexMissing), false;
      }
      if c.index.UnparsableIndex? || c.index.IndexScalar? {
        return Failure(InternalError), false;
      }
      var ids := FrameIds(c.index);
      if ids == [] {
        return Success(NothingToProcess), false;
      }
      IngestNonEmpty(store, token, c, previewOk);
      reply, previewWritten := IntegrateChunk(token, c, ids, previewOk);
    }

    /**
     * The `finalize` endpoint. `extraction` is the mesh extraction's outcome
     * (None when it raises) and `writeOk` whether the PLY file is written.
     */
    method Finalize(token: Token, extraction: Option<MeshStats>, writeOk: bool)
      returns (reply: Result<FinalizeReply, ServiceError>)
      requires Valid()
      modifies this
      ensures Valid()
      ensures (View(), reply) == SessionModel.Finalize(old(View()), token, extraction, writeOk)
    {
      var s := GetSession(token);
      if s.volume.None? {
        return Failure(NotInitialized);
      }
      if extraction.None? {
        return Failure(InternalError);
      }
      if !writeOk {
        return Failure(WriteFailed);
      }
      return Success(FinalizeReply(extraction.value.vertices, extraction.value.triangles, s.frameCount));
    }
  }
}
