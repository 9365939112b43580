/**
 * The per-token session state machine of the TSDF worker (worker/app.py),
 * as functions on values. The Open3D volume is opaque: it is represented by
 * its construction parameters and the ordered ids of the frames whose
 * `integrate` call returned normally. Each frame's fate (files present,
 * decoding, pose, integrate) is an input.
 */
module SessionModel {
  import opened Wrappers
  import opened Intrinsics

  type Token = string
  type FrameId = string

  /** Construction parameters of every volume (worker/app.py, `TSDFSession.__init__`). */
  const VOXEL_LENGTH: real := 0.02
  const SDF_TRUNC: real := 0.08
  const VOLUME_UNIT_RESOLUTION: nat := 16
  const DEPTH_SAMPLING_STRIDE: nat := 1

  datatype ColorType = RGB8

  /** A ScalableTSDFVolume: its parameters and the frames fused into it, in order. */
  datatype Volume = Volume(
    voxelLength: real,
    sdfTrunc: real,
    colorType: ColorType,
    unitResolution: nat,
    samplingStride: nat,
    fused: seq<FrameId>)

  /** The volume `initialize_tsdf` creates. */
  function NewVolume(): Volume
  {
    Volume(VOXEL_LENGTH, SDF_TRUNC, RGB8, VOLUME_UNIT_RESOLUTION, DEPTH_SAMPLING_STRIDE, [])
  }

  /** A volume created by `initialize_tsdf`, whatever it has fused since. */
  predicate StandardParameters(v: Volume)
  {
    v.(fused := []) == NewVolume()
  }

  /** The state of one `TSDFSession`. */
  datatype Session = Session(token: Token, volume: Option<Volume>, frameCount: nat, chunkCount: nat)

  /** A session as `TSDFSession(token)` creates it. */
  function NewSession(token: Token): (s: Session)
    ensures s.token == token && s.volume.None?
    ensures s.frameCount == 0 && s.chunkCount == 0
    ensures Consistent(s)
  {
    Session(token, None, 0, 0)
  }

  /** The frames a session's volume has fused, none when there is no volume. */
  function Fused(s: Session): seq<FrameId>
  {
    if s.volume.Some? then s.volume.value.fused else []
  }

  /**
   * The session invariant: `frame_count` counts exactly the frames the volume
   * has fused, and a volume, once there, has the standard parameters.
   */
  predicate Consistent(s: Session)
  {
    && s.frameCount == |Fused(s)|
    && (s.volume.Some? ==> StandardParameters(s.volume.value))
  }

  /** `initialize_tsdf` guarded as its callers guard it: create the volume if absent. */
  function EnsureVolume(s: Session): (r: Session)
    ensures r.volume.Some?
    ensures s.volume.Some? ==> r == s
    ensures s.volume.None? ==> r == s.(volume := Some(NewVolume()))
    ensures r.token == s.token && r.frameCount == s.frameCount && r.chunkCount == s.chunkCount
    ensures Consistent(s) ==> Consistent(r)
  {
    if s.volume.Some? then s else s.(volume := Some(NewVolume()))
  }

  /** Guarded creation is idempotent: a second call changes nothing. */
  lemma EnsureVolumeIdempotent(s: Session)
    ensures EnsureVolume(EnsureVolume(s)) == EnsureVolume(s)
  {
  }

  /**
   * `integrate_frame`: create the volume if absent, then integrate; when the
   * integrate call returns normally (`integrates`) the frame is fused and
   * `frame_count` goes up by one, when it raises nothing further changes.
   */
  function IntegrateFrame(s: Session, id: FrameId, integrates: bool): (r: Session)
    ensures r.volume.Some? && r.token == s.token && r.chunkCount == s.chunkCount
    ensures r.frameCount == if integrates then s.frameCount + 1 else s.frameCount
    ensures Fused(r) == if integrates then Fused(s) + [id] else Fused(s)
    ensures s.volume.Some? ==> r.volume.value.(fused := []) == s.volume.value.(fused := [])
    ensures Consistent(s) ==> Consistent(r)
  {
    var e := EnsureVolume(s);
    var v := e.volume.value;
    if integrates then e.(volume := Some(v.(fused := v.fused + [id])), frameCount := e.frameCount + 1)
    else e
  }

  // ---------------------------------------------------------------------------
  // Chunks on disk, abstracted

  /**
   * What the chunk directory holds for one frame id: whether each of the
   * three files exists, whether they load (meta JSON, depth PNG, colour JPEG
   * and the RGBD image built from them), the parsed metadata, whether
   * `T_wc` is present and invertible, and whether Open3D's integrate call
   * returns normally for this frame.
   */
  datatype FrameFiles = FrameFiles(
    hasRgb: bool,
    hasDepth: bool,
    hasMeta: bool,
    decodes: bool,
    meta: Meta,
    poseInvertible: bool,
    integrates: bool)

  /** A frame id none of whose files exist. */
  const NO_FILES := FrameFiles(false, false, false, false, EMPTY_META, false, false)

  /** The parsed `index.json` of a chunk, or why there is none. */
  datatype IndexFile =
    | NoIndexFile                                  // index.json does not exist
    | UnparsableIndex                              // json.load raises
    | IndexList(ids: seq<FrameId>)                 // a JSON list of frame ids
    | IndexObject(fields: map<string, seq<FrameId>>) // a JSON object
    | IndexScalar                                  // any other JSON value

  /** An existing chunk directory. */
  datatype Chunk = Chunk(index: IndexFile, frames: map<FrameId, FrameFiles>)

  function FilesOf(chunk: Chunk, id: FrameId): FrameFiles
  {
    if id in chunk.frames then chunk.frames[id] else NO_FILES
  }

  /** The frame ids of a list index as they are, of an object index its `frames` entry, default empty. */
  function FrameIds(index: IndexFile): (ids: seq<FrameId>)
    requires index.IndexList? || index.IndexObject?
    ensures index.IndexList? ==> ids == index.ids
    ensures index.IndexObject? && "frames" in index.fields ==> ids == index.fields["frames"]
    ensures index.IndexObject? && "frames" !in index.fields ==> ids == []
  {
    match index
    case IndexList(ids) => ids
    case IndexObject(fields) => if "frames" in fields then fields["frames"] else []
  }

  /**
   * True when processing of `id` gets as far as `integrate_frame`: all three
   * files exist, they load, the intrinsic can be built at depth size and the
   * pose can be inverted.
   */
  predicate ReachesIntegrate(chunk: Chunk, id: FrameId)
  {
    var f := FilesOf(chunk, id);
    && f.hasRgb && f.hasDepth && f.hasMeta
    && f.decodes
    && CreateIntrinsic(f.meta, true).Success?
    && f.poseInvertible
  }

  /** True when frame `id` counts as processed: it reaches integrate and integrate returns. */
  predicate Processed(chunk: Chunk, id: FrameId)
  {
    ReachesIntegrate(chunk, id) && FilesOf(chunk, id).integrates
  }

  /** One pass of the frame loop: the new session and whether the frame was processed. */
  function StepFrame(s: Session, chunk: Chunk, id: FrameId): (r: (Session, bool))
    ensures r.1 == Processed(chunk, id)
    ensures !ReachesIntegrate(chunk, id) ==> r.0 == s
  {
    if !ReachesIntegrate(chunk, id) then (s, false)
    else
      var ok := FilesOf(chunk, id).integrates;
      (IntegrateFrame(s, id, ok), ok)
  }

  /** The loop's state: the session and the `frames_processed`/`frames_failed` counters. */
  datatype Tally = Tally(session: Session, processed: nat, failed: nat)

  /** The frame loop of `ingest_chunk` over `ids`, in list order, from session `s`. */
  function RunFrames(s: Session, chunk: Chunk, ids: seq<FrameId>): (r: Tally)
    ensures r.processed + r.failed == |ids|
    ensures r.session.token == s.token && r.session.chunkCount == s.chunkCount
    ensures s.volume.Some? ==> r.session.volume.Some?
    decreases |ids|
  {
    if ids == [] then Tally(s, 0, 0)
    else
      var t := RunFrames(s, chunk, ids[..|ids| - 1]);
      var (s', ok) := StepFrame(t.session, chunk, ids[|ids| - 1]);
      if ok then Tally(s', t.processed + 1, t.failed) else Tally(s', t.processed, t.failed + 1)
  }

  /** The ids among `ids` that are processed, in their order. */
  function ProcessedIds(chunk: Chunk, ids: seq<FrameId>): (r: seq<FrameId>)
    ensures |r| <= |ids|
    ensures forall id :: id in r ==> id in ids && Processed(chunk, id)
    decreases |ids|
  {
    if ids == [] then []
    else
      var rest := ProcessedIds(chunk, ids[..|ids| - 1]);
      if Processed(chunk, ids[|ids| - 1]) then rest + [ids[|ids| - 1]] else rest
  }

  /** True when some frame of `ids` reaches `integrate_frame` (and so creates the volume). */
  predicate SomeReachesIntegrate(chunk: Chunk, ids: seq<FrameId>)
  {
    exists i :: 0 <= i < |ids| && ReachesIntegrate(chunk, ids[i])
  }

  /** The last pass of the loop over a non-empty `ids`, in terms of the passes before it. */
  lemma LastStep(s: Session, chunk: Chunk, ids: seq<FrameId>)
    requires ids != []
    ensures var init, last := ids[..|ids| - 1], ids[|ids| - 1];
      var t, t' := RunFrames(s, chunk, init), RunFrames(s, chunk, ids);
      && t'.session == StepFrame(t.session, chunk, last).0
      && t'.processed == t.processed + (if Processed(chunk, last) then 1 else 0)
      && t'.failed == t.failed + (if Processed(chunk, last) then 0 else 1)
      && ProcessedIds(chunk, ids) == ProcessedIds(chunk, init) + (if Processed(chunk, last) then [last] else [])
  {
  }

  /**
   * Counter accounting of the frame loop: `frame_count` grows by exactly the
   * processed frames, and exactly the processed frames are fused after what
   * was fused before (earlier successes are never undone).
   */
  lemma {:induction false} RunFramesAccounting(s: Session, chunk: Chunk, ids: seq<FrameId>)
    ensures var t := RunFrames(s, chunk, ids);
      && t.processed == |ProcessedIds(chunk, ids)|
      && t.session.frameCount == s.frameCount + t.processed
      && Fused(t.session) == Fused(s) + ProcessedIds(chunk, ids)
    decreases |ids|
  {
    if ids != [] {
      RunFramesAccounting(s, chunk, ids[..|ids| - 1]);
      LastStep(s, chunk, ids);
    }
  }

  /** After the loop a volume exists exactly when one existed or some frame reached integrate. */
  lemma {:induction false} RunFramesVolume(s: Session, chunk: Chunk, ids: seq<FrameId>)
    ensures RunFrames(s, chunk, ids).session.volume.Some? <==> s.volume.Some? || SomeReachesIntegrate(chunk, ids)
    decreases |ids|
  {
    if ids != [] {
      var init, last := ids[..|ids| - 1], ids[|ids| - 1];
      RunFramesVolume(s, chunk, init);
      LastStep(s, chunk, ids);
      if SomeReachesIntegrate(chunk, init) {
        var i :| 0 <= i < |init| && ReachesIntegrate(chunk, init[i]);
        assert ids[i] == init[i];
      }
      if SomeReachesIntegrate(chunk, ids) && !ReachesIntegrate(chunk, last) {
        var i :| 0 <= i < |ids| && ReachesIntegrate(chunk, ids[i]);
        assert i < |init| && init[i] == ids[i];
      }
    }
  }

  /** The loop keeps the session invariant. */
  lemma {:induction false} RunFramesConsistent(s: Session, chunk: Chunk, ids: seq<FrameId>)
    requires Consistent(s)
    ensures Consistent(RunFrames(s, chunk, ids).session)
    decreases |ids|
  {
    if ids != [] {
      RunFramesConsistent(s, chunk, ids[..|ids| - 1]);
      LastStep(s, chunk, ids);
    }
  }

  /**
   * Failure isolation: running the loop over `a + b` is running it over `a`
   * and then, from wherever that left the session, over `b`; what happens to
   * the frames of `b` depends on those of `a` only through the session, and
   * the counters add up.
   */
  lemma {:induction false} RunFramesAppend(s: Session, chunk: Chunk, a: seq<FrameId>, b: seq<FrameId>)
    ensures var ta := RunFrames(s, chunk, a);
      var tb := RunFrames(ta.session, chunk, b);
      RunFrames(s, chunk, a + b) == Tally(tb.session, ta.processed + tb.processed, ta.failed + tb.failed)
    decreases |b|
  {
    if b == [] {
      assert a + b == a;
    } else {
      var b' := b[..|b| - 1];
      assert (a + b)[..|a + b| - 1] == a + b';
      assert (a + b)[|a + b| - 1] == b[|b| - 1];
      RunFramesAppend(s, chunk, a, b');
    }
  }

  /**
   * A frame that fails before `integrate_frame` leaves the session exactly as
   * it was; one whose integrate raises leaves at most a freshly created volume.
   */
  lemma FailedFrameChangesOnlyVolumeCreation(s: Session, chunk: Chunk, id: FrameId)
    requires !Processed(chunk, id)
    ensures var t := RunFrames(s, chunk, [id]);
      && t == Tally(t.session, 0, 1)
      && (!ReachesIntegrate(chunk, id) ==> t.session == s)
      && (ReachesIntegrate(chunk, id) ==> t.session == EnsureVolume(s))
  {
    assert [id][..0] == [];
  }

  // ---------------------------------------------------------------------------
  // The session registry and the three endpoints

  /** `get_session`: the registry with an entry for `token`, created only if absent. */
  function Register(store: map<Token, Session>, token: Token): (r: map<Token, Session>)
    ensures token in r && r.Keys == store.Keys + {token}
    ensures token in store ==> r == store
    ensures token !in store ==> r[token] == NewSession(token)
    ensures forall t :: t in store ==> r[t] == store[t]
  {
    if token in store then store else store[token := NewSession(token)]
  }

  /** Registering the same token a second time changes nothing. */
  lemma RegisterIdempotent(store: map<Token, Session>, token: Token)
    ensures Register(Register(store, token), token) == Register(store, token)
  {
  }

  /** Every entry is the session of its own token, and keeps the session invariant. */
  predicate StoreConsistent(store: map<Token, Session>)
  {
    forall t :: t in store ==> store[t].token == t && Consistent(store[t])
  }

  lemma RegisterConsistent(store: map<Token, Session>, token: Token)
    requires StoreConsistent(store)
    ensures StoreConsistent(Register(store, token))
  {
  }

  /** `init_session`: register the token and create its volume if absent. */
  function InitSession(store: map<Token, Session>, token: Token): (r: map<Token, Session>)
    ensures token in r && r.Keys == store.Keys + {token}
    ensures r[token].volume.Some?
    ensures forall t :: t in store && t != token ==> r[t] == store[t]
  {
    var reg := Register(store, token);
    reg[token := EnsureVolume(reg[token])]
  }

  /**
   * `init_session` keeps an existing volume and leaves the counters
   * untouched, a second call changes nothing, and the invariant is kept.
   */
  lemma InitSessionProperties(store: map<Token, Session>, token: Token)
    ensures var r := InitSession(store, token);
      && r[token].frameCount == Register(store, token)[token].frameCount
      && r[token].chunkCount == Register(store, token)[token].chunkCount
      && (token in store && store[token].volume.Some? ==> r == store)
      && InitSession(r, token) == r
      && (StoreConsistent(store) ==> StoreConsistent(r))
  {
  }

  /** The errors the endpoints report, with the HTTP status each is raised as. */
  datatype ServiceError =
    | ChunkPathMissing   // 404: the chunk directory does not exist
    | IndexMissing       // 400: index.json not found in the chunk
    | NotInitialized     // 400: finalize before any volume exists
    | InternalError      // 500: any other exception in the endpoint body
    | WriteFailed        // 500: the PLY writer reported failure
  {
    function Status(): int
    {
      match this
      case ChunkPathMissing => 404
      case IndexMissing => 400
      case NotInitialized => 400
      case InternalError => 500
      case WriteFailed => 500
    }
  }

  /** The two shapes of a successful `ingest_chunk` reply. */
  datatype IngestReply =
    | NothingToProcess    // an empty frame list: `frames_processed` 0, no other counts
    | ChunkProcessed(framesProcessed: nat, framesFailed: nat, totalFrames: nat)

  /** The registry after a chunk, the reply, and whether the preview mesh was written. */
  datatype IngestOutcome = IngestOutcome(
    store: map<Token, Session>,
    reply: Result<IngestReply, ServiceError>,
    previewWritten: bool)

  /**
   * `ingest_chunk(token, chunk)`. `chunk` is `None` when the chunk path does
   * not exist; `previewOk` says whether the preview extraction and write after
   * the loop succeed when a volume exists.
   */
  function IngestChunk(store: map<Token, Session>, token: Token, chunk: Option<Chunk>, previewOk: bool): (r: IngestOutcome)
    ensures chunk.None? ==> r == IngestOutcome(store, Failure(ChunkPathMissing), false)
    ensures chunk.Some? ==> token in r.store && r.store.Keys == store.Keys + {token}
    ensures r.reply.Failure? <==>
      chunk.None? || chunk.value.index.NoIndexFile? || chunk.value.index.UnparsableIndex? || chunk.value.index.IndexScalar?
    ensures chunk.Some? && r.reply.Failure? ==> r.store == Register(store, token) && !r.previewWritten
    ensures r.previewWritten ==> previewOk && token in r.store && r.store[token].volume.Some?
  {
    if chunk.None? then IngestOutcome(store, Failure(ChunkPathMissing), false)
    else
      var reg := Register(store, token);
      var c := chunk.value;
      match c.index
      case NoIndexFile => IngestOutcome(reg, Failure(IndexMissing), false)
      case UnparsableIndex => IngestOutcome(reg, Failure(InternalError), false)
      case IndexScalar => IngestOutcome(reg, Failure(InternalError), false)
      case _ =>
        var ids := FrameIds(c.index);
        if ids == [] then IngestOutcome(reg, Success(NothingToProcess), false)
        else
          var t := RunFrames(reg[token], c, ids);
          var s := t.session.(chunkCount := t.session.chunkCount + 1);
          IngestOutcome(reg[token := s], Success(ChunkProcessed(t.processed, t.failed, s.frameCount)), s.volume.Some? && previewOk)
  }

  /** `ingest_chunk` on a non-empty frame list, unfolded. */
  lemma IngestNonEmpty(store: map<Token, Session>, token: Token, c: Chunk, previewOk: bool)
    requires c.index.IndexList? || c.index.IndexObject?
    requires FrameIds(c.index) != []
    ensures var reg := Register(store, token);
      var t := RunFrames(reg[token], c, FrameIds(c.index));
      var s := t.session.(chunkCount := t.session.chunkCount + 1);
      IngestChunk(store, token, Some(c), previewOk) ==
        IngestOutcome(reg[token := s], Success(ChunkProcessed(t.processed, t.failed, s.frameCount)), s.volume.Some? && previewOk)
  {
  }

  /**
   * For a non-empty frame list: processed and failed add up to the list's
   * length, `frame_count` grows by exactly the processed frames, `chunk_count`
   * by exactly one, the reply's total is the session's new `frame_count`, the
   * fused frames are extended by exactly the processed ones, and no other
   * entry changes.
   */
  lemma {:induction false} IngestAccounting(store: map<Token, Session>, token: Token, c: Chunk, previewOk: bool)
    requires c.index.IndexList? || c.index.IndexObject?
    requires FrameIds(c.index) != []
    ensures var before := Register(store, token)[token];
      var ids := FrameIds(c.index);
      var out := IngestChunk(store, token, Some(c), previewOk);
      && out.reply.Success? && out.reply.value.ChunkProcessed?
      && var reply := out.reply.value;
      && token in out.store && out.store.Keys == store.Keys + {token}
      && reply.framesProcessed + reply.framesFailed == |ids|
      && reply.framesProcessed == |ProcessedIds(c, ids)|
      && out.store[token].frameCount == before.frameCount + reply.framesProcessed
      && out.store[token].chunkCount == before.chunkCount + 1
      && reply.totalFrames == out.store[token].frameCount
      && Fused(out.store[token]) == Fused(before) + ProcessedIds(c, ids)
      && (forall t :: t in store && t != token ==> out.store[t] == store[t])
  {
    var before := Register(store, token)[token];
    RunFramesAccounting(before, c, FrameIds(c.index));
  }

  /** An empty frame list returns early: the token is registered and nothing else happens. */
  lemma IngestEmptyChunk(store: map<Token, Session>, token: Token, c: Chunk, previewOk: bool)
    requires c.index.IndexList? || c.index.IndexObject?
    requires FrameIds(c.index) == []
    ensures IngestChunk(store, token, Some(c), previewOk) ==
      IngestOutcome(Register(store, token), Success(NothingToProcess), false)
  {
  }

  /** A missing chunk directory is rejected before the token is registered. */
  lemma IngestMissingChunk(store: map<Token, Session>, token: Token, previewOk: bool)
    ensures var out := IngestChunk(store, token, None, previewOk);
      out.store == store && out.reply == Failure(ChunkPathMissing) && out.reply.error.Status() == 404
  {
  }

  /**
   * The preview after the loop is best effort: whether it succeeds never
   * changes the reply or the registry, and it is written only when a volume
   * exists and the extraction succeeds.
   */
  lemma PreviewIsBestEffort(store: map<Token, Session>, token: Token, chunk: Option<Chunk>)
    ensures var ok, bad := IngestChunk(store, token, chunk, true), IngestChunk(store, token, chunk, false);
      && ok.store == bad.store && ok.reply == bad.reply
      && !bad.previewWritten
      && (ok.previewWritten ==> token in ok.store && ok.store[token].volume.Some?)
  {
  }

  /**
   * When every frame of a chunk fails before integrate on a session without a
   * volume, the reply still reports the whole chunk as failed, the chunk is
   * counted, and no volume (and so no preview) comes into being.
   */
  lemma {:induction false} AllFailOnFreshSession(store: map<Token, Session>, token: Token, c: Chunk, previewOk: bool)
    requires c.index.IndexList? || c.index.IndexObject?
    requires FrameIds(c.index) != []
    requires token !in store
    requires forall i :: 0 <= i < |FrameIds(c.index)| ==> !ReachesIntegrate(c, FrameIds(c.index)[i])
    ensures var out := IngestChunk(store, token, Some(c), previewOk);
      && out.reply == Success(ChunkProcessed(0, |FrameIds(c.index)|, 0))
      && out.store[token] == Session(token, None, 0, 1)
      && !out.previewWritten
  {
    var ids := FrameIds(c.index);
    RunFramesAccounting(NewSession(token), c, ids);
    RunFramesVolume(NewSession(token), c, ids);
  }

  /** `ingest_chunk` keeps every entry's invariant. */
  lemma {:induction false} IngestConsistent(store: map<Token, Session>, token: Token, chunk: Option<Chunk>, previewOk: bool)
    requires StoreConsistent(store)
    ensures StoreConsistent(IngestChunk(store, token, chunk, previewOk).store)
  {
    RegisterConsistent(store, token);
    if chunk.Some? && (chunk.value.index.IndexList? || chunk.value.index.IndexObject?) && FrameIds(chunk.value.index) != [] {
      IngestNonEmptyConsistent(store, token, chunk.value, previewOk);
    }
  }

  /** The non-empty case of `IngestConsistent`: the frame loop and the chunk counter keep the invariant. */
  lemma IngestNonEmptyConsistent(store: map<Token, Session>, token: Token, c: Chunk, previewOk: bool)
    requires StoreConsistent(store)
    requires c.index.IndexList? || c.index.IndexObject?
    requires FrameIds(c.index) != []
    ensures StoreConsistent(IngestChunk(store, token, Some(c), previewOk).store)
  {
    var reg, ids := Register(store, token), FrameIds(c.index);
    RegisterConsistent(store, token);
    IngestNonEmpty(store, token, c, previewOk);
    RunFramesAccounting(reg[token], c, ids);
    RunFramesConsistent(reg[token], c, ids);
    var t := RunFrames(reg[token], c, ids);
    assert Consistent(t.session.(chunkCount := t.session.chunkCount + 1));
  }

  /** Mesh statistics of an extraction. */
  datatype MeshStats = MeshStats(vertices: nat, triangles: nat)

  /** A successful `finalize` reply. */
  datatype FinalizeReply = FinalizeReply(vertices: nat, triangles: nat, totalFrames: nat)

  /**
   * `finalize(token)`: registers the token, then fails with NotInitialized when
   * there is no volume; otherwise `extraction` is the outcome of extracting the
   * mesh (None when it raises) and `writeOk` that of writing the PLY file.
   */
  function Finalize(store: map<Token, Session>, token: Token, extraction: Option<MeshStats>, writeOk: bool): (r: (map<Token, Session>, Result<FinalizeReply, ServiceError>))
    ensures r.0 == Register(store, token)
    ensures r.1 == Failure(NotInitialized) <==> r.0[token].volume.None?
    ensures r.1.Success? ==> r.1.value.totalFrames == r.0[token].frameCount
  {
    var reg := Register(store, token);
    var s := reg[token];
    if s.volume.None? then (reg, Failure(NotInitialized))
    else if extraction.None? then (reg, Failure(InternalError))
    else if !writeOk then (reg, Failure(WriteFailed))
    else (reg, Success(FinalizeReply(extraction.value.vertices, extraction.value.triangles, s.frameCount)))
  }

  /**
   * `finalize` succeeds exactly when there is a volume and both extraction
   * and write succeed, and on an unseen token it registers a new session and
   * rejects it.
   */
  lemma FinalizeProperties(store: map<Token, Session>, token: Token, extraction: Option<MeshStats>, writeOk: bool)
    ensures var (after, reply) := Finalize(store, token, extraction, writeOk);
      && (reply.Success? <==> after[token].volume.Some? && extraction.Some? && writeOk)
      && (token !in store ==> reply == Failure(NotInitialized) && after[token] == NewSession(token))
  {
  }

  /** A token never seen before cannot be finalized. */
  lemma FinalizeUnseenToken(store: map<Token, Session>, token: Token, extraction: Option<MeshStats>, writeOk: bool)
    requires token !in store
    ensures Finalize(store, token, extraction, writeOk).1.Failure?
    ensures Finalize(store, token, extraction, writeOk).1.error.Status() == 400
  {
  }

  /**
   * Finalize does not end the session: after a successful finalize, a further
   * chunk is integrated as if finalize had not run.
   */
  lemma FinalizeThenIngest(store: map<Token, Session>, token: Token, extraction: Option<MeshStats>, writeOk: bool, chunk: Option<Chunk>, previewOk: bool)
    requires chunk.Some?
    ensures var after := Finalize(store, token, extraction, writeOk).0;
      IngestChunk(after, token, chunk, previewOk) == IngestChunk(store, token, chunk, previewOk)
  {
  }
}
