# TSDF worker session state machine

A Dafny model of the per-token session logic of the room-scan TSDF worker
(`worker/app.py`). The worker is a small HTTP service: a client uploads
chunks of posed RGB-D frames under a session token. The worker fuses each
frame into an Open3D `ScalableTSDFVolume` kept for that token, and on
request extracts a triangle mesh from it. All the geometry is done by Open3D.
What the worker implements itself, and what this model covers, is:

- the process-wide `sessions` registry, an idempotent get-or-create map
  from token to session (`get_session`);
- the `TSDFSession` object: a lazily created volume, `frame_count` and
  `chunk_count`, with `initialize_tsdf` and `integrate_frame`;
- the state logic of the three endpoints `init_session`, `ingest_chunk`
  (the per-frame loop with failure isolation, the counters, the best-effort
  preview) and `finalize` (rejects a session without a volume);
- `create_intrinsic_from_meta`, the choice between `K_depth`, `K_color`
  rescaled to the depth resolution, and raw `K_color`, over reals. A
  matrix written in JSON with integers only is an integer array, and a
  scaled entry stored back into it is truncated toward zero.

The Open3D volume is opaque. It is represented by its construction
parameters (voxel length 0.02, truncation 0.08, RGB8 colour, unit
resolution 16, sampling stride 1) and by `fused`, the ordered ids of the
frames whose `integrate` call returned normally. Everything the service
reads from disk is an input. For each frame id, a `FrameFiles` record says
whether the rgb, depth and meta files exist, whether they load, what the
metadata holds, whether the pose can be inverted, and whether Open3D's
integrate call returns. The preview extraction and the PLY write are
boolean inputs.

Files:

- `wrappers.dfy`: `Option` and `Result`.
- `intrinsics.dfy`: module `Intrinsics`, the pure intrinsic construction
  and its properties.
- `session_model.dfy`: module `SessionModel`, the state machine as
  functions on values (`Session`, the registry as a `map`, the frame loop
  `RunFrames`, the endpoints `InitSession`, `IngestChunk`, `Finalize`), with
  the lemmas that state its properties.
- `worker.dfy`: module `Worker`, the mutable form the source has. Class
  `TSDFSession` has the fields the source updates. Class `SessionStore`
  holds the `sessions` map and the endpoint methods, with the frame loop
  written as a `for` loop. Every method is proved against the
  `SessionModel` functions above.

The session invariant `SessionModel.Consistent`: `frame_count` equals the
number of frames the volume has fused (zero while there is no volume), and
a volume always has the standard parameters. Every endpoint and the frame
loop keep it. `initialize_tsdf` on its own replaces any volume there was,
so it keeps the invariant only on a session without a volume; both of its
callers (`init_session` and `integrate_frame`) call it only then.

Facts about the code that the model follows:

- `finalize` refuses a session only when it has no volume object. It does
  not check whether any frame was integrated. After `init_session`, or
  after a chunk whose frames all raised inside integrate, there is a volume
  even though no frame was fused, and `finalize` goes on to extract.
- Nothing in the code marks an intrinsic built by the `K_color` fallback
  as degraded, so the model has no such flag.
- No endpoint only asks whether a session exists; every endpoint except a
  missing chunk path registers the token through `get_session`.
- The fallback scales `K_color` in place in a copy of its numpy array. When
  the JSON matrix holds integers only, that array is an integer array and
  each scaled entry is truncated toward zero on assignment.

## Model

| member | source | states |
|---|---|---|
| `Intrinsics.CreateIntrinsic` | worker/app.py:121-151 | Depth size with `K_depth` unchanged when both are present. When `K_depth` is absent, the depth-size fallback `ScaledColor`. Colour size with `K_color` unchanged otherwise. It fails exactly when a key the chosen route reads is missing or, on the `K_color` fallback, a colour dimension is zero. |
| `Intrinsics.ScaledColor` | worker/app.py:129-138 | Fails exactly when `K_color` or `colorSize` is missing or a colour dimension is zero, reporting the first of these in that order. Otherwise gives depth size with fx, cx from `K_color` times width/colour width and fy, cy times height/colour height, each stored back into K's array (truncated toward zero for an integer array). |
| `Intrinsics.TruncTowardZero` | worker/app.py:135-138 | A whole number on the side of zero, less than one away from its argument. |
| `Intrinsics.Rescale` | worker/app.py:134-138 | The copy of K has fx and cx scaled by the x ratio and fy and cy by the y ratio, each stored back into an array of K's kind; every other entry is kept. A valid K stays valid, and scaling a valid K by one gives K back. |
| `Intrinsics.RescaleTruncates` | worker/app.py:134-138 | For an integer K each rescaled entry is a whole number less than one from the exact product and no larger in magnitude. |
| `Intrinsics.IntegralFallbackExample` | worker/app.py:129-138 | An integer 500/320/240 `K_color` for 1920x1440 rescaled to 256x192 gives fx = fy = 66, cx = 42, cy = 32, where a floating-point K gives 200/3, 200/3, 128/3, 32. |
| `Intrinsics.FallbackProjectsProportionally` | worker/app.py:129-138 | For a floating-point `K_color`, under the fallback intrinsic a camera-space point lands at its colour-image pixel coordinates times the resolution ratios. The fallback is the colour camera seen at depth resolution. |
| `Intrinsics.FallbackIsIdentityAtColorSize` | worker/app.py:123-141 | When the depth size equals the colour size and neither dimension is zero, the fallback gives exactly the colour-route intrinsic (for a well-formed K, whose integer entries are whole). |
| `Intrinsics.ZeroColorWidthFailsOnlyFallback` | worker/app.py:129-141 | With equal depth and colour sizes of zero width and no `K_depth`, the fallback fails on the zero colour width (the division at line 132) while the colour route returns `K_color` at that size. |
| `Intrinsics.DepthMatrixOverridesColor` | worker/app.py:123-127 | With `depthSize` and `K_depth` present, the result never depends on `K_color` or `colorSize`, and it always succeeds. |
| `Intrinsics.ColorRouteIgnoresDepthKeys` | worker/app.py:139-141 | The colour route never depends on `depthSize` or `K_depth`. |
| `SessionModel.NewSession` | worker/app.py:36-44 | A new session has the given token, no volume, and both counters zero, and satisfies the session invariant. |
| `SessionModel.EnsureVolume` | worker/app.py:176-181 | Afterwards a volume exists. An existing volume is kept as it is; otherwise a fresh empty volume is installed. Token and counters are unchanged and the session invariant is kept. |
| `SessionModel.EnsureVolumeIdempotent` | worker/app.py:176-181 | A second guarded creation changes nothing. |
| `SessionModel.IntegrateFrame` | worker/app.py:58-66 | Afterwards a volume exists. `frame_count` grows by exactly one, and the frame is appended to the fused frames, exactly when integrate returns normally. When integrate raises, only volume creation may have happened. The volume's parameters and `chunk_count` are unchanged, and the session invariant is kept. |
| `SessionModel.FrameIds` | worker/app.py:211-215 | A list index is used as it is. An object index gives its `frames` entry, or nothing when the key is absent. |
| `SessionModel.StepFrame` | worker/app.py:228-283 | One frame counts as processed exactly when it reaches integrate and integrate returns. A frame that fails before `integrate_frame` leaves the session unchanged. |
| `SessionModel.RunFrames` | worker/app.py:223-283 | After the loop, processed plus failed equals the number of frames. Token and `chunk_count` are unchanged, and an existing volume stays. |
| `SessionModel.RunFramesAccounting` | worker/app.py:223-283 | `frame_count` grows by exactly the processed count, which is the number of frames that reach integrate and return. The fused frames are the earlier ones followed by exactly the processed ids in list order, so earlier successes are never undone. |
| `SessionModel.RunFramesVolume` | worker/app.py:228-283 | After the loop a volume exists exactly when one existed before or some frame reached `integrate_frame`. |
| `SessionModel.RunFramesConsistent` | worker/app.py:228-283 | The frame loop keeps the session invariant. |
| `SessionModel.RunFramesAppend` | worker/app.py:228-283 | Failure isolation: the loop over `a + b` is the loop over `a`, then the loop over `b` from where `a` left the session, with the counters added. |
| `SessionModel.FailedFrameChangesOnlyVolumeCreation` | worker/app.py:236-283 | A failing frame counts one failure. If it fails before integrate the session is unchanged; if integrate raises, the only change is the volume's creation. |
| `SessionModel.Register` | worker/app.py:72-78 | After `get_session` the token has an entry. The key set grows by at most that token. An existing entry is returned unchanged, a new one is a fresh session, and no other entry changes. |
| `SessionModel.RegisterIdempotent` | worker/app.py:72-78 | A second `get_session` with the same token changes nothing. |
| `SessionModel.RegisterConsistent` | worker/app.py:72-78 | Registration keeps every entry's token and invariant. |
| `SessionModel.InitSession` | worker/app.py:172-190 | Afterwards the token is registered and has a volume; the key set grows by at most that token and no other entry changes. |
| `SessionModel.InitSessionProperties` | worker/app.py:172-190 | An existing volume is kept, and if the session already had one the registry is unchanged. The counters are untouched. A second call changes nothing, and the invariant is kept. |
| `SessionModel.IngestChunk` | worker/app.py:192-315 | A missing chunk path fails with nothing registered. Otherwise the token is registered and the key set grows by at most that token. The reply is a failure exactly for a missing path, a missing index, or an index that does not parse to a list or an object; a failure changes nothing beyond the registration and writes no preview. A preview is written only when the source's preview step succeeds and the session has a volume. |
| `SessionModel.IngestAccounting` | worker/app.py:223-309 | For a non-empty frame list: processed plus failed equals the list length. `frame_count` grows by exactly the processed count and `chunk_count` by exactly one. `total_frames` equals the new `frame_count`. The fused frames grow by exactly the processed ids, and no other entry changes. |
| `SessionModel.IngestEmptyChunk` | worker/app.py:211-219 | An empty frame list returns the early reply with 0 processed. Only the token's registration happens: no volume is created and `chunk_count` is unchanged. |
| `SessionModel.IngestMissingChunk` | worker/app.py:195-200 | A missing chunk path fails with status 404 before `get_session`, so the registry is unchanged. |
| `SessionModel.PreviewIsBestEffort` | worker/app.py:288-301 | Whether preview extraction succeeds never changes the reply or the registry. A preview is written only when the session has a volume. |
| `SessionModel.AllFailOnFreshSession` | worker/app.py:285-301 | On an unseen token whose frames all fail before integrate, the reply is 0 processed, n failed, total 0. The chunk is counted, no volume exists, and no preview is written. |
| `SessionModel.IngestConsistent` | worker/app.py:192-315 | `ingest_chunk` keeps every registry entry's token and session invariant, on every path. |
| `SessionModel.Finalize` | worker/app.py:317-363 | The registry afterwards is `get_session`'s: no session is changed and only an unseen token is added. The NotInitialized rejection happens exactly when the session has no volume, and a success reports the cumulative `frame_count`. |
| `SessionModel.FinalizeProperties` | worker/app.py:317-363 | Success happens exactly when there is a volume and both extraction and write succeed. An unseen token is registered as a new session and rejected. |
| `SessionModel.FinalizeUnseenToken` | worker/app.py:320-325 | `finalize` on a token never seen before fails with status 400. |
| `SessionModel.FinalizeThenIngest` | worker/app.py:317-357 | `finalize` does not close a session: for an existing chunk path, a chunk sent after it gives the same outcome it would have without the finalize. |
| `Worker.TSDFSession.constructor` | worker/app.py:36-44 | The new object's state is `NewSession(token)`; its parameter fields are voxel length 0.02, truncation 0.08 and RGB8. |
| `Worker.TSDFSession.InitializeTsdf` | worker/app.py:46-56 | Installs a new empty volume built from the object's parameter fields, which is the standard volume, and leaves the counters unchanged. On a session without a volume it keeps the session invariant. |
| `Worker.TSDFSession.IntegrateFrame` | worker/app.py:58-66 | The new state is `SessionModel.IntegrateFrame` of the old. It reports `raised` exactly when integrate does not return normally. |
| `Worker.SessionStore.constructor` | worker/app.py:69-70 | The registry starts empty. |
| `Worker.SessionStore.GetSession` | worker/app.py:72-78 | Returns the token's registered object, or a fresh one it registers. The registry's view becomes `Register` of the old view. |
| `Worker.SessionStore.InitializeRegistered` | worker/app.py:177-181 | Only the token's session changes, to `EnsureVolume` of its old state. |
| `Worker.SessionStore.InitSession` | worker/app.py:172-190 | The registry's new view is `SessionModel.InitSession` of the old view. |
| `Worker.SessionStore.ProcessFrames` | worker/app.py:223-283 | The `for` loop over the frame ids ends with the session and counters that `RunFrames` gives. |
| `Worker.SessionStore.IntegrateChunk` | worker/app.py:226-309 | Only the token's session changes, to the loop's result with `chunk_count` plus one. The reply carries the counters and the new `frame_count`. |
| `Worker.SessionStore.IngestChunk` | worker/app.py:192-315 | The new view, the reply and whether the preview was written are exactly `SessionModel.IngestChunk` of the old view. |
| `Worker.SessionStore.IngestRegistered` | worker/app.py:202-315 | After registration, the index checks and the locked part leave only the token's session changed, and give exactly the view, reply and preview outcome of `SessionModel.IngestChunk` on the registry before registration. |
| `Worker.SessionStore.Finalize` | worker/app.py:317-363 | The new view and the reply are exactly `SessionModel.Finalize` of the old view. |

## Left out

- Open3D's `integrate`, `extract_triangle_mesh` and `compute_vertex_normals` are foreign library calls. The volume is opaque: only its parameters and the ordered ids of fused frames are kept. Whether integrate returns, and the mesh statistics extraction yields, are inputs.
- A raising integrate is modelled as leaving the fused frames unchanged. Whether Open3D partly updates the voxels before raising cannot be seen from this code.
- Image and JSON loading (`load_depth_image`, `load_color_image`, `load_meta_json`), the file-existence checks, the depth ×1000 to uint16 conversion and the RGBD image construction are I/O. They become the booleans of `FrameFiles`.
- `get_world_to_camera_transform` is a foreign numeric call (`np.linalg.inv`). Only whether `T_wc` is present and invertible is modelled, as `FrameFiles.poseInvertible`.
- `threading.Lock` and `sessions_lock`: concurrency is not modelled. Each endpoint body runs as if atomic.
- FastAPI routing, the `root` and `health` endpoints, CORS, logging, output directory creation and PLY writing are I/O. The preview's and finalize's extraction-and-write outcomes are inputs. Errors carry their HTTP status, not the detail text.
- An exception raised while constructing the volume in `init_session` (the 500 path of lines 188-190) is not modelled.
- The `volume_size` argument of `initialize_tsdf` is unused by the source and is not modelled.
- Malformed metadata shapes are not modelled: a size that is not a pair, a K that is not 3×3, or an object index whose `frames` entry is not a list. Sizes, matrices and frame-id lists are well-formed values. Frame ids are strings standing for the formatted JSON values.
- Floating-point rounding is not modelled: the scale factors and the scaled entries of a floating-point K are exact reals. The truncation of a scaled entry stored into an integer K array is modelled.
- Intrinsics.FallbackProjectsProportionally: stated for a floating-point `K_color` only. With an integer `K_color` the stored products are truncated, so the proportion holds only up to the bound that `Intrinsics.RescaleTruncates` proves.
- The volume is a value that a method replaces, not an object updated in place. The source never shares a volume between sessions, so no aliasing is lost.
