# wgleng core, modelled in Dafny

wgleng is a small C++ game engine for WebGL 2 (built with Emscripten). It has an entity-component scene, Bullet physics and a forward renderer with cascaded shadow maps. This project models the engine's CPU-side bookkeeping and proves what it computes. GL, Bullet, FreeType, ImGui and the entt registry are replaced by inputs, by recorded call events or by function values.

The modules follow the source files:

- `Batching` and `Renderer` (Renderer.cpp) cover the per-frame instance batcher.
  - The resolver turns mesh components into model matrices, packing the highlight id into cell `[3][3]`.
  - Every view (view 0 is the camera, view 1 + i is shadow cascade i) culls each mesh's matrices into one shared upload buffer. The survivors are cut into batches of at most 256, with the offset padded to the uniform-buffer alignment after every batch. A full alignment is added when the offset is already aligned, so with a 256-byte alignment a second chunk after 256 matrices starts at 260.
  - The model covers the model-buffer sizing in UpdateUniforms and the batched draw loops. It also covers the cached GL setters and `SetSettings` and `ReloadShaders`, which use `RenderSettings` and `RenderDispatch`.
- `FrustumCulling`: plane extraction and the box test, including the overload that takes a model matrix.
- `CsmBuffer`: cascade slicing and light-space box fitting, and the split list with one framebuffer per cascade.
- `Mesh`: material deduplication into the append-only registry list, vertex remapping, bounding box and wireframe indices; the name registry of meshes.
- `ObjPacker` (objpacker/main.cpp): vertex deduplication into an index buffer, flat normals, per-face materials and the wrapped header text. `Decimal` is the decimal text of integers.
- `Text`: the glyph atlas repacking of `LoadFont`, and the `$$` and `$<n>` markup of `DrawableText` as glyph vertices.
- `ShaderProgram`: placeholder substitution, program replacement and the uniform-location cache.
- Smaller state machines:
  - `Highlights`: the colour table;
  - `DebugDraw`: the line buffer;
  - `Actions`: listeners with swap-and-pop close;
  - `KeyMapper`: one-shot builders and all-keys-held firing;
  - `PhysicsWorld`: weak shape caches, body flag bits and ray-test post-processing;
  - `Metrics`: the enable bitmask and the duration accumulators;
  - `SceneEditor` (SceneBuilder.cpp): selection, blinking, delete re-indexing, flag and tag edits, create, clone, play and load.

Objects the source updates in place are classes whose methods state the whole new state. Each loop is a method proved against a recursive specification function. The properties are lemmas about those functions.

## Model

| member | source | states |
|---|---|---|
| Batching.PaddedOffset | src/wgleng/rendering/Renderer.cpp:545-547 | the offset after padding is never below the offset before it |
| Batching.PaddingFacts | src/wgleng/rendering/Renderer.cpp:545-547 | for an alignment that is a positive multiple of 64 bytes, the padded offset is aligned and skips 1 to alignment/64 slots; an offset that was aligned already skips the full alignment/64 |
| Batching.SecondChunkAt260 | src/wgleng/rendering/Renderer.cpp:543-553 | with 256-byte alignment, the batch after a full first batch at 0 starts at slot 260 |
| Batching.Resize | src/wgleng/rendering/Renderer.cpp:548 | `vector::resize`: the new length is n; growing keeps the old contents as a prefix, shrinking keeps the first n |
| Batching.FramePass | src/wgleng/rendering/Renderer.cpp:523-566 | one batch list per view |
| Batching.FeedAll | src/wgleng/rendering/Renderer.cpp:533-555 | after any prefix of a mesh's matrices, the done batches are full chunks of 256 laid out from the start offset, and the done batches plus the open one point at exactly the visible matrices seen so far |
| Batching.MeshPassOut | src/wgleng/rendering/Renderer.cpp:527-565 | one mesh's pass lays out exactly that mesh's visible matrices, in batches of 1 to 256, each followed by its padding; an empty open batch is dropped |
| Batching.OtherMeshKept | src/wgleng/rendering/Renderer.cpp:527-565 | a later mesh's pass leaves what an earlier mesh's batches point at unchanged |
| Batching.ViewAll | src/wgleng/rendering/Renderer.cpp:524-566 | after a whole view, the view's batches are laid out one after the other and belong to meshes of the order, and each mesh's batches point at exactly its visible matrices |
| Batching.FrameAll | src/wgleng/rendering/Renderer.cpp:523-566 | for any number of views, every view's list satisfies the per-view property in the one shared buffer, the batches of all views chain from offset 0, and the buffer ends at the final offset |
| Batching.BatchCounts | src/wgleng/rendering/Renderer.cpp:528-564 | one list per view; every batch has between 1 and 256 instances and a mesh of the iteration order |
| Batching.BatchContents | src/wgleng/rendering/Renderer.cpp:533-538 | the batches of mesh m in view v lie inside the buffer and point at exactly the matrices of m that pass view v's test with the highlight cell cleared, in their original order |
| Batching.ViewTotals | src/wgleng/rendering/Renderer.cpp:533-555 | within one view the instance counts add up to the number of matrices passing its test |
| Batching.NoBatchWithoutVisible | src/wgleng/rendering/Renderer.cpp:556 | a mesh none of whose matrices pass a view's test (or that is not in the order) has no batch in that view |
| Batching.BatchesAligned | src/wgleng/rendering/Renderer.cpp:545-561 | with an alignment that is a positive multiple of 64 bytes, every batch starts at an aligned byte offset and so does the buffer's end |
| Batching.PaddingAfterBatches | src/wgleng/rendering/Renderer.cpp:545-561 | with such an alignment, every batch is followed by 1 to alignment/64 padding slots before the next batch or the buffer's end, and by the full alignment/64 when its end was aligned |
| Batching.BatchesDisjoint | src/wgleng/rendering/Renderer.cpp:523-566 | the slot ranges of all batches, across views, are pairwise disjoint and strictly increasing in view order |
| Batching.ChainedOrdered | src/wgleng/rendering/Renderer.cpp:530-552 | batches laid out one after the other never overlap and appear in increasing slot order, with a gap of at least one slot when the alignment is a multiple of 64 |
| Batching.OfMeshMembers | src/wgleng/rendering/Renderer.cpp:527-529 | selecting the batches of a mesh keeps exactly the batches whose mesh is that mesh |
| Renderer.GatherFacts | src/wgleng/rendering/Renderer.cpp:450-497 | pushing matrices into `meshMatrices` keeps the key order well formed and keeps keys already present in place; a mesh becomes a key iff one of its matrices arrives; each mesh's list gains exactly its matrices, in order |
| Renderer.CollectFacts | src/wgleng/rendering/Renderer.cpp:450-498 | after both component passes each mesh is a key once, and its list holds the matrices the rigid-body pass pushed for it followed by those the transform pass pushed, each in registry order |
| Renderer.ResolvedEntity | src/wgleng/rendering/Renderer.cpp:452-498 | a rigid-body instance ends up not hidden with highlight 0; a transform instance ends up not hidden, with highlight 0 iff it was drawn; a drawn instance's matrix carries its highlight id in cell [3][3]; only the mesh component changes, `hiddenPersistent` never does, and an entity in neither group is untouched |
| Renderer.RigidItemsOfDrawn | src/wgleng/rendering/Renderer.cpp:452-480 | the rigid-body pass pushes exactly the matrices of the drawn rigid-body instances |
| Renderer.TransformItemsOfDrawn | src/wgleng/rendering/Renderer.cpp:481-498 | the transform pass pushes exactly the matrices of the drawn transform instances |
| Renderer.CullingIgnoresHighlight | src/wgleng/rendering/Renderer.cpp:535-537 | a matrix passes a view's test iff its copy with cell [3][3] cleared is visible against that view's six planes |
| Renderer.RenderableState.constructor | src/wgleng/rendering/Renderer.cpp:501-511 | the per-frame batching state starts empty |
| Renderer.ModelUniform.constructor | src/wgleng/rendering/Renderer.h:137 | the model uniform buffer starts with size 0 and no contents, at the device's offset alignment |
| Renderer.DefaultsApplied | src/wgleng/rendering/Renderer.cpp:22 | forcing the default settings reloads every program, keeps the defaults and installs the three-cascade MEDIUM preset |
| Renderer.Renderer.constructor | src/wgleng/rendering/Renderer.cpp:19-32 | a 640x480 viewport, the default settings forced (every program built, three cascade programs, the MEDIUM shadow preset) and an empty GL cache |
| Renderer.Renderer.ResolveMeshes | src/wgleng/rendering/Renderer.cpp:450-498 | every entity is replaced by its resolved form and the collected map is the collection of the registry |
| Renderer.Renderer.RigidPass | src/wgleng/rendering/Renderer.cpp:452-480 | every entity is updated as the rigid-body walk updates it, and the map holds exactly the matrices that walk pushes |
| Renderer.Renderer.RigidEntity | src/wgleng/rendering/Renderer.cpp:453-479 | one entity of the rigid-body walk: only that entity changes, and its matrix (if any) is pushed onto the map |
| Renderer.Renderer.TransformPass | src/wgleng/rendering/Renderer.cpp:481-498 | every entity is updated as the transform walk updates it, and the map continues with exactly the matrices that walk pushes |
| Renderer.Renderer.TransformEntity | src/wgleng/rendering/Renderer.cpp:482-497 | one entity of the transform walk: only that entity changes, and its matrix (if any) is pushed onto the map |
| Renderer.Renderer.UpdateRenderableMeshes | src/wgleng/rendering/Renderer.cpp:446-567 | for any iteration order of `meshMatrices` (each collected mesh listed once), the components are resolved and the upload buffer, `worldBatch` and `csmBatches` are exactly the batching specification run on the collected matrices in that order, view 0 for the camera and 1 + i for cascade i |
| Renderer.Renderer.MakeFrustums | src/wgleng/rendering/Renderer.cpp:514-520 | one frustum for the camera's projection times view, then one per cascade matrix, each with the six planes of its matrix |
| Renderer.Renderer.BatchFrame | src/wgleng/rendering/Renderer.cpp:522-566 | the loop over all views leaves exactly the batching specification's buffer and per-view lists |
| Renderer.Renderer.StoreView | src/wgleng/rendering/Renderer.cpp:503-526 | view 0's batches go to `worldBatch`, view 1 + i's to `csmBatches[i]`, and nothing else changes |
| Renderer.Renderer.BatchView | src/wgleng/rendering/Renderer.cpp:525-565 | one view's loop over the meshes computes the specification's view pass from the running offset |
| Renderer.Renderer.BatchMesh | src/wgleng/rendering/Renderer.cpp:528-564 | one mesh's loop computes the specification's mesh pass |
| Renderer.Renderer.FeedMatrix | src/wgleng/rendering/Renderer.cpp:533-554 | one matrix: culled, appended, and a batch cut when it reaches 256, as the specification's step says |
| Renderer.Renderer.SetFramebuffer | src/wgleng/rendering/Renderer.cpp:304-308 | the framebuffer is bound only when it differs from the cached one; the cache then holds it |
| Renderer.Renderer.SetRenderSize | src/wgleng/rendering/Renderer.cpp:309-314 | the viewport is set only when the size differs from the cached one; the cache then holds it |
| Renderer.Renderer.SetFaceCullingFront | src/wgleng/rendering/Renderer.cpp:315-319 | front-face culling is set only when it is not already on |
| Renderer.Renderer.SetFaceCullingBack | src/wgleng/rendering/Renderer.cpp:320-324 | back-face culling is set only when front culling is on |
| Renderer.Renderer.ShowWireframe | src/wgleng/rendering/Renderer.h:60 | stores the wireframe flag and changes nothing else |
| Renderer.Renderer.ReloadShaders | src/wgleng/rendering/Renderer.cpp:94-259 | nothing for NONE or while shaders are loading; otherwise the selected programs are rebuilt in source order, one cascade program per cascade, and the loading flag is cleared |
| Renderer.Renderer.SetSettings | src/wgleng/rendering/Renderer.cpp:325-360 | the stored settings are the applied ones; the render targets are resized only on a size change; the shadow preset is installed only on a shadow change; the programs the reload mask selects are rebuilt |
| Renderer.Renderer.StoreSettings | src/wgleng/rendering/Renderer.cpp:326-358 | the part before the reload: the returned mask is the reload mask, and settings, targets and shadow maps are updated as above |
| Renderer.Renderer.SetViewportSize | src/wgleng/rendering/Renderer.cpp:34-44 | an unchanged size does nothing; otherwise the size is stored and, with automatic resolution, the settings are applied with the new size: the stored settings become what SetSettings(settings with the new size, false) stores, the render targets are resized exactly when the stored resolution differs, and the shadow maps and programs stay as they were |
| Renderer.Renderer.UpdateUniforms | src/wgleng/rendering/Renderer.cpp:589-610 | the materials are uploaded again only when their count changed; the model buffer grows to the required size plus 256 matrices, both sums in 32 bits, only when it is smaller than the required size, and then holds the upload buffer; when neither sum wraps the buffer is at least the required size |
| Renderer.GrownSizeCovers | src/wgleng/rendering/Renderer.cpp:605-607 | when `(n + 512) * 64` fits 32 bits, the grown buffer holds n matrices plus one 256-matrix range: a large enough buffer is kept, a smaller one becomes exactly `(n + 512) * 64` bytes |
| Renderer.GrownSizeHeadroomWraps | src/wgleng/rendering/Renderer.cpp:605-607 | for 2^26 - 300 matrices and an empty buffer, the required size `2^32 - 2816` fits 32 bits but adding the headroom wraps, so the buffer becomes 13568 bytes, smaller than required |
| Renderer.Renderer.DrawBatches | src/wgleng/rendering/Renderer.cpp:622-656 | the batch loop emits the dispatch events of the batches and counts their vertices and instances |
| Renderer.Renderer.RenderMeshes | src/wgleng/rendering/Renderer.cpp:640-662 | the mesh program, then the camera view's batches drawn as lines in wireframe mode and as triangles otherwise; the totals grow by the triangles and instances drawn |
| Renderer.Renderer.RenderCascade | src/wgleng/rendering/Renderer.cpp:616-632 | cascade i extends the recorded events of cascades 0 to i-1 and leaves its framebuffer bound |
| Renderer.Renderer.RenderShadowMaps | src/wgleng/rendering/Renderer.cpp:612-639 | for each cascade framebuffer: its program, its framebuffer through the cache, a depth clear and its batches as triangles; the totals grow by all cascades' triangles and instances |
| RenderSettings.AllSelectsEverything | src/wgleng/rendering/Renderer.h:44-54 | ALL selects every kind of program, NONE selects none |
| RenderSettings.ReloadMaskFacts | src/wgleng/rendering/Renderer.cpp:326-358 | forcing reloads everything; otherwise FXAA is rebuilt iff its preset changed, the cascade programs iff shadows changed, lighting iff shadows or outlines changed, the others never, and with none of these changed the mask is NONE |
| RenderSettings.Applied | src/wgleng/rendering/Renderer.cpp:327-356 | the presets and the resolution size end up equal to the new ones; the automatic flag is copied only when forced or the size differs |
| RenderSettings.AutomaticAloneNotStored | src/wgleng/rendering/Renderer.cpp:327-329 | a change of the automatic flag alone is not stored |
| RenderSettings.ReapplyIsNoop | src/wgleng/rendering/Renderer.cpp:325-360 | applying the stored settings again without force changes nothing and reloads nothing |
| RenderSettings.ShadowMapPreset | src/wgleng/rendering/Renderer.cpp:340-351 | every preset installs a positive size and 1 to 4 strictly increasing positive cascade splits |
| RenderSettings.DecimalInjective | src/wgleng/rendering/Renderer.cpp:174 | distinct cascade indices print differently |
| RenderSettings.CsmRecipes | src/wgleng/rendering/Renderer.cpp:170-191 | one cascade program per cascade, numbered from 0 |
| RenderSettings.RebuiltAll | src/wgleng/rendering/Renderer.cpp:100-250 | ALL rebuilds mesh, lighting, the cascade programs, text, FXAA and debug in that order: 5 programs plus one per cascade |
| RenderSettings.LightingShadowConstants | src/wgleng/rendering/Renderer.cpp:136-142 | SHADOWS is "1" iff shadows are on; SHADOW_PCF is "1" iff shadows are MEDIUM or HIGH |
| RenderSettings.CsmRecipesDistinct | src/wgleng/rendering/Renderer.cpp:171-177 | two cascade programs differ exactly in FRUSTUM_INDEX |
| RenderDispatch.DispatchDraws | src/wgleng/rendering/Renderer.cpp:629-653 | exactly one instanced draw per batch, in batch order, with the mesh's index count, the draw mode and the batch's instance count |
| RenderDispatch.DispatchRanges | src/wgleng/rendering/Renderer.cpp:628-652 | each batch binds the 256-matrix range that starts at its first slot, in batch order |
| RenderDispatch.DispatchRangesInside | src/wgleng/rendering/Renderer.cpp:605-652 | once the model buffer holds the frame's matrices plus 256 more (what UpdateUniforms guarantees when neither of its 32-bit sums wraps, that is below 2^26 - 512 matrices), every range bound for any view's batches, `[instanceOffset*64, instanceOffset*64 + 256*64)`, lies inside it |
| RenderDispatch.DispatchBinds | src/wgleng/rendering/Renderer.cpp:621-651 | a VAO is bound exactly where it changes: the binds are the run-length view of the batches' VAOs, starting from the tracked one |
| RenderDispatch.RebindsChange | src/wgleng/rendering/Renderer.cpp:624-627 | a bind never repeats the VAO bound just before it |
| RenderDispatch.ShadowDraws | src/wgleng/rendering/Renderer.cpp:615-633 | the shadow pass draws every batch of every cascade once, cascade by cascade, as triangles |
| RenderDispatch.ShadowBindsOnlyOnChange | src/wgleng/rendering/Renderer.cpp:618-619 | a cascade's framebuffer is bound exactly when it is not already the bound one |
| FrustumCulling.PlanesMeasureClipSpace | src/wgleng/rendering/FrustumCulling.cpp:3-11 | for a point with clip coordinates c, the six planes measure c.w + c.x, c.w − c.x, c.w + c.y, c.w − c.y, c.w + c.z and c.w − c.z, so the point is on or inside all six iff −c.w ≤ c.x, c.y, c.z ≤ c.w |
| FrustumCulling.ContainedBoxRejected | src/wgleng/rendering/FrustumCulling.cpp:13-29 | a non-empty box inside a rejected box is rejected too |
| FrustumCulling.InsidePointVisible | src/wgleng/rendering/FrustumCulling.cpp:13-29 | no false negatives: a box that holds a point on or inside every plane is reported visible |
| FrustumCulling.BehindEveryPoint | src/wgleng/rendering/FrustumCulling.cpp:15-24 | when all eight corners are behind a plane, every point of the box is behind it |
| FrustumCulling.BoundsContain | src/wgleng/rendering/FrustumCulling.cpp:44-49 | the min/max fold from corner 0 bounds every corner it has seen, and min ≤ max |
| FrustumCulling.ModelTestIgnoresBottomRow | src/wgleng/rendering/FrustumCulling.cpp:31-52 | only the xyz of the transformed corners is used, so the model's bottom row does not change the outcome |
| FrustumCulling.HighlightCellIrrelevant | src/wgleng/rendering/FrustumCulling.cpp:31-52 | the highlight value packed into cell [3][3] never changes the test |
| FrustumCulling.Frustum.constructor | src/wgleng/rendering/FrustumCulling.cpp:3-11 | six planes: the fourth row of the matrix plus or minus its first, second and third rows, in the order left, right, bottom, top, near, far |
| FrustumCulling.Frustum.IsAabbVisible | src/wgleng/rendering/FrustumCulling.cpp:13-29 | false iff some plane has all eight corners of the box strictly behind it |
| FrustumCulling.Frustum.IsAabbVisibleModel | src/wgleng/rendering/FrustumCulling.cpp:31-52 | the plain test on the bounds folded over the eight transformed corners |
| CsmBuffer.NdcCorner | src/wgleng/rendering/CSMBuffer.cpp:39-42 | corner x*4 + y*2 + z of the NDC cube is (2x−1, 2y−1, 2z−1, 1) |
| CsmBuffer.Homogenize | src/wgleng/rendering/CSMBuffer.cpp:44 | for w ≠ 0 the result has w = 1 and scaling it by the old w gives the point back |
| CsmBuffer.CornerIndex | src/wgleng/rendering/CSMBuffer.cpp:39-45 | the push order x, y, z places corner (x, y, z) at index x*4 + y*2 + z, and the index gives x, y and z back |
| CsmBuffer.FrustumCornersWorldSpace | src/wgleng/rendering/CSMBuffer.cpp:35-49 | exactly eight corners, corner x*4 + y*2 + z unprojected from NDC (2x−1, 2y−1, 2z−1) through the inverse of proj * view |
| CsmBuffer.Center | src/wgleng/rendering/CSMBuffer.cpp:89-91 | eight times the centre is the sum of the corners' xyz |
| CsmBuffer.LowHighContain | src/wgleng/rendering/CSMBuffer.cpp:94-108 | the folded bounds contain every light-space corner |
| CsmBuffer.LightSpace | src/wgleng/rendering/CSMBuffer.cpp:101 | one light-space point per corner: the xyz of `lightView * v` |
| CsmBuffer.ZAdjustment | src/wgleng/rendering/CSMBuffer.cpp:111-116 | the adjustment leaves minZ unchanged and never lowers maxZ; a positive maxZ strictly grows |
| CsmBuffer.CascadesShareBoundaries | src/wgleng/rendering/CSMBuffer.cpp:84-85 | cascade 0 starts at the camera's near plane and cascade i at split i−1, where cascade i−1 ends |
| CsmBuffer.SliceBoxContainsCorners | src/wgleng/rendering/CSMBuffer.cpp:92-118 | the orthographic box contains every light-space corner of its slice, also after the z adjustment |
| CsmBuffer.CSMBuffer.GetFrustumCount | src/wgleng/rendering/CSMBuffer.h:19 | the number of cascade splits |
| CsmBuffer.CSMBuffer.constructor | src/wgleng/rendering/CSMBuffer.cpp:14-17 | stores size and splits and creates one framebuffer per cascade |
| CsmBuffer.CSMBuffer.Create | src/wgleng/rendering/CSMBuffer.cpp:129-173 | with no cascade nothing is allocated; otherwise one fresh framebuffer name per cascade and a depth texture |
| CsmBuffer.CSMBuffer.Destroy | src/wgleng/rendering/CSMBuffer.cpp:174-179 | no framebuffers and texture 0; size and splits unchanged |
| CsmBuffer.CSMBuffer.SetCascades | src/wgleng/rendering/CSMBuffer.cpp:22-26 | the splits are stored, the size kept, and the framebuffers recreated one per cascade |
| CsmBuffer.CSMBuffer.Resize | src/wgleng/rendering/CSMBuffer.cpp:28-33 | the size is stored, the splits kept, and the framebuffers recreated |
| CsmBuffer.CSMBuffer.ResizeAndSetCascades | src/wgleng/rendering/Renderer.cpp:341-350 | size and splits are both stored and the framebuffers recreated once; the sources only call this method and never declare or define it, so this is assumed behaviour, the one Resize followed by SetCascades would leave |
| CsmBuffer.CSMBuffer.GetLightSpaceMatrices | src/wgleng/rendering/CSMBuffer.cpp:82-126 | one matrix per split; matrix i is fitted around the camera slice from cascade i's near plane to split i |
| CsmBuffer.FitSlice | src/wgleng/rendering/CSMBuffer.cpp:84-119 | one iteration of the cascade loop computes the slice matrix |
| CsmBuffer.AdjustDepth | src/wgleng/rendering/CSMBuffer.cpp:111-116 | the z adjustment as the two sign cases write it |
| CsmBuffer.CornerCenter | src/wgleng/rendering/CSMBuffer.cpp:89-91 | the centre loop computes the centre of the corners |
| CsmBuffer.LightBounds | src/wgleng/rendering/CSMBuffer.cpp:94-108 | the bounds loop computes the folded box of the light-space corners |
| Mesh.FindFrom | src/wgleng/rendering/Mesh.cpp:27-33 | the first slot from j on whose diffuse colour is within 0.004 of the material, and none exactly when no such slot exists |
| Mesh.StepFacts | src/wgleng/rendering/Mesh.cpp:23-37 | one palette entry gets a slot holding a close colour; a reused slot is never slot 0, and a new slot is the old registry length with the material appended |
| Mesh.StepFirst | src/wgleng/rendering/Mesh.cpp:27-33 | on a non-empty registry the entry's slot is the first close one from slot 1 on |
| Mesh.Dedup | src/wgleng/rendering/Mesh.cpp:21-38 | one mapping per palette entry; the registry only grows at the end, by at most one slot per entry |
| Mesh.DedupMapsValid | src/wgleng/rendering/Mesh.cpp:21-38 | every `mappedMaterials[i]` is a registry slot within 0.004 of palette entry i, and a reused old slot is never slot 0 |
| Mesh.DedupNewSlots | src/wgleng/rendering/Mesh.cpp:34-36 | every slot a palette appends holds one of its entries |
| Mesh.DedupPrefix | src/wgleng/rendering/Mesh.cpp:22-38 | a prefix of the palette gives a prefix of the registry and of the mapping |
| Mesh.RepeatReuses | src/wgleng/rendering/Mesh.cpp:22-38 | on a non-empty registry, a colour repeated within one palette gets the slot of its first occurrence |
| Mesh.ReloadAppendsNothing | src/wgleng/rendering/Mesh.cpp:21-38 | loading the same palette again into a non-empty registry appends nothing |
| Mesh.ClearedRegistrySlots | src/wgleng/rendering/Mesh.cpp:27-120 | after Clear the first new material takes slot 0 and, since slot 0 is never matched, the same colour right after it gets slot 1 |
| Mesh.DedupAppendOnly | src/wgleng/rendering/Mesh.cpp:35 | the registry after a palette extends the old one by at most one slot per entry |
| Mesh.Remap | src/wgleng/rendering/Mesh.cpp:43-49 | position and normal are kept; a negative material id becomes 0 and any other goes through the mapping |
| Mesh.RemappedIdsValid | src/wgleng/rendering/Mesh.cpp:21-50 | after Load every vertex names a registry slot, and a non-negative id names one close to its palette entry |
| Mesh.BoundsContain | src/wgleng/rendering/Mesh.cpp:53-60 | every vertex lies inside the computed box, componentwise |
| Mesh.Wireframe | src/wgleng/rendering/Mesh.cpp:63-75 | the wireframe index list is twice as long as the triangle list |
| Mesh.WireframeAt | src/wgleng/rendering/Mesh.cpp:66-73 | triangle t (a, b, c) becomes the lines (a, b), (b, c), (c, a) at positions 6t to 6t+5 |
| Mesh.MeshImpl.constructor | src/wgleng/rendering/Mesh.cpp:5-10 | the mesh takes its name and three new GL names; the box starts at 0 and nothing is uploaded |
| Mesh.MeshImpl.Load | src/wgleng/rendering/Mesh.cpp:18-90 | the registry becomes the palette folded in; the uploaded vertices are remapped, the indices expanded to lines in wireframe mode; the draw count is the uploaded index count; the box is recomputed only when asked |
| Mesh.MeshImpl.Unload | src/wgleng/rendering/Mesh.cpp:91-97 | both buffers empty, draw count 0, box kept |
| Mesh.MapMaterials | src/wgleng/rendering/Mesh.cpp:21-38 | the palette loop computes the fold of the palette into the registry |
| Mesh.MapMaterial | src/wgleng/rendering/Mesh.cpp:23-37 | one entry: the scan from slot 1, or an append at the end |
| Mesh.RemapVertices | src/wgleng/rendering/Mesh.cpp:41-50 | the vertex loop computes the remapped vertices |
| Mesh.ComputeAabb | src/wgleng/rendering/Mesh.cpp:53-60 | the box loop computes the bounds of the vertices |
| Mesh.WireframeIndices | src/wgleng/rendering/Mesh.cpp:63-75 | the wireframe loop computes the line list |
| Mesh.MeshRegistry.constructor | src/wgleng/rendering/Mesh.h:57-60 | no meshes, and the default material in slot 0 |
| Mesh.MeshRegistry.Create | src/wgleng/rendering/Mesh.cpp:99-102 | an existing name keeps its mesh, since emplace does not replace; a new name gets a new empty mesh |
| Mesh.MeshRegistry.Get | src/wgleng/rendering/Mesh.cpp:103-107 | the mesh under the name, or null exactly when the name is absent |
| Mesh.MeshRegistry.Destroy | src/wgleng/rendering/Mesh.cpp:108-110 | the name is gone; the other meshes and the materials are unchanged |
| Mesh.MeshRegistry.CreateMaterial | src/wgleng/rendering/Mesh.cpp:111-113 | the material is appended |
| Mesh.MeshRegistry.Clear | src/wgleng/rendering/Mesh.cpp:117-120 | no meshes and no materials, not even the default slot |
| ObjPacker.VertexEqFacts | objpacker/main.cpp:27-33 | the vertex comparison is reflexive and symmetric and never looks at y or z |
| ObjPacker.VertexEqNotTransitive | objpacker/main.cpp:27-33 | it is not transitive: three vertices 0.00006 apart along x |
| ObjPacker.LookupFrom | objpacker/main.cpp:145 | the map lookup finds the earliest inserted key with the same hash that compares equal, and none exactly when no key does |
| ObjPacker.Indexed | objpacker/main.cpp:138-156 | one index per input vertex, and no more new vertices than input vertices |
| ObjPacker.IndexedPrefix | objpacker/main.cpp:144-154 | a prefix of the input gives a prefix of the new vertices and of the indices |
| ObjPacker.IndexedSound | objpacker/main.cpp:138-156 | every index names a new vertex that compares equal to the input vertex and has its hash |
| ObjPacker.IndexedNew | objpacker/main.cpp:145-153 | a vertex matching no key so far gets index `newVertices.size()` and is appended unchanged; any other gets an earlier key's index |
| ObjPacker.IndexedRepeat | objpacker/main.cpp:144-154 | an exact repeat of a vertex gets the index of its first occurrence |
| ObjPacker.IndexedHashSeparates | objpacker/main.cpp:27-155 | vertices with different hash codes never share an index, however close they are |
| ObjPacker.IndexedEmpty | objpacker/main.cpp:138-156 | there are no new vertices exactly when there are no input vertices |
| ObjPacker.GenerateIndices | objpacker/main.cpp:138-156 | the loop computes the indexing specification |
| ObjPacker.FlatNormals | objpacker/main.cpp:158-169 | the flat-normal pass keeps the vertex count |
| ObjPacker.GenerateFlatNormals | objpacker/main.cpp:158-169 | the in-place loop over the vector computes the flat-normal specification |
| ObjPacker.FlatNormalStep | objpacker/main.cpp:161-167 | one iteration gives the triangle at i its normal, updates the previous normal, and leaves the other vertices alone |
| ObjPacker.SetTriangleNormal | objpacker/main.cpp:167 | the three vertices of the triangle get the normal and nothing else changes |
| ObjPacker.FlatNormalFacts | objpacker/main.cpp:159-167 | the three vertices of a triangle share one normal; a degenerate triangle (zero cross product, a NaN normal) repeats the previous triangle's normal, or (0, 1, 0) for the first |
| ObjPacker.AllVerticesAt | objpacker/main.cpp:214-235 | index k of shape s becomes vertex Offset(s) + k, with that index's position, a zero normal, and the material of face k / 3 when the shape lists one, otherwise −1 |
| ObjPacker.AllVerticesLength | objpacker/main.cpp:213-235 | one vertex per face index of every shape |
| ObjPacker.AllVertices | objpacker/main.cpp:213-235 | with triangulated shapes the vertex count is a multiple of 3 |
| ObjPacker.MaterialsOf | objpacker/main.cpp:246-251 | one material per parsed material |
| ObjPacker.LoadModel | objpacker/main.cpp:190-255 | loading computes the specification: nothing when parsing fails, otherwise vertices, flat normals, indexing and materials |
| ObjPacker.ConvertMaterials | objpacker/main.cpp:246-251 | the material loop computes the diffuse r, g, b with alpha 1 |
| ObjPacker.LoadVertices | objpacker/main.cpp:213-235 | the vertex loop computes the shape-after-shape vertex list |
| ObjPacker.LoadedEmpty | objpacker/main.cpp:196-242 | a model has vertices after loading exactly when it parsed and has at least one face index |
| ObjPacker.WrappedLength | objpacker/main.cpp:96-102 | the list body holds the entries plus one line break per started group of `width` entries |
| ObjPacker.WrappedStartsWithBreak | objpacker/main.cpp:98 | a non-empty list body starts with a line break |
| ObjPacker.EmbedVertices | objpacker/main.cpp:77-131 | when the file opens, the header text is written; otherwise nothing is written |
| ObjPacker.EmbedNamesEmpty | objpacker/main.cpp:90-121 | the header of an empty model declares `<stem>_materialCount`, `<stem>_materials[]`, `<stem>_vertexCount`, `<stem>_vertices[]`, `<stem>_indexCount` and `<stem>_indices[]`, each array empty |
| ObjPacker.WriteList | objpacker/main.cpp:96-126 | each counter loop writes the wrapped list body |
| ObjPacker.LastDot | objpacker/main.cpp:264-272 | the position of the last '.', or none when there is none |
| ObjPacker.Extension | objpacker/main.cpp:264 | `path::extension`: empty or a suffix of the name that starts with its only '.' |
| ObjPacker.Stem | objpacker/main.cpp:94 | `path::stem`: the stem followed by the extension is the name |
| ObjPacker.Conversions | objpacker/main.cpp:263-274 | one outcome per directory entry |
| ObjPacker.PackModels | objpacker/main.cpp:257-276 | the headers written are the packing specification of the listing |
| ObjPacker.ConvertFacts | objpacker/main.cpp:263-273 | a header is written for an entry exactly when it is an `.obj` file whose model has vertices and whose output opens, and it is named `src/meshes/<stem>.h` |
| ObjPacker.PackedSound | objpacker/main.cpp:263-274 | every header written is the conversion of some entry |
| ObjPacker.PackedComplete | objpacker/main.cpp:263-274 | every entry that converts is written |
| Decimal.NatText | objpacker/main.cpp:94 | the decimal text of a number: digits only, with no leading zero except for 0 itself |
| Decimal.NatTextValue | objpacker/main.cpp:94 | reading the text back gives the number |
| Decimal.IntText | objpacker/main.cpp:114 | a signed number prints a '-' exactly when it is negative, then its magnitude |
| Decimal.DigitRun | src/wgleng/rendering/Text.cpp:118 | the leading run of digits, stopped by the first non-digit |
| Text.CharOf | src/wgleng/rendering/Text.cpp:36-45 | a character whose load fails keeps the zero record; a loaded one records its texture id c and its bitmap size |
| Text.MaxWidth | src/wgleng/rendering/Text.cpp:51 | the maximum width bounds every character's width |
| Text.MaxRows | src/wgleng/rendering/Text.cpp:51 | the maximum height bounds every character's height |
| Text.LoadGlyphs | src/wgleng/rendering/Text.cpp:33-52 | the loop over the 128 characters computes the records, the bitmaps and the componentwise maximum size |
| Text.LoadChar | src/wgleng/rendering/Text.cpp:36-51 | one iteration fills record c and bitmap c and widens the maximum |
| Text.CopyN | src/wgleng/rendering/Text.cpp:63 | `std::copy_n` replaces exactly `count` elements at `to` with the source's elements from `from`, and keeps the rest |
| Text.AtlasLength | src/wgleng/rendering/Text.cpp:56 | the texture array holds one cell of `maxWidth * maxRows` texels per character |
| Text.CopyRow | src/wgleng/rendering/Text.cpp:62-64 | one glyph row copied into its cell, the rest of the buffer still zero |
| Text.RepackCell | src/wgleng/rendering/Text.cpp:58-64 | all rows of one glyph copied into its cell |
| Text.Repack | src/wgleng/rendering/Text.cpp:56-65 | the repacking computes the atlas: a zero buffer of one cell per character, each glyph copied row by row into the top-left of its cell |
| Text.RepackGlyph | src/wgleng/rendering/Text.cpp:57-65 | one iteration fills cell i and keeps the cells before it |
| Text.AtlasPixel | src/wgleng/rendering/Text.cpp:56-65 | texel `i*W*H + y*W + x` is pixel (x, y) of glyph i: its bitmap byte inside the glyph and 0 in the rest of the cell |
| Text.LoadedCellsFit | src/wgleng/rendering/Text.cpp:51-56 | every loaded glyph fits the cell of the maximum size |
| Text.LoadedFont | src/wgleng/rendering/Text.cpp:26-77 | the stored font has 128 records, scale 48 and its name; each character fits the maximum size; the atlas has one cell per character |
| Text.FontTexel | src/wgleng/rendering/Text.cpp:33-77 | texel `c*W*H + y*W + x` of a loaded font is the glyph's bitmap byte (x, y) when character c loaded and (x, y) is inside its bitmap, and 0 otherwise |
| Text.FindFirst | src/wgleng/rendering/Text.cpp:115 | `find_first_of` for one character: the first position holding it, and none exactly when it does not occur |
| Text.FromChars | src/wgleng/rendering/Text.cpp:118-121 | base-10 `from_chars` into a byte: invalid exactly when the text is empty or does not start with a digit; otherwise the leading digits' value, or out of range when it exceeds 255 |
| Text.FromCharsNatText | src/wgleng/rendering/Text.cpp:118 | `from_chars` reads the decimal text of n back as n, or reports it out of range when n exceeds 255 |
| Text.Quad | src/wgleng/rendering/Text.cpp:131-146 | six vertices, two triangles sharing their first and third corners, all with the character's texture id and the current highlight id |
| Text.Tag | src/wgleng/rendering/Text.cpp:113-123 | a tag `$<…>` resumes just past the first `>`, with the id read from the leading digits when it fits a byte; it stops when no `>` follows or no digit leads |
| Text.Layout | src/wgleng/rendering/Text.cpp:106-147 | at most one placement per character of the text |
| Text.LayoutPlaces | src/wgleng/rendering/Text.cpp:127-136 | a plain character, or the second `$` of `$$`, is placed at the pen, which advances by `advance >> 6` |
| Text.LayoutSkips | src/wgleng/rendering/Text.cpp:127 | a character outside the font draws nothing and leaves the pen where it is |
| Text.LayoutTag | src/wgleng/rendering/Text.cpp:113-123 | after a tag, drawing stops or goes on where the tag says, with its id |
| Text.TagOfNumber | src/wgleng/rendering/Text.cpp:113-123 | the tag `$<n>` resumes just past its `>`, with id n when n fits a byte and the old id otherwise |
| Text.MarkupSetsHighlight | src/wgleng/rendering/Text.cpp:105-123 | `$<n>` with n in decimal sets the highlight id of what follows to n, and leaves it unchanged when n does not fit a byte |
| Text.MarkupStops | src/wgleng/rendering/Text.cpp:114-121 | a tag with no `>` after its `<`, or no digit after it, stops drawing, so nothing after it is drawn |
| Text.PlainRun | src/wgleng/rendering/Text.cpp:106-147 | text without `$` whose characters are all in the font draws each character, in order, with the highlight id unchanged |
| Text.Vertices | src/wgleng/rendering/Text.cpp:140-146 | six vertices per placed character |
| Text.VerticesSnoc | src/wgleng/rendering/Text.cpp:140-146 | the vertices of one more placed character follow those placed before |
| Text.DrawableText.constructor | src/wgleng/rendering/Text.cpp:99-164 | the vertices are the quads of the layout of the text from pen 0 with highlight id 1; the draw count is their number, at most 6 per character |
| Text.CharQuad | src/wgleng/rendering/Text.cpp:131-146 | the six vertices pushed for one character are its quad |
| Text.DrawChar | src/wgleng/rendering/Text.cpp:127-146 | the drawing branch keeps the loop invariant: placed plus still-to-place is the layout, and the vertices are those of the placed characters |
| Text.ReadTag | src/wgleng/rendering/Text.cpp:113-123 | the tag branch breaks exactly when the tag stops; otherwise it returns the index of the `>` and the new id |
| Text.Markup | src/wgleng/rendering/Text.cpp:109-125 | the `$` branch: a break draws nothing more, a tag continues the layout past it, and `$$` goes on to draw the second `$` |
| Text.GenerateVertices | src/wgleng/rendering/Text.cpp:102-147 | the vertex loop computes the vertices of the layout from pen 0 with highlight id 1 |
| Text.Fonts.constructor | src/wgleng/rendering/Text.h:44 | no fonts loaded |
| Text.Fonts.Init | src/wgleng/rendering/Text.cpp:8-15 | when the FreeType library and the built-in face start, Arial is stored; otherwise nothing changes |
| Text.Fonts.LoadFont | src/wgleng/rendering/Text.cpp:20-78 | a face that fails to open changes nothing; otherwise the font is stored, or replaced, under its name |
| Text.Fonts.UnloadFont | src/wgleng/rendering/Text.cpp:84-86 | the name no longer maps to a font; the others stay |
| Text.Fonts.CreateText | src/wgleng/rendering/Text.cpp:88-97 | no text for a font not loaded; otherwise a new text laid out with that font |
| ShaderProgram.ConstantKey | src/wgleng/rendering/ShaderProgram.cpp:50 | the placeholder of a name is the name wrapped in `<<` and `>>` |
| ShaderProgram.ConstantKeyInjective | src/wgleng/rendering/ShaderProgram.cpp:50 | two names have the same placeholder only if they are the same name |
| ShaderProgram.Find | src/wgleng/rendering/ShaderProgram.cpp:27 | `find(pat, pos)`: the first occurrence at or after pos, and none exactly when there is no occurrence from pos on |
| ShaderProgram.SubstSplit | src/wgleng/rendering/ShaderProgram.cpp:27-30 | text up to the first occurrence is kept, the occurrence replaced, and the rest substituted |
| ShaderProgram.SubstNoOccurrence | src/wgleng/rendering/ShaderProgram.cpp:27-30 | a text without the placeholder is left as it is |
| ShaderProgram.SubstNotReexpanded | src/wgleng/rendering/ShaderProgram.cpp:29 | since the search resumes after the inserted value, a value that contains its own placeholder is inserted once and not expanded again |
| ShaderProgram.ReplaceAll | src/wgleng/rendering/ShaderProgram.cpp:26-30 | the find-and-replace loop ends and computes the left-to-right substitution of the original text |
| ShaderProgram.ReplaceStep | src/wgleng/rendering/ShaderProgram.cpp:28-29 | one round keeps the text before the search position followed by the substitution of the rest |
| ShaderProgram.SubstAllNoOccurrence | src/wgleng/rendering/ShaderProgram.cpp:24-31 | a source with no placeholder of any constant is compiled as written |
| ShaderProgram.PrepareSource | src/wgleng/rendering/ShaderProgram.cpp:24-31 | every constant is substituted, in the map's iteration order |
| ShaderProgram.Prepared | src/wgleng/rendering/ShaderProgram.cpp:57-58 | a stage is compiled exactly when its source is given, from the substituted text |
| ShaderProgram.LoadCalls | src/wgleng/rendering/ShaderProgram.cpp:53-61 | a delete exactly when a previous program exists, a create, one compile-and-attach per given stage, and the link last |
| ShaderProgram.ShaderProgram.constructor | src/wgleng/rendering/ShaderProgram.cpp:42-43 | the name is stored; no program, no constants, no cached locations |
| ShaderProgram.ShaderProgram.SetConstant | src/wgleng/rendering/ShaderProgram.cpp:49-51 | the value is stored under the name's placeholder; the last write wins |
| ShaderProgram.ShaderProgram.Load | src/wgleng/rendering/ShaderProgram.cpp:53-61 | the new program is current and the recorded calls are those of one load |
| ShaderProgram.ShaderProgram.Use | src/wgleng/rendering/ShaderProgram.cpp:63-65 | binds the program |
| ShaderProgram.ShaderProgram.AddUniformBufferBinding | src/wgleng/rendering/ShaderProgram.cpp:67-74 | binds the block to the binding index, and does nothing for an unknown block |
| ShaderProgram.ShaderProgram.SetTexture | src/wgleng/rendering/ShaderProgram.cpp:76-89 | the location comes from the cache, or from one GL query whose answer is cached; then the sampler is set to the unit and the texture bound there |
| Highlights.AddsKeepValid | src/wgleng/rendering/Highlights.cpp:3-27 | both adds keep the table below 256 colours and return an id below 256 |
| Highlights.ReAddOverwrites | src/wgleng/rendering/Highlights.cpp:4-9 | re-adding a name with a non-zero id overwrites that slot only: same length, same name ids, flag set |
| Highlights.NewNameAppends | src/wgleng/rendering/Highlights.cpp:10-16 | a name with id 0 (unknown, or bound to slot 0) is appended at the old size when there is room and bound to it; with no room nothing changes and the id is 0 |
| Highlights.UnnamedAppends | src/wgleng/rendering/Highlights.cpp:19-27 | an unnamed add appends at the old size, or with no room changes nothing and returns 0 |
| Highlights.InitNamesDistinct | src/wgleng/rendering/Highlights.cpp:67-75 | the nine names Init registers are pairwise different |
| Highlights.InitFromEmpty | src/wgleng/rendering/Highlights.cpp:65-76 | Init on an empty table gives the nine colours, default at slot 0 to magenta at slot 8, each name bound to its slot |
| Highlights.ClearResets | src/wgleng/rendering/Highlights.cpp:83-87 | Clear leaves exactly the table Init builds from empty, whatever came before |
| Highlights.Highlights.constructor | src/wgleng/rendering/Highlights.h:37 | no colours and no names |
| Highlights.Highlights.AddHighlightNamed | src/wgleng/rendering/Highlights.cpp:3-17 | the named add on the table's state, with its id |
| Highlights.Highlights.AddHighlightUnnamed | src/wgleng/rendering/Highlights.cpp:19-27 | the unnamed add on the table's state, with its id |
| Highlights.Highlights.GetHighlightId | src/wgleng/rendering/Highlights.cpp:29-33 | the name's id, 0 when unknown; a known name's id is a slot |
| Highlights.Highlights.GetHighlight | src/wgleng/rendering/Highlights.cpp:40-42 | the colour in the slot |
| Highlights.Highlights.GetHighlightByName | src/wgleng/rendering/Highlights.cpp:35-38 | the colour of the name's id |
| Highlights.Highlights.GetClosestHighlightId | src/wgleng/rendering/Highlights.cpp:48-57 | found exactly when some slot is within epsilon; then the id is the first such slot; otherwise the id passed in is unchanged |
| Highlights.Highlights.HasChanged | src/wgleng/rendering/Highlights.cpp:59-63 | returns the flag and clears it only when asked |
| Highlights.Highlights.Init | src/wgleng/rendering/Highlights.cpp:65-76 | sets the flag and runs the nine named adds |
| Highlights.Highlights.Deinit | src/wgleng/rendering/Highlights.cpp:77-81 | both containers emptied and the flag set |
| Highlights.Highlights.Clear | src/wgleng/rendering/Highlights.cpp:83-87 | the result is the initial table whatever came before |
| DebugDraw.Closest | src/wgleng/rendering/Debug.cpp:63 | the first slot within epsilon of the colour, or none exactly when no slot is |
| DebugDraw.PairedSnoc | src/wgleng/rendering/Debug.cpp:66-67 | appending a line's two ends with one id keeps the buffer in pairs |
| DebugDraw.LineHighlightFacts | src/wgleng/rendering/Debug.cpp:62-65 | a line reuses a colour within 0.02 and otherwise registers one; the id names a slot of the table afterwards |
| DebugDraw.DebugDraw.constructor | src/wgleng/rendering/Debug.cpp:28-39 | not initialised, disabled, no vertices and no debug mode |
| DebugDraw.DebugDraw.Init | src/wgleng/rendering/Debug.cpp:28-39 | nothing when already initialised; otherwise the generated names are taken |
| DebugDraw.DebugDraw.Deinit | src/wgleng/rendering/Debug.cpp:40-46 | nothing when not initialised; otherwise both names become 0 |
| DebugDraw.DebugDraw.Clear | src/wgleng/rendering/Debug.cpp:47-49 | the vertex buffer is emptied |
| DebugDraw.DebugDraw.Draw | src/wgleng/rendering/Debug.cpp:50-59 | when enabled and non-empty: upload, draw the vertices as lines, and empty the buffer; otherwise nothing |
| DebugDraw.DebugDraw.DrawLine | src/wgleng/rendering/Debug.cpp:60-68 | when enabled, the colour's highlight is found or registered and the two ends appended with that id; when disabled nothing changes |
| DebugDraw.DebugDraw.Enable | src/wgleng/rendering/Debug.cpp:82-85 | wireframe debug mode and the flag set |
| DebugDraw.DebugDraw.Disable | src/wgleng/rendering/Debug.cpp:86-90 | no debug mode, the flag cleared and the buffer emptied |
| KeyMapper.Fired | src/wgleng/core/KeyMapper.h:78-91 | at most one action per mapping |
| KeyMapper.EmptyMappingAlwaysFires | src/wgleng/core/KeyMapper.h:80-89 | a mapping without keys fires on every update |
| KeyMapper.FiredSound | src/wgleng/core/KeyMapper.h:78-91 | every fired action belongs to a mapping whose keys all hold |
| KeyMapper.FiredComplete | src/wgleng/core/KeyMapper.h:78-91 | every mapping whose keys all hold fires |
| KeyMapper.KeyMapper.constructor | src/wgleng/core/KeyMapper.h:16 | no mappings |
| KeyMapper.KeyMapper.AllKeysPressed | src/wgleng/core/KeyMapper.h:80-86 | true exactly when all keys hold; the tests run in order and stop at the first that fails |
| KeyMapper.KeyMapper.Update | src/wgleng/core/KeyMapper.h:78-91 | the actions of the due mappings, in insertion order |
| KeyMapper.KeyMapper.AddMapping | src/wgleng/core/KeyMapper.h:92-94 | a new builder bound to this mapper, with no keys |
| KeyMapper.KeyMapper.Clear | src/wgleng/core/KeyMapper.h:95-97 | no mappings |
| KeyMapper.KeyMapBuilder.constructor | src/wgleng/core/KeyMapper.h:73 | bound to the mapper, with no keys |
| KeyMapper.KeyMapBuilder.Then | src/wgleng/core/KeyMapper.h:28-34 | the first call appends the mapping to the mapper and detaches the builder; a later call returns false and adds nothing |
| KeyMapper.KeyMapBuilder.ExpandMapping | src/wgleng/core/KeyMapper.h:68-70 | the key is appended after those before it |
| KeyMapper.KeyMapBuilder.PressKey | src/wgleng/core/KeyMapper.h:37-40 | appends a just-pressed test of the scancode |
| KeyMapper.KeyMapBuilder.HoldKey | src/wgleng/core/KeyMapper.h:42-45 | appends a held test of the scancode |
| KeyMapper.KeyMapBuilder.ReleaseKey | src/wgleng/core/KeyMapper.h:47-50 | appends a just-released test of the scancode |
| KeyMapper.KeyMapBuilder.PressMouse | src/wgleng/core/KeyMapper.h:52-55 | appends a just-pressed test of the button |
| KeyMapper.KeyMapBuilder.HoldMouse | src/wgleng/core/KeyMapper.h:57-60 | appends a held test of the button |
| KeyMapper.KeyMapBuilder.ReleaseMouse | src/wgleng/core/KeyMapper.h:62-65 | appends a just-released test of the button |
| ShaderProgram.SubstFind | src/wgleng/rendering/ShaderProgram.cpp:27-30 | where the search from a position finds nothing the rest is kept; where it finds an occurrence the rest splits there |
| Highlights.InitIdsOf | src/wgleng/rendering/Highlights.cpp:65-76 | after n named adds of Init the names bound are exactly the first n, each to its own slot |
| Actions.Callbacks | src/wgleng/core/Actions.h:68-70 | the callbacks a trigger calls: one per listener entry, in list order |
| Actions.FindId | src/wgleng/core/Actions.h:40-46 | the first position holding the id; none exactly when no entry has the id |
| Actions.SwapPop | src/wgleng/core/Actions.h:42-43 | swapping entry i with the last and popping leaves one entry fewer |
| Actions.SwapPopMultiset | src/wgleng/core/Actions.h:42-43 | swap-and-pop removes exactly the entry at i, as a multiset (the order of the rest may change) |
| Actions.SwapPopDistinct | src/wgleng/core/Actions.h:42-43 | swap-and-pop keeps the ids of a list distinct |
| Actions.ClosedRemovesExactly | src/wgleng/core/Actions.h:38-48 | with distinct ids, closing removes exactly the entry with the id and keeps each other entry once; ids stay distinct; an absent id changes nothing |
| Actions.Channel.constructor | src/wgleng/core/Actions.h:83-87 | an action starts enabled, with next id 0 and no listeners |
| Actions.Listener.constructor | src/wgleng/core/Actions.h:18 | a default listener is attached to nothing |
| Actions.Listener.Moved | src/wgleng/core/Actions.h:24-28 | the move constructor takes over the other's id and list and detaches the other |
| Actions.Listener.Close | src/wgleng/core/Actions.h:38-48 | a detached listener does nothing; otherwise its list becomes the list with its entry closed, the action's flag and counter are unchanged, and the listener is detached |
| Actions.Listener.MoveAssign | src/wgleng/core/Actions.h:29-36 | self-assignment changes nothing; otherwise the own registration is closed first, then the other's is taken over and the other detached |
| Actions.Actions.constructor | src/wgleng/core/Actions.h:12 | every action starts enabled, with next id 0 and no listeners |
| Actions.Actions.IsEnabled | src/wgleng/core/Actions.h:56-58 | the action's enabled flag |
| Actions.Actions.Enable | src/wgleng/core/Actions.h:59-61 | the action is enabled; its ids and listeners and every other action's flag are unchanged |
| Actions.Actions.Disable | src/wgleng/core/Actions.h:62-64 | the action is disabled; its ids and listeners and every other action's flag are unchanged |
| Actions.Actions.Trigger | src/wgleng/core/Actions.h:66-71 | the action's callbacks in list order when it is enabled, none when it is disabled |
| Actions.Actions.Listen | src/wgleng/core/Actions.h:72-80 | the listener gets the action's next id, which no entry has; the counter goes up by one and the entry is appended; the flag is unchanged |
| Common.SetBits | src/wgleng/core/PhysicsWorld.cpp:40-49 | or-ing in a mask sets its bits and changes no other bit; used for the body flags here and for `Metrics::Enable` (Metrics.h:50-52) |
| Common.ClearBits | src/wgleng/core/PhysicsWorld.cpp:35-46 | and-ing with a mask's complement clears its bits and changes no other bit; used for the body flags here and for `Metrics::Disable` (Metrics.h:53-55) |
| PhysicsWorld.FlagRoundTrip | src/wgleng/core/PhysicsWorld.cpp:35-49 | enabling after disabling (and the reverse) gives back the flags the body had |
| PhysicsWorld.LiveEntries | src/wgleng/core/PhysicsWorld.cpp:51-60 | a key stays exactly when its shape still has an owner, with the same shape |
| PhysicsWorld.LiveEntriesIdempotent | src/wgleng/core/PhysicsWorld.cpp:51-60 | clearing a second time removes nothing more |
| PhysicsWorld.ClearExpired | src/wgleng/core/PhysicsWorld.cpp:51-60 | collecting the expired keys in iteration order and erasing them leaves exactly the live entries |
| PhysicsWorld.Cached | src/wgleng/core/PhysicsWorld.cpp:78-82 | the cache answers for a key exactly when the key maps to a shape with an owner, and answers that shape |
| PhysicsWorld.ClearKeepsCached | src/wgleng/core/PhysicsWorld.cpp:62-82 | clearing expired entries never changes what a lookup hands out |
| PhysicsWorld.RigidBody.constructor | src/wgleng/core/PhysicsWorld.cpp:125-135 | the body holds the construction info, Bullet's default flags and the rolling friction 0.05 |
| PhysicsWorld.LocalInertia | src/wgleng/core/PhysicsWorld.cpp:120-123 | zero inertia for mass 0; Bullet's inertia of the shape for any other mass |
| PhysicsWorld.BodyEnableGravity | src/wgleng/core/PhysicsWorld.cpp:35-39 | the disable-gravity bit cleared, the world's gravity taken, collision flags unchanged |
| PhysicsWorld.BodyDisableGravity | src/wgleng/core/PhysicsWorld.cpp:40-43 | the disable-gravity bit set, gravity zero, collision flags unchanged |
| PhysicsWorld.BodyEnableCollisions | src/wgleng/core/PhysicsWorld.cpp:44-46 | only the no-contact-response bit cleared; the rest of the body unchanged |
| PhysicsWorld.BodyDisableCollisions | src/wgleng/core/PhysicsWorld.cpp:47-49 | only the no-contact-response bit set; the rest of the body unchanged |
| PhysicsWorld.Kept | src/wgleng/core/PhysicsWorld.h:51-62 | the filtering keeps at most as many entries as there are hits |
| PhysicsWorld.KeptSound | src/wgleng/core/PhysicsWorld.h:53-61 | every kept entry is the entity, point and normal of a hit with user data that the predicate accepts |
| PhysicsWorld.KeptComplete | src/wgleng/core/PhysicsWorld.h:53-61 | every hit with user data that the predicate accepts is kept |
| PhysicsWorld.KeptInOrder | src/wgleng/core/PhysicsWorld.h:51-62 | of two kept hits, the earlier one comes first in the result |
| PhysicsWorld.KeptPrefix | src/wgleng/core/PhysicsWorld.h:51-62 | the entries kept from a prefix of the hits are a prefix of the result |
| PhysicsWorld.KeptAt | src/wgleng/core/PhysicsWorld.h:51-62 | a kept hit sits right after the entries kept from the hits before it |
| PhysicsWorld.Insert | src/wgleng/core/PhysicsWorld.h:63-67 | one insertion step of the sort adds exactly the one entry |
| PhysicsWorld.InsertSorted | src/wgleng/core/PhysicsWorld.h:63-67 | inserting into a list sorted by distance keeps it sorted |
| PhysicsWorld.SortByDistance | src/wgleng/core/PhysicsWorld.h:63-67 | the sort is a permutation of its input |
| PhysicsWorld.SortByDistanceSorted | src/wgleng/core/PhysicsWorld.h:63-67 | the sort orders by non-decreasing squared distance from the ray's origin |
| PhysicsWorld.FilterHits | src/wgleng/core/PhysicsWorld.h:51-62 | the loop over the hits computes exactly the kept entries, in hit order |
| PhysicsWorld.RaycastWorldWhere | src/wgleng/core/PhysicsWorld.h:43-69 | the kept hits in hit order, or, when sorting, a permutation of them sorted by distance |
| PhysicsWorld.AnyHitKeeps | src/wgleng/core/PhysicsWorld.cpp:158 | without a predicate a hit is kept exactly when it has user data |
| PhysicsWorld.RaycastWorld | src/wgleng/core/PhysicsWorld.cpp:147-171 | the hits with user data in hit order, or, when sorting, a permutation of them sorted by distance |
| PhysicsWorld.World.constructor | src/wgleng/core/PhysicsWorld.cpp:3-20 | gravity (0, -30, 0), empty caches and no bodies |
| PhysicsWorld.World.Update | src/wgleng/core/PhysicsWorld.cpp:62-66 | each of the three caches keeps exactly its live entries; shapes and bodies unchanged |
| PhysicsWorld.World.MakeShape | src/wgleng/core/PhysicsWorld.cpp:84-110 | `make_shared` gives a shape distinct from every earlier one |
| PhysicsWorld.World.GetBoxCollider | src/wgleng/core/PhysicsWorld.cpp:75-87 | a live cached box is returned with nothing changed; otherwise a new box is stored under the half extents and returned; the other caches unchanged |
| PhysicsWorld.World.GetSphereCollider | src/wgleng/core/PhysicsWorld.cpp:88-100 | the same, keyed by radius |
| PhysicsWorld.World.GetCapsuleCollider | src/wgleng/core/PhysicsWorld.cpp:101-113 | the same, keyed by (radius, height) |
| PhysicsWorld.World.CreateRigidBody | src/wgleng/core/PhysicsWorld.cpp:115-138 | a new body in the world; inertia only when the mass is not zero; user data holds entity, shape and world; rolling friction 0.05 |
| PhysicsWorld.World.DestroyRigidBody | src/wgleng/core/PhysicsWorld.cpp:139-146 | a null body is ignored; otherwise it leaves the world |
| Metrics.BitWidth | src/wgleng/util/Metrics.cpp:50 | `std::bit_width`: 0 for 0, otherwise the r with 2^(r-1) <= x < 2^r |
| Metrics.GetIndex | src/wgleng/util/Metrics.cpp:49-51 | the index of the highest set bit; for 0 the subtraction wraps to 2^32 - 1 |
| Metrics.MetricBitValue | src/wgleng/util/Metrics.h:8-20 | metric i is the bit `1 << i` |
| Metrics.GetIndexOfBit | src/wgleng/util/Metrics.cpp:49-51 | GetIndex inverts the metric bits |
| Metrics.IndexOfPow2 | src/wgleng/util/Metrics.cpp:49-51 | GetIndex of 2^i is i |
| Metrics.AllMetricsIsUnion | src/wgleng/util/Metrics.h:23-24 | ALL_METRICS is exactly the union of the eleven bits and holds no twelfth bit |
| Metrics.IndexInRange | src/wgleng/util/Metrics.cpp:36-47 | a non-zero mask below 2^11 indexes one of the eleven accumulators |
| Metrics.Slot | src/wgleng/util/Metrics.cpp:36-47 | `m_data[GetIndex(m)]` names an accumulator in range |
| Metrics.Refreshed | src/wgleng/util/Metrics.h:79-83 | the average becomes the mean of the samples, and the accumulator restarts |
| Metrics.Stopped | src/wgleng/util/Metrics.cpp:45-46 | one more sample, adding the time since the start |
| Metrics.RefreshUpTo | src/wgleng/util/Metrics.cpp:21-31 | after n steps of the loop, the first n enabled accumulators are refreshed and nothing else is |
| Metrics.ListedFacts | src/wgleng/util/Metrics.cpp:21-31 | the window lists exactly the enabled metrics, each once, in index order |
| Metrics.Metrics.constructor | src/wgleng/util/Metrics.h:67-88 | nothing enabled, the last refresh at the construction time, and every accumulator empty with its clock started at the construction time |
| Metrics.Metrics.Enable | src/wgleng/util/Metrics.h:50-52 | the bits set, so the metric is enabled |
| Metrics.Metrics.Disable | src/wgleng/util/Metrics.h:53-55 | the bits cleared, so a non-empty metric is no longer enabled |
| Metrics.Metrics.IsEnabled | src/wgleng/util/Metrics.h:56-58 | true exactly when all of m's bits are enabled |
| Metrics.Metrics.MeasureDurationStart | src/wgleng/util/Metrics.cpp:36-40 | a disabled metric changes nothing; an enabled one restarts its own clock and no other accumulator changes |
| Metrics.Metrics.MeasureDurationStop | src/wgleng/util/Metrics.cpp:41-47 | a disabled metric changes nothing; an enabled one adds one sample to its own accumulator only |
| Metrics.Metrics.Show | src/wgleng/util/Metrics.cpp:8-35 | nothing when no metric is enabled; otherwise a refresh after more than 500 ms, and the open window lists and refreshes exactly the enabled metrics |
| Metrics.Metrics.ShowLines | src/wgleng/util/Metrics.cpp:21-31 | the loop lists the enabled metrics and, on a refresh, refreshes exactly those |
| SceneEditor.ColliderOf | src/wgleng/util/SceneBuilder.cpp:66-76 | every collider index names one of the three shapes, scaled by the global scale (the capsule's height is not) |
| SceneEditor.Spawned | src/wgleng/util/SceneBuilder.cpp:34-81 | flags always; a tag exactly when it is non-empty; a mesh exactly with a model; a body exactly with a collider, static unless the mass is used; a transform only for a model without a collider; zero scale when invisible |
| SceneEditor.HiddenChangesOnlySizes | src/wgleng/util/SceneBuilder.cpp:35-75 | hiding for a blink changes sizes only: the same pose, mass and friction, a zero box or radius, and the capsule keeps its height |
| SceneEditor.Insert | src/wgleng/util/SceneBuilder.cpp:176-198 | `std::set::insert` keeps the set ordered and adds exactly the element |
| SceneEditor.Erase | src/wgleng/util/SceneBuilder.cpp:177 | `std::set::erase` keeps the set ordered and removes exactly the element |
| SceneEditor.IncreasingUnique | src/wgleng/util/SceneBuilder.h:57 | an ordered set has one iteration order: two with the same elements are equal |
| SceneEditor.InsertBelow | src/wgleng/util/SceneBuilder.cpp:172-179 | selecting an existing row keeps every selected position a row |
| SceneEditor.EraseBelow | src/wgleng/util/SceneBuilder.cpp:177 | deselecting keeps every selected position a row |
| SceneEditor.InsertLargest | src/wgleng/util/SceneBuilder.cpp:237-238 | inserting an id beyond all others appends it |
| SceneEditor.Clicked | src/wgleng/util/SceneBuilder.cpp:174-200 | a ctrl-click toggles the row; a plain click selects only that row, except that a plain click on the only selected row deselects it; a blink starts exactly when the row ends up newly selected |
| SceneEditor.CtrlClickTwice | src/wgleng/util/SceneBuilder.cpp:176-182 | two ctrl-clicks on a row give back the selection |
| SceneEditor.FlipsCount | src/wgleng/util/SceneBuilder.cpp:100-103 | the toggle loop runs once for each multiple of 150 ms below the elapsed time |
| SceneEditor.TickNext | src/wgleng/util/SceneBuilder.cpp:91-111 | one more entry of a tick is kept when its row exists and its blink is not over, and recreated when its row exists |
| SceneEditor.TickedMembers | src/wgleng/util/SceneBuilder.cpp:94-110 | an entry survives a tick exactly when its row exists and it is at most 2000 ms old |
| SceneEditor.BlinkedSound | src/wgleng/util/SceneBuilder.cpp:99-106 | every recreation comes from an entry whose row exists, hidden exactly on an odd flip before 2000 ms |
| SceneEditor.BlinkedCount | src/wgleng/util/SceneBuilder.cpp:91-111 | each entry whose row exists is recreated once per tick, whether it stays or finishes |
| SceneEditor.AgedAll | src/wgleng/util/SceneBuilder.cpp:84-88 | ageing every blink keeps the rows they refer to |
| SceneEditor.AgedSelected | src/wgleng/util/SceneBuilder.cpp:215-217 | ageing the selected rows' blinks keeps the rows they refer to |
| SceneEditor.AgedThenTicked | src/wgleng/util/SceneBuilder.cpp:84-110 | ageing by an hour ends every running blink at the next tick |
| SceneEditor.RemainingLength | src/wgleng/util/SceneBuilder.cpp:221-228 | deleting removes exactly one row per deleted position |
| SceneEditor.DeleteStep | src/wgleng/util/SceneBuilder.cpp:222-227 | erasing position `sel[k] - k` after k deletions deletes original row `sel[k]` |
| SceneEditor.RemainingAt | src/wgleng/util/SceneBuilder.cpp:221-228 | a row not deleted moves down by the number of deleted rows before it |
| SceneEditor.RemainingSound | src/wgleng/util/SceneBuilder.cpp:221-228 | every row left is an original row that was not deleted |
| SceneEditor.RemainingFits | src/wgleng/util/SceneBuilder.cpp:221-228 | the rows left still name only existing models and colliders |
| SceneEditor.FlaggedCountAll | src/wgleng/util/SceneBuilder.cpp:128-133 | `selectCount` reaches the selection's size exactly when every selected state has the flag |
| SceneEditor.SetOrClear | src/wgleng/util/SceneBuilder.cpp:137-138 | the flag is on or off as asked, and the other bits keep their values |
| SceneEditor.WithFlag | src/wgleng/util/SceneBuilder.cpp:137-138 | only the flag bits of the state change |
| SceneEditor.WithFlagHas | src/wgleng/util/SceneBuilder.cpp:137-138 | a non-zero flag is on afterwards exactly when it was turned on |
| SceneEditor.FlagToggled | src/wgleng/util/SceneBuilder.cpp:128-140 | a checkbox click sets the flag on every selected state unless all had it, in which case it is cleared on all; unselected states unchanged |
| SceneEditor.FlagSet | src/wgleng/util/SceneBuilder.cpp:136-139 | the flag is set or cleared on the selected states only |
| SceneEditor.FlagSetFits | src/wgleng/util/SceneBuilder.cpp:136-139 | changing flags keeps every model and collider index valid |
| SceneEditor.FlagToggledFlips | src/wgleng/util/SceneBuilder.cpp:128-140 | for a non-empty selection a click flips whether all selected states have the flag |
| SceneEditor.FlagsSelected | src/wgleng/util/SceneBuilder.cpp:119-142 | the four checkboxes leave as many states as before |
| SceneEditor.LeadingEmpty | src/wgleng/util/SceneBuilder.cpp:252 | the tags before k are empty and tag k is not |
| SceneEditor.ShownTag | src/wgleng/util/SceneBuilder.cpp:249-258 | a shown tag is one of the selected tags and equals every non-empty one |
| SceneEditor.ShownTagCommon | src/wgleng/util/SceneBuilder.cpp:249-258 | a tag all selected states share is shown |
| SceneEditor.ShownTagOrder | src/wgleng/util/SceneBuilder.cpp:252-256 | an empty tag is skipped before the first non-empty one and is a mismatch after it |
| SceneEditor.SceneBuilder.constructor | src/wgleng/util/SceneBuilder.cpp:15-20 | not playing, no rows, no selection, no blinks, no models |
| SceneEditor.SceneBuilder.Built | src/wgleng/util/SceneBuilder.cpp:64 | a recreated body has the state's mass exactly when the call uses mass |
| SceneEditor.SceneBuilder.AddModel | src/wgleng/util/SceneBuilder.cpp:22-24 | the name is appended to the models; nothing else changes |
| SceneEditor.SceneBuilder.IsPlaying | src/wgleng/util/SceneBuilder.h:22 | the play flag |
| SceneEditor.SceneBuilder.Play | src/wgleng/util/SceneBuilder.cpp:26-32 | play mode toggles, every row is recreated in order with mass exactly when now playing, and the selection is cleared |
| SceneEditor.SceneBuilder.AgeAllBlinks | src/wgleng/util/SceneBuilder.cpp:84-88 | every blink is aged by an hour |
| SceneEditor.SceneBuilder.AgeSelectedBlinks | src/wgleng/util/SceneBuilder.cpp:215-217 | the blinks of selected rows are aged by an hour |
| SceneEditor.SceneBuilder.ToggleShow | src/wgleng/util/SceneBuilder.cpp:99-103 | the entity is shown exactly after an even number of flips |
| SceneEditor.SceneBuilder.Tick | src/wgleng/util/SceneBuilder.cpp:89-112 | a tick keeps the entries whose row exists and whose blink is not over, and makes exactly the recreations of the tick |
| SceneEditor.SceneBuilder.TickAll | src/wgleng/util/SceneBuilder.cpp:91-111 | the erase-in-place loop computes the tick's entries and recreations |
| SceneEditor.SceneBuilder.TickStep | src/wgleng/util/SceneBuilder.cpp:92-110 | one iteration keeps the loop invariant and makes progress |
| SceneEditor.SceneBuilder.TickEntry | src/wgleng/util/SceneBuilder.cpp:94-110 | an entry is dropped exactly when its row is gone or its blink is over; recreated exactly when its row exists |
| SceneEditor.SceneBuilder.Blink | src/wgleng/util/SceneBuilder.cpp:83-116 | optionally all blinks aged; then a negative id ticks and other ids start a blink now |
| SceneEditor.SceneBuilder.EndFrame | src/wgleng/util/SceneBuilder.cpp:162-165 | while playing the blinks are cleared; otherwise one tick (the `Blink(-1)` at line 386) |
| SceneEditor.SceneBuilder.ClickRow | src/wgleng/util/SceneBuilder.cpp:170-205 | the selection after a click, and a blink of the row (ageing the others) exactly when it is newly selected |
| SceneEditor.SceneBuilder.Create | src/wgleng/util/SceneBuilder.cpp:207-211 | a default state appended and selected alone |
| SceneEditor.SceneBuilder.Delete | src/wgleng/util/SceneBuilder.cpp:213-230 | exactly the selected rows deleted, at the shifted positions; the selected rows' blinks aged; the selection cleared |
| SceneEditor.SceneBuilder.EraseSelected | src/wgleng/util/SceneBuilder.cpp:220-228 | the erase loop deletes exactly the selected rows and records the shifted positions |
| SceneEditor.SceneBuilder.EraseStep | src/wgleng/util/SceneBuilder.cpp:222-227 | one iteration keeps the erase loop's invariant |
| SceneEditor.SceneBuilder.Clone | src/wgleng/util/SceneBuilder.cpp:232-242 | a copy of each selected state appended in order and recreated; the copies become the selection |
| SceneEditor.SceneBuilder.CloneSelected | src/wgleng/util/SceneBuilder.cpp:234-240 | the copy loop appends the copies in selection order with their new ids |
| SceneEditor.SceneBuilder.CountFlagged | src/wgleng/util/SceneBuilder.cpp:128-131 | the number of selected states with the flag |
| SceneEditor.SceneBuilder.FlagCheckbox | src/wgleng/util/SceneBuilder.cpp:128-141 | a click toggles the flag over the selection as FlagToggled states; no click changes nothing |
| SceneEditor.SceneBuilder.ApplyFlag | src/wgleng/util/SceneBuilder.cpp:136-139 | the loop sets or clears the flag on exactly the selected states |
| SceneEditor.SceneBuilder.FlagSelector | src/wgleng/util/SceneBuilder.cpp:118-145 | the four checkboxes in order, each applied to the states the previous ones left |
| SceneEditor.SceneBuilder.CommonTag | src/wgleng/util/SceneBuilder.cpp:249-258 | the loop computes the shown tag of the selected states |
| SceneEditor.SceneBuilder.SetTag | src/wgleng/util/SceneBuilder.cpp:260-264 | every selected state gets the tag; the others unchanged |
| SceneEditor.SceneBuilder.Reset | src/wgleng/util/SceneBuilder.cpp:395-401 | no rows and no selection |
| SceneEditor.SceneBuilder.Load | src/wgleng/util/SceneBuilder.cpp:514-521 | reset, then each state recreated in order, with its mass unless saveable; the rows kept only when saveable |

## Left out

- GL, WebGL and Emscripten calls are foreign. The modelled draws, binds and state changes are recorded as events; the uniform-buffer uploads of UpdateUniforms are not (see its line below). Names GL generates, query answers and compile results are inputs.
- Texture and framebuffer setup is not modelled (GBuffer, FXAA buffer, CSMBuffer::Create). CSMBuffer::Create's loop over depth formats (CSMBuffer.cpp:143-172) is reduced to taking one name per cascade.
- Renderer::Render (Renderer.cpp:361-444) is not modelled: it only sequences the steps that are modelled and takes metrics. RenderText, RenderDebug, RenderLighting and RenderFXAA are left out as draw-call sequences.
- Renderer::LoadShaderFromFile and the hot-reload queues are network I/O. SetupUniforms' uniform values are GPU state; only its clearing of the loading flag appears, in `Renderer.Renderer.ReloadShaders`.
- Bullet internals are left out: rayTest, dynamics, motion states, inertia computation, CheckObjectsTouchingGround (contact manifolds) and the PhysicsWorld destructor. The hits of a ray test, the liveness of shapes and Bullet's inertia are inputs.
- PhysicsWorld.SortByDistance: `std::sort` works in place with an unspecified order among equally distant hits. The model is an insertion-sort function, proved to be a permutation sorted by squared distance, so it fixes one of the admissible orders.
- FreeType glyph loading is an input per character. Signed `char` codes that are negative, a nonzero FreeType pitch and `penX` overflow are not modelled.
- The entt registry and group iteration are replaced by a sequence of entities in iteration order. `SceneBuilder::RecreateEntity` is reduced to the `Recreate` calls it receives, and `Spawned` describes what one call builds.
- ImGui widgets are not modelled: clicks, checkbox results and whether a window is open are inputs.
- Not modelled in SceneBuilder:
  - the property editor of a single selection (SceneBuilder.cpp:306-373);
  - the offset and rotate drag of a multi-selection (268-303);
  - the yellow highlight of selected meshes (387-392);
  - the axis and floor debug lines (148-160);
  - Load() and Save() (network and text I/O) and the fields m_saveName, m_stateVersion and m_dragSpeed.
- SceneEditor.SceneBuilder.Delete keeps the indices of blinks that refer to rows after a deleted row unchanged, as the source does. Nothing is proved about which entity such a blink then shows.
- With glm's functions as parameters (`GlmOps`), nothing about inverse, perspective, lookAt, ortho, radians, normalize, cross or computeModelMatrix beyond their use is proved.
- Float arithmetic is modelled as `real`. The 0.004, 1e-4 and 0.02 tolerances are strict comparisons of squared distances. IEEE rounding and NaN are not modelled, except that objpacker's NaN normal is the zero cross product and the text atlas's 0/0 texture coordinate is not modelled.
- Hash-map iteration order is not fixed by the standard library, so the model does not pick one. `Renderer.Renderer.UpdateRenderableMeshes` takes the order of `meshMatrices` as a parameter: any listing of the collected keys once each. The batcher's lemmas hold for every such order. The orders of `m_shaderConstans` and the physics caches are parameters too (`textMap` belongs to RenderText, which is left out), and so is ObjPacker's vertex hash. The insertion order `Meshes.order` only shows that an order exists (`Renderer.CollectFacts`).
- Metrics averages divide the accumulated time by the count; the division by zero of a refresh with no samples is modelled as an undefined average. TimePoint is integer milliseconds supplied by the caller, and glFinish is left out.
- Re-entrancy is left out: callbacks that close or add listeners during Actions `Trigger`, and the function-pointer casts of KeyMapper.
- Actions' 64-bit `nextId` wrap-around is not modelled (ids are unbounded).
- Text's null `shared_ptr` fonts in `m_fonts`, the Fonts `Deinit` and destructors releasing GL textures are not modelled.
- DebugDraw's DrawSphere, DrawTriangle, DrawContactPoint and the other Bullet debug-drawer callbacks are left out. Debug.h is not part of this model; the initial state is taken as no GL names, disabled and empty.
- objpacker's generateSmoothNormals is not modelled: it is disabled by a constant. dumpVertices (debug printing) is not modelled either.
- CsmBuffer.CSMBuffer.ResizeAndSetCascades: Renderer.cpp:341-350 calls it, but neither CSMBuffer.h nor CSMBuffer.cpp declares or defines it. Its behaviour (store size and splits, recreate once) is assumed, not modelled from a definition; it leaves the same fields as Resize (CSMBuffer.cpp:28-33) followed by SetCascades (CSMBuffer.cpp:22-26).
- Header declarations the .cpp files do not follow are left out: Text.h declares size and wrap parameters, Mesh.h declares a different Load, and Metrics.h declares neither `SetStaticMetric` nor the `TRIANGLES_*` and `*_ENTITES` metrics that Renderer.cpp sets. The .cpp behaviour is modelled, except those static metrics: the triangle and entity counts that the draw loops store with `SetStaticMetric` (Renderer.cpp:410-411, 636-638, 659-661) are not modelled.
- Renderer.Renderer.UpdateUniforms: the required size and the argument of `Resize` (required size plus 256 matrices, a 32-bit `size_t` on wasm32) are both computed in 32 bits. The "at least the required size" guarantee is stated only where neither wraps, that is for fewer than 2^26 - 512 matrices. Between 2^26 - 512 and 2^26 - 256 matrices the source shrinks the buffer below the required size (`Renderer.GrownSizeHeadroomWraps`); the model follows the source there and promises nothing more.
- Renderer.Renderer.UpdateUniforms: it models only the material-count check and the model-buffer sizing and contents (Renderer.cpp:589-610). The `camera->Update(width, height)` call and the camera and lighting uniform uploads (Renderer.cpp:569-587) are not modelled, nor is the upload of the cascade light-space matrices when shadows are not off (Renderer.cpp:596-600); `gl` records none of them. The material count is an unbounded `nat`: the source copies every material into the fixed 1024-slot `materials` array (Renderer.h:81, 130), which overflows past 1024 materials, and the model does not capture that overflow.
- Batching.FramePass: the batcher's `uint32_t currentUboOffset` (Renderer.cpp:523), the `uint32_t` fields `instanceOffset` and `instanceCount` of MeshBatch (Renderer.h:109-110) and the byte product `currentUboOffset * sizeof(glm::mat4)` (a 32-bit `size_t` on wasm32) are unbounded naturals in the model. Nothing is said about a frame of 2^26 or more matrix slots, where that product wraps. The same holds for `Renderer.Renderer.BatchFrame`, `Renderer.Renderer.BatchView` and `RenderDispatch.DispatchRanges`.
- ObjPacker.LookupFrom: when several stored keys share a vertex's hash and compare equal to it, the model picks the earliest. This can happen because the tolerance equality `Vertex::operator==` (objpacker/main.cpp:27-33) is not transitive. The standard does not say which key `unordered_map::find` returns, and libstdc++ scans a bucket newest-first.
- ObjPacker.IndexedRepeat: it holds under the earliest-key choice only. With one shared hash and x values 0, 0.00006, 0.00012, 0.00006, the model gives the repeat index 0, while a newest-first bucket scan gives 1.
- Batching.Resize: `vector::resize` fills the padding slots with value-initialised `glm::mat4`s, whose value depends on glm's configuration; the model uses the fixed `Filler` (all zeros). No lemma depends on the filler's value.
- The ShaderProgram destructor's `glDeleteProgram` is not modelled: programs are never released in the model.
- SceneEditor.SceneBuilder.Load: it requires every state's model and collider index to be in range (`SceneEditor.Fits`), and `SceneEditor.SceneBuilder.Valid` keeps that for the saved rows; `AddModel`, `Play`, `ClickRow` and `Create` require `Valid`, and `Spawned` and `Built` require `Fits`. The source indexes `m_models[state.selectedModel]` and `m_colliders[state.selectedCollider]` without a check (SceneBuilder.cpp:50, 67), which is undefined behaviour out of range; the model does not cover that case.
- Highlights.Highlights.GetHighlight: it requires the id to be a slot. The source indexes `m_highlights[id % 256]` without a check, and that index is undefined behaviour past the end.
- Highlights.Highlights.GetHighlightByName: it requires the name's id to be a slot, for the same reason.
