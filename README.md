# Ephyra engine core in Dafny

A model of the rendering and resource core of the Ephyra game engine. It proves properties of that model.

The centre of the model is the batched 3D renderer, in both of its versions:

- the newer `Core` renderer, with up to five textures per material;
- the older platform renderer, with one texture per material plus per-instance `MaterialInfo` scalars.

Each version has three parts, modelled together:

- **Geometry arena.** `addGeometry` places vertex and index blocks at two cursors and appends one indirect-draw row per geometry.
- **Texture-unit ring.** The `TextureUnitManager` gives each texture a unit. It scans `[tail, head)` and allocates at `head` on a miss.
- **Batch flush.** `submit` and `flushBatch` sort the queue by (shader, geometry id) and walk it with a running instance counter. The walk fills the rows and the per-instance streams. It splits off a sub-batch draw when the ring fills, and ends with one multi-draw of what is left and a reset of the rows.

The model also covers:

- the `Material` flag logic and the tint `pack`;
- the first-fit texture atlas;
- the 2D quad and text batcher and its R-to-RGBA expansion;
- the `#region` shader-source splitter;
- vertex-attribute index allocation;
- the asset table and the layer stack;
- the input poller;
- the Assimp helper and loader routines: matrix transpose, keyframe search, bone slots, keyframe merge, texture-path slicing and texture slots.

How the model is built:

- **Graphics calls.** Every call into OpenGL is an event appended to a ghost `trace`. Properties about draws are stated on that trace.
- **Classes.** An object whose methods update its fields is a `class` with those fields. Its methods are proved against a pure function of the old state, and the lemmas about that function state what the source promises. The texture-unit manager, the two renderers, the 2D renderer, the atlas, the vertex array, the asset table, the layer stack, the poller and the bone slots are modelled this way.
- **Code and documentation.** Where the comments and the code disagree, the model follows the code. `getUnit` is documented as returning "whether the texture needs binding" but returns `true` on a hit. The model returns `true` on a hit.

Files, one module each:

| file | module | models |
|---|---|---|
| `wrappers.dfy` | `Wrappers` | `Option`, the first and last match in a list |
| `texture_units.dfy` | `TextureUnits` | `TextureUnitManager` ring allocator |
| `batching.dfy` | `Batching` | geometry arena, queue sort, row counting shared by both renderers |
| `renderer3d_core.dfy` | `Renderer3DCore` | newer `Renderer3D` (five texture slots, post-processing `end`) |
| `renderer3d_platform.dfy` | `Renderer3DPlatform` | older `Renderer3D` (one texture, `MaterialInfo` streams) |
| `material.dfy` | `Materials` | `Material` constructors and flags |
| `renderer_common.dfy` | `RendererCommon` | `RendererCommon::pack` |
| `texture_atlas.dfy` | `TextureAtlas` | `TextureAtlas` first-fit packing |
| `renderer2d.dfy` | `Renderer2D` | `Renderer2D` quads, text, `R2RGBA`, `Quad::createCentreHalfExtents` |
| `shader_source.dfy` | `ShaderSource` | `OpenGLShader` source splitting and stage selection |
| `vertex_array.dfy` | `VertexArray` | `OpenGLVertexArray` attribute layout |
| `resource_manager.dfy` | `ResourceManager` | `ResourceManager` asset list |
| `layer_stack.dfy` | `LayerStack` | `LayerStack` push, pop, teardown, dispatch |
| `input_poller.dfy` | `InputPoller` | `InputPoller` |
| `animation_keys.dfy` | `AssimpHelpers` | `AssimpHelperFunctions.h` |
| `assimp_loader.dfy` | `AssimpLoader` | helper logic of `AssimpLoader.h` |

## Model

| member | source | states |
|---|---|---|
| Wrappers.FirstWhere | ephyra/enginecode/include/Core/Resources/Management/ResourceManager.h:58-66 | found iff some element has the key, and then the first such; `ResourceManager.FirstWithId` (the scan of `getAsset`) and `AssimpHelpers.FirstChannel` (the scan of `findNodeAnim`) are its instances |
| Wrappers.LastWhere | ephyra/enginecode/include/Core/Resources/Utility/AssimpLoader.h:142 | found iff some element has the key, and then the last such; `AssimpLoader.LastChannel` (a later channel of the same name overwrites the map entry) and `AssimpLoader.LastOfKind` (a later texture of a kind overwrites the mesh's slot, AssimpLoader.h:225-227) are its instances |
| TextureUnits.Cleared | ephyra/enginecode/src/Core/Resources/Utility/TextureUnitManager.cpp:9-17 | after `clear`, head = tail = 0, the ring is not full, and all `capacity` slots hold 0xFFFFFFFF |
| TextureUnits.Scan | ephyra/enginecode/src/Core/Resources/Utility/TextureUnitManager.cpp:21-28 | the scan finds the id iff it occurs in [lo, hi); the index it returns holds the id and is the first such index |
| TextureUnits.Allocate | ephyra/enginecode/src/Core/Resources/Utility/TextureUnitManager.cpp:35-42 | a miss writes the id at head, returns the old head and reports a miss; the ring becomes full iff head + 1 reaches the capacity, otherwise head advances by one |
| TextureUnits.Resolve | ephyra/enginecode/src/Core/Resources/Utility/TextureUnitManager.cpp:18-44 | the unit returned is inside the buffer and holds the id afterwards; the call reports a hit iff the id was in [tail, head); a hit changes nothing |
| TextureUnits.ResolveAll | ephyra/enginecode/src/Core/Resources/Utility/TextureUnitManager.cpp:18-44 | lookups in sequence keep the ring well formed and its size fixed |
| TextureUnits.FullRingMisses | ephyra/enginecode/src/Core/Resources/Utility/TextureUnitManager.cpp:21-40 | a full ring has an empty scan range, so every lookup misses (even of a bound texture), clears the ring and gets unit 0 |
| TextureUnits.ResolveKeepsDistinct | ephyra/enginecode/src/Core/Resources/Utility/TextureUnitManager.cpp:21-40 | the occupied units stay pairwise distinct across a lookup |
| TextureUnits.ResolveTwice | ephyra/enginecode/src/Core/Resources/Utility/TextureUnitManager.cpp:18-44 | a second lookup of the same id hits the same unit, unless the first filled the ring, in which case it misses and gets unit 0 |
| TextureUnits.MissAllocates | ephyra/enginecode/src/Core/Resources/Utility/TextureUnitManager.cpp:35-42 | on a ring that is not full, an id absent from the occupied prefix is allocated at head |
| TextureUnits.FillPrefix | ephyra/enginecode/src/Core/Resources/Utility/TextureUnitManager.cpp:35-42 | from a cleared ring, k < capacity distinct ids fill units 0..k-1 in order and leave the ring not full |
| TextureUnits.FillToCapacity | ephyra/enginecode/src/Core/Resources/Utility/TextureUnitManager.cpp:39-40 | from a cleared ring, exactly `capacity` distinct misses make it full, with head back at 0 and the ids in order |
| TextureUnits.TextureUnitManager.constructor | ephyra/enginecode/include/independent/rendering/textureUnitManager.h:13 | stores the capacity; the state is the cleared ring |
| TextureUnits.TextureUnitManager.Clear | ephyra/enginecode/src/Core/Resources/Utility/TextureUnitManager.cpp:9-17 | the state becomes the cleared ring |
| TextureUnits.TextureUnitManager.GetUnit | ephyra/enginecode/src/Core/Resources/Utility/TextureUnitManager.cpp:18-44 | the result and the new ring are those of `Resolve` on the old ring |
| TextureUnits.TextureUnitManager.IsFull | ephyra/enginecode/include/independent/rendering/textureUnitManager.h:12 | the full flag; on a well-formed ring, full means head is back at 0 and the scan range [tail, head) is empty |
| Batching.WrappedCapacityTestAdmitsOverflow | ephyra/enginecode/src/Core/Rendering/API/Renderer3D.cpp:271-272 | with `uint32_t` wrap-around, 0xFFFFFFFB vertices at cursor 10 pass a capacity of 100 |
| Batching.CapacityTestsAgreeWithoutWrap | ephyra/enginecode/src/Core/Rendering/API/Renderer3D.cpp:271-272 | when the sum fits in 32 bits, the wrapped test and the exact test agree |
| Batching.AddGeometry | ephyra/enginecode/src/Core/Rendering/API/Renderer3D.cpp:266-292 | rejects iff either block overflows its buffer, and then changes nothing; otherwise the id is the row count, the first vertex and first index are the old cursors, the cursors advance by the counts within capacity, and one idle row is appended |
| Batching.EmptyArenaPlaced | ephyra/enginecode/src/Core/Rendering/API/Renderer3D.cpp:63-72 | a fresh arena satisfies the placement invariant with nothing placed |
| Batching.AddGeometryKeepsPlaced | ephyra/enginecode/src/Core/Rendering/API/Renderer3D.cpp:280-289 | every `addGeometry` keeps ids dense and blocks below the cursors and in order, adding the new block on success |
| Batching.PlacedIgnoresRowContents | ephyra/enginecode/src/Core/Rendering/API/Renderer3D.cpp:360-375 | zeroing row counts at the end of a flush does not disturb the placement invariant |
| Batching.PlacedBlocksDisjoint | ephyra/enginecode/src/Core/Rendering/API/Renderer3D.cpp:280-289 | two placed geometries never share a vertex slot or an index slot |
| Batching.InsertBy | ephyra/enginecode/src/Core/Rendering/API/Renderer3D.cpp:297-305 | inserting into a sorted queue gives a sorted queue with the same elements plus the new one |
| Batching.SortBy | ephyra/enginecode/src/Core/Rendering/API/Renderer3D.cpp:297-305 | the queue comes out sorted by (shader, geometry id) and is a permutation of the input |
| Batching.SortedLastIsLargest | ephyra/enginecode/src/Core/Rendering/API/Renderer3D.cpp:354-358 | the last entry of the sorted queue is queued and carries the largest shader |
| Batching.SortedRunsAreContiguous | ephyra/enginecode/src/Core/Rendering/API/Renderer3D.cpp:297-305 | when all of a geometry's entries use one shader, they form one contiguous run of the sorted queue |
| Batching.CountInstance | ephyra/enginecode/src/Core/Rendering/API/Renderer3D.cpp:315-325 | only the entry's row changes; it gains one instance; an unused row (drawCount 0) first takes the geometry's range and the running counter as first instance |
| Batching.CountAll | ephyra/enginecode/src/Core/Rendering/API/Renderer3D.cpp:315-325 | counting a run of entries keeps the number of rows |
| Batching.CountAllCounts | ephyra/enginecode/src/Core/Rendering/API/Renderer3D.cpp:315-325 | each row's instance count grows by the number of its entries |
| Batching.RowCoversItsEntries | ephyra/enginecode/src/Core/Rendering/API/Renderer3D.cpp:315-325 | for contiguous entries of one geometry, its row draws that geometry's index range, and its instances are exactly the positions of those entries |
| Batching.RowsIdleGrow | ephyra/enginecode/src/Core/Rendering/API/Renderer3D.cpp:280-289 | the appended all-zero row keeps every row idle between flushes |
| Batching.ZeroCounts | ephyra/enginecode/src/Core/Rendering/API/Renderer3D.cpp:360-375 | every row loses its index count and instance count and keeps its other fields |
| Batching.CountInstanceAddsOne | ephyra/enginecode/src/Core/Rendering/API/Renderer3D.cpp:315-325 | counting an entry raises the rows' total instance count by exactly one |
| Batching.IdleRowsHaveNoInstances | ephyra/enginecode/src/Core/Rendering/API/Renderer3D.cpp:371-375 | rows left idle by the reset ask for no instances |
| Renderer3DCore.InstanceTint | ephyra/enginecode/src/Core/Rendering/API/Renderer3D.cpp:328-332 | the pushed tint is `pack(tint)` when the tint flag is set, opaque white otherwise |
| Renderer3DCore.Bind | ephyra/enginecode/src/Core/Rendering/API/Renderer3D.cpp:340-351 | binding keeps the ring valid and its size, keeps five slots, and appends one event per texture |
| Renderer3DCore.BindLoads | ephyra/enginecode/src/Core/Rendering/API/Renderer3D.cpp:308-351 | the i-th load names texture i and the unit that lands in slot i, hit or miss; slots past the material's textures keep the previous entry's units |
| Renderer3DCore.Step | ephyra/enginecode/src/Core/Rendering/API/Renderer3D.cpp:315-351 | one walked entry adds one model and one unit set, raises the counter by at most one, and adds a split draw only when the ring was full |
| Renderer3DCore.CountPhase | ephyra/enginecode/src/Core/Rendering/API/Renderer3D.cpp:315-338 | counting and splitting leave the ring, the unit streams and the slots alone, and add one event iff the ring was full |
| Renderer3DCore.StepTrace | ephyra/enginecode/src/Core/Rendering/API/Renderer3D.cpp:334-351 | a full ring first emits a multi-draw with the current entry's shader, running + 1 instances and the unit streams from before this entry; the rest of the step is texture loads |
| Renderer3DCore.StepExtendsTrace | ephyra/enginecode/src/Core/Rendering/API/Renderer3D.cpp:315-351 | a step only appends to the trace, and without a split it appends only loads |
| Renderer3DCore.StepFields | ephyra/enginecode/src/Core/Rendering/API/Renderer3D.cpp:315-351 | the row update is `CountInstance`, one model and one tint are pushed, and the counter resets to 0 on a split or else grows by one |
| Renderer3DCore.WalkAll | ephyra/enginecode/src/Core/Rendering/API/Renderer3D.cpp:310-352 | the walk keeps the row count and pushes one model and one unit set per entry |
| Renderer3DCore.WalkExtendsTrace | ephyra/enginecode/src/Core/Rendering/API/Renderer3D.cpp:310-352 | the walk only appends to the trace |
| Renderer3DCore.FlushBatchSpec | ephyra/enginecode/src/Core/Rendering/API/Renderer3D.cpp:294-376 | after a flush the ring is valid and every row is idle |
| Renderer3DCore.Finish | ephyra/enginecode/src/Core/Rendering/API/Renderer3D.cpp:354-375 | the end of a flush leaves every row idle and the ring as the walk left it |
| Renderer3DCore.FlushExtendsTrace | ephyra/enginecode/src/Core/Rendering/API/Renderer3D.cpp:294-376 | a flush only appends to the trace |
| Renderer3DCore.WalkWithoutSplit | ephyra/enginecode/src/Core/Rendering/API/Renderer3D.cpp:315-332 | without a split, entry k is instance k: the rows are `CountAll` of the geometries, and the model and tint streams hold the entries' values in order |
| Renderer3DCore.WalkWithoutSplitOnlyLoads | ephyra/enginecode/src/Core/Rendering/API/Renderer3D.cpp:340-351 | without a split, the walk emits nothing but texture loads |
| Renderer3DCore.FlushWithoutSplit | ephyra/enginecode/src/Core/Rendering/API/Renderer3D.cpp:294-376 | without a split, a flush emits loads and then one multi-draw of every queued entry in sorted order, under the largest queued shader |
| Renderer3DCore.FlushRowCoverage | ephyra/enginecode/src/Core/Rendering/API/Renderer3D.cpp:297-358 | in that final draw, the row of a geometry drawn under one shader covers exactly that geometry's sorted positions and draws its index range |
| Renderer3DCore.FinishRowCoverage | ephyra/enginecode/src/Core/Rendering/API/Renderer3D.cpp:354-358 | the same coverage for any walk from idle rows and empty streams |
| Renderer3DCore.FinishWithoutSplit | ephyra/enginecode/src/Core/Rendering/API/Renderer3D.cpp:354-358 | the final draw uses the last sorted entry's shader, with one instance per entry and rows `CountAll` |
| Renderer3DCore.SortedRowCoverage | ephyra/enginecode/src/Core/Rendering/API/Renderer3D.cpp:297-325 | in any sorted arrangement, a single-shader geometry's row covers exactly its entries |
| Renderer3DCore.LastShaderIsLargest | ephyra/enginecode/src/Core/Rendering/API/Renderer3D.cpp:354-358 | the shader of the final draw is the largest queued shader |
| Renderer3DCore.SplitDrawLacksCurrentUnits | ephyra/enginecode/src/Core/Rendering/API/Renderer3D.cpp:334-351 | the split draw counts running + 1 instances and as many models, but holds fewer unit sets |
| Renderer3DCore.SplitKeepsBatchState | ephyra/enginecode/src/Core/Rendering/API/Renderer3D.cpp:334-338 | a split resets only the counter: the rows and streams are kept |
| Renderer3DCore.ThreeEntriesExample | ephyra/enginecode/src/Core/Rendering/API/Renderer3D.cpp:315-325 | G1, G1, G2 give row G1 two instances from 0 and row G2 one instance from 2 |
| Renderer3DCore.StepDrawn | ephyra/enginecode/src/Core/Rendering/API/Renderer3D.cpp:315-351 | one step raises the split draws' `n` arguments plus the counter by one and the rows' instances by one; a split draws rows that ask for every instance counted since the flush began |
| Renderer3DCore.WalkDrawn | ephyra/enginecode/src/Core/Rendering/API/Renderer3D.cpp:310-352 | after walking k entries, the split draws' `n` arguments plus the counter grow by k, and the rows ask for k more instances |
| Renderer3DCore.FlushDrawsQueue | ephyra/enginecode/src/Core/Rendering/API/Renderer3D.cpp:294-376 | for every queue and whatever the splits, the `n` arguments of the multi-draws a flush emits sum to the queue length |
| Renderer3DCore.SplitDrawRowsCountEveryWalkedEntry | ephyra/enginecode/src/Core/Rendering/API/Renderer3D.cpp:334-338 | the rows are not zeroed at a split: the draw split off at the i-th entry from idle rows has rows asking for all i + 1 walked entries, while its `n` is only running + 1 |
| Renderer3DCore.SplitRedrawExample | ephyra/enginecode/src/Core/Rendering/API/Renderer3D.cpp:307-358 | with a one-unit ring and G1, G2, G3 under one shader, the flush draws G1 and G2 with n = 2, then rows G1, G2 and G3 with n = 1 and only G1's model |
| Renderer3DCore.SplitRedrawCounts | ephyra/enginecode/src/Core/Rendering/API/Renderer3D.cpp:334-338 | in that flush the `n` arguments sum to 3 but the rows ask for 5 instances: G1 and G2 are drawn twice |
| Renderer3DCore.SplitFixed | ephyra/enginecode/src/Core/Rendering/API/Renderer3D.cpp:334-338 | the repaired split draws the counted instances, zeroes the rows, empties the streams and resets the counter |
| Renderer3DCore.Enter | ephyra/enginecode/src/Core/Rendering/API/Renderer3D.cpp:315-351 | the rest of a repaired step keeps the ring valid and the row count |
| Renderer3DCore.StepFixed | ephyra/enginecode/src/Core/Rendering/API/Renderer3D.cpp:315-351 | a repaired step keeps the ring valid and the row count |
| Renderer3DCore.WalkFixed | ephyra/enginecode/src/Core/Rendering/API/Renderer3D.cpp:310-352 | the repaired walk keeps the ring valid and the row count |
| Renderer3DCore.FlushFixed | ephyra/enginecode/src/Core/Rendering/API/Renderer3D.cpp:294-376 | the repaired flush leaves the ring valid and every row idle |
| Renderer3DCore.StepFixedWithoutSplit | ephyra/enginecode/src/Core/Rendering/API/Renderer3D.cpp:334-338 | without a full ring the repaired step is the source's step |
| Renderer3DCore.FlushFixedWithoutSplit | ephyra/enginecode/src/Core/Rendering/API/Renderer3D.cpp:294-376 | when no split occurs the repaired flush equals the source's flush |
| Renderer3DCore.StepFixedExact | ephyra/enginecode/src/Core/Rendering/API/Renderer3D.cpp:315-351 | a repaired step keeps rows and streams aligned with the counter and appends only draws whose rows and streams hold exactly `n` instances |
| Renderer3DCore.WalkFixedExact | ephyra/enginecode/src/Core/Rendering/API/Renderer3D.cpp:310-352 | the same over a whole repaired walk |
| Renderer3DCore.FlushFixedDrawsEachEntryOnce | ephyra/enginecode/src/Core/Rendering/API/Renderer3D.cpp:294-376 | with the split repaired, every multi-draw of a flush from idle rows is exact, and both the `n` arguments and the rows' instances sum to the queue length: each entry is drawn once |
| Renderer3DCore.EffectsFrom | ephyra/enginecode/src/Core/Rendering/API/Renderer3D.cpp:243-254 | at most one pass per remaining position |
| Renderer3DCore.EffectsRunWhenEnabled | ephyra/enginecode/src/Core/Rendering/API/Renderer3D.cpp:243-254 | a pass runs iff its flag is set |
| Renderer3DCore.EffectsInOrder | ephyra/enginecode/src/Core/Rendering/API/Renderer3D.cpp:243-254 | passes run in the order depth of field, volumetric, bloom, tone mapping, vignette, retro grade |
| Renderer3DCore.Renderer3D.constructor | ephyra/enginecode/src/Core/Rendering/API/Renderer3D.cpp:63-72 | capacities stored; cursors zero; no rows; empty queue |
| Renderer3DCore.Renderer3D.AddGeometry | ephyra/enginecode/src/Core/Rendering/API/Renderer3D.cpp:266-292 | follows `Batching.AddGeometry`; uploads only on success; leaves the queue alone |
| Renderer3DCore.Renderer3D.FlushBatchCommands | ephyra/enginecode/src/Core/Rendering/API/Renderer3D.cpp:378-432 | appends one multi-draw of all rows with n instances and, of each stream, its first n elements, or the whole stream when it holds fewer (the split draw; see Left out) |
| Renderer3DCore.Renderer3D.BindTextures | ephyra/enginecode/src/Core/Rendering/API/Renderer3D.cpp:340-351 | the texture loop follows `Bind` |
| Renderer3DCore.Renderer3D.CountEntry | ephyra/enginecode/src/Core/Rendering/API/Renderer3D.cpp:315-332 | the row update is `CountInstance`; one model and one tint are pushed |
| Renderer3DCore.Renderer3D.CountAndSplit | ephyra/enginecode/src/Core/Rendering/API/Renderer3D.cpp:315-338 | follows `CountPhase` |
| Renderer3DCore.Renderer3D.WalkEntry | ephyra/enginecode/src/Core/Rendering/API/Renderer3D.cpp:310-352 | one loop iteration follows `Step` |
| Renderer3DCore.Renderer3D.WalkQueue | ephyra/enginecode/src/Core/Rendering/API/Renderer3D.cpp:310-352 | the walk loop follows `WalkAll` |
| Renderer3DCore.Renderer3D.ResetCounts | ephyra/enginecode/src/Core/Rendering/API/Renderer3D.cpp:370-374 | the rows become `ZeroCounts` of the old rows |
| Renderer3DCore.Renderer3D.ClearBatch | ephyra/enginecode/src/Core/Rendering/API/Renderer3D.cpp:360-375 | the queue and streams are empty; the rows lose their counts |
| Renderer3DCore.Renderer3D.FinishFlush | ephyra/enginecode/src/Core/Rendering/API/Renderer3D.cpp:354-375 | follows `Finish`, then empties the queue and streams |
| Renderer3DCore.Renderer3D.FlushQueue | ephyra/enginecode/src/Core/Rendering/API/Renderer3D.cpp:294-376 | follows `FlushBatchSpec` |
| Renderer3DCore.Renderer3D.FlushBatch | ephyra/enginecode/src/Core/Rendering/API/Renderer3D.cpp:294-376 | follows `FlushBatchSpec`; the queue is empty afterwards; the arena is untouched |
| Renderer3DCore.Renderer3D.Enqueue | ephyra/enginecode/src/Core/Rendering/API/Renderer3D.cpp:155-160 | a queue at capacity is flushed first, so the queue never exceeds capacity; then the entry is appended |
| Renderer3DCore.Renderer3D.AppendEntry | ephyra/enginecode/src/Core/Rendering/API/Renderer3D.cpp:159 | the entry is appended |
| Renderer3DCore.Renderer3D.DrawNow | ephyra/enginecode/src/Core/Rendering/API/Renderer3D.cpp:170-217 | binds the textures as `Bind` says, then appends one immediate draw with those slots |
| Renderer3DCore.Renderer3D.Submit | ephyra/enginecode/src/Core/Rendering/API/Renderer3D.cpp:152-220 | a batched material is queued, after a flush when the queue is at capacity; any other material is drawn at once without touching the queue |
| Renderer3DCore.Renderer3D.Flush | ephyra/enginecode/src/Core/Rendering/API/Renderer3D.cpp:222-235 | flushes iff the queue is not empty; the queue is empty afterwards |
| Renderer3DCore.Renderer3D.EndWithEffects | ephyra/enginecode/src/Core/Rendering/API/Renderer3D.cpp:237-258 | flushes, counts the frame, then runs the enabled passes in order |
| Renderer3DCore.Renderer3D.PostProcessFrame | ephyra/enginecode/src/Core/Rendering/API/Renderer3D.cpp:241-257 | counts the frame and appends the pass list |
| Renderer3DPlatform.CountPhase | ephyra/enginecode/src/platform/rendering/renderer3D.cpp:224-244 | counting and splitting leave the ring, the unit stream and the info stream alone, and add one event iff the ring was full |
| Renderer3DPlatform.Step | ephyra/enginecode/src/platform/rendering/renderer3D.cpp:224-256 | one entry pushes one model, one unit and one `MaterialInfo`, and raises the counter by at most one |
| Renderer3DPlatform.StepFields | ephyra/enginecode/src/platform/rendering/renderer3D.cpp:224-256 | pushes `pack(tint)` whatever the flags, the unit from `getUnit`, and the `MaterialInfo` unchanged; the counter resets on a split |
| Renderer3DPlatform.StepTrace | ephyra/enginecode/src/platform/rendering/renderer3D.cpp:240-251 | the split draw uses the current shader and running + 1 instances; a texture is loaded iff the lookup hit |
| Renderer3DPlatform.StepExtendsTrace | ephyra/enginecode/src/platform/rendering/renderer3D.cpp:224-256 | a step only appends; without a split it appends at most a load |
| Renderer3DPlatform.SplitDrawLacksCurrentUnit | ephyra/enginecode/src/platform/rendering/renderer3D.cpp:240-251 | the split draw holds running + 1 models but fewer units and fewer infos |
| Renderer3DPlatform.SplitKeepsBatchState | ephyra/enginecode/src/platform/rendering/renderer3D.cpp:240-244 | a split resets only the counter |
| Renderer3DPlatform.WalkAll | ephyra/enginecode/src/platform/rendering/renderer3D.cpp:216-257 | one model, one unit and one info per walked entry; the row count is kept |
| Renderer3DPlatform.WalkExtendsTrace | ephyra/enginecode/src/platform/rendering/renderer3D.cpp:216-257 | the walk only appends to the trace |
| Renderer3DPlatform.Finish | ephyra/enginecode/src/platform/rendering/renderer3D.cpp:259-280 | every row ends idle; the ring is unchanged |
| Renderer3DPlatform.FlushBatchSpec | ephyra/enginecode/src/platform/rendering/renderer3D.cpp:203-281 | after a flush the ring is valid and every row is idle |
| Renderer3DPlatform.FlushExtendsTrace | ephyra/enginecode/src/platform/rendering/renderer3D.cpp:203-281 | a flush only appends to the trace |
| Renderer3DPlatform.WalkWithoutSplit | ephyra/enginecode/src/platform/rendering/renderer3D.cpp:224-256 | without a split, entry k is instance k, and the model, tint and info streams hold the entries' values in order |
| Renderer3DPlatform.WalkWithoutSplitOnlyLoads | ephyra/enginecode/src/platform/rendering/renderer3D.cpp:246-251 | without a split, the walk emits only loads |
| Renderer3DPlatform.FinishWithoutSplit | ephyra/enginecode/src/platform/rendering/renderer3D.cpp:259-263 | the final draw uses the last entry's shader, with one instance per entry, rows `CountAll`, and models, tints and infos in order |
| Renderer3DPlatform.LastShaderIsLargest | ephyra/enginecode/src/platform/rendering/renderer3D.cpp:259-263 | the final shader is the largest queued shader |
| Renderer3DPlatform.FlushWithoutSplit | ephyra/enginecode/src/platform/rendering/renderer3D.cpp:203-281 | without a split, a flush emits one multi-draw of the whole queue in sorted order, under the largest shader |
| Renderer3DPlatform.StepDrawn | ephyra/enginecode/src/platform/rendering/renderer3D.cpp:224-256 | one step raises the split draws' `n` arguments plus the counter by one and the rows' instances by one; a split draws rows that ask for every instance counted since the flush began |
| Renderer3DPlatform.WalkDrawn | ephyra/enginecode/src/platform/rendering/renderer3D.cpp:216-257 | after walking k entries, the split draws' `n` arguments plus the counter grow by k, and the rows ask for k more instances |
| Renderer3DPlatform.FlushDrawsQueue | ephyra/enginecode/src/platform/rendering/renderer3D.cpp:203-281 | for every queue and whatever the splits, the `n` arguments of the multi-draws a flush emits sum to the queue length |
| Renderer3DPlatform.SplitDrawRowsCountEveryWalkedEntry | ephyra/enginecode/src/platform/rendering/renderer3D.cpp:240-244 | the rows are not zeroed at a split: the draw split off at the i-th entry from idle rows has rows asking for all i + 1 walked entries, while its `n` is only running + 1 |
| Renderer3DPlatform.SplitFixed | ephyra/enginecode/src/platform/rendering/renderer3D.cpp:240-244 | the repaired split draws the counted instances, zeroes the rows, empties the streams and resets the counter |
| Renderer3DPlatform.Enter | ephyra/enginecode/src/platform/rendering/renderer3D.cpp:224-256 | the rest of a repaired step keeps the ring valid and the row count |
| Renderer3DPlatform.StepFixed | ephyra/enginecode/src/platform/rendering/renderer3D.cpp:224-256 | a repaired step keeps the ring valid and the row count |
| Renderer3DPlatform.WalkFixed | ephyra/enginecode/src/platform/rendering/renderer3D.cpp:216-257 | the repaired walk keeps the ring valid and the row count |
| Renderer3DPlatform.FlushFixed | ephyra/enginecode/src/platform/rendering/renderer3D.cpp:203-281 | the repaired flush leaves the ring valid and every row idle |
| Renderer3DPlatform.StepFixedWithoutSplit | ephyra/enginecode/src/platform/rendering/renderer3D.cpp:240-244 | without a full ring the repaired step is the source's step |
| Renderer3DPlatform.FlushFixedWithoutSplit | ephyra/enginecode/src/platform/rendering/renderer3D.cpp:203-281 | when no split occurs the repaired flush equals the source's flush |
| Renderer3DPlatform.StepFixedExact | ephyra/enginecode/src/platform/rendering/renderer3D.cpp:224-256 | a repaired step keeps rows and streams aligned with the counter and appends only draws whose rows and streams hold exactly `n` instances |
| Renderer3DPlatform.WalkFixedExact | ephyra/enginecode/src/platform/rendering/renderer3D.cpp:216-257 | the same over a whole repaired walk |
| Renderer3DPlatform.FlushFixedDrawsEachEntryOnce | ephyra/enginecode/src/platform/rendering/renderer3D.cpp:203-281 | with the split repaired, every multi-draw of a flush from idle rows is exact, and both the `n` arguments and the rows' instances sum to the queue length: each entry is drawn once |
| Renderer3DPlatform.Immediate | ephyra/enginecode/src/platform/rendering/renderer3D.cpp:137-154 | the immediate path loads on a hit, then draws once with the model, tint, shader and index range |
| Renderer3DPlatform.ImmediateUploadsSecondLookup | ephyra/enginecode/src/platform/rendering/renderer3D.cpp:137-147 | the uploaded unit is the first lookup's, unless that lookup filled the ring, in which case it is 0 |
| Renderer3DPlatform.ImmediateMissLoadsNothing | ephyra/enginecode/src/platform/rendering/renderer3D.cpp:137-140 | on a miss no texture is loaded |
| Renderer3DPlatform.Renderer3D.constructor | ephyra/enginecode/src/platform/rendering/renderer3D.cpp:40-42 | capacities stored; cursors zero; no rows; empty queue |
| Renderer3DPlatform.Renderer3D.AddGeometry | ephyra/enginecode/src/platform/rendering/renderer3D.cpp:175-201 | follows `Batching.AddGeometry`; uploads only on success |
| Renderer3DPlatform.Renderer3D.FlushBatchCommands | ephyra/enginecode/src/platform/rendering/renderer3D.cpp:283-320 | one multi-draw of every row with n instances and, of each stream, its first n elements, or the whole stream when it holds fewer (the split draw; see Left out) |
| Renderer3DPlatform.Renderer3D.CountEntry | ephyra/enginecode/src/platform/rendering/renderer3D.cpp:224-238 | `CountInstance`, one model and `pack(tint)` |
| Renderer3DPlatform.Renderer3D.CountAndSplit | ephyra/enginecode/src/platform/rendering/renderer3D.cpp:224-244 | follows `CountPhase` |
| Renderer3DPlatform.Renderer3D.ResolveUnit | ephyra/enginecode/src/platform/rendering/renderer3D.cpp:246-251 | `getUnit`, with a load iff it hit |
| Renderer3DPlatform.Renderer3D.WalkEntry | ephyra/enginecode/src/platform/rendering/renderer3D.cpp:216-257 | follows `Step` |
| Renderer3DPlatform.Renderer3D.WalkNext | ephyra/enginecode/src/platform/rendering/renderer3D.cpp:216-257 | one loop turn: the state goes from `WalkAll` over the first i entries to `WalkAll` over the first i + 1 |
| Renderer3DPlatform.Renderer3D.WalkQueue | ephyra/enginecode/src/platform/rendering/renderer3D.cpp:216-257 | follows `WalkAll` |
| Renderer3DPlatform.Renderer3D.ResetCounts | ephyra/enginecode/src/platform/rendering/renderer3D.cpp:275-279 | `ZeroCounts` of the rows |
| Renderer3DPlatform.Renderer3D.FinishFlush | ephyra/enginecode/src/platform/rendering/renderer3D.cpp:259-280 | follows `Finish`; queue and streams emptied |
| Renderer3DPlatform.Renderer3D.FlushQueue | ephyra/enginecode/src/platform/rendering/renderer3D.cpp:203-281 | follows `FlushBatchSpec` |
| Renderer3DPlatform.Renderer3D.FlushBatch | ephyra/enginecode/src/platform/rendering/renderer3D.cpp:203-281 | follows `FlushBatchSpec`; the queue ends empty; the arena is untouched |
| Renderer3DPlatform.Renderer3D.Enqueue | ephyra/enginecode/src/platform/rendering/renderer3D.cpp:122-127 | flush at capacity, then append the entry with its `MaterialInfo` |
| Renderer3DPlatform.Renderer3D.AppendEntry | ephyra/enginecode/src/platform/rendering/renderer3D.cpp:126 | the entry is appended |
| Renderer3DPlatform.Renderer3D.DrawNow | ephyra/enginecode/src/platform/rendering/renderer3D.cpp:137-154 | follows `Immediate` |
| Renderer3DPlatform.Renderer3D.Submit | ephyra/enginecode/src/platform/rendering/renderer3D.cpp:119-157 | a batched material is queued (flushing at capacity); any other is drawn immediately; the queue is untouched then |
| Renderer3DPlatform.Renderer3D.Flush | ephyra/enginecode/src/platform/rendering/renderer3D.cpp:159-167 | flushes iff the queue is not empty |
| Materials.FlagsAreDistinctBits | ephyra/enginecode/include/independent/rendering/renderer3D.h:68-70 | the flags are the distinct single bits 1, 2 and 4 |
| Materials.InitialFlags | ephyra/enginecode/include/independent/rendering/renderer3D.h:36-57 | a constructor sets batched iff requested, texture iff textured, tint iff tinted, and no other bit |
| Materials.SetFlagKeeps | ephyra/enginecode/include/independent/rendering/renderer3D.h:77 | OR-ing a flag in never clears a set flag |
| Materials.HasFlag | ephyra/enginecode/include/independent/rendering/renderer3D.h:63 | `m_flags & flag` as a bool; for each of the three flags, set iff OR-ing it in changes nothing; never set on zero flags |
| Materials.Material.Plain | ephyra/enginecode/include/independent/rendering/renderer3D.h:36-39 | no texture, a zero tint, only `batched` possibly set |
| Materials.Material.TexturedTinted | ephyra/enginecode/include/independent/rendering/renderer3D.h:41-45 | texture and tint stored, flags texture and tint, plus batched if requested |
| Materials.Material.Textured | ephyra/enginecode/include/independent/rendering/renderer3D.h:47-51 | texture stored, flag texture, plus batched if requested |
| Materials.Material.Tinted | ephyra/enginecode/include/independent/rendering/renderer3D.h:53-57 | tint stored, flag tint, plus batched if requested |
| Materials.Material.SetFlag | ephyra/enginecode/include/independent/rendering/renderer3D.h:77 | the flags are OR-ed with the argument; texture and tint are kept |
| Materials.Material.SetTexture | ephyra/enginecode/include/independent/rendering/renderer3D.h:65 | replaces the texture only; the flags are unchanged |
| Materials.Material.SetTint | ephyra/enginecode/include/independent/rendering/renderer3D.h:66 | replaces the tint only; the flags are unchanged |
| Materials.Material.IsFlagSet | ephyra/enginecode/include/independent/rendering/renderer3D.h:63 | `HasFlag` on the material's current flags |
| RendererCommon.Quantise | ephyra/enginecode/include/Core/Rendering/API/Global/RendererCommon.h:46-49 | truncation of c·255 toward zero |
| RendererCommon.PackWords | ephyra/enginecode/include/Core/Rendering/API/Global/RendererCommon.h:51 | byte-sized channels read back from bytes 0..3; byte 0 is always red's low byte |
| RendererCommon.Pack | ephyra/enginecode/include/Core/Rendering/API/Global/RendererCommon.h:42-53 | red, green, blue and alpha are in bits 0-7, 8-15, 16-23 and 24-31 when each fits a byte |
| RendererCommon.PackExtremes | ephyra/enginecode/include/Core/Rendering/API/Global/RendererCommon.h:42-53 | opaque white packs to 0xFFFFFFFF; all zero packs to 0 |
| RendererCommon.QuantiseExact | ephyra/enginecode/include/Core/Rendering/API/Global/RendererCommon.h:46-49 | n/255 quantises back to n |
| RendererCommon.RedBleedsIntoGreen | ephyra/enginecode/include/Core/Rendering/API/Global/RendererCommon.h:46-51 | without clamping, red 256/255 packs to 0x100, setting the green byte |
| TextureAtlas.FirstFit | ephyra/enginecode/src/platform/rendering/textureAtlas.cpp:33-38 | the chosen space is the first in list order that strictly fits; with none, no space fits |
| TextureAtlas.SplitPartitions | ephyra/enginecode/src/platform/rendering/textureAtlas.cpp:76-79 | the texture, the right part and the strip below lie in the space, are disjoint, and sum to its area |
| TextureAtlas.StrictFitRulesOutExactFit | ephyra/enginecode/src/platform/rendering/textureAtlas.cpp:50-71 | a fitting texture is never as wide or as high as its space, so the exact branches never run |
| TextureAtlas.Carve | ephyra/enginecode/src/platform/rendering/textureAtlas.cpp:74-80 | the split adds one space |
| TextureAtlas.InsertByWidth | ephyra/enginecode/src/platform/rendering/textureAtlas.cpp:81 | inserting keeps the list sorted by width and adds exactly the new space |
| TextureAtlas.SortByWidth | ephyra/enginecode/src/platform/rendering/textureAtlas.cpp:81 | sorted by width, and a permutation of the input |
| TextureAtlas.InsertKeepsDisjoint | ephyra/enginecode/src/platform/rendering/textureAtlas.cpp:81 | inserting a space apart from all the others keeps the list disjoint |
| TextureAtlas.SortKeepsDisjoint | ephyra/enginecode/src/platform/rendering/textureAtlas.cpp:81 | sorting keeps the spaces pairwise disjoint |
| TextureAtlas.InsertKeepsArea | ephyra/enginecode/src/platform/rendering/textureAtlas.cpp:81 | inserting adds exactly the new space's area |
| TextureAtlas.SortKeepsArea | ephyra/enginecode/src/platform/rendering/textureAtlas.cpp:81 | sorting keeps the free area |
| TextureAtlas.InitialLayout | ephyra/enginecode/src/platform/rendering/textureAtlas.cpp:10-16 | one free space covering the atlas is a valid layout |
| TextureAtlas.CarveKeepsLayout | ephyra/enginecode/src/platform/rendering/textureAtlas.cpp:74-80 | after the split, the spaces and placed textures still tile the atlas without overlap |
| TextureAtlas.SortKeepsLayout | ephyra/enginecode/src/platform/rendering/textureAtlas.cpp:81 | sorting keeps the layout |
| TextureAtlas.AddKeepsLayout | ephyra/enginecode/src/platform/rendering/textureAtlas.cpp:74-83 | a successful add keeps the layout, and the free area drops by exactly w·h |
| TextureAtlas.Atlas.constructor | ephyra/enginecode/src/platform/rendering/textureAtlas.cpp:10-16 | one free space (0, 0, width, height), nothing placed |
| TextureAtlas.Atlas.Add | ephyra/enginecode/src/platform/rendering/textureAtlas.cpp:29-89 | fails iff the channels differ or no space fits, and then changes nothing; otherwise places the texture at the first fit's corner, splits that space and sorts by width |
| Renderer2D.FlushSpec | ephyra/enginecode/src/platform/rendering/renderer2D.cpp:246-254 | draws drawCount vertices, then resets the counter |
| Renderer2D.WriteQuad | ephyra/enginecode/src/platform/rendering/renderer2D.cpp:178-189 | writes the four vertices at start with corner, UV, unit and tint, and touches nothing else |
| Renderer2D.MakeRoom | ephyra/enginecode/src/platform/rendering/renderer2D.cpp:160-166 | afterwards four more vertices fit and the ring is not full |
| Renderer2D.CentreHalfExtents | ephyra/enginecode/src/platform/rendering/renderer2D.cpp:273-282 | the quad's corners are centre ± half extents; translate z is 0 and scale z is 1 |
| Renderer2D.Submit | ephyra/enginecode/src/platform/rendering/renderer2D.cpp:158-192 | the counter ends at least 4 and the batch stays valid |
| Renderer2D.SubmitCounts | ephyra/enginecode/src/platform/rendering/renderer2D.cpp:158-192 | flushes first iff the batch or the ring is full; the counter ends 4 past the write and never exceeds the batch size |
| Renderer2D.SubmitWritesOneQuad | ephyra/enginecode/src/platform/rendering/renderer2D.cpp:178-189 | the four vertices get the corners, UVs (start/end pattern), one packed tint and one unit |
| Renderer2D.SubmitKeepsOtherVertices | ephyra/enginecode/src/platform/rendering/renderer2D.cpp:178-189 | no vertex outside the four is changed |
| Renderer2D.SubmitUnit | ephyra/enginecode/src/platform/rendering/renderer2D.cpp:168-172 | the written unit is the one the texture was loaded into, unless that lookup filled the ring, in which case it is 0 |
| Renderer2D.SubmitChar | ephyra/enginecode/src/platform/rendering/renderer2D.cpp:205-227 | a character outside [firstGlyph, lastGlyph] changes nothing |
| Renderer2D.CharAdvance | ephyra/enginecode/src/platform/rendering/renderer2D.cpp:214-217 | the advance written back: the glyph's advance times the scale for a printable character; the caller's value, unchanged, otherwise |
| Renderer2D.SubmitString | ephyra/enginecode/src/platform/rendering/renderer2D.cpp:229-239 | the batch stays valid |
| Renderer2D.StringPenAdvance | ephyra/enginecode/src/platform/rendering/renderer2D.cpp:229-239 | the pen moves by the advance in force after each character, which is the last printable one's, or 0 |
| Renderer2D.UnprintableStringDrawsNothing | ephyra/enginecode/src/platform/rendering/renderer2D.cpp:229-239 | a string without printable characters draws nothing and leaves the pen in place |
| Renderer2D.Expand | ephyra/enginecode/src/platform/rendering/renderer2D.cpp:256-271 | the expansion is four times as long as the bitmap |
| Renderer2D.ExpandPixel | ephyra/enginecode/src/platform/rendering/renderer2D.cpp:262-267 | pixel p is (255, 255, 255, src[p]) |
| Renderer2D.ExpandAlphaRoundTrip | ephyra/enginecode/src/platform/rendering/renderer2D.cpp:256-271 | the alpha channel gives the bitmap back |
| Renderer2D.ExpandRow | ephyra/enginecode/src/platform/rendering/renderer2D.cpp:261-268 | expands one row and touches no other byte |
| Renderer2D.R2RGBA | ephyra/enginecode/src/platform/rendering/renderer2D.cpp:256-271 | the first 4·w·h bytes are the expansion; later bytes are untouched |
| Renderer2D.Renderer.constructor | ephyra/enginecode/src/platform/rendering/renderer2D.cpp:57-61 | counter 0; vertices 0..3 hold the unit quad's corners with UVs (0,0), (0,1), (1,1), (1,0), unit 0 and packed white; the other `batchSize` − 4 vertices are zeroed: origin position and UV, unit 0, tint 0 (see Left out) |
| Renderer2D.Renderer.Begin | ephyra/enginecode/src/platform/rendering/renderer2D.cpp:133-135 | the counter becomes 0 |
| Renderer2D.Renderer.Flush | ephyra/enginecode/src/platform/rendering/renderer2D.cpp:246-254 | follows `FlushSpec` |
| Renderer2D.Renderer.End | ephyra/enginecode/src/platform/rendering/renderer2D.cpp:241-244 | flushes iff the counter is positive |
| Renderer2D.Renderer.Room | ephyra/enginecode/src/platform/rendering/renderer2D.cpp:160-166 | follows `MakeRoom` |
| Renderer2D.Renderer.PutQuad | ephyra/enginecode/src/platform/rendering/renderer2D.cpp:178-189 | follows `WriteQuad` |
| Renderer2D.Renderer.SubmitQuad | ephyra/enginecode/src/platform/rendering/renderer2D.cpp:158-192 | follows `Submit` |
| Renderer2D.Renderer.SubmitTinted | ephyra/enginecode/src/platform/rendering/renderer2D.cpp:148-151 | `Submit` with the default sub-texture |
| Renderer2D.Renderer.SubmitTextured | ephyra/enginecode/src/platform/rendering/renderer2D.cpp:153-156 | `Submit` with opaque white |
| Renderer2D.Renderer.SubmitCharacter | ephyra/enginecode/src/platform/rendering/renderer2D.cpp:205-227 | follows `SubmitChar`; writes the advance only for printable characters |
| Renderer2D.Renderer.SubmitText | ephyra/enginecode/src/platform/rendering/renderer2D.cpp:229-239 | follows `SubmitString` |
| ShaderSource.Index | ephyra/enginecode/src/platform/OpenGL/OpenGLShader.cpp:50 | each stage has a slot below 6 in the source array |
| ShaderSource.ContainsOccurs | ephyra/enginecode/src/platform/OpenGL/OpenGLShader.cpp:63-68 | `find != npos` iff the marker occurs in the line |
| ShaderSource.MarkerPrecedence | ephyra/enginecode/src/platform/OpenGL/OpenGLShader.cpp:63-68 | a marker line is one containing some marker; it switches to the first marker in precedence order |
| ShaderSource.Step | ephyra/enginecode/src/platform/OpenGL/OpenGLShader.cpp:63-69 | one line keeps the six source slots |
| ShaderSource.ScanFrom | ephyra/enginecode/src/platform/OpenGL/OpenGLShader.cpp:61-70 | the loop from any state keeps six source slots |
| ShaderSource.Scan | ephyra/enginecode/src/platform/OpenGL/OpenGLShader.cpp:52-70 | the loop from no region, empty sources and no flags keeps six source slots; its meaning is stated by `ScanCollects` and `ScanFlags` |
| ShaderSource.ScanCollects | ephyra/enginecode/src/platform/OpenGL/OpenGLShader.cpp:61-70 | each stage's source is exactly the non-marker lines under its markers, each with a newline, in file order |
| ShaderSource.ScanFlags | ephyra/enginecode/src/platform/OpenGL/OpenGLShader.cpp:63-68 | a stage is flagged iff some line switched to it |
| ShaderSource.ScanFromAppend | ephyra/enginecode/src/platform/OpenGL/OpenGLShader.cpp:61-70 | scanning two pieces is scanning the whole |
| ShaderSource.PreambleKeepsInitial | ephyra/enginecode/src/platform/OpenGL/OpenGLShader.cpp:54-69 | lines before any marker leave the initial state |
| ShaderSource.PreambleDiscarded | ephyra/enginecode/src/platform/OpenGL/OpenGLShader.cpp:54-69 | a preamble without markers does not affect the result |
| ShaderSource.CollectedGrows | ephyra/enginecode/src/platform/OpenGL/OpenGLShader.cpp:69 | re-entering a region appends to its text |
| ShaderSource.SplitRegions | ephyra/enginecode/src/platform/OpenGL/OpenGLShader.cpp:48-70 | the line loop follows `Scan` |
| ShaderSource.FlaggedMembers | ephyra/enginecode/src/platform/OpenGL/OpenGLShader.cpp:88-135 | a stage is built iff it is flagged |
| ShaderSource.FlaggedOrdered | ephyra/enginecode/src/platform/OpenGL/OpenGLShader.cpp:139-156 | flagged stages keep the fixed order, once each |
| ShaderSource.Compiles | ephyra/enginecode/src/platform/OpenGL/OpenGLShader.cpp:88-135 | one compile per stage, from that stage's source |
| ShaderSource.Attaches | ephyra/enginecode/src/platform/OpenGL/OpenGLShader.cpp:140-145 | one attach per stage |
| ShaderSource.Deletes | ephyra/enginecode/src/platform/OpenGL/OpenGLShader.cpp:151-156 | one delete per stage |
| ShaderSource.EveryStageOrdered | ephyra/enginecode/src/platform/OpenGL/OpenGLShader.cpp:88-156 | every stage appears in the compile order and in the attach order |
| ShaderSource.ProgramStages | ephyra/enginecode/src/platform/OpenGL/OpenGLShader.cpp:88-156 | a stage is compiled, attached and deleted iff it was flagged |
| ShaderSource.ProgramCompilesFirst | ephyra/enginecode/src/platform/OpenGL/OpenGLShader.cpp:88-135 | the work opens with one compile per flagged stage |
| ShaderSource.AttachOrdered | ephyra/enginecode/src/platform/OpenGL/OpenGLShader.cpp:140-156 | attach and delete follow vertex, tess-control, tess-eval, geometry, fragment, compute |
| ShaderSource.LoadRegions | ephyra/enginecode/src/platform/OpenGL/OpenGLShader.cpp:48-157 | an unopenable file gives no GL work; otherwise the flagged stages are built |
| ShaderSource.JoinedLinesRoundTrip | ephyra/enginecode/src/platform/OpenGL/OpenGLShader.cpp:22 | for lines without '\n', reading the joined text back with `getline` gives the same lines |
| ShaderSource.ReadSource | ephyra/enginecode/src/platform/OpenGL/OpenGLShader.cpp:22 | the read loop builds line + "\n" for each line |
| ShaderSource.LoadPair | ephyra/enginecode/src/platform/OpenGL/OpenGLShader.cpp:15-46 | either file failing gives no work; otherwise one compile-and-link of the two sources |
| VertexArray.ToGLType | ephyra/enginecode/src/platform/OpenGL/OpenGlVertexArray.cpp:13-32 | the GL type of each data type, as an iff per class |
| VertexArray.ColumnsLaidOut | ephyra/enginecode/src/platform/OpenGL/OpenGlVertexArray.cpp:77-101 | `Mat4` columns take consecutive indices, with offsets 4·count·i whatever the element's offset |
| VertexArray.ElementLaidOut | ephyra/enginecode/src/platform/OpenGL/OpenGlVertexArray.cpp:57-122 | a flat element takes one index on the integer path; any other non-matrix element takes one index with its own offset and normalised flag |
| VertexArray.LayoutLaidOut | ephyra/enginecode/src/platform/OpenGL/OpenGlVertexArray.cpp:45-125 | a layout's attributes take consecutive indices |
| VertexArray.VertexArrayObject.constructor | ephyra/enginecode/src/platform/OpenGL/OpenGlVertexArray.cpp:34-38 | no buffers, index counter 0, no index buffer |
| VertexArray.VertexArrayObject.AddColumns | ephyra/enginecode/src/platform/OpenGL/OpenGlVertexArray.cpp:77-101 | one attribute per column |
| VertexArray.VertexArrayObject.AddElement | ephyra/enginecode/src/platform/OpenGL/OpenGlVertexArray.cpp:57-122 | follows `ElementAttributes` |
| VertexArray.VertexArrayObject.AddVertexBuffer | ephyra/enginecode/src/platform/OpenGL/OpenGlVertexArray.cpp:45-125 | appends the buffer; its attributes continue the index count without reset |
| VertexArray.VertexArrayObject.SetIndexBuffer | ephyra/enginecode/src/platform/OpenGL/OpenGlVertexArray.cpp:127-130 | replaces any previous index buffer |
| VertexArray.VertexArrayObject.DrawCount | ephyra/enginecode/include/platform/OpenGl/OpenGLVertexArray.h:18 | the index buffer's count, or 0 without one |
| ResourceManager.OfType | ephyra/enginecode/include/Core/Resources/Management/ResourceManager.h:68-76 | membership iff in the list with that type |
| ResourceManager.Lookup | ephyra/enginecode/include/Core/Resources/Management/ResourceManager.h:59-66 | found iff some record has the id, and then the payload of the first such record |
| ResourceManager.AppendShadowed | ephyra/enginecode/include/Core/Resources/Management/ResourceManager.h:53-65 | a later duplicate never changes what an id looks up to |
| ResourceManager.AppendFresh | ephyra/enginecode/include/Core/Resources/Management/ResourceManager.h:53-65 | a fresh id looks up to its asset |
| ResourceManager.AppendOtherId | ephyra/enginecode/include/Core/Resources/Management/ResourceManager.h:53-65 | appending another id changes no lookup |
| ResourceManager.OfTypeAppend | ephyra/enginecode/include/Core/Resources/Management/ResourceManager.h:68-76 | a new record joins the end of its own type's list only |
| ResourceManager.AssetTable.constructor | ephyra/enginecode/include/Core/Resources/Management/ResourceManager.h:156 | the list starts empty |
| ResourceManager.AssetTable.AddAsset | ephyra/enginecode/include/Core/Resources/Management/ResourceManager.h:53-57 | appends (id, type, asset) and returns the asset |
| ResourceManager.AssetTable.GetAsset | ephyra/enginecode/include/Core/Resources/Management/ResourceManager.h:59-66 | the first record with the id, whatever its type, or null |
| ResourceManager.AssetTable.GetAllOf | ephyra/enginecode/include/Core/Resources/Management/ResourceManager.h:68-76 | the records of that type, in order |
| ResourceManager.AssetTable.GetAll | ephyra/enginecode/include/Core/Resources/Management/ResourceManager.h:78-80 | the whole list, in order |
| LayerStack.Focused | ephyra/enginecode/include/Core/Resources/Utility/LayerStack.h:48-68 | the focused layers of the stack |
| LayerStack.Deliver | ephyra/enginecode/include/Core/Resources/Utility/LayerStack.h:48-68 | at most one receiver per layer; an event that comes in handled reaches nobody and stays handled; one that leaves handled reached some layer |
| LayerStack.PushSpec | ephyra/enginecode/include/Core/Resources/Utility/LayerStack.h:36-40 | the new layer is on top and the layers below are unchanged; the call log keeps its old calls and gains two |
| LayerStack.PopSpec | ephyra/enginecode/include/Core/Resources/Utility/LayerStack.h:42-47 | an empty stack is unchanged; otherwise the remaining layers plus the old top are the old layers, and the call log only grows |
| LayerStack.DeliverStops | ephyra/enginecode/include/Core/Resources/Utility/LayerStack.h:48-68 | only focused layers receive the event; all but the last receiver left it unhandled; the result is handled iff it came in handled or the last receiver handled it |
| LayerStack.UnhandledReachesAllFocused | ephyra/enginecode/include/Core/Resources/Utility/LayerStack.h:48-68 | when nobody handles it, every focused layer receives it, in push order |
| LayerStack.Teardown | ephyra/enginecode/include/Core/Resources/Utility/LayerStack.h:30-34 | detaches every layer, bottom to top |
| LayerStack.PushThenPop | ephyra/enginecode/include/Core/Resources/Utility/LayerStack.h:36-47 | push then pop restores the layers, with calls bind, attach, detach |
| LayerStack.PopShrinks | ephyra/enginecode/include/Core/Resources/Utility/LayerStack.h:42-47 | pop is a no-op on an empty stack, else it detaches and removes only the top |
| LayerStack.Stack.constructor | ephyra/enginecode/include/Core/Resources/Utility/LayerStack.h:11 | empty stack, no calls |
| LayerStack.Stack.Push | ephyra/enginecode/include/Core/Resources/Utility/LayerStack.h:36-40 | follows `PushSpec`: append, bind, attach |
| LayerStack.Stack.Pop | ephyra/enginecode/include/Core/Resources/Utility/LayerStack.h:42-47 | follows `PopSpec` |
| LayerStack.Stack.Destroy | ephyra/enginecode/include/Core/Resources/Utility/LayerStack.h:30-34 | appends `Teardown` of the layers |
| LayerStack.Stack.Dispatch | ephyra/enginecode/include/Core/Resources/Utility/LayerStack.h:48-68 | follows `Deliver` |
| InputPoller.Move | ephyra/enginecode/src/independent/core/inputPoller.cpp:18-34 | deltas are x − lastX and lastY − y, seeded from the start position on the first move |
| InputPoller.DeltasTelescope | ephyra/enginecode/src/independent/core/inputPoller.cpp:18-34 | over any run of moves the deltas sum to the distance travelled, with y flipped |
| InputPoller.CountPressed | ephyra/enginecode/src/independent/core/inputPoller.cpp:59-67 | positive iff some key is held |
| InputPoller.CountAsWritten | ephyra/enginecode/src/independent/core/inputPoller.cpp:59-67 | the assignment in the test counts every slot |
| InputPoller.AnyKeyAsWrittenDisagrees | ephyra/enginecode/src/independent/core/inputPoller.cpp:64 | with no key held, the shipped count is positive and the true count is 0 |
| InputPoller.KeyGuardAdmitsUnknownKey | ephyra/enginecode/src/independent/core/inputPoller.cpp:72 | key −1 passes the guard but has no slot |
| InputPoller.ClickGuardAdmitsMiddleButton | ephyra/enginecode/src/independent/core/inputPoller.cpp:38 | button 2 passes the guard but has no slot |
| InputPoller.AxisMoveNotReported | ephyra/enginecode/include/independent/core/inputPoller.h:34 | a move along one axis only is not reported by `mouseHasMoved` |
| InputPoller.Poller.constructor | ephyra/enginecode/include/independent/core/inputPoller.h:43-55 | no key or button held, deltas 0, first press pending, start at the screen centre |
| InputPoller.Poller.ProcessMouseScroll | ephyra/enginecode/src/independent/core/inputPoller.cpp:11-16 | overwrites the offsets |
| InputPoller.Poller.ProcessMouseMove | ephyra/enginecode/src/independent/core/inputPoller.cpp:18-34 | follows `Move` |
| InputPoller.Poller.ProcessMouseClick | ephyra/enginecode/src/independent/core/inputPoller.cpp:36-49 | press sets and release clears a button with a slot, so `isLeftClicked` / `isRightClicked` then answer true / false; anything else changes nothing |
| InputPoller.Poller.EndFrame | ephyra/enginecode/src/independent/core/inputPoller.cpp:52-56 | both deltas become 0 |
| InputPoller.Poller.KeyHasBeenPressed | ephyra/enginecode/src/independent/core/inputPoller.cpp:59-67 | true iff some key is held |
| InputPoller.Poller.KeyHasBeenPressedAsWritten | ephyra/enginecode/src/independent/core/inputPoller.cpp:59-67 | always true |
| InputPoller.Poller.ProcessKeyPress | ephyra/enginecode/src/independent/core/inputPoller.cpp:69-81 | press sets and release clears a key with a slot, so `isKeyPressed` then answers true / false; any other action changes nothing |
| InputPoller.Poller.ProcessedKey | ephyra/enginecode/include/independent/core/inputPoller.h:39 | clears exactly key k |
| InputPoller.Poller.IsDragging | ephyra/enginecode/include/independent/core/inputPoller.h:33 | always false, since nothing sets the flag |
| InputPoller.Poller.IsKeyPressed | ephyra/enginecode/include/independent/core/inputPoller.h:38 | slot k; a held key makes the corrected `keyHasBeenPressed` count positive |
| InputPoller.Poller.IsLeftClicked | ephyra/enginecode/include/independent/core/inputPoller.h:32 | the slot of GLFW's left button (0) |
| InputPoller.Poller.IsRightClicked | ephyra/enginecode/include/independent/core/inputPoller.h:31 | the slot of GLFW's right button (1) |
| InputPoller.Poller.MouseHasMoved | ephyra/enginecode/include/independent/core/inputPoller.h:34 | true iff the product of the deltas is non-zero, so a move along one axis is not reported |
| AssimpHelpers.ToGlm | ephyra/enginecode/include/Core/Resources/Utility/AssimpHelperFunctions.h:16-23 | the transpose: glm[c][r] = assimp[r][c] |
| AssimpHelpers.ToGlmTwice | ephyra/enginecode/include/Core/Resources/Utility/AssimpHelperFunctions.h:16-23 | converting twice gives the matrix back |
| AssimpHelpers.ToGlmQuatAsWritten | ephyra/enginecode/include/Core/Resources/Utility/AssimpHelperFunctions.h:29-31 | every component lands one place over |
| AssimpHelpers.QuatShuffleBreaksIdentity | ephyra/enginecode/include/Core/Resources/Utility/AssimpHelperFunctions.h:29-31 | the identity becomes (0, 0, 0, 1) |
| AssimpHelpers.ToGlmQuat | ephyra/enginecode/include/Core/Resources/Utility/AssimpLoader.h:127-132 | component-wise conversion |
| AssimpHelpers.FindNodeAnim | ephyra/enginecode/include/Core/Resources/Utility/AssimpHelperFunctions.h:33-41 | returns the first channel with the name (`FirstChannel`), or null |
| AssimpHelpers.KeyIndexFrom | ephyra/enginecode/include/Core/Resources/Utility/AssimpHelperFunctions.h:43-74 | the least i ≤ n−2 with time < key[i+1], else 0 |
| AssimpHelpers.FindKeyIndex | ephyra/enginecode/include/Core/Resources/Utility/AssimpHelperFunctions.h:43-52 | the search loop follows `KeyIndex` |
| AssimpHelpers.KeyIndexBrackets | ephyra/enginecode/include/Core/Resources/Utility/AssimpHelperFunctions.h:43-52 | on ascending keys, the time lies in [key[i], key[i+1]) |
| AssimpHelpers.KeyIndexPastEnd | ephyra/enginecode/include/Core/Resources/Utility/AssimpHelperFunctions.h:50-51 | the result is 0 at or past the last key of an ascending list, and 0 for any time when there is a single key |
| AssimpHelpers.SampleKeys | ephyra/enginecode/include/Core/Resources/Utility/AssimpHelperFunctions.h:77-83 | a single key iff n = 1; otherwise the next index is index + 1 and inside the list |
| AssimpHelpers.SingleVecKey | ephyra/enginecode/include/Core/Resources/Utility/AssimpHelperFunctions.h:77-79 | key 0's value, unchanged |
| AssimpHelpers.SingleQuatKey | ephyra/enginecode/include/Core/Resources/Utility/AssimpHelperFunctions.h:93-95 | key 0's rotation, component-wise; a single key takes the single-key branch |
| AssimpLoader.FreeSlot | ephyra/enginecode/include/Core/Resources/Utility/AssimpLoader.h:26-27 | the first slot of weight 0, if any |
| AssimpLoader.AddBone | ephyra/enginecode/include/Core/Resources/Utility/AssimpLoader.h:25-33 | a vertex keeps exactly four id and weight slots; `AddBoneTouchesOneSlot` says which slot changes |
| AssimpLoader.AddBoneTouchesOneSlot | ephyra/enginecode/include/Core/Resources/Utility/AssimpLoader.h:25-33 | only the first free slot changes; with none, nothing changes |
| AssimpLoader.AddBones | ephyra/enginecode/include/Core/Resources/Utility/AssimpLoader.h:25-33 | repeated `addBoneData` keeps exactly four slots |
| AssimpLoader.BonesFillInOrder | ephyra/enginecode/include/Core/Resources/Utility/AssimpLoader.h:22-33 | up to four bones fill slots 0, 1, 2… in order |
| AssimpLoader.FifthBoneDropped | ephyra/enginecode/include/Core/Resources/Utility/AssimpLoader.h:26-32 | a fifth bone is dropped |
| AssimpLoader.VertexBoneData.constructor | ephyra/enginecode/include/Core/Resources/Utility/AssimpLoader.h:22-23 | all slots are zero |
| AssimpLoader.VertexBoneData.AddBoneData | ephyra/enginecode/include/Core/Resources/Utility/AssimpLoader.h:25-33 | follows `AddBone` |
| AssimpLoader.LoaderToGlm | ephyra/enginecode/include/Core/Resources/Utility/AssimpLoader.h:90-103 | the transpose |
| AssimpLoader.LoaderMatchesHelper | ephyra/enginecode/include/Core/Resources/Utility/AssimpLoader.h:90-103 | agrees with the helper version |
| AssimpLoader.Keyframes | ephyra/enginecode/include/Core/Resources/Utility/AssimpLoader.h:121-140 | one keyframe per position key; rotation and scale from the same index if there is one, defaults otherwise |
| AssimpLoader.BuildKeyframes | ephyra/enginecode/include/Core/Resources/Utility/AssimpLoader.h:118-140 | the key loop follows `Keyframes` |
| AssimpLoader.LaterChannelWins | ephyra/enginecode/include/Core/Resources/Utility/AssimpLoader.h:116-143 | a name is present iff some channel has it; it maps to the last such channel's keyframes |
| AssimpLoader.BuildBoneKeyframes | ephyra/enginecode/include/Core/Resources/Utility/AssimpLoader.h:116-143 | the channel loop follows `BoneKeyframes` |
| AssimpLoader.Convert | ephyra/enginecode/include/Core/Resources/Utility/AssimpLoader.h:111-143 | keeps the duration; a tick rate of 0 becomes 25; the bone keyframes are `BoneKeyframes` of the channels |
| AssimpLoader.Skeleton.constructor | ephyra/enginecode/include/Core/Resources/Utility/AssimpLoader.h:109 | a skeleton starts with no animations |
| AssimpLoader.Skeleton.ProcessAnimations | ephyra/enginecode/include/Core/Resources/Utility/AssimpLoader.h:109-147 | one converted animation per source animation, appended in order |
| AssimpLoader.CollectIndices | ephyra/enginecode/include/Core/Resources/Utility/AssimpLoader.h:192-199 | every face's indices, face by face |
| AssimpLoader.FlattenAppend | ephyra/enginecode/include/Core/Resources/Utility/AssimpLoader.h:192-199 | the index list of two runs of faces is the first run's list followed by the second's, and its length is the faces' total size |
| AssimpLoader.FaceIndicesAt | ephyra/enginecode/include/Core/Resources/Utility/AssimpLoader.h:192-199 | face i's indices sit in the index list exactly at the offset given by the sizes of the faces before it |
| AssimpLoader.RecordMeshId | ephyra/enginecode/include/Core/Resources/Utility/AssimpLoader.h:151 | the mesh's id is appended to its file's list, created empty on first use; every other file's list is unchanged |
| AssimpLoader.LastIndexOf | ephyra/enginecode/include/Core/Resources/Utility/AssimpLoader.h:235 | `rfind`: found iff present; the last occurrence |
| AssimpLoader.PathSplits | ephyra/enginecode/include/Core/Resources/Utility/AssimpLoader.h:234-239 | directory + file name = path; the directory is empty or ends in '/' |
| AssimpLoader.Tag | ephyra/enginecode/include/Core/Resources/Utility/AssimpLoader.h:236-240 | the file name cut at its last '.'; none without a '.' |
| AssimpLoader.SliceTag | ephyra/enginecode/include/Core/Resources/Utility/AssimpLoader.h:236-240 | the tag loop follows `Tag` |
| AssimpLoader.WithSlot | ephyra/enginecode/include/Core/Resources/Utility/AssimpLoader.h:243-286 | sets the texture of one kind and keeps the others |
| AssimpLoader.CollectTextures | ephyra/enginecode/include/Core/Resources/Utility/AssimpLoader.h:224-291 | every added record is a texture whose id starts with `ID`; `CollectTexturesRecords` states the records exactly |
| AssimpLoader.CollectTexturesRecords | ephyra/enginecode/include/Core/Resources/Utility/AssimpLoader.h:224-291 | the loop adds exactly one record (`ID` + tag, `Texture`, the texture created from the model's directory + file name) per texture of a handled type, in order, up to the first file name without '.'; it throws iff such a file name occurs |
| AssimpLoader.LastTextureOfKindWins | ephyra/enginecode/include/Core/Resources/Utility/AssimpLoader.h:224-291 | each kind's texture is the one created for the last reference of that kind, or none |
| AssimpLoader.ProcessTextures | ephyra/enginecode/include/Core/Resources/Utility/AssimpLoader.h:224-291 | follows `CollectTextures`; the table gains exactly `TextureRecords` (one `ID` + tag texture record per handled texture, in order, up to the first throw), and the loop throws iff a handled file name has no '.' |
| AssimpLoader.FailureSticks | ephyra/enginecode/include/Core/Resources/Utility/AssimpLoader.h:240 | after a throw, later textures change nothing |
| AssimpLoader.BuildMaterial | ephyra/enginecode/include/Core/Resources/Utility/AssimpLoader.h:312-335 | five slots, each the default texture unless filled: diffuse → 0, specular → 1, ambient → 3, the height map's normal texture → 4; slot 2 always default; not batched |
| AssimpLoader.DiffuseTint | ephyra/enginecode/include/Core/Resources/Utility/AssimpLoader.h:298-305 | an untextured mesh takes the diffuse colour when the material has one; a textured mesh, or a material without one, gets white |

## Left out

- File and window I/O, the GLFW and OpenGL calls themselves, and timing are not modelled. GPU work appears only as events in a ghost trace, and opening a file is an `Option` of its lines.
- `Renderer3D::init` and `Renderer2D::init` build GPU objects, shaders and uniform buffers. Only the capacities, cursors and queue they set up are modelled. `begin` and its scene-wide uniforms are left out for the 3D renderers.
- Lights, the indirect-buffer upload size, and the uniform uploads inside `flushBatchCommands` are left out. The draw is recorded with its rows and the instance streams it uploads.
- The platform input poller is compiled only under `NG_PLATFORM_WINDOWS`. The model takes that branch.
- Floating point is modelled with `real`: no rounding, no `float` range, and no double-to-float cast of key times.
- Renderer3DCore.Renderer3D.PostProcessFrame: `frameCount` is a `nat` that grows by one each frame; the source's `RendererCommon::frameCount` is a `float` (RendererCommon.h:37), so its `frameCount++` stops changing after 2^24 frames, which the model does not capture.
- Renderer2D.Renderer.constructor: the vertices past the unit quad are `BlankVertex`, with unit 0 and tint 0; the source's `Renderer2DVertex()` (renderer2D.h:22) leaves `texUnit` and `tint` uninitialised, and the model gives them a fixed value instead. The model also sets `drawCount` to 0 here, while the source's `InternalData` declares it without an initialiser (renderer2D.h:80), so it is indeterminate until `begin` sets it to 0 (renderer2D.cpp:135).
- `Batching.SortBy`: the source uses `std::sort`, which is not stable. The model fixes one order for equal keys (submission order). Every property proved holds for any sorted permutation only where the lemma says so (`SortedLastIsLargest`, `SortedRowCoverage`).
- `TextureAtlas.SortByWidth`: the same `std::sort` instability applies to spaces of equal width.
- `Renderer3DCore.Bind`: the `texUnit` array is declared without initialisation. Slots the first entry never writes are `None`, not whatever the stack held.
- `Renderer3DCore.Renderer3D.Submit`: the newer `Material` header is not part of this model. A material is a `CoreMaterial` value with at most five textures, a shader, a tint and flags, captured by value at submit, so changes between submit and flush are not seen.
- `Renderer3DCore.Renderer3D.Submit`: requires `geometry.id < |batchCommands|`, as do the walk's helpers (`CountEntry`, `CountAndSplit`, `WalkEntry`, `Enqueue`, `AppendEntry`). The source queues any geometry; a batched entry whose id has no row makes `batchCommands.at(index)` throw `std::out_of_range` at flush (Renderer3D.cpp:315-324), and that throw is not modelled. Such ids do occur: `addGeometry` sets `geo.id` only on success (Renderer3D.cpp:266-292), and `ASSIMPProcessMesh` ignores its result and stores the geometry anyway (AssimpLoader.h:307-310).
- `Renderer3DCore.Renderer3D.FlushBatchCommands`: at a split in the middle of the walk (Renderer3D.cpp:334-337), the source uploads running + 1 elements of each texture-unit stream. At the first split these streams hold only running elements, because the current entry's units are pushed after the split. So `edit` reads one element past the end of each vector (Renderer3D.cpp:421-425). The model uploads what each stream holds (`Batching.Take`), so the recorded draw has fewer unit sets than instances (`SplitDrawLacksCurrentUnits`). The value of the out-of-range read is not modelled.
- `Renderer3DPlatform.Renderer3D.FlushBatchCommands`: the same over-read at a split in the middle of the walk (renderer3D.cpp:240-251 with 306-313), on the unit stream and the `MaterialInfo` stream. The model uploads what they hold (`SplitDrawLacksCurrentUnit`).
- `Renderer3DCore.Renderer3D.FlushBatch`: the class method follows the source's walk, with the split that keeps the rows and streams (see Findings). The repaired walk is stated beside it as `FlushFixed` and its lemmas, and no method runs it.
- `Renderer3DPlatform.Renderer3D.FlushBatch`: the same; the repaired walk is `Renderer3DPlatform.FlushFixed`.
- `Renderer3DPlatform.Renderer3D.Submit`: requires the material to carry a texture, because both paths read the texture's id without a null check.
- `Renderer3DPlatform.Renderer3D.Submit`: also requires `geometry.id < |batchCommands|`, as do the walk's helpers (`CountEntry`, `CountAndSplit`, `WalkEntry`, `Enqueue`, `AppendEntry`). The source queues any geometry; a batched entry whose id has no row makes `batchCommands.at(index)` throw `std::out_of_range` at flush (renderer3D.cpp:224-233), and that throw is not modelled. Such ids do occur: `addGeometry` sets `geo.id` only on success, and `ASSIMPProcessMesh` ignores its result and stores the geometry anyway (AssimpLoader.h:307-310).
- `Renderer2D.Submit`: the source's first lookup reads `texture.getTextureID()` and its second reads `getBaseTexture()->getID()`. The model uses one id for both.
- `Renderer2D.Renderer.SubmitCharacter`: the overloads without `charSize` (renderer2D.cpp:194-203) forward with 100, and are this method called with 100. Glyph positions are kept as real numbers.
- `RendererCommon.Pack`: channels are real numbers. It requires c·255 to be convertible to `uint32_t`, because outside that range the cast is undefined.
- `VertexArray.VertexArrayObject.constructor`: `componentCount` (ShaderDataType.h) is not part of this model, so the column count of a `Mat4` is a constructor argument.
- `AssimpHelpers.SingleQuatKey`: the source returns the single rotation through the shuffled conversion. The model uses the corrected one; see Findings.
- The interpolating branches of `interpolate*` and the float blending (slerp, mix) are left out. Only the index search and the single-key branches are modelled.
- `ASSIMPLoad`, `ASSIMPProcessNode` and the vertex loop of `ASSIMPProcessMesh` (positions, normals, UVs, bone weights) are file and GPU plumbing, and are left out. So are the `addGeometry` call and the `Geometry` and `Material` asset records it adds.
- `ASSIMPLoad` returns early for a file already loaded (AssimpLoader.h:365-371), reading the `MappedIDs` lists that `ASSIMPProcessMesh` fills (modelled as `AssimpLoader.RecordMeshId`). `ASSIMPLoad` is left out, so nothing in the model reads those lists.
- `AssimpLoader.CollectTextures`: a file name without '.' makes `resize(npos)` throw. The model stops there, with a failure flag.
- `SceneManager`, `Application` and the sandbox layers are outside the core.

## Findings

For the split rows below, the repaired walk (`StepFixed`, `WalkFixed`, `FlushFixed` in each renderer module) draws the instances counted so far before it counts the entry that found the ring full, then zeroes the rows and empties the streams. Without a split it is the source's walk (`FlushFixedWithoutSplit`).

| source | as written | input that shows it | evidently intended | confidence | as-written member | corrected member |
|---|---|---|---|---|---|---|
| ephyra/enginecode/src/independent/core/inputPoller.cpp:38 | `processMouseClick` guards `button < 350`, but the button array has two slots | button 2 (the middle button), action 1: writes `m_mouseButtonPressed[2]`, out of bounds | only buttons 0 and 1 update state | high, not executed | InputPoller.ClickGuardAdmitsMiddleButton | InputPoller.Poller.ProcessMouseClick |
| ephyra/enginecode/src/independent/core/inputPoller.cpp:72 | `processKeyPress` guards only `key < 350` | key −1 (GLFW's unknown key), action 1: writes `m_keysPressed[-1]` | only keys 0..349 update state | high, not executed | InputPoller.KeyGuardAdmitsUnknownKey | InputPoller.Poller.ProcessKeyPress |
| ephyra/enginecode/src/independent/core/inputPoller.cpp:64 | `if (a = true)` assigns, so every slot is counted | no key held: returns true | true iff some key is held | high, not executed | InputPoller.AnyKeyAsWrittenDisagrees | InputPoller.Poller.KeyHasBeenPressed |
| ephyra/enginecode/src/Core/Rendering/API/Renderer3D.cpp:271-272 | `count + cursor > capacity` on `uint32_t` can wrap | 0xFFFFFFFB vertices at cursor 10, capacity 100: the sum wraps to 5, so the block is accepted | reject any block that does not fit | medium, not executed | Batching.WrappedCapacityTestAdmitsOverflow | Batching.AddGeometry |
| ephyra/enginecode/include/Core/Resources/Utility/AssimpHelperFunctions.h:29-31 | `glm::quat(x, y, z, w)` with glm's (w, x, y, z) parameter order | the identity (w=1, 0, 0, 0) becomes (0, 0, 0, 1) | component-wise conversion | high, not executed | AssimpHelpers.QuatShuffleBreaksIdentity | AssimpHelpers.ToGlmQuat |
| ephyra/enginecode/src/Core/Rendering/API/Renderer3D.cpp:334-338 | a split draws and resets the counter, but neither zeroes the rows nor empties the instance streams | one-unit ring, queue G1, G2, G3 under one shader: the split at G3 draws rows G1, G2 and G3 with n = 1 and uploads only G1's model, so G1 and G2 are drawn again (the rows ask for 5 instances, the `n` arguments sum to 3) | each sub-batch draws only the instances counted since the previous draw | medium, not executed | Renderer3DCore.SplitRedrawCounts | Renderer3DCore.FlushFixedDrawsEachEntryOnce |
| ephyra/enginecode/src/platform/rendering/renderer3D.cpp:240-244 | the same split without zeroing the rows or emptying the streams | one-unit ring, queue G1, G2, G3 under one shader: the split at G3 has rows asking for 3 instances and n = 1 | each sub-batch draws only the instances counted since the previous draw | medium, not executed | Renderer3DPlatform.SplitDrawRowsCountEveryWalkedEntry | Renderer3DPlatform.FlushFixedDrawsEachEntryOnce |
