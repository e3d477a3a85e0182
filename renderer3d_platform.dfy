/**
 * The older batched 3D renderer of the platform layer (`Renderer3D` with one texture per
 * material and `MaterialInfo` scalars per instance).
 *
 * It shares the arena, the queue ordering and the row counting with the core renderer, but
 * each walked entry resolves a single texture unit, loads the texture only when the ring
 * already held it, packs the tint whatever the flags say and pushes the entry's albedo,
 * metallic, roughness and ambient-occlusion values unchanged.
 */
module Renderer3DPlatform {
  import opened Wrappers
  import opened Batching
  import opened RendererCommon
  import opened TextureUnits
  import Materials

  /** A model matrix, kept as its sixteen entries. */
  type Transform = seq<real>

  datatype Vec3 = Vec3(x: real, y: real, z: real)

  /** `MaterialInfo`: the physically based shading scalars of one instance. */
  datatype MaterialInfo = MaterialInfo(albedo: Vec3, metallic: real, roughness: real, ao: real)

  /** What the renderer reads of a `Material`: its shader, its texture's id and its tint. */
  datatype Surface = Surface(shader: nat, texture: nat, tint: Colour)

  /** `BatchQueueEntry`; the material is captured as it was at submit time. */
  datatype Entry = Entry(geometry: Geometry, surface: Surface, model: Transform, info: MaterialInfo)

  /** What reaches the GPU, in order. */
  datatype GpuEvent =
    | UploadGeometry(firstVertex: nat, vertexCount: nat, firstIndex: nat, indexCount: nat)
    | LoadTexture(texture: nat, unit: nat)
    | MultiDraw(shader: nat, instanceCount: nat, rows: seq<DrawCommand>, models: seq<Transform>, units: seq<nat>,
                tints: seq<bv32>, infos: seq<MaterialInfo>)
    | DrawImmediate(shader: nat, model: Transform, unit: nat, tint: Colour, indexCount: nat, firstIndex: nat, firstVertex: nat)

  function KeyOf(e: Entry): SortKey
  {
    SortKey(e.surface.shader, e.geometry.id)
  }

  /** Every entry names an existing row. */
  ghost predicate EntriesFit(es: seq<Entry>, rowCount: nat)
  {
    forall k :: 0 <= k < |es| ==> es[k].geometry.id < rowCount
  }

  /** Adding rows keeps every queued entry fitting. */
  lemma {:induction false} EntriesFitMoreRows(es: seq<Entry>, n: nat, m: nat)
    requires EntriesFit(es, n) && n <= m
    ensures EntriesFit(es, m)
  {
  }

  // ---- The walk of flushBatch ----

  /**
   * The state of the walk: rows, the model, tint, unit and material-info streams (the last
   * holds the albedo, metallic, roughness and ambient-occlusion streams side by side), the
   * counter, the ring and the trace.
   */
  datatype Walk = Walk(rows: seq<DrawCommand>, models: seq<Transform>, tints: seq<bv32>, units: seq<nat>,
                       infos: seq<MaterialInfo>, running: nat, ring: Ring, trace: seq<GpuEvent>)

  /** The multi-draw `flushBatchCommands(shader, n)` issues: every row and the first `n` instances of each stream. */
  function Draw(shader: nat, n: nat, w: Walk): GpuEvent
  {
    MultiDraw(shader, n, w.rows, Take(w.models, n), Take(w.units, n), Take(w.tints, n), Take(w.infos, n))
  }

  /**
   * The first half of one iteration: count the entry in its row, push its model and its
   * packed tint (whatever the flags), and split off a sub-batch when the ring is full.
   */
  function CountPhase(w: Walk, e: Entry): (c: Walk)
    requires ValidRing(w.ring) && e.geometry.id < |w.rows|
    ensures |c.rows| == |w.rows| && c.ring == w.ring && c.units == w.units && c.infos == w.infos
    ensures |c.trace| == |w.trace| + (if w.ring.full then 1 else 0)
  {
    var counted := w.(rows := CountInstance(w.rows, e.geometry, w.running), models := w.models + [e.model],
                      tints := w.tints + [Pack(e.surface.tint)], running := w.running + 1);
    if w.ring.full then counted.(trace := w.trace + [Draw(e.surface.shader, counted.running, counted)], running := 0)
    else counted
  }

  /**
   * One iteration of the walk: the count phase, then `getUnit` for the entry's texture,
   * a load only on a hit, and the unit and the entry's `MaterialInfo` pushed.
   */
  function Step(w: Walk, e: Entry): (r: Walk)
    requires ValidRing(w.ring) && e.geometry.id < |w.rows|
    ensures ValidRing(r.ring) && |r.rows| == |w.rows| && |r.ring.buffer| == |w.ring.buffer|
    ensures |r.models| == |w.models| + 1 && |r.units| == |w.units| + 1 && |r.infos| == |w.infos| + 1
    ensures r.running <= w.running + 1
  {
    var c := CountPhase(w, e);
    var l := Resolve(c.ring, e.surface.texture);
    var trace := if l.hit then c.trace + [LoadTexture(e.surface.texture, l.unit)] else c.trace;
    c.(units := c.units + [l.unit], infos := c.infos + [e.info], ring := l.ring, trace := trace)
  }

  /**
   * The parts of one step other than the trace: the row update, one model, the packed tint
   * (never white in place of the tint), the unit `getUnit` hands out and the `MaterialInfo`
   * unchanged.
   */
  lemma {:induction false} StepFields(w: Walk, e: Entry)
    requires ValidRing(w.ring) && e.geometry.id < |w.rows|
    ensures var r := Step(w, e); var l := Resolve(w.ring, e.surface.texture);
      r.rows == CountInstance(w.rows, e.geometry, w.running)
      && r.models == w.models + [e.model] && r.tints == w.tints + [Pack(e.surface.tint)]
      && r.units == w.units + [l.unit] && r.infos == w.infos + [e.info] && r.ring == l.ring
      && r.running == (if w.ring.full then 0 else w.running + 1)
  {
  }

  /**
   * What one step appends to the trace: the sub-batch draw when the ring was full (with
   * `running + 1` instances and the current shader), then a load of the entry's texture
   * exactly when the ring already held it; a newly allocated unit is never loaded.
   */
  lemma {:induction false} StepTrace(w: Walk, e: Entry)
    requires ValidRing(w.ring) && e.geometry.id < |w.rows|
    ensures var r := Step(w, e); var l := Resolve(w.ring, e.surface.texture);
      var split := if w.ring.full then 1 else 0;
      r.trace[..|w.trace|] == w.trace
      && |r.trace| == |w.trace| + split + (if l.hit then 1 else 0)
      && (w.ring.full ==> r.trace[|w.trace|] == MultiDraw(e.surface.shader, w.running + 1, r.rows,
            Take(r.models, w.running + 1), Take(w.units, w.running + 1), Take(r.tints, w.running + 1), Take(w.infos, w.running + 1)))
      && (l.hit ==> r.trace[|r.trace| - 1] == LoadTexture(e.surface.texture, l.unit))
  {
    var c := CountPhase(w, e);
    assert c.trace[..|w.trace|] == w.trace;
    var r := Step(w, e);
    assert r.trace[..|c.trace|] == c.trace;
    assert r.trace[..|w.trace|] == c.trace[..|w.trace|];
  }

  /** A step only appends to the trace, and without a split it appends at most a texture load. */
  lemma {:induction false} StepExtendsTrace(w: Walk, e: Entry)
    requires ValidRing(w.ring) && e.geometry.id < |w.rows|
    ensures var r := Step(w, e);
      |r.trace| >= |w.trace| && r.trace[..|w.trace|] == w.trace
      && (!w.ring.full ==> forall k :: |w.trace| <= k < |r.trace| ==> r.trace[k].LoadTexture?)
  {
    var c := CountPhase(w, e);
    var r := Step(w, e);
    assert r.trace[..|c.trace|] == c.trace;
  }

  /**
   * The first split happens before the entry's texture unit is resolved: the sub-batch draw
   * uploads `running + 1` models but one unit and one `MaterialInfo` fewer.
   */
  lemma {:induction false} SplitDrawLacksCurrentUnit(w: Walk, e: Entry)
    requires ValidRing(w.ring) && e.geometry.id < |w.rows|
    requires w.ring.full && |w.models| == w.running && |w.units| == w.running && |w.infos| == w.running
    ensures var r := Step(w, e);
      |r.trace| > |w.trace| && r.trace[|w.trace|].MultiDraw?
      && |r.trace[|w.trace|].models| == r.trace[|w.trace|].instanceCount
      && |r.trace[|w.trace|].units| < r.trace[|w.trace|].instanceCount
      && |r.trace[|w.trace|].infos| < r.trace[|w.trace|].instanceCount
  {
    StepTrace(w, e);
    StepFields(w, e);
  }

  /**
   * A split neither resets the rows nor empties the streams: the counter restarts at zero
   * while the next sub-batch will upload the streams again from their first entry.
   */
  lemma {:induction false} SplitKeepsBatchState(w: Walk, e: Entry)
    requires ValidRing(w.ring) && e.geometry.id < |w.rows| && w.ring.full
    ensures var r := Step(w, e);
      r.running == 0 && r.models == w.models + [e.model] && |r.units| == |w.units| + 1
      && r.rows[e.geometry.id].instanceCount == w.rows[e.geometry.id].instanceCount + 1
  {
    StepFields(w, e);
  }

  /** The walk over a prefix of the sorted queue, one `Step` per entry. */
  function WalkAll(w: Walk, es: seq<Entry>): (r: Walk)
    requires ValidRing(w.ring) && EntriesFit(es, |w.rows|)
    ensures ValidRing(r.ring) && |r.rows| == |w.rows| && |r.ring.buffer| == |w.ring.buffer|
    ensures |r.models| == |w.models| + |es| && |r.units| == |w.units| + |es| && |r.infos| == |w.infos| + |es|
    ensures r.running <= w.running + |es|
    decreases |es|
  {
    if es == [] then w
    else Step(WalkAll(w, es[..|es| - 1]), es[|es| - 1])
  }

  lemma {:induction false} WalkAllStep(w: Walk, es: seq<Entry>, i: nat)
    requires ValidRing(w.ring) && EntriesFit(es, |w.rows|) && i < |es|
    ensures WalkAll(w, es[..i + 1]) == Step(WalkAll(w, es[..i]), es[i])
  {
    assert es[..i + 1][..i] == es[..i];
  }

  /** The walk only appends to the trace. */
  lemma {:induction false} WalkExtendsTrace(w: Walk, es: seq<Entry>)
    requires ValidRing(w.ring) && EntriesFit(es, |w.rows|)
    ensures |WalkAll(w, es).trace| >= |w.trace| && WalkAll(w, es).trace[..|w.trace|] == w.trace
    decreases |es|
  {
    if es != [] {
      var pre := es[..|es| - 1];
      assert EntriesFit(pre, |w.rows|);
      WalkExtendsTrace(w, pre);
      var mid := WalkAll(w, pre);
      StepExtendsTrace(mid, es[|es| - 1]);
      PrefixOfPrefix(w.trace, mid.trace, Step(mid, es[|es| - 1]).trace);
    }
  }

  function StartWalk(rows: seq<DrawCommand>, ring: Ring, trace: seq<GpuEvent>): Walk
  {
    Walk(rows, [], [], [], [], 0, ring, trace)
  }

  /** The rows, ring and trace left by a flush. */
  datatype FlushResult = FlushResult(rows: seq<DrawCommand>, ring: Ring, trace: seq<GpuEvent>)

  /** The end of `flushBatch`: draw the instances still counted under the last entry's shader, zero the rows. */
  function Finish(w: Walk, sorted: seq<Entry>): (r: FlushResult)
    requires w.running > 0 ==> |sorted| > 0
    ensures |r.rows| == |w.rows| && RowsIdle(r.rows) && r.ring == w.ring
  {
    var trace := if w.running > 0 then w.trace + [Draw(sorted[|sorted| - 1].surface.shader, w.running, w)] else w.trace;
    FlushResult(ZeroCounts(w.rows), w.ring, trace)
  }

  lemma {:induction false} SortedEntriesFit(queue: seq<Entry>, sorted: seq<Entry>, rowCount: nat)
    requires EntriesFit(queue, rowCount) && multiset(sorted) == multiset(queue)
    ensures EntriesFit(sorted, rowCount)
  {
    forall k | 0 <= k < |sorted|
      ensures sorted[k].geometry.id < rowCount
    {
      assert sorted[k] in multiset(queue);
      var j :| 0 <= j < |queue| && queue[j] == sorted[k];
    }
  }

  /** `flushBatch`: sort, walk, draw what is left under the last sorted entry's shader, zero the rows. */
  function FlushBatchSpec(rows: seq<DrawCommand>, queue: seq<Entry>, ring: Ring, trace: seq<GpuEvent>): (r: FlushResult)
    requires ValidRing(ring) && EntriesFit(queue, |rows|)
    ensures ValidRing(r.ring) && |r.ring.buffer| == |ring.buffer|
    ensures |r.rows| == |rows| && RowsIdle(r.rows)
  {
    var sorted := SortBy(queue, KeyOf);
    SortedEntriesFit(queue, sorted, |rows|);
    Finish(WalkAll(StartWalk(rows, ring, trace), sorted), sorted)
  }

  lemma {:induction false} FlushBatchSpecUnfolds(rows: seq<DrawCommand>, queue: seq<Entry>, ring: Ring, trace: seq<GpuEvent>)
    requires ValidRing(ring) && EntriesFit(queue, |rows|) && EntriesFit(SortBy(queue, KeyOf), |rows|)
    ensures FlushBatchSpec(rows, queue, ring, trace) == Finish(WalkAll(StartWalk(rows, ring, trace), SortBy(queue, KeyOf)), SortBy(queue, KeyOf))
  {
  }

  /** A flush only appends to the trace. */
  lemma {:induction false} FlushExtendsTrace(rows: seq<DrawCommand>, queue: seq<Entry>, ring: Ring, trace: seq<GpuEvent>)
    requires ValidRing(ring) && EntriesFit(queue, |rows|)
    ensures var r := FlushBatchSpec(rows, queue, ring, trace);
      |r.trace| >= |trace| && r.trace[..|trace|] == trace
  {
    var sorted := SortBy(queue, KeyOf);
    SortedEntriesFit(queue, sorted, |rows|);
    FlushBatchSpecUnfolds(rows, queue, ring, trace);
    var w0 := StartWalk(rows, ring, trace);
    WalkExtendsTrace(w0, sorted);
    var w := WalkAll(w0, sorted);
    var r := FlushBatchSpec(rows, queue, ring, trace);
    if w.running > 0 {
      assert r.trace[..|trace|] == w.trace[..|trace|];
    }
  }

  // ---- What a flush without a split draws ----

  function Geos(es: seq<Entry>): (gs: seq<Geometry>)
    ensures |gs| == |es| && forall k :: 0 <= k < |es| ==> gs[k] == es[k].geometry
  {
    seq(|es|, k requires 0 <= k < |es| => es[k].geometry)
  }

  function Models(es: seq<Entry>): (ms: seq<Transform>)
    ensures |ms| == |es| && forall k :: 0 <= k < |es| ==> ms[k] == es[k].model
  {
    seq(|es|, k requires 0 <= k < |es| => es[k].model)
  }

  function Tints(es: seq<Entry>): (ts: seq<bv32>)
    ensures |ts| == |es| && forall k :: 0 <= k < |es| ==> ts[k] == Pack(es[k].surface.tint)
  {
    seq(|es|, k requires 0 <= k < |es| => Pack(es[k].surface.tint))
  }

  function Infos(es: seq<Entry>): (infos: seq<MaterialInfo>)
    ensures |infos| == |es| && forall k :: 0 <= k < |es| ==> infos[k] == es[k].info
  {
    seq(|es|, k requires 0 <= k < |es| => es[k].info)
  }

  lemma {:induction false} EntryStreamsPrefix(es: seq<Entry>, n: nat)
    requires n < |es|
    ensures Geos(es)[..n] == Geos(es[..n]) && Geos(es)[n] == es[n].geometry
    ensures Models(es[..n + 1]) == Models(es[..n]) + [es[n].model]
  {
  }

  lemma {:induction false} EntryShadingPrefix(es: seq<Entry>, n: nat)
    requires n < |es|
    ensures Tints(es[..n + 1]) == Tints(es[..n]) + [Pack(es[n].surface.tint)]
    ensures Infos(es[..n + 1]) == Infos(es[..n]) + [es[n].info]
  {
  }

  /** The ring never reports full before any entry of `es` is walked, so no sub-batch is split off. */
  ghost predicate NoSplit(w0: Walk, es: seq<Entry>)
    requires ValidRing(w0.ring) && EntriesFit(es, |w0.rows|)
    decreases |es|
  {
    es == [] || (NoSplit(w0, es[..|es| - 1]) && !WalkAll(w0, es[..|es| - 1]).ring.full)
  }

  lemma {:induction false} NoSplitPrefix(w0: Walk, es: seq<Entry>)
    requires ValidRing(w0.ring) && EntriesFit(es, |w0.rows|) && |es| > 0
    requires NoSplit(w0, es)
    ensures EntriesFit(es[..|es| - 1], |w0.rows|)
    ensures NoSplit(w0, es[..|es| - 1])
    ensures !WalkAll(w0, es[..|es| - 1]).ring.full
  {
  }

  /**
   * Without a split, walking `es` from empty streams numbers the entries 0, 1, ... as
   * instances: the rows are `CountAll` of their geometries, and the model, tint and
   * material-info streams hold the entries' values in order.
   */
  lemma {:induction false} WalkWithoutSplit(w0: Walk, es: seq<Entry>)
    requires ValidRing(w0.ring) && EntriesFit(es, |w0.rows|)
    requires w0.running == 0 && w0.models == [] && w0.tints == [] && w0.infos == []
    requires NoSplit(w0, es)
    ensures var w := WalkAll(w0, es);
      w.running == |es| && IdsBelow(Geos(es), |w0.rows|) && w.rows == CountAll(w0.rows, Geos(es))
      && w.models == Models(es) && w.tints == Tints(es) && w.infos == Infos(es)
    decreases |es|
  {
    if es != [] {
      var n := |es| - 1;
      NoSplitPrefix(w0, es);
      WalkWithoutSplit(w0, es[..n]);
      StepFields(WalkAll(w0, es[..n]), es[n]);
      EntryStreamsPrefix(es, n);
      EntryShadingPrefix(es, n);
      assert es[..n + 1] == es;
    }
  }

  /** Without a split, the walk adds nothing but texture loads to the trace. */
  lemma {:induction false} WalkWithoutSplitOnlyLoads(w0: Walk, es: seq<Entry>)
    requires ValidRing(w0.ring) && EntriesFit(es, |w0.rows|)
    requires NoSplit(w0, es)
    ensures var w := WalkAll(w0, es);
      |w.trace| >= |w0.trace| && forall k :: |w0.trace| <= k < |w.trace| ==> w.trace[k].LoadTexture?
    decreases |es|
  {
    if es != [] {
      var n := |es| - 1;
      NoSplitPrefix(w0, es);
      WalkWithoutSplitOnlyLoads(w0, es[..n]);
      var p := WalkAll(w0, es[..n]);
      StepExtendsTrace(p, es[n]);
      var w := WalkAll(w0, es);
      forall k | |w0.trace| <= k < |w.trace|
        ensures w.trace[k].LoadTexture?
      {
        if k < |p.trace| {
          assert w.trace[k] == w.trace[..|p.trace|][k];
        }
      }
    }
  }

  /**
   * Without a split, the end of the flush appends texture loads and then one multi-draw of
   * every walked entry, in order, under the last entry's shader.
   */
  lemma {:induction false} FinishWithoutSplit(w0: Walk, sorted: seq<Entry>)
    requires ValidRing(w0.ring) && EntriesFit(sorted, |w0.rows|) && |sorted| > 0
    requires w0.running == 0 && w0.models == [] && w0.tints == [] && w0.infos == []
    requires NoSplit(w0, sorted)
    ensures var t := Finish(WalkAll(w0, sorted), sorted).trace;
      |t| > |w0.trace| && (forall k :: |w0.trace| <= k < |t| - 1 ==> t[k].LoadTexture?)
      && t[|t| - 1].MultiDraw? && t[|t| - 1].shader == sorted[|sorted| - 1].surface.shader
      && t[|t| - 1].instanceCount == |sorted| && IdsBelow(Geos(sorted), |w0.rows|)
      && t[|t| - 1].rows == CountAll(w0.rows, Geos(sorted))
      && t[|t| - 1].models == Models(sorted) && t[|t| - 1].tints == Tints(sorted) && t[|t| - 1].infos == Infos(sorted)
  {
    WalkWithoutSplit(w0, sorted);
    WalkWithoutSplitOnlyLoads(w0, sorted);
  }

  /** The last entry of a sorted rearrangement of the queue is queued and carries the largest queued shader. */
  lemma {:induction false} LastShaderIsLargest(queue: seq<Entry>, sorted: seq<Entry>)
    requires SortedBy(sorted, KeyOf) && multiset(sorted) == multiset(queue) && |sorted| > 0
    ensures sorted[|sorted| - 1] in queue
    ensures forall e :: e in queue ==> e.surface.shader <= sorted[|sorted| - 1].surface.shader
  {
    SortedLastIsLargest(queue, sorted, KeyOf);
    forall e | e in queue
      ensures e.surface.shader <= sorted[|sorted| - 1].surface.shader
    {
      assert KeyOf(e).shader <= KeyOf(sorted[|sorted| - 1]).shader;
    }
  }

  /**
   * A flush without a split draws the whole queue with one multi-draw after the texture
   * loads, under the largest queued shader, with one instance per entry in sorted order:
   * its packed tint (flags ignored) and its `MaterialInfo` unchanged.
   */
  lemma {:induction false} FlushWithoutSplit(rows: seq<DrawCommand>, queue: seq<Entry>, ring: Ring, trace: seq<GpuEvent>)
    requires ValidRing(ring) && EntriesFit(queue, |rows|) && |queue| > 0
    requires EntriesFit(SortBy(queue, KeyOf), |rows|)
    requires NoSplit(StartWalk(rows, ring, trace), SortBy(queue, KeyOf))
    ensures var sorted := SortBy(queue, KeyOf);
      var t := FlushBatchSpec(rows, queue, ring, trace).trace;
      |t| > |trace|
      && (forall k :: |trace| <= k < |t| - 1 ==> t[k].LoadTexture?)
      && t[|t| - 1].MultiDraw? && t[|t| - 1].instanceCount == |queue|
      && t[|t| - 1].models == Models(sorted) && t[|t| - 1].tints == Tints(sorted) && t[|t| - 1].infos == Infos(sorted)
      && (forall e :: e in queue ==> e.surface.shader <= t[|t| - 1].shader)
      && (exists e :: e in queue && e.surface.shader == t[|t| - 1].shader)
  {
    var sorted := SortBy(queue, KeyOf);
    FlushBatchSpecUnfolds(rows, queue, ring, trace);
    FinishWithoutSplit(StartWalk(rows, ring, trace), sorted);
    LastShaderIsLargest(queue, sorted);
  }

  // ---- Instances across sub-batches ----

  /** The instances one event asks the GPU for: a multi-draw's `n` argument, else none. */
  function EventInstances(ev: GpuEvent): nat
  {
    if ev.MultiDraw? then ev.instanceCount else 0
  }

  /** The instances the rows of one event ask for: a multi-draw's rows summed, else none. */
  function EventRowInstances(ev: GpuEvent): nat
  {
    if ev.MultiDraw? then RowInstances(ev.rows) else 0
  }

  /** The instances the multi-draws of a trace ask for: the sum of their `n` arguments. */
  function Drawn(t: seq<GpuEvent>): nat
  {
    SumOf(t, EventInstances)
  }

  /** The instances the rows of the multi-draws of a trace ask for, summed over the draws. */
  function RowsDrawn(t: seq<GpuEvent>): nat
  {
    SumOf(t, EventRowInstances)
  }

  /**
   * One step of the walk: the instances drawn so far plus the counter grow by one, and a
   * split draws rows that ask for every instance counted in them since the flush began.
   */
  lemma {:induction false} StepDrawn(w: Walk, e: Entry)
    requires ValidRing(w.ring) && e.geometry.id < |w.rows|
    ensures var r := Step(w, e);
      Drawn(r.trace) + r.running == Drawn(w.trace) + w.running + 1
      && RowInstances(r.rows) == RowInstances(w.rows) + 1
      && RowsDrawn(r.trace) == RowsDrawn(w.trace) + (if w.ring.full then RowInstances(r.rows) else 0)
  {
    var c := CountPhase(w, e);
    var l := Resolve(c.ring, e.surface.texture);
    CountPhaseDrawn(w, e);
    if l.hit {
      SumOfSnoc(c.trace, LoadTexture(e.surface.texture, l.unit), EventInstances);
      SumOfSnoc(c.trace, LoadTexture(e.surface.texture, l.unit), EventRowInstances);
    }
  }

  /** `StepDrawn` for the count phase, which holds the split. */
  lemma {:induction false} CountPhaseDrawn(w: Walk, e: Entry)
    requires ValidRing(w.ring) && e.geometry.id < |w.rows|
    ensures var c := CountPhase(w, e);
      Drawn(c.trace) + c.running == Drawn(w.trace) + w.running + 1
      && RowInstances(c.rows) == RowInstances(w.rows) + 1
      && RowsDrawn(c.trace) == RowsDrawn(w.trace) + (if w.ring.full then RowInstances(c.rows) else 0)
  {
    var c := CountPhase(w, e);
    CountInstanceAddsOne(w.rows, e.geometry, w.running);
    if w.ring.full {
      var d := c.trace[|c.trace| - 1];
      assert c.trace == w.trace + [d] && d.MultiDraw? && d.rows == c.rows && d.instanceCount == w.running + 1;
      SumOfSnoc(w.trace, d, EventInstances);
      SumOfSnoc(w.trace, d, EventRowInstances);
    }
  }

  /**
   * The walk over `es`: the `n` arguments of the sub-batch draws plus the counter account
   * for every walked entry once, while the rows keep counting every walked entry.
   */
  lemma {:induction false} WalkDrawn(w0: Walk, es: seq<Entry>)
    requires ValidRing(w0.ring) && EntriesFit(es, |w0.rows|)
    ensures var w := WalkAll(w0, es);
      Drawn(w.trace) + w.running == Drawn(w0.trace) + w0.running + |es|
      && RowInstances(w.rows) == RowInstances(w0.rows) + |es|
    decreases |es|
  {
    if es != [] {
      var n := |es| - 1;
      assert EntriesFit(es[..n], |w0.rows|);
      WalkDrawn(w0, es[..n]);
      StepDrawn(WalkAll(w0, es[..n]), es[n]);
    }
  }

  /** The end of a flush adds the counter to the drawn instances, and only appends to the trace. */
  lemma {:induction false} FinishDrawn(w: Walk, sorted: seq<Entry>)
    requires w.running > 0 ==> |sorted| > 0
    ensures var t := Finish(w, sorted).trace;
      |t| >= |w.trace| && t[..|w.trace|] == w.trace
      && Drawn(t) == Drawn(w.trace) + w.running
      && RowsDrawn(t) == RowsDrawn(w.trace) + (if w.running > 0 then RowInstances(w.rows) else 0)
  {
    if w.running > 0 {
      var d := Draw(sorted[|sorted| - 1].surface.shader, w.running, w);
      SumOfSnoc(w.trace, d, EventInstances);
      SumOfSnoc(w.trace, d, EventRowInstances);
      assert (w.trace + [d])[..|w.trace|] == w.trace;
    } else {
      assert w.trace[..|w.trace|] == w.trace;
    }
  }

  /**
   * Whatever the splits, the multi-draws a flush emits ask for exactly one instance per
   * queued entry: their `n` arguments sum to the length of the queue.
   */
  lemma {:induction false} FlushDrawsQueue(rows: seq<DrawCommand>, queue: seq<Entry>, ring: Ring, trace: seq<GpuEvent>)
    requires ValidRing(ring) && EntriesFit(queue, |rows|)
    ensures var t := FlushBatchSpec(rows, queue, ring, trace).trace;
      |t| >= |trace| && Drawn(t[|trace|..]) == |queue|
  {
    var sorted := SortBy(queue, KeyOf);
    SortedEntriesFit(queue, sorted, |rows|);
    FlushBatchSpecUnfolds(rows, queue, ring, trace);
    WalkFinishDrawn(StartWalk(rows, ring, trace), sorted);
  }

  /** `FlushDrawsQueue` for any walk start with a zero counter. */
  lemma {:induction false} WalkFinishDrawn(w0: Walk, sorted: seq<Entry>)
    requires ValidRing(w0.ring) && EntriesFit(sorted, |w0.rows|) && w0.running == 0
    ensures var t := Finish(WalkAll(w0, sorted), sorted).trace;
      |t| >= |w0.trace| && Drawn(t[|w0.trace|..]) == |sorted|
  {
    var w := WalkAll(w0, sorted);
    WalkDrawn(w0, sorted);
    WalkExtendsTrace(w0, sorted);
    var t := Finish(w, sorted).trace;
    FinishDrawn(w, sorted);
    PrefixOfPrefix(w0.trace, w.trace, t);
    SuffixSum(t, w0.trace, |sorted|, EventInstances);
  }

  /**
   * The rows are never reset at a split: the draw split off at the `i`-th entry of a walk
   * from idle rows asks, through its rows, for all `i + 1` entries walked so far, while its
   * `n` argument counts only those since the previous split.
   */
  lemma {:induction false} SplitDrawRowsCountEveryWalkedEntry(w0: Walk, es: seq<Entry>, i: nat)
    requires ValidRing(w0.ring) && EntriesFit(es, |w0.rows|) && RowsIdle(w0.rows) && i < |es|
    requires WalkAll(w0, es[..i]).ring.full
    ensures |WalkAll(w0, es[..i + 1]).trace| > |WalkAll(w0, es[..i]).trace|
    ensures var p := WalkAll(w0, es[..i]);
      var d := WalkAll(w0, es[..i + 1]).trace[|p.trace|];
      d.MultiDraw? && RowInstances(d.rows) == i + 1 && d.instanceCount == p.running + 1
  {
    assert EntriesFit(es[..i], |w0.rows|);
    var p := WalkAll(w0, es[..i]);
    WalkAllStep(w0, es, i);
    IdleRowsHaveNoInstances(w0.rows);
    WalkDrawn(w0, es[..i]);
    StepTrace(p, es[i]);
    StepDrawn(p, es[i]);
  }

  // ---- The walk with the split repaired ----

  /** The repaired split: draw the `running` instances counted so far, zero the rows, empty the streams. */
  function SplitFixed(w: Walk, shader: nat): (r: Walk)
    ensures RowsIdle(r.rows) && |r.rows| == |w.rows| && r.running == 0 && r.ring == w.ring
    ensures r.models == [] && r.tints == [] && r.units == [] && r.infos == []
    ensures r.trace == w.trace + [MultiDraw(shader, w.running, w.rows, Take(w.models, w.running), Take(w.units, w.running),
                                            Take(w.tints, w.running), Take(w.infos, w.running))]
  {
    w.(rows := ZeroCounts(w.rows), models := [], tints := [], units := [], infos := [], running := 0,
       trace := w.trace + [Draw(shader, w.running, w)])
  }

  /** The split check of the repaired walk: a full ring with instances counted draws them first. */
  function SplitIfFull(w: Walk, shader: nat): Walk
  {
    if w.ring.full && w.running > 0 then SplitFixed(w, shader) else w
  }

  /**
   * The rest of a repaired step: count the entry in its row, push its model and packed
   * tint, resolve its texture unit (loading on a hit) and push the unit and `MaterialInfo`.
   */
  function Enter(s: Walk, e: Entry): (r: Walk)
    requires ValidRing(s.ring) && e.geometry.id < |s.rows|
    ensures ValidRing(r.ring) && |r.rows| == |s.rows| && |r.ring.buffer| == |s.ring.buffer|
  {
    var c := s.(rows := CountInstance(s.rows, e.geometry, s.running), models := s.models + [e.model],
                tints := s.tints + [Pack(e.surface.tint)], running := s.running + 1);
    var l := Resolve(c.ring, e.surface.texture);
    var trace := if l.hit then c.trace + [LoadTexture(e.surface.texture, l.unit)] else c.trace;
    c.(units := c.units + [l.unit], infos := c.infos + [e.info], ring := l.ring, trace := trace)
  }

  /**
   * One entry of the walk with the split repaired: when the ring is full, the instances
   * counted so far are drawn first (under the entry's shader, as in the source), the rows are
   * zeroed and the streams emptied; then the entry is counted, pushed and its unit resolved.
   */
  function StepFixed(w: Walk, e: Entry): (r: Walk)
    requires ValidRing(w.ring) && e.geometry.id < |w.rows|
    ensures ValidRing(r.ring) && |r.rows| == |w.rows| && |r.ring.buffer| == |w.ring.buffer|
  {
    Enter(SplitIfFull(w, e.surface.shader), e)
  }

  function WalkFixed(w: Walk, es: seq<Entry>): (r: Walk)
    requires ValidRing(w.ring) && EntriesFit(es, |w.rows|)
    ensures ValidRing(r.ring) && |r.rows| == |w.rows| && |r.ring.buffer| == |w.ring.buffer|
    decreases |es|
  {
    if es == [] then w
    else StepFixed(WalkFixed(w, es[..|es| - 1]), es[|es| - 1])
  }

  /** `flushBatch` with the split repaired: sort, walk with `StepFixed`, draw what is left, zero the rows. */
  function FlushFixed(rows: seq<DrawCommand>, queue: seq<Entry>, ring: Ring, trace: seq<GpuEvent>): (r: FlushResult)
    requires ValidRing(ring) && EntriesFit(queue, |rows|)
    ensures ValidRing(r.ring) && |r.ring.buffer| == |ring.buffer|
    ensures |r.rows| == |rows| && RowsIdle(r.rows)
  {
    var sorted := SortBy(queue, KeyOf);
    SortedEntriesFit(queue, sorted, |rows|);
    Finish(WalkFixed(StartWalk(rows, ring, trace), sorted), sorted)
  }

  /** Without a full ring the repaired step is the step of the source. */
  lemma {:induction false} StepFixedWithoutSplit(w: Walk, e: Entry)
    requires ValidRing(w.ring) && e.geometry.id < |w.rows| && !w.ring.full
    ensures StepFixed(w, e) == Step(w, e)
  {
  }

  /** The repair changes only flushes that split: without a split the repaired flush is the flush of the source. */
  lemma {:induction false} FlushFixedWithoutSplit(rows: seq<DrawCommand>, queue: seq<Entry>, ring: Ring, trace: seq<GpuEvent>)
    requires ValidRing(ring) && EntriesFit(queue, |rows|) && EntriesFit(SortBy(queue, KeyOf), |rows|)
    requires NoSplit(StartWalk(rows, ring, trace), SortBy(queue, KeyOf))
    ensures FlushFixed(rows, queue, ring, trace) == FlushBatchSpec(rows, queue, ring, trace)
  {
    FlushBatchSpecUnfolds(rows, queue, ring, trace);
    WalkFixedWithoutSplit(StartWalk(rows, ring, trace), SortBy(queue, KeyOf));
  }

  /** `FlushFixedWithoutSplit` for the walk alone. */
  lemma {:induction false} WalkFixedWithoutSplit(w0: Walk, es: seq<Entry>)
    requires ValidRing(w0.ring) && EntriesFit(es, |w0.rows|) && NoSplit(w0, es)
    ensures WalkFixed(w0, es) == WalkAll(w0, es)
    decreases |es|
  {
    if es != [] {
      var n := |es| - 1;
      NoSplitPrefix(w0, es);
      WalkFixedWithoutSplit(w0, es[..n]);
      StepFixedWithoutSplit(WalkAll(w0, es[..n]), es[n]);
    }
  }

  /** A multi-draw whose rows ask for exactly its `n` instances and whose streams hold exactly `n` elements each. */
  ghost predicate ExactDraw(ev: GpuEvent)
  {
    ev.MultiDraw? ==>
      RowInstances(ev.rows) == ev.instanceCount && |ev.models| == ev.instanceCount && |ev.units| == ev.instanceCount
      && |ev.tints| == ev.instanceCount && |ev.infos| == ev.instanceCount
  }

  /** The rows and every stream hold exactly the instances counted since the last draw. */
  ghost predicate Aligned(w: Walk)
  {
    RowInstances(w.rows) == w.running && |w.models| == w.running && |w.tints| == w.running
    && |w.units| == w.running && |w.infos| == w.running
  }

  /** `t` extends `t0`, and every event it appends is an exact draw or no draw. */
  ghost predicate ExactAfter(t0: seq<GpuEvent>, t: seq<GpuEvent>)
  {
    |t| >= |t0| && t[..|t0|] == t0 && forall k :: |t0| <= k < |t| ==> ExactDraw(t[k])
  }

  lemma {:induction false} ExactAfterTrans(t0: seq<GpuEvent>, t1: seq<GpuEvent>, t2: seq<GpuEvent>)
    requires ExactAfter(t0, t1) && ExactAfter(t1, t2)
    ensures ExactAfter(t0, t2)
  {
    PrefixOfPrefix(t0, t1, t2);
    forall k | |t0| <= k < |t2|
      ensures ExactDraw(t2[k])
    {
      if k < |t1| {
        assert t2[k] == t2[..|t1|][k];
      }
    }
  }

  /** The repaired split check keeps the walk aligned, appends at most one exact draw, and moves the counter into it. */
  lemma {:induction false} SplitIfFullExact(w: Walk, shader: nat)
    requires Aligned(w)
    ensures var s := SplitIfFull(w, shader);
      Aligned(s) && ExactAfter(w.trace, s.trace)
      && Drawn(s.trace) + s.running == Drawn(w.trace) + w.running
      && RowsDrawn(s.trace) + s.running == RowsDrawn(w.trace) + w.running
  {
    var s := SplitIfFull(w, shader);
    if w.ring.full && w.running > 0 {
      var d := s.trace[|s.trace| - 1];
      IdleRowsHaveNoInstances(s.rows);
      assert s.trace == w.trace + [d] && ExactDraw(d);
      SumOfSnoc(w.trace, d, EventInstances);
      SumOfSnoc(w.trace, d, EventRowInstances);
    } else {
      assert w.trace[..|w.trace|] == w.trace;
    }
  }

  /** Entering one entry keeps the walk aligned, adds one instance to the counter and at most a texture load to the trace. */
  lemma {:induction false} EnterAligned(s: Walk, e: Entry)
    requires ValidRing(s.ring) && e.geometry.id < |s.rows| && Aligned(s)
    ensures var r := Enter(s, e);
      Aligned(r) && r.running == s.running + 1 && ExactAfter(s.trace, r.trace)
      && Drawn(r.trace) == Drawn(s.trace) && RowsDrawn(r.trace) == RowsDrawn(s.trace)
  {
    var l := Resolve(s.ring, e.surface.texture);
    CountInstanceAddsOne(s.rows, e.geometry, s.running);
    if l.hit {
      var ev := LoadTexture(e.surface.texture, l.unit);
      SumOfSnoc(s.trace, ev, EventInstances);
      SumOfSnoc(s.trace, ev, EventRowInstances);
      assert (s.trace + [ev])[..|s.trace|] == s.trace;
    } else {
      assert s.trace[..|s.trace|] == s.trace;
    }
  }

  /**
   * One repaired step keeps the rows and streams aligned with the counter, only appends to
   * the trace, appends only exact draws, and moves one instance from the entry into the
   * counter, whence into a draw.
   */
  lemma {:induction false} StepFixedExact(w: Walk, e: Entry)
    requires ValidRing(w.ring) && e.geometry.id < |w.rows| && Aligned(w)
    ensures var r := StepFixed(w, e);
      Aligned(r) && ExactAfter(w.trace, r.trace)
      && Drawn(r.trace) + r.running == Drawn(w.trace) + w.running + 1
      && RowsDrawn(r.trace) + r.running == RowsDrawn(w.trace) + w.running + 1
  {
    var s := SplitIfFull(w, e.surface.shader);
    SplitIfFullExact(w, e.surface.shader);
    EnterAligned(s, e);
    ExactAfterTrans(w.trace, s.trace, Enter(s, e).trace);
  }

  /** `StepFixedExact` over a whole walk. */
  lemma {:induction false} WalkFixedExact(w0: Walk, es: seq<Entry>)
    requires ValidRing(w0.ring) && EntriesFit(es, |w0.rows|) && Aligned(w0)
    ensures var w := WalkFixed(w0, es);
      Aligned(w) && ExactAfter(w0.trace, w.trace)
      && Drawn(w.trace) + w.running == Drawn(w0.trace) + w0.running + |es|
      && RowsDrawn(w.trace) + w.running == RowsDrawn(w0.trace) + w0.running + |es|
    decreases |es|
  {
    if es == [] {
      assert w0.trace[..|w0.trace|] == w0.trace;
    } else {
      var n := |es| - 1;
      assert EntriesFit(es[..n], |w0.rows|);
      WalkFixedExact(w0, es[..n]);
      var p := WalkFixed(w0, es[..n]);
      StepFixedExact(p, es[n]);
      ExactAfterTrans(w0.trace, p.trace, StepFixed(p, es[n]).trace);
    }
  }

  /** The end of a flush from an aligned walk appends at most one exact draw. */
  lemma {:induction false} FinishExact(w: Walk, sorted: seq<Entry>)
    requires (w.running > 0 ==> |sorted| > 0) && Aligned(w)
    ensures ExactAfter(w.trace, Finish(w, sorted).trace)
  {
    FinishDrawn(w, sorted);
    var t := Finish(w, sorted).trace;
    if w.running > 0 {
      assert ExactDraw(t[|t| - 1]);
    }
  }

  /**
   * With the split repaired, a flush from idle rows draws every queued entry exactly once:
   * each emitted multi-draw's rows ask for exactly its `n` instances and its streams hold
   * exactly `n` elements, and both the `n` arguments and the rows' instances sum to the
   * length of the queue.
   */
  lemma {:induction false} FlushFixedDrawsEachEntryOnce(rows: seq<DrawCommand>, queue: seq<Entry>, ring: Ring, trace: seq<GpuEvent>)
    requires ValidRing(ring) && EntriesFit(queue, |rows|) && RowsIdle(rows)
    ensures var t := FlushFixed(rows, queue, ring, trace).trace;
      |t| >= |trace| && t[..|trace|] == trace
      && (forall k :: |trace| <= k < |t| ==> ExactDraw(t[k]))
      && Drawn(t[|trace|..]) == |queue| && RowsDrawn(t[|trace|..]) == |queue|
  {
    var sorted := SortBy(queue, KeyOf);
    SortedEntriesFit(queue, sorted, |rows|);
    IdleRowsHaveNoInstances(rows);
    assert FlushFixed(rows, queue, ring, trace) == Finish(WalkFixed(StartWalk(rows, ring, trace), sorted), sorted);
    WalkFixedFinishExact(StartWalk(rows, ring, trace), sorted);
  }

  /** `FlushFixedDrawsEachEntryOnce` for any aligned walk start with a zero counter. */
  lemma {:induction false} WalkFixedFinishExact(w0: Walk, sorted: seq<Entry>)
    requires ValidRing(w0.ring) && EntriesFit(sorted, |w0.rows|) && Aligned(w0) && w0.running == 0
    ensures var t := Finish(WalkFixed(w0, sorted), sorted).trace;
      ExactAfter(w0.trace, t) && Drawn(t[|w0.trace|..]) == |sorted| && RowsDrawn(t[|w0.trace|..]) == |sorted|
  {
    WalkFixedExact(w0, sorted);
    var w := WalkFixed(w0, sorted);
    var t := Finish(w, sorted).trace;
    FinishDrawn(w, sorted);
    FinishExact(w, sorted);
    ExactAfterTrans(w0.trace, w.trace, t);
    SuffixSum(t, w0.trace, |sorted|, EventInstances);
    SuffixSum(t, w0.trace, |sorted|, EventRowInstances);
  }

  // ---- The immediate path of submit ----

  /**
   * The non-batched branch of `submit`: `getUnit` with a load on a hit, then `getUnit` again,
   * whose unit is the one uploaded with the draw.
   */
  function Immediate(ring: Ring, trace: seq<GpuEvent>, geometry: Geometry, s: Surface, model: Transform): (r: (Ring, seq<GpuEvent>))
    requires ValidRing(ring)
    ensures ValidRing(r.0) && |r.0.buffer| == |ring.buffer|
    ensures |r.1| == |trace| + (if Resolve(ring, s.texture).hit then 2 else 1) && r.1[..|trace|] == trace
    ensures r.1[|r.1| - 1].DrawImmediate? && r.1[|r.1| - 1].model == model && r.1[|r.1| - 1].tint == s.tint
    ensures r.1[|r.1| - 1].indexCount == geometry.indexCount && r.1[|r.1| - 1].firstIndex == geometry.firstIndex
    ensures r.1[|r.1| - 1].firstVertex == geometry.firstVertex && r.1[|r.1| - 1].shader == s.shader
  {
    var first := Resolve(ring, s.texture);
    var loaded := if first.hit then trace + [LoadTexture(s.texture, first.unit)] else trace;
    var second := Resolve(first.ring, s.texture);
    (second.ring, loaded + [DrawImmediate(s.shader, model, second.unit, s.tint, geometry.indexCount, geometry.firstIndex, geometry.firstVertex)])
  }

  /**
   * The unit uploaded by the immediate path is the one the first lookup returned, unless the
   * first lookup filled the ring: then the second lookup clears it and the draw uses unit 0
   * while the texture was written to the last unit.
   */
  lemma {:induction false} ImmediateUploadsSecondLookup(ring: Ring, trace: seq<GpuEvent>, geometry: Geometry, s: Surface, model: Transform)
    requires ValidRing(ring)
    ensures var first := Resolve(ring, s.texture);
      var r := Immediate(ring, trace, geometry, s, model);
      (!first.ring.full ==> r.1[|r.1| - 1].unit == first.unit && r.0 == first.ring)
      && (first.ring.full ==> r.1[|r.1| - 1].unit == 0)
  {
    ResolveTwice(ring, s.texture);
  }

  /** On a miss the immediate path loads nothing: the newly allocated unit is drawn unloaded. */
  lemma {:induction false} ImmediateMissLoadsNothing(ring: Ring, trace: seq<GpuEvent>, geometry: Geometry, s: Surface, model: Transform)
    requires ValidRing(ring) && !Resolve(ring, s.texture).hit
    ensures var r := Immediate(ring, trace, geometry, s, model);
      forall k :: |trace| <= k < |r.1| ==> !r.1[k].LoadTexture?
  {
  }

  // ---- The renderer ----

  class Renderer3D {
    const units: TextureUnitManager
    const vertexCapacity: nat
    const indexCapacity: nat
    const batchCapacity: nat
    var nextVertex: nat
    var nextIndex: nat
    var batchCommands: seq<DrawCommand>
    var batchQueue: seq<Entry>
    var modelInstanceData: seq<Transform>
    var tintInstanceData: seq<bv32>
    var texInstanceData: seq<nat>
    /** The albedo, metallic, roughness and ambient-occlusion streams, kept side by side. */
    var infoInstanceData: seq<MaterialInfo>
    /** The geometries placed so far, in id order. */
    ghost var placed: seq<Geometry>
    ghost var trace: seq<GpuEvent>

    ghost function CurrentArena(): Arena
      reads this`nextVertex, this`nextIndex, this`batchCommands
    {
      Arena(vertexCapacity, indexCapacity, nextVertex, nextIndex, batchCommands)
    }

    /**
     * Between calls: the ring is valid, the arena invariant holds, every row is idle, the
     * streams are empty, the queue is within capacity and every queued entry fits.
     */
    ghost predicate Valid()
      reads this`nextVertex, this`nextIndex, this`batchCommands, this`placed, this`batchQueue
      reads this`modelInstanceData, this`tintInstanceData, this`texInstanceData, this`infoInstanceData, units, units.buffer
    {
      units.Valid()
      && Placed(CurrentArena(), placed)
      && RowsIdle(batchCommands)
      && modelInstanceData == [] && tintInstanceData == [] && texInstanceData == [] && infoInstanceData == []
      && (batchCapacity > 0 ==> |batchQueue| <= batchCapacity)
      && EntriesFit(batchQueue, |batchCommands|)
    }

    ghost function Snapshot(running: nat): Walk
      reads this, units, units.buffer
    {
      Walk(batchCommands, modelInstanceData, tintInstanceData, texInstanceData, infoInstanceData, running, units.State(), trace)
    }

    /** `init`: capacities stored, cursors at zero, no rows, an empty queue; the ring is shared. */
    constructor (vertexCapacity: nat, indexCapacity: nat, batchSize: nat, units: TextureUnitManager)
      requires units.Valid()
      ensures Valid() && this.units == units
      ensures this.vertexCapacity == vertexCapacity && this.indexCapacity == indexCapacity && batchCapacity == batchSize
      ensures nextVertex == 0 && nextIndex == 0 && batchCommands == [] && batchQueue == [] && placed == [] && trace == []
    {
      this.units := units;
      this.vertexCapacity := vertexCapacity;
      this.indexCapacity := indexCapacity;
      batchCapacity := batchSize;
      nextVertex, nextIndex := 0, 0;
      batchCommands, batchQueue := [], [];
      modelInstanceData, tintInstanceData, texInstanceData, infoInstanceData := [], [], [], [];
      placed, trace := [], [];
      new;
      EmptyArenaPlaced(vertexCapacity, indexCapacity);
    }

    /**
     * `addGeometry`: follows the arena specification; on success the block is uploaded at the
     * cursors and joins the placed geometries, on rejection nothing changes.
     */
    method AddGeometry(vertexCount: nat, indexCount: nat) returns (geo: Option<Geometry>)
      requires Valid()
      modifies this`nextVertex, this`nextIndex, this`batchCommands, this`placed, this`trace
      ensures Valid()
      ensures (geo, CurrentArena()) == Batching.AddGeometry(old(CurrentArena()), vertexCount, indexCount)
      ensures geo.None? ==> trace == old(trace) && placed == old(placed)
      ensures geo.Some? ==>
        placed == old(placed) + [geo.value]
        && trace == old(trace) + [UploadGeometry(geo.value.firstVertex, vertexCount, geo.value.firstIndex, indexCount)]
    {
      ghost var after := Batching.AddGeometry(CurrentArena(), vertexCount, indexCount);
      AddGeometryKeepsPlaced(CurrentArena(), placed, vertexCount, indexCount);
      if vertexCount + nextVertex > vertexCapacity {
        return None;
      }
      if indexCount + nextIndex > indexCapacity {
        return None;
      }
      trace := trace + [UploadGeometry(nextVertex, vertexCount, nextIndex, indexCount)];
      var g := Geometry(|batchCommands|, vertexCount, indexCount, nextVertex, nextIndex);
      nextVertex := nextVertex + vertexCount;
      nextIndex := nextIndex + indexCount;
      RowsIdleGrow(batchCommands);
      batchCommands := batchCommands + [IdleCommand];
      placed := placed + [g];
      geo := Some(g);
      assert (geo, CurrentArena()) == after;
      EntriesFitMoreRows(batchQueue, |batchCommands| - 1, |batchCommands|);
    }

    /** `flushBatchCommands(shader, n)`: one multi-draw over every row with the first `n` instances of the seven streams. */
    method FlushBatchCommands(shader: nat, n: nat)
      modifies this`trace
      ensures trace == old(trace) + [MultiDraw(shader, n, batchCommands, Take(modelInstanceData, n), Take(texInstanceData, n),
                                               Take(tintInstanceData, n), Take(infoInstanceData, n))]
    {
      trace := trace + [MultiDraw(shader, n, batchCommands, Take(modelInstanceData, n), Take(texInstanceData, n),
                                  Take(tintInstanceData, n), Take(infoInstanceData, n))];
    }

    /** The counting half of one walk iteration: the row update and the model and packed-tint pushes. */
    method CountEntry(e: Entry, running: nat)
      requires e.geometry.id < |batchCommands|
      modifies this`batchCommands, this`modelInstanceData, this`tintInstanceData
      ensures batchCommands == CountInstance(old(batchCommands), e.geometry, running)
      ensures modelInstanceData == old(modelInstanceData) + [e.model]
      ensures tintInstanceData == old(tintInstanceData) + [Pack(e.surface.tint)]
    {
      var g := e.geometry;
      var row := batchCommands[g.id];
      if row.drawCount == 0 {
        row := row.(firstVertex := g.firstVertex, firstIndex := g.firstIndex, drawCount := g.indexCount, firstInstance := running);
      }
      batchCommands := batchCommands[g.id := row.(instanceCount := row.instanceCount + 1)];
      assert batchCommands == CountInstance(old(batchCommands), g, running);
      modelInstanceData := modelInstanceData + [e.model];
      tintInstanceData := tintInstanceData + [Pack(e.surface.tint)];
    }

    /** The first half of one iteration of the `flushBatch` loop, proved to follow `CountPhase`. */
    method CountAndSplit(e: Entry, running: nat) returns (running': nat)
      requires units.Valid() && e.geometry.id < |batchCommands|
      modifies this`batchCommands, this`modelInstanceData, this`tintInstanceData, this`trace
      ensures Snapshot(running') == CountPhase(old(Snapshot(running)), e)
    {
      ghost var w := Snapshot(running);
      CountEntry(e, running);
      running' := running + 1;
      ghost var counted := Snapshot(running');
      assert counted == w.(rows := CountInstance(w.rows, e.geometry, w.running), models := w.models + [e.model],
                           tints := w.tints + [Pack(e.surface.tint)], running := w.running + 1);
      if units.IsFull() {
        FlushBatchCommands(e.surface.shader, running');
        assert trace == w.trace + [Draw(e.surface.shader, running', counted)];
        running' := 0;
      }
    }

    /** `getUnit` for one texture, loading it only when the ring already held it. */
    method ResolveUnit(texture: nat) returns (unit: nat)
      requires units.Valid()
      modifies units, units.buffer, this`trace
      ensures units.Valid()
      ensures var l := Resolve(old(units.State()), texture);
        unit == l.unit && units.State() == l.ring
        && trace == if l.hit then old(trace) + [LoadTexture(texture, unit)] else old(trace)
    {
      var hit;
      hit, unit := units.GetUnit(texture);
      if hit {
        trace := trace + [LoadTexture(texture, unit)];
      }
    }

    /** One iteration of the `flushBatch` loop, proved to follow `Step`. */
    method WalkEntry(e: Entry, running: nat) returns (running': nat)
      requires units.Valid() && e.geometry.id < |batchCommands|
      modifies this`batchCommands, this`modelInstanceData, this`tintInstanceData, this`texInstanceData, this`infoInstanceData, this`trace
      modifies units, units.buffer
      ensures units.Valid()
      ensures Snapshot(running') == Step(old(Snapshot(running)), e)
    {
      running' := CountAndSplit(e, running);
      var unit := ResolveUnit(e.surface.texture);
      texInstanceData := texInstanceData + [unit];
      infoInstanceData := infoInstanceData + [e.info];
    }

    /** The walk loop of `flushBatch` over the (sorted) queue, proved to follow `WalkAll`. */
    method WalkQueue() returns (running: nat)
      requires units.Valid() && EntriesFit(batchQueue, |batchCommands|)
      modifies this`batchCommands, this`modelInstanceData, this`tintInstanceData, this`texInstanceData, this`infoInstanceData, this`trace
      modifies units, units.buffer
      ensures units.Valid()
      ensures Snapshot(running) == WalkAll(old(Snapshot(0)), batchQueue)
    {
      ghost var w0 := Snapshot(0);
      assert ValidRing(w0.ring);
      running := 0;
      var i := 0;
      while i < |batchQueue|
        invariant 0 <= i <= |batchQueue| && units.Valid()
        invariant Snapshot(running) == WalkAll(w0, batchQueue[..i])
      {
        running := WalkNext(i, running, w0);
        i := i + 1;
      }
      assert batchQueue[..|batchQueue|] == batchQueue;
    }

    /** One turn of the walk loop, stated against the walk over the queue's prefix. */
    method WalkNext(i: nat, running: nat, ghost w0: Walk) returns (running': nat)
      requires units.Valid() && ValidRing(w0.ring) && i < |batchQueue| && EntriesFit(batchQueue, |w0.rows|)
      requires Snapshot(running) == WalkAll(w0, batchQueue[..i])
      modifies this`batchCommands, this`modelInstanceData, this`tintInstanceData, this`texInstanceData, this`infoInstanceData, this`trace
      modifies units, units.buffer
      ensures units.Valid()
      ensures Snapshot(running') == WalkAll(w0, batchQueue[..i + 1])
    {
      WalkAllStep(w0, batchQueue, i);
      running' := WalkEntry(batchQueue[i], running);
    }

    /** The closing loop of `flushBatch`: every row loses its index and instance counts. */
    method ResetCounts()
      modifies this`batchCommands
      ensures batchCommands == ZeroCounts(old(batchCommands))
    {
      var k := 0;
      while k < |batchCommands|
        invariant 0 <= k <= |batchCommands| == |old(batchCommands)|
        invariant forall j :: 0 <= j < k ==> batchCommands[j] == old(batchCommands)[j].(drawCount := 0, instanceCount := 0)
        invariant forall j :: k <= j < |batchCommands| ==> batchCommands[j] == old(batchCommands)[j]
      {
        batchCommands := batchCommands[k := batchCommands[k].(instanceCount := 0, drawCount := 0)];
        k := k + 1;
      }
    }

    /** The tail of `flushBatch`: draw the instances still counted, then clear, as `Finish` says. */
    method FinishFlush(running: nat, ghost w: Walk)
      requires w == Walk(batchCommands, modelInstanceData, tintInstanceData, texInstanceData, infoInstanceData, running, w.ring, trace)
      requires running > 0 ==> |batchQueue| > 0
      modifies this`batchQueue, this`modelInstanceData, this`tintInstanceData, this`texInstanceData, this`infoInstanceData
      modifies this`batchCommands, this`trace
      ensures FlushResult(batchCommands, w.ring, trace) == Finish(w, old(batchQueue))
      ensures batchQueue == [] && modelInstanceData == [] && tintInstanceData == [] && texInstanceData == [] && infoInstanceData == []
    {
      if running > 0 {
        FlushBatchCommands(batchQueue[|batchQueue| - 1].surface.shader, running);
      }
      batchQueue := [];
      modelInstanceData, tintInstanceData, texInstanceData, infoInstanceData := [], [], [], [];
      ResetCounts();
    }

    /** The body of `flushBatch`: sort, walk, draw what is left, clear. */
    method FlushQueue()
      requires units.Valid() && EntriesFit(batchQueue, |batchCommands|)
      requires modelInstanceData == [] && tintInstanceData == [] && texInstanceData == [] && infoInstanceData == []
      modifies this`batchQueue, this`modelInstanceData, this`tintInstanceData, this`texInstanceData, this`infoInstanceData
      modifies this`batchCommands, this`trace, units, units.buffer
      ensures units.Valid()
      ensures FlushResult(batchCommands, units.State(), trace) == FlushBatchSpec(old(batchCommands), old(batchQueue), old(units.State()), old(trace))
      ensures batchQueue == [] && modelInstanceData == [] && tintInstanceData == [] && texInstanceData == [] && infoInstanceData == []
    {
      ghost var rows0, queue0, ring0, trace0 := batchCommands, batchQueue, units.State(), trace;
      var sorted := SortBy(batchQueue, KeyOf);
      SortedEntriesFit(batchQueue, sorted, |batchCommands|);
      FlushBatchSpecUnfolds(rows0, queue0, ring0, trace0);
      batchQueue := sorted;
      var running := WalkQueue();
      ghost var w := Snapshot(running);
      FinishFlush(running, w);
    }

    /** `flushBatch`, proved to follow `FlushBatchSpec`; afterwards the queue is empty. */
    method FlushBatch()
      requires Valid()
      modifies this, units, units.buffer
      ensures Valid()
      ensures FlushResult(batchCommands, units.State(), trace) == FlushBatchSpec(old(batchCommands), old(batchQueue), old(units.State()), old(trace))
      ensures batchQueue == [] && placed == old(placed)
      ensures nextVertex == old(nextVertex) && nextIndex == old(nextIndex)
    {
      ghost var arena0 := CurrentArena();
      FlushQueue();
      PlacedIgnoresRowContents(arena0, placed, batchCommands);
      assert CurrentArena() == arena0.(rows := batchCommands);
    }

    /** The batched branch of `submit`: flush a queue at capacity, then queue the entry with its `MaterialInfo`. */
    method Enqueue(e: Entry)
      requires Valid() && e.geometry.id < |batchCommands|
      modifies this, units, units.buffer
      ensures Valid()
      ensures placed == old(placed) && nextVertex == old(nextVertex) && nextIndex == old(nextIndex)
      ensures |old(batchQueue)| == batchCapacity ==>
        FlushResult(batchCommands, units.State(), trace) == FlushBatchSpec(old(batchCommands), old(batchQueue), old(units.State()), old(trace))
        && batchQueue == [e]
      ensures |old(batchQueue)| != batchCapacity ==>
        batchCommands == old(batchCommands) && units.State() == old(units.State()) && trace == old(trace)
        && batchQueue == old(batchQueue) + [e]
    {
      if |batchQueue| == batchCapacity {
        FlushBatch();
      }
      AppendEntry(e);
    }

    /** `batchQueue.push_back`: the queue is below capacity (or unbounded) when this runs. */
    method AppendEntry(e: Entry)
      requires Valid() && (batchCapacity == 0 || |batchQueue| < batchCapacity)
      requires e.geometry.id < |batchCommands|
      modifies this`batchQueue
      ensures Valid() && batchQueue == old(batchQueue) + [e]
    {
      batchQueue := batchQueue + [e];
    }

    /** The immediate branch of `submit`, proved to follow `Immediate`. */
    method DrawNow(geometry: Geometry, s: Surface, model: Transform)
      requires Valid()
      modifies units, units.buffer, this`trace
      ensures Valid()
      ensures (units.State(), trace) == Immediate(old(units.State()), old(trace), geometry, s, model)
    {
      var first := ResolveUnit(s.texture);
      var hit, unit := units.GetUnit(s.texture);
      trace := trace + [DrawImmediate(s.shader, model, unit, s.tint, geometry.indexCount, geometry.firstIndex, geometry.firstVertex)];
    }

    /**
     * `submit`: a batched material is queued with the model and its `MaterialInfo`, after
     * flushing a queue that has reached capacity; any other material is drawn at once.
     * The material must carry a texture, whose id both paths read.
     */
    method Submit(geometry: Geometry, material: Materials.Material, model: Transform, info: MaterialInfo)
      requires Valid() && geometry.id < |batchCommands| && material.texture.Some?
      modifies this, units, units.buffer
      ensures Valid()
      ensures placed == old(placed) && nextVertex == old(nextVertex) && nextIndex == old(nextIndex)
      ensures var s := Surface(material.shader, material.texture.value, material.tint);
        var batched := Materials.HasFlag(material.flags, Materials.FlagBatched);
        (batched && |old(batchQueue)| == batchCapacity ==>
          FlushResult(batchCommands, units.State(), trace) == FlushBatchSpec(old(batchCommands), old(batchQueue), old(units.State()), old(trace))
          && batchQueue == [Entry(geometry, s, model, info)])
        && (batched && |old(batchQueue)| != batchCapacity ==>
          batchCommands == old(batchCommands) && units.State() == old(units.State()) && trace == old(trace)
          && batchQueue == old(batchQueue) + [Entry(geometry, s, model, info)])
        && (!batched ==>
          batchQueue == old(batchQueue) && batchCommands == old(batchCommands)
          && (units.State(), trace) == Immediate(old(units.State()), old(trace), geometry, s, model))
    {
      var s := Surface(material.shader, material.texture.value, material.tint);
      if Materials.HasFlag(material.flags, Materials.FlagBatched) {
        Enqueue(Entry(geometry, s, model, info));
      } else {
        DrawNow(geometry, s, model);
      }
    }

    /** `flush` (and `end`): flush the queue when it is not empty. */
    method Flush()
      requires Valid()
      modifies this, units, units.buffer
      ensures Valid() && batchQueue == []
      ensures placed == old(placed) && nextVertex == old(nextVertex) && nextIndex == old(nextIndex)
      ensures old(batchQueue) == [] ==> batchCommands == old(batchCommands) && units.State() == old(units.State()) && trace == old(trace)
      ensures old(batchQueue) != [] ==>
        FlushResult(batchCommands, units.State(), trace) == FlushBatchSpec(old(batchCommands), old(batchQueue), old(units.State()), old(trace))
    {
      if |batchQueue| > 0 {
        FlushBatch();
      }
    }
  }
}
