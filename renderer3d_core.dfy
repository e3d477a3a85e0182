/**
 * The batched 3D renderer of the engine core (`Renderer3D` with five texture streams).
 *
 * Batched submissions are queued; `flushBatch` sorts the queue by shader then geometry id,
 * walks it once filling one indirect draw row per geometry and the per-instance streams
 * (model, packed tint, five texture units), and issues one multi-draw at the end, plus one
 * more every time the texture-unit ring reports full.  GPU work is recorded as a ghost trace
 * of events; the texture-unit ring is the shared `TextureUnitManager`.
 */
module Renderer3DCore {
  import opened Wrappers
  import opened Batching
  import opened RendererCommon
  import opened TextureUnits
  import Materials

  /** A model matrix, kept as its sixteen entries. */
  type Transform = seq<real>

  /** Number of texture units per instance (albedo, roughness, metallic, ambient occlusion, normal). */
  const TextureSlots: nat := 5

  /** The core material as the renderer reads it: shader, texture list, tint and flag bits. */
  datatype CoreMaterial = CoreMaterial(shader: nat, textures: seq<nat>, tint: Colour, flags: bv32)

  /** One queued submission; the material is captured as it was at submit time. */
  datatype Entry = Entry(geometry: Geometry, material: CoreMaterial, model: Transform)

  /** The local `texUnit[5]`: `None` marks a slot that was never written (uninitialised memory). */
  type Slots = seq<Option<nat>>

  const NoSlots: Slots := [None, None, None, None, None]

  /** Post-processing passes of `end(enabledEffects)`, in the order they are tried. */
  datatype Effect = DepthOfField | Volumetric | Bloom | ToneMapping | Vignette | RetroGrade

  /** What reaches the GPU, in order. */
  datatype GpuEvent =
    | UploadGeometry(firstVertex: nat, vertexCount: nat, firstIndex: nat, indexCount: nat)
    | LoadTexture(texture: nat, unit: nat)
    | MultiDraw(shader: nat, instanceCount: nat, rows: seq<DrawCommand>, models: seq<Transform>, tints: seq<bv32>, units: seq<Slots>)
    | DrawImmediate(shader: nat, slots: Slots, model: Transform, tint: Colour, indexCount: nat, firstIndex: nat, firstVertex: nat)
    | PostProcess(effects: seq<Effect>, frame: nat)

  function KeyOf(e: Entry): SortKey
  {
    SortKey(e.material.shader, e.geometry.id)
  }

  /** Every entry names an existing row and has at most five textures. */
  ghost predicate EntriesFit(es: seq<Entry>, rowCount: nat)
  {
    forall k :: 0 <= k < |es| ==> es[k].geometry.id < rowCount && |es[k].material.textures| <= TextureSlots
  }

  /** Adding rows keeps every queued entry fitting. */
  lemma {:induction false} EntriesFitMoreRows(es: seq<Entry>, n: nat, m: nat)
    requires EntriesFit(es, n) && n <= m
    ensures EntriesFit(es, m)
  {
  }

  /** The packed tint of an instance: its tint when the tint flag is set, opaque white otherwise. */
  function InstanceTint(m: CoreMaterial): (t: bv32)
    ensures Materials.HasFlag(m.flags, Materials.FlagTint) ==> t == Pack(m.tint)
    ensures !Materials.HasFlag(m.flags, Materials.FlagTint) ==> t == 0xFFFF_FFFF
  {
    PackExtremes();
    if Materials.HasFlag(m.flags, Materials.FlagTint) then Pack(m.tint) else Pack(White)
  }

  // ---- Binding the textures of one material ----

  /** The slots, the ring and the trace while a material's textures are bound. */
  datatype Binding = Binding(slots: Slots, ring: Ring, trace: seq<GpuEvent>)

  /**
   * The texture loop: texture `i` gets a unit from the ring, lands in slot `i` and is loaded
   * into that unit, whether or not the ring already held it.
   */
  function Bind(b: Binding, textures: seq<nat>): (r: Binding)
    requires ValidRing(b.ring) && |b.slots| == TextureSlots && |textures| <= TextureSlots
    ensures ValidRing(r.ring) && |r.ring.buffer| == |b.ring.buffer| && |r.slots| == TextureSlots
    ensures |r.trace| == |b.trace| + |textures|
    decreases |textures|
  {
    if textures == [] then b
    else
      var i := |textures| - 1;
      var p := Bind(b, textures[..i]);
      var l := Resolve(p.ring, textures[i]);
      Binding(p.slots[i := Some(l.unit)], l.ring, p.trace + [LoadTexture(textures[i], l.unit)])
  }
  /** One more texture of the list is one more resolution, slot and load. */
  lemma {:induction false} BindPrefix(b: Binding, textures: seq<nat>, i: nat)
    requires ValidRing(b.ring) && |b.slots| == TextureSlots && i < |textures| <= TextureSlots
    ensures var p := Bind(b, textures[..i]);
      var l := Resolve(p.ring, textures[i]);
      Bind(b, textures[..i + 1]) == Binding(p.slots[i := Some(l.unit)], l.ring, p.trace + [LoadTexture(textures[i], l.unit)])
  {
    assert textures[..i + 1][..i] == textures[..i];
  }


  /**
   * Binding appends one load per texture and nothing else: the `i`-th load names texture `i`
   * and the unit slot `i` ends up holding; slots past the texture list keep what they held.
   */
  lemma {:induction false} BindLoads(b: Binding, textures: seq<nat>)
    requires ValidRing(b.ring) && |b.slots| == TextureSlots && |textures| <= TextureSlots
    ensures var r := Bind(b, textures);
      r.trace[..|b.trace|] == b.trace
      && (forall i :: |textures| <= i < TextureSlots ==> r.slots[i] == b.slots[i])
      && (forall i :: 0 <= i < |textures| ==>
            r.slots[i].Some? && r.slots[i].value < |b.ring.buffer| && r.trace[|b.trace| + i] == LoadTexture(textures[i], r.slots[i].value))
      && (forall k :: |b.trace| <= k < |r.trace| ==> r.trace[k].LoadTexture?)
    decreases |textures|
  {
    if textures != [] {
      var i := |textures| - 1;
      BindLoads(b, textures[..i]);
      var p := Bind(b, textures[..i]);
      var r := Bind(b, textures);
      assert r.trace == p.trace + [r.trace[|r.trace| - 1]];
      forall j | 0 <= j < i
        ensures r.slots[j] == p.slots[j] && r.trace[|b.trace| + j] == p.trace[|b.trace| + j]
      {
      }
      forall k | |b.trace| <= k < |r.trace|
        ensures r.trace[k].LoadTexture?
      {
        if k < |p.trace| {
          assert r.trace[k] == p.trace[k];
        }
      }
    }
  }

  // ---- The walk of flushBatch ----

  /** The state of the walk: rows, the three stream kinds, the texture slots, the counter, the ring, the trace. */
  datatype Walk = Walk(rows: seq<DrawCommand>, models: seq<Transform>, tints: seq<bv32>, units: seq<Slots>,
                       slots: Slots, running: nat, ring: Ring, trace: seq<GpuEvent>)

  ghost predicate WalkInv(w: Walk)
  {
    ValidRing(w.ring) && |w.slots| == TextureSlots
  }

  /** The multi-draw `flushBatchCommands(shader, n)` issues from the current rows and streams. */
  function Draw(shader: nat, n: nat, rows: seq<DrawCommand>, models: seq<Transform>, tints: seq<bv32>, units: seq<Slots>): GpuEvent
  {
    MultiDraw(shader, n, rows, Take(models, n), Take(tints, n), Take(units, n))
  }

  /**
   * One entry of the walk: count it in its row, push its model and tint, flush a sub-batch
   * when the ring is full (without resetting rows or streams), bind its textures and push
   * the five slots.
   */
  function Step(w: Walk, e: Entry): (r: Walk)
    requires WalkInv(w) && e.geometry.id < |w.rows| && |e.material.textures| <= TextureSlots
    ensures WalkInv(r) && |r.rows| == |w.rows| && |r.ring.buffer| == |w.ring.buffer|
    ensures r.running <= w.running + 1
    ensures |r.models| == |w.models| + 1 && |r.units| == |w.units| + 1
    ensures |r.trace| == |w.trace| + (if w.ring.full then 1 else 0) + |e.material.textures|
  {
    var c := CountPhase(w, e);
    var b := Bind(Binding(c.slots, c.ring, c.trace), e.material.textures);
    c.(units := c.units + [b.slots], slots := b.slots, ring := b.ring, trace := b.trace)
  }

  /** The first half of a step: count the entry, push its model and tint, split off a sub-batch when the ring is full. */
  function CountPhase(w: Walk, e: Entry): (c: Walk)
    requires WalkInv(w) && e.geometry.id < |w.rows|
    ensures WalkInv(c) && |c.rows| == |w.rows| && c.ring == w.ring && c.units == w.units && c.slots == w.slots
    ensures |c.trace| == |w.trace| + (if w.ring.full then 1 else 0)
  {
    var rows := CountInstance(w.rows, e.geometry, w.running);
    var models := w.models + [e.model];
    var tints := w.tints + [InstanceTint(e.material)];
    var trace := if w.ring.full then w.trace + [Draw(e.material.shader, w.running + 1, rows, models, tints, w.units)] else w.trace;
    w.(rows := rows, models := models, tints := tints, running := if w.ring.full then 0 else w.running + 1, trace := trace)
  }

  /**
   * What one step appends to the trace: the sub-batch multi-draw when the ring was full
   * (over every row, with `running + 1` instances, the current entry's shader and the unit
   * streams as they stood before this entry), then only texture loads.
   */
  lemma {:induction false} StepTrace(w: Walk, e: Entry)
    requires WalkInv(w) && e.geometry.id < |w.rows| && |e.material.textures| <= TextureSlots
    ensures var r := Step(w, e);
      r.trace[..|w.trace|] == w.trace
      && (w.ring.full ==> r.trace[|w.trace|] == Draw(e.material.shader, w.running + 1, r.rows, r.models, r.tints, w.units))
      && forall k :: |w.trace| + (if w.ring.full then 1 else 0) <= k < |r.trace| ==> r.trace[k].LoadTexture?
  {
    var c := CountPhase(w, e);
    CountPhaseTrace(w, e);
    BindLoads(Binding(c.slots, c.ring, c.trace), e.material.textures);
    var r := Step(w, e);
    assert r.trace == Bind(Binding(c.slots, c.ring, c.trace), e.material.textures).trace;
    assert r.rows == c.rows && r.models == c.models && r.tints == c.tints;
    assert r.trace[..|c.trace|][..|w.trace|] == r.trace[..|w.trace|];
  }

  /** A step only appends to the trace, and without a split it appends only texture loads. */
  lemma {:induction false} StepExtendsTrace(w: Walk, e: Entry)
    requires WalkInv(w) && e.geometry.id < |w.rows| && |e.material.textures| <= TextureSlots
    ensures var r := Step(w, e);
      |r.trace| >= |w.trace| && r.trace[..|w.trace|] == w.trace
      && (!w.ring.full ==> forall k :: |w.trace| <= k < |r.trace| ==> r.trace[k].LoadTexture?)
  {
    var c := CountPhase(w, e);
    BindLoads(Binding(c.slots, c.ring, c.trace), e.material.textures);
  }

  lemma {:induction false} CountPhaseTrace(w: Walk, e: Entry)
    requires WalkInv(w) && e.geometry.id < |w.rows|
    ensures var c := CountPhase(w, e);
      c.trace[..|w.trace|] == w.trace
      && (w.ring.full ==> c.trace[|w.trace|] == Draw(e.material.shader, w.running + 1, c.rows, c.models, c.tints, w.units))
  {
  }

  /** A step is its count phase followed by the binding of the entry's textures. */
  lemma {:induction false} StepFromPhases(w: Walk, e: Entry, c: Walk, b: Binding)
    requires WalkInv(w) && e.geometry.id < |w.rows| && |e.material.textures| <= TextureSlots
    requires c == CountPhase(w, e) && b == Bind(Binding(c.slots, c.ring, c.trace), e.material.textures)
    ensures Step(w, e) == Walk(c.rows, c.models, c.tints, c.units + [b.slots], b.slots, c.running, b.ring, b.trace)
  {
  }

  /** The parts of one step other than the trace, field by field. */
  lemma {:induction false} StepFields(w: Walk, e: Entry)
    requires WalkInv(w) && e.geometry.id < |w.rows| && |e.material.textures| <= TextureSlots
    ensures var r := Step(w, e);
      r.rows == CountInstance(w.rows, e.geometry, w.running)
      && r.models == w.models + [e.model] && r.tints == w.tints + [InstanceTint(e.material)]
      && r.running == (if w.ring.full then 0 else w.running + 1)
      && r.units == w.units + [r.slots]
  {
  }

  /** The walk over a prefix of the sorted queue, one `Step` per entry. */
  function WalkAll(w: Walk, es: seq<Entry>): (r: Walk)
    requires WalkInv(w) && EntriesFit(es, |w.rows|)
    ensures WalkInv(r) && |r.rows| == |w.rows| && |r.ring.buffer| == |w.ring.buffer|
    ensures r.running <= w.running + |es|
    ensures |r.models| == |w.models| + |es| && |r.units| == |w.units| + |es|
    decreases |es|
  {
    if es == [] then w
    else Step(WalkAll(w, es[..|es| - 1]), es[|es| - 1])
  }

  /** One more entry of the queue is one more `Step`. */
  lemma {:induction false} WalkAllStep(w: Walk, es: seq<Entry>, i: nat)
    requires WalkInv(w) && EntriesFit(es, |w.rows|) && i < |es|
    ensures WalkAll(w, es[..i + 1]) == Step(WalkAll(w, es[..i]), es[i])
  {
    assert es[..i + 1][..i] == es[..i];
  }

  /** The walk at the start of `flushBatch`: empty streams, a zero counter, untouched slots. */
  function StartWalk(rows: seq<DrawCommand>, ring: Ring, trace: seq<GpuEvent>): Walk
  {
    Walk(rows, [], [], [], NoSlots, 0, ring, trace)
  }

  /** The rows, ring and trace left by a flush. */
  datatype FlushResult = FlushResult(rows: seq<DrawCommand>, ring: Ring, trace: seq<GpuEvent>)

  /**
   * `flushBatch`: sort, walk, draw what is left under the shader of the last sorted entry,
   * then zero every row's counts.
   */
  function FlushBatchSpec(rows: seq<DrawCommand>, queue: seq<Entry>, ring: Ring, trace: seq<GpuEvent>): (r: FlushResult)
    requires ValidRing(ring) && EntriesFit(queue, |rows|)
    ensures ValidRing(r.ring) && |r.ring.buffer| == |ring.buffer|
    ensures |r.rows| == |rows| && RowsIdle(r.rows)
  {
    var sorted := SortBy(queue, KeyOf);
    SortedEntriesFit(queue, sorted, |rows|);
    Finish(WalkAll(StartWalk(rows, ring, trace), sorted), sorted)
  }

  /** The end of `flushBatch`: draw the instances still counted under the last entry's shader, zero the rows. */
  function Finish(w: Walk, sorted: seq<Entry>): (r: FlushResult)
    requires w.running > 0 ==> |sorted| > 0
    ensures |r.rows| == |w.rows| && RowsIdle(r.rows) && r.ring == w.ring
  {
    var trace := if w.running > 0 then w.trace + [Draw(sorted[|sorted| - 1].material.shader, w.running, w.rows, w.models, w.tints, w.units)] else w.trace;
    FlushResult(ZeroCounts(w.rows), w.ring, trace)
  }

  /** A flush only appends to the trace. */
  lemma {:induction false} FlushExtendsTrace(rows: seq<DrawCommand>, queue: seq<Entry>, ring: Ring, trace: seq<GpuEvent>)
    requires ValidRing(ring) && EntriesFit(queue, |rows|)
    ensures var r := FlushBatchSpec(rows, queue, ring, trace);
      |r.trace| >= |trace| && r.trace[..|trace|] == trace
  {
    SortedEntriesFit(queue, SortBy(queue, KeyOf), |rows|);
    FlushBatchSpecUnfolds(rows, queue, ring, trace);
    WalkFinishExtends(StartWalk(rows, ring, trace), SortBy(queue, KeyOf));
  }

  /** `FlushExtendsTrace` for any walk start: the walk and then the final draw only append. */
  lemma {:induction false} WalkFinishExtends(w0: Walk, sorted: seq<Entry>)
    requires WalkInv(w0) && EntriesFit(sorted, |w0.rows|) && w0.running == 0
    ensures var t := Finish(WalkAll(w0, sorted), sorted).trace; |t| >= |w0.trace| && t[..|w0.trace|] == w0.trace
  {
    WalkExtendsTrace(w0, sorted);
    var w := WalkAll(w0, sorted);
    var t := Finish(w, sorted).trace;
    FinishExtends(w, sorted);
    assert t[..|w0.trace|] == t[..|w.trace|][..|w0.trace|];
  }

  /** The end of a flush only appends to the trace. */
  lemma {:induction false} FinishExtends(w: Walk, sorted: seq<Entry>)
    requires w.running > 0 ==> |sorted| > 0
    ensures var t := Finish(w, sorted).trace; |t| >= |w.trace| && t[..|w.trace|] == w.trace
  {
  }

  lemma {:induction false} FlushBatchSpecUnfolds(rows: seq<DrawCommand>, queue: seq<Entry>, ring: Ring, trace: seq<GpuEvent>)
    requires ValidRing(ring) && EntriesFit(queue, |rows|) && EntriesFit(SortBy(queue, KeyOf), |rows|)
    ensures FlushBatchSpec(rows, queue, ring, trace) == Finish(WalkAll(StartWalk(rows, ring, trace), SortBy(queue, KeyOf)), SortBy(queue, KeyOf))
  {
  }

  lemma {:induction false} SortedEntriesFit(queue: seq<Entry>, sorted: seq<Entry>, rowCount: nat)
    requires EntriesFit(queue, rowCount) && multiset(sorted) == multiset(queue)
    ensures EntriesFit(sorted, rowCount)
  {
    forall k | 0 <= k < |sorted|
      ensures sorted[k].geometry.id < rowCount && |sorted[k].material.textures| <= TextureSlots
    {
      assert sorted[k] in multiset(queue);
      var j :| 0 <= j < |queue| && queue[j] == sorted[k];
    }
  }

  /** The walk only appends to the trace. */
  lemma {:induction false} WalkExtendsTrace(w: Walk, es: seq<Entry>)
    requires WalkInv(w) && EntriesFit(es, |w.rows|)
    ensures |WalkAll(w, es).trace| >= |w.trace| && WalkAll(w, es).trace[..|w.trace|] == w.trace
    decreases |es|
  {
    if es != [] {
      var pre, last := es[..|es| - 1], es[|es| - 1];
      assert EntriesFit(pre, |w.rows|);
      WalkExtendsTrace(w, pre);
      var mid := WalkAll(w, pre);
      StepExtendsTrace(mid, last);
      PrefixOfPrefix(w.trace, mid.trace, Step(mid, last).trace);
    }
  }

  // ---- What a flush draws ----

  function Geos(es: seq<Entry>): (gs: seq<Geometry>)
    ensures |gs| == |es| && forall k :: 0 <= k < |es| ==> gs[k] == es[k].geometry
  {
    seq(|es|, k requires 0 <= k < |es| => es[k].geometry)
  }

  function Models(es: seq<Entry>): (ms: seq<Transform>)
    ensures |ms| == |es| && forall k :: 0 <= k < |es| ==> ms[k] == es[k].model
  {
    seq(|es|, k requires 0 <= k < |es| => es[k].model)
  }

  function Tints(es: seq<Entry>): (ts: seq<bv32>)
    ensures |ts| == |es| && forall k :: 0 <= k < |es| ==> ts[k] == InstanceTint(es[k].material)
  {
    seq(|es|, k requires 0 <= k < |es| => InstanceTint(es[k].material))
  }

  /** The ring never reports full before any entry of `es` is walked, so no sub-batch is split off. */
  ghost predicate NoSplit(w0: Walk, es: seq<Entry>)
    requires WalkInv(w0) && EntriesFit(es, |w0.rows|)
    decreases |es|
  {
    es == [] || (NoSplit(w0, es[..|es| - 1]) && !WalkAll(w0, es[..|es| - 1]).ring.full)
  }

  /** Dropping the last entry keeps the walk free of splits, and the last entry meets a ring that is not full. */
  lemma {:induction false} NoSplitPrefix(w0: Walk, es: seq<Entry>)
    requires WalkInv(w0) && EntriesFit(es, |w0.rows|) && |es| > 0
    requires NoSplit(w0, es)
    ensures EntriesFit(es[..|es| - 1], |w0.rows|)
    ensures NoSplit(w0, es[..|es| - 1])
    ensures !WalkAll(w0, es[..|es| - 1]).ring.full
  {
  }

  lemma {:induction false} EntryStreamsPrefix(es: seq<Entry>, n: nat)
    requires n < |es|
    ensures Geos(es)[..n] == Geos(es[..n]) && Geos(es)[n] == es[n].geometry
    ensures Models(es[..n + 1]) == Models(es[..n]) + [es[n].model]
    ensures Tints(es[..n + 1]) == Tints(es[..n]) + [InstanceTint(es[n].material)]
  {
  }

  /**
   * Without a split, walking `es` from fresh streams numbers the entries 0, 1, ... as
   * instances: the rows are `CountAll` of their geometries and the model and tint streams
   * hold the entries' models and tints in order.
   */
  lemma {:induction false} WalkWithoutSplit(w0: Walk, es: seq<Entry>)
    requires WalkInv(w0) && EntriesFit(es, |w0.rows|)
    requires w0.running == 0 && w0.models == [] && w0.tints == []
    requires NoSplit(w0, es)
    ensures var w := WalkAll(w0, es);
      w.running == |es| && w.rows == CountAll(w0.rows, Geos(es))
      && w.models == Models(es) && w.tints == Tints(es)
    decreases |es|
  {
    if es != [] {
      var n := |es| - 1;
      NoSplitPrefix(w0, es);
      WalkWithoutSplit(w0, es[..n]);
      StepFields(WalkAll(w0, es[..n]), es[n]);
      EntryStreamsPrefix(es, n);
      assert es[..n + 1] == es;
    }
  }

  /** Without a split, the walk adds nothing but texture loads to the trace. */
  lemma {:induction false} WalkWithoutSplitOnlyLoads(w0: Walk, es: seq<Entry>)
    requires WalkInv(w0) && EntriesFit(es, |w0.rows|)
    requires NoSplit(w0, es)
    ensures var w := WalkAll(w0, es);
      |w.trace| >= |w0.trace| && forall k :: |w0.trace| <= k < |w.trace| ==> w.trace[k].LoadTexture?
    decreases |es|
  {
    if es != [] {
      var n := |es| - 1;
      NoSplitPrefix(w0, es);
      WalkWithoutSplitOnlyLoads(w0, es[..n]);
      var p := WalkAll(w0, es[..n]);
      StepExtendsTrace(p, es[n]);
      var w := WalkAll(w0, es);
      forall k | |w0.trace| <= k < |w.trace|
        ensures w.trace[k].LoadTexture?
      {
        if k < |p.trace| {
          assert w.trace[k] == w.trace[..|p.trace|][k];
        }
      }
    }
  }

  /**
   * A flush without a split draws the whole queue with one multi-draw, issued after the texture
   * loads, under the largest queued shader, with one instance per entry in sorted order.
   */
  lemma {:induction false} FlushWithoutSplit(rows: seq<DrawCommand>, queue: seq<Entry>, ring: Ring, trace: seq<GpuEvent>)
    requires ValidRing(ring) && EntriesFit(queue, |rows|) && |queue| > 0
    requires EntriesFit(SortBy(queue, KeyOf), |rows|)
    requires NoSplit(StartWalk(rows, ring, trace), SortBy(queue, KeyOf))
    ensures var sorted := SortBy(queue, KeyOf);
      var t := FlushBatchSpec(rows, queue, ring, trace).trace;
      |t| > |trace|
      && (forall k :: |trace| <= k < |t| - 1 ==> t[k].LoadTexture?)
      && t[|t| - 1].MultiDraw? && t[|t| - 1].instanceCount == |queue|
      && t[|t| - 1].models == Models(sorted) && t[|t| - 1].tints == Tints(sorted)
      && (forall e :: e in queue ==> e.material.shader <= t[|t| - 1].shader)
      && (exists e :: e in queue && e.material.shader == t[|t| - 1].shader)
  {
    var sorted := SortBy(queue, KeyOf);
    FlushBatchSpecUnfolds(rows, queue, ring, trace);
    FinishWithoutSplit(StartWalk(rows, ring, trace), sorted);
    LastShaderIsLargest(queue, sorted);
  }

  /**
   * The trace ends in a multi-draw with one row per geometry, and the row of `geo` draws that
   * geometry's index range and covers exactly the sorted positions holding `geo`'s entries.
   */
  ghost predicate RowCoversGeometry(t: seq<GpuEvent>, rowCount: nat, sorted: seq<Entry>, geo: Geometry)
  {
    |t| > 0 && t[|t| - 1].MultiDraw? && |t[|t| - 1].rows| == rowCount && geo.id < rowCount
    && var row := t[|t| - 1].rows[geo.id];
    (row.instanceCount > 0 ==> row.drawCount == geo.indexCount && row.firstIndex == geo.firstIndex && row.firstVertex == geo.firstVertex)
    && (forall q :: 0 <= q < |sorted| ==> (sorted[q].geometry.id == geo.id <==> row.firstInstance <= q < row.firstInstance + row.instanceCount))
  }

  /**
   * The batch ordering invariant of a flush without a split: the row of a geometry whose
   * queued entries share one shader covers exactly the instances of those entries and draws
   * that geometry's index range.
   */
  lemma {:induction false} FlushRowCoverage(rows: seq<DrawCommand>, queue: seq<Entry>, ring: Ring, trace: seq<GpuEvent>, geo: Geometry, shader: nat)
    requires ValidRing(ring) && EntriesFit(queue, |rows|) && RowsIdle(rows) && |queue| > 0
    requires EntriesFit(SortBy(queue, KeyOf), |rows|)
    requires NoSplit(StartWalk(rows, ring, trace), SortBy(queue, KeyOf))
    requires geo.id < |rows| && geo.indexCount > 0
    requires forall e :: e in queue && e.geometry.id == geo.id ==> e.geometry == geo && e.material.shader == shader
    ensures RowCoversGeometry(FlushBatchSpec(rows, queue, ring, trace).trace, |rows|, SortBy(queue, KeyOf), geo)
  {
    FlushBatchSpecUnfolds(rows, queue, ring, trace);
    FinishRowCoverage(StartWalk(rows, ring, trace), queue, SortBy(queue, KeyOf), geo, shader);
  }

  /** `FlushRowCoverage` for a walk that starts from idle rows with empty streams. */
  lemma {:induction false} FinishRowCoverage(w0: Walk, queue: seq<Entry>, sorted: seq<Entry>, geo: Geometry, shader: nat)
    requires WalkInv(w0) && w0.running == 0 && w0.models == [] && w0.tints == [] && RowsIdle(w0.rows)
    requires SortedBy(sorted, KeyOf) && multiset(sorted) == multiset(queue) && |sorted| > 0
    requires EntriesFit(sorted, |w0.rows|) && NoSplit(w0, sorted)
    requires geo.id < |w0.rows| && geo.indexCount > 0
    requires forall e :: e in queue && e.geometry.id == geo.id ==> e.geometry == geo && e.material.shader == shader
    ensures RowCoversGeometry(Finish(WalkAll(w0, sorted), sorted).trace, |w0.rows|, sorted, geo)
  {
    FinishWithoutSplit(w0, sorted);
    SortedRowCoverage(w0.rows, queue, sorted, geo, shader);
  }

  /**
   * Without a split, the end of the flush appends texture loads and then one multi-draw of
   * every walked entry, in order, under the last entry's shader.
   */
  lemma {:induction false} FinishWithoutSplit(w0: Walk, sorted: seq<Entry>)
    requires WalkInv(w0) && EntriesFit(sorted, |w0.rows|) && |sorted| > 0
    requires w0.running == 0 && w0.models == [] && w0.tints == []
    requires NoSplit(w0, sorted)
    ensures var t := Finish(WalkAll(w0, sorted), sorted).trace;
      |t| > |w0.trace| && (forall k :: |w0.trace| <= k < |t| - 1 ==> t[k].LoadTexture?)
      && t[|t| - 1].MultiDraw? && t[|t| - 1].shader == sorted[|sorted| - 1].material.shader
      && t[|t| - 1].instanceCount == |sorted| && IdsBelow(Geos(sorted), |w0.rows|)
      && t[|t| - 1].rows == CountAll(w0.rows, Geos(sorted))
      && t[|t| - 1].models == Models(sorted) && t[|t| - 1].tints == Tints(sorted)
  {
    WalkWithoutSplit(w0, sorted);
    WalkWithoutSplitOnlyLoads(w0, sorted);
  }

  /** The last entry of a sorted rearrangement of the queue is queued and carries the largest queued shader. */
  lemma {:induction false} LastShaderIsLargest(queue: seq<Entry>, sorted: seq<Entry>)
    requires SortedBy(sorted, KeyOf) && multiset(sorted) == multiset(queue) && |sorted| > 0
    ensures sorted[|sorted| - 1] in queue
    ensures forall e :: e in queue ==> e.material.shader <= sorted[|sorted| - 1].material.shader
  {
    SortedLastIsLargest(queue, sorted, KeyOf);
    forall e | e in queue
      ensures e.material.shader <= sorted[|sorted| - 1].material.shader
    {
      assert KeyOf(e).shader <= KeyOf(sorted[|sorted| - 1]).shader;
    }
  }

  /**
   * In any sorted rearrangement of the queue, the row of a geometry drawn under one shader
   * covers exactly that geometry's entries.
   */
  lemma {:induction false} SortedRowCoverage(rows: seq<DrawCommand>, queue: seq<Entry>, sorted: seq<Entry>, geo: Geometry, shader: nat)
    requires SortedBy(sorted, KeyOf) && multiset(sorted) == multiset(queue)
    requires RowsIdle(rows) && EntriesFit(sorted, |rows|)
    requires geo.id < |rows| && geo.indexCount > 0
    requires forall e :: e in queue && e.geometry.id == geo.id ==> e.geometry == geo && e.material.shader == shader
    ensures var row := CountAll(rows, Geos(sorted))[geo.id];
      (row.instanceCount > 0 ==> row.drawCount == geo.indexCount && row.firstIndex == geo.firstIndex && row.firstVertex == geo.firstVertex)
      && (forall q :: 0 <= q < |sorted| ==> (sorted[q].geometry.id == geo.id <==> row.firstInstance <= q < row.firstInstance + row.instanceCount))
  {
    var gs := Geos(sorted);
    assert IdsBelow(gs, |rows|);
    forall k | 0 <= k < |gs| && gs[k].id == geo.id
      ensures gs[k] == geo && sorted[k].material.shader == shader
    {
      assert sorted[k] in multiset(queue);
    }
    SortedRunsAreContiguous(sorted, KeyOf, geo.id);
    assert Contiguous(gs, geo.id);
    RowCoversItsEntries(rows, gs, geo);
  }

  /**
   * At the first split the unit streams do not yet hold the current entry: the sub-batch
   * draw counts `running + 1` instances and uploads as many models, but one unit set fewer.
   */
  lemma {:induction false} SplitDrawLacksCurrentUnits(w: Walk, e: Entry)
    requires WalkInv(w) && e.geometry.id < |w.rows| && |e.material.textures| <= TextureSlots
    requires w.ring.full && |w.units| == w.running && |w.models| == w.running
    ensures var r := Step(w, e);
      |r.trace| > |w.trace| && r.trace[|w.trace|].MultiDraw?
      && |r.trace[|w.trace|].units| < r.trace[|w.trace|].instanceCount
      && |r.trace[|w.trace|].models| == r.trace[|w.trace|].instanceCount
  {
    StepTrace(w, e);
    StepFields(w, e);
  }

  /**
   * A split neither resets the rows nor empties the streams: the counter restarts at zero
   * while the next sub-batch will upload the streams again from their first entry.
   */
  lemma {:induction false} SplitKeepsBatchState(w: Walk, e: Entry)
    requires WalkInv(w) && e.geometry.id < |w.rows| && |e.material.textures| <= TextureSlots
    requires w.ring.full
    ensures var r := Step(w, e);
      r.running == 0 && r.models == w.models + [e.model] && r.tints == w.tints + [InstanceTint(e.material)]
      && r.rows[e.geometry.id].instanceCount == w.rows[e.geometry.id].instanceCount + 1
  {
  }

  // ---- Instances across sub-batches ----

  /** The instances one event asks the GPU for: a multi-draw's `n` argument, else none. */
  function EventInstances(ev: GpuEvent): nat
  {
    if ev.MultiDraw? then ev.instanceCount else 0
  }

  /** The instances the rows of one event ask for: a multi-draw's rows summed, else none. */
  function EventRowInstances(ev: GpuEvent): nat
  {
    if ev.MultiDraw? then RowInstances(ev.rows) else 0
  }

  /** The instances the multi-draws of a trace ask for: the sum of their `n` arguments. */
  function Drawn(t: seq<GpuEvent>): nat
  {
    SumOf(t, EventInstances)
  }

  /** The instances the rows of the multi-draws of a trace ask for, summed over the draws. */
  function RowsDrawn(t: seq<GpuEvent>): nat
  {
    SumOf(t, EventRowInstances)
  }

  /** Binding textures adds only loads, so neither sum changes. */
  lemma {:induction false} BindDrawsNothing(b: Binding, textures: seq<nat>)
    requires ValidRing(b.ring) && |b.slots| == TextureSlots && |textures| <= TextureSlots
    ensures Drawn(Bind(b, textures).trace) == Drawn(b.trace) && RowsDrawn(Bind(b, textures).trace) == RowsDrawn(b.trace)
    decreases |textures|
  {
    if textures != [] {
      var i := |textures| - 1;
      BindDrawsNothing(b, textures[..i]);
      var p := Bind(b, textures[..i]);
      var t := Bind(b, textures).trace;
      assert t[..|t| - 1] == p.trace;
    }
  }

  /**
   * One step of the walk: the instances drawn so far plus the counter grow by one, and a
   * split draws rows that ask for every instance counted in them since the flush began.
   */
  lemma {:induction false} StepDrawn(w: Walk, e: Entry)
    requires WalkInv(w) && e.geometry.id < |w.rows| && |e.material.textures| <= TextureSlots
    ensures var r := Step(w, e);
      Drawn(r.trace) + r.running == Drawn(w.trace) + w.running + 1
      && RowInstances(r.rows) == RowInstances(w.rows) + 1
      && RowsDrawn(r.trace) == RowsDrawn(w.trace) + (if w.ring.full then RowInstances(r.rows) else 0)
  {
    var c := CountPhase(w, e);
    BindDrawsNothing(Binding(c.slots, c.ring, c.trace), e.material.textures);
    CountInstanceAddsOne(w.rows, e.geometry, w.running);
    if w.ring.full {
      assert c.trace[..|c.trace| - 1] == w.trace;
    }
  }

  /**
   * The walk over `es`: the `n` arguments of the sub-batch draws plus the counter account
   * for every walked entry once, while the rows keep counting every walked entry.
   */
  lemma {:induction false} WalkDrawn(w0: Walk, es: seq<Entry>)
    requires WalkInv(w0) && EntriesFit(es, |w0.rows|)
    ensures var w := WalkAll(w0, es);
      Drawn(w.trace) + w.running == Drawn(w0.trace) + w0.running + |es|
      && RowInstances(w.rows) == RowInstances(w0.rows) + |es|
    decreases |es|
  {
    if es != [] {
      var n := |es| - 1;
      assert EntriesFit(es[..n], |w0.rows|);
      WalkDrawn(w0, es[..n]);
      StepDrawn(WalkAll(w0, es[..n]), es[n]);
    }
  }

  /**
   * Whatever the splits, the multi-draws a flush emits ask for exactly one instance per
   * queued entry: their `n` arguments sum to the length of the queue.
   */
  lemma {:induction false} FlushDrawsQueue(rows: seq<DrawCommand>, queue: seq<Entry>, ring: Ring, trace: seq<GpuEvent>)
    requires ValidRing(ring) && EntriesFit(queue, |rows|)
    ensures var t := FlushBatchSpec(rows, queue, ring, trace).trace;
      |t| >= |trace| && Drawn(t[|trace|..]) == |queue|
  {
    var sorted := SortBy(queue, KeyOf);
    SortedEntriesFit(queue, sorted, |rows|);
    FlushBatchSpecUnfolds(rows, queue, ring, trace);
    WalkFinishDrawn(StartWalk(rows, ring, trace), sorted);
  }

  /** `FlushDrawsQueue` for any walk start with a zero counter. */
  lemma {:induction false} WalkFinishDrawn(w0: Walk, sorted: seq<Entry>)
    requires WalkInv(w0) && EntriesFit(sorted, |w0.rows|) && w0.running == 0
    ensures var t := Finish(WalkAll(w0, sorted), sorted).trace;
      |t| >= |w0.trace| && Drawn(t[|w0.trace|..]) == |sorted|
  {
    var w := WalkAll(w0, sorted);
    WalkDrawn(w0, sorted);
    WalkFinishExtends(w0, sorted);
    var t := Finish(w, sorted).trace;
    FinishDrawn(w, sorted);
    SumOfSplit(t, |w0.trace|, EventInstances);
    SumOfSplit(t, |w0.trace|, EventRowInstances);
  }

  /**
   * The rows are never reset at a split: the draw split off at the `i`-th entry of a walk
   * from idle rows asks, through its rows, for all `i + 1` entries walked so far, while its
   * `n` argument counts only those since the previous split.
   */
  lemma {:induction false} SplitDrawRowsCountEveryWalkedEntry(w0: Walk, es: seq<Entry>, i: nat)
    requires WalkInv(w0) && EntriesFit(es, |w0.rows|) && RowsIdle(w0.rows) && i < |es|
    requires WalkAll(w0, es[..i]).ring.full
    ensures |WalkAll(w0, es[..i + 1]).trace| > |WalkAll(w0, es[..i]).trace|
    ensures var p := WalkAll(w0, es[..i]);
      var d := WalkAll(w0, es[..i + 1]).trace[|p.trace|];
      d.MultiDraw? && RowInstances(d.rows) == i + 1 && d.instanceCount == p.running + 1
  {
    assert EntriesFit(es[..i], |w0.rows|);
    var p := WalkAll(w0, es[..i]);
    WalkAllStep(w0, es, i);
    IdleRowsHaveNoInstances(w0.rows);
    WalkDrawn(w0, es[..i]);
    SplitDrawRows(p, es[i]);
  }

  /** The draw a split appends is over the rows after counting the entry, with `running + 1` instances. */
  lemma {:induction false} SplitDrawRows(w: Walk, e: Entry)
    requires WalkInv(w) && e.geometry.id < |w.rows| && |e.material.textures| <= TextureSlots && w.ring.full
    ensures var r := Step(w, e);
      |r.trace| > |w.trace| && r.trace[|w.trace|].MultiDraw?
      && RowInstances(r.trace[|w.trace|].rows) == RowInstances(w.rows) + 1
      && r.trace[|w.trace|].instanceCount == w.running + 1
  {
    StepTrace(w, e);
    StepDrawn(w, e);
  }

  /** Binding one texture into a one-unit ring: always unit 0, always loaded, and the ring is full afterwards. */
  lemma {:induction false} UnitRingBind(b: Binding, texture: nat)
    requires ValidRing(b.ring) && |b.ring.buffer| == 1 && |b.slots| == TextureSlots
    ensures Bind(b, [texture]) == Binding(b.slots[0 := Some(0)], Ring([texture], 0, 0, true), b.trace + [LoadTexture(texture, 0)])
  {
    assert [texture][..0] == [];
    var l := Resolve(b.ring, texture);
    assert Scan(b.ring.buffer, b.ring.tail, b.ring.head, texture) == None;
    assert l.ring.buffer == [texture];
  }

  /** One step over a one-unit ring for an entry with one texture. */
  lemma {:induction false} UnitRingStep(w: Walk, e: Entry, texture: nat)
    requires WalkInv(w) && |w.ring.buffer| == 1 && e.geometry.id < |w.rows| && e.material.textures == [texture]
    ensures var c := CountPhase(w, e);
      Step(w, e) == c.(units := w.units + [w.slots[0 := Some(0)]], slots := w.slots[0 := Some(0)],
                       ring := Ring([texture], 0, 0, true), trace := c.trace + [LoadTexture(texture, 0)])
  {
    var c := CountPhase(w, e);
    UnitRingBind(Binding(c.slots, c.ring, c.trace), texture);
  }

  /** The row of a geometry drawn once, from instance `first`. */
  function RowOnce(g: Geometry, first: nat): DrawCommand
  {
    DrawCommand(g.indexCount, 1, g.firstIndex, g.firstVertex, first)
  }

  /** An untinted material with one texture. */
  function OneTextureMaterial(shader: nat, texture: nat): CoreMaterial
  {
    CoreMaterial(shader, [texture], White, 0)
  }

  /** The slots after binding one texture into a one-unit ring. */
  const UnitZero: Slots := [Some(0), None, None, None, None]

  /**
   * Example: a one-unit ring, one shader, geometries G1, G2, G3 with a texture each. The ring
   * is full from G1 on, so G2 splits off a draw of two instances and G3 one of a single
   * instance; that second draw again asks for rows G1 and G2 and uploads only G1's model.
   */
  lemma {:induction false} SplitRedrawExample(g1: Geometry, g2: Geometry, g3: Geometry, t1: nat, t2: nat, t3: nat,
                                              shader: nat, m1: Transform, m2: Transform, m3: Transform)
    requires g1.id == 0 && g2.id == 1 && g3.id == 2
    ensures var queue := [Entry(g1, OneTextureMaterial(shader, t1), m1), Entry(g2, OneTextureMaterial(shader, t2), m2),
                          Entry(g3, OneTextureMaterial(shader, t3), m3)];
      var t := FlushBatchSpec([IdleCommand, IdleCommand, IdleCommand], queue, Cleared(1), []).trace;
      var a, b := RowOnce(g1, 0), RowOnce(g2, 1);
      t == [LoadTexture(t1, 0),
            MultiDraw(shader, 2, [a, b, IdleCommand], [m1, m2], [0xFFFF_FFFF, 0xFFFF_FFFF], [UnitZero]),
            LoadTexture(t2, 0),
            MultiDraw(shader, 1, [a, b, RowOnce(g3, 0)], [m1], [0xFFFF_FFFF], [UnitZero]),
            LoadTexture(t3, 0)]
  {
    var e1, e2, e3 := Entry(g1, OneTextureMaterial(shader, t1), m1), Entry(g2, OneTextureMaterial(shader, t2), m2),
                      Entry(g3, OneTextureMaterial(shader, t3), m3);
    ExampleWalk(e1, e2, e3);
    var t := ExampleFlushIsWalk(e1, e2, e3);
  }

  /** In `SplitRedrawExample` the `n` arguments sum to the 3 queued entries, but the rows ask for 5 instances. */
  lemma {:induction false} SplitRedrawCounts(g1: Geometry, g2: Geometry, g3: Geometry, t1: nat, t2: nat, t3: nat,
                                             shader: nat, m1: Transform, m2: Transform, m3: Transform)
    requires g1.id == 0 && g2.id == 1 && g3.id == 2
    ensures var queue := [Entry(g1, OneTextureMaterial(shader, t1), m1), Entry(g2, OneTextureMaterial(shader, t2), m2),
                          Entry(g3, OneTextureMaterial(shader, t3), m3)];
      var t := FlushBatchSpec([IdleCommand, IdleCommand, IdleCommand], queue, Cleared(1), []).trace;
      Drawn(t) == |queue| && RowsDrawn(t) == 5
  {
    var queue := [Entry(g1, OneTextureMaterial(shader, t1), m1), Entry(g2, OneTextureMaterial(shader, t2), m2),
                  Entry(g3, OneTextureMaterial(shader, t3), m3)];
    var t := FlushBatchSpec([IdleCommand, IdleCommand, IdleCommand], queue, Cleared(1), []).trace;
    SplitRedrawExample(g1, g2, g3, t1, t2, t3, shader, m1, m2, m3);
    var a, b, c := RowOnce(g1, 0), RowOnce(g2, 1), RowOnce(g3, 0);
    RowInstancesOfThree(a, b, IdleCommand);
    RowInstancesOfThree(a, b, c);
    ExampleSums(t, t[1], t[3]);
  }

  /** The queue of `SplitRedrawExample` is walked in submission order and leaves nothing for the final draw. */
  lemma {:induction false} ExampleFlushIsWalk(e1: Entry, e2: Entry, e3: Entry) returns (t: seq<GpuEvent>)
    requires e1.geometry.id == 0 && e2.geometry.id == 1 && e3.geometry.id == 2
    requires e1.material.shader == e2.material.shader == e3.material.shader
    requires |e1.material.textures| == 1 && |e2.material.textures| == 1 && |e3.material.textures| == 1
    requires EntriesFit([e1, e2, e3], 3)
    requires WalkAll(StartWalk([IdleCommand, IdleCommand, IdleCommand], Cleared(1), []), [e1, e2, e3]).running == 0
    ensures t == FlushBatchSpec([IdleCommand, IdleCommand, IdleCommand], [e1, e2, e3], Cleared(1), []).trace
    ensures t == WalkAll(StartWalk([IdleCommand, IdleCommand, IdleCommand], Cleared(1), []), [e1, e2, e3]).trace
  {
    var rows := [IdleCommand, IdleCommand, IdleCommand];
    ExampleQueueSorted(e1, e2, e3);
    FlushBatchSpecUnfolds(rows, [e1, e2, e3], Cleared(1), []);
    t := FlushBatchSpec(rows, [e1, e2, e3], Cleared(1), []).trace;
  }

  /** The walk of `SplitRedrawExample`, entry by entry. */
  lemma {:induction false} ExampleWalk(e1: Entry, e2: Entry, e3: Entry)
    requires e1.geometry.id == 0 && e2.geometry.id == 1 && e3.geometry.id == 2
    requires |e1.material.textures| == 1 && e1.material == OneTextureMaterial(e1.material.shader, e1.material.textures[0])
    requires |e2.material.textures| == 1 && e2.material == OneTextureMaterial(e1.material.shader, e2.material.textures[0])
    requires |e3.material.textures| == 1 && e3.material == OneTextureMaterial(e1.material.shader, e3.material.textures[0])
    ensures EntriesFit([e1, e2, e3], 3)
    ensures var a, b := RowOnce(e1.geometry, 0), RowOnce(e2.geometry, 1);
      var w := WalkAll(StartWalk([IdleCommand, IdleCommand, IdleCommand], Cleared(1), []), [e1, e2, e3]);
      w.running == 0
      && w.trace == [LoadTexture(e1.material.textures[0], 0),
                     MultiDraw(e1.material.shader, 2, [a, b, IdleCommand], [e1.model, e2.model], [0xFFFF_FFFF, 0xFFFF_FFFF], [UnitZero]),
                     LoadTexture(e2.material.textures[0], 0),
                     MultiDraw(e1.material.shader, 1, [a, b, RowOnce(e3.geometry, 0)], [e1.model], [0xFFFF_FFFF], [UnitZero]),
                     LoadTexture(e3.material.textures[0], 0)]
  {
    var w0 := StartWalk([IdleCommand, IdleCommand, IdleCommand], Cleared(1), []);
    WalkAllThree(w0, e1, e2, e3);
    var w1 := ExampleFirstStep(w0, e1);
    var w2 := ExampleSecondStep(w1, e1, e2);
    ExampleThirdStep(w2, e1, e2, e3);
  }

  /** A walk over three entries is three steps. */
  lemma {:induction false} WalkAllThree(w0: Walk, e1: Entry, e2: Entry, e3: Entry)
    requires WalkInv(w0)
    requires e1.geometry.id < |w0.rows| && |e1.material.textures| <= TextureSlots
    requires e2.geometry.id < |w0.rows| && |e2.material.textures| <= TextureSlots
    requires e3.geometry.id < |w0.rows| && |e3.material.textures| <= TextureSlots
    ensures EntriesFit([e1, e2, e3], |w0.rows|)
    ensures WalkAll(w0, [e1, e2, e3]) == Step(Step(Step(w0, e1), e2), e3)
  {
    var q := [e1, e2, e3];
    assert EntriesFit(q, |w0.rows|) by {
      forall k | 0 <= k < 3
        ensures q[k].geometry.id < |w0.rows| && |q[k].material.textures| <= TextureSlots
      {
      }
    }
    assert q[..0] == [] && q[..1] == [e1] && q[..2] == [e1, e2] && q[..3] == q;
    WalkAllStep(w0, q, 0);
    WalkAllStep(w0, q, 1);
    WalkAllStep(w0, q, 2);
  }

  /** G1 meets a cleared one-unit ring: counted as instance 0, its texture takes unit 0 and fills the ring. */
  lemma {:induction false} ExampleFirstStep(w0: Walk, e1: Entry) returns (w1: Walk)
    requires w0 == StartWalk([IdleCommand, IdleCommand, IdleCommand], Cleared(1), [])
    requires e1.geometry.id == 0 && |e1.material.textures| == 1
    requires e1.material == OneTextureMaterial(e1.material.shader, e1.material.textures[0])
    ensures w1 == Step(w0, e1)
    ensures w1 == Walk([RowOnce(e1.geometry, 0), IdleCommand, IdleCommand], [e1.model], [0xFFFF_FFFF], [UnitZero], UnitZero, 1,
                       Ring([e1.material.textures[0]], 0, 0, true), [LoadTexture(e1.material.textures[0], 0)])
  {
    UnitRingStep(w0, e1, e1.material.textures[0]);
    var c := CountPhase(w0, e1);
    assert c.rows == [RowOnce(e1.geometry, 0), IdleCommand, IdleCommand];
    assert InstanceTint(e1.material) == 0xFFFF_FFFF;
    assert c.models == [e1.model] && c.tints == [0xFFFF_FFFF] && c.running == 1 && c.trace == [];
    assert NoSlots[0 := Some(0)] == UnitZero;
    w1 := Step(w0, e1);
  }

  /** G2 meets the full ring: counted as instance 1, then a draw of two instances is split off. */
  lemma {:induction false} ExampleSecondStep(w1: Walk, e1: Entry, e2: Entry) returns (w2: Walk)
    requires |e1.material.textures| == 1 && |e2.material.textures| == 1
    requires w1 == Walk([RowOnce(e1.geometry, 0), IdleCommand, IdleCommand], [e1.model], [0xFFFF_FFFF], [UnitZero], UnitZero, 1,
                        Ring([e1.material.textures[0]], 0, 0, true), [LoadTexture(e1.material.textures[0], 0)])
    requires e1.geometry.id == 0 && e2.geometry.id == 1
    requires e2.material == OneTextureMaterial(e1.material.shader, e2.material.textures[0])
    ensures w2 == Step(w1, e2)
    ensures var a, b := RowOnce(e1.geometry, 0), RowOnce(e2.geometry, 1);
      w2 == Walk([a, b, IdleCommand], [e1.model, e2.model], [0xFFFF_FFFF, 0xFFFF_FFFF], [UnitZero, UnitZero], UnitZero, 0,
                 Ring([e2.material.textures[0]], 0, 0, true),
                 [LoadTexture(e1.material.textures[0], 0),
                  MultiDraw(e1.material.shader, 2, [a, b, IdleCommand], [e1.model, e2.model], [0xFFFF_FFFF, 0xFFFF_FFFF], [UnitZero]),
                  LoadTexture(e2.material.textures[0], 0)])
  {
    UnitRingStep(w1, e2, e2.material.textures[0]);
    var c := CountPhase(w1, e2);
    var a, b := RowOnce(e1.geometry, 0), RowOnce(e2.geometry, 1);
    assert c.rows == [a, b, IdleCommand];
    assert InstanceTint(e2.material) == 0xFFFF_FFFF;
    assert c.models == [e1.model, e2.model] && c.tints == [0xFFFF_FFFF, 0xFFFF_FFFF] && c.running == 0;
    assert Take(c.models, 2) == c.models && Take(c.tints, 2) == c.tints && Take(w1.units, 2) == [UnitZero];
    assert UnitZero[0 := Some(0)] == UnitZero;
    w2 := Step(w1, e2);
  }

  /** G3 meets the full ring again: counted as instance 0 of row G3, then a draw of one instance over all three rows. */
  lemma {:induction false} ExampleThirdStep(w2: Walk, e1: Entry, e2: Entry, e3: Entry)
    requires |e1.material.textures| == 1 && |e2.material.textures| == 1 && |e3.material.textures| == 1
    requires var a, b := RowOnce(e1.geometry, 0), RowOnce(e2.geometry, 1);
      w2 == Walk([a, b, IdleCommand], [e1.model, e2.model], [0xFFFF_FFFF, 0xFFFF_FFFF], [UnitZero, UnitZero], UnitZero, 0,
                 Ring([e2.material.textures[0]], 0, 0, true),
                 [LoadTexture(e1.material.textures[0], 0),
                  MultiDraw(e1.material.shader, 2, [a, b, IdleCommand], [e1.model, e2.model], [0xFFFF_FFFF, 0xFFFF_FFFF], [UnitZero]),
                  LoadTexture(e2.material.textures[0], 0)])
    requires e3.geometry.id == 2 && e3.material == OneTextureMaterial(e1.material.shader, e3.material.textures[0])
    ensures var a, b := RowOnce(e1.geometry, 0), RowOnce(e2.geometry, 1);
      var r := Step(w2, e3);
      r.running == 0
      && r.trace == w2.trace + [MultiDraw(e1.material.shader, 1, [a, b, RowOnce(e3.geometry, 0)], [e1.model], [0xFFFF_FFFF], [UnitZero]),
                                LoadTexture(e3.material.textures[0], 0)]
  {
    UnitRingStep(w2, e3, e3.material.textures[0]);
    var c := CountPhase(w2, e3);
    assert c.rows == [RowOnce(e1.geometry, 0), RowOnce(e2.geometry, 1), RowOnce(e3.geometry, 0)];
    assert InstanceTint(e3.material) == 0xFFFF_FFFF;
    assert c.running == 0;
    assert Take(c.models, 1) == [e1.model] && Take(c.tints, 1) == [0xFFFF_FFFF] && Take(w2.units, 1) == [UnitZero];
  }

  /** The instances three rows ask for. */
  lemma {:induction false} RowInstancesOfThree(a: DrawCommand, b: DrawCommand, c: DrawCommand)
    ensures RowInstances([a, b, c]) == a.instanceCount + b.instanceCount + c.instanceCount
  {
    assert [a, b, c][..2] == [a, b] && [a, b][..1] == [a] && [a][..0] == [];
    assert RowInstances([a]) == a.instanceCount;
    assert RowInstances([a, b]) == a.instanceCount + b.instanceCount;
  }

  /** The queue of `SplitRedrawExample` is already in shader-then-geometry order. */
  lemma {:induction false} ExampleQueueSorted(e1: Entry, e2: Entry, e3: Entry)
    requires e1.material.shader == e2.material.shader == e3.material.shader
    requires e1.geometry.id == 0 && e2.geometry.id == 1 && e3.geometry.id == 2
    ensures SortBy([e1, e2, e3], KeyOf) == [e1, e2, e3]
  {
    assert [e1, e2, e3][1..] == [e2, e3] && [e2, e3][1..] == [e3] && [e3][1..] == [];
    assert SortBy([e3], KeyOf) == [e3];
    assert SortBy([e2, e3], KeyOf) == [e2, e3];
  }

  /** The sums over the trace of `SplitRedrawExample`. */
  lemma {:induction false} ExampleSums(t: seq<GpuEvent>, d1: GpuEvent, d2: GpuEvent)
    requires |t| == 5 && t[1] == d1 && t[3] == d2 && t[0].LoadTexture? && t[2].LoadTexture? && t[4].LoadTexture?
    requires d1.MultiDraw? && d1.instanceCount == 2 && RowInstances(d1.rows) == 2
    requires d2.MultiDraw? && d2.instanceCount == 1 && RowInstances(d2.rows) == 3
    ensures Drawn(t) == 3 && RowsDrawn(t) == 5
  {
    var p0, p1, p2, p3, p4 := t[..0], t[..1], t[..2], t[..3], t[..4];
    assert p1[..0] == p0 && p2[..1] == p1 && p3[..2] == p2 && p4[..3] == p3 && t[..4] == p4;
    assert SumOf(p0, EventInstances) == 0 && SumOf(p0, EventRowInstances) == 0;
    assert p1 == [t[0]] && EventInstances(t[0]) == 0 && EventRowInstances(t[0]) == 0;
    assert Drawn(p1) == 0 && RowsDrawn(p1) == 0;
    assert Drawn(p2) == 2 && RowsDrawn(p2) == 2;
    assert Drawn(p3) == 2 && RowsDrawn(p3) == 2;
    assert Drawn(p4) == 3 && RowsDrawn(p4) == 5;
  }

  // ---- The walk with the split repaired ----

  /** The repaired split: draw the `running` instances counted so far, zero the rows, empty the streams. */
  function SplitFixed(w: Walk, shader: nat): (r: Walk)
    ensures RowsIdle(r.rows) && |r.rows| == |w.rows| && r.running == 0
    ensures r.models == [] && r.tints == [] && r.units == [] && r.ring == w.ring && r.slots == w.slots
    ensures r.trace == w.trace + [MultiDraw(shader, w.running, w.rows, Take(w.models, w.running), Take(w.tints, w.running), Take(w.units, w.running))]
  {
    w.(rows := ZeroCounts(w.rows), models := [], tints := [], units := [], running := 0,
       trace := w.trace + [Draw(shader, w.running, w.rows, w.models, w.tints, w.units)])
  }

  /** The split check of the repaired walk: a full ring with instances counted draws them first. */
  function SplitIfFull(w: Walk, shader: nat): Walk
  {
    if w.ring.full && w.running > 0 then SplitFixed(w, shader) else w
  }

  /**
   * The rest of a repaired step: count the entry in its row, push its model and tint, bind its
   * textures and push the five slots.
   */
  function Enter(s: Walk, e: Entry): (r: Walk)
    requires WalkInv(s) && e.geometry.id < |s.rows| && |e.material.textures| <= TextureSlots
    ensures WalkInv(r) && |r.rows| == |s.rows| && |r.ring.buffer| == |s.ring.buffer|
  {
    var c := s.(rows := CountInstance(s.rows, e.geometry, s.running), models := s.models + [e.model],
                tints := s.tints + [InstanceTint(e.material)], running := s.running + 1);
    var b := Bind(Binding(c.slots, c.ring, c.trace), e.material.textures);
    c.(units := c.units + [b.slots], slots := b.slots, ring := b.ring, trace := b.trace)
  }

  /**
   * One entry of the walk with the split repaired: when the ring is full, the instances
   * counted so far are drawn first (under the entry's shader, as in the source), the rows are
   * zeroed and the streams emptied; then the entry is counted, pushed and its textures bound.
   */
  function StepFixed(w: Walk, e: Entry): (r: Walk)
    requires WalkInv(w) && e.geometry.id < |w.rows| && |e.material.textures| <= TextureSlots
    ensures WalkInv(r) && |r.rows| == |w.rows| && |r.ring.buffer| == |w.ring.buffer|
  {
    Enter(SplitIfFull(w, e.material.shader), e)
  }

  function WalkFixed(w: Walk, es: seq<Entry>): (r: Walk)
    requires WalkInv(w) && EntriesFit(es, |w.rows|)
    ensures WalkInv(r) && |r.rows| == |w.rows| && |r.ring.buffer| == |w.ring.buffer|
    decreases |es|
  {
    if es == [] then w
    else StepFixed(WalkFixed(w, es[..|es| - 1]), es[|es| - 1])
  }

  /** `flushBatch` with the split repaired: sort, walk with `StepFixed`, draw what is left, zero the rows. */
  function FlushFixed(rows: seq<DrawCommand>, queue: seq<Entry>, ring: Ring, trace: seq<GpuEvent>): (r: FlushResult)
    requires ValidRing(ring) && EntriesFit(queue, |rows|)
    ensures ValidRing(r.ring) && |r.ring.buffer| == |ring.buffer|
    ensures |r.rows| == |rows| && RowsIdle(r.rows)
  {
    var sorted := SortBy(queue, KeyOf);
    SortedEntriesFit(queue, sorted, |rows|);
    Finish(WalkFixed(StartWalk(rows, ring, trace), sorted), sorted)
  }

  /** Without a full ring the repaired step is the step of the source. */
  lemma {:induction false} StepFixedWithoutSplit(w: Walk, e: Entry)
    requires WalkInv(w) && e.geometry.id < |w.rows| && |e.material.textures| <= TextureSlots && !w.ring.full
    ensures StepFixed(w, e) == Step(w, e)
  {
  }

  /** The repair changes only flushes that split: without a split the repaired flush is the flush of the source. */
  lemma {:induction false} FlushFixedWithoutSplit(rows: seq<DrawCommand>, queue: seq<Entry>, ring: Ring, trace: seq<GpuEvent>)
    requires ValidRing(ring) && EntriesFit(queue, |rows|) && EntriesFit(SortBy(queue, KeyOf), |rows|)
    requires NoSplit(StartWalk(rows, ring, trace), SortBy(queue, KeyOf))
    ensures FlushFixed(rows, queue, ring, trace) == FlushBatchSpec(rows, queue, ring, trace)
  {
    FlushBatchSpecUnfolds(rows, queue, ring, trace);
    WalkFixedWithoutSplit(StartWalk(rows, ring, trace), SortBy(queue, KeyOf));
  }

  /** `FlushFixedWithoutSplit` for the walk alone. */
  lemma {:induction false} WalkFixedWithoutSplit(w0: Walk, es: seq<Entry>)
    requires WalkInv(w0) && EntriesFit(es, |w0.rows|) && NoSplit(w0, es)
    ensures WalkFixed(w0, es) == WalkAll(w0, es)
    decreases |es|
  {
    if es != [] {
      var n := |es| - 1;
      NoSplitPrefix(w0, es);
      WalkFixedWithoutSplit(w0, es[..n]);
      StepFixedWithoutSplit(WalkAll(w0, es[..n]), es[n]);
    }
  }

  /** A multi-draw whose rows ask for exactly its `n` instances and whose streams hold exactly `n` elements each. */
  ghost predicate ExactDraw(ev: GpuEvent)
  {
    ev.MultiDraw? ==>
      RowInstances(ev.rows) == ev.instanceCount && |ev.models| == ev.instanceCount
      && |ev.tints| == ev.instanceCount && |ev.units| == ev.instanceCount
  }

  /** The rows and every stream hold exactly the instances counted since the last draw. */
  ghost predicate Aligned(w: Walk)
  {
    RowInstances(w.rows) == w.running && |w.models| == w.running && |w.tints| == w.running && |w.units| == w.running
  }

  /** `t` extends `t0`, and every event it appends is an exact draw or no draw. */
  ghost predicate ExactAfter(t0: seq<GpuEvent>, t: seq<GpuEvent>)
  {
    |t| >= |t0| && t[..|t0|] == t0 && forall k :: |t0| <= k < |t| ==> ExactDraw(t[k])
  }

  lemma {:induction false} ExactAfterTrans(t0: seq<GpuEvent>, t1: seq<GpuEvent>, t2: seq<GpuEvent>)
    requires ExactAfter(t0, t1) && ExactAfter(t1, t2)
    ensures ExactAfter(t0, t2)
  {
    assert t2[..|t0|] == t2[..|t1|][..|t0|];
    forall k | |t0| <= k < |t2|
      ensures ExactDraw(t2[k])
    {
      if k < |t1| {
        assert t2[k] == t1[k];
      }
    }
  }

  /** The repaired split check keeps the walk aligned, appends at most one exact draw, and moves the counter into it. */
  lemma {:induction false} SplitIfFullExact(w: Walk, shader: nat)
    requires Aligned(w)
    ensures var s := SplitIfFull(w, shader);
      Aligned(s) && ExactAfter(w.trace, s.trace)
      && Drawn(s.trace) + s.running == Drawn(w.trace) + w.running
      && RowsDrawn(s.trace) + s.running == RowsDrawn(w.trace) + w.running
  {
    var s := SplitIfFull(w, shader);
    if w.ring.full && w.running > 0 {
      IdleRowsHaveNoInstances(s.rows);
      assert s.trace[..|s.trace| - 1] == w.trace;
      assert ExactDraw(s.trace[|w.trace|]);
    }
  }

  /** Entering one entry keeps the walk aligned, adds one instance to the counter and only texture loads to the trace. */
  lemma {:induction false} EnterAligned(s: Walk, e: Entry)
    requires WalkInv(s) && e.geometry.id < |s.rows| && |e.material.textures| <= TextureSlots && Aligned(s)
    ensures var r := Enter(s, e);
      Aligned(r) && r.running == s.running + 1 && ExactAfter(s.trace, r.trace)
      && Drawn(r.trace) == Drawn(s.trace) && RowsDrawn(r.trace) == RowsDrawn(s.trace)
  {
    var c := s.(rows := CountInstance(s.rows, e.geometry, s.running), models := s.models + [e.model],
                tints := s.tints + [InstanceTint(e.material)], running := s.running + 1);
    CountInstanceAddsOne(s.rows, e.geometry, s.running);
    BindLoads(Binding(c.slots, c.ring, c.trace), e.material.textures);
    BindDrawsNothing(Binding(c.slots, c.ring, c.trace), e.material.textures);
  }

  /**
   * One repaired step keeps the rows and streams aligned with the counter, only appends to
   * the trace, appends only exact draws, and moves one instance from the entry into the
   * counter, whence into a draw.
   */
  lemma {:induction false} StepFixedExact(w: Walk, e: Entry)
    requires WalkInv(w) && e.geometry.id < |w.rows| && |e.material.textures| <= TextureSlots && Aligned(w)
    ensures var r := StepFixed(w, e);
      Aligned(r) && ExactAfter(w.trace, r.trace)
      && Drawn(r.trace) + r.running == Drawn(w.trace) + w.running + 1
      && RowsDrawn(r.trace) + r.running == RowsDrawn(w.trace) + w.running + 1
  {
    var s := SplitIfFull(w, e.material.shader);
    SplitIfFullExact(w, e.material.shader);
    EnterAligned(s, e);
    ExactAfterTrans(w.trace, s.trace, Enter(s, e).trace);
  }

  /** `StepFixedExact` over a whole walk. */
  lemma {:induction false} WalkFixedExact(w0: Walk, es: seq<Entry>)
    requires WalkInv(w0) && EntriesFit(es, |w0.rows|) && Aligned(w0)
    ensures var w := WalkFixed(w0, es);
      Aligned(w) && ExactAfter(w0.trace, w.trace)
      && Drawn(w.trace) + w.running == Drawn(w0.trace) + w0.running + |es|
      && RowsDrawn(w.trace) + w.running == RowsDrawn(w0.trace) + w0.running + |es|
    decreases |es|
  {
    if es == [] {
      assert w0.trace[..|w0.trace|] == w0.trace;
    } else {
      var n := |es| - 1;
      assert EntriesFit(es[..n], |w0.rows|);
      WalkFixedExact(w0, es[..n]);
      var p := WalkFixed(w0, es[..n]);
      StepFixedExact(p, es[n]);
      ExactAfterTrans(w0.trace, p.trace, StepFixed(p, es[n]).trace);
    }
  }

  /**
   * With the split repaired, a flush from idle rows draws every queued entry exactly once:
   * each emitted multi-draw's rows ask for exactly its `n` instances and its streams hold
   * exactly `n` elements, and both the `n` arguments and the rows' instances sum to the
   * length of the queue.
   */
  lemma {:induction false} FlushFixedDrawsEachEntryOnce(rows: seq<DrawCommand>, queue: seq<Entry>, ring: Ring, trace: seq<GpuEvent>)
    requires ValidRing(ring) && EntriesFit(queue, |rows|) && RowsIdle(rows)
    ensures var t := FlushFixed(rows, queue, ring, trace).trace;
      |t| >= |trace| && t[..|trace|] == trace
      && (forall k :: |trace| <= k < |t| ==> ExactDraw(t[k]))
      && Drawn(t[|trace|..]) == |queue| && RowsDrawn(t[|trace|..]) == |queue|
  {
    var sorted := SortBy(queue, KeyOf);
    SortedEntriesFit(queue, sorted, |rows|);
    IdleRowsHaveNoInstances(rows);
    assert FlushFixed(rows, queue, ring, trace) == Finish(WalkFixed(StartWalk(rows, ring, trace), sorted), sorted);
    WalkFixedFinishExact(StartWalk(rows, ring, trace), sorted);
  }

  /** `FlushFixedDrawsEachEntryOnce` for any aligned walk start with a zero counter. */
  lemma {:induction false} WalkFixedFinishExact(w0: Walk, sorted: seq<Entry>)
    requires WalkInv(w0) && EntriesFit(sorted, |w0.rows|) && Aligned(w0) && w0.running == 0
    ensures var t := Finish(WalkFixed(w0, sorted), sorted).trace;
      ExactAfter(w0.trace, t) && Drawn(t[|w0.trace|..]) == |sorted| && RowsDrawn(t[|w0.trace|..]) == |sorted|
  {
    WalkFixedExact(w0, sorted);
    var w := WalkFixed(w0, sorted);
    var t := Finish(w, sorted).trace;
    FinishDrawn(w, sorted);
    ExactAfterTrans(w0.trace, w.trace, t);
    SumOfSplit(t, |w0.trace|, EventInstances);
    SumOfSplit(t, |w0.trace|, EventRowInstances);
  }

  /** The end of a flush adds the counter to the drawn instances, and an exact draw when the walk is aligned. */
  lemma {:induction false} FinishDrawn(w: Walk, sorted: seq<Entry>)
    requires w.running > 0 ==> |sorted| > 0
    ensures var t := Finish(w, sorted).trace;
      Drawn(t) == Drawn(w.trace) + w.running
      && RowsDrawn(t) == RowsDrawn(w.trace) + (if w.running > 0 then RowInstances(w.rows) else 0)
      && (Aligned(w) ==> ExactAfter(w.trace, t))
  {
    var t := Finish(w, sorted).trace;
    if w.running > 0 {
      assert t[..|t| - 1] == w.trace;
    } else {
      assert t[..|w.trace|] == w.trace;
    }
  }

  /**
   * Example: three submissions G1, G1, G2 under one shader fill row G1 with two instances
   * from instance 0 and row G2 with one instance from instance 2.
   */
  lemma {:induction false} ThreeEntriesExample(g1: Geometry, g2: Geometry)
    requires g1.id == 0 && g2.id == 1 && g1.indexCount > 0 && g2.indexCount > 0
    ensures CountAll([IdleCommand, IdleCommand], [g1, g1, g2])
      == [DrawCommand(g1.indexCount, 2, g1.firstIndex, g1.firstVertex, 0), DrawCommand(g2.indexCount, 1, g2.firstIndex, g2.firstVertex, 2)]
  {
    var rows := [IdleCommand, IdleCommand];
    assert [g1, g1, g2][..2] == [g1, g1];
    assert [g1, g1][..1] == [g1];
    assert [g1][..0] == [];
    assert CountAll(rows, []) == rows;
    var c1 := CountAll(rows, [g1]);
    assert c1 == CountInstance(rows, g1, 0);
    assert c1 == [DrawCommand(g1.indexCount, 1, g1.firstIndex, g1.firstVertex, 0), IdleCommand];
    var c2 := CountAll(rows, [g1, g1]);
    assert c2 == CountInstance(c1, g1, 1);
    assert c2 == [DrawCommand(g1.indexCount, 2, g1.firstIndex, g1.firstVertex, 0), IdleCommand];
    assert CountAll(rows, [g1, g1, g2]) == CountInstance(c2, g2, 2);
  }

  /** The passes `end(enabledEffects)` applies, in order, from position `k` on. */
  function EffectsFrom(enabled: seq<bool>, k: nat): (r: seq<Effect>)
    requires 6 <= |enabled| && k <= 6
    ensures |r| <= 6 - k
    decreases 6 - k
  {
    if k == 6 then []
    else (if enabled[k] then [EffectAt(k)] else []) + EffectsFrom(enabled, k + 1)
  }

  function EffectAt(k: nat): Effect
    requires k < 6
  {
    if k == 0 then DepthOfField
    else if k == 1 then Volumetric
    else if k == 2 then Bloom
    else if k == 3 then ToneMapping
    else if k == 4 then Vignette
    else RetroGrade
  }

  function EffectIndex(e: Effect): (k: nat)
    ensures k < 6
  {
    match e
    case DepthOfField => 0
    case Volumetric => 1
    case Bloom => 2
    case ToneMapping => 3
    case Vignette => 4
    case RetroGrade => 5
  }

  /** Positions and passes are in one-to-one correspondence. */
  lemma {:induction false} EffectPositions(e: Effect, k: nat)
    requires k < 6
    ensures EffectAt(EffectIndex(e)) == e && EffectIndex(EffectAt(k)) == k
  {
  }

  /** A pass runs exactly when its flag is set (and it comes at or after position `k`). */
  lemma {:induction false} EffectsRunWhenEnabled(enabled: seq<bool>, k: nat)
    requires 6 <= |enabled| && k <= 6
    ensures forall e :: e in EffectsFrom(enabled, k) <==> k <= EffectIndex(e) && enabled[EffectIndex(e)]
    decreases 6 - k
  {
    if k < 6 {
      EffectsRunWhenEnabled(enabled, k + 1);
      var rest := EffectsFrom(enabled, k + 1);
      var r := EffectsFrom(enabled, k);
      assert r == (if enabled[k] then [EffectAt(k)] else []) + rest;
      forall e ensures e in r <==> k <= EffectIndex(e) && enabled[EffectIndex(e)] {
        EffectPositions(e, k);
      }
    }
  }

  /** Every pass listed from position `k` on sits at position `k` or later. */
  lemma {:induction false} EffectsFromAbove(enabled: seq<bool>, k: nat)
    requires 6 <= |enabled| && k <= 6
    ensures forall i :: 0 <= i < |EffectsFrom(enabled, k)| ==> k <= EffectIndex(EffectsFrom(enabled, k)[i])
    decreases 6 - k
  {
    if k < 6 {
      EffectsFromAbove(enabled, k + 1);
      var rest := EffectsFrom(enabled, k + 1);
      var r := EffectsFrom(enabled, k);
      if enabled[k] {
        assert r == [EffectAt(k)] + rest;
        EffectPositions(DepthOfField, k);
        assert forall i :: 1 <= i < |r| ==> r[i] == rest[i - 1];
      } else {
        assert r == rest;
      }
    }
  }

  /** Passes listed in the fixed order: depth of field, volumetric, bloom, tone mapping, vignette, retro grade. */
  ghost predicate InFixedOrder(r: seq<Effect>)
  {
    forall i, j :: 0 <= i < j < |r| ==> EffectIndex(r[i]) < EffectIndex(r[j])
  }

  /** A pass placed before passes that all come later in the fixed order keeps the list in order. */
  lemma {:induction false} IncreasingCons(e: Effect, rest: seq<Effect>)
    requires InFixedOrder(rest)
    requires forall i :: 0 <= i < |rest| ==> EffectIndex(e) < EffectIndex(rest[i])
    ensures InFixedOrder([e] + rest)
  {
    var r := [e] + rest;
    forall i, j | 0 <= i < j < |r| ensures EffectIndex(r[i]) < EffectIndex(r[j]) {
      assert r[j] == rest[j - 1];
      if i > 0 {
        assert r[i] == rest[i - 1];
      }
    }
  }

  /** The passes run in the fixed order. */
  lemma {:induction false} EffectsInOrder(enabled: seq<bool>, k: nat)
    requires 6 <= |enabled| && k <= 6
    ensures InFixedOrder(EffectsFrom(enabled, k))
    decreases 6 - k
  {
    if k < 6 {
      var rest := EffectsFrom(enabled, k + 1);
      EffectsInOrder(enabled, k + 1);
      if enabled[k] {
        EffectPositions(DepthOfField, k);
        EffectsFromAbove(enabled, k + 1);
        IncreasingCons(EffectAt(k), rest);
        assert EffectsFrom(enabled, k) == [EffectAt(k)] + rest;
      } else {
        assert EffectsFrom(enabled, k) == rest;
      }
    }
  }

  // ---- The renderer ----

  class Renderer3D {
    const units: TextureUnitManager
    const vertexCapacity: nat
    const indexCapacity: nat
    const batchCapacity: nat
    var nextVertex: nat
    var nextIndex: nat
    var batchCommands: seq<DrawCommand>
    var batchQueue: seq<Entry>
    var modelInstanceData: seq<Transform>
    var tintInstanceData: seq<bv32>
    var unitInstanceData: seq<Slots>
    var frameCount: nat
    /** The geometries placed so far, in id order. */
    ghost var placed: seq<Geometry>
    ghost var trace: seq<GpuEvent>

    ghost function CurrentArena(): Arena
      reads this`nextVertex, this`nextIndex, this`batchCommands
    {
      Arena(vertexCapacity, indexCapacity, nextVertex, nextIndex, batchCommands)
    }

    /**
     * Between calls: the ring is valid, the arena invariant holds, every row is idle, the
     * streams are empty, the queue is within capacity and every queued entry fits.
     */
    ghost predicate Valid()
      reads this`nextVertex, this`nextIndex, this`batchCommands, this`placed, this`batchQueue
      reads this`modelInstanceData, this`tintInstanceData, this`unitInstanceData, units, units.buffer
    {
      units.Valid()
      && Placed(CurrentArena(), placed)
      && RowsIdle(batchCommands)
      && modelInstanceData == [] && tintInstanceData == [] && unitInstanceData == []
      && (batchCapacity > 0 ==> |batchQueue| <= batchCapacity)
      && EntriesFit(batchQueue, |batchCommands|)
    }

    ghost function Snapshot(slots: Slots, running: nat): Walk
      reads this, units, units.buffer
    {
      Walk(batchCommands, modelInstanceData, tintInstanceData, unitInstanceData, slots, running, units.State(), trace)
    }

    /** `init`: capacities stored, cursors at zero, no rows, an empty queue; the ring is shared. */
    constructor (vertexCapacity: nat, indexCapacity: nat, batchSize: nat, units: TextureUnitManager)
      requires units.Valid()
      ensures Valid() && this.units == units
      ensures this.vertexCapacity == vertexCapacity && this.indexCapacity == indexCapacity && batchCapacity == batchSize
      ensures nextVertex == 0 && nextIndex == 0 && batchCommands == [] && batchQueue == [] && placed == [] && trace == []
    {
      this.units := units;
      this.vertexCapacity := vertexCapacity;
      this.indexCapacity := indexCapacity;
      batchCapacity := batchSize;
      nextVertex, nextIndex := 0, 0;
      batchCommands, batchQueue := [], [];
      modelInstanceData, tintInstanceData, unitInstanceData := [], [], [];
      frameCount := 0;
      placed, trace := [], [];
      new;
      EmptyArenaPlaced(vertexCapacity, indexCapacity);
    }

    /**
     * `addGeometry`: follows the arena specification; on success the block is uploaded at the
     * cursors and joins the placed geometries, on rejection nothing changes.
     */
    method AddGeometry(vertexCount: nat, indexCount: nat) returns (geo: Option<Geometry>)
      requires Valid()
      modifies this`nextVertex, this`nextIndex, this`batchCommands, this`placed, this`trace
      ensures Valid()
      ensures (geo, CurrentArena()) == Batching.AddGeometry(old(CurrentArena()), vertexCount, indexCount)
      ensures geo.None? ==> trace == old(trace) && placed == old(placed)
      ensures geo.Some? ==>
        placed == old(placed) + [geo.value]
        && trace == old(trace) + [UploadGeometry(geo.value.firstVertex, vertexCount, geo.value.firstIndex, indexCount)]
      ensures batchQueue == old(batchQueue) && frameCount == old(frameCount)
    {
      ghost var after := Batching.AddGeometry(CurrentArena(), vertexCount, indexCount);
      AddGeometryKeepsPlaced(CurrentArena(), placed, vertexCount, indexCount);
      if vertexCount + nextVertex > vertexCapacity {
        return None;
      }
      if indexCount + nextIndex > indexCapacity {
        return None;
      }
      trace := trace + [UploadGeometry(nextVertex, vertexCount, nextIndex, indexCount)];
      var g := Geometry(|batchCommands|, vertexCount, indexCount, nextVertex, nextIndex);
      nextVertex := nextVertex + vertexCount;
      nextIndex := nextIndex + indexCount;
      RowsIdleGrow(batchCommands);
      batchCommands := batchCommands + [IdleCommand];
      placed := placed + [g];
      geo := Some(g);
      assert (geo, CurrentArena()) == after;
      EntriesFitMoreRows(batchQueue, |batchCommands| - 1, |batchCommands|);
    }

    /** `flushBatchCommands(shader, n)`: one multi-draw over every row with the first `n` instances of each stream. */
    method FlushBatchCommands(shader: nat, n: nat)
      modifies this`trace
      ensures trace == old(trace) + [Draw(shader, n, batchCommands, modelInstanceData, tintInstanceData, unitInstanceData)]
    {
      trace := trace + [Draw(shader, n, batchCommands, modelInstanceData, tintInstanceData, unitInstanceData)];
    }

    /** The texture loop of `submit` and `flushBatch`, proved to follow `Bind`. */
    method BindTextures(textures: seq<nat>, slots: Slots) returns (r: Slots)
      requires units.Valid() && |slots| == TextureSlots && |textures| <= TextureSlots
      modifies units, units.buffer, this`trace
      ensures units.Valid()
      ensures Binding(r, units.State(), trace) == Bind(Binding(slots, old(units.State()), old(trace)), textures)
    {
      r := slots;
      var i := 0;
      while i < |textures|
        invariant 0 <= i <= |textures| && units.Valid()
        invariant Binding(r, units.State(), trace) == Bind(Binding(slots, old(units.State()), old(trace)), textures[..i])
      {
        BindPrefix(Binding(slots, old(units.State()), old(trace)), textures, i);
        var hit, u := units.GetUnit(textures[i]);
        r := r[i := Some(u)];
        trace := trace + [LoadTexture(textures[i], u)];
        i := i + 1;
      }
      assert textures[..|textures|] == textures;
    }

    /** The counting half of one walk iteration: the row update and the model and tint pushes. */
    method CountEntry(e: Entry, running: nat)
      requires e.geometry.id < |batchCommands|
      modifies this`batchCommands, this`modelInstanceData, this`tintInstanceData
      ensures batchCommands == CountInstance(old(batchCommands), e.geometry, running)
      ensures modelInstanceData == old(modelInstanceData) + [e.model]
      ensures tintInstanceData == old(tintInstanceData) + [InstanceTint(e.material)]
    {
      var g := e.geometry;
      var row := batchCommands[g.id];
      if row.drawCount == 0 {
        row := row.(firstVertex := g.firstVertex, firstIndex := g.firstIndex, drawCount := g.indexCount, firstInstance := running);
      }
      batchCommands := batchCommands[g.id := row.(instanceCount := row.instanceCount + 1)];
      assert batchCommands == CountInstance(old(batchCommands), g, running);
      modelInstanceData := modelInstanceData + [e.model];
      var tint: bv32;
      if Materials.HasFlag(e.material.flags, Materials.FlagTint) {
        tint := Pack(e.material.tint);
      } else {
        tint := Pack(White);
        PackExtremes();
      }
      assert tint == InstanceTint(e.material);
      tintInstanceData := tintInstanceData + [tint];
    }

    /** The first half of one iteration of the `flushBatch` loop, proved to follow `CountPhase`. */
    method CountAndSplit(e: Entry, slots: Slots, running: nat) returns (running': nat)
      requires units.Valid() && |slots| == TextureSlots && e.geometry.id < |batchCommands|
      modifies this`batchCommands, this`modelInstanceData, this`tintInstanceData, this`trace
      ensures Snapshot(slots, running') == CountPhase(old(Snapshot(slots, running)), e)
    {
      CountEntry(e, running);
      running' := running + 1;
      if units.IsFull() {
        FlushBatchCommands(e.material.shader, running');
        running' := 0;
      }
    }

    /** One iteration of the `flushBatch` loop, proved to follow `Step`. */
    method WalkEntry(e: Entry, slots: Slots, running: nat) returns (slots': Slots, running': nat)
      requires units.Valid() && |slots| == TextureSlots
      requires e.geometry.id < |batchCommands| && |e.material.textures| <= TextureSlots
      modifies this`batchCommands, this`modelInstanceData, this`tintInstanceData, this`unitInstanceData, this`trace
      modifies units, units.buffer
      ensures units.Valid() && |slots'| == TextureSlots
      ensures Snapshot(slots', running') == Step(old(Snapshot(slots, running)), e)
    {
      ghost var w := Snapshot(slots, running);
      running' := CountAndSplit(e, slots, running);
      ghost var c := Snapshot(slots, running');
      slots' := BindTextures(e.material.textures, slots);
      unitInstanceData := unitInstanceData + [slots'];
      StepFromPhases(w, e, c, Binding(slots', units.State(), trace));
    }

    /** The walk loop of `flushBatch` over the (sorted) queue, proved to follow `WalkAll`. */
    method WalkQueue() returns (running: nat, slots: Slots)
      requires units.Valid() && EntriesFit(batchQueue, |batchCommands|)
      modifies this`batchCommands, this`modelInstanceData, this`tintInstanceData, this`unitInstanceData, this`trace
      modifies units, units.buffer
      ensures units.Valid()
      ensures Snapshot(slots, running) == WalkAll(old(Snapshot(NoSlots, 0)), batchQueue)
    {
      ghost var w0 := Snapshot(NoSlots, 0);
      ghost var es := batchQueue;
      assert WalkInv(w0) && EntriesFit(es, |w0.rows|);
      running := 0;
      slots := NoSlots;
      var i := 0;
      while i < |batchQueue|
        invariant 0 <= i <= |es| && units.Valid() && |slots| == TextureSlots
        invariant Snapshot(slots, running) == WalkAll(w0, es[..i])
      {
        WalkAllStep(w0, es, i);
        slots, running := WalkEntry(batchQueue[i], slots, running);
        i := i + 1;
      }
      assert batchQueue[..|batchQueue|] == batchQueue;
    }

    /** The closing loop of `flushBatch`: every row loses its index and instance counts. */
    method ResetCounts()
      modifies this`batchCommands
      ensures batchCommands == ZeroCounts(old(batchCommands))
    {
      var k := 0;
      while k < |batchCommands|
        invariant 0 <= k <= |batchCommands| == |old(batchCommands)|
        invariant forall j :: 0 <= j < k ==> batchCommands[j] == old(batchCommands)[j].(drawCount := 0, instanceCount := 0)
        invariant forall j :: k <= j < |batchCommands| ==> batchCommands[j] == old(batchCommands)[j]
      {
        batchCommands := batchCommands[k := batchCommands[k].(instanceCount := 0, drawCount := 0)];
        k := k + 1;
      }
    }

    /** The closing steps of `flushBatch`: empty the queue and the streams, zero every row's counts. */
    method ClearBatch()
      modifies this`batchQueue, this`modelInstanceData, this`tintInstanceData, this`unitInstanceData, this`batchCommands
      ensures batchQueue == [] && modelInstanceData == [] && tintInstanceData == [] && unitInstanceData == []
      ensures batchCommands == ZeroCounts(old(batchCommands))
    {
      batchQueue := [];
      modelInstanceData, tintInstanceData, unitInstanceData := [], [], [];
      ResetCounts();
    }

    /** The tail of `flushBatch`: draw the instances still counted, then clear, as `Finish` says. */
    method FinishFlush(running: nat, ghost w: Walk)
      requires batchCommands == w.rows && trace == w.trace && running == w.running
      requires modelInstanceData == w.models && tintInstanceData == w.tints && unitInstanceData == w.units
      requires running > 0 ==> |batchQueue| > 0
      modifies this`batchQueue, this`modelInstanceData, this`tintInstanceData, this`unitInstanceData, this`batchCommands, this`trace
      ensures FlushResult(batchCommands, w.ring, trace) == Finish(w, old(batchQueue))
      ensures batchQueue == [] && modelInstanceData == [] && tintInstanceData == [] && unitInstanceData == []
    {
      if running > 0 {
        FlushBatchCommands(batchQueue[|batchQueue| - 1].material.shader, running);
      }
      ClearBatch();
    }

    /** The body of `flushBatch`: sort, walk, draw what is left, clear. */
    method FlushQueue()
      requires units.Valid() && EntriesFit(batchQueue, |batchCommands|)
      requires modelInstanceData == [] && tintInstanceData == [] && unitInstanceData == []
      modifies this`batchQueue, this`modelInstanceData, this`tintInstanceData, this`unitInstanceData, this`batchCommands, this`trace
      modifies units, units.buffer
      ensures units.Valid()
      ensures FlushResult(batchCommands, units.State(), trace) == FlushBatchSpec(old(batchCommands), old(batchQueue), old(units.State()), old(trace))
      ensures batchQueue == [] && modelInstanceData == [] && tintInstanceData == [] && unitInstanceData == []
    {
      ghost var rows0, queue0, ring0, trace0 := batchCommands, batchQueue, units.State(), trace;
      var sorted := SortBy(batchQueue, KeyOf);
      SortedEntriesFit(batchQueue, sorted, |batchCommands|);
      FlushBatchSpecUnfolds(rows0, queue0, ring0, trace0);
      batchQueue := sorted;
      var running, slots := WalkQueue();
      ghost var w := Snapshot(slots, running);
      FinishFlush(running, w);
    }

    /** `flushBatch`, proved to follow `FlushBatchSpec`; afterwards the queue is empty. */
    method FlushBatch()
      requires Valid()
      modifies this, units, units.buffer
      ensures Valid()
      ensures FlushResult(batchCommands, units.State(), trace) == FlushBatchSpec(old(batchCommands), old(batchQueue), old(units.State()), old(trace))
      ensures batchQueue == [] && placed == old(placed) && frameCount == old(frameCount)
      ensures nextVertex == old(nextVertex) && nextIndex == old(nextIndex)
    {
      ghost var arena0 := CurrentArena();
      FlushQueue();
      PlacedIgnoresRowContents(arena0, placed, batchCommands);
      assert CurrentArena() == arena0.(rows := batchCommands);
    }

    /** The batched branch of `submit`: flush a queue at capacity, then queue the entry. */
    method Enqueue(e: Entry)
      requires Valid()
      requires e.geometry.id < |batchCommands| && |e.material.textures| <= TextureSlots
      modifies this, units, units.buffer
      ensures Valid()
      ensures placed == old(placed) && nextVertex == old(nextVertex) && nextIndex == old(nextIndex) && frameCount == old(frameCount)
      ensures |old(batchQueue)| == batchCapacity ==>
        FlushResult(batchCommands, units.State(), trace) == FlushBatchSpec(old(batchCommands), old(batchQueue), old(units.State()), old(trace))
        && batchQueue == [e]
      ensures |old(batchQueue)| != batchCapacity ==>
        batchCommands == old(batchCommands) && units.State() == old(units.State()) && trace == old(trace)
        && batchQueue == old(batchQueue) + [e]
    {
      if |batchQueue| == batchCapacity {
        FlushBatch();
      }
      AppendEntry(e);
    }

    /** `batchQueue.push_back`: the queue is below capacity (or unbounded) when this runs. */
    method AppendEntry(e: Entry)
      requires Valid() && (batchCapacity == 0 || |batchQueue| < batchCapacity)
      requires e.geometry.id < |batchCommands| && |e.material.textures| <= TextureSlots
      modifies this`batchQueue
      ensures Valid() && batchQueue == old(batchQueue) + [e]
    {
      batchQueue := batchQueue + [e];
    }

    /** The immediate branch of `submit`: bind up to five textures, then one draw of the geometry. */
    method DrawNow(geometry: Geometry, material: CoreMaterial, model: Transform)
      requires Valid() && |material.textures| <= TextureSlots
      modifies units, units.buffer, this`trace
      ensures Valid()
      ensures var b := Bind(Binding(NoSlots, old(units.State()), old(trace)), material.textures);
        units.State() == b.ring
        && trace == b.trace + [DrawImmediate(material.shader, b.slots, model, material.tint, geometry.indexCount, geometry.firstIndex, geometry.firstVertex)]
    {
      var slots := BindTextures(material.textures, NoSlots);
      trace := trace + [DrawImmediate(material.shader, slots, model, material.tint, geometry.indexCount, geometry.firstIndex, geometry.firstVertex)];
    }

    /**
     * `submit`: a batched material is queued, after flushing a queue that has reached
     * capacity; any other material is drawn at once with its textures bound to five slots.
     */
    method Submit(geometry: Geometry, material: CoreMaterial, model: Transform)
      requires Valid()
      requires geometry.id < |batchCommands| && |material.textures| <= TextureSlots
      modifies this, units, units.buffer
      ensures Valid()
      ensures placed == old(placed) && nextVertex == old(nextVertex) && nextIndex == old(nextIndex)
      ensures Materials.HasFlag(material.flags, Materials.FlagBatched) && |old(batchQueue)| == batchCapacity ==>
        FlushResult(batchCommands, units.State(), trace) == FlushBatchSpec(old(batchCommands), old(batchQueue), old(units.State()), old(trace))
        && batchQueue == [Entry(geometry, material, model)]
      ensures Materials.HasFlag(material.flags, Materials.FlagBatched) && |old(batchQueue)| != batchCapacity ==>
        batchCommands == old(batchCommands) && units.State() == old(units.State()) && trace == old(trace)
        && batchQueue == old(batchQueue) + [Entry(geometry, material, model)]
      ensures !Materials.HasFlag(material.flags, Materials.FlagBatched) ==>
        batchQueue == old(batchQueue) && batchCommands == old(batchCommands)
        && var b := Bind(Binding(NoSlots, old(units.State()), old(trace)), material.textures);
        units.State() == b.ring
        && trace == b.trace + [DrawImmediate(material.shader, b.slots, model, material.tint, geometry.indexCount, geometry.firstIndex, geometry.firstVertex)]
    {
      if Materials.HasFlag(material.flags, Materials.FlagBatched) {
        Enqueue(Entry(geometry, material, model));
      } else {
        DrawNow(geometry, material, model);
      }
    }

    /** `flush` (and `end()`): flush the queue when it is not empty. */
    method Flush()
      requires Valid()
      modifies this, units, units.buffer
      ensures Valid() && batchQueue == []
      ensures placed == old(placed) && nextVertex == old(nextVertex) && nextIndex == old(nextIndex) && frameCount == old(frameCount)
      ensures old(batchQueue) == [] ==> batchCommands == old(batchCommands) && units.State() == old(units.State()) && trace == old(trace)
      ensures old(batchQueue) != [] ==>
        FlushResult(batchCommands, units.State(), trace) == FlushBatchSpec(old(batchCommands), old(batchQueue), old(units.State()), old(trace))
    {
      if |batchQueue| > 0 {
        FlushBatch();
      }
    }

    /** `end(enabledEffects)`: flush, count the frame, then run the enabled passes in order. */
    method EndWithEffects(enabled: seq<bool>)
      requires Valid() && |enabled| >= 6
      modifies this, units, units.buffer
      ensures Valid() && batchQueue == [] && frameCount == old(frameCount) + 1
      ensures |trace| > 0 && trace[|trace| - 1] == PostProcess(EffectsFrom(enabled, 0), frameCount)
    {
      Flush();
      PostProcessFrame(enabled);
    }

    /** The part of `end(enabledEffects)` after the flush. */
    method PostProcessFrame(enabled: seq<bool>)
      requires Valid() && |enabled| >= 6
      modifies this`frameCount, this`trace
      ensures Valid() && unchanged(this`batchQueue)
      ensures frameCount == old(frameCount) + 1
      ensures trace == old(trace) + [PostProcess(EffectsFrom(enabled, 0), frameCount)]
    {
      frameCount := frameCount + 1;
      trace := trace + [PostProcess(EffectsFrom(enabled, 0), frameCount)];
    }
  }
}
