/**
 * What the two batched 3D renderers share: geometry handles, the rows of the indirect draw
 * buffer, the vertex/index arena filled by `addGeometry`, the ordering of the batch queue
 * and the per-row instance counting done while `flushBatch` walks the sorted queue.
 */
module Batching {
  import opened Wrappers

  /** Values of a `uint32_t` lie below this bound. */
  const U32Limit: nat := 0x1_0000_0000

  /** A handle to a block of vertices and indices placed in the shared buffers. */
  datatype Geometry = Geometry(id: nat, vertexCount: nat, indexCount: nat, firstVertex: nat, firstIndex: nat)

  /** One indirect draw row; `drawCount` holds the row's index count. */
  datatype DrawCommand = DrawCommand(drawCount: nat, instanceCount: nat, firstIndex: nat, firstVertex: nat, firstInstance: nat)

  /** The row `addGeometry` appends for a new geometry. */
  const IdleCommand := DrawCommand(0, 0, 0, 0, 0)

  /** The arena state: capacities, the two write cursors and the draw rows, one per geometry. */
  datatype Arena = Arena(vertexCapacity: nat, indexCapacity: nat, nextVertex: nat, nextIndex: nat, rows: seq<DrawCommand>)

  /**
   * The first `n` elements of an instance stream, as an upload of `n` instances reads them. When
   * the stream holds fewer (the split draw of `flushBatch`), the source reads past the end of the
   * vector; the model uploads what the stream holds.
   */
  function Take<T>(s: seq<T>, n: nat): (r: seq<T>)
    ensures |r| == if n <= |s| then n else |s|
    ensures r <= s
  {
    if n <= |s| then s[..n] else s
  }

  /** The capacity test `count + cursor > capacity` rejects, computed without wrap-around. */
  predicate Fits(count: nat, cursor: nat, capacity: nat)
  {
    count + cursor <= capacity
  }

  /** The same test as written on `uint32_t`, where the sum wraps modulo 2^32. */
  predicate FitsAsWritten(count: nat, cursor: nat, capacity: nat)
    requires count < U32Limit && cursor < U32Limit && capacity < U32Limit
  {
    (count + cursor) % U32Limit <= capacity
  }

  /** A huge block passes the wrapped test although it does not fit. */
  lemma {:induction false} WrappedCapacityTestAdmitsOverflow()
    ensures FitsAsWritten(0xFFFF_FFFB, 10, 100) && !Fits(0xFFFF_FFFB, 10, 100)
  {
  }

  /** Without wrap-around, the two tests agree. */
  lemma {:induction false} CapacityTestsAgreeWithoutWrap(count: nat, cursor: nat, capacity: nat)
    requires count < U32Limit && cursor < U32Limit && capacity < U32Limit
    requires count + cursor < U32Limit
    ensures FitsAsWritten(count, cursor, capacity) <==> Fits(count, cursor, capacity)
  {
  }

  /**
   * `addGeometry`: rejects a block that would overflow either buffer and then changes nothing;
   * otherwise places it at the two cursors, gives it the next row id and appends an idle row.
   */
  function AddGeometry(a: Arena, vertexCount: nat, indexCount: nat): (r: (Option<Geometry>, Arena))
    ensures r.0.None? <==> !Fits(vertexCount, a.nextVertex, a.vertexCapacity) || !Fits(indexCount, a.nextIndex, a.indexCapacity)
    ensures r.0.None? ==> r.1 == a
    ensures r.0.Some? ==>
      var g := r.0.value;
      g.id == |a.rows| && g.vertexCount == vertexCount && g.indexCount == indexCount
      && g.firstVertex == a.nextVertex && g.firstIndex == a.nextIndex
      && r.1.nextVertex == g.firstVertex + g.vertexCount <= a.vertexCapacity
      && r.1.nextIndex == g.firstIndex + g.indexCount <= a.indexCapacity
      && r.1.rows == a.rows + [IdleCommand]
      && r.1.vertexCapacity == a.vertexCapacity && r.1.indexCapacity == a.indexCapacity
  {
    if !Fits(vertexCount, a.nextVertex, a.vertexCapacity) then (None, a)
    else if !Fits(indexCount, a.nextIndex, a.indexCapacity) then (None, a)
    else
      var g := Geometry(|a.rows|, vertexCount, indexCount, a.nextVertex, a.nextIndex);
      (Some(g), a.(nextVertex := a.nextVertex + vertexCount, nextIndex := a.nextIndex + indexCount, rows := a.rows + [IdleCommand]))
  }

  /**
   * `gs` are the geometries placed so far, in id order: ids are dense, every block lies below
   * the cursors, which lie within capacity, and earlier blocks end before later ones begin.
   */
  ghost predicate Placed(a: Arena, gs: seq<Geometry>)
  {
    |gs| == |a.rows|
    && a.nextVertex <= a.vertexCapacity && a.nextIndex <= a.indexCapacity
    && (forall k :: 0 <= k < |gs| ==>
          gs[k].id == k
          && gs[k].firstVertex + gs[k].vertexCount <= a.nextVertex
          && gs[k].firstIndex + gs[k].indexCount <= a.nextIndex)
    && (forall j, k :: 0 <= j < k < |gs| ==>
          gs[j].firstVertex + gs[j].vertexCount <= gs[k].firstVertex
          && gs[j].firstIndex + gs[j].indexCount <= gs[k].firstIndex)
  }

  /** A fresh arena has placed nothing. */
  lemma {:induction false} EmptyArenaPlaced(vertexCapacity: nat, indexCapacity: nat)
    ensures Placed(Arena(vertexCapacity, indexCapacity, 0, 0, []), [])
  {
  }

  /** Every `addGeometry` keeps the placement invariant, adding the new block when it succeeds. */
  lemma {:induction false} AddGeometryKeepsPlaced(a: Arena, gs: seq<Geometry>, vertexCount: nat, indexCount: nat)
    requires Placed(a, gs)
    ensures var r := AddGeometry(a, vertexCount, indexCount);
      Placed(r.1, if r.0.Some? then gs + [r.0.value] else gs)
  {
    var r := AddGeometry(a, vertexCount, indexCount);
    if r.0.Some? {
      var g := r.0.value;
      var gs' := gs + [g];
      forall j, k | 0 <= j < k < |gs'|
        ensures gs'[j].firstVertex + gs'[j].vertexCount <= gs'[k].firstVertex
        ensures gs'[j].firstIndex + gs'[j].indexCount <= gs'[k].firstIndex
      {
        if k == |gs| {
          assert gs'[j] == gs[j];
        }
      }
    }
  }

  /** Only the length of the rows matters to the placement invariant. */
  lemma {:induction false} PlacedIgnoresRowContents(a: Arena, gs: seq<Geometry>, rows: seq<DrawCommand>)
    requires Placed(a, gs) && |rows| == |a.rows|
    ensures Placed(a.(rows := rows), gs)
  {
  }

  /** Two placed geometries never share a vertex or an index slot. */
  lemma {:induction false} PlacedBlocksDisjoint(a: Arena, gs: seq<Geometry>, j: nat, k: nat, v: nat, i: nat)
    requires Placed(a, gs)
    requires j < |gs| && k < |gs| && j != k
    requires gs[j].firstVertex <= v < gs[j].firstVertex + gs[j].vertexCount
    requires gs[j].firstIndex <= i < gs[j].firstIndex + gs[j].indexCount
    ensures !(gs[k].firstVertex <= v < gs[k].firstVertex + gs[k].vertexCount)
    ensures !(gs[k].firstIndex <= i < gs[k].firstIndex + gs[k].indexCount)
  {
    if j < k {
      assert gs[j].firstVertex + gs[j].vertexCount <= gs[k].firstVertex;
    } else {
      assert gs[k].firstVertex + gs[k].vertexCount <= gs[j].firstVertex;
    }
  }

  // ---- Ordering of the batch queue ----

  /** The sort key of a queued entry: its shader, then its geometry id. */
  datatype SortKey = SortKey(shader: nat, geometry: nat)

  /** The comparator of `flushBatch`, as a non-strict order. */
  predicate KeyLe(a: SortKey, b: SortKey)
  {
    a.shader < b.shader || (a.shader == b.shader && a.geometry <= b.geometry)
  }

  ghost predicate SortedBy<T>(s: seq<T>, key: T -> SortKey)
  {
    forall i, j :: 0 <= i < j < |s| ==> KeyLe(key(s[i]), key(s[j]))
  }

  /** Every element of `s` has a key at least `low`. */
  ghost predicate AllAbove<T>(s: seq<T>, key: T -> SortKey, low: SortKey)
  {
    forall i :: 0 <= i < |s| ==> KeyLe(low, key(s[i]))
  }

  lemma {:induction false} AllAboveByMultiset<T>(r: seq<T>, s: seq<T>, x: T, key: T -> SortKey, low: SortKey)
    requires multiset(r) == multiset(s) + multiset{x}
    requires AllAbove(s, key, low) && KeyLe(low, key(x))
    ensures AllAbove(r, key, low)
  {
    forall i | 0 <= i < |r|
      ensures KeyLe(low, key(r[i]))
    {
      assert r[i] in multiset(r);
      if r[i] != x {
        assert r[i] in multiset(s);
        var k :| 0 <= k < |s| && s[k] == r[i];
      }
    }
  }

  /** Inserts `x` before the first element whose key is not below its own. */
  function InsertBy<T>(x: T, s: seq<T>, key: T -> SortKey): (r: seq<T>)
    requires SortedBy(s, key)
    ensures SortedBy(r, key)
    ensures multiset(r) == multiset(s) + multiset{x}
  {
    if s == [] then [x]
    else if KeyLe(key(x), key(s[0])) then [x] + s
    else
      var rest := InsertBy(x, s[1..], key);
      assert s == [s[0]] + s[1..];
      assert AllAbove(s[1..], key, key(s[0]));
      AllAboveByMultiset(rest, s[1..], x, key, key(s[0]));
      [s[0]] + rest
  }

  /**
   * The queue ordering of `flushBatch`: an insertion sort, so entries with equal keys keep
   * their submission order.
   */
  function SortBy<T>(s: seq<T>, key: T -> SortKey): (r: seq<T>)
    ensures SortedBy(r, key)
    ensures multiset(r) == multiset(s)
    ensures |r| == |s|
  {
    if s == [] then []
    else
      assert s == [s[0]] + s[1..];
      InsertBy(s[0], SortBy(s[1..], key), key)
  }

  /** The last element of a sorted rearrangement of `s` is an element of `s` and carries its largest shader. */
  lemma {:induction false} SortedLastIsLargest<T>(s: seq<T>, r: seq<T>, key: T -> SortKey)
    requires SortedBy(r, key) && multiset(r) == multiset(s) && |r| > 0
    ensures r[|r| - 1] in s
    ensures forall x :: x in s ==> key(x).shader <= key(r[|r| - 1]).shader
  {
    forall x | x in s
      ensures key(x).shader <= key(r[|r| - 1]).shader
    {
      assert x in multiset(s);
      var k :| 0 <= k < |r| && r[k] == x;
      if k < |r| - 1 {
        assert KeyLe(key(r[k]), key(r[|r| - 1]));
      }
    }
    assert r[|r| - 1] in multiset(r);
  }

  /**
   * In a sorted queue where every entry of geometry `g` uses the same shader, the entries
   * of `g` form one contiguous run.
   */
  lemma {:induction false} SortedRunsAreContiguous<T>(s: seq<T>, key: T -> SortKey, g: nat)
    requires SortedBy(s, key)
    requires forall i, k :: 0 <= i < |s| && 0 <= k < |s| && key(s[i]).geometry == g && key(s[k]).geometry == g ==>
      key(s[i]).shader == key(s[k]).shader
    ensures forall i, j, k :: 0 <= i < j < k < |s| && key(s[i]).geometry == g && key(s[k]).geometry == g ==>
      key(s[j]).geometry == g
  {
    forall i, j, k | 0 <= i < j < k < |s| && key(s[i]).geometry == g && key(s[k]).geometry == g
      ensures key(s[j]).geometry == g
    {
      assert KeyLe(key(s[i]), key(s[j])) && KeyLe(key(s[j]), key(s[k]));
    }
  }

  // ---- Instance counting of the walk ----

  /** Every geometry id in `gs` names an existing row. */
  ghost predicate IdsBelow(gs: seq<Geometry>, n: nat)
  {
    forall k :: 0 <= k < |gs| ==> gs[k].id < n
  }

  /**
   * The row update for one walked entry: an unused row (`drawCount == 0`) takes the
   * geometry's index range and the running instance counter; the row's instance count then
   * grows by one.
   */
  function CountInstance(rows: seq<DrawCommand>, g: Geometry, running: nat): (r: seq<DrawCommand>)
    requires g.id < |rows|
    ensures |r| == |rows|
    ensures forall k :: 0 <= k < |rows| && k != g.id ==> r[k] == rows[k]
    ensures r[g.id].instanceCount == rows[g.id].instanceCount + 1
    ensures rows[g.id].drawCount != 0 ==> r[g.id] == rows[g.id].(instanceCount := rows[g.id].instanceCount + 1)
    ensures rows[g.id].drawCount == 0 ==>
      r[g.id] == DrawCommand(g.indexCount, rows[g.id].instanceCount + 1, g.firstIndex, g.firstVertex, running)
  {
    var row := rows[g.id];
    var init := if row.drawCount == 0 then row.(firstVertex := g.firstVertex, firstIndex := g.firstIndex, drawCount := g.indexCount, firstInstance := running) else row;
    rows[g.id := init.(instanceCount := init.instanceCount + 1)]
  }

  /** The rows after walking `gs` without a sub-batch split: entry `k` is instance `k`. */
  function CountAll(rows: seq<DrawCommand>, gs: seq<Geometry>): (r: seq<DrawCommand>)
    requires IdsBelow(gs, |rows|)
    ensures |r| == |rows|
    decreases |gs|
  {
    if gs == [] then rows
    else CountInstance(CountAll(rows, gs[..|gs| - 1]), gs[|gs| - 1], |gs| - 1)
  }

  /** How many entries of `gs` use geometry `id`. */
  function Occurrences(gs: seq<Geometry>, id: nat): nat
    decreases |gs|
  {
    if gs == [] then 0
    else Occurrences(gs[..|gs| - 1], id) + (if gs[|gs| - 1].id == id then 1 else 0)
  }

  /** Every row's instance count grows by the number of walked entries of that row. */
  lemma {:induction false} CountAllCounts(rows: seq<DrawCommand>, gs: seq<Geometry>, id: nat)
    requires IdsBelow(gs, |rows|) && id < |rows|
    ensures CountAll(rows, gs)[id].instanceCount == rows[id].instanceCount + Occurrences(gs, id)
    decreases |gs|
  {
    if gs != [] {
      CountAllCounts(rows, gs[..|gs| - 1], id);
    }
  }

  /** The entries of geometry `id` are one contiguous run of `gs`. */
  ghost predicate Contiguous(gs: seq<Geometry>, id: nat)
  {
    forall i, j, k :: 0 <= i < j < k < |gs| && gs[i].id == id && gs[k].id == id ==> gs[j].id == id
  }

  /**
   * The batch ordering invariant: when row `geo.id` starts idle, every entry of that row
   * carries `geo` with a non-empty index range, and those entries are contiguous, the row
   * afterwards draws `geo`'s indices for exactly the instances of those entries.
   */
  lemma {:induction false} RowCoversItsEntries(rows: seq<DrawCommand>, gs: seq<Geometry>, geo: Geometry)
    requires IdsBelow(gs, |rows|) && geo.id < |rows| && geo.indexCount > 0
    requires rows[geo.id].drawCount == 0 && rows[geo.id].instanceCount == 0
    requires forall k :: 0 <= k < |gs| && gs[k].id == geo.id ==> gs[k] == geo
    requires Contiguous(gs, geo.id)
    ensures var row := CountAll(rows, gs)[geo.id];
      (row.instanceCount == 0 <==> row.drawCount == 0)
      && (row.instanceCount > 0 ==>
            row.drawCount == geo.indexCount && row.firstIndex == geo.firstIndex && row.firstVertex == geo.firstVertex
            && row.firstInstance + row.instanceCount <= |gs|)
      && (forall q :: 0 <= q < |gs| ==> (gs[q].id == geo.id <==> row.firstInstance <= q < row.firstInstance + row.instanceCount))
    decreases |gs|
  {
    if gs != [] {
      var n := |gs|;
      var pre := gs[..n - 1];
      assert IdsBelow(pre, |rows|);
      assert Contiguous(pre, geo.id);
      RowCoversItsEntries(rows, pre, geo);
      var before := CountAll(rows, pre)[geo.id];
      var row := CountAll(rows, gs)[geo.id];
      forall q | 0 <= q < n - 1
        ensures gs[q].id == geo.id <==> before.firstInstance <= q < before.firstInstance + before.instanceCount
      {
        assert pre[q] == gs[q];
      }
      if gs[n - 1].id == geo.id && before.drawCount != 0 {
        var p := before.firstInstance;
        assert gs[p].id == geo.id;
        forall q | p <= q < n - 1
          ensures gs[q].id == geo.id
        {
          if p < q {
            assert gs[p].id == geo.id && gs[n - 1].id == geo.id;
          }
        }
        assert before.firstInstance + before.instanceCount == n - 1;
      }
    }
  }

  /** The sum of `f` over a sequence, from the front. */
  function SumOf<T>(s: seq<T>, f: T -> nat): nat
    decreases |s|
  {
    if s == [] then 0 else SumOf(s[..|s| - 1], f) + f(s[|s| - 1])
  }

  /** A sum over a concatenation is the sum of the two sums. */
  lemma {:induction false} SumOfAppend<T>(a: seq<T>, b: seq<T>, f: T -> nat)
    ensures SumOf(a + b, f) == SumOf(a, f) + SumOf(b, f)
    decreases |b|
  {
    if b == [] {
      assert a + b == a;
    } else {
      var n := |b| - 1;
      assert (a + b)[..|a + b| - 1] == a + b[..n] && (a + b)[|a + b| - 1] == b[n];
      SumOfAppend(a, b[..n], f);
    }
  }

  /** A sum splits at any point of the sequence. */
  lemma {:induction false} SumOfSplit<T>(s: seq<T>, n: nat, f: T -> nat)
    requires n <= |s|
    ensures SumOf(s[..n], f) + SumOf(s[n..], f) == SumOf(s, f)
  {
    assert s == s[..n] + s[n..];
    SumOfAppend(s[..n], s[n..], f);
  }

  /** What a sequence adds to the sum beyond a prefix is the sum of the rest. */
  lemma {:induction false} SuffixSum<T>(s: seq<T>, prefix: seq<T>, k: nat, f: T -> nat)
    requires |prefix| <= |s| && s[..|prefix|] == prefix && SumOf(s, f) == SumOf(prefix, f) + k
    ensures SumOf(s[|prefix|..], f) == k
  {
    SumOfSplit(s, |prefix|, f);
  }

  /** A prefix of a prefix is a prefix. */
  lemma {:induction false} PrefixOfPrefix<T>(a: seq<T>, b: seq<T>, c: seq<T>)
    requires |a| <= |b| <= |c| && b[..|a|] == a && c[..|b|] == b
    ensures c[..|a|] == a
  {
    assert c[..|a|] == c[..|b|][..|a|];
  }

  /** Appending one element adds its value. */
  lemma {:induction false} SumOfSnoc<T>(s: seq<T>, x: T, f: T -> nat)
    ensures SumOf(s + [x], f) == SumOf(s, f) + f(x)
  {
    assert (s + [x])[..|s|] == s;
  }

  /** The instances the rows ask the GPU for: the sum of their instance counts. */
  function RowInstances(rows: seq<DrawCommand>): nat
    decreases |rows|
  {
    if rows == [] then 0 else RowInstances(rows[..|rows| - 1]) + rows[|rows| - 1].instanceCount
  }

  /** Replacing one row changes the total by the difference of the two rows' instance counts. */
  lemma {:induction false} RowInstancesUpdate(rows: seq<DrawCommand>, i: nat, row: DrawCommand)
    requires i < |rows|
    ensures RowInstances(rows[i := row]) + rows[i].instanceCount == RowInstances(rows) + row.instanceCount
    decreases |rows|
  {
    var n := |rows| - 1;
    var u := rows[i := row];
    assert u[..n] == if i == n then rows[..n] else rows[..n][i := row];
    if i < n {
      RowInstancesUpdate(rows[..n], i, row);
    }
  }

  /** Counting one entry adds exactly one instance to the rows. */
  lemma {:induction false} CountInstanceAddsOne(rows: seq<DrawCommand>, g: Geometry, running: nat)
    requires g.id < |rows|
    ensures RowInstances(CountInstance(rows, g, running)) == RowInstances(rows) + 1
  {
    var r := CountInstance(rows, g, running);
    assert r == rows[g.id := r[g.id]];
    RowInstancesUpdate(rows, g.id, r[g.id]);
  }

  /** Idle rows ask for no instance. */
  lemma {:induction false} IdleRowsHaveNoInstances(rows: seq<DrawCommand>)
    requires RowsIdle(rows)
    ensures RowInstances(rows) == 0
    decreases |rows|
  {
    if rows != [] {
      IdleRowsHaveNoInstances(rows[..|rows| - 1]);
    }
  }

  // ---- Between flushes ----

  /** Between flushes every row is idle: no index count and no instances. */
  ghost predicate RowsIdle(rows: seq<DrawCommand>)
  {
    forall k :: 0 <= k < |rows| ==> rows[k].drawCount == 0 && rows[k].instanceCount == 0
  }

  /** A fresh row joins idle rows idle. */
  lemma {:induction false} RowsIdleGrow(rows: seq<DrawCommand>)
    requires RowsIdle(rows)
    ensures RowsIdle(rows + [IdleCommand])
  {
    assert forall k :: 0 <= k < |rows| ==> (rows + [IdleCommand])[k] == rows[k];
  }

  /** The end of `flushBatch`: every row loses its counts and keeps its ranges. */
  function ZeroCounts(rows: seq<DrawCommand>): (r: seq<DrawCommand>)
    ensures |r| == |rows| && RowsIdle(r)
    ensures forall k :: 0 <= k < |rows| ==> r[k] == rows[k].(drawCount := 0, instanceCount := 0)
  {
    seq(|rows|, k requires 0 <= k < |rows| => rows[k].(drawCount := 0, instanceCount := 0))
  }
}
