/**
 * The texture-unit ring shared by the renderers (`TextureUnitManager`).
 *
 * A fixed-capacity buffer maps binding units (indices) to texture identities.
 * `head` is the next unit to hand out, `tail` is only ever 0, and `full` is set
 * when `head` wraps back onto `tail`.  `Resolve` is the value-level meaning of
 * `getUnit`; the class below updates its array in place and is proved to
 * follow it.
 */
module TextureUnits {
  import opened Wrappers

  /** The value `clear` writes into every slot (0xFFFFFFFF). */
  const Unbound: nat := 0xFFFF_FFFF

  datatype Ring = Ring(buffer: seq<nat>, head: nat, tail: nat, full: bool)

  /** What the code keeps true: a non-empty buffer, head inside it, tail at 0, full only at head == tail. */
  ghost predicate ValidRing(r: Ring)
  {
    |r.buffer| > 0 && r.head < |r.buffer| && r.tail == 0 && (r.full ==> r.head == r.tail)
  }

  /** The state after `clear` (and after construction). */
  function Cleared(capacity: nat): (r: Ring)
    ensures |r.buffer| == capacity && r.head == 0 && r.tail == 0 && !r.full
    ensures forall i :: 0 <= i < capacity ==> r.buffer[i] == Unbound
  {
    Ring(seq(capacity, _ => Unbound), 0, 0, false)
  }

  /** The first index in [lo, hi) whose slot holds `id`, scanning upwards without wrapping. */
  function Scan(buffer: seq<nat>, lo: nat, hi: nat, id: nat): (r: Option<nat>)
    requires hi <= |buffer|
    ensures r.Some? <==> exists i :: lo <= i < hi && buffer[i] == id
    ensures r.Some? ==> lo <= r.value < hi && buffer[r.value] == id
    ensures r.Some? ==> forall i :: lo <= i < r.value ==> buffer[i] != id
    decreases hi - lo
  {
    if lo >= hi then None
    else if buffer[lo] == id then Some(lo)
    else Scan(buffer, lo + 1, hi, id)
  }

  /** The result of `getUnit`: its return value, the unit written to its out-parameter, and the new ring. */
  datatype UnitLookup = UnitLookup(hit: bool, unit: nat, ring: Ring)

  /** The allocation half of a miss on a ring that is not full: write at head, advance head, maybe set full. */
  function Allocate(r: Ring, id: nat): (res: UnitLookup)
    requires ValidRing(r) && !r.full
    ensures ValidRing(res.ring) && |res.ring.buffer| == |r.buffer|
    ensures !res.hit && res.unit == r.head && res.ring.buffer == r.buffer[r.head := id]
    ensures res.ring.full <==> r.head + 1 == |r.buffer|
    ensures !res.ring.full ==> res.ring.head == r.head + 1
  {
    var head' := (r.head + 1) % |r.buffer|;
    UnitLookup(false, r.head, Ring(r.buffer[r.head := id], head', r.tail, r.full || head' == r.tail))
  }

  /**
   * `getUnit(textureID, unit)`: a hit inside [tail, head) returns true and that index and
   * changes nothing; a miss clears a full ring, writes the texture at `head`, returns the old
   * head, advances head modulo the capacity and sets `full` when it meets `tail`.
   */
  function Resolve(r: Ring, id: nat): (res: UnitLookup)
    requires ValidRing(r)
    ensures ValidRing(res.ring) && |res.ring.buffer| == |r.buffer|
    ensures res.unit < |r.buffer| && res.ring.buffer[res.unit] == id
    ensures res.hit <==> exists i :: r.tail <= i < r.head && r.buffer[i] == id
    ensures res.hit ==> res.ring == r
  {
    match Scan(r.buffer, r.tail, r.head, id)
    case Some(i) => UnitLookup(true, i, r)
    case None => Allocate(if r.full then Cleared(|r.buffer|) else r, id)
  }

  /** The units in use: the prefix [0, head), or the whole buffer once the ring is full. */
  function Occupied(r: Ring): seq<nat>
    requires ValidRing(r)
  {
    if r.full then r.buffer else r.buffer[..r.head]
  }

  ghost predicate Distinct(s: seq<nat>)
  {
    forall i, j :: 0 <= i < j < |s| ==> s[i] != s[j]
  }

  /** Lookups one after another, as the renderers issue them. */
  function ResolveAll(r: Ring, ids: seq<nat>): (r': Ring)
    requires ValidRing(r)
    ensures ValidRing(r') && |r'.buffer| == |r.buffer|
  {
    if ids == [] then r else Resolve(ResolveAll(r, ids[..|ids| - 1]), ids[|ids| - 1]).ring
  }

  /**
   * The scan never wraps and tail stays 0, so a full ring (head == tail == 0) has an empty
   * scan range: every lookup misses, even of a texture already in the buffer, clears the
   * ring and gets unit 0.
   */
  lemma {:induction false} FullRingMisses(r: Ring, id: nat)
    requires ValidRing(r) && r.full
    ensures !Resolve(r, id).hit && Resolve(r, id).unit == 0
    ensures Resolve(r, id).ring.buffer == Cleared(|r.buffer|).buffer[0 := id]
  {
    assert r.head == 0;
  }

  /**
   * A lookup keeps the occupied units pairwise distinct: a texture is only written
   * after a failed scan of the occupied prefix.
   */
  lemma {:induction false} ResolveKeepsDistinct(r: Ring, id: nat)
    requires ValidRing(r) && Distinct(Occupied(r))
    ensures Distinct(Occupied(Resolve(r, id).ring))
  {
    var res := Resolve(r, id);
    if !res.hit {
      var base := if r.full then Cleared(|r.buffer|) else r;
      assert res == Allocate(base, id);
      var prefix := base.buffer[..base.head];
      assert id !in prefix;
      assert Distinct(prefix) by {
        if r.full { assert prefix == []; }
      }
      assert Distinct(prefix + [id]);
      if res.ring.full {
        assert res.ring.buffer == prefix + [id];
      } else {
        assert res.ring.buffer[..res.ring.head] == prefix + [id];
      }
    }
  }

  /**
   * Looking the same texture up twice: the second call hits the unit the first one
   * returned, unless the first call filled the ring, in which case the second clears it
   * and hands out unit 0.
   */
  lemma {:induction false} ResolveTwice(r: Ring, id: nat)
    requires ValidRing(r)
    ensures var a := Resolve(r, id); var b := Resolve(a.ring, id);
      if a.ring.full then !b.hit && b.unit == 0
      else b.hit && b.unit == a.unit && b.ring == a.ring
  {
    var a := Resolve(r, id);
    if a.ring.full {
      FullRingMisses(a.ring, id);
    } else if !a.hit {
      var base := if r.full then Cleared(|r.buffer|) else r;
      assert a.ring.head == base.head + 1;
      assert forall k :: 0 <= k < base.head ==> a.ring.buffer[k] != id;
    }
  }

  /** A texture absent from the occupied prefix of a ring that is not full is allocated at the head. */
  lemma {:induction false} MissAllocates(r: Ring, id: nat)
    requires ValidRing(r) && !r.full && forall i :: 0 <= i < r.head ==> r.buffer[i] != id
    ensures Resolve(r, id) == Allocate(r, id)
  {
    assert !Resolve(r, id).hit;
  }

  /**
   * From a cleared ring, k < capacity lookups of distinct textures fill units 0..k-1 in
   * order and leave the ring not full.
   */
  lemma {:induction false} FillPrefix(capacity: nat, ids: seq<nat>)
    requires 0 < capacity && |ids| < capacity && Distinct(ids)
    ensures var r := ResolveAll(Cleared(capacity), ids);
      r.head == |ids| && !r.full && r.buffer[..|ids|] == ids
  {
    if ids != [] {
      var k := |ids| - 1;
      var prev := ids[..k];
      assert Distinct(prev);
      FillPrefix(capacity, prev);
      var p := ResolveAll(Cleared(capacity), prev);
      assert forall i :: 0 <= i < k ==> p.buffer[i] != ids[k] by {
        assert forall i :: 0 <= i < k ==> p.buffer[i] == prev[i] == ids[i];
      }
      var r := ResolveAll(Cleared(capacity), ids);
      MissAllocates(p, ids[k]);
      assert r == Allocate(p, ids[k]).ring;
      assert r.buffer[..k] == p.buffer[..k];
      assert r.buffer[..|ids|] == prev + [ids[k]];
      assert prev + [ids[k]] == ids;
    }
  }

  /**
   * From a cleared ring, exactly `capacity` lookups of distinct textures (all misses) make
   * the ring full with head back at 0 and the buffer holding the textures in order.
   */
  lemma {:induction false} FillToCapacity(capacity: nat, ids: seq<nat>)
    requires 0 < capacity && |ids| == capacity && Distinct(ids)
    ensures var r := ResolveAll(Cleared(capacity), ids);
      r.full && r.head == 0 && r.buffer == ids
  {
    var k := |ids| - 1;
    var prev := ids[..k];
    assert Distinct(prev);
    FillPrefix(capacity, prev);
    var p := ResolveAll(Cleared(capacity), prev);
    assert forall i :: 0 <= i < k ==> p.buffer[i] != ids[k] by {
      assert forall i :: 0 <= i < k ==> p.buffer[i] == prev[i] == ids[i];
    }
    var r := ResolveAll(Cleared(capacity), ids);
    MissAllocates(p, ids[k]);
    assert r == Allocate(p, ids[k]).ring;
    assert r.buffer == prev + [ids[k]];
    assert prev + [ids[k]] == ids;
  }

  /**
   * `TextureUnitManager`: the buffer is a fixed-size array updated in place.
   * `State()` reads it back as a `Ring`.
   */
  class TextureUnitManager {
    const capacity: nat
    const buffer: array<nat>
    var head: nat
    var tail: nat
    var full: bool

    ghost function State(): Ring
      reads this, buffer
    {
      Ring(buffer[..], head, tail, full)
    }

    ghost predicate Valid()
      reads this, buffer
    {
      buffer.Length == capacity && ValidRing(State())
    }

    /** The constructor stores the capacity and fills the buffer with `capacity` copies of 0xFFFFFFFF. */
    constructor (capacity: nat)
      requires capacity > 0
      ensures Valid() && fresh(buffer)
      ensures this.capacity == capacity && State() == Cleared(capacity)
    {
      this.capacity := capacity;
      buffer := new nat[capacity](_ => Unbound);
      head, tail, full := 0, 0, false;
      new;
      assert buffer[..] == Cleared(capacity).buffer;
    }

    /** `isFull`: the full flag; a full ring has head back at 0, so its scan range [tail, head) is empty. */
    function IsFull(): (r: bool)
      reads this, buffer
      ensures Valid() && r ==> head == 0 && tail == 0
    {
      full
    }

    /** `clear`: head = tail = 0, not full, every slot 0xFFFFFFFF. */
    method Clear()
      requires Valid()
      modifies this, buffer
      ensures Valid() && State() == Cleared(capacity)
    {
      head, tail, full := 0, 0, false;
      forall i | 0 <= i < buffer.Length {
        buffer[i] := Unbound;
      }
      assert buffer[..] == Cleared(capacity).buffer;
    }

    /** `getUnit(textureID, textureUnit)`: scan [tail, head), allocate on a miss. */
    method GetUnit(id: nat) returns (hit: bool, unit: nat)
      requires Valid()
      modifies this, buffer
      ensures Valid()
      ensures UnitLookup(hit, unit, State()) == Resolve(old(State()), id)
    {
      var i := tail;
      while i < head
        invariant tail <= i <= head
        invariant forall k :: tail <= k < i ==> buffer[k] != id
      {
        if buffer[i] == id {
          return true, i;
        }
        i := i + 1;
      }
      if full {
        Clear();
      }
      buffer[head] := id;
      unit := head;
      head := (head + 1) % capacity;
      if head == tail {
        full := true;
      }
      hit := false;
    }
  }
}
