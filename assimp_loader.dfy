/**
 * The logic inside the assimp loader: the per-vertex bone slots, the element-wise matrix
 * conversion, the keyframe tables built by `processAnimations`, and the parts of
 * `ASSIMPProcessMesh` that are not GPU or file work (the index list, the texture path and
 * tag slicing, the asset records, the material's texture slots and the diffuse tint).
 *
 * Textures are created from files; `create(path)` stands for the handle that creation
 * returns. The asset records go into the asset table of `ResourceManager`.
 */
module AssimpLoader {
  import opened Wrappers
  import opened AssimpHelpers
  import RM = ResourceManager

  /** The number of bone slots per vertex. */
  const BoneSlotCount: nat := 4

  /** The four (id, weight) slots of a vertex as a value. */
  datatype BoneSlots = BoneSlots(ids: seq<nat>, weights: seq<real>)

  predicate WellFormed(s: BoneSlots)
  {
    |s.ids| == BoneSlotCount && |s.weights| == BoneSlotCount
  }

  /** The first slot whose weight is 0, if any: that slot counts as free. */
  function FreeSlot(weights: seq<real>): (r: Option<nat>)
    ensures r.Some? <==> exists i :: 0 <= i < |weights| && weights[i] == 0.0
    ensures r.Some? ==> r.value < |weights| && weights[r.value] == 0.0
    ensures r.Some? ==> forall i :: 0 <= i < r.value ==> weights[i] != 0.0
  {
    if weights == [] then None
    else if weights[0] == 0.0 then Some(0)
    else match FreeSlot(weights[1..])
      case None => None
      case Some(i) =>
        assert forall j :: 1 <= j < i + 1 ==> weights[j] == weights[1..][j - 1];
        Some(i + 1)
  }

  /** `addBoneData`: fill the first free slot, or drop the bone when all four are taken. */
  function AddBone(s: BoneSlots, id: nat, weight: real): (r: BoneSlots)
    requires WellFormed(s)
    ensures WellFormed(r)
  {
    match FreeSlot(s.weights)
    case None => s
    case Some(i) => BoneSlots(s.ids[i := id], s.weights[i := weight])
  }

  /**
   * At most one slot changes: the first free one takes the bone and every other slot keeps
   * its contents; with no free slot nothing changes.
   */
  lemma {:induction false} AddBoneTouchesOneSlot(s: BoneSlots, id: nat, weight: real)
    requires WellFormed(s)
    ensures var r := AddBone(s, id, weight);
      match FreeSlot(s.weights)
      case None => r == s
      case Some(i) => (r.ids[i] == id && r.weights[i] == weight
        && forall k :: 0 <= k < BoneSlotCount && k != i ==> r.ids[k] == s.ids[k] && r.weights[k] == s.weights[k])
  {
  }

  /** Bones added one after another. */
  function AddBones(s: BoneSlots, bones: seq<(nat, real)>): (r: BoneSlots)
    requires WellFormed(s)
    ensures WellFormed(r)
  {
    if bones == [] then s
    else
      var last := bones[|bones| - 1];
      AddBone(AddBones(s, bones[..|bones| - 1]), last.0, last.1)
  }

  const EmptySlots: BoneSlots := BoneSlots([0, 0, 0, 0], [0.0, 0.0, 0.0, 0.0])

  /**
   * From the zero-initialised slots, up to four bones with non-zero weights land in slots
   * 0, 1, 2, … in the order they were added, and the remaining slots stay free.
   */
  lemma {:induction false} BonesFillInOrder(bones: seq<(nat, real)>)
    requires |bones| <= BoneSlotCount
    requires forall j :: 0 <= j < |bones| ==> bones[j].1 != 0.0
    ensures var r := AddBones(EmptySlots, bones);
      (forall j :: 0 <= j < |bones| ==> r.ids[j] == bones[j].0 && r.weights[j] == bones[j].1)
      && (forall j :: |bones| <= j < BoneSlotCount ==> r.ids[j] == 0 && r.weights[j] == 0.0)
  {
    if bones != [] {
      var prefix, last := bones[..|bones| - 1], bones[|bones| - 1];
      assert forall j :: 0 <= j < |prefix| ==> prefix[j] == bones[j];
      BonesFillInOrder(prefix);
      var p := AddBones(EmptySlots, prefix);
      FreeSlotAt(p.weights, |prefix|);
      assert AddBones(EmptySlots, bones) == BoneSlots(p.ids[|prefix| := last.0], p.weights[|prefix| := last.1]);
    }
  }

  /** The first zero weight is the free slot. */
  lemma {:induction false} FreeSlotAt(weights: seq<real>, n: nat)
    requires n < |weights| && weights[n] == 0.0 && forall j :: 0 <= j < n ==> weights[j] != 0.0
    ensures FreeSlot(weights) == Some(n)
  {
    var r := FreeSlot(weights);
    assert r.Some?;
    assert !(r.value < n);
  }

  /** Once four bones with non-zero weights are in, a fifth is dropped. */
  lemma {:induction false} FifthBoneDropped(bones: seq<(nat, real)>, id: nat, weight: real)
    requires |bones| == BoneSlotCount
    requires forall j :: 0 <= j < |bones| ==> bones[j].1 != 0.0
    ensures AddBone(AddBones(EmptySlots, bones), id, weight) == AddBones(EmptySlots, bones)
  {
    BonesFillInOrder(bones);
    assert FreeSlot(AddBones(EmptySlots, bones).weights).None?;
  }

  /** `VertexBoneData`: the two fixed four-slot arrays, updated in place. */
  class VertexBoneData {
    const ids: array<nat>
    const weights: array<real>

    ghost predicate Valid()
      reads this
    {
      ids.Length == BoneSlotCount && weights.Length == BoneSlotCount
    }

    function Slots(): BoneSlots
      reads this, ids, weights
    {
      BoneSlots(ids[..], weights[..])
    }

    constructor ()
      ensures Valid() && fresh(ids) && fresh(weights) && Slots() == EmptySlots
    {
      ids := new nat[BoneSlotCount](_ => 0);
      weights := new real[BoneSlotCount](_ => 0.0);
      new;
      assert ids[..] == [0, 0, 0, 0];
      assert weights[..] == [0.0, 0.0, 0.0, 0.0];
    }

    method AddBoneData(id: nat, weight: real)
      requires Valid()
      modifies ids, weights
      ensures Valid() && Slots() == AddBone(old(Slots()), id, weight)
    {
      for i := 0 to BoneSlotCount
        invariant forall k :: 0 <= k < i ==> weights[k] != 0.0
      {
        if weights[i] == 0.0 {
          ids[i] := id;
          weights[i] := weight;
          assert FreeSlot(old(weights[..])) == Some(i);
          return;
        }
      }
    }
  }

  /**
   * `AssimpToGLMMatrix` (loader version): sixteen element writes glm[c][r] := assimp[r][c].
   * It agrees with the helper version built from the column constructor.
   */
  function LoaderToGlm(m: seq<seq<real>>): (g: seq<seq<real>>)
    requires IsMatrix(m)
    ensures IsMatrix(g)
    ensures forall c, r :: 0 <= c < 4 && 0 <= r < 4 ==> g[c][r] == m[r][c]
  {
    seq(4, c requires 0 <= c < 4 => seq(4, r requires 0 <= r < 4 => m[r][c]))
  }

  /** The two conversions give the same matrix. */
  lemma {:induction false} LoaderMatchesHelper(m: seq<seq<real>>)
    requires IsMatrix(m)
    ensures LoaderToGlm(m) == ToGlm(m)
  {
    var a, b := LoaderToGlm(m), ToGlm(m);
    forall c | 0 <= c < 4
      ensures a[c] == b[c]
    {
      assert forall r :: 0 <= r < 4 ==> a[c][r] == b[c][r];
    }
  }

  /** A `Keyframe`; `rotation == None` is the quaternion the default constructor leaves. */
  datatype Keyframe = Keyframe(timeStamp: real, position: Vec3, rotation: Option<GlmQuat>, scale: Vec3)

  /** The default scale of a `Keyframe`. */
  const UnitScale: Vec3 := Vec3(1.0, 1.0, 1.0)

  /**
   * The keyframes of one channel: one per position key; rotation and scale come from the key
   * with the same index when there is one, and keep the defaults otherwise.
   */
  function Keyframes(ch: NodeAnim): (r: seq<Keyframe>)
    ensures |r| == |ch.positions|
    ensures forall k :: 0 <= k < |r| ==>
      && r[k].timeStamp == ch.positions[k].time && r[k].position == ch.positions[k].value
      && (r[k].rotation.Some? <==> k < |ch.rotations|)
      && (k < |ch.rotations| ==> r[k].rotation == Some(ToGlmQuat(ch.rotations[k].value)))
      && r[k].scale == (if k < |ch.scalings| then ch.scalings[k].value else UnitScale)
  {
    seq(|ch.positions|, k requires 0 <= k < |ch.positions| =>
      Keyframe(ch.positions[k].time, ch.positions[k].value,
        if k < |ch.rotations| then Some(ToGlmQuat(ch.rotations[k].value)) else None,
        if k < |ch.scalings| then ch.scalings[k].value else UnitScale))
  }

  /** The inner loop of `processAnimations` over one channel's position keys. */
  method BuildKeyframes(ch: NodeAnim) returns (r: seq<Keyframe>)
    ensures r == Keyframes(ch)
  {
    r := [];
    for k := 0 to |ch.positions|
      invariant r == Keyframes(ch)[..k]
    {
      var frame := Keyframe(ch.positions[k].time, ch.positions[k].value, None, UnitScale);
      if k < |ch.rotations| {
        var q := ch.rotations[k].value;
        frame := frame.(rotation := Some(GlmQuat(q.w, q.x, q.y, q.z)));
      }
      if k < |ch.scalings| {
        frame := frame.(scale := ch.scalings[k].value);
      }
      r := r + [frame];
    }
  }

  /** The keyframe table of one animation: each channel's keyframes stored under its node name. */
  function BoneKeyframes(channels: seq<NodeAnim>): map<string, seq<Keyframe>>
  {
    if channels == [] then map[]
    else
      var last := channels[|channels| - 1];
      BoneKeyframes(channels[..|channels| - 1])[last.name := Keyframes(last)]
  }

  /** The last channel with a given name. */
  function LastChannel(channels: seq<NodeAnim>, name: string): Option<nat>
  {
    LastWhere(channels, (c: NodeAnim) => c.name, name)
  }

  /**
   * A node name is in the table exactly when some channel has it, and then it holds the
   * keyframes of the last such channel: a later channel with the same name replaces an earlier one.
   */
  lemma {:induction false} LaterChannelWins(channels: seq<NodeAnim>, name: string)
    ensures name in BoneKeyframes(channels) <==> LastChannel(channels, name).Some?
    ensures name in BoneKeyframes(channels) ==>
      BoneKeyframes(channels)[name] == Keyframes(channels[LastChannel(channels, name).value])
  {
    if channels != [] {
      var prefix := channels[..|channels| - 1];
      LaterChannelWins(prefix, name);
      if channels[|channels| - 1].name != name {
        assert LastChannel(channels, name) == LastChannel(prefix, name);
      }
    }
  }

  /** The channel loop of `processAnimations`. */
  method BuildBoneKeyframes(channels: seq<NodeAnim>) returns (r: map<string, seq<Keyframe>>)
    ensures r == BoneKeyframes(channels)
  {
    r := map[];
    for j := 0 to |channels|
      invariant r == BoneKeyframes(channels[..j])
    {
      assert channels[..j + 1][..j] == channels[..j];
      var frames := BuildKeyframes(channels[j]);
      r := r[channels[j].name := frames];
    }
    assert channels[..|channels|] == channels;
  }

  datatype AiAnimation = AiAnimation(duration: real, ticksPerSecond: real, channels: seq<NodeAnim>)
  datatype Animation = Animation(duration: real, ticksPerSecond: real, boneKeyframes: map<string, seq<Keyframe>>)

  /** The animation `processAnimations` builds from a source one: a rate of 0 becomes 25 ticks per second. */
  function Convert(a: AiAnimation): (r: Animation)
    ensures r.duration == a.duration
    ensures r.ticksPerSecond == (if a.ticksPerSecond == 0.0 then 25.0 else a.ticksPerSecond)
    ensures r.boneKeyframes == BoneKeyframes(a.channels)
  {
    Animation(a.duration, if a.ticksPerSecond != 0.0 then a.ticksPerSecond else 25.0, BoneKeyframes(a.channels))
  }

  class Skeleton {
    var animations: seq<Animation>

    constructor ()
      ensures animations == []
    {
      animations := [];
    }

    /** `processAnimations`: one converted animation appended per source animation, in order. */
    method ProcessAnimations(source: seq<AiAnimation>)
      modifies this
      ensures animations == old(animations) + seq(|source|, i requires 0 <= i < |source| => Convert(source[i]))
    {
      ghost var before := animations;
      for i := 0 to |source|
        invariant animations == before + seq(i, k requires 0 <= k < i => Convert(source[k]))
      {
        var a := source[i];
        var frames := BuildBoneKeyframes(a.channels);
        var rate := if a.ticksPerSecond != 0.0 then a.ticksPerSecond else 25.0;
        animations := animations + [Animation(a.duration, rate, frames)];
        assert seq(i + 1, k requires 0 <= k < i + 1 => Convert(source[k]))
          == seq(i, k requires 0 <= k < i => Convert(source[k])) + [Convert(source[i])];
      }
    }
  }

  /** The index list of a mesh: every face's indices, face after face. */
  function Flatten(faces: seq<seq<nat>>): seq<nat>
  {
    if faces == [] then [] else Flatten(faces[..|faces| - 1]) + faces[|faces| - 1]
  }

  function TotalSize(faces: seq<seq<nat>>): nat
  {
    if faces == [] then 0 else TotalSize(faces[..|faces| - 1]) + |faces[|faces| - 1]|
  }

  /** Flattening splits over concatenation, so face i's indices sit right after those of the faces before it. */
  lemma {:induction false} FlattenAppend(a: seq<seq<nat>>, b: seq<seq<nat>>)
    ensures Flatten(a + b) == Flatten(a) + Flatten(b)
    ensures |Flatten(a)| == TotalSize(a)
    decreases |b|
  {
    if b == [] {
      assert a + b == a;
      FlattenLength(a);
    } else {
      var b' := b[..|b| - 1];
      assert (a + b)[..|a + b| - 1] == a + b';
      FlattenAppend(a, b');
    }
  }

  /**
   * Face i's indices are the slice of the index list that starts after the indices of the
   * faces before it: no index is dropped, reordered or shared between faces.
   */
  lemma {:induction false} FaceIndicesAt(faces: seq<seq<nat>>, i: nat)
    requires i < |faces|
    ensures TotalSize(faces[..i]) + |faces[i]| <= |Flatten(faces)|
    ensures Flatten(faces)[TotalSize(faces[..i])..TotalSize(faces[..i]) + |faces[i]|] == faces[i]
  {
    var before, rest := faces[..i], faces[i + 1..];
    assert faces == before + ([faces[i]] + rest);
    FlattenAppend(before, [faces[i]] + rest);
    FlattenAppend([faces[i]], rest);
    assert Flatten([faces[i]]) == Flatten([]) + faces[i];
    FlattenLength(before);
  }

  lemma {:induction false} FlattenLength(faces: seq<seq<nat>>)
    ensures |Flatten(faces)| == TotalSize(faces)
  {
    if faces != [] {
      FlattenLength(faces[..|faces| - 1]);
    }
  }

  /**
   * The first step of `ASSIMPProcessMesh`: the mesh's id is appended to the list kept for its
   * model file, which `operator[]` creates empty on first use; every other file's list is untouched.
   */
  function RecordMeshId(mapped: map<string, seq<string>>, filePath: string, id: string): (r: map<string, seq<string>>)
    ensures filePath in r && r[filePath] == (if filePath in mapped then mapped[filePath] else []) + [id]
    ensures forall p :: p != filePath ==> (p in r <==> p in mapped)
    ensures forall p :: p != filePath && p in mapped ==> r[p] == mapped[p]
  {
    mapped[filePath := (if filePath in mapped then mapped[filePath] else []) + [id]]
  }

  /** The face loop of `ASSIMPProcessMesh`: push every index of every face in order. */
  method CollectIndices(faces: seq<seq<nat>>) returns (indices: seq<nat>)
    ensures indices == Flatten(faces)
  {
    indices := [];
    for i := 0 to |faces|
      invariant indices == Flatten(faces[..i])
    {
      assert faces[..i + 1][..i] == faces[..i];
      var face := faces[i];
      ghost var start := indices;
      for j := 0 to |face|
        invariant indices == start + face[..j]
      {
        assert face[..j + 1] == face[..j] + [face[j]];
        indices := indices + [face[j]];
      }
      assert face[..|face|] == face;
    }
    assert faces[..|faces|] == faces;
  }

  /** The position of the last occurrence of `c` (`rfind`); `None` is `npos`. */
  function LastIndexOf(s: string, c: char): (r: Option<nat>)
    ensures r.Some? <==> c in s
    ensures r.Some? ==> r.value < |s| && s[r.value] == c && c !in s[r.value + 1..]
  {
    if s == [] then None
    else if s[|s| - 1] == c then Some(|s| - 1)
    else
      var prefix := s[..|s| - 1];
      assert forall x :: x in s <==> x in prefix || x == s[|s| - 1];
      match LastIndexOf(prefix, c)
      case None => None
      case Some(i) =>
        assert s[i + 1..] == prefix[i + 1..] + [s[|s| - 1]];
        Some(i)
  }

  /** The directory of the model file: everything up to and including its last '/', or nothing without one (`npos + 1 == 0`). */
  function Directory(path: string): string
  {
    match LastIndexOf(path, '/')
    case None => []
    case Some(i) => path[..i + 1]
  }

  /** The file name: everything after the last '/', or the whole name without one. */
  function FileName(fn: string): string
  {
    match LastIndexOf(fn, '/')
    case None => fn
    case Some(i) => fn[i + 1..]
  }

  /** A path is its directory followed by its file name; the directory is empty or ends in '/', and the file name holds no '/'. */
  lemma {:induction false} PathSplits(path: string)
    ensures Directory(path) + FileName(path) == path
    ensures Directory(path) == [] || Directory(path)[|Directory(path)| - 1] == '/'
    ensures '/' !in FileName(path)
  {
    match LastIndexOf(path, '/')
    case None =>
    case Some(i) =>
      assert path[..i + 1] + path[i + 1..] == path;
  }

  /** The tag: the file name cut before its last '.'; with no '.' the `resize(npos)` throws, which is `None` here. */
  function Tag(fn: string): (r: Option<string>)
    ensures r.None? <==> '.' !in FileName(fn)
    ensures r.Some? ==> |r.value| < |FileName(fn)| && r.value == FileName(fn)[..|r.value|]
    ensures r.Some? ==> FileName(fn)[|r.value|] == '.' && '.' !in FileName(fn)[|r.value| + 1..]
  {
    var name := FileName(fn);
    match LastIndexOf(name, '.')
    case None => None
    case Some(k) => Some(name[..k])
  }

  /** The tag loop: copy the characters after the last '/' one by one, then cut at the last '.'. */
  method SliceTag(fn: string) returns (r: Option<string>)
    ensures r == Tag(fn)
  {
    var from := match LastIndexOf(fn, '/') case None => 0 case Some(i) => i + 1;
    var tag := [];
    var i := from;
    while i < |fn|
      invariant from <= i <= |fn|
      invariant tag == fn[from..i]
    {
      tag := tag + [fn[i]];
      i := i + 1;
    }
    assert tag == FileName(fn);
    r := match LastIndexOf(tag, '.') case None => None case Some(k) => Some(tag[..k]);
  }

  /** The texture types the loader acts on; every other type is read and ignored. */
  datatype TextureKind = Diffuse | Specular | Ambient | Height | OtherKind

  /** One texture of the material, in the order the loops visit them (by type, then by index). */
  datatype TextureRef = TextureRef(kind: TextureKind, file: string)

  /** The mesh's four texture handles; `None` is a null reference. */
  datatype MeshTextures = MeshTextures(diffuse: Option<RM.Handle>, specular: Option<RM.Handle>, ambient: Option<RM.Handle>, normal: Option<RM.Handle>)

  const NoTextures: MeshTextures := MeshTextures(None, None, None, None)

  function SlotOf(m: MeshTextures, kind: TextureKind): Option<RM.Handle>
  {
    match kind
    case Diffuse => m.diffuse
    case Specular => m.specular
    case Ambient => m.ambient
    case Height => m.normal
    case OtherKind => None
  }

  function WithSlot(m: MeshTextures, kind: TextureKind, h: RM.Handle): (r: MeshTextures)
    ensures kind != OtherKind ==> SlotOf(r, kind) == Some(h)
    ensures forall k :: k != kind ==> SlotOf(r, k) == SlotOf(m, k)
  {
    match kind
    case Diffuse => m.(diffuse := Some(h))
    case Specular => m.(specular := Some(h))
    case Ambient => m.(ambient := Some(h))
    case Height => m.(normal := Some(h))
    case OtherKind => m
  }

  /** What the texture loop leaves: the asset records it added, the mesh's texture handles, and whether a tag slice threw. */
  datatype TextureOutcome = TextureOutcome(added: seq<RM.SceneAsset>, slots: MeshTextures, failed: bool)

  /**
   * The texture loop over a prefix of the material's textures: each texture of a kind the
   * loader acts on is created from the model's directory plus its file name, added to the
   * asset table as `ID + tag` with type `Texture`, and becomes the mesh's texture of that kind.
   * A file name without '.' throws; nothing after it is processed.
   */
  function CollectTextures(id: string, filePath: string, refs: seq<TextureRef>, create: string -> RM.Handle): (r: TextureOutcome)
    ensures forall a :: a in r.added ==> a.kind == RM.Texture && |id| <= |a.id| && a.id[..|id|] == id
  {
    if refs == [] then TextureOutcome([], NoTextures, false)
    else
      var o := CollectTextures(id, filePath, refs[..|refs| - 1], create);
      var t := refs[|refs| - 1];
      if o.failed || t.kind == OtherKind then o
      else match Tag(t.file)
        case None => o.(failed := true)
        case Some(tag) =>
          var h := create(Directory(filePath) + t.file);
          assert (id + tag)[..|id|] == id;
          TextureOutcome(o.added + [RM.SceneAsset(id + tag, RM.Texture, h)], WithSlot(o.slots, t.kind, h), false)
  }

  /** A texture of a kind the loader acts on whose file name has no '.': its tag slice throws. */
  predicate Throws(t: TextureRef)
  {
    t.kind != OtherKind && Tag(t.file).None?
  }

  /**
   * The asset records of the texture loop, read front to back: one record `(ID + tag, Texture,
   * create(directory + file name))` per texture of a kind the loader acts on, in order, up to
   * the first file name without '.'.
   */
  function TextureRecords(id: string, filePath: string, refs: seq<TextureRef>, create: string -> RM.Handle): seq<RM.SceneAsset>
  {
    if refs == [] then []
    else if refs[0].kind == OtherKind then TextureRecords(id, filePath, refs[1..], create)
    else match Tag(refs[0].file)
      case None => []
      case Some(tag) =>
        [RM.SceneAsset(id + tag, RM.Texture, create(Directory(filePath) + refs[0].file))] + TextureRecords(id, filePath, refs[1..], create)
  }

  /** Some texture of a handled kind has a file name without '.'. */
  predicate AnyThrows(refs: seq<TextureRef>)
  {
    exists i :: 0 <= i < |refs| && Throws(refs[i])
  }

  /** Two texture lists joined throw exactly when one of them does. */
  lemma {:induction false} AnyThrowsSplit(a: seq<TextureRef>, b: seq<TextureRef>)
    ensures AnyThrows(a + b) <==> AnyThrows(a) || AnyThrows(b)
  {
    if AnyThrows(a + b) {
      var i :| 0 <= i < |a + b| && Throws((a + b)[i]);
      if i < |a| { assert a[i] == (a + b)[i]; } else { assert b[i - |a|] == (a + b)[i]; }
    }
    if AnyThrows(a) {
      var i :| 0 <= i < |a| && Throws(a[i]);
      assert (a + b)[i] == a[i];
    }
    if AnyThrows(b) {
      var i :| 0 <= i < |b| && Throws(b[i]);
      assert (a + b)[|a| + i] == b[i];
    }
  }

  /** A single texture throws iff it is handled and its file name has no '.'; otherwise it gives its one record, if handled. */
  lemma {:induction false} OneTexture(id: string, filePath: string, t: TextureRef, create: string -> RM.Handle)
    ensures AnyThrows([t]) <==> Throws(t)
    ensures TextureRecords(id, filePath, [t], create) ==
      if t.kind == OtherKind || Tag(t.file).None? then []
      else [RM.SceneAsset(id + Tag(t.file).value, RM.Texture, create(Directory(filePath) + t.file))]
  {
    assert [t][0] == t;
    assert [t][1..] == [];
  }

  /** The records of a non-empty list: none when its first texture throws, else that texture's own records and then the rest's. */
  lemma {:induction false} TextureRecordsCons(id: string, filePath: string, refs: seq<TextureRef>, create: string -> RM.Handle)
    requires refs != []
    ensures TextureRecords(id, filePath, refs, create) ==
      if Throws(refs[0]) then [] else TextureRecords(id, filePath, [refs[0]], create) + TextureRecords(id, filePath, refs[1..], create)
  {
    OneTexture(id, filePath, refs[0], create);
  }

  /** One more texture adds its own records, unless an earlier texture already threw. */
  lemma {:induction false} TextureRecordsSnoc(id: string, filePath: string, refs: seq<TextureRef>, t: TextureRef, create: string -> RM.Handle)
    ensures TextureRecords(id, filePath, refs + [t], create) ==
      if AnyThrows(refs) then TextureRecords(id, filePath, refs, create)
      else TextureRecords(id, filePath, refs, create) + TextureRecords(id, filePath, [t], create)
  {
    if refs == [] {
      assert refs + [t] == [t];
    } else {
      var x, rest := refs[0], refs[1..];
      assert refs == [x] + rest;
      assert (refs + [t])[0] == x && (refs + [t])[1..] == rest + [t];
      TextureRecordsCons(id, filePath, refs, create);
      TextureRecordsCons(id, filePath, refs + [t], create);
      AnyThrowsSplit([x], rest);
      OneTexture(id, filePath, x, create);
      if !Throws(x) {
        TextureRecordsSnoc(id, filePath, rest, t, create);
        if !AnyThrows(rest) {
          Regroup(TextureRecords(id, filePath, [x], create), TextureRecords(id, filePath, rest, create), TextureRecords(id, filePath, [t], create));
        }
      }
    }
  }

  /**
   * The texture loop's records are exactly `TextureRecords`, and it throws exactly when some
   * texture of a handled kind has a file name without '.'.
   */
  lemma {:induction false} CollectTexturesRecords(id: string, filePath: string, refs: seq<TextureRef>, create: string -> RM.Handle)
    ensures CollectTextures(id, filePath, refs, create).added == TextureRecords(id, filePath, refs, create)
    ensures CollectTextures(id, filePath, refs, create).failed <==> AnyThrows(refs)
  {
    if refs != [] {
      var prefix := refs[..|refs| - 1];
      var t := refs[|refs| - 1];
      assert refs == prefix + [t];
      CollectTexturesRecords(id, filePath, prefix, create);
      TextureRecordsSnoc(id, filePath, prefix, t, create);
      AnyThrowsSplit(prefix, [t]);
      OneTexture(id, filePath, t, create);
    }
  }

  /** The last texture of a kind among the material's textures. */
  function LastOfKind(refs: seq<TextureRef>, kind: TextureKind): Option<nat>
  {
    LastWhere(refs, (t: TextureRef) => t.kind, kind)
  }

  /**
   * When no tag slice throws, each of the mesh's texture handles is the texture created for the last
   * texture of its kind, and is null when the material has none of that kind.
   */
  lemma {:induction false} LastTextureOfKindWins(id: string, filePath: string, refs: seq<TextureRef>, create: string -> RM.Handle, kind: TextureKind)
    requires kind != OtherKind
    requires !CollectTextures(id, filePath, refs, create).failed
    ensures var s := SlotOf(CollectTextures(id, filePath, refs, create).slots, kind);
      match LastOfKind(refs, kind)
      case None => s.None?
      case Some(i) => s == Some(create(Directory(filePath) + refs[i].file))
  {
    if refs != [] {
      var prefix := refs[..|refs| - 1];
      var o := CollectTextures(id, filePath, prefix, create);
      var t := refs[|refs| - 1];
      var r := CollectTextures(id, filePath, refs, create);
      assert !o.failed;
      LastTextureOfKindWins(id, filePath, prefix, create, kind);
      if t.kind != kind {
        assert LastOfKind(refs, kind) == LastOfKind(prefix, kind);
        assert SlotOf(r.slots, kind) == SlotOf(o.slots, kind);
      } else {
        assert LastOfKind(refs, kind) == Some(|refs| - 1);
        assert r.slots == WithSlot(o.slots, kind, create(Directory(filePath) + t.file));
      }
    }
  }

  /** The texture loop of `ASSIMPProcessMesh`, adding each record to the asset table as it goes. */
  method ProcessTextures(table: RM.AssetTable, id: string, filePath: string, refs: seq<TextureRef>, create: string -> RM.Handle)
    returns (slots: MeshTextures, failed: bool)
    modifies table
    ensures var o := CollectTextures(id, filePath, refs, create);
      slots == o.slots && failed == o.failed && table.loadedAssets == old(table.loadedAssets) + o.added
    ensures table.loadedAssets == old(table.loadedAssets) + TextureRecords(id, filePath, refs, create)
    ensures failed <==> AnyThrows(refs)
  {
    slots, failed := NoTextures, false;
    ghost var before := table.loadedAssets;
    var i := 0;
    while i < |refs| && !failed
      invariant 0 <= i <= |refs|
      invariant var o := CollectTextures(id, filePath, refs[..i], create);
        slots == o.slots && failed == o.failed && table.loadedAssets == before + o.added
      invariant failed ==> CollectTextures(id, filePath, refs, create) == CollectTextures(id, filePath, refs[..i], create)
    {
      assert refs[..i + 1][..i] == refs[..i];
      var t := refs[i];
      if t.kind != OtherKind {
        var tag := SliceTag(t.file);
        if tag.None? {
          failed := true;
          FailureSticks(id, filePath, refs, create, i + 1);
        } else {
          var h := create(Directory(filePath) + t.file);
          ghost var o := CollectTextures(id, filePath, refs[..i], create);
          h := table.AddAsset(id + tag.value, RM.Texture, h);
          Regroup(before, o.added, [RM.SceneAsset(id + tag.value, RM.Texture, h)]);
          slots := WithSlot(slots, t.kind, h);
        }
      }
      i := i + 1;
    }
    if !failed {
      assert refs[..i] == refs;
    }
    CollectTexturesRecords(id, filePath, refs, create);
  }

  /** Once a tag slice has thrown, the later textures change nothing. */
  lemma {:induction false} FailureSticks(id: string, filePath: string, refs: seq<TextureRef>, create: string -> RM.Handle, n: nat)
    requires n <= |refs| && CollectTextures(id, filePath, refs[..n], create).failed
    ensures CollectTextures(id, filePath, refs, create) == CollectTextures(id, filePath, refs[..n], create)
    decreases |refs| - n
  {
    if n < |refs| {
      assert refs[..n + 1][..n] == refs[..n];
      FailureSticks(id, filePath, refs, create, n + 1);
    } else {
      assert refs[..n] == refs;
    }
  }

  /** The material `ASSIMPProcessMesh` records: its shader, five texture slots, and the batched flag. */
  datatype MeshMaterial = MeshMaterial(shader: nat, textures: seq<RM.Handle>, batched: bool)

  /**
   * The material's textures: five slots start at the default texture; diffuse goes to slot 0,
   * specular to 1, ambient to 3 and height (the normal map) to 4; slot 2 always keeps the
   * default; the material is created unbatched.
   */
  method BuildMaterial(shader: nat, m: MeshTextures, defaultTexture: RM.Handle) returns (r: MeshMaterial)
    ensures r.shader == shader && !r.batched && |r.textures| == 5
    ensures r.textures[0] == (if m.diffuse.Some? then m.diffuse.value else defaultTexture)
    ensures r.textures[1] == (if m.specular.Some? then m.specular.value else defaultTexture)
    ensures r.textures[2] == defaultTexture
    ensures r.textures[3] == (if m.ambient.Some? then m.ambient.value else defaultTexture)
    ensures r.textures[4] == (if m.normal.Some? then m.normal.value else defaultTexture)
  {
    var textures := new RM.Handle[5];
    for i := 0 to 5
      invariant forall k :: 0 <= k < i ==> textures[k] == defaultTexture
    {
      textures[i] := defaultTexture;
    }
    if m.diffuse.Some? {
      textures[0] := m.diffuse.value;
    }
    if m.specular.Some? {
      textures[1] := m.specular.value;
    }
    if m.ambient.Some? {
      textures[3] := m.ambient.value;
    }
    if m.normal.Some? {
      textures[4] := m.normal.value;
    }
    r := MeshMaterial(shader, textures[..], false);
  }

  /** The default diffuse tint of a `TempMesh`. */
  const White: Vec3 := Vec3(1.0, 1.0, 1.0)

  /**
   * The diffuse tint: when the material has a diffuse colour, a mesh without a diffuse texture
   * takes that colour and a textured one is reset to white; without a colour the default
   * white stays.
   */
  function DiffuseTint(colour: Option<Vec3>, textured: bool): (t: Vec3)
    ensures textured ==> t == White
    ensures colour.None? ==> t == White
    ensures colour.Some? && !textured ==> t == colour.value
  {
    match colour
    case None => White
    case Some(c) => if !textured then c else White
  }
}
