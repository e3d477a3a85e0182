/**
 * The assimp helper functions: the matrix conversion, the channel search and the keyframe
 * index searches that animation sampling starts from.
 *
 * Matrices are 4×4 sequences of reals: an assimp matrix is a list of rows (a, b, c, d), a glm
 * matrix a list of columns. Key times are reals; the `double` to `float` conversion of a key
 * time and the interpolation arithmetic are not part of this model.
 */
module AssimpHelpers {
  import opened Wrappers

  predicate IsMatrix(m: seq<seq<real>>)
  {
    |m| == 4 && forall i :: 0 <= i < 4 ==> |m[i]| == 4
  }

  /**
   * `AssimpToGLMMatrix` (helper version): the glm constructor takes its sixteen scalars
   * column by column, and column j is given assimp's a_j, b_j, c_j, d_j, so the result is the
   * transpose: glm[c][r] == assimp[r][c].
   */
  function ToGlm(m: seq<seq<real>>): (g: seq<seq<real>>)
    requires IsMatrix(m)
    ensures IsMatrix(g)
    ensures forall c, r :: 0 <= c < 4 && 0 <= r < 4 ==> g[c][r] == m[r][c]
  {
    [ [m[0][0], m[1][0], m[2][0], m[3][0]],
      [m[0][1], m[1][1], m[2][1], m[3][1]],
      [m[0][2], m[1][2], m[2][2], m[3][2]],
      [m[0][3], m[1][3], m[2][3], m[3][3]] ]
  }

  /** Converting twice gives the matrix back: the conversion loses and invents nothing. */
  lemma {:induction false} ToGlmTwice(m: seq<seq<real>>)
    requires IsMatrix(m)
    ensures ToGlm(ToGlm(m)) == m
  {
    var g := ToGlm(ToGlm(m));
    forall i | 0 <= i < 4
      ensures g[i] == m[i]
    {
      assert forall j :: 0 <= j < 4 ==> g[i][j] == m[i][j];
    }
  }

  datatype Vec3 = Vec3(x: real, y: real, z: real)

  /** An assimp quaternion and a glm quaternion, both written w, x, y, z. */
  datatype AiQuat = AiQuat(w: real, x: real, y: real, z: real)
  datatype GlmQuat = GlmQuat(w: real, x: real, y: real, z: real)

  /**
   * `AssimpToGLMQuat` as shipped: it passes (x, y, z, w) to glm's constructor, whose
   * parameters are (w, x, y, z), so every component lands one place over.
   */
  function ToGlmQuatAsWritten(q: AiQuat): (r: GlmQuat)
    ensures r.w == q.x && r.x == q.y && r.y == q.z && r.z == q.w
  {
    GlmQuat(q.x, q.y, q.z, q.w)
  }

  /** The identity rotation comes out as a half turn about z. */
  lemma {:induction false} QuatShuffleBreaksIdentity()
    ensures ToGlmQuatAsWritten(AiQuat(1.0, 0.0, 0.0, 0.0)) == GlmQuat(0.0, 0.0, 0.0, 1.0)
    ensures ToGlmQuatAsWritten(AiQuat(1.0, 0.0, 0.0, 0.0)) != GlmQuat(1.0, 0.0, 0.0, 0.0)
  {
  }

  /** The conversion evidently intended (and the one `processAnimations` writes out by hand): component for component. */
  function ToGlmQuat(q: AiQuat): (r: GlmQuat)
    ensures r.w == q.w && r.x == q.x && r.y == q.y && r.z == q.z
  {
    GlmQuat(q.w, q.x, q.y, q.z)
  }

  /** An `aiVectorKey` or `aiQuatKey`: a key time and its value. */
  datatype Key<V> = Key(time: real, value: V)
  type VecKey = Key<Vec3>
  type QuatKey = Key<AiQuat>

  /** An `aiNodeAnim`: the channel's node name and its three key lists. */
  datatype NodeAnim = NodeAnim(name: string, positions: seq<VecKey>, rotations: seq<QuatKey>, scalings: seq<VecKey>)

  /** The first channel named `name`, in channel order. */
  function FirstChannel(channels: seq<NodeAnim>, name: string): Option<nat>
  {
    FirstWhere(channels, (c: NodeAnim) => c.name, name)
  }

  /** `findNodeAnim`: return the first channel whose name matches; `None` is the null reference. */
  method FindNodeAnim(channels: seq<NodeAnim>, name: string) returns (r: Option<NodeAnim>)
    ensures FirstChannel(channels, name).None? ==> r.None?
    ensures FirstChannel(channels, name).Some? ==> r == Some(channels[FirstChannel(channels, name).value])
  {
    var i := 0;
    while i < |channels|
      invariant 0 <= i <= |channels|
      invariant forall k :: 0 <= k < i ==> channels[k].name != name
    {
      if channels[i].name == name {
        return Some(channels[i]);
      }
      i := i + 1;
    }
    return None;
  }

  /** The search of `find*Index` from position i on: the first i ≤ n−2 with time < times[i+1], else 0. */
  function KeyIndexFrom(time: real, times: seq<real>, i: nat): (r: nat)
    requires 0 < |times|
    ensures r < |times|
    ensures r > 0 || (|times| > 1 && time < times[1]) || (forall j :: i < j < |times| ==> time >= times[j])
    ensures r == 0 || (i <= r < |times| - 1 && time < times[r + 1] && forall j :: i < j <= r ==> time >= times[j])
    decreases |times| - i
  {
    if i >= |times| - 1 then 0
    else if time < times[i + 1] then i
    else KeyIndexFrom(time, times, i + 1)
  }

  function KeyIndex(time: real, times: seq<real>): nat
    requires 0 < |times|
  {
    KeyIndexFrom(time, times, 0)
  }

  /**
   * `findScalingIndex` / `findRotationIndex` / `findPositionIndex`, which differ only in the key
   * list they read: the least i ≤ n−2 with time < times[i+1]; when there is none the assert
   * fires, or with assertions off the result is 0.
   */
  method FindKeyIndex(time: real, times: seq<real>) returns (r: nat)
    requires 0 < |times|
    ensures r == KeyIndex(time, times)
  {
    var i := 0;
    while i < |times| - 1
      invariant 0 <= i <= |times| - 1
      invariant KeyIndexFrom(time, times, i) == KeyIndex(time, times)
    {
      if time < times[i + 1] {
        return i;
      }
      i := i + 1;
    }
    return 0;
  }

  ghost predicate Ascending(times: seq<real>)
  {
    forall i, j :: 0 <= i < j < |times| ==> times[i] <= times[j]
  }

  /** On ascending key times, a time inside [first, last) lies in [times[i], times[i+1]) for the index found. */
  lemma {:induction false} KeyIndexBrackets(time: real, times: seq<real>)
    requires 1 < |times| && Ascending(times) && times[0] <= time < times[|times| - 1]
    ensures var i := KeyIndex(time, times); i + 1 < |times| && times[i] <= time < times[i + 1]
  {
    var i := KeyIndexFrom(time, times, 0);
    assert KeyIndex(time, times) == i;
    if i > 0 {
      assert time >= times[i];
    }
  }

  /** At or past the last key, and with a single key, the search falls through to 0 (the `assert(0)` path). */
  lemma {:induction false} KeyIndexPastEnd(time: real, times: seq<real>)
    requires 0 < |times|
    ensures (time >= times[|times| - 1] && Ascending(times)) || |times| == 1 ==> KeyIndex(time, times) == 0
  {
  }

  /** What `interpolate*` reads: key 0 alone when there is one key, else the found key and the next. */
  datatype Sample = Single | Between(index: nat, next: nat)

  /** The index pair `interpolate*` uses; the next index is always inside the key list. */
  function SampleKeys(time: real, times: seq<real>): (s: Sample)
    requires 0 < |times|
    ensures |times| == 1 <==> s.Single?
    ensures s.Between? ==> s.next == s.index + 1 && s.next < |times|
  {
    if |times| == 1 then Single
    else var i := KeyIndex(time, times); Between(i, i + 1)
  }

  /** The key times of a key list. */
  function KeyTimes<V>(keys: seq<Key<V>>): (r: seq<real>)
    ensures |r| == |keys| && forall i :: 0 <= i < |keys| ==> r[i] == keys[i].time
  {
    seq(|keys|, i requires 0 <= i < |keys| => keys[i].time)
  }

  /** `interpolateScaling` / `interpolatePosition` with one key: that key's value, unchanged. */
  function SingleVecKey(keys: seq<VecKey>): (v: Vec3)
    requires |keys| == 1
    ensures v == keys[0].value
    ensures SampleKeys(0.0, KeyTimes(keys)).Single?
  {
    keys[0].value
  }

  /** `interpolateRotation` with one key: that key's rotation, through the intended component-wise conversion. */
  function SingleQuatKey(keys: seq<QuatKey>): (q: GlmQuat)
    requires |keys| == 1
    ensures q.w == keys[0].value.w && q.x == keys[0].value.x && q.y == keys[0].value.y && q.z == keys[0].value.z
    ensures SampleKeys(0.0, KeyTimes(keys)).Single?
  {
    ToGlmQuat(keys[0].value)
  }
}
