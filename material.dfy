/**
 * `Material` of the batched 3D renderer: a shader, at most one texture, a tint and a bit
 * field of flags.  The flags are only ever OR-ed in, by the constructors.
 */
module Materials {
  import opened Wrappers
  import opened RendererCommon

  const FlagBatched: bv32 := 1
  const FlagTexture: bv32 := 2
  const FlagTint: bv32 := 4

  /** `isFlagSet(f)`: true when any bit of `f` is set in the flags; for one of the three flags, exactly when OR-ing it in changes nothing. */
  predicate HasFlag(flags: bv32, f: bv32): (r: bool)
    ensures f in {FlagBatched, FlagTexture, FlagTint} ==> (r <==> flags | f == flags)
    ensures r ==> flags != 0 && f != 0
  {
    flags & f != 0
  }

  /** The flag constants are three distinct single bits. */
  lemma {:induction false} FlagsAreDistinctBits()
    ensures FlagBatched & FlagTexture == 0 && FlagBatched & FlagTint == 0 && FlagTexture & FlagTint == 0
    ensures FlagBatched == 1 << 0 && FlagTexture == 1 << 1 && FlagTint == 1 << 2
  {
  }

  /**
   * The flags a constructor leaves: `batched` when requested, `texture` for the texture
   * constructors and `tint` for the tint constructors, and no other bit.
   */
  function InitialFlags(batched: bool, textured: bool, tinted: bool): (f: bv32)
    ensures HasFlag(f, FlagBatched) == batched
    ensures HasFlag(f, FlagTexture) == textured
    ensures HasFlag(f, FlagTint) == tinted
    ensures f & !(FlagBatched | FlagTexture | FlagTint) == 0
  {
    (if batched then FlagBatched else 0) | (if textured then FlagTexture else 0) | (if tinted then FlagTint else 0)
  }

  /** Setting a flag never clears one: what was set stays set. */
  lemma {:induction false} SetFlagKeeps(flags: bv32, f: bv32, g: bv32)
    requires HasFlag(flags, f)
    ensures HasFlag(flags | g, f)
  {
  }

  class Material {
    const shader: nat
    var flags: bv32
    var texture: Option<nat>
    var tint: Colour

    /** `Material(shader, batched)`: no texture, tint (0, 0, 0, 0), only `batched` possibly set. */
    constructor Plain(shader: nat, batched: bool)
      ensures this.shader == shader && texture == None && tint == Rgba(0.0, 0.0, 0.0, 0.0)
      ensures flags == InitialFlags(batched, false, false)
    {
      this.shader := shader;
      flags := 0;
      texture := None;
      tint := Rgba(0.0, 0.0, 0.0, 0.0);
      new;
      if batched {
        SetFlag(FlagBatched);
      }
    }

    /** `Material(shader, texture, tint, batched)`: sets texture and tint, and batched when requested. */
    constructor TexturedTinted(shader: nat, texture: nat, tint: Colour, batched: bool)
      ensures this.shader == shader && this.texture == Some(texture) && this.tint == tint
      ensures flags == InitialFlags(batched, true, true)
    {
      this.shader := shader;
      flags := 0;
      this.texture := Some(texture);
      this.tint := tint;
      new;
      if batched {
        SetFlag(FlagBatched);
      }
      SetFlag(FlagTexture | FlagTint);
    }

    /** `Material(shader, texture, batched)`: tint (0, 0, 0, 0); sets texture, and batched when requested. */
    constructor Textured(shader: nat, texture: nat, batched: bool)
      ensures this.shader == shader && this.texture == Some(texture) && tint == Rgba(0.0, 0.0, 0.0, 0.0)
      ensures flags == InitialFlags(batched, true, false)
    {
      this.shader := shader;
      flags := 0;
      this.texture := Some(texture);
      tint := Rgba(0.0, 0.0, 0.0, 0.0);
      new;
      if batched {
        SetFlag(FlagBatched);
      }
      SetFlag(FlagTexture);
    }

    /** `Material(shader, tint, batched)`: no texture; sets tint, and batched when requested. */
    constructor Tinted(shader: nat, tint: Colour, batched: bool)
      ensures this.shader == shader && texture == None && this.tint == tint
      ensures flags == InitialFlags(batched, false, true)
    {
      this.shader := shader;
      flags := 0;
      texture := None;
      this.tint := tint;
      new;
      if batched {
        SetFlag(FlagBatched);
      }
      SetFlag(FlagTint);
    }

    /** `isFlagSet(flag)`: `HasFlag` on the current flags. */
    predicate IsFlagSet(f: bv32): (r: bool)
      reads this
      ensures r <==> HasFlag(flags, f)
    {
      HasFlag(flags, f)
    }

    /** `setFlag`: OR the bit in. */
    method SetFlag(f: bv32)
      modifies this
      ensures flags == old(flags) | f
      ensures texture == old(texture) && tint == old(tint)
    {
      flags := flags | f;
    }

    /** `setTexture`: replaces the texture and nothing else, flags included. */
    method SetTexture(t: Option<nat>)
      modifies this
      ensures texture == t && flags == old(flags) && tint == old(tint)
    {
      texture := t;
    }

    /** `setTint`: replaces the tint and nothing else, flags included. */
    method SetTint(t: Colour)
      modifies this
      ensures tint == t && flags == old(flags) && texture == old(texture)
    {
      tint := t;
    }
  }
}
