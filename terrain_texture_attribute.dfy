/** A terrain attribute referring to a texture, with UV offset, scale and channel. */
module TextureAttributes {
  import opened Tokens
  import opened Wrappers

  /** A texture, by its handle; 0 stands for no texture. */
  type Texture = int

  /** The texture descriptor: the texture and, abstracted into one number,
      its filter and wrap settings. */
  datatype TextureDescriptor = TextureDescriptor(texture: Texture, sampling: int)

  /** A descriptor as freshly constructed: no texture, default settings. */
  const EmptyDescriptor := TextureDescriptor(0, 0)

  /** Ordering of descriptors, lexicographic on the texture and then the
      settings, returning a difference as the descriptor's own compareTo does. */
  function CompareDescriptors(a: TextureDescriptor, b: TextureDescriptor): (r: int)
    ensures r == 0 <==> a == b
  {
    if a.texture != b.texture then a.texture - b.texture else a.sampling - b.sampling
  }

  lemma CompareDescriptorsAntisymmetric(a: TextureDescriptor, b: TextureDescriptor)
    ensures CompareDescriptors(a, b) == -CompareDescriptors(b, a)
  {
  }

  /** A rectangle of a texture: its texture and the corners (u, v) and (u2, v2). */
  datatype TextureRegion = TextureRegion(texture: Texture, u: real, v: real, u2: real, v2: real)

  /** What a texture attribute holds. */
  datatype TextureValue = TextureValue(
    token: Token, descriptor: TextureDescriptor,
    offsetU: real, offsetV: real, scaleU: real, scaleV: real, uvIndex: int)

  /** The union of the three texture tokens. */
  const TextureMask: Mask := {DiffuseHeight, DiffuseBase, DiffuseSlope}

  /** Whether a mask names at least one texture type. */
  predicate Is(mask: Mask) {
    mask * TextureMask != {}
  }

  lemma IsExactlyTheTextureTokens(t: Token)
    ensures Is({t}) <==> t == DiffuseBase || t == DiffuseHeight || t == DiffuseSlope
    ensures !Is({MinSlope})
  {
    assert t in {t} * TextureMask <==> t in TextureMask;
  }

  /** Comparison of two texture values of the same type, lexicographic in
      the order descriptor, UV channel, U scale, V scale, U offset, V offset. */
  function CompareSameType(a: TextureValue, b: TextureValue): int {
    var c := CompareDescriptors(a.descriptor, b.descriptor);
    if c != 0 then c
    else if a.uvIndex != b.uvIndex then a.uvIndex - b.uvIndex
    else if a.scaleU != b.scaleU then (if a.scaleU > b.scaleU then 1 else -1)
    else if a.scaleV != b.scaleV then (if a.scaleV > b.scaleV then 1 else -1)
    else if a.offsetU != b.offsetU then (if a.offsetU > b.offsetU then 1 else -1)
    else if a.offsetV != b.offsetV then (if a.offsetV > b.offsetV then 1 else -1)
    else 0
  }

  /** The comparison is a consistent ordering: antisymmetric, and zero exactly
      for equal values of one type. */
  lemma CompareSameTypeIsOrdering(a: TextureValue, b: TextureValue)
    requires a.token == b.token
    ensures CompareSameType(a, b) == -CompareSameType(b, a)
    ensures CompareSameType(a, b) == 0 <==> a == b
  {
  }

  /** The first differing field, in the order descriptor, channel, U scale,
      V scale, U offset, V offset, decides the sign; later fields are not
      looked at. */
  lemma CompareSameTypeIsLexicographic(a: TextureValue, b: TextureValue)
    ensures a.descriptor != b.descriptor ==>
              (CompareSameType(a, b) < 0 <==> CompareDescriptors(a.descriptor, b.descriptor) < 0)
    ensures a.descriptor == b.descriptor && a.uvIndex != b.uvIndex ==>
              (CompareSameType(a, b) < 0 <==> a.uvIndex < b.uvIndex)
    ensures a.descriptor == b.descriptor && a.uvIndex == b.uvIndex && a.scaleU != b.scaleU ==>
              (CompareSameType(a, b) < 0 <==> a.scaleU < b.scaleU)
    ensures a.descriptor == b.descriptor && a.uvIndex == b.uvIndex && a.scaleU == b.scaleU &&
            a.scaleV != b.scaleV ==>
              (CompareSameType(a, b) < 0 <==> a.scaleV < b.scaleV)
    ensures a.descriptor == b.descriptor && a.uvIndex == b.uvIndex && a.scaleU == b.scaleU &&
            a.scaleV == b.scaleV && a.offsetU != b.offsetU ==>
              (CompareSameType(a, b) < 0 <==> a.offsetU < b.offsetU)
    ensures a.descriptor == b.descriptor && a.uvIndex == b.uvIndex && a.scaleU == b.scaleU &&
            a.scaleV == b.scaleV && a.offsetU == b.offsetU ==>
              (CompareSameType(a, b) < 0 <==> a.offsetV < b.offsetV)
  {
  }

  class TerrainTextureAttribute {
    const token: Token
    var descriptor: TextureDescriptor
    var offsetU: real
    var offsetV: real
    var scaleU: real
    var scaleV: real
    /** The texture-coordinate channel to sample with. */
    var uvIndex: int

    /** Every object the constructors return has a texture type. */
    predicate Valid() {
      Is({token})
    }

    /** The field assignments every constructor performs once the type is
        known to be a texture type. */
    constructor Init(token: Token, descriptor: TextureDescriptor,
                     offsetU: real, offsetV: real, scaleU: real, scaleV: real, uvIndex: int)
      requires Is({token})
      ensures Valid()
      ensures Snapshot() == TextureValue(token, descriptor, offsetU, offsetV, scaleU, scaleV, uvIndex)
    {
      this.token := token;
      this.descriptor := descriptor;
      this.offsetU := offsetU;
      this.offsetV := offsetV;
      this.scaleU := scaleU;
      this.scaleV := scaleV;
      this.uvIndex := uvIndex;
    }

    /** Construction from a type alone: fails with InvalidType unless the
        type is a texture type; otherwise no offset, unit scale, channel 0. */
    static method New(token: Token) returns (r: Result<TerrainTextureAttribute>)
      ensures r.Err? <==> !Is({token})
      ensures r.Err? ==> r.error == InvalidType
      ensures r.Ok? ==> fresh(r.value) && r.value.Valid()
      ensures r.Ok? ==> r.value.Snapshot() == TextureValue(token, EmptyDescriptor, 0.0, 0.0, 1.0, 1.0, 0)
    {
      if !Is({token}) {
        return Err(InvalidType);
      }
      var a := new TerrainTextureAttribute.Init(token, EmptyDescriptor, 0.0, 0.0, 1.0, 1.0, 0);
      r := Ok(a);
    }

    /** Construction with a descriptor, offsets, scales and channel; the
        source's shorter overloads pass 0, 0, 1, 1 and channel 0. */
    static method NewWithDescriptor(token: Token, descriptor: TextureDescriptor,
                                    offsetU: real, offsetV: real, scaleU: real, scaleV: real, uvIndex: int)
      returns (r: Result<TerrainTextureAttribute>)
      ensures r.Err? <==> !Is({token})
      ensures r.Err? ==> r.error == InvalidType
      ensures r.Ok? ==> fresh(r.value) && r.value.Valid()
      ensures r.Ok? ==> r.value.Snapshot() == TextureValue(token, descriptor, offsetU, offsetV, scaleU, scaleV, uvIndex)
    {
      if !Is({token}) {
        return Err(InvalidType);
      }
      var a := new TerrainTextureAttribute.Init(token, descriptor, offsetU, offsetV, scaleU, scaleV, uvIndex);
      r := Ok(a);
    }

    /** Construction with a texture: the default attribute with that texture. */
    static method NewWithTexture(token: Token, texture: Texture) returns (r: Result<TerrainTextureAttribute>)
      ensures r.Err? <==> !Is({token})
      ensures r.Err? ==> r.error == InvalidType
      ensures r.Ok? ==> fresh(r.value) && r.value.Valid()
      ensures r.Ok? ==> r.value.Snapshot() == TextureValue(token, EmptyDescriptor.(texture := texture), 0.0, 0.0, 1.0, 1.0, 0)
    {
      if !Is({token}) {
        return Err(InvalidType);
      }
      var a := new TerrainTextureAttribute.Init(token, EmptyDescriptor, 0.0, 0.0, 1.0, 1.0, 0);
      a.descriptor := a.descriptor.(texture := texture);
      r := Ok(a);
    }

    /** Construction with a region: the default attribute, then `SetRegion`. */
    static method NewWithRegion(token: Token, region: TextureRegion) returns (r: Result<TerrainTextureAttribute>)
      ensures r.Err? <==> !Is({token})
      ensures r.Err? ==> r.error == InvalidType
      ensures r.Ok? ==> fresh(r.value) && r.value.Valid()
      ensures r.Ok? ==> r.value.Snapshot() == TextureValue(token, EmptyDescriptor.(texture := region.texture),
                          region.u, region.v, region.u2 - region.u, region.v2 - region.v, 0)
    {
      if !Is({token}) {
        return Err(InvalidType);
      }
      var a := new TerrainTextureAttribute.Init(token, EmptyDescriptor, 0.0, 0.0, 1.0, 1.0, 0);
      a.SetRegion(region);
      r := Ok(a);
    }

    static method CreateDiffuseBase(texture: Texture) returns (a: TerrainTextureAttribute)
      ensures fresh(a) && a.Valid() && a.token == DiffuseBase
      ensures a.Snapshot() == TextureValue(DiffuseBase, EmptyDescriptor.(texture := texture), 0.0, 0.0, 1.0, 1.0, 0)
    {
      IsExactlyTheTextureTokens(DiffuseBase);
      a := new TerrainTextureAttribute.Init(DiffuseBase, EmptyDescriptor.(texture := texture), 0.0, 0.0, 1.0, 1.0, 0);
    }

    static method CreateDiffuseSlope(texture: Texture) returns (a: TerrainTextureAttribute)
      ensures fresh(a) && a.Valid() && a.token == DiffuseSlope
      ensures a.Snapshot() == TextureValue(DiffuseSlope, EmptyDescriptor.(texture := texture), 0.0, 0.0, 1.0, 1.0, 0)
    {
      IsExactlyTheTextureTokens(DiffuseSlope);
      a := new TerrainTextureAttribute.Init(DiffuseSlope, EmptyDescriptor.(texture := texture), 0.0, 0.0, 1.0, 1.0, 0);
    }

    static method CreateDiffuseHeight(texture: Texture) returns (a: TerrainTextureAttribute)
      ensures fresh(a) && a.Valid() && a.token == DiffuseHeight
      ensures a.Snapshot() == TextureValue(DiffuseHeight, EmptyDescriptor.(texture := texture), 0.0, 0.0, 1.0, 1.0, 0)
    {
      IsExactlyTheTextureTokens(DiffuseHeight);
      a := new TerrainTextureAttribute.Init(DiffuseHeight, EmptyDescriptor.(texture := texture), 0.0, 0.0, 1.0, 1.0, 0);
    }

    /** Points the attribute at a texture region: the offset is the region's
        first corner and the scale spans to its second corner. */
    method SetRegion(region: TextureRegion)
      modifies this
      ensures descriptor == old(descriptor).(texture := region.texture)
      ensures offsetU == region.u && offsetV == region.v
      ensures scaleU == region.u2 - region.u && scaleV == region.v2 - region.v
      ensures offsetU + scaleU == region.u2 && offsetV + scaleV == region.v2
      ensures uvIndex == old(uvIndex)
    {
      descriptor := descriptor.(texture := region.texture);
      offsetU := region.u;
      offsetV := region.v;
      scaleU := region.u2 - offsetU;
      scaleV := region.v2 - offsetV;
    }

    /** A new object with the same type, descriptor, offsets, scales and channel. */
    method Copy() returns (c: TerrainTextureAttribute)
      requires Valid()
      ensures fresh(c) && c.Valid() && c.Snapshot() == Snapshot()
    {
      c := new TerrainTextureAttribute.Init(token, descriptor, offsetU, offsetV, scaleU, scaleV, uvIndex);
    }

    function Snapshot(): (v: TextureValue)
      reads this
      ensures v.token == token
    {
      TextureValue(token, descriptor, offsetU, offsetV, scaleU, scaleV, uvIndex)
    }
  }
}
