# Terrain attributes and height query, in Dafny

This project models the terrain package of a libGDX game. It has two parts.

**The terrain material and its attribute container.**
- A `TerrainAttributes` container holds at most one attribute per type. It keeps three things:
  - a cached `mask`, the bitwise OR of the types it holds;
  - the attributes themselves, in an array;
  - a `sorted` flag.
- `set`, `remove` and `clear` change the container in place. `has`, `get`, `indexOf`, `same`, `equals` and `compareTo` query it.
- A `TerrainMaterial` is a named container. Default names come from a shared counter (`mtl1`, `mtl2`, ...). A material can be built from a list of attributes and can be deep-copied.
- Two kinds of attribute are stored:
  - the float attribute (the minimum slope);
  - the texture attribute (base, slope and height textures, each with a UV offset, a scale and a channel).
  - Each kind has a type check, `copy` and `compareTo`.

**The height query of the height-map terrain.**
- `getHeightAtWorldCoord` makes the point relative to the terrain's translation and finds its grid cell.
- Outside the grid it returns 0.
- Inside, it chooses one of the cell's two triangles, interpolates the three corner samples barycentrically and scales the result by the height magnitude.

Model layout:

| file | module | what it holds |
|---|---|---|
| `wrappers.dfy` | Wrappers | `Option`, `Result` and the two exceptions the source can raise |
| `tokens.dfy` | Tokens | attribute types as bit indices, masks as sets of them, Java's signed `long` order, and the truncated type difference |
| `terrain_float_attribute.dfy` | FloatAttributes | the float attribute class |
| `terrain_texture_attribute.dfy` | TextureAttributes | the texture attribute class, `is`, and the texture comparison |
| `terrain_attribute.dfy` | Attributes | an attribute of either kind, and the comparison and copy that dispatch on the kind |
| `attribute_seq.dfy` | AttributeSeq | specification functions over the container's contents, and their lemmas |
| `terrain_attributes.dfy` | AttributeContainer | the container class, with its loops proved against `AttributeSeq` |
| `terrain_material.dfy` | Materials | default names, the counter, the material class and its deep copy |
| `height_map_terrain.dfy` | HeightMap | the height query and `barryCentric`, over `real` |

**How types and masks are modelled.**
- An attribute type is a Java `long` with one bit set. The model names it by the index of that bit (`Token`, below 64).
- A mask is the set of its bits' indices. So `|` becomes union, `& ~` becomes difference, and `(m & t) == t` becomes inclusion.
- `SingleBitTests` connects the single-bit tests of the source to set membership.
- Java's signed order on `long`s is `LongLess`, decided from the top bit down; bit 63 alone is negative.

**The container's invariant.** `TerrainAttributes.Valid()` holds between public operations. It states:
- `mask` is the union of the contained types;
- the types are unique;
- every texture attribute has a texture type;
- the attributes are sorted ascending by type, and `sorted` is true.

Each state-changing method states its whole new state as a function of the old one (`SetSpec`, `SetAll`, `Keep`). The lemmas in `AttributeSeq` prove what those functions promise.

## Model

| member | source | states |
|---|---|---|
| Tokens.TypeCompare | core/src/com/mygdx/game/terrains/attributes/TerrainAttributes.java:184-186 | the intended type comparator: negative, zero or positive exactly as the first type is below, equal to or above the second in signed `long` order |
| Tokens.TypeCompareAntisymmetric | core/src/com/mygdx/game/terrains/attributes/TerrainAttributes.java:184-186 | swapping the two types negates the comparison |
| Tokens.TruncatedDifferenceMisorders | core/src/com/mygdx/game/terrains/attributes/TerrainAttributes.java:185 | the comparator as written calls bit 32 smaller than bit 0, and bits 33 and 32 equal, while the true order is the other way |
| Tokens.TruncatedDifferenceAgreesUpToBit31 | core/src/com/mygdx/game/terrains/attributes/TerrainFloatAttribute.java:55 | for types among bits 0 to 31, the truncated difference has the sign of the true order, so the misordering needs a type on bit 32 or above |
| Tokens.LongLessTotal | core/src/com/mygdx/game/terrains/attributes/TerrainAttributes.java:222-223 | `mask < other.mask` on longs is irreflexive and asymmetric, and it relates any two different masks one way |
| Tokens.SignBitIsLeast | core/src/com/mygdx/game/terrains/attributes/TerrainAttributes.java:222-223 | a mask with the sign bit set is below every mask without it |
| Tokens.SingleBitTests | core/src/com/mygdx/game/terrains/attributes/TerrainAttributes.java:61 | for a one-bit type, both `(m & t) != 0` and `(m & t) == t` mean that bit `t` is set in `m` |
| FloatAttributes.CompareValues | core/src/com/mygdx/game/terrains/attributes/TerrainFloatAttribute.java:57 | same-type float comparison is 0 exactly for equal values, negative exactly when this value is smaller, positive otherwise |
| FloatAttributes.TerrainFloatAttribute.constructor | core/src/com/mygdx/game/terrains/attributes/TerrainFloatAttribute.java:30-34 | a float attribute built from a type alone has value 0 |
| FloatAttributes.TerrainFloatAttribute.WithValue | core/src/com/mygdx/game/terrains/attributes/TerrainFloatAttribute.java:36-39 | the attribute has the given type and value |
| FloatAttributes.TerrainFloatAttribute.CreateMinSlope | core/src/com/mygdx/game/terrains/attributes/TerrainFloatAttribute.java:26-28 | a fresh attribute of type MinSlope holding the given value |
| FloatAttributes.TerrainFloatAttribute.Copy | core/src/com/mygdx/game/terrains/attributes/TerrainFloatAttribute.java:42-44 | a fresh object with the same type and value |
| FloatAttributes.TerrainFloatAttribute.SetValue | core/src/com/mygdx/game/terrains/attributes/TerrainFloatAttribute.java:30 | writing the public `value` field changes the value and nothing else |
| TextureAttributes.CompareDescriptors | core/src/com/mygdx/game/terrains/attributes/TerrainTextureAttribute.java:135 | descriptor comparison is zero exactly for equal descriptors |
| TextureAttributes.CompareDescriptorsAntisymmetric | core/src/com/mygdx/game/terrains/attributes/TerrainTextureAttribute.java:135 | swapping the descriptors negates the comparison |
| TextureAttributes.IsExactlyTheTextureTokens | core/src/com/mygdx/game/terrains/attributes/TerrainTextureAttribute.java:37-41 | `is` of a single type holds exactly for DiffuseBase, DiffuseHeight and DiffuseSlope, and fails for MinSlope |
| TextureAttributes.CompareSameTypeIsOrdering | core/src/com/mygdx/game/terrains/attributes/TerrainTextureAttribute.java:135-142 | same-type texture comparison is antisymmetric and zero exactly for equal values |
| TextureAttributes.CompareSameTypeIsLexicographic | core/src/com/mygdx/game/terrains/attributes/TerrainTextureAttribute.java:137-142 | the first differing field, in the order descriptor, channel, U scale, V scale, U offset, V offset, decides the sign of the comparison; one row per step |
| TextureAttributes.TerrainTextureAttribute.Init | core/src/com/mygdx/game/terrains/attributes/TerrainTextureAttribute.java:76-84 | with a texture type, the fields are exactly the given descriptor, offsets, scales and channel |
| TextureAttributes.TerrainTextureAttribute.New | core/src/com/mygdx/game/terrains/attributes/TerrainTextureAttribute.java:65-69 | fails with InvalidType exactly when the type is not a texture type; otherwise no offset, unit scale and channel 0 |
| TextureAttributes.TerrainTextureAttribute.NewWithDescriptor | core/src/com/mygdx/game/terrains/attributes/TerrainTextureAttribute.java:71-89 | fails with InvalidType exactly when the type is not a texture type; otherwise holds the given descriptor, offsets, scales and channel |
| TextureAttributes.TerrainTextureAttribute.NewWithTexture | core/src/com/mygdx/game/terrains/attributes/TerrainTextureAttribute.java:91-94 | fails with InvalidType exactly when the type is not a texture type; otherwise the default attribute with the texture set |
| TextureAttributes.TerrainTextureAttribute.NewWithRegion | core/src/com/mygdx/game/terrains/attributes/TerrainTextureAttribute.java:96-99 | fails with InvalidType exactly when the type is not a texture type; otherwise offsets are the region's first corner and scales span to its second |
| TextureAttributes.TerrainTextureAttribute.CreateDiffuseBase | core/src/com/mygdx/game/terrains/attributes/TerrainTextureAttribute.java:43-45 | a fresh, valid attribute of type DiffuseBase with the given texture and default offsets, scales and channel |
| TextureAttributes.TerrainTextureAttribute.CreateDiffuseSlope | core/src/com/mygdx/game/terrains/attributes/TerrainTextureAttribute.java:47-49 | a fresh, valid attribute of type DiffuseSlope with the given texture and defaults |
| TextureAttributes.TerrainTextureAttribute.CreateDiffuseHeight | core/src/com/mygdx/game/terrains/attributes/TerrainTextureAttribute.java:51-53 | a fresh, valid attribute of type DiffuseHeight with the given texture and defaults |
| TextureAttributes.TerrainTextureAttribute.SetRegion | core/src/com/mygdx/game/terrains/attributes/TerrainTextureAttribute.java:106-112 | offset is (u, v), scale is (u2 - u, v2 - v), so offset plus scale reaches (u2, v2); the texture changes and the channel is kept |
| TextureAttributes.TerrainTextureAttribute.Copy | core/src/com/mygdx/game/terrains/attributes/TerrainTextureAttribute.java:101-117 | a fresh object with the same type, descriptor, offsets, scales and channel |
| Attributes.Compare | core/src/com/mygdx/game/terrains/attributes/TerrainFloatAttribute.java:54-58 | `compareTo` of either kind: different types are ordered by signed type alone (as the texture attribute does at TerrainTextureAttribute.java:133); the same type with different kinds fails with ClassCast, and nothing else fails |
| Attributes.CompareAntisymmetric | core/src/com/mygdx/game/terrains/attributes/TerrainTextureAttribute.java:132-143 | swapping the two attributes negates the result, and one direction fails exactly when the other does |
| Attributes.CompareZeroIffEqual | core/src/com/mygdx/game/terrains/attributes/TerrainFloatAttribute.java:54-58 | two attributes compare as 0 exactly when they hold equal values |
| Attributes.Copy | core/src/com/mygdx/game/terrains/attributes/TerrainFloatAttribute.java:42-44 | the copy is a fresh object of the same kind holding the same value |
| AttributeSeq.InsertByType | core/src/com/mygdx/game/terrains/attributes/TerrainAttributes.java:31-36 | inserting adds exactly the one attribute |
| AttributeSeq.InsertSorted | core/src/com/mygdx/game/terrains/attributes/TerrainAttributes.java:31-36 | inserting an attribute of a new type into sorted contents keeps them sorted |
| AttributeSeq.SortByType | core/src/com/mygdx/game/terrains/attributes/TerrainAttributes.java:31-36 | `sort()` yields a sorted permutation of the contents |
| AttributeSeq.SortOfSorted | core/src/com/mygdx/game/terrains/attributes/TerrainAttributes.java:31-36 | sorting sorted contents changes nothing |
| AttributeSeq.SortAppended | core/src/com/mygdx/game/terrains/attributes/TerrainAttributes.java:87-94 | appending a new type and then sorting is insertion at its place; the mask gains the type |
| AttributeSeq.ReplaceKeepsOrder | core/src/com/mygdx/game/terrains/attributes/TerrainAttributes.java:91-92 | replacing at the index of the same type keeps the contents sorted, unique and valid, and keeps the mask |
| AttributeSeq.SortedPermutationUnique | core/src/com/mygdx/game/terrains/attributes/TerrainAttributes.java:31-36 | two sorted arrangements of the same attributes are equal |
| AttributeSeq.Find | core/src/com/mygdx/game/terrains/attributes/TerrainAttributes.java:155-159 | the first index whose type equals the query, or -1 when no type equals it |
| AttributeSeq.FindToken | core/src/com/mygdx/game/terrains/attributes/TerrainAttributes.java:155-159 | a single type is found exactly when its bit is in the mask, and is found at an attribute of that type |
| AttributeSeq.SetInvariant | core/src/com/mygdx/game/terrains/attributes/TerrainAttributes.java:85-95 | `set` keeps the contents sorted and ORs the type into the mask; the size stays when the type was present and grows by one otherwise |
| AttributeSeq.GetAfterSet | core/src/com/mygdx/game/terrains/attributes/TerrainAttributes.java:85-95 | after `set(a)`, looking up a's type finds `a` itself |
| AttributeSeq.SetKeepsOthers | core/src/com/mygdx/game/terrains/attributes/TerrainAttributes.java:85-95 | `set` keeps every attribute of another type |
| AttributeSeq.SetTwiceSameType | core/src/com/mygdx/game/terrains/attributes/TerrainAttributes.java:85-95 | setting two attributes of one type in a row is the same as setting only the second |
| AttributeSeq.InsertReplace | core/src/com/mygdx/game/terrains/attributes/TerrainAttributes.java:91-92 | replacing the inserted attribute by one of the same type is the same as inserting that one instead |
| AttributeSeq.SetAllMask | core/src/com/mygdx/game/terrains/attributes/TerrainAttributes.java:121-131 | setting a list in order keeps the contents sorted and ORs every type of the list into the mask |
| AttributeSeq.SetAllDistinct | core/src/com/mygdx/game/terrains/attributes/TerrainAttributes.java:121-124 | setting attributes of distinct types, none of them held yet, adds exactly those attributes |
| AttributeSeq.SetAllOrderIndependent | core/src/com/mygdx/game/terrains/attributes/TerrainAttributes.java:31-36 | setting the same attributes of distinct types in any two orders gives the same contents, because the container keeps them sorted |
| AttributeSeq.Keep | core/src/com/mygdx/game/terrains/attributes/TerrainAttributes.java:135-145 | what `remove(m)` keeps: every attribute whose type is not in `m`, and only those |
| AttributeSeq.KeepSorted | core/src/com/mygdx/game/terrains/attributes/TerrainAttributes.java:135-145 | what `remove` keeps of sorted contents is still sorted |
| AttributeSeq.KeepMask | core/src/com/mygdx/game/terrains/attributes/TerrainAttributes.java:135-145 | `remove(m)` clears exactly the bits of `m` from the mask |
| AttributeSeq.MaskOfRemoveAt | core/src/com/mygdx/game/terrains/attributes/TerrainAttributes.java:139-140 | removing one attribute of unique type clears exactly its bit |
| AttributeSeq.RemoveAtKeepsOrder | core/src/com/mygdx/game/terrains/attributes/TerrainAttributes.java:139 | removing one attribute keeps the rest sorted and valid |
| AttributeSeq.Matching | core/src/com/mygdx/game/terrains/attributes/TerrainAttributes.java:59-63 | the multi-get result holds exactly the attributes whose type is in the query mask |
| AttributeSeq.MaskSize | core/src/com/mygdx/game/terrains/attributes/TerrainAttributes.java:72-74 | with unique types the mask has exactly one bit per attribute |
| AttributeSeq.SameMaskSameTypes | core/src/com/mygdx/game/terrains/attributes/TerrainAttributes.java:169-172 | two sorted containers with equal masks have the same types at every index |
| AttributeSeq.CompareSeqAntisymmetric | core/src/com/mygdx/game/terrains/attributes/TerrainAttributes.java:226-231 | the element-by-element comparison negates when swapped, and fails for both or neither |
| AttributeSeq.CompareSeqZeroIffEqual | core/src/com/mygdx/game/terrains/attributes/TerrainAttributes.java:226-231 | the element-by-element comparison is 0 exactly when all values are equal |
| AttributeSeq.CompareContentsAntisymmetric | core/src/com/mygdx/game/terrains/attributes/TerrainAttributes.java:219-232 | container comparison negates when swapped, and fails for both or neither |
| AttributeSeq.CompareContentsZeroIffSame | core/src/com/mygdx/game/terrains/attributes/TerrainAttributes.java:219-232 | container comparison is 0 exactly when the masks and all values agree |
| AttributeContainer.TerrainAttributes.constructor | core/src/com/mygdx/game/terrains/attributes/TerrainAttributes.java:25-28 | a new container is empty, with an empty mask, and valid |
| AttributeContainer.TerrainAttributes.Sort | core/src/com/mygdx/game/terrains/attributes/TerrainAttributes.java:31-36 | sorts a permutation of the contents, changes nothing when already sorted, and keeps the mask |
| AttributeContainer.TerrainAttributes.GetMask | core/src/com/mygdx/game/terrains/attributes/TerrainAttributes.java:39-41 | the mask holds exactly the contained types, one bit per attribute |
| AttributeContainer.TerrainAttributes.Size | core/src/com/mygdx/game/terrains/attributes/TerrainAttributes.java:72-74 | the size is the number of bits in the mask |
| AttributeContainer.TerrainAttributes.Has | core/src/com/mygdx/game/terrains/attributes/TerrainAttributes.java:150-152 | false for the empty mask; otherwise true exactly when every queried type is contained |
| AttributeContainer.TerrainAttributes.IndexOf | core/src/com/mygdx/game/terrains/attributes/TerrainAttributes.java:155-159 | the first index of the queried type, and -1 whenever `has` is false |
| AttributeContainer.TerrainAttributes.Get | core/src/com/mygdx/game/terrains/attributes/TerrainAttributes.java:45-49 | the attribute at the first index of the queried type, or none when no type equals it, in particular when `has` is false |
| AttributeContainer.TerrainAttributes.GetAll | core/src/com/mygdx/game/terrains/attributes/TerrainAttributes.java:59-63 | appends to `out`, in order, exactly the attributes sharing a bit with the query |
| AttributeContainer.TerrainAttributes.Clear | core/src/com/mygdx/game/terrains/attributes/TerrainAttributes.java:66-69 | no attributes and an empty mask afterwards; the invariant still holds |
| AttributeContainer.TerrainAttributes.Set | core/src/com/mygdx/game/terrains/attributes/TerrainAttributes.java:85-95 | the contents become `SetSpec` of the old ones, the mask gains the type, and the invariant holds |
| AttributeContainer.TerrainAttributes.SetAll | core/src/com/mygdx/game/terrains/attributes/TerrainAttributes.java:97-131 | the contents are those of `set` applied to each attribute in order; the mask gains every type of the list |
| AttributeContainer.TerrainAttributes.Remove | core/src/com/mygdx/game/terrains/attributes/TerrainAttributes.java:135-145 | the contents keep exactly the attributes whose type is outside the query, in order; the mask loses exactly those bits |
| AttributeContainer.TerrainAttributes.Same | core/src/com/mygdx/game/terrains/attributes/TerrainAttributes.java:165-180 | true for the container itself; otherwise equal masks and, when values are compared, equal values at every index |
| AttributeContainer.TerrainAttributes.Equals | core/src/com/mygdx/game/terrains/attributes/TerrainAttributes.java:212-216 | true exactly for a container with the same mask and the same values |
| AttributeContainer.TerrainAttributes.CompareTo | core/src/com/mygdx/game/terrains/attributes/TerrainAttributes.java:219-232 | ordered by signed mask when the masks differ, else by the sign of the first non-zero attribute comparison |
| AttributeContainer.FindIsFirst | core/src/com/mygdx/game/terrains/attributes/TerrainAttributes.java:155-159 | the loop's first matching index is the one `Find` specifies |
| Materials.NatToStringInjective | core/src/com/mygdx/game/terrains/TerrainMaterial.java:30 | different counter values have different decimal strings |
| Materials.DefaultIdsDistinct | core/src/com/mygdx/game/terrains/TerrainMaterial.java:24-31 | materials given different counter values get different default names |
| Materials.MaterialCounter.Next | core/src/com/mygdx/game/terrains/TerrainMaterial.java:24-30 | increments the shared counter, then names the material `mtl` followed by the new count |
| Materials.TerrainMaterial.constructor | core/src/com/mygdx/game/terrains/TerrainMaterial.java:29-31 | an empty material named after the incremented counter |
| Materials.TerrainMaterial.WithId | core/src/com/mygdx/game/terrains/TerrainMaterial.java:34-36 | an empty material with the given name |
| Materials.TerrainMaterial.WithAttributes | core/src/com/mygdx/game/terrains/TerrainMaterial.java:39-42 | the next default name, and contents as if each attribute were set in order; the mask is the union of the list's types |
| Materials.TerrainMaterial.WithIdAndAttributes | core/src/com/mygdx/game/terrains/TerrainMaterial.java:45-48 | the given name, and contents as if each attribute were set in order; the mask is the union of the list's types |
| Materials.TerrainMaterial.CopyOf | core/src/com/mygdx/game/terrains/TerrainMaterial.java:63-72 | the given name, the source's mask and values, and every attribute a fresh object |
| Materials.TerrainMaterial.Copy | core/src/com/mygdx/game/terrains/TerrainMaterial.java:75-77 | a fresh material with the same name, mask and values, holding fresh attribute objects |
| Materials.TerrainMaterial.Equals | core/src/com/mygdx/game/terrains/TerrainMaterial.java:85-87 | true for the material itself, otherwise exactly when the names, masks and values agree |
| Materials.AttributeOrderIrrelevant | core/src/com/mygdx/game/terrains/TerrainMaterial.java:39-42 | two materials built from the same attributes listed in different orders hold the same contents, mask and values |
| Materials.SameInAnyOrder | core/src/com/mygdx/game/terrains/attributes/TerrainAttributes.java:165-174 | `same(other, true)` holds between the containers of two materials built from the same attributes in different orders |
| Materials.ChangeCopiedFloat | core/src/com/mygdx/game/terrains/TerrainMaterial.java:68-72 | changing a float value in a copy leaves every value of the original as it was |
| Materials.CopyAll | core/src/com/mygdx/game/terrains/TerrainMaterial.java:70-71 | the copy loop fills an empty container with fresh copies of the same types and values, in order |
| Materials.AddCopy | core/src/com/mygdx/game/terrains/TerrainMaterial.java:71 | one step of the copy loop appends a fresh copy and keeps the earlier copies and their values |
| Materials.SetCopy | core/src/com/mygdx/game/terrains/TerrainMaterial.java:71 | `set(attr.copy())` with a type above every held one appends the copy at the end |
| HeightMap.Floor | core/src/com/mygdx/game/terrains/HeightMapTerrain.java:92-93 | `floor` yields the integer `n` with `n <= x < n + 1` |
| HeightMap.JavaRem | core/src/com/mygdx/game/terrains/HeightMapTerrain.java:101-102 | for a non-negative dividend, Java's `%` is the dividend minus the floor multiple of the divisor |
| HeightMap.WeightsAreBarycentric | core/src/com/mygdx/game/terrains/HeightMapTerrain.java:123-128 | the weights sum to 1 and reproduce the query position from the corners |
| HeightMap.BarryCentricFlat | core/src/com/mygdx/game/terrains/HeightMapTerrain.java:123-129 | three corners of equal height interpolate to that height |
| HeightMap.CellTrianglesHaveUnitDet | core/src/com/mygdx/game/terrains/HeightMapTerrain.java:106-124 | both triangles passed in have determinant 1, so there is no division by zero |
| HeightMap.CellHeightPlanes | core/src/com/mygdx/game/terrains/HeightMapTerrain.java:106-118 | the upper-left triangle is used exactly when `x <= 1 - z`, and each triangle gives its plane through its corners |
| HeightMap.DiagonalSeamAgrees | core/src/com/mygdx/game/terrains/HeightMapTerrain.java:106-118 | the two triangles' planes agree on the diagonal |
| HeightMap.CellHeightBounded | core/src/com/mygdx/game/terrains/HeightMapTerrain.java:106-118 | inside a cell the interpolated height lies between bounds on the four samples |
| HeightMap.IndexInGrid | core/src/com/mygdx/game/terrains/HeightMapTerrain.java:106-118 | every sample index `gridZ * width + gridX` of a cell corner lies within the `width * width` samples |
| HeightMap.CellSize | core/src/com/mygdx/game/terrains/HeightMapTerrain.java:89 | the cell size is positive for a grid of width at least 2 |
| HeightMap.CellIndexBounds | core/src/com/mygdx/game/terrains/HeightMapTerrain.java:89-98 | a local coordinate below 0 or at least 400 gives a cell index outside the grid; one inside gives an index from 0 to width - 2 |
| HeightMap.HeightOffTerrainIsZero | core/src/com/mygdx/game/terrains/HeightMapTerrain.java:84-98 | a point outside the terrain, after the translation is applied, has height 0 |
| HeightMap.HeightOnTerrain | core/src/com/mygdx/game/terrains/HeightMapTerrain.java:84-120 | a point on the terrain reads the cell that holds it, at its offset in that cell, both offsets in [0, 1) |
| HeightMap.CellOffset | core/src/com/mygdx/game/terrains/HeightMapTerrain.java:101-102 | the offset within the cell is the fractional part of the cell coordinate, in [0, 1) |
| HeightMap.FlatCell | core/src/com/mygdx/game/terrains/HeightMapTerrain.java:106-120 | in a cell whose four samples are `h`, the height is `h` times the magnitude |
| HeightMap.FlatTerrain | core/src/com/mygdx/game/terrains/HeightMapTerrain.java:82-121 | on a flat grid, the query on the terrain returns the common height times the magnitude |
| HeightMap.CellWithinSamples | core/src/com/mygdx/game/terrains/HeightMapTerrain.java:106-120 | with a non-negative magnitude, the scaled height in a cell lies between the scaled sample bounds |
| HeightMap.HeightWithinSamples | core/src/com/mygdx/game/terrains/HeightMapTerrain.java:82-121 | with a non-negative magnitude, the height on the terrain lies between the scaled sample bounds |

## Left out

- Hashing (`hashCode`, `attributesHash`) is not modelled. Its exact values depend on Java int overflow, `floatToRawIntBits` and `String.hashCode`.
- `get(Class, type)` is only an unchecked cast of `get(type)`. Dafny has no unchecked cast, so it has no counterpart.
- The container's iterator is not a separate member. The copy loop and `SetAll` walk the sequence directly.
- The base class `TerrainAttribute` and its type registry are not part of this model. The four registered types are the fixed, distinct bits 0 to 3. Types with more than one bit set are not modelled.
- Attribute `equals` comes from that base class, which is not part of this model. The model compares attribute values (type and fields), which the container's `same` and `equals` then use.
- The `instanceof` tests and casts become typed parameters. The one cast that can fail, comparing a float and a texture attribute of the same type, is the `ClassCast` error of `Attributes.Compare`.
- Exceptions become `Result` values: `InvalidType` from the texture constructors, `ClassCast` from comparison.
- Attributes.Compare: for two attributes of different types it keeps only the sign of the comparison. The float attribute's `compareTo` returns the truncated type difference itself (a magnitude other than 1), but every caller reads only its sign.
- Null arguments are not modelled. Parameters are non-null, so `compareTo(null)` and `set(null)`, which throw a NullPointerException in the source, and a material whose `id` is null have no counterpart.
- Floats are `real`. There is no rounding, and `MathUtils.isEqual` is exact equality instead of a tolerance.
- HeightMap.Floor: does not model the saturation of `(int)` at the limits of `int`.
- Materials.MaterialCounter.Next: the counter is unbounded, so int overflow of the counter is not modelled.
- TextureAttributes.CompareSameType: the difference of two `uvIndex` values and of two descriptors is not wrapped to 32 bits.
- `TextureDescriptor` is abstracted to a texture handle plus one number standing for its filter and wrap settings. Its own comparison is lexicographic on the two.
- `TerrainMaterial` extends `TerrainAttributes` in the source. The model gives the material a container (`attributes`) instead of inheriting from it.
- The static counter is a `MaterialCounter` object that the default-name constructors are given.
- The `set(a1, a2)`, `set(a1, a2, a3)`, `set(a1, a2, a3, a4)`, varargs and `Iterable` overloads are all `SetAll` over a list. The `Array` and varargs material constructors are likewise one constructor each.
- The `out` array of the multi-get is a sequence that `GetAll` returns extended.
- The library sort is `SortByType`, using the corrected comparator of the findings below. Any sort gives the same result here, since sorted contents with unique types are unique (`SortedPermutationUnique`).
- AttributeContainer.TerrainAttributes.Same: requires both containers valid (sorted), so the `sort()` calls in `same` and `compareTo` are no-ops and are omitted.
- Materials.TerrainMaterial.CopyOf: requires the source material to be valid (sorted), as every public operation leaves it.
- The terrain's translation is a parameter of the query. In the source it is read from the model instance's transform.
- The `HeightMapTerrain` constructor, the textures, the mesh, the shaders, physics, the game loop and `TerrainMaterialAttribute` are outside the model. They are library calls, rendering or wrappers with no logic to verify.
- A grid of width below 2 is not a valid terrain for the query on the terrain. `HeightAtWorldCoord` returns 0 for it, since no cell passes the bounds check.
- The height samples are a `width` by `width` sequence. A non-square height map is not modelled.

## Findings

| source | as written | input that shows it | evidently intended | confidence | as-written member | corrected member |
|---|---|---|---|---|---|---|
| core/src/com/mygdx/game/terrains/attributes/TerrainAttributes.java:185 | `(int)(arg0.type - arg1.type)` keeps only the low 32 bits of the `long` difference | types with bit 32 and bit 0 set: the result is negative, so bit 32 sorts first; types with bits 33 and 32 compare as 0 | the sign of the signed `long` comparison of the two types | not executed | Tokens.TruncatedDifferenceMisorders | Tokens.TypeCompare |
| core/src/com/mygdx/game/terrains/attributes/TerrainFloatAttribute.java:55 | the same truncated cast orders a float attribute against one of another type | a MinSlope type on bit 32 against a texture type on bit 0 compares as negative | the sign of the signed `long` comparison, as `TerrainTextureAttribute.compareTo` does | not executed | Tokens.TruncatedDifferenceMisorders | Tokens.TypeCompare |
