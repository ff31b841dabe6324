/**
 * Texture sizes (src/texture/texture_sizes.rs): the size of each texture id whose name has a
 * recorded size; the others are dropped without an error.
 */
module TextureSizes {
  import opened Ids
  import opened GeoMap

  /** A texture's width and height (`(u32, u32)`); the values are only copied. */
  datatype Size = Size(width: nat, height: nat)

  /** `texture_sizes`: each texture id whose name the size table knows, with that size. */
  function TextureSizes(textures: map<TextureId, TextureName>, sizes: map<TextureName, Size>): (r: map<TextureId, Size>)
    ensures r.Keys <= textures.Keys
    ensures forall id :: id in r <==> id in textures && textures[id] in sizes
    ensures forall id :: id in r ==> r[id] == sizes[textures[id]]
  {
    map id | id in textures && textures[id] in sizes :: sizes[textures[id]]
  }

  /** A texture whose name has no size is absent, and adding sizes never removes a texture. */
  lemma {:induction false} Monotone(textures: map<TextureId, TextureName>, sizes: map<TextureName, Size>, name: TextureName, size: Size)
    requires name !in sizes
    ensures forall id :: id in textures && textures[id] == name ==> id !in TextureSizes(textures, sizes)
    ensures TextureSizes(textures, sizes).Keys <= TextureSizes(textures, sizes[name := size]).Keys
    ensures forall id :: id in TextureSizes(textures, sizes) ==>
      TextureSizes(textures, sizes[name := size])[id] == TextureSizes(textures, sizes)[id]
  {
  }
}
