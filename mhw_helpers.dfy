/**
  The small numeric helpers of `namespace mhw` in mhw_def.h: a three-way clip,
  the two memory-compression predicates and the hardware tile-mode lookup.
  All of them are pure and total.
 */
module MhwHelpers {

  newtype int32 = x: int | -0x8000_0000 <= x < 0x8000_0000
  newtype uint32 = x: int | 0 <= x < 0x1_0000_0000

  /** MOS_MEMCOMP_STATE: the memory-compression state of a surface. */
  datatype MemCompState = MemCompDisabled | MemCompHorizontal | MemCompVertical | MemCompMc | MemCompRc

  /** MOS_TILE_TYPE: the tiling layout of a surface. */
  datatype TileType = TileX | TileY | TileYf | TileYs | TileLinear | Tile4 | Tile64 | TileInvalid

  // ---------------------------------------------------------------------------
  // Clip3

  /**
    Clip3(x, y, z): the low bound x is tested first, then the high bound y.
    The result is always one of the three arguments, so it never leaves the
    32-bit range; with ordered bounds it lies between them and leaves an
    in-range value alone.
   */
  function Clip3(x: int32, y: int32, z: int32): (r: int32)
    ensures r == x || r == y || r == z
    ensures x <= y ==> x <= r <= y
    ensures x <= z <= y ==> r == z
  {
    if z < x then x
    else if z > y then y
    else z
  }

  /** The textbook clamp of z into [lo, hi], stated independently of Clip3. */
  function Clamp(lo: int, hi: int, z: int): int
    requires lo <= hi
  {
    if z <= lo then lo else if hi <= z then hi else z
  }

  /** With ordered bounds Clip3 is exactly the textbook clamp. */
  lemma Clip3IsClamp(x: int32, y: int32, z: int32)
    requires x <= y
    ensures Clip3(x, y, z) as int == Clamp(x as int, y as int, z as int)
  {
  }

  /**
    With inverted bounds (x > y) the branch order decides: values below x give
    x, every other value falls through to the `z > y` branch and gives y.
    So the low bound does not win for every value.
   */
  lemma Clip3InvertedBounds(x: int32, y: int32, z: int32)
    requires x > y
    ensures z < x ==> Clip3(x, y, z) == x
    ensures z >= x ==> Clip3(x, y, z) == y
  {
  }

  /** A concrete instance of the inverted-bounds behaviour: Clip3(10, 5, 10) is 5, not 10. */
  lemma Clip3InvertedExample()
    ensures Clip3(10, 5, 10) == 5
    ensures Clip3(10, 5, 7) == 10
  {
  }

  /**
    Clipping twice is the same as clipping once exactly when the bounds are
    ordered; with inverted bounds a second clip always flips the result
    between x and y.
   */
  lemma Clip3IdempotentIff(x: int32, y: int32, z: int32)
    ensures Clip3(x, y, Clip3(x, y, z)) == Clip3(x, y, z) <==> x <= y
    ensures x > y ==> Clip3(x, y, Clip3(x, y, z)) == (if Clip3(x, y, z) == x then y else x)
  {
  }

  // ---------------------------------------------------------------------------
  // Memory-compression predicates

  /** Memory compression is on in either the render- or the media-compressed state. */
  function MmcEnabled(state: MemCompState): (r: bool)
    ensures r <==> state !in {MemCompDisabled, MemCompHorizontal, MemCompVertical}
  {
    state == MemCompRc || state == MemCompMc
  }

  /** Render compression is on only in the render-compressed state. */
  function MmcRcEnabled(state: MemCompState): (r: bool)
    ensures r ==> MmcEnabled(state)
    ensures r <==> MmcEnabled(state) && state != MemCompMc
  {
    state == MemCompRc
  }

  /**
    Render compression is one of the two compressed states: MmcRcEnabled
    implies MmcEnabled, and the states where only MmcEnabled holds are
    exactly the media-compressed one.
   */
  lemma MmcRcImpliesMmc(state: MemCompState)
    ensures MmcRcEnabled(state) ==> MmcEnabled(state)
    ensures MmcEnabled(state) && !MmcRcEnabled(state) <==> state == MemCompMc
    ensures !MmcEnabled(state) <==> state in {MemCompDisabled, MemCompHorizontal, MemCompVertical}
  {
  }

  // ---------------------------------------------------------------------------
  // Tile mode

  /**
    GetHwTileType: the GMM tile mode is passed through when GMM tiling is
    enabled; otherwise the tile type is looked up, with every type other than
    linear, YS and X mapping to the catch-all code 3.
   */
  function GetHwTileType(tileType: TileType, tileModeGmm: uint32, gmmTileEnabled: bool): (r: uint32)
    ensures gmmTileEnabled ==> r == tileModeGmm
    ensures !gmmTileEnabled ==> r <= 3
  {
    if gmmTileEnabled then tileModeGmm
    else
      match tileType
      case TileLinear => 0
      case TileYs => 1
      case TileX => 2
      case _ => 3
  }

  /**
    Without GMM tiling the code identifies the tile type: 0, 1 and 2 each come
    from exactly one type, and 3 from all the others.
   */
  lemma HwTileTypeDecodes(tileType: TileType, tileModeGmm: uint32)
    ensures GetHwTileType(tileType, tileModeGmm, false) == 0 <==> tileType == TileLinear
    ensures GetHwTileType(tileType, tileModeGmm, false) == 1 <==> tileType == TileYs
    ensures GetHwTileType(tileType, tileModeGmm, false) == 2 <==> tileType == TileX
    ensures GetHwTileType(tileType, tileModeGmm, false) == 3 <==> tileType !in {TileLinear, TileYs, TileX}
  {
  }
}
