/**
 * The part of the ECAL detector-identifier library that the masking
 * resolver calls. The library itself is not part of this model: its
 * identifier constructors, the tower / super-crystal derivations and the
 * endcap offset and validity tables appear here only as the fields of a
 * `Geometry` value, so nothing below depends on their formulas.
 */
module EcalGeometry {

  /** A raw detector identifier, an unsigned 32-bit word. */
  type RawId = x: int | 0 <= x < 0x1_0000_0000

  /**
   * The subdetector tag passed to the queries. `Other` carries the numeric
   * value of any tag that is neither the barrel nor the endcap one.
   */
  datatype Subdet = Barrel | Endcap | Other(code: int)

  /** The geometry facility, as pure functions whose definitions are not modelled. */
  datatype Geometry = Geometry(
    /** raw id of the barrel crystal with the given supermodule and crystal number */
    ebCrystal: (int, int) -> RawId,
    /** raw id of the trigger tower holding the barrel crystal with this raw id */
    ebTower: RawId -> RawId,
    /** raw id of the endcap crystal at global (x, y) on the given side (-1 or +1) */
    eeCrystal: (int, int, int) -> RawId,
    /** raw id of the super-crystal holding the endcap crystal with this raw id */
    eeSuperCrystal: RawId -> RawId,
    /** offsets from a sector's local coordinates to global endcap coordinates */
    ix0EE: int -> int,
    iy0EE: int -> int,
    /** whether the global endcap coordinates name a crystal of the given sector */
    validEE: (int, int, int) -> bool
  )

  /** Number of crystals in one row of a barrel supermodule. */
  const CrystalsPerRow := 20

  /**
   * The supermodule-local crystal number of the barrel crystal at local
   * column `ix` and row `iy`, both counted from 1: rows of 20 crystals
   * laid end to end, numbered from 1.
   */
  function BarrelCrystalIndex(ix: int, iy: int): (ic: int)
    ensures 1 <= ix <= CrystalsPerRow && 1 <= iy ==>
      CrystalsPerRow * (iy - 1) < ic <= CrystalsPerRow * iy
  {
    (ix - 1) + CrystalsPerRow * (iy - 1) + 1
  }

  /** Column and row are recovered from the crystal number: the numbering loses nothing. */
  lemma BarrelCrystalIndexInverse(ix: int, iy: int)
    requires 1 <= ix <= CrystalsPerRow
    ensures (BarrelCrystalIndex(ix, iy) - 1) % CrystalsPerRow + 1 == ix
    ensures (BarrelCrystalIndex(ix, iy) - 1) / CrystalsPerRow + 1 == iy
  {
  }

  /** Distinct cells of a supermodule get distinct crystal numbers. */
  lemma BarrelCrystalIndexInjective(ix: int, iy: int, jx: int, jy: int)
    requires 1 <= ix <= CrystalsPerRow && 1 <= jx <= CrystalsPerRow
    requires BarrelCrystalIndex(ix, iy) == BarrelCrystalIndex(jx, jy)
    ensures ix == jx && iy == jy
  {
    BarrelCrystalIndexInverse(ix, iy);
    BarrelCrystalIndexInverse(jx, jy);
  }

  /**
   * The endcap side of a sector: sectors 1 to 9 lie on the negative side,
   * every other sector number on the positive side.
   */
  function EndcapSide(ism: int): (side: int)
    ensures side == -1 || side == 1
    ensures side == -1 <==> 1 <= ism <= 9
  {
    if 1 <= ism && ism <= 9 then -1 else 1
  }

  /** Global endcap column of local column `ix` of sector `ism`. */
  function EndcapX(geo: Geometry, ism: int, ix: int): int
  {
    ix + geo.ix0EE(ism)
  }

  /** Global endcap row of local row `iy` of sector `ism`. */
  function EndcapY(geo: Geometry, ism: int, iy: int): int
  {
    iy + geo.iy0EE(ism)
  }

  /** Whether local cell (ix, iy) of sector `ism` is a crystal of that sector. */
  predicate EndcapCellValid(geo: Geometry, ism: int, ix: int, iy: int)
  {
    geo.validEE(ism, EndcapX(geo, ism, ix), EndcapY(geo, ism, iy))
  }

  /** Raw id of the barrel crystal at local (ix, iy) of supermodule `ism`. */
  function BarrelCrystalId(geo: Geometry, ism: int, ix: int, iy: int): RawId
  {
    geo.ebCrystal(ism, BarrelCrystalIndex(ix, iy))
  }

  /** Raw id of the endcap crystal at local (ix, iy) of sector `ism`. */
  function EndcapCrystalId(geo: Geometry, ism: int, ix: int, iy: int): RawId
  {
    geo.eeCrystal(EndcapX(geo, ism, ix), EndcapY(geo, ism, iy), EndcapSide(ism))
  }
}
