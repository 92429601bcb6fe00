/**
 * Properties of the masking resolver that relate several calls: the
 * one-way initialisation, the identifiers the queries look up, and how the
 * answers depend on the tables and on the query word.
 */
module MaskProperties {
  import opened Wrappers
  import opened EcalGeometry
  import opened Conditions
  import opened StatusBits
  import opened EcalMasks

  /** Once initialised, any number of further initialisations change nothing. */
  lemma {:induction false} InitialisedStaysPut(s: MaskState, setups: seq<EventSetup>)
    requires s.init
    ensures AfterInits(s, setups) == s
    decreases |setups|
  {
    if setups != [] {
      InitialisedStaysPut(AfterInit(s, setups[0]), setups[1..]);
    }
  }

  /**
   * Only the first initialisation counts: after a series of calls, each with
   * its own event setup, the state is the one the first call left, so the
   * tables of every later setup are never bound.
   */
  lemma {:induction false} OnlyFirstInitCounts(s: MaskState, setups: seq<EventSetup>)
    requires setups != []
    ensures AfterInits(s, setups) == AfterInit(s, setups[0])
    ensures AfterInits(s, setups).init
  {
    InitialisedStaysPut(AfterInit(s, setups[0]), setups[1..]);
  }

  /**
   * A first initialisation binds a table exactly when its record exists
   * with a valid handle; otherwise that table keeps the reference it had.
   */
  lemma InitBindsExactlyValidRecords(s: MaskState, setup: EventSetup)
    requires !s.init
    ensures AfterInit(s, setup).channelStatus ==
      if setup.channelRecord.Some? && setup.channelRecord.value.ValidHandle?
      then Some(setup.channelRecord.value.product) else s.channelStatus
    ensures AfterInit(s, setup).towerStatus ==
      if setup.towerRecord.Some? && setup.towerRecord.value.ValidHandle?
      then Some(setup.towerRecord.value.product) else s.towerStatus
  {
  }

  /** Each table depends only on its own record: the two are bound independently. */
  lemma InitTablesIndependent(s: MaskState, setup1: EventSetup, setup2: EventSetup)
    ensures setup1.channelRecord == setup2.channelRecord ==>
      AfterInit(s, setup1).channelStatus == AfterInit(s, setup2).channelStatus
    ensures setup1.towerRecord == setup2.towerRecord ==>
      AfterInit(s, setup1).towerStatus == AfterInit(s, setup2).towerStatus
  {
  }

  /**
   * A provider holding only a channel table: the first call binds it and
   * leaves the tower table unbound, a second call with another setup is a no-op.
   */
  lemma ChannelOnlySetupScenario(table: StatusTable, later: EventSetup)
    ensures AfterInit(Uninitialised, EventSetup(Some(ValidHandle(table)), None))
      == MaskState(true, Some(table), None)
    ensures AfterInits(Uninitialised, [EventSetup(Some(ValidHandle(table)), None), later])
      == MaskState(true, Some(table), None)
  {
    OnlyFirstInitCounts(Uninitialised, [EventSetup(Some(ValidHandle(table)), None), later]);
  }

  /**
   * The barrel channel query looks up the crystal numbered
   * (ix-1) + 20*(iy-1) + 1 in supermodule `ism`, and masks when that
   * crystal's status shares a flag with `bits` or its tower is masked.
   */
  lemma BarrelChannelLookup(s: MaskState, geo: Geometry, ism: int, ix: int, iy: int, bits: bv32)
    ensures MaskChannel(s, geo, ism, ix, iy, bits, Barrel) == Success(
      Flagged(s.channelStatus, geo.ebCrystal(ism, (ix - 1) + 20 * (iy - 1) + 1), bits)
      || MaskTower(s, geo, ism, ix, iy, bits, Barrel) == Success(true))
  {
  }

  /**
   * On a valid endcap cell the channel query looks up the crystal at the
   * sector's offset global coordinates, on the negative side for sectors 1
   * to 9 and the positive side otherwise.
   */
  lemma EndcapChannelLookup(s: MaskState, geo: Geometry, ism: int, ix: int, iy: int, bits: bv32)
    requires geo.validEE(ism, ix + geo.ix0EE(ism), iy + geo.iy0EE(ism))
    ensures MaskChannel(s, geo, ism, ix, iy, bits, Endcap) == Success(
      Flagged(s.channelStatus,
              geo.eeCrystal(ix + geo.ix0EE(ism), iy + geo.iy0EE(ism), if 1 <= ism <= 9 then -1 else 1),
              bits)
      || MaskTower(s, geo, ism, ix, iy, bits, Endcap) == Success(true))
  {
  }

  /**
   * The barrel tower query looks up the trigger tower of crystal
   * (ix-1) + 20*(iy-1) + 1 of supermodule `ism` in the tower table, and
   * masks exactly when that entry shares a flag with `bits`.
   */
  lemma BarrelTowerLookup(s: MaskState, geo: Geometry, ism: int, ix: int, iy: int, bits: bv32)
    ensures MaskTower(s, geo, ism, ix, iy, bits, Barrel) ==
      Success(Flagged(s.towerStatus, geo.ebTower(geo.ebCrystal(ism, (ix - 1) + 20 * (iy - 1) + 1)), bits))
  {
  }

  /**
   * On a valid endcap cell the tower query looks up the super-crystal of
   * the crystal at the sector's offset global coordinates, on the negative
   * side for sectors 1 to 9 and the positive side otherwise, and masks
   * exactly when that entry shares a flag with `bits`.
   */
  lemma EndcapTowerLookup(s: MaskState, geo: Geometry, ism: int, ix: int, iy: int, bits: bv32)
    requires geo.validEE(ism, ix + geo.ix0EE(ism), iy + geo.iy0EE(ism))
    ensures MaskTower(s, geo, ism, ix, iy, bits, Endcap) == Success(
      Flagged(s.towerStatus,
              geo.eeSuperCrystal(geo.eeCrystal(ix + geo.ix0EE(ism), iy + geo.iy0EE(ism),
                                               if 1 <= ism <= 9 then -1 else 1)),
              bits))
  {
  }

  /**
   * The barrel worked case: crystal 23 of supermodule 5 holds status 0x1,
   * so cell (3, 2) is masked for the query 0x1 with no tower table at all.
   */
  lemma BarrelWorkedExample(geo: Geometry)
    ensures BarrelCrystalIndex(3, 2) == 23
    ensures MaskChannel(MaskState(true, Some(map[geo.ebCrystal(5, 23) := 0x1]), None),
                        geo, 5, 3, 2, 0x1, Barrel) == Success(true)
  {
  }

  /** With both tables unbound, no valid query masks anything. */
  lemma UnboundTablesMaskNothing(s: MaskState, geo: Geometry, ism: int, ix: int, iy: int, bits: bv32, subdet: Subdet)
    requires s.channelStatus.None? && s.towerStatus.None?
    requires !subdet.Other?
    ensures MaskChannel(s, geo, ism, ix, iy, bits, subdet) == Success(false)
    ensures MaskTower(s, geo, ism, ix, iy, bits, subdet) == Success(false)
  {
  }

  /** The empty query word masks nothing. */
  lemma EmptyQueryMasksNothing(s: MaskState, geo: Geometry, ism: int, ix: int, iy: int, subdet: Subdet)
    requires !subdet.Other?
    ensures MaskChannel(s, geo, ism, ix, iy, 0, subdet) == Success(false)
    ensures MaskTower(s, geo, ism, ix, iy, 0, subdet) == Success(false)
  {
  }

  /** A tower query for two flag sets at once masks when either one does. */
  lemma MaskTowerOfUnion(s: MaskState, geo: Geometry, ism: int, ix: int, iy: int, b1: bv32, b2: bv32, subdet: Subdet)
    requires !subdet.Other?
    ensures MaskTower(s, geo, ism, ix, iy, b1 | b2, subdet).value <==>
      MaskTower(s, geo, ism, ix, iy, b1, subdet).value || MaskTower(s, geo, ism, ix, iy, b2, subdet).value
  {
    if subdet == Barrel {
      var id := geo.ebTower(BarrelCrystalId(geo, ism, ix, iy));
      if s.towerStatus.Some? && id in s.towerStatus.value {
        SharesFlagOfUnion(s.towerStatus.value[id], b1, b2);
      }
    } else if EndcapCellValid(geo, ism, ix, iy) {
      var id := geo.eeSuperCrystal(EndcapCrystalId(geo, ism, ix, iy));
      if s.towerStatus.Some? && id in s.towerStatus.value {
        SharesFlagOfUnion(s.towerStatus.value[id], b1, b2);
      }
    }
  }

  /** A channel query for two flag sets at once masks when either one does. */
  lemma MaskChannelOfUnion(s: MaskState, geo: Geometry, ism: int, ix: int, iy: int, b1: bv32, b2: bv32, subdet: Subdet)
    requires !subdet.Other?
    ensures MaskChannel(s, geo, ism, ix, iy, b1 | b2, subdet).value <==>
      MaskChannel(s, geo, ism, ix, iy, b1, subdet).value || MaskChannel(s, geo, ism, ix, iy, b2, subdet).value
  {
    MaskTowerOfUnion(s, geo, ism, ix, iy, b1, b2, subdet);
    if subdet == Barrel {
      var id := BarrelCrystalId(geo, ism, ix, iy);
      if s.channelStatus.Some? && id in s.channelStatus.value {
        SharesFlagOfUnion(s.channelStatus.value[id], b1, b2);
      }
    } else if EndcapCellValid(geo, ism, ix, iy) {
      var id := EndcapCrystalId(geo, ism, ix, iy);
      if s.channelStatus.Some? && id in s.channelStatus.value {
        SharesFlagOfUnion(s.channelStatus.value[id], b1, b2);
      }
    }
  }

  /** Asking about more flags never unmasks a channel. */
  lemma MaskChannelMonotoneInBits(s: MaskState, geo: Geometry, ism: int, ix: int, iy: int, b1: bv32, b2: bv32, subdet: Subdet)
    requires !subdet.Other?
    requires b1 | b2 == b2
    requires MaskChannel(s, geo, ism, ix, iy, b1, subdet) == Success(true)
    ensures MaskChannel(s, geo, ism, ix, iy, b2, subdet) == Success(true)
  {
    MaskChannelOfUnion(s, geo, ism, ix, iy, b1, b2, subdet);
  }
}
