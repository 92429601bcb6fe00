/**
 * The ECAL data-quality masking resolver: process-wide state holding the
 * channel and tower status tables, bound once from the event setup, and
 * two queries that tell whether a crystal (or the tower or super-crystal
 * holding it) carries any of a set of status flags.
 */
module EcalMasks {
  import opened Wrappers
  import opened EcalGeometry
  import opened Conditions
  import opened StatusBits

  /** The error a query raises for a subdetector tag it does not handle. */
  datatype MaskError = InvalidSubdetector(subdet: int)

  /** A snapshot of the resolver's three static fields. */
  datatype MaskState = MaskState(
    init: bool,
    channelStatus: Option<StatusTable>,
    towerStatus: Option<StatusTable>
  )

  /** The state before any initialisation: flag cleared, both tables unbound. */
  const Uninitialised := MaskState(false, None, None)

  /**
   * The table reference after looking for one record kind: the record's
   * product when the record exists and its handle is valid, otherwise the
   * reference held before.
   */
  function Bind(record: Option<Handle<StatusTable>>, current: Option<StatusTable>): Option<StatusTable>
  {
    match record
    case Some(ValidHandle(table)) => Some(table)
    case _ => current
  }

  /** The state after one call of the initialisation with the given event setup. */
  function AfterInit(s: MaskState, setup: EventSetup): (r: MaskState)
    ensures r.init
    ensures s.init ==> r == s
    ensures r.channelStatus != s.channelStatus ==>
      !s.init && setup.channelRecord.Some? && setup.channelRecord.value.ValidHandle?
    ensures r.towerStatus != s.towerStatus ==>
      !s.init && setup.towerRecord.Some? && setup.towerRecord.value.ValidHandle?
  {
    if s.init then s
    else MaskState(true, Bind(setup.channelRecord, s.channelStatus), Bind(setup.towerRecord, s.towerStatus))
  }

  /** The state after successive calls of the initialisation, one per event setup. */
  function AfterInits(s: MaskState, setups: seq<EventSetup>): MaskState
    decreases |setups|
  {
    if setups == [] then s else AfterInits(AfterInit(s, setups[0]), setups[1..])
  }

  /**
   * The resolver's static fields. A single instance stands for the
   * process-wide state shared by every caller.
   */
  class Masks {
    var init: bool
    var channelStatus: Option<StatusTable>
    var towerStatus: Option<StatusTable>

    /** Tables are bound only by the initialisation. */
    ghost predicate Valid()
      reads this
    {
      !init ==> channelStatus.None? && towerStatus.None?
    }

    function Snapshot(): MaskState
      reads this
    {
      MaskState(init, channelStatus, towerStatus)
    }

    /** The static initialisers: no tables, not initialised. */
    constructor ()
      ensures Valid()
      ensures Snapshot() == Uninitialised
    {
      init := false;
      channelStatus := None;
      towerStatus := None;
    }

    /**
     * Binds each status table whose record the event setup holds with a
     * valid handle, the first time it is called; every later call returns
     * at once. `verbose` only selects diagnostic output, which is not modelled.
     */
    method InitMasking(setup: EventSetup, verbose: bool)
      requires Valid()
      modifies this
      ensures Valid()
      ensures init
      ensures old(init) ==> unchanged(this)
      ensures !old(init) && !(setup.channelRecord.Some? && setup.channelRecord.value.ValidHandle?) ==>
        channelStatus == None
      ensures !old(init) && !(setup.towerRecord.Some? && setup.towerRecord.value.ValidHandle?) ==>
        towerStatus == None
      ensures Snapshot() == AfterInit(old(Snapshot()), setup)
    {
      if init {
        return;
      }
      init := true;
      match setup.channelRecord {
        case Some(handle) =>
          if handle.ValidHandle? {
            channelStatus := Some(handle.product);
          }
        case None =>
      }
      match setup.towerRecord {
        case Some(handle) =>
          if handle.ValidHandle? {
            towerStatus := Some(handle.product);
          }
        case None =>
      }
    }
  }

  /** Whether `table` is bound and holds an entry for `id` sharing a flag with `bits`. */
  predicate Flagged(table: Option<StatusTable>, id: RawId, bits: bv32)
  {
    table.Some? && id in table.value && SharesFlag(table.value[id], bits)
  }

  /** Whether some entry of a bound `table` shares a flag with `bits`. */
  predicate AnyFlagged(table: Option<StatusTable>, bits: bv32)
  {
    table.Some? && exists id :: id in table.value && SharesFlag(table.value[id], bits)
  }

  /**
   * The tower-level mask: whether the trigger tower (barrel) or
   * super-crystal (endcap) holding local cell (ix, iy) of module `ism`
   * has a status sharing a flag with `bits`. An endcap cell that is not a
   * crystal of its sector is never masked; any other subdetector tag is an
   * error carrying that tag.
   */
  function MaskTower(s: MaskState, geo: Geometry, ism: int, ix: int, iy: int, bits: bv32, subdet: Subdet)
    : (r: Result<bool, MaskError>)
    ensures r.Failure? <==> subdet.Other?
    ensures subdet.Other? ==> r.error == InvalidSubdetector(subdet.code)
    ensures r == Success(true) ==> bits != 0 && AnyFlagged(s.towerStatus, bits)
    ensures subdet == Endcap && !EndcapCellValid(geo, ism, ix, iy) ==> r == Success(false)
  {
    match subdet
    case Barrel =>
      Success(Flagged(s.towerStatus, geo.ebTower(BarrelCrystalId(geo, ism, ix, iy)), bits))
    case Endcap =>
      if EndcapCellValid(geo, ism, ix, iy) then
        Success(Flagged(s.towerStatus, geo.eeSuperCrystal(EndcapCrystalId(geo, ism, ix, iy)), bits))
      else
        Success(false)
    case Other(code) =>
      Failure(InvalidSubdetector(code))
  }

  /**
   * The channel-level mask: whether the crystal at local cell (ix, iy) of
   * module `ism` has a status sharing a flag with `bits`, or its tower or
   * super-crystal is masked. An endcap cell that is not a crystal of its
   * sector is never masked; any other subdetector tag is an error carrying
   * that tag.
   */
  function MaskChannel(s: MaskState, geo: Geometry, ism: int, ix: int, iy: int, bits: bv32, subdet: Subdet)
    : (r: Result<bool, MaskError>)
    ensures r.Failure? <==> subdet.Other?
    ensures subdet.Other? ==> r.error == InvalidSubdetector(subdet.code)
    ensures MaskTower(s, geo, ism, ix, iy, bits, subdet) == Success(true) ==> r == Success(true)
    ensures r == Success(true) ==>
      bits != 0 && (AnyFlagged(s.channelStatus, bits) || AnyFlagged(s.towerStatus, bits))
    ensures subdet == Endcap && !EndcapCellValid(geo, ism, ix, iy) ==> r == Success(false)
  {
    match subdet
    case Barrel =>
      var channel := Flagged(s.channelStatus, BarrelCrystalId(geo, ism, ix, iy), bits);
      Success(channel || MaskTower(s, geo, ism, ix, iy, bits, Barrel).value)
    case Endcap =>
      if EndcapCellValid(geo, ism, ix, iy) then
        var channel := Flagged(s.channelStatus, EndcapCrystalId(geo, ism, ix, iy), bits);
        Success(channel || MaskTower(s, geo, ism, ix, iy, bits, Endcap).value)
      else
        Success(false)
    case Other(code) =>
      Failure(InvalidSubdetector(code))
  }
}
