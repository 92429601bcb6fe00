# ECAL data-quality masks, modelled in Dafny

This project models the masking resolver of the ECAL data-quality monitoring
code (`DQM/EcalCommon/src/Masks.cc`). The resolver keeps three process-wide static
fields: the `init` flag and optional references to the channel status table
and the tower status table. It offers three operations:

- `initMasking` binds the two tables from the event setup. It does this once: every later call
  returns at once.
- `maskChannel` tells whether a crystal is masked for a query word of status flags. It looks up
  the crystal in the channel table and ORs in the tower-level answer.
- `maskTower` tells whether the trigger tower (barrel) or super-crystal (endcap) that holds the
  crystal is masked, using the tower table.

A status entry masks when its code and the query word share a set bit
(`status & bits != 0`), not when they are equal. Any subdetector tag other than
barrel or endcap raises an error that carries the tag.

Files:

- `wrappers.dfy`: `Option` and `Result`.
- `ecal_geometry.dfy` (module `EcalGeometry`): the detector-identifier facility the resolver
  calls. It gives the barrel crystal numbering, the endcap side rule and the endcap coordinate
  translation. The identifier constructors, `tower()`, `sc()`, `Numbers::ix0EE`,
  `Numbers::iy0EE` and `Numbers::validEE` are fields of a `Geometry` value. They are passed to
  the queries and their formulas are not modelled.
- `conditions.dfy` (module `Conditions`): status tables, record handles, and the event setup.
  The event setup holds an optional record of each kind.
- `status_bits.dfy` (module `StatusBits`): the bit test and its reading as "some flag is set in
  both words".
- `masks.dfy` (module `EcalMasks`): the resolver.
  - The class `Masks` has the three static fields. Its method `InitMasking` keeps the early return.
  - `AfterInit` gives the state after one call, as a function.
  - `MaskTower` and `MaskChannel` are functions over a snapshot of the state. They return
    `Result<bool, MaskError>` in place of the thrown `std::runtime_error`.
- `masks_properties.dfy` (module `MaskProperties`): lemmas that relate several calls.

The `bool mask` of the source is accumulated with `mask |= status & bits`. This is modelled as
`mask || (status & bits) != 0`. The queries never read `init`, and neither does the model.

`init` is never cleared, so every call after the first returns at once and the table
references stay those the first call stored (`OnlyFirstInitCounts`).

## Model

| member | source | states |
|---|---|---|
| EcalMasks.Masks.constructor | DQM/EcalCommon/src/Masks.cc:35-38 | the static fields start with `init` false and both table references null |
| EcalMasks.Masks.InitMasking | DQM/EcalCommon/src/Masks.cc:42-64 | the new state is `AfterInit` of the old state; `init` is true afterwards; when `init` was already set nothing changes; it requires and keeps the invariant that no table is bound before initialisation, so on a first call a table whose record is missing or whose handle is invalid stays unbound |
| EcalMasks.AfterInit | DQM/EcalCommon/src/Masks.cc:44-60 | after any call `init` is true; an already-initialised state is returned unchanged; a table reference changes only on a first call whose setup holds that record with a valid handle |
| MaskProperties.InitBindsExactlyValidRecords | DQM/EcalCommon/src/Masks.cc:50-60 | on a first call each table is bound to the record's product exactly when the record exists and its handle is valid, and otherwise keeps its reference |
| MaskProperties.InitTablesIndependent | DQM/EcalCommon/src/Masks.cc:50-60 | each table's new reference depends only on its own record, so the two tables are handled independently |
| MaskProperties.InitialisedStaysPut | DQM/EcalCommon/src/Masks.cc:44 | once `init` is set, any number of further calls leave the state unchanged |
| MaskProperties.OnlyFirstInitCounts | DQM/EcalCommon/src/Masks.cc:44-48 | after a non-empty series of calls, each with its own event setup, the state is the one the first call produced, and `init` is true |
| MaskProperties.ChannelOnlySetupScenario | DQM/EcalCommon/src/Masks.cc:42-64 | a setup with only a channel record binds that table and leaves the tower table unbound; a second call with any setup changes nothing |
| EcalGeometry.BarrelCrystalIndex | DQM/EcalCommon/src/Masks.cc:74 | for columns 1 to 20, the crystal number of row `iy` lies in `(20*(iy-1), 20*iy]` |
| EcalGeometry.BarrelCrystalIndexInverse | DQM/EcalCommon/src/Masks.cc:74 | the column and the row are recovered from the crystal number by remainder and quotient by 20 |
| EcalGeometry.BarrelCrystalIndexInjective | DQM/EcalCommon/src/Masks.cc:74 | distinct cells with columns 1 to 20 get distinct crystal numbers |
| EcalGeometry.EndcapSide | DQM/EcalCommon/src/Masks.cc:87 | the endcap side is -1 or +1, and it is -1 exactly for sectors 1 to 9 |
| StatusBits.SharesFlagIffCommonFlag | DQM/EcalCommon/src/Masks.cc:77 | the bit test `status & bits != 0` holds exactly when some flag number below 32 is set in both the status and the query |
| StatusBits.SharesFlagOfUnion | DQM/EcalCommon/src/Masks.cc:77 | a status matches the union of two query words exactly when it matches one of them |
| StatusBits.SharesFlagExample | DQM/EcalCommon/src/Masks.cc:77 | status 0x6 does not match query 0x1 and does match query 0x2 |
| EcalMasks.MaskTower | DQM/EcalCommon/src/Masks.cc:109-144 | an error exactly for a tag other than barrel or endcap, and the error carries the tag; true only if the query is non-zero and a bound tower table holds an entry sharing a flag with it; false for an invalid endcap cell (the entry consulted is pinned by `BarrelTowerLookup` and `EndcapTowerLookup`) |
| EcalMasks.MaskChannel | DQM/EcalCommon/src/Masks.cc:68-105 | an error exactly for a tag other than barrel or endcap, and the error carries the tag; true whenever `MaskTower` with the same arguments is true; true only if the query is non-zero and a bound table holds an entry sharing a flag with it; false for an invalid endcap cell |
| MaskProperties.BarrelChannelLookup | DQM/EcalCommon/src/Masks.cc:74-79 | the barrel channel query is true exactly when the channel table's entry for crystal `(ix-1)+20*(iy-1)+1` of supermodule `ism` shares a flag with the query, or the barrel tower query is true |
| MaskProperties.EndcapChannelLookup | DQM/EcalCommon/src/Masks.cc:83-92 | on a valid endcap cell the channel query is true exactly when the entry for the crystal at the offset global coordinates shares a flag with the query, or the endcap tower query is true; the crystal is on side -1 for sectors 1 to 9 and on side +1 otherwise |
| MaskProperties.BarrelTowerLookup | DQM/EcalCommon/src/Masks.cc:115-118 | the barrel tower query is true exactly when the tower table's entry for the trigger tower of crystal `(ix-1)+20*(iy-1)+1` of supermodule `ism` shares a flag with the query |
| MaskProperties.EndcapTowerLookup | DQM/EcalCommon/src/Masks.cc:123-131 | on a valid endcap cell the tower query is true exactly when the tower table's entry for the super-crystal of the crystal at the offset global coordinates shares a flag with the query; the crystal is on side -1 for sectors 1 to 9 and on side +1 otherwise |
| MaskProperties.BarrelWorkedExample | DQM/EcalCommon/src/Masks.cc:74-79 | cell (3, 2) of supermodule 5 is crystal 23; with status 0x1 there and no tower table, the query 0x1 masks it |
| MaskProperties.UnboundTablesMaskNothing | DQM/EcalCommon/src/Masks.cc:70-132 | with both tables unbound, both queries return false for barrel and endcap |
| MaskProperties.EmptyQueryMasksNothing | DQM/EcalCommon/src/Masks.cc:70-132 | with a zero query word, both queries return false for barrel and endcap |
| MaskProperties.MaskTowerOfUnion | DQM/EcalCommon/src/Masks.cc:111-132 | the tower query for the union of two query words is the OR of the two separate queries |
| MaskProperties.MaskChannelOfUnion | DQM/EcalCommon/src/Masks.cc:70-93 | the channel query for the union of two query words is the OR of the two separate queries |
| MaskProperties.MaskChannelMonotoneInBits | DQM/EcalCommon/src/Masks.cc:70-93 | a channel masked for a query word stays masked for any query word that contains it |

## Left out

- `RecoTracker/SiTrackerMRHTools/src/module.cc` only registers four classes with framework macros. It has no behaviour to model.
- The geometry library: `EBDetId`, `EEDetId`, `rawId()`, `tower()`, `sc()`, `Numbers::ix0EE`, `Numbers::iy0EE` and `Numbers::validEE` are not part of this model. They are total functions supplied as a `Geometry` value. Any range checks or exceptions inside those constructors are not modelled.
- The event-setup machinery (`setup.find`, `setup.get<...>().get(handle)`, `handle.isValid()`) is an `EventSetup` value. It holds, for each record kind, either nothing or a handle that is valid or not. Exceptions the framework may raise while fetching are not modelled. The provider is a plain value, so "not queried again" is not observable. The model states that the state does not change.
- The verbose `std::cout` diagnostics and the text of the error message are I/O. Only the error kind and the subdetector value it carries are modelled.
- The width of a stored status code is not visible in this code. It is modelled as 32 bits, like the `uint32_t` query word.
- MaskChannel: `ix`, `iy` and `ism` are unbounded integers. The 32-bit `int` arithmetic in the crystal number and the endcap offsets (overflow there is undefined in C++) is not modelled. The same holds for MaskTower.
- The static fields are process-wide and the code has no locking. Concurrent callers are not modelled: one `Masks` object stands for the shared state.
- There is no re-initialisation across conditions epochs, because the code has none.
- Table references are modelled as immutable table values. The code stores a non-owning pointer to the product, whose storage the event setup owns. What that pointer designates after the record's validity interval ends (the same table, a replacement, or freed storage) is not modelled: aliasing and lifetime of the product are left out.
