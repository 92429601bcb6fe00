/**
 * The conditions data the resolver binds to: two status tables, the
 * handles through which they are fetched, and the event setup that may or
 * may not hold a record of each kind for the current epoch.
 */
module Conditions {
  import opened Wrappers
  import opened EcalGeometry

  /** A status code: a word of defect flags, one flag per bit. */
  type StatusCode = bv32

  /** Status codes by raw detector id (channel ids or tower / super-crystal ids). */
  type StatusTable = map<RawId, StatusCode>

  /** What fetching a record yields: a handle that may or may not hold a product. */
  datatype Handle<T> = InvalidHandle | ValidHandle(product: T)

  /**
   * The event setup as the resolver sees it: for each record kind, `None`
   * when the setup has no such record, otherwise the handle it hands out.
   */
  datatype EventSetup = EventSetup(
    channelRecord: Option<Handle<StatusTable>>,
    towerRecord: Option<Handle<StatusTable>>
  )
}
