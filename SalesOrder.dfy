/**
 * The read-only view of a sales order that the integrity check consumes:
 * its current lifecycle state and status, two amounts, and the capability
 * flags that the order's own business rules compute.
 */
module SalesOrder {
  import opened Wrappers

  /** Lifecycle states the check refers to (the host order's STATE_* constants). */
  const STATE_NEW: string := "new"
  const STATE_PROCESSING: string := "processing"
  const STATE_COMPLETE: string := "complete"
  const STATE_CLOSED: string := "closed"

  /**
   * Amounts are exact, in minor currency units. `totalRefunded` is `None`
   * while the order has never been refunded (the attribute is unset).
   * The seven flags are opaque inputs: `hasForcedCanCreditmemo` is true
   * when the forced credit-memo override is present on the order.
   */
  datatype Order = Order(
    state: string,
    status: string,
    baseGrandTotal: int,
    totalRefunded: Option<int>,
    isCanceled: bool,
    canUnhold: bool,
    canInvoice: bool,
    canShip: bool,
    canCreditmemo: bool,
    hasForcedCanCreditmemo: bool,
    isInProcess: bool)

  /** The truth value PHP gives the refunded amount: unset and zero are false. */
  predicate RefundedNonzero(o: Order)
  {
    o.totalRefunded.Some? && o.totalRefunded.value != 0
  }

  /** The (state, status) pair that the check stages for the save pipeline. */
  datatype StagedPair = StagedPair(state: string, status: string)

  /** The order as the save pipeline would write it once the staged pair is applied. */
  function ApplyStaged(o: Order, p: StagedPair): (o': Order)
    ensures o'.state == p.state && o'.status == p.status
  {
    o.(state := p.state, status := p.status)
  }
}
