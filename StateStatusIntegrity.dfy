/**
 * The pre-save gate on orders: the model object that resolves the state an
 * order is about to move into, stages a (state, status) pair in its own two
 * fields, and rejects the save when the registry does not hold exactly one
 * assignment of that status to that state.
 */
module StateStatusIntegrity {
  import opened Wrappers
  import opened SalesOrder
  import opened StateResolver
  import opened AssignmentRegistry

  /** The save is aborted because the status is not assigned to the state. */
  datatype IntegrityError = StatusNotAssignedToState(status: string, state: string)

  const MESSAGE_HEAD: string := "Error: Order status \""
  const MESSAGE_MIDDLE: string := "\" is not assigned to state \""
  const MESSAGE_TAIL: string := "\"."

  /** The operator-facing message of an integrity error: it quotes the status, then the state. */
  function ErrorMessage(e: IntegrityError): (m: string)
    ensures |m| == |MESSAGE_HEAD| + |e.status| + |MESSAGE_MIDDLE| + |e.state| + |MESSAGE_TAIL|
    ensures m[..|MESSAGE_HEAD|] == MESSAGE_HEAD
    ensures m[|MESSAGE_HEAD|..|MESSAGE_HEAD| + |e.status|] == e.status
    ensures m[|MESSAGE_HEAD| + |e.status| + |MESSAGE_MIDDLE|..|m| - |MESSAGE_TAIL|] == e.state
    ensures m[|m| - |MESSAGE_TAIL|..] == MESSAGE_TAIL
  {
    MESSAGE_HEAD + e.status + MESSAGE_MIDDLE + e.state + MESSAGE_TAIL
  }

  /**
   * The verdict on a staged pair: an empty state or status (a brand-new order)
   * passes without a lookup; otherwise the pair passes exactly when the
   * registry holds one row for it, and fails with an error naming both values.
   */
  function CheckPair(registry: seq<Assignment>, state: string, status: string): (r: Outcome<IntegrityError>)
    ensures r.Pass? <==> state == "" || status == "" || Occurrences(registry, Assignment(status, state)) == 1
    ensures r.Fail? ==> r.error == StatusNotAssignedToState(status, state)
  {
    if state == "" || status == "" then Pass
    else if IsStatusAssignedToState(registry, status, state) then Pass
    else Fail(StatusNotAssignedToState(status, state))
  }

  /** An empty state or status passes whatever the registry holds: it is never consulted. */
  lemma SkipIgnoresRegistry(registry: seq<Assignment>, other: seq<Assignment>, state: string, status: string)
    requires state == "" || status == ""
    ensures CheckPair(registry, state, status) == CheckPair(other, state, status) == Pass
  {
  }

  /** A nonempty pair fails when it has no row, and fails when it has several. */
  lemma MissingOrAmbiguousRejected(registry: seq<Assignment>, state: string, status: string)
    requires state != "" && status != ""
    requires Assignment(status, state) !in registry || Occurrences(registry, Assignment(status, state)) >= 2
    ensures CheckPair(registry, state, status) == Fail(StatusNotAssignedToState(status, state))
  {
  }

  /**
   * When a rule selects a transition, the staged state is never empty, so the
   * check is skipped only if that state has no default status configured.
   */
  lemma TransitionSkippedOnlyWithoutDefault(o: Order, defaultStatus: string -> string, registry: seq<Assignment>)
    requires TargetState(o).Some?
    ensures var p := Resolve(o, defaultStatus);
      p.state != "" && (p.status == "" ==> CheckPair(registry, p.state, p.status) == Pass)
  {
  }

  /** The object whose two fields hold the staged pair between resolution and validation. */
  class Orderstatus {
    var orderState: string
    var orderStatus: string

    /** A fresh model object has no staged pair yet. */
    constructor ()
      ensures orderState == "" && orderStatus == ""
    {
      orderState := "";
      orderStatus := "";
    }

    /**
     * Predicts the host's own state transition and stages the resulting pair in
     * this object's fields; the order itself is a value and is left as it was.
     * The empty string stands for "no target yet".
     */
    method ApplyOrderStateLogic(order: Order, defaultStatus: string -> string)
      modifies this
      ensures StagedPair(orderState, orderStatus) == Resolve(order, defaultStatus)
    {
      var newOrderState := "";

      if !order.isCanceled && !order.canUnhold && !order.canInvoice && !order.canShip {
        if order.baseGrandTotal == 0 || order.canCreditmemo {
          if order.state != STATE_COMPLETE {
            newOrderState := STATE_COMPLETE;
          }
        } else if RefundedNonzero(order) || (!RefundedNonzero(order) && order.hasForcedCanCreditmemo) {
          if order.state != STATE_CLOSED {
            newOrderState := STATE_CLOSED;
          }
        }
      }

      if order.state == STATE_NEW && order.isInProcess {
        newOrderState := STATE_PROCESSING;
      }

      if newOrderState != "" {
        var defaultOrderStatus := defaultStatus(newOrderState);
        orderState := newOrderState;
        orderStatus := defaultOrderStatus;
      } else {
        orderState := order.state;
        orderStatus := order.status;
      }
    }

    /**
     * The pre-save hook: stage the resolved pair, then validate it against the
     * registry. `Fail` stands for the raised exception that aborts the save.
     */
    method CheckStateStatusIntegrity(order: Order, defaultStatus: string -> string, registry: seq<Assignment>)
      returns (outcome: Outcome<IntegrityError>)
      modifies this
      ensures StagedPair(orderState, orderStatus) == Resolve(order, defaultStatus)
      ensures outcome == CheckPair(registry, orderState, orderStatus)
    {
      ApplyOrderStateLogic(order, defaultStatus);

      var state := orderState;
      var status := orderStatus;

      if state == "" || status == "" {
        return Pass;
      }

      if !IsStatusAssignedToState(registry, status, state) {
        return Fail(StatusNotAssignedToState(status, state));
      }

      return Pass;
    }
  }

  /** Running the hook twice on the same order stages the same pair and gives the same verdict. */
  method HookIsRepeatable(order: Order, defaultStatus: string -> string, registry: seq<Assignment>)
    returns (first: Outcome<IntegrityError>, second: Outcome<IntegrityError>)
    ensures first == second
    ensures first == CheckPair(registry, Resolve(order, defaultStatus).state, Resolve(order, defaultStatus).status)
  {
    var gate := new Orderstatus();
    first := gate.CheckStateStatusIntegrity(order, defaultStatus, registry);
    var pair := StagedPair(gate.orderState, gate.orderStatus);
    second := gate.CheckStateStatusIntegrity(order, defaultStatus, registry);
    assert StagedPair(gate.orderState, gate.orderStatus) == pair;
  }

  /** An order with every flag cleared, used by the scenarios below. */
  function PlainOrder(state: string, status: string): (o: Order)
    ensures o.state == state && o.status == status
    ensures FulfilmentExhausted(o) && !o.canCreditmemo && !o.isInProcess
  {
    Order(state, status, 0, None, false, false, false, false, false, false, false)
  }

  /**
   * An order in processing that can still be invoiced keeps its custom status,
   * and a registry with one row for the pair lets the save through.
   */
  lemma ScenarioUnchangedPairAccepted(defaultStatus: string -> string)
    ensures var o := PlainOrder(STATE_PROCESSING, "processing_custom").(canInvoice := true);
      && Resolve(o, defaultStatus) == StagedPair(STATE_PROCESSING, "processing_custom")
      && CheckPair([Assignment("processing_custom", STATE_PROCESSING), Assignment("canceled", "canceled")],
                   STATE_PROCESSING, "processing_custom") == Pass
  {
  }

  /**
   * A complete order carrying the status "canceled", which belongs only to the
   * canceled state, stays complete with its status and is rejected with an
   * error naming "canceled" and "complete".
   */
  lemma ScenarioForeignStatusRejected(defaultStatus: string -> string)
    ensures var o := PlainOrder(STATE_COMPLETE, "canceled");
      && Resolve(o, defaultStatus) == StagedPair(STATE_COMPLETE, "canceled")
      && CheckPair([Assignment("canceled", "canceled"), Assignment("complete", STATE_COMPLETE)],
                   STATE_COMPLETE, "canceled") == Fail(StatusNotAssignedToState("canceled", STATE_COMPLETE))
  {
  }

  /** A brand-new order with no state and no status passes whatever the registry holds. */
  lemma ScenarioBrandNewOrderPasses(defaultStatus: string -> string, registry: seq<Assignment>)
    ensures var o := PlainOrder("", "").(canShip := true);
      && Resolve(o, defaultStatus) == StagedPair("", "")
      && CheckPair(registry, "", "") == Pass
  {
  }
}
