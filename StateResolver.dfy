/**
 * The state the order is about to move into, stated as three rules with a
 * fixed precedence. This is the specification against which the imperative
 * resolver in module Orderstatus is proved; the lemmas below state the
 * rules' consequences one by one.
 */
module StateResolver {
  import opened Wrappers
  import opened SalesOrder

  /** The order has reached the end of the normal fulfilment path. */
  predicate FulfilmentExhausted(o: Order)
  {
    !o.isCanceled && !o.canUnhold && !o.canInvoice && !o.canShip
  }

  /** Nothing is left to pay back: a zero grand total, or a credit memo is still possible. */
  predicate NothingToRefund(o: Order)
  {
    o.baseGrandTotal == 0 || o.canCreditmemo
  }

  /** The complete rule: fulfilment exhausted and nothing left to refund. */
  predicate CompleteRule(o: Order)
  {
    FulfilmentExhausted(o) && NothingToRefund(o)
  }

  /**
   * The closed rule: fulfilment exhausted, money still outstanding, and either
   * a nonzero refunded amount or (no refund yet and the forced override).
   */
  predicate ClosedRule(o: Order)
  {
    && FulfilmentExhausted(o)
    && !NothingToRefund(o)
    && (RefundedNonzero(o) || (!RefundedNonzero(o) && o.hasForcedCanCreditmemo))
  }

  /** The activation rule: a new order whose in-process flag is set. */
  predicate ProcessingRule(o: Order)
  {
    o.state == STATE_NEW && o.isInProcess
  }

  /**
   * The state the order moves into, if any. Activation has priority over the
   * complete and closed rules, and those two never fire when the order is
   * already in their target state.
   */
  function TargetState(o: Order): (t: Option<string>)
    ensures t.Some? ==> t.value in {STATE_PROCESSING, STATE_COMPLETE, STATE_CLOSED}
    ensures t.Some? ==> t.value != o.state
    ensures t == Some(STATE_PROCESSING) <==> ProcessingRule(o)
    ensures t == Some(STATE_COMPLETE) <==> !ProcessingRule(o) && CompleteRule(o) && o.state != STATE_COMPLETE
    ensures t == Some(STATE_CLOSED) <==> !ProcessingRule(o) && ClosedRule(o) && o.state != STATE_CLOSED
  {
    if ProcessingRule(o) then Some(STATE_PROCESSING)
    else if CompleteRule(o) && o.state != STATE_COMPLETE then Some(STATE_COMPLETE)
    else if ClosedRule(o) && o.state != STATE_CLOSED then Some(STATE_CLOSED)
    else None
  }

  /**
   * The staged pair: the target state with its configured default status, or
   * the order's own pair when no rule selects a target.
   */
  function Resolve(o: Order, defaultStatus: string -> string): (p: StagedPair)
    ensures p.state in {o.state, STATE_PROCESSING, STATE_COMPLETE, STATE_CLOSED}
    ensures p.state == o.state ==> p.status == o.status
    ensures p.state != o.state ==> p.status == defaultStatus(p.state)
    ensures ProcessingRule(o) ==> p == StagedPair(STATE_PROCESSING, defaultStatus(STATE_PROCESSING))
  {
    match TargetState(o)
    case Some(s) => StagedPair(s, defaultStatus(s))
    case None => StagedPair(o.state, o.status)
  }

  /** Only an unchanged order keeps its pair: a transition is always to a different state. */
  lemma UnchangedIffNoTarget(o: Order, defaultStatus: string -> string)
    ensures Resolve(o, defaultStatus) == StagedPair(o.state, o.status) <==> TargetState(o) == None
  {
  }

  /**
   * Completion: a fulfilment-exhausted order with a zero grand total that is
   * not being activated and not yet complete is staged as complete with the
   * default status, and the refunded amount plays no part.
   */
  lemma CompletionPrecedence(o: Order, refunded: Option<int>, defaultStatus: string -> string)
    requires FulfilmentExhausted(o) && o.baseGrandTotal == 0
    requires !ProcessingRule(o) && o.state != STATE_COMPLETE
    ensures Resolve(o, defaultStatus) == StagedPair(STATE_COMPLETE, defaultStatus(STATE_COMPLETE))
    ensures Resolve(o.(totalRefunded := refunded), defaultStatus) == Resolve(o, defaultStatus)
  {
  }

  /**
   * Closure: a fulfilment-exhausted order with a nonzero grand total, no
   * possible credit memo and a nonzero refunded amount, not being activated
   * and not yet closed, is staged as closed.
   */
  lemma ClosurePath(o: Order, defaultStatus: string -> string)
    requires FulfilmentExhausted(o) && o.baseGrandTotal != 0 && !o.canCreditmemo
    requires RefundedNonzero(o)
    requires !ProcessingRule(o) && o.state != STATE_CLOSED
    ensures Resolve(o, defaultStatus) == StagedPair(STATE_CLOSED, defaultStatus(STATE_CLOSED))
  {
  }

  /** The refund part of the closed rule amounts to "refunded, or forced". */
  lemma ClosedRuleRefundCondition(o: Order)
    ensures ClosedRule(o) <==> FulfilmentExhausted(o) && !NothingToRefund(o) && (RefundedNonzero(o) || o.hasForcedCanCreditmemo)
  {
  }

  /** The complete and closed rules never hold together. */
  lemma CompleteClosedExclusive(o: Order)
    ensures !(CompleteRule(o) && ClosedRule(o))
  {
  }

  /**
   * Activation overrides: a new, in-process order is staged as processing even
   * when the complete or closed rule would otherwise have chosen its target.
   */
  lemma ActivationOverrides(o: Order, defaultStatus: string -> string)
    requires o.state == STATE_NEW && o.isInProcess
    requires CompleteRule(o) || ClosedRule(o)
    ensures Resolve(o, defaultStatus).state == STATE_PROCESSING
    ensures Resolve(o.(isInProcess := false), defaultStatus).state in {STATE_COMPLETE, STATE_CLOSED}
  {
  }

  /**
   * An order that is already complete (or closed) and meets that rule keeps
   * its own pair: there is no transition into the state it is in.
   */
  lemma AlreadyThereKeepsPair(o: Order, defaultStatus: string -> string)
    requires (CompleteRule(o) && o.state == STATE_COMPLETE) || (ClosedRule(o) && o.state == STATE_CLOSED)
    ensures Resolve(o, defaultStatus) == StagedPair(o.state, o.status)
  {
  }

  /** An order that meets no rule keeps its own pair. */
  lemma NoRuleKeepsPair(o: Order, defaultStatus: string -> string)
    requires !ProcessingRule(o) && !CompleteRule(o) && !ClosedRule(o)
    ensures Resolve(o, defaultStatus) == StagedPair(o.state, o.status)
  {
  }

  /**
   * Writing the staged pair back into the order and resolving again gives the
   * same pair, except after an activation that the complete or closed rule
   * would follow up on the next save.
   */
  lemma StagedPairIsStable(o: Order, defaultStatus: string -> string)
    ensures var p := Resolve(o, defaultStatus);
      Resolve(ApplyStaged(o, p), defaultStatus) == p
      <==> !(ProcessingRule(o) && (CompleteRule(o) || ClosedRule(o)))
  {
  }
}
