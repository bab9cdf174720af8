# State/status integrity gate for sales orders

This project models the Magento 1 extension class
`Vianetz_StateStatusIntegrity_Model_Orderstatus`, an observer that runs
before a sales order is saved. It does two things:

- **State resolver.** It predicts the lifecycle state the order is about to
  move into. It repeats the host order's own `_checkState()` routine: the
  complete rule, then the closed rule, then the new→processing activation,
  which overwrites whatever the first two chose. It stages a (state, status)
  pair in the model object's own `orderState`/`orderStatus` fields: either
  the target state with that state's default status, or the order's own pair.
- **Integrity validator.** If the staged state or status is empty (a
  brand-new order), the save goes through unchecked. Otherwise the
  status→state assignment registry must hold exactly one row for the pair.
  If it does not, an exception naming the status and the state aborts the
  save.

Modules:

- `Wrappers`: `Option` (PHP null) and `Outcome` (returns normally, or raises).
- `SalesOrder`: the order snapshot the gate reads. It holds state, status,
  base grand total, total refunded (`None` when unset) and the seven
  capability flags. It also holds the state constants and the staged pair.
- `StateResolver`: the three rules as predicates and the target state with
  its precedence (`TargetState`, `Resolve`). The lemmas state each rule's
  consequence.
- `AssignmentRegistry`: the registry as a sequence of (status, state) rows.
  The two collection filters are functions over it, and the
  exactly-one-row test is proved equal to "the pair occurs once in the
  multiset of rows".
- `StateStatusIntegrity`: the class `Orderstatus` with its two fields. It
  has the imperative resolver `ApplyOrderStateLogic`, which reassigns a local
  target step by step as the PHP does, and the hook
  `CheckStateStatusIntegrity`. Both are proved against `Resolve` and
  `CheckPair`. The module also holds the error message and three worked
  scenarios.

Amounts are exact integers in minor currency units. The code's tests are
kept: the grand total is tested for equality with zero, and the refunded
amount only for being nonzero. The refund test (`floatval(...)` used as a
truth value) therefore accepts a negative refunded amount as well as a
positive one, and the model keeps that.

The host routine `Mage_Sales_Model_Order::_checkState()` is not part of
this model. As far as that routine is known, it changes the order's state
before its own new→processing test. This class tests the order's original
state instead. So an order in "new" that is in process and also meets the
complete or closed rule is staged here as "processing". `StagedPairIsStable`
shows that this is the only case where saving the staged pair and resolving
again does not give the same pair back.

## Model

| member | source | states |
|---|---|---|
| `StateResolver.TargetState` | src/app/code/community/Vianetz/StateStatusIntegrity/Model/Orderstatus.php:79-100 | A target, when there is one, is processing, complete or closed, and it always differs from the current state. Processing is chosen iff the order is new and in process. Complete is chosen iff activation does not apply, the complete rule holds and the order is not complete yet. Closed is chosen likewise with the closed rule. |
| `StateResolver.Resolve` | src/app/code/community/Vianetz/StateStatusIntegrity/Model/Orderstatus.php:102-110 | The staged state is the current one or one of processing, complete and closed. State and status are staged together: a changed state comes with its default status, and an unchanged state keeps the order's status. A new, in-process order is staged as processing with that state's default status. |
| `StateResolver.UnchangedIffNoTarget` | src/app/code/community/Vianetz/StateStatusIntegrity/Model/Orderstatus.php:102-110 | The staged pair equals the order's own pair exactly when no rule selected a target. |
| `StateResolver.CompletionPrecedence` | src/app/code/community/Vianetz/StateStatusIntegrity/Model/Orderstatus.php:81-88 | Take an order whose fulfilment is exhausted, whose grand total is zero, that is not being activated and not yet complete. It is staged as complete with complete's default status, and changing its refunded amount changes nothing. |
| `StateResolver.ClosurePath` | src/app/code/community/Vianetz/StateStatusIntegrity/Model/Orderstatus.php:89-95 | Take an order whose fulfilment is exhausted, with a nonzero grand total, no possible credit memo and a nonzero refunded amount, not being activated and not yet closed. It is staged as closed with closed's default status. |
| `StateResolver.ClosedRuleRefundCondition` | src/app/code/community/Vianetz/StateStatusIntegrity/Model/Orderstatus.php:89-91 | The refund test of the closed branch holds exactly when the refunded amount is nonzero or the forced credit-memo flag is present. |
| `StateResolver.CompleteClosedExclusive` | src/app/code/community/Vianetz/StateStatusIntegrity/Model/Orderstatus.php:85-95 | The complete and closed branches never both apply, because closed is the else-branch of complete. |
| `StateResolver.ActivationOverrides` | src/app/code/community/Vianetz/StateStatusIntegrity/Model/Orderstatus.php:98-100 | A new, in-process order that meets the complete or closed rule is staged as processing. With the in-process flag cleared, the same order would be staged as complete or closed. |
| `StateResolver.AlreadyThereKeepsPair` | src/app/code/community/Vianetz/StateStatusIntegrity/Model/Orderstatus.php:85-95 | An order that is already complete (or closed) and meets that rule keeps its own state and status. |
| `StateResolver.NoRuleKeepsPair` | src/app/code/community/Vianetz/StateStatusIntegrity/Model/Orderstatus.php:107-109 | An order that meets no rule keeps its own state and status. |
| `StateResolver.StagedPairIsStable` | src/app/code/community/Vianetz/StateStatusIntegrity/Model/Orderstatus.php:81-110 | Write the staged pair into the order and resolve again. The result is the same pair iff the order was not activated while also meeting the complete or closed rule. |
| `AssignmentRegistry.StateCollectionForStatus` | src/app/code/community/Vianetz/StateStatusIntegrity/Model/Orderstatus.php:42-47 | The status query keeps only rows with the given status. Every such row keeps its multiplicity. |
| `AssignmentRegistry.AddStateFilter` | src/app/code/community/Vianetz/StateStatusIntegrity/Model/Orderstatus.php:59-60 | The state filter keeps only rows with the given state. Every such row keeps its multiplicity. |
| `AssignmentRegistry.IsStatusAssignedToState` | src/app/code/community/Vianetz/StateStatusIntegrity/Model/Orderstatus.php:57-63 | The pair is accepted iff it occurs exactly once among the registry's rows, so zero rows and several rows are both rejected. An accepted pair is registered. |
| `AssignmentRegistry.AssignedIffUniqueRow` | src/app/code/community/Vianetz/StateStatusIntegrity/Model/Orderstatus.php:57-63 | The pair is accepted iff some row holds it and no other row does. |
| `AssignmentRegistry.AssignedIffRegistered` | src/app/code/community/Vianetz/StateStatusIntegrity/Model/Orderstatus.php:57-63 | In a registry without duplicate rows, the pair is accepted iff it is registered. |
| `AssignmentRegistry.DuplicateRowsRejected` | src/app/code/community/Vianetz/StateStatusIntegrity/Model/Orderstatus.php:62 | If two distinct rows hold the same pair, that pair is rejected. |
| `StateStatusIntegrity.ErrorMessage` | src/app/code/community/Vianetz/StateStatusIntegrity/Model/Orderstatus.php:28 | The message is the fixed template with the status quoted at the first gap and the state at the second. |
| `StateStatusIntegrity.CheckPair` | src/app/code/community/Vianetz/StateStatusIntegrity/Model/Orderstatus.php:19-32 | The pair passes iff its state or status is empty, or it occurs exactly once in the registry. A failure carries exactly that status and that state. |
| `StateStatusIntegrity.SkipIgnoresRegistry` | src/app/code/community/Vianetz/StateStatusIntegrity/Model/Orderstatus.php:22-25 | An empty state or status passes, and the result is the same for any two registries. |
| `StateStatusIntegrity.MissingOrAmbiguousRejected` | src/app/code/community/Vianetz/StateStatusIntegrity/Model/Orderstatus.php:27-30 | A nonempty pair with no row, or with two or more rows, fails with the error naming its status and state. |
| `StateStatusIntegrity.TransitionSkippedOnlyWithoutDefault` | src/app/code/community/Vianetz/StateStatusIntegrity/Model/Orderstatus.php:102-106 | When a rule fires, the staged state is never empty. The check can then be skipped only if the target state's default status is empty. |
| `StateStatusIntegrity.Orderstatus.ApplyOrderStateLogic` | src/app/code/community/Vianetz/StateStatusIntegrity/Model/Orderstatus.php:77-113 | The fields hold exactly the pair `Resolve` gives for the order. This holds whatever they held before. |
| `StateStatusIntegrity.Orderstatus.CheckStateStatusIntegrity` | src/app/code/community/Vianetz/StateStatusIntegrity/Model/Orderstatus.php:12-33 | The hook stages the resolved pair in the fields. Its outcome is the verdict `CheckPair` gives on that pair. |
| `StateStatusIntegrity.HookIsRepeatable` | src/app/code/community/Vianetz/StateStatusIntegrity/Model/Orderstatus.php:12-33 | Running the hook twice on the same order gives the same verdict, and that verdict is the one on the resolved pair. |
| `StateStatusIntegrity.ScenarioUnchangedPairAccepted` | src/app/code/community/Vianetz/StateStatusIntegrity/Model/Orderstatus.php:17-32 | A processing order that can still be invoiced keeps ("processing", "processing_custom"). It passes against a registry with one row for that pair. |
| `StateStatusIntegrity.ScenarioForeignStatusRejected` | src/app/code/community/Vianetz/StateStatusIntegrity/Model/Orderstatus.php:17-32 | A complete order whose status is "canceled" keeps its pair. It fails with the error naming "canceled" and "complete". |
| `StateStatusIntegrity.ScenarioBrandNewOrderPasses` | src/app/code/community/Vianetz/StateStatusIntegrity/Model/Orderstatus.php:17-25 | An order with empty state and status that meets no rule keeps the empty pair. It passes for every registry. |

## Left out

- The event plumbing (the observer object, `getEvent()->getOrder()`, the `sales_order_save_before` wiring) is left out. The hook takes the order value directly.
- The SQL collection machinery (status collection, `joinStates`, `addFieldToFilter`, `addStateFilter`, `count()`) is left out. The registry is the sequence of joined (status, state) rows. A status missing from the status table is not modelled separately from a status with no assignment.
- The order's business rules behind `isCanceled`, `canUnhold`, `canInvoice`, `canShip`, `canCreditmemo`, `hasForcedCanCreditmemo` and `getIsInProcess` are left out. They are opaque boolean inputs.
- The configured default-status lookup (`getConfig()->getStateDefaultStatus`) is a total function passed as a parameter. Its configuration source is not modelled.
- Translation of the error message and the exception mechanism are left out. A raised exception is `Fail` carrying the status and the state, and `ErrorMessage` renders the untranslated template.
- Floating-point amounts and PHP loose comparison are left out. Amounts are exact integers. A stored refunded amount such as the string "0.0000", which PHP treats as true, is not represented.
- PHP's `empty()` also treats "0" as empty. The model treats only the empty string as empty. A null target state is the empty string.
- The host routine `Mage_Sales_Model_Order::_checkState()` is not part of this model. Only this class's copy of it is modelled.
- Concurrency and failures of the registry query are left out. The registry is a fixed value for one check.
