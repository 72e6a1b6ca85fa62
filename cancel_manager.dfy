/**
  `CancelManager` (src/lib/algorithms/services/cancel-manager.ts): the
  cancellation flag of an algorithm run. Its `cancelling` counter starts at 0
  and no code ever assigns it, since `cancel` and `resetCancel` have empty
  bodies; the model therefore makes the counter a constant. The
  `cancelRequested` and `cancelReseted` subjects are never notified.
 */
module CancelManagers {

  class CancelManager {
    /** The `cancelling` counter, initialised to 0 and never written. */
    const cancelling: int := 0

    constructor ()
      ensures !IsCancelling()
    {
    }

    /** `isCancelling`: the counter is above 0. */
    predicate IsCancelling()
    {
      cancelling > 0
    }

    /** `cancel()` does nothing, so the manager never starts cancelling. */
    method Cancel()
      ensures !IsCancelling()
    {
    }

    /** `resetCancel()` does nothing either. */
    method ResetCancel()
      ensures !IsCancelling()
    {
    }
  }

  /** No manager is ever cancelling: the algorithms' cancellation checks can
      never stop a run. */
  lemma NeverCancelling(m: CancelManager)
    ensures !m.IsCancelling() && m.cancelling == 0
  {
  }
}
