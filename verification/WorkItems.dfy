/**
 The values that travel through a tenant's pipeline, and the declarative meaning of
 one message's processing: which attempts succeed decides what becomes of it.
 */
module WorkItems {

  /** A raw JSON payload; `isObject` says whether it decodes into a JSON object. */
  datatype Payload = Payload(text: string, isObject: bool)

  datatype WorkItem = WorkItem(messageID: string, tenantID: string, payload: Payload, retryCount: int)

  /** What becomes of an item a worker has taken from the queue. `Dropped` is an item
      whose attempts all failed and which was nevertheless not dead-lettered. */
  datatype Outcome = Completed | DeadLettered | Dropped

  /** Every attempt the loop is allowed to make fails (none is allowed if maxRetry < 0). */
  ghost predicate Exhausted(results: nat -> bool, maxRetry: int) {
    forall i: nat :: i <= maxRetry ==> !results(i)
  }

  /** The outcome of an item, read off the attempts' results and the retry count the
      item carried when it was taken from the queue. */
  ghost function OutcomeOf(item: WorkItem, maxRetry: int, results: nat -> bool): Outcome {
    if !Exhausted(results, maxRetry) then Completed
    else if item.retryCount >= maxRetry then DeadLettered
    else Dropped
  }
}
