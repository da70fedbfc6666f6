/** Provider receipts: one event changes the queue at most once, and only a row that was sent. */
module Webhooks {
  import opened Prelude
  import opened MessageQueue
  import opened Consent
  import opened Delivery
  import opened DeliveryRuns
  import opened DeliveryWrites

  datatype EventType = DeliveredEvent | BouncedEvent | ComplainedEvent | FailedEvent | OtherEvent

  datatype ProviderEvent = ProviderEvent(
    id: string, providerMessageId: string, kind: EventType, occurredAt: int, errorCode: Option<string>)

  datatype Recorded = Recorded(row: nat, kind: EventType, occurredAt: int)

  /** What the event writes on the queue row, if anything. */
  function ReceiptOf(e: ProviderEvent): Option<Receipt> {
    match e.kind
    case DeliveredEvent => Some(DeliveredReceipt(e.occurredAt))
    case BouncedEvent => Some(FailureReceipt(Bounced, e.errorCode))
    case ComplainedEvent => Some(FailureReceipt(Complained, e.errorCode))
    case FailedEvent => Some(FailureReceipt(Failed, e.errorCode))
    case OtherEvent => None
  }

  predicate Matching(r: Row, tenant: string, e: ProviderEvent) {
    r.tenant == tenant && r.providerMessageId == Some(e.providerMessageId)
  }

  /** What the row says after the event: the status is the event's kind, and only a sent row is ever delivered. */
  ghost predicate Tells(e: ProviderEvent, before: Row, after: Row) {
    var code := if e.errorCode.Some? then e.errorCode else before.errorCode;
    match e.kind
    case DeliveredEvent =>
      if before.sentAt.None? then after == before
      else
        var later := if e.occurredAt >= before.sentAt.value then e.occurredAt else before.sentAt.value;
        after == before.(status := Delivered, deliveredAt := Some(later))
    case BouncedEvent => after == before.(status := Bounced, errorCode := code)
    case ComplainedEvent => after == before.(status := Complained, errorCode := code)
    case FailedEvent => after == before.(status := Failed, errorCode := code, errorClass := Some(Terminal))
    case OtherEvent => after == before
  }

  /**
   * From a message's recorded success on, whatever else happens, an event with its message id is about that row;
   * and about no other, if the provider never gives two messages one id.
   */
  lemma ReceiptFindsItsMessage(trace: seq<State>, steps: seq<Step>, maxAttempts: int, i: nat, j: nat, id: nat,
                               e: ProviderEvent)
    requires Run(trace, steps, maxAttempts) && 1 <= maxAttempts
    requires i < j < |trace| && SentAt(trace, steps, i, id, e.providerMessageId)
    ensures
      var tenant, rows := trace[i].rows[id].row.tenant, trace[j].rows;
      && id < |rows| && rows[id].row.tenant == tenant && rows[id].row.providerMessageId == Some(e.providerMessageId)
      && rows[id].row.sentAt == Some(steps[i].now)
      && (FreshIds(steps) ==> forall x :: 0 <= x < |rows| && Matching(rows[x].row, tenant, e) ==> x == id)
  {
    hide Run, FreshIds;
    IdNamesItsRow(trace, steps, maxAttempts, i, j, id, e.providerMessageId);
  }

  class EventStore {
    /** message_events, keyed by (tenant, idempotency_key). */
    var events: map<(string, string), Recorded>
    const queue: Queue
    const consent: ConsentStore

    constructor (queue: Queue, consent: ConsentStore)
      ensures this.queue == queue && this.consent == consent && events == map[]
    {
      this.queue, this.consent := queue, consent;
      events := map[];
    }

    method FindRow(tenant: string, e: ProviderEvent) returns (id: Option<nat>)
      ensures id.Some? ==> id.value < |queue.rows| && Matching(queue.rows[id.value], tenant, e)
      ensures id.None? ==> forall i :: 0 <= i < |queue.rows| ==> !Matching(queue.rows[i], tenant, e)
    {
      if i :| 0 <= i < |queue.rows| && Matching(queue.rows[i], tenant, e) {
        return Some(i);
      }
      id := None;
    }

    /** applyProviderEvent. Returns the number of events accepted. */
    method ApplyProviderEvent(tenant: string, channel: Channel, e: ProviderEvent, now: int) returns (accepted: nat)
      modifies this`events, queue, consent`suppressions
      ensures accepted <= 1
      ensures accepted == 1 <==>
        && (tenant, e.id) !in old(events)
        && exists i :: 0 <= i < |old(queue.rows)|
             && old(queue.rows)[i].tenant == tenant && old(queue.rows)[i].providerMessageId == Some(e.providerMessageId)
      ensures accepted == 0 ==>
        events == old(events) && queue.rows == old(queue.rows) && consent.suppressions == old(consent.suppressions)
      ensures accepted == 1 ==>
        && (tenant, e.id) in events && events - {(tenant, e.id)} == old(events)
        && var i := events[(tenant, e.id)].row;
           (i < |old(queue.rows)| == |queue.rows|
           && old(queue.rows)[i].tenant == tenant && old(queue.rows)[i].providerMessageId == Some(e.providerMessageId)
           && events[(tenant, e.id)] == Recorded(i, e.kind, e.occurredAt)
           && queue.rows == old(queue.rows)[i := queue.rows[i]] && Tells(e, old(queue.rows)[i], queue.rows[i])
           && consent.suppressions ==
             (if e.kind.BouncedEvent? || e.kind.ComplainedEvent? then
                Add(old(consent.suppressions), Key(tenant, channel, old(queue.rows)[i].address),
                    if e.kind.BouncedEvent? then HardBounce else Complaint, None, now)
              else old(consent.suppressions))
           && (e.kind.BouncedEvent? || e.kind.ComplainedEvent? ==>
                Permanent(consent.suppressions, Key(tenant, channel, old(queue.rows)[i].address))))
    {
      var id := FindRow(tenant, e);
      if id.None? {
        return 0;
      }
      if (tenant, e.id) in events {
        return 0;
      }
      ghost var was := events;
      events := events[(tenant, e.id) := Recorded(id.value, e.kind, e.occurredAt)];
      assert events - {(tenant, e.id)} == was;
      var address := queue.rows[id.value].address;
      var receipt := ReceiptOf(e);
      if receipt.Some? {
        queue.rows := queue.rows[id.value := Receipted(queue.rows[id.value], receipt.value)];
      }
      if e.kind.BouncedEvent? || e.kind.ComplainedEvent? {
        consent.AddSuppression(Key(tenant, channel, address),
                               if e.kind.BouncedEvent? then HardBounce else Complaint, None, now);
      }
      accepted := 1;
    }
  }
}
