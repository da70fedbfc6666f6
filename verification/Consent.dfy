/** Suppressions: which addresses are off limits, and until when. */
module Consent {
  import opened Prelude
  import opened MessageQueue

  datatype Reason = Unsubscribe | SmsStop | HardBounce | Complaint | Manual | Invalid

  function ReasonCode(reason: Reason): string {
    match reason
    case Unsubscribe => "suppressed_unsubscribe"
    case SmsStop => "suppressed_sms_stop"
    case HardBounce => "suppressed_hard_bounce"
    case Complaint => "suppressed_complaint"
    case Manual => "suppressed_manual"
    case Invalid => "suppressed_invalid"
  }

  /** The code tells the reason, and is never the one a missing consent gives. */
  lemma ReasonCodesTell(a: Reason, b: Reason)
    ensures ReasonCode(a) == ReasonCode(b) <==> a == b
    ensures |ReasonCode(a)| > 11 && ReasonCode(a)[..11] == "suppressed_"
  {
  }

  datatype Key = Key(tenant: string, channel: Channel, address: string)

  /** `expiresAt` is absent on a permanent suppression. */
  datatype Suppression = Suppression(reason: Reason, expiresAt: Option<int>, createdAt: int)

  type Suppressions = map<Key, Suppression>

  predicate InForce(s: Suppression, now: int) {
    s.expiresAt.None? || now < s.expiresAt.value
  }

  /** activeSuppression. */
  function Active(table: Suppressions, key: Key, now: int): Option<Suppression> {
    if key in table && InForce(table[key], now) then Some(table[key]) else None
  }

  /** addSuppression: the upsert writes over a lapsed row, or over a temporary one when the new one is permanent. */
  function Add(table: Suppressions, key: Key, reason: Reason, expiresAt: Option<int>, now: int): Suppressions {
    if key !in table
      || (table[key].expiresAt.Some? && table[key].expiresAt.value <= now)
      || (expiresAt.None? && table[key].expiresAt.Some?)
    then table[key := Suppression(reason, expiresAt, now)]
    else table
  }

  /** An explicit delete, as the preference centre and the operator route issue it. */
  function Lift(table: Suppressions, key: Key): Suppressions {
    table - {key}
  }

  /** The nightly expiry job. */
  function Sweep(table: Suppressions, now: int): Suppressions {
    map k | k in table && InForce(table[k], now) :: table[k]
  }

  predicate Permanent(table: Suppressions, key: Key) {
    key in table && table[key].expiresAt.None?
  }

  /** The rows optOut cancels: never a transactional one, and only the named category if there is one. */
  predicate Covered(r: Row, tenant: string, contact: string, channel: Channel, category: Option<Category>) {
    && Queued(r)
    && r.tenant == tenant && r.contact == contact && r.channel == channel
    && !r.category.Transactional?
    && (category.None? || r.category == category.value)
  }

  /** A category-scoped opt-out writes no suppression, so it reports the consent decision instead. */
  function OptOutCode(category: Option<Category>, reason: Reason): string {
    if category.Some? then "consent_opted_out" else ReasonCode(reason)
  }

  /** No upsert ever shortens anyone's protection, and it touches no other address. */
  lemma AddNeverUnprotects(table: Suppressions, key: Key, reason: Reason, expiresAt: Option<int>, now: int, k: Key, t: int)
    requires now <= t
    requires Active(table, k, t).Some?
    ensures Active(Add(table, key, reason, expiresAt, now), k, t).Some?
    ensures k != key || Permanent(table, key) ==> Add(table, key, reason, expiresAt, now)[k] == table[k]
  {
  }

  /** After a call the address is in force at `t` exactly when it already was, or the new row covers `t` and was taken. */
  lemma AddProtectsExactly(table: Suppressions, key: Key, reason: Reason, expiresAt: Option<int>, now: int, t: int)
    requires now <= t
    ensures Active(Add(table, key, reason, expiresAt, now), key, t).Some? <==>
      || Active(table, key, t).Some?
      || ((expiresAt.None? || t < expiresAt.value) && (expiresAt.None? || Active(table, key, now).None?))
  {
  }

  /** The sweep is housekeeping: from the moment it runs, no query can tell that it ran. */
  lemma SweepIsInvisible(table: Suppressions, now: int, key: Key, t: int)
    requires now <= t
    ensures Active(Sweep(table, now), key, t) == Active(table, key, t)
  {
  }

  datatype ConsentEntry = ConsentEntry(
    tenant: string, contact: string, channel: Channel, category: Option<Category>, optedIn: bool, occurredAt: int)

  /** The consent ledger and the suppression table, beside the queue they share a database with. */
  class ConsentStore {
    var ledger: seq<ConsentEntry>
    var suppressions: Suppressions
    const queue: Queue

    constructor (queue: Queue)
      ensures this.queue == queue && ledger == [] && suppressions == map[]
    {
      this.queue := queue;
      ledger, suppressions := [], map[];
    }

    method AddSuppression(key: Key, reason: Reason, expiresAt: Option<int>, now: int)
      modifies this`suppressions
      ensures suppressions == Add(old(suppressions), key, reason, expiresAt, now)
      ensures expiresAt.None? ==> Permanent(suppressions, key)
    {
      if key !in suppressions {
        suppressions := suppressions[key := Suppression(reason, expiresAt, now)];
      } else {
        var held := suppressions[key];
        if (held.expiresAt.Some? && held.expiresAt.value <= now) || (expiresAt.None? && held.expiresAt.Some?) {
          suppressions := suppressions[key := Suppression(reason, expiresAt, now)];
        }
      }
    }

    /** optOut: the ledger entry, the suppression (unless category-scoped) and the cancellations, in one transaction. */
    method OptOut(tenant: string, contact: string, channel: Channel, address: string,
                  category: Option<Category>, reason: Reason, now: int)
      returns (cancelled: set<nat>)
      modifies this`ledger, this`suppressions, queue
      ensures ledger == old(ledger) + [ConsentEntry(tenant, contact, channel, category, false, now)]
      ensures category.Some? ==> suppressions == old(suppressions)
      ensures category.None? ==> Permanent(suppressions, Key(tenant, channel, address))
      ensures category.None? ==> suppressions == Add(old(suppressions), Key(tenant, channel, address), reason, None, now)
      ensures |queue.rows| == |old(queue.rows)|
      ensures forall i: nat :: i in cancelled <==>
        && i < |old(queue.rows)|
        && (old(queue.rows)[i].status.Pending? || old(queue.rows)[i].status.Processing?)
        && old(queue.rows)[i].tenant == tenant && old(queue.rows)[i].contact == contact
        && old(queue.rows)[i].channel == channel && old(queue.rows)[i].category != Transactional
        && (category == None || category == Some(old(queue.rows)[i].category))
      ensures forall i: nat :: i < |queue.rows| ==> !Covered(queue.rows[i], tenant, contact, channel, category)
      ensures forall i: nat :: i < |queue.rows| ==>
        queue.rows[i] == if i !in cancelled then old(queue.rows)[i]
                         else old(queue.rows)[i].(status := Cancelled, errorCode := Some(
                                if category.Some? then "consent_opted_out" else ReasonCode(reason)))
    {
      ledger := ledger + [ConsentEntry(tenant, contact, channel, category, false, now)];
      if category.None? {
        AddSuppression(Key(tenant, channel, address), reason, None, now);
      }
      var was := queue.rows;
      cancelled := set i | 0 <= i < |was| && Covered(was[i], tenant, contact, channel, category);
      queue.rows := seq(|was|, i requires 0 <= i < |was| =>
        if i in cancelled then BulkCancelled(was[i], OptOutCode(category, reason)) else was[i]);
    }
  }
}
