/** The webhook queue (app/services/webhooks.py): at most one live row per session and event. */
module Webhooks {
  import opened Enums

  datatype WebhookEvent = KycVerified | KycRejected | KycReviewRequired | KycExpired

  function EventOf(status: SessionStatus): Option<WebhookEvent> {
    match status
    case Verified => Some(KycVerified)
    case Rejected => Some(KycRejected)
    case InReview => Some(KycReviewRequired)
    case Expired => Some(KycExpired)
    case _ => None
  }

  datatype DeliveryStatus = Waiting | Delivered | Failing

  /** `reported` is the session status written into the payload when the row was queued. */
  datatype Delivery = Delivery(event: WebhookEvent, reported: SessionStatus, status: DeliveryStatus, attempts: nat)

  predicate AlreadyQueued(deliveries: seq<Delivery>, event: WebhookEvent) {
    exists d :: d in deliveries && d.event == event && !d.status.Failing?
  }

  function QueueSessionEvent(hasUrl: bool, deliveries: seq<Delivery>, status: SessionStatus): seq<Delivery> {
    match EventOf(status)
    case None => deliveries
    case Some(event) =>
      if !hasUrl || AlreadyQueued(deliveries, event) then deliveries
      else deliveries + [Delivery(event, status, Waiting, 0)]
  }

  function Names(deliveries: seq<Delivery>): seq<WebhookEvent> {
    seq(|deliveries|, i requires 0 <= i < |deliveries| => deliveries[i].event)
  }

  /** The same queue seen as event names only. */
  function Announce(hasUrl: bool, names: seq<WebhookEvent>, status: SessionStatus): seq<WebhookEvent> {
    match EventOf(status)
    case None => names
    case Some(event) => if !hasUrl || event in names then names else names + [event]
  }

  ghost predicate NoneFailing(deliveries: seq<Delivery>) {
    forall d :: d in deliveries ==> !d.status.Failing?
  }

  lemma QueuedIffNamed(deliveries: seq<Delivery>, event: WebhookEvent)
    requires NoneFailing(deliveries)
    ensures AlreadyQueued(deliveries, event) <==> event in Names(deliveries)
  {
    if AlreadyQueued(deliveries, event) {
      var d :| d in deliveries && d.event == event && !d.status.Failing?;
      var i :| 0 <= i < |deliveries| && deliveries[i] == d;
      assert Names(deliveries)[i] == event;
    }
    if event in Names(deliveries) {
      var i :| 0 <= i < |deliveries| && Names(deliveries)[i] == event;
      assert deliveries[i] in deliveries;
    }
  }

  /** As long as no row is failing, the rows announce each event once. */
  lemma QueueAnnounces(hasUrl: bool, deliveries: seq<Delivery>, status: SessionStatus)
    requires NoneFailing(deliveries)
    ensures NoneFailing(QueueSessionEvent(hasUrl, deliveries, status))
    ensures Names(QueueSessionEvent(hasUrl, deliveries, status)) == Announce(hasUrl, Names(deliveries), status)
  {
    if EventOf(status).Some? {
      QueuedIffNamed(deliveries, EventOf(status).value);
    }
  }
}
