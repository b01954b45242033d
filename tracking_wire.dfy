/**
 * What the two tracking scripts (public/js/Tracking.js and js/Tracking.js)
 * share: the tracked event, the JSON payloads posted to the collector,
 * the identity fields read from browser storage, the event filter and the
 * beacon-then-fetch transport rule.
 */
module TrackingWire {
  import opened Js

  /** `{ fieldId, value }` as queued by `queue` or supplied in an override batch. */
  datatype Event = Event(fieldId: JsValue, value: JsValue)

  /** The JSON body of a request to the collector. */
  datatype Payload =
    | BatchPayload(hostname: string, userId: string, sessionId: Option<string>, gclid: string, events: seq<Event>)
    | SinglePayload(hostname: string, userId: string, sessionId: Option<string>, gclid: string, fieldId: JsValue, value: JsValue)

  /** One request handed to the browser: `navigator.sendBeacon` or `fetch`. */
  datatype Request = Beacon(payload: Payload) | Fetch(payload: Payload)

  /** `localStorage.getItem('userId') || generated`: a stored non-empty id wins over a freshly generated one. */
  function ResolveUserId(local: map<string, string>, generated: string): string
  {
    if "userId" in local && local["userId"] != "" then local["userId"] else generated
  }

  /** `localStorage.getItem('gclid') || ''`. */
  function StoredGclid(local: map<string, string>): string
  {
    if "gclid" in local then local["gclid"] else ""
  }

  /** `sessionStorage.getItem('sessionId')`, which is `null` when absent. */
  function StoredSessionId(session: map<string, string>): Option<string>
  {
    if "sessionId" in session then Some(session["sessionId"]) else None
  }

  /** `batch.filter(evt => valid(evt.fieldId))`. */
  function Accepted(batch: seq<Event>, valid: JsValue -> bool): (safe: seq<Event>)
    ensures |safe| <= |batch|
    ensures forall e :: e in safe <==> e in batch && valid(e.fieldId)
    ensures multiset(safe) <= multiset(batch)
  {
    if batch == [] then []
    else
      assert batch == [batch[0]] + batch[1..];
      if valid(batch[0].fieldId) then [batch[0]] + Accepted(batch[1..], valid)
      else Accepted(batch[1..], valid)
  }

  /** Filtering distributes over concatenation, so kept events stay in batch order. */
  lemma {:induction false} AcceptedAppend(a: seq<Event>, b: seq<Event>, valid: JsValue -> bool)
    ensures Accepted(a + b, valid) == Accepted(a, valid) + Accepted(b, valid)
  {
    if a == [] {
      assert a + b == b;
    } else {
      assert (a + b)[1..] == a[1..] + b;
      AcceptedAppend(a[1..], b, valid);
    }
  }

  /** A batch whose events are all valid passes the filter unchanged. */
  lemma {:induction false} AcceptedAllValid(batch: seq<Event>, valid: JsValue -> bool)
    requires forall i :: 0 <= i < |batch| ==> valid(batch[i].fieldId)
    ensures Accepted(batch, valid) == batch
  {
    if batch != [] {
      AcceptedAllValid(batch[1..], valid);
    }
  }

  /** The filter keeps nothing exactly when no event of the batch is valid. */
  lemma {:induction false} AcceptedEmpty(batch: seq<Event>, valid: JsValue -> bool)
    ensures Accepted(batch, valid) == [] <==> forall i :: 0 <= i < |batch| ==> !valid(batch[i].fieldId)
  {
    if batch != [] {
      AcceptedEmpty(batch[1..], valid);
      assert forall i :: 1 <= i < |batch| ==> batch[i] == batch[1..][i - 1];
    }
  }

  /**
   * The requests issued for one batch: the beacon when the browser offers
   * one, and the `fetch` fallback unless the beacon was accepted.
   */
  function Transmit(p: Payload, beaconAvailable: bool, beaconAccepted: bool): (rs: seq<Request>)
    ensures 1 <= |rs| <= 2
    ensures Beacon(p) in rs <==> beaconAvailable
    ensures Fetch(p) in rs <==> !(beaconAvailable && beaconAccepted)
    ensures forall r :: r in rs ==> r.payload == p
  {
    if beaconAvailable && beaconAccepted then [Beacon(p)]
    else if beaconAvailable then [Beacon(p), Fetch(p)]
    else [Fetch(p)]
  }
}
