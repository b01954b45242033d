/**
 * The page-wide tracker of public/js/Tracking.js: an allow-list of the
 * collector's spreadsheet columns, a queue of pending field events, an
 * optional override batch (`Tracking._q`) and a flush that posts the valid
 * events of the batch by beacon, falling back to `fetch`.
 */
module PublicTracking {
  import opened Js
  import opened TrackingWire

  /** The allow-list `allowedFields`: the columns of the collector's sheet; only these field ids are ever sent. */
  predicate IsAllowedField(key: string)
  {
    key == "userId" || key == "sessionId" || key == "firstSeen" || key == "lastSeen" || key == "openedBookingForm" || key == "name" || key == "gclid"
    || key == "firstName" || key == "lastName" || key == "company" || key == "email" || key == "phone" || key == "industry" || key == "propertyType"
    || key == "reason" || key == "bookingType" || key == "frequency" || key == "firstTimeDeepCleaning" || key == "serviceType"
    || key == "squareFootage" || key == "levels" || key == "kitchens" || key == "bedrooms" || key == "bathrooms" || key == "powderRooms"
    || key == "builtYear" || key == "lastRenovated" || key == "lastCleaned" || key == "pets" || key == "people" || key == "furnished" || key == "basement" || key == "extras"
    || key == "interiorWindows" || key == "insideEmptyKitchenCabinets" || key == "package" || key == "price" || key == "address" || key == "city"
    || key == "province" || key == "postal" || key == "accessMethod" || key == "accessDetails" || key == "date" || key == "details"
    || key == "hearAbout" || key == "referralName" || key == "images" || key == "submitClicked"
    || key == "utm_campaign" || key == "utm_source" || key == "utm_medium" || key == "utm_content" || key == "utm_term"
  }

  /** `isValidFieldId`: `String(fieldId || '')` is a key of the allow-list. */
  predicate IsValidFieldId(fieldId: JsValue)
  {
    IsAllowedField(StringOrEmpty(fieldId))
  }

  /** Null, undefined, false, 0 and the empty string are rejected; a string is accepted exactly when it is listed. */
  lemma ValidFieldIdCases(fieldId: JsValue)
    ensures !Truthy(fieldId) ==> !IsValidFieldId(fieldId)
    ensures fieldId.Str? ==> (IsValidFieldId(fieldId) <==> IsAllowedField(fieldId.s))
    ensures fieldId.Bool? ==> !IsValidFieldId(fieldId)
  {
  }

  /** The events `flush` keeps from a batch. */
  function SafeEvents(batch: seq<Event>): (safe: seq<Event>)
    ensures forall e :: e in safe <==> e in batch && IsValidFieldId(e.fieldId)
  {
    Accepted(batch, IsValidFieldId)
  }

  /** `(Tracking._q) || eventQueue`: an override batch, even an empty one, replaces the queue. */
  function BatchOf(eventQueue: seq<Event>, overrideBatch: Option<seq<Event>>): seq<Event>
  {
    if overrideBatch.Some? then overrideBatch.value else eventQueue
  }

  /** The module state of the tracker, with browser storage and the requests issued so far. */
  class Tracker {
    const hostname: string
    var eventQueue: seq<Event>
    /** `Tracking._q`, set by callers that want a specific batch flushed. */
    var overrideBatch: Option<seq<Event>>
    var local: map<string, string>
    var session: map<string, string>
    /** Every request handed to the browser, in order. */
    ghost var sent: seq<Request>

    /** The queue only ever holds accepted events. */
    ghost predicate Valid()
      reads this
    {
      forall i :: 0 <= i < |eventQueue| ==> IsValidFieldId(eventQueue[i].fieldId)
    }

    constructor (hostname: string, local: map<string, string>, session: map<string, string>)
      ensures Valid()
      ensures this.hostname == hostname && this.local == local && this.session == session
      ensures eventQueue == [] && overrideBatch == None && sent == []
    {
      this.hostname := hostname;
      this.local := local;
      this.session := session;
      eventQueue := [];
      overrideBatch := None;
      sent := [];
    }

    /** A caller assigns `Tracking._q`. */
    method SetOverride(batch: Option<seq<Event>>)
      modifies this`overrideBatch
      ensures overrideBatch == batch
    {
      overrideBatch := batch;
    }

    /** `sendData`: one immediate `fetch` for an accepted field, nothing for a rejected one. */
    method SendData(fieldId: JsValue, value: JsValue, generatedUserId: string)
      modifies this`local, this`sent
      ensures !IsValidFieldId(fieldId) ==> local == old(local) && sent == old(sent)
      ensures IsValidFieldId(fieldId) ==>
        var userId := ResolveUserId(old(local), generatedUserId);
        && local == old(local)["userId" := userId]
        && sent == old(sent) + [Fetch(SinglePayload(hostname, userId, StoredSessionId(session), StoredGclid(local), fieldId, value))]
    {
      if !IsValidFieldId(fieldId) {
        return;
      }
      var userId := ResolveUserId(local, generatedUserId);
      local := local["userId" := userId];
      var payload := SinglePayload(hostname, userId, StoredSessionId(session), StoredGclid(local), fieldId, value);
      sent := sent + [Fetch(payload)];
    }

    /** `queue`: append an accepted event at the tail; ignore a rejected one. */
    method Queue(fieldId: JsValue, value: JsValue)
      requires Valid()
      modifies this`eventQueue
      ensures Valid()
      ensures eventQueue == if IsValidFieldId(fieldId) then old(eventQueue) + [Event(fieldId, value)] else old(eventQueue)
    {
      if !IsValidFieldId(fieldId) {
        return;
      }
      AllValidAppend(eventQueue, Event(fieldId, value));
      eventQueue := eventQueue + [Event(fieldId, value)];
    }

    /**
     * `flush`: take the override batch or the queue, keep its accepted
     * events and post them; the queue is emptied only when it was the batch.
     */
    method Flush(generatedUserId: string, beaconAvailable: bool, beaconAccepted: bool)
      requires Valid()
      modifies this`eventQueue, this`local, this`sent
      ensures Valid()
      ensures eventQueue == if old(overrideBatch).None? then [] else old(eventQueue)
      ensures var safe := SafeEvents(BatchOf(old(eventQueue), old(overrideBatch)));
        if safe == [] then local == old(local) && sent == old(sent)
        else
          var userId := ResolveUserId(old(local), generatedUserId);
          && local == old(local)["userId" := userId]
          && sent == old(sent) + Transmit(BatchPayload(hostname, userId, StoredSessionId(session), StoredGclid(local), safe),
                                          beaconAvailable, beaconAccepted)
    {
      var batch := BatchOf(eventQueue, overrideBatch);
      var internal := overrideBatch.None?;
      if |batch| == 0 {
        return;
      }
      var safe := SafeEvents(batch);
      if |safe| == 0 {
        if internal {
          eventQueue := [];
        }
        return;
      }
      var userId := ResolveUserId(local, generatedUserId);
      local := local["userId" := userId];
      var payload := BatchPayload(hostname, userId, StoredSessionId(session), StoredGclid(local), safe);
      if internal {
        eventQueue := [];
      }
      sent := sent + Transmit(payload, beaconAvailable, beaconAccepted);
    }
  }

  /** Appending an accepted event to an all-accepted queue keeps it all-accepted. */
  lemma AllValidAppend(q: seq<Event>, e: Event)
    requires forall i :: 0 <= i < |q| ==> IsValidFieldId(q[i].fieldId)
    requires IsValidFieldId(e.fieldId)
    ensures forall i :: 0 <= i < |q + [e]| ==> IsValidFieldId((q + [e])[i].fieldId)
  {
    forall i | 0 <= i < |q + [e]| ensures IsValidFieldId((q + [e])[i].fieldId) {
      if i < |q| { assert (q + [e])[i] == q[i]; } else { assert (q + [e])[i] == e; }
    }
  }

  /** Flushing the queue sends exactly the events that were queued, in queue order: the filter removes nothing. */
  lemma FlushOfQueueSendsQueue(eventQueue: seq<Event>)
    requires forall i :: 0 <= i < |eventQueue| ==> IsValidFieldId(eventQueue[i].fieldId)
    ensures SafeEvents(BatchOf(eventQueue, None)) == eventQueue
  {
    AcceptedAllValid(eventQueue, IsValidFieldId);
  }

  /** Queueing events and then filtering their concatenation is the same as filtering each one in turn. */
  lemma SafeEventsInOrder(a: seq<Event>, b: seq<Event>)
    ensures SafeEvents(a + b) == SafeEvents(a) + SafeEvents(b)
  {
    AcceptedAppend(a, b, IsValidFieldId);
  }

  /** A batch produces no request exactly when none of its events is accepted. */
  lemma NothingSentIffAllRejected(batch: seq<Event>)
    ensures SafeEvents(batch) == [] <==> forall i :: 0 <= i < |batch| ==> !IsValidFieldId(batch[i].fieldId)
  {
    AcceptedEmpty(batch, IsValidFieldId);
  }
}
