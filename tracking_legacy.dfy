/**
 * The older tracker of js/Tracking.js: field ids are checked against the
 * pattern `^[A-Za-z0-9_]+$` instead of an allow-list, `flush` always drains
 * the queue, and `trackSubmitted` posts a one-event batch of its own.
 */
module LegacyTracking {
  import opened Js
  import opened TrackingWire
  import PublicTracking

  /** `/^[A-Za-z0-9_]+$/.test(s)`. */
  predicate MatchesFieldPattern(s: string)
  {
    |s| > 0 && forall i :: 0 <= i < |s| ==> IsWordChar(s[i])
  }

  /** `isValidFieldId`: the pattern test on `String(fieldId || '')`. */
  predicate IsValidFieldId(fieldId: JsValue)
  {
    MatchesFieldPattern(StringOrEmpty(fieldId))
  }

  /**
   * Falsy ids are rejected, `true` is accepted (it reads "true"), and a
   * number is accepted exactly when it is positive: zero is falsy and a
   * negative number carries a minus sign.
   */
  lemma {:induction false} ValidFieldIdCases(fieldId: JsValue)
    ensures !Truthy(fieldId) ==> !IsValidFieldId(fieldId)
    ensures fieldId == Bool(true) ==> IsValidFieldId(fieldId)
    ensures fieldId.Num? ==> (IsValidFieldId(fieldId) <==> fieldId.n > 0)
  {
    if fieldId.Num? && fieldId.n < 0 {
      var s := StringOrEmpty(fieldId);
      assert s[0] == '-';
    }
  }

  /** Every allow-listed column name satisfies the pattern, checked a few names at a time. */
  lemma ColumnsMatchPattern0(key: string)
    requires key == "userId" || key == "sessionId" || key == "firstSeen" || key == "lastSeen" || key == "openedBookingForm" || key == "name"
    ensures MatchesFieldPattern(key)
  {
  }

  lemma ColumnsMatchPattern1(key: string)
    requires key == "gclid" || key == "firstName" || key == "lastName" || key == "company" || key == "email" || key == "phone"
    ensures MatchesFieldPattern(key)
  {
  }

  lemma ColumnsMatchPattern2(key: string)
    requires key == "industry" || key == "propertyType" || key == "reason" || key == "bookingType" || key == "frequency" || key == "firstTimeDeepCleaning"
    ensures MatchesFieldPattern(key)
  {
  }

  lemma ColumnsMatchPattern3(key: string)
    requires key == "serviceType" || key == "squareFootage" || key == "levels" || key == "kitchens" || key == "bedrooms" || key == "bathrooms"
    ensures MatchesFieldPattern(key)
  {
  }

  lemma ColumnsMatchPattern4(key: string)
    requires key == "powderRooms" || key == "builtYear" || key == "lastRenovated" || key == "lastCleaned" || key == "pets" || key == "people"
    ensures MatchesFieldPattern(key)
  {
  }

  lemma ColumnsMatchPattern5(key: string)
    requires key == "furnished" || key == "basement" || key == "extras" || key == "interiorWindows" || key == "insideEmptyKitchenCabinets" || key == "package"
    ensures MatchesFieldPattern(key)
  {
  }

  lemma ColumnsMatchPattern6(key: string)
    requires key == "price" || key == "address" || key == "city" || key == "province" || key == "postal" || key == "accessMethod"
    ensures MatchesFieldPattern(key)
  {
  }

  lemma ColumnsMatchPattern7(key: string)
    requires key == "accessDetails" || key == "date" || key == "details" || key == "hearAbout" || key == "referralName" || key == "images"
    ensures MatchesFieldPattern(key)
  {
  }

  lemma ColumnsMatchPattern8(key: string)
    requires key == "submitClicked" || key == "utm_campaign" || key == "utm_source" || key == "utm_medium" || key == "utm_content" || key == "utm_term"
    ensures MatchesFieldPattern(key)
  {
  }

  lemma AllowedFieldMatchesPattern(key: string)
    requires PublicTracking.IsAllowedField(key)
    ensures MatchesFieldPattern(key)
  {
    if key == "userId" || key == "sessionId" || key == "firstSeen" || key == "lastSeen" || key == "openedBookingForm" || key == "name" {
      ColumnsMatchPattern0(key);
    } else if key == "gclid" || key == "firstName" || key == "lastName" || key == "company" || key == "email" || key == "phone" {
      ColumnsMatchPattern1(key);
    } else if key == "industry" || key == "propertyType" || key == "reason" || key == "bookingType" || key == "frequency" || key == "firstTimeDeepCleaning" {
      ColumnsMatchPattern2(key);
    } else if key == "serviceType" || key == "squareFootage" || key == "levels" || key == "kitchens" || key == "bedrooms" || key == "bathrooms" {
      ColumnsMatchPattern3(key);
    } else if key == "powderRooms" || key == "builtYear" || key == "lastRenovated" || key == "lastCleaned" || key == "pets" || key == "people" {
      ColumnsMatchPattern4(key);
    } else if key == "furnished" || key == "basement" || key == "extras" || key == "interiorWindows" || key == "insideEmptyKitchenCabinets" || key == "package" {
      ColumnsMatchPattern5(key);
    } else if key == "price" || key == "address" || key == "city" || key == "province" || key == "postal" || key == "accessMethod" {
      ColumnsMatchPattern6(key);
    } else if key == "accessDetails" || key == "date" || key == "details" || key == "hearAbout" || key == "referralName" || key == "images" {
      ColumnsMatchPattern7(key);
    } else if key == "submitClicked" || key == "utm_campaign" || key == "utm_source" || key == "utm_medium" || key == "utm_content" || key == "utm_term" {
      ColumnsMatchPattern8(key);
    }
  }

  /** Hence the allow-list is the stricter policy: whatever it accepts, the pattern accepts. */
  lemma AllowListIsStricter(fieldId: JsValue)
    ensures PublicTracking.IsValidFieldId(fieldId) ==> IsValidFieldId(fieldId)
  {
    var key := StringOrEmpty(fieldId);
    if PublicTracking.IsAllowedField(key) {
      AllowedFieldMatchesPattern(key);
    }
  }

  /** ... and strictly so: a free-form word passes the pattern but is not a column. */
  lemma PatternAcceptsMore()
    ensures IsValidFieldId(Str("favouriteColour")) && !PublicTracking.IsValidFieldId(Str("favouriteColour"))
  {
  }

  /** The events `flush` keeps from the queue. */
  function SafeEvents(batch: seq<Event>): (safe: seq<Event>)
    ensures forall e :: e in safe <==> e in batch && IsValidFieldId(e.fieldId)
  {
    Accepted(batch, IsValidFieldId)
  }

  /** The one event `trackSubmitted` posts. */
  const SubmittedEvent: Event := Event(Str("submitClicked"), Str("Submitted"))

  /** The submit event would pass either validator, although `trackSubmitted` checks neither. */
  lemma SubmittedEventIsValid()
    ensures IsValidFieldId(SubmittedEvent.fieldId) && PublicTracking.IsValidFieldId(SubmittedEvent.fieldId)
  {
  }

  /** Appending an accepted event to an all-accepted queue keeps it all-accepted. */
  lemma AllValidAppend(q: seq<Event>, e: Event)
    requires forall i :: 0 <= i < |q| ==> IsValidFieldId(q[i].fieldId)
    requires IsValidFieldId(e.fieldId)
    ensures forall i :: 0 <= i < |q + [e]| ==> IsValidFieldId((q + [e])[i].fieldId)
  {
    forall i | 0 <= i < |q + [e]| ensures IsValidFieldId((q + [e])[i].fieldId) {
      if i < |q| { assert (q + [e])[i] == q[i]; } else { assert (q + [e])[i] == e; }
    }
  }

  class Tracker {
    const hostname: string
    var eventQueue: seq<Event>
    var local: map<string, string>
    var session: map<string, string>
    /** Every request handed to the browser, in order. */
    ghost var sent: seq<Request>

    /** The queue only ever holds accepted events. */
    ghost predicate Valid()
      reads this
    {
      forall i :: 0 <= i < |eventQueue| ==> IsValidFieldId(eventQueue[i].fieldId)
    }

    constructor (hostname: string, local: map<string, string>, session: map<string, string>)
      ensures Valid()
      ensures this.hostname == hostname && this.local == local && this.session == session
      ensures eventQueue == [] && sent == []
    {
      this.hostname := hostname;
      this.local := local;
      this.session := session;
      eventQueue := [];
      sent := [];
    }

    /** `sendData`: one immediate `fetch` for an accepted field, nothing for a rejected one. */
    method SendData(fieldId: JsValue, value: JsValue, generatedUserId: string)
      modifies this`local, this`sent
      ensures !IsValidFieldId(fieldId) ==> local == old(local) && sent == old(sent)
      ensures IsValidFieldId(fieldId) ==>
        var userId := ResolveUserId(old(local), generatedUserId);
        && local == old(local)["userId" := userId]
        && sent == old(sent) + [Fetch(SinglePayload(hostname, userId, StoredSessionId(session), StoredGclid(local), fieldId, value))]
    {
      if !IsValidFieldId(fieldId) {
        return;
      }
      var userId := ResolveUserId(local, generatedUserId);
      local := local["userId" := userId];
      var payload := SinglePayload(hostname, userId, StoredSessionId(session), StoredGclid(local), fieldId, value);
      sent := sent + [Fetch(payload)];
    }

    /** `queue`: append an accepted event at the tail; ignore a rejected one. */
    method Queue(fieldId: JsValue, value: JsValue)
      requires Valid()
      modifies this`eventQueue
      ensures Valid()
      ensures eventQueue == if IsValidFieldId(fieldId) then old(eventQueue) + [Event(fieldId, value)] else old(eventQueue)
    {
      if !IsValidFieldId(fieldId) {
        return;
      }
      AllValidAppend(eventQueue, Event(fieldId, value));
      eventQueue := eventQueue + [Event(fieldId, value)];
    }

    /** `flush`: post the accepted events of the queue and always leave the queue empty. */
    method Flush(generatedUserId: string, beaconAvailable: bool, beaconAccepted: bool)
      modifies this`eventQueue, this`local, this`sent
      ensures Valid() && eventQueue == []
      ensures var safe := SafeEvents(old(eventQueue));
        if safe == [] then local == old(local) && sent == old(sent)
        else
          var userId := ResolveUserId(old(local), generatedUserId);
          && local == old(local)["userId" := userId]
          && sent == old(sent) + Transmit(BatchPayload(hostname, userId, StoredSessionId(session), StoredGclid(local), safe),
                                          beaconAvailable, beaconAccepted)
    {
      if |eventQueue| == 0 {
        return;
      }
      var safe := SafeEvents(eventQueue);
      if |safe| == 0 {
        eventQueue := [];
        return;
      }
      var userId := ResolveUserId(local, generatedUserId);
      local := local["userId" := userId];
      var payload := BatchPayload(hostname, userId, StoredSessionId(session), StoredGclid(local), safe);
      eventQueue := [];
      sent := sent + Transmit(payload, beaconAvailable, beaconAccepted);
    }

    /**
     * `trackSubmitted`: one request carrying only the submit event, by beacon
     * when available (its answer is ignored) and by `fetch` otherwise; the
     * queue is not touched.
     */
    method TrackSubmitted(generatedUserId: string, beaconAvailable: bool)
      modifies this`local, this`sent
      ensures var userId := ResolveUserId(old(local), generatedUserId);
        var p := BatchPayload(hostname, userId, StoredSessionId(session), StoredGclid(local), [SubmittedEvent]);
        && local == old(local)["userId" := userId]
        && sent == old(sent) + [if beaconAvailable then Beacon(p) else Fetch(p)]
    {
      var userId := ResolveUserId(local, generatedUserId);
      local := local["userId" := userId];
      var payload := BatchPayload(hostname, userId, StoredSessionId(session), StoredGclid(local), [SubmittedEvent]);
      if beaconAvailable {
        sent := sent + [Beacon(payload)];
        return;
      }
      sent := sent + [Fetch(payload)];
    }
  }

  /** A non-empty queue filled by `queue` always yields a request: the all-rejected branch of `flush` is unreachable from `queue`. */
  lemma QueuedBatchIsSent(eventQueue: seq<Event>)
    requires forall i :: 0 <= i < |eventQueue| ==> IsValidFieldId(eventQueue[i].fieldId)
    requires eventQueue != []
    ensures SafeEvents(eventQueue) != []
  {
    AcceptedEmpty(eventQueue, IsValidFieldId);
  }

  /** Flushing the queue sends exactly the events that were queued, in queue order. */
  lemma FlushSendsQueue(eventQueue: seq<Event>)
    requires forall i :: 0 <= i < |eventQueue| ==> IsValidFieldId(eventQueue[i].fieldId)
    ensures SafeEvents(eventQueue) == eventQueue
  {
    AcceptedAllValid(eventQueue, IsValidFieldId);
  }
}
