/**
 * `initSessionAndUtm` of public/js/Utilities.js: on page load, give the tab
 * a session id unless it has one, and copy the campaign parameters of the
 * address (the five `utm_*` keys and `gclid`) into local storage. The
 * generated id, the query string and which writes throw are parameters.
 */
module Utilities {

  /** The query parameters that are persisted, in the order they are written. */
  const UtmKeys: seq<string> := ["utm_source", "utm_medium", "utm_campaign", "utm_term", "utm_content", "gclid"]

  predicate IsUtmKey(key: string)
  {
    key == "utm_source" || key == "utm_medium" || key == "utm_campaign"
    || key == "utm_term" || key == "utm_content" || key == "gclid"
  }

  lemma UtmKeysListed()
    ensures forall k :: k in UtmKeys <==> IsUtmKey(k)
    ensures |UtmKeys| == 6
  {
  }

  /** `!sessionStorage.getItem('sessionId')`: the key is absent or empty. */
  predicate NeedsSessionId(session: map<string, string>)
  {
    "sessionId" !in session || session["sessionId"] == ""
  }

  /** The session storage after the session-id step. */
  function WithSessionId(session: map<string, string>, sid: string): (r: map<string, string>)
    ensures !NeedsSessionId(session) ==> r == session
    ensures NeedsSessionId(session) ==> r == session["sessionId" := sid]
    ensures "sessionId" in r && (r["sessionId"] == "" ==> sid == "")
    ensures forall k :: k in session && k != "sessionId" ==> k in r && r[k] == session[k]
  {
    if NeedsSessionId(session) then session["sessionId" := sid] else session
  }

  /** `if (value)` on `params.get(key)`: present and non-empty. */
  predicate HasValue(query: map<string, string>, key: string)
  {
    key in query && query[key] != ""
  }

  /** The key is persisted: listed, present in the query, and its write does not throw. */
  predicate Written(query: map<string, string>, failing: set<string>, key: string)
  {
    IsUtmKey(key) && HasValue(query, key) && key !in failing
  }

  /** The local storage after the loop, stated key by key. */
  function WithCampaign(local: map<string, string>, query: map<string, string>, failing: set<string>): (r: map<string, string>)
    ensures forall k :: k in r <==> k in local || Written(query, failing, k)
    ensures forall k :: k in r ==> r[k] == if Written(query, failing, k) then query[k] else local[k]
  {
    map k | k in local.Keys + (set k | k in query && Written(query, failing, k)) ::
      if Written(query, failing, k) then query[k] else local[k]
  }

  /** The loop over `keys`, one write at a time. */
  function WriteKeys(local: map<string, string>, query: map<string, string>, failing: set<string>, keys: seq<string>): map<string, string>
    decreases |keys|
  {
    if keys == [] then local
    else
      var last := keys[|keys| - 1];
      var before := WriteKeys(local, query, failing, keys[..|keys| - 1]);
      if HasValue(query, last) && last !in failing then before[last := query[last]] else before
  }

  /** Writing `keys` in turn touches exactly those of them that have a value and do not throw. */
  lemma {:induction false} WriteKeysTouches(local: map<string, string>, query: map<string, string>, failing: set<string>, keys: seq<string>)
    ensures var r := WriteKeys(local, query, failing, keys);
      && (forall k :: k in r <==> k in local || (k in keys && HasValue(query, k) && k !in failing))
      && (forall k :: k in r ==> r[k] == if k in keys && HasValue(query, k) && k !in failing then query[k] else local[k])
    decreases |keys|
  {
    if keys != [] {
      var init := keys[..|keys| - 1];
      WriteKeysTouches(local, query, failing, init);
      assert keys == init + [keys[|keys| - 1]];
    }
  }

  /** The loop over the listed keys gives the key-by-key description. */
  lemma WriteKeysSpec(local: map<string, string>, query: map<string, string>, failing: set<string>)
    ensures WriteKeys(local, query, failing, UtmKeys) == WithCampaign(local, query, failing)
  {
    WriteKeysTouches(local, query, failing, UtmKeys);
    UtmKeysListed();
  }

  /** No key outside the six listed ones changes. */
  lemma OnlyCampaignKeys(local: map<string, string>, query: map<string, string>, failing: set<string>, k: string)
    requires !IsUtmKey(k)
    ensures k in WithCampaign(local, query, failing) <==> k in local
    ensures k in local ==> WithCampaign(local, query, failing)[k] == local[k]
  {
  }

  /** A listed key with a value overwrites what was stored; one whose write throws keeps its old value. */
  lemma CampaignOverwrites(local: map<string, string>, query: map<string, string>, failing: set<string>, k: string)
    requires IsUtmKey(k) && HasValue(query, k)
    ensures k !in failing ==> WithCampaign(local, query, failing)[k] == query[k]
    ensures k in failing ==> (k in WithCampaign(local, query, failing) <==> k in local)
    ensures k in failing && k in local ==> WithCampaign(local, query, failing)[k] == local[k]
  {
  }

  /** A key absent or empty in the query leaves storage as it was. */
  lemma MissingParameterKeepsValue(local: map<string, string>, query: map<string, string>, failing: set<string>, k: string)
    requires !HasValue(query, k)
    ensures k in WithCampaign(local, query, failing) <==> k in local
    ensures k in local ==> WithCampaign(local, query, failing)[k] == local[k]
  {
  }

  /** Loading the same address twice stores the same as loading it once. */
  lemma CampaignIdempotent(local: map<string, string>, query: map<string, string>, failing: set<string>)
    ensures WithCampaign(WithCampaign(local, query, failing), query, failing) == WithCampaign(local, query, failing)
  {
  }

  /** An existing session id survives any later load; a fresh one is set once. */
  lemma SessionIdSetOnce(session: map<string, string>, sid1: string, sid2: string)
    requires sid1 != ""
    ensures WithSessionId(WithSessionId(session, sid1), sid2) == WithSessionId(session, sid1)
    ensures WithSessionId(session, sid1)["sessionId"] != ""
  {
  }

  /** The two storages a page sees. */
  class Browser {
    var session: map<string, string>
    var local: map<string, string>

    constructor (session: map<string, string>, local: map<string, string>)
      ensures this.session == session && this.local == local
    {
      this.session := session;
      this.local := local;
    }

    /**
     * `initSessionAndUtm`. When session storage is unavailable its first
     * access throws, the outer `catch` swallows it and nothing is written.
     * A key in `failing` throws on its own write, which is skipped.
     */
    method InitSessionAndUtm(sid: string, query: map<string, string>, failing: set<string>, sessionAvailable: bool)
      modifies this`session, this`local
      ensures session == if sessionAvailable then WithSessionId(old(session), sid) else old(session)
      ensures local == if sessionAvailable then WithCampaign(old(local), query, failing) else old(local)
    {
      if !sessionAvailable {
        return;
      }
      if NeedsSessionId(session) {
        session := session["sessionId" := sid];
      }
      ghost var local0 := local;
      for i := 0 to |UtmKeys|
        invariant local == WriteKeys(local0, query, failing, UtmKeys[..i])
        invariant session == WithSessionId(old(session), sid)
      {
        assert UtmKeys[..i + 1][..i] == UtmKeys[..i];
        var key := UtmKeys[i];
        if key in query && query[key] != "" {
          if key !in failing {
            local := local[key := query[key]];
          }
        }
      }
      assert UtmKeys[..|UtmKeys|] == UtmKeys;
      WriteKeysSpec(local0, query, failing);
    }
  }
}
