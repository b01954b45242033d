/**
 * The post-deploy cache purge script: the fallback `.env` parser that fills
 * `process.env`, the purge-URL list it reads from the environment, the
 * request it plans and the test it applies to Cloudflare's answer.
 */
module PurgeCloudflare {
  import opened Js

  // ---------------------------------------------------------------------
  // Splitting
  // ---------------------------------------------------------------------

  /** The first index at or after `k` where `c` occurs in `s`. */
  function FirstFrom(s: string, c: char, k: nat): (r: Option<nat>)
    requires k <= |s|
    ensures r.Some? ==> k <= r.value < |s| && s[r.value] == c
    ensures r.Some? ==> forall j :: k <= j < r.value ==> s[j] != c
    ensures r.None? ==> forall j :: k <= j < |s| ==> s[j] != c
    decreases |s| - k
  {
    if k == |s| then None
    else if s[k] == c then Some(k)
    else FirstFrom(s, c, k + 1)
  }

  /** `s.indexOf(c)`, with `None` for -1. */
  function IndexOf(s: string, c: char): (r: Option<nat>)
    ensures r.Some? ==> r.value < |s| && s[r.value] == c && c !in s[..r.value]
    ensures r.None? ==> c !in s
  {
    FirstFrom(s, c, 0)
  }

  lemma {:induction false} FirstFromAt(s: string, c: char, k: nat, n: nat)
    requires k <= n < |s| && s[n] == c
    requires forall j :: k <= j < n ==> s[j] != c
    ensures FirstFrom(s, c, k) == Some(n)
    decreases n - k
  {
    if k < n {
      FirstFromAt(s, c, k + 1, n);
    }
  }

  /** `indexOf` finds the first occurrence: any occurrence with none before it. */
  lemma IndexOfAt(s: string, c: char, n: nat)
    requires n < |s| && s[n] == c && c !in s[..n]
    ensures IndexOf(s, c) == Some(n)
  {
    forall j | 0 <= j < n
      ensures s[j] != c
    {
      assert s[..n][j] == s[j];
    }
    FirstFromAt(s, c, 0, n);
  }

  /** `s.split(c)` for a one-character separator: never empty, and no piece holds `c`. */
  function SplitOn(s: string, c: char): (r: seq<string>)
    ensures |r| > 0
    ensures forall i :: 0 <= i < |r| ==> c !in r[i]
    decreases |s|
  {
    match IndexOf(s, c)
    case None => [s]
    case Some(i) => [s[..i]] + SplitOn(s[i + 1..], c)
  }

  /** Joining the pieces with the separator gives back the split string. */
  lemma {:induction false} JoinSplitOn(s: string, c: char)
    ensures Join(SplitOn(s, c), [c]) == s
    decreases |s|
  {
    match IndexOf(s, c)
    case None =>
    case Some(i) =>
      var rest := SplitOn(s[i + 1..], c);
      JoinSplitOn(s[i + 1..], c);
      assert SplitOn(s, c)[1..] == rest;
      assert s == s[..i] + [c] + s[i + 1..];
  }

  /** Splitting a joined list whose items hold no separator gives back the list. */
  lemma {:induction false} SplitOnJoin(ps: seq<string>, c: char)
    requires |ps| > 0
    requires forall i :: 0 <= i < |ps| ==> c !in ps[i]
    ensures SplitOn(Join(ps, [c]), c) == ps
  {
    if |ps| > 1 {
      var tail := Join(ps[1..], [c]);
      var s := ps[0] + [c] + tail;
      assert Join(ps, [c]) == s;
      var n := |ps[0]|;
      assert s[..n] == ps[0];
      assert s[n] == c;
      IndexOfAt(s, c, n);
      assert s[n + 1..] == tail;
      SplitOnJoin(ps[1..], c);
      assert SplitOn(s, c) == [ps[0]] + ps[1..];
    }
  }

  // ---------------------------------------------------------------------
  // Trimming facts
  // ---------------------------------------------------------------------

  /** A string with no whitespace at either end is its own trimmed form. */
  predicate Trimmed(s: string)
  {
    s == [] || (!IsWhitespace(s[0]) && !IsWhitespace(s[|s| - 1]))
  }

  lemma TrimTrimmed(s: string)
    requires Trimmed(s)
    ensures Trim(s) == s
  {
    assert TrimStart(s) == s;
  }

  /** `trimStart()` passes a trailing whitespace character through unless nothing else is left. */
  lemma {:induction false} TrimStartSnoc(s: string, w: char)
    requires IsWhitespace(w)
    ensures TrimStart(s + [w]) == if TrimStart(s) == [] then [] else TrimStart(s) + [w]
    decreases |s|
  {
    if s == [] {
      assert TrimStart([w]) == TrimStart([w][1..]);
    } else if IsWhitespace(s[0]) {
      assert (s + [w])[1..] == s[1..] + [w];
      TrimStartSnoc(s[1..], w);
    }
  }

  /** `trim()` ignores one more trailing whitespace character, a carriage return say. */
  lemma TrimSnoc(s: string, w: char)
    requires IsWhitespace(w)
    ensures Trim(s + [w]) == Trim(s)
  {
    TrimStartSnoc(s, w);
    var t := TrimStart(s);
    if t != [] {
      assert (t + [w])[..|t|] == t;
    }
  }

  /** The trimmed form has no whitespace at its ends. */
  lemma TrimIsTrimmed(s: string)
    ensures Trimmed(Trim(s))
  {
    TrimSpec(s);
  }

  /** Trimming only cuts characters away, so it adds no character that was absent. */
  lemma TrimKeepsOut(s: string, c: char)
    requires c !in s
    ensures c !in Trim(s)
  {
    TrimSpec(s);
    var k := |s| - |TrimStart(s)|;
    assert Trim(s) == s[k..k + |Trim(s)|];
  }

  // ---------------------------------------------------------------------
  // The `.env` fallback parser
  // ---------------------------------------------------------------------

  /** Drops one carriage return before the cut, which is what splitting on `\r?\n` does. */
  function StripCr(line: string): (r: string)
    ensures r == line || r + ['\r'] == line
  {
    if |line| > 0 && line[|line| - 1] == '\r' then line[..|line| - 1] else line
  }

  function StripCrAll(pieces: seq<string>): (r: seq<string>)
    ensures |r| == |pieces|
  {
    if |pieces| <= 1 then pieces else [StripCr(pieces[0])] + StripCrAll(pieces[1..])
  }

  /** `content.split(/\r?\n/)`: split on LF, then drop the CR before each LF. */
  function Lines(content: string): seq<string>
  {
    StripCrAll(SplitOn(content, '\n'))
  }

  /** `value` starts and ends with the quote character `q` (one character is both). */
  predicate Quoted(value: string, q: char)
  {
    |value| > 0 && value[0] == q && value[|value| - 1] == q
  }

  /** Removes one layer of matching double or single quotes; `slice(1, -1)` of one character is empty. */
  function Unquote(value: string): (r: string)
    ensures |r| <= |value|
    ensures !Quoted(value, '"') && !Quoted(value, '\'') ==> r == value
    ensures |value| >= 2 && (Quoted(value, '"') || Quoted(value, '\'')) ==>
      value == [value[0]] + r + [value[0]]
  {
    if Quoted(value, '"') || Quoted(value, '\'') then
      (if |value| >= 2 then value[1..|value| - 1] else "")
    else value
  }

  /** One line's contribution: `None` for a blank line, a comment or a line without `=`. */
  function ParseLine(raw: string): (r: Option<(string, string)>)
    ensures r.Some? <==> var line := Trim(raw); line != "" && line[0] != '#' && '=' in line
    ensures r.Some? ==> '=' !in r.value.0
  {
    var line := Trim(raw);
    if line == "" || line[0] == '#' then None else SplitEntry(line)
  }

  /** Cuts a line at its first `=`: the key is the trimmed text before it and the value
      the trimmed, unquoted text after it. */
  function SplitEntry(line: string): (r: Option<(string, string)>)
    ensures r.Some? <==> '=' in line
    ensures r.Some? ==> '=' !in r.value.0
  {
    match IndexOf(line, '=')
    case None => None
    case Some(idx) =>
      TrimKeepsOut(line[..idx], '=');
      Some((Trim(line[..idx]), Unquote(Trim(line[idx + 1..]))))
  }

  /** Whatever follows the first `=`, further `=` signs included, is the value. */
  lemma SplitEntryAt(key: string, value: string)
    requires '=' !in key
    ensures SplitEntry(key + "=" + value) == Some((Trim(key), Unquote(Trim(value))))
  {
    var line := key + "=" + value;
    var n := |key|;
    assert line[..n] == key;
    assert line[n] == '=';
    IndexOfAt(line, '=', n);
    assert line[n + 1..] == value;
  }

  /** A key allowed to the left of `=`: trimmed, free of `=`, and not a comment marker. */
  predicate PlainKey(key: string)
  {
    Trimmed(key) && '=' !in key && (key == [] || key[0] != '#')
  }

  /** `key + "=" + value` is a line the parser reads whole, for any value. */
  lemma PlainLine(key: string, value: string)
    requires PlainKey(key)
    requires value == [] || !IsWhitespace(value[|value| - 1])
    ensures ParseLine(key + "=" + value) == SplitEntry(key + "=" + value)
  {
    var line := key + "=" + value;
    assert line[|key|] == '=';
    if key != [] {
      assert line[0] == key[0];
    }
    if value != [] {
      assert line[|line| - 1] == value[|value| - 1];
    }
    TrimTrimmed(line);
  }

  /** A written `KEY=value` line parses back to its key and value; `=` inside the value stays. */
  lemma ParseLineRoundTrip(key: string, value: string)
    requires PlainKey(key)
    requires Trimmed(value) && !Quoted(value, '"') && !Quoted(value, '\'')
    ensures ParseLine(key + "=" + value) == Some((key, value))
  {
    PlainLine(key, value);
    SplitEntryAt(key, value);
    TrimTrimmed(key);
    TrimTrimmed(value);
  }

  /** A quoted value loses its quotes and keeps everything between them, blanks and `=` included. */
  lemma ParseLineQuoted(key: string, inner: string, q: char)
    requires PlainKey(key)
    requires q == '"' || q == '\''
    ensures ParseLine(key + "=" + ([q] + inner + [q])) == Some((key, inner))
  {
    var value := [q] + inner + [q];
    PlainLine(key, value);
    SplitEntryAt(key, value);
    TrimTrimmed(key);
    UnquoteWrapped(inner, q);
  }

  lemma UnquoteWrapped(inner: string, q: char)
    requires q == '"' || q == '\''
    ensures Trim([q] + inner + [q]) == [q] + inner + [q]
    ensures Unquote([q] + inner + [q]) == inner
  {
    var value := [q] + inner + [q];
    assert value[0] == q && value[|value| - 1] == q;
    TrimTrimmed(value);
    assert value[1..|value| - 1] == inner;
  }

  /** A CRLF file parses exactly like its LF form. */
  lemma ParseLineIgnoresCr(raw: string)
    ensures ParseLine(StripCr(raw)) == ParseLine(raw)
  {
    if StripCr(raw) != raw {
      TrimSnoc(StripCr(raw), '\r');
    }
  }

  /** The entries a file yields, in file order. */
  function Parsed(lines: seq<string>): (r: seq<(string, string)>)
    ensures |r| <= |lines|
  {
    if lines == [] then [] else Contribution(lines[0]) + Parsed(lines[1..])
  }

  /** What one line adds to the entries: its entry, or nothing. */
  function Contribution(raw: string): (r: seq<(string, string)>)
    ensures |r| <= 1
  {
    match ParseLine(raw) case None => [] case Some(e) => [e]
  }

  /** Parsing works line by line: the entries of two runs of lines are those of each, in order. */
  lemma {:induction false} ParsedAppend(a: seq<string>, b: seq<string>)
    ensures Parsed(a + b) == Parsed(a) + Parsed(b)
  {
    if a == [] {
      assert a + b == b;
    } else {
      var ab := a + b;
      assert ab[0] == a[0] && ab[1..] == a[1..] + b;
      ParsedAppend(a[1..], b);
      var head := Contribution(a[0]);
      assert Parsed(ab) == head + Parsed(ab[1..]);
      assert head + (Parsed(a[1..]) + Parsed(b)) == (head + Parsed(a[1..])) + Parsed(b);
    }
  }

  /** Every line `ParseLine` accepts contributes its entry. */
  lemma {:induction false} ParsedComplete(lines: seq<string>, i: nat)
    requires i < |lines| && ParseLine(lines[i]).Some?
    ensures ParseLine(lines[i]).value in Parsed(lines)
  {
    var e := ParseLine(lines[i]).value;
    var rest := Parsed(lines[1..]);
    assert Parsed(lines) == Contribution(lines[0]) + rest;
    if i == 0 {
      assert Contribution(lines[0]) == [e];
    } else {
      assert lines[i] == lines[1..][i - 1];
      ParsedComplete(lines[1..], i - 1);
      assert e in rest;
    }
  }

  /** Every entry comes from some line that `ParseLine` accepts. */
  lemma {:induction false} ParsedSound(lines: seq<string>, e: (string, string))
    requires e in Parsed(lines)
    ensures exists i :: 0 <= i < |lines| && ParseLine(lines[i]) == Some(e)
  {
    var head := Contribution(lines[0]);
    assert Parsed(lines) == head + Parsed(lines[1..]);
    if e in head {
      assert ParseLine(lines[0]) == Some(e);
    } else {
      ParsedSound(lines[1..], e);
      var j :| 0 <= j < |lines[1..]| && ParseLine(lines[1..][j]) == Some(e);
      assert lines[j + 1] == lines[1..][j];
    }
  }

  function Entries(content: string): seq<(string, string)>
  {
    Parsed(Lines(content))
  }

  /** `if (!process.env[key]) process.env[key] = value`: only a missing or empty variable is written. */
  function Assign(env: map<string, string>, e: (string, string)): map<string, string>
  {
    if e.0 !in env || env[e.0] == "" then env[e.0 := e.1] else env
  }

  /** The environment after the entries were applied in order. */
  function Apply(env: map<string, string>, entries: seq<(string, string)>): map<string, string>
  {
    if entries == [] then env else Assign(Apply(env, entries[..|entries| - 1]), entries[|entries| - 1])
  }

  /** A variable that already holds a non-empty value is never overridden. */
  lemma {:induction false} ApplyKeepsSet(env: map<string, string>, entries: seq<(string, string)>, k: string)
    requires k in env && env[k] != ""
    ensures k in Apply(env, entries) && Apply(env, entries)[k] == env[k]
  {
    if entries != [] {
      ApplyKeepsSet(env, entries[..|entries| - 1], k);
    }
  }

  /** The variables afterwards are the ones before plus every key the file names. */
  lemma {:induction false} ApplyKeys(env: map<string, string>, entries: seq<(string, string)>, k: string)
    ensures k in Apply(env, entries) <==> k in env || exists i :: 0 <= i < |entries| && entries[i].0 == k
  {
    if entries != [] {
      var init := entries[..|entries| - 1];
      ApplyKeys(env, init, k);
      if exists i :: 0 <= i < |init| && init[i].0 == k {
        var i :| 0 <= i < |init| && init[i].0 == k;
        assert entries[i].0 == k;
      }
      if exists i :: 0 <= i < |entries| && entries[i].0 == k {
        var i :| 0 <= i < |entries| && entries[i].0 == k;
        if i < |init| {
          assert init[i].0 == k;
        }
      }
    }
  }

  /** While the file has only given `k` empty values, `k` stays unset or empty. */
  lemma {:induction false} ApplyStaysEmpty(env: map<string, string>, entries: seq<(string, string)>, k: string)
    requires k !in env || env[k] == ""
    requires forall j :: 0 <= j < |entries| && entries[j].0 == k ==> entries[j].1 == ""
    ensures k !in Apply(env, entries) || Apply(env, entries)[k] == ""
  {
    if entries != [] {
      ApplyStaysEmpty(env, entries[..|entries| - 1], k);
    }
  }

  /** For an unset or empty variable, the first non-empty value the file gives wins. */
  lemma {:induction false} ApplyFirstWins(env: map<string, string>, entries: seq<(string, string)>, k: string, i: nat)
    requires k !in env || env[k] == ""
    requires i < |entries| && entries[i].0 == k && entries[i].1 != ""
    requires forall j :: 0 <= j < i && entries[j].0 == k ==> entries[j].1 == ""
    ensures k in Apply(env, entries) && Apply(env, entries)[k] == entries[i].1
  {
    var init := entries[..|entries| - 1];
    if i == |entries| - 1 {
      ApplyStaysEmpty(env, init, k);
    } else {
      ApplyFirstWins(env, init, k, i);
    }
  }

  /** `process.env` as the script reads and writes it: variable names to string values. */
  class ProcessEnv {
    var vars: map<string, string>

    constructor (initial: map<string, string>)
      ensures vars == initial
    {
      vars := initial;
    }

    /** `if (!process.env[key]) process.env[key] = value`. */
    method SetIfUnset(key: string, value: string)
      modifies this
      ensures vars == Assign(old(vars), (key, value))
    {
      if key !in vars || vars[key] == "" {
        vars := vars[key := value];
      }
    }

    /** The fallback parser: writes each entry of `content` that finds its variable unset or empty. */
    method LoadDotEnv(content: string)
      modifies this
      ensures vars == Apply(old(vars), Entries(content))
    {
      SetEach(Entries(content));
    }

    /** The `forEach` over the parsed entries, in file order. */
    method SetEach(entries: seq<(string, string)>)
      modifies this
      ensures vars == Apply(old(vars), entries)
    {
      ghost var start := vars;
      var i := 0;
      while i < |entries|
        invariant i <= |entries|
        invariant vars == Apply(start, entries[..i])
      {
        SetIfUnset(entries[i].0, entries[i].1);
        ApplyStep(start, entries, i);
        i := i + 1;
      }
      assert entries[..|entries|] == entries;
    }
  }

  lemma ApplyStep(env: map<string, string>, entries: seq<(string, string)>, i: nat)
    requires i < |entries|
    ensures Apply(env, entries[..i + 1]) == Assign(Apply(env, entries[..i]), entries[i])
  {
    assert entries[..i + 1][..i] == entries[..i];
  }

  // ---------------------------------------------------------------------
  // The purge request
  // ---------------------------------------------------------------------

  /** `process.env[key] || ''`. */
  function EnvOr(env: map<string, string>, key: string): string
  {
    if key in env then env[key] else ""
  }

  /** Keeps the trimmed pieces that are not empty, in order. */
  function NonBlank(pieces: seq<string>): (r: seq<string>)
    ensures forall j :: 0 <= j < |r| ==> r[j] != "" && Trimmed(r[j])
  {
    if pieces == [] then []
    else
      TrimIsTrimmed(pieces[0]);
      if Trim(pieces[0]) == "" then NonBlank(pieces[1..]) else [Trim(pieces[0])] + NonBlank(pieces[1..])
  }

  /** No kept URL contains a character that no piece contained. */
  lemma {:induction false} NonBlankKeepsOut(pieces: seq<string>, c: char)
    requires forall i :: 0 <= i < |pieces| ==> c !in pieces[i]
    ensures forall j :: 0 <= j < |NonBlank(pieces)| ==> c !in NonBlank(pieces)[j]
  {
    if pieces != [] {
      TrimKeepsOut(pieces[0], c);
      NonBlankKeepsOut(pieces[1..], c);
    }
  }

  /** Every piece that is not blank once trimmed is kept. */
  lemma {:induction false} NonBlankComplete(pieces: seq<string>, i: nat)
    requires i < |pieces| && Trim(pieces[i]) != ""
    ensures Trim(pieces[i]) in NonBlank(pieces)
  {
    if i > 0 {
      NonBlankComplete(pieces[1..], i - 1);
      assert pieces[1..][i - 1] == pieces[i];
    }
  }

  /** `value.split(',').map(s => s.trim()).filter(Boolean)`. */
  function PurgeUrls(value: string): (r: seq<string>)
    ensures forall j :: 0 <= j < |r| ==> r[j] != "" && Trimmed(r[j]) && ',' !in r[j]
  {
    NonBlankKeepsOut(SplitOn(value, ','), ',');
    NonBlank(SplitOn(value, ','))
  }

  /** Every comma-separated piece with text in it becomes a purge URL, trimmed. */
  lemma PurgeUrlsComplete(value: string, i: nat)
    requires i < |SplitOn(value, ',')| && Trim(SplitOn(value, ',')[i]) != ""
    ensures Trim(SplitOn(value, ',')[i]) in PurgeUrls(value)
  {
    NonBlankComplete(SplitOn(value, ','), i);
  }

  /** A comma-separated list of trimmed, non-empty, comma-free URLs reads back as itself. */
  lemma PurgeUrlsRoundTrip(urls: seq<string>)
    requires forall j :: 0 <= j < |urls| ==> urls[j] != "" && Trimmed(urls[j]) && ',' !in urls[j]
    ensures PurgeUrls(Join(urls, [','])) == urls
  {
    if urls != [] {
      SplitOnJoin(urls, ',');
      NonBlankKeeps(urls);
      assert PurgeUrls(Join(urls, [','])) == NonBlank(SplitOn(Join(urls, [',']), ','));
    } else {
      assert SplitOn([], ',') == [[]];
      TrimTrimmed([]);
    }
  }

  lemma {:induction false} NonBlankKeeps(pieces: seq<string>)
    requires forall j :: 0 <= j < |pieces| ==> pieces[j] != "" && Trimmed(pieces[j])
    ensures NonBlank(pieces) == pieces
  {
    if pieces != [] {
      TrimTrimmed(pieces[0]);
      NonBlankKeeps(pieces[1..]);
    }
  }

  /** The JSON body: the listed files, or the whole zone. */
  datatype Body = Files(urls: seq<string>) | PurgeEverything

  datatype Request = Request(hostname: string, path: string, authorization: string, body: Body)

  /** What `run()` does before any answer: exit with a message, or post the request. */
  datatype Plan = Exit(message: string) | Post(request: Request)

  const ZonePrefix := "/client/v4/zones/"
  const ZoneSuffix := "/purge_cache"
  const BearerPrefix := "Bearer "

  /** The request `run()` posts for a zone, a token and a URL list. */
  function RequestFor(zone: string, token: string, urls: seq<string>): Request
  {
    Request("api.cloudflare.com", ZonePrefix + zone + ZoneSuffix, BearerPrefix + token,
            if |urls| > 0 then Files(urls) else PurgeEverything)
  }

  function PlanPurge(env: map<string, string>): Plan
  {
    var zone := EnvOr(env, "CF_ZONE_ID");
    var token := EnvOr(env, "CF_API_TOKEN");
    if zone == "" then Exit("Missing CF_ZONE_ID environment variable.")
    else if token == "" then Exit("Missing CF_API_TOKEN environment variable.")
    else Post(RequestFor(zone, token, PurgeUrls(EnvOr(env, "CF_PURGE_URLS"))))
  }

  /** No request goes out unless both the zone id and the token are set and non-empty;
      a missing zone id is reported first. */
  lemma PlanNeedsCredentials(env: map<string, string>)
    ensures PlanPurge(env).Post? <==> EnvOr(env, "CF_ZONE_ID") != "" && EnvOr(env, "CF_API_TOKEN") != ""
    ensures EnvOr(env, "CF_ZONE_ID") == "" ==> PlanPurge(env) == Exit("Missing CF_ZONE_ID environment variable.")
    ensures EnvOr(env, "CF_ZONE_ID") != "" && EnvOr(env, "CF_API_TOKEN") == "" ==>
      PlanPurge(env) == Exit("Missing CF_API_TOKEN environment variable.")
  {
  }

  /** The request names the zone in its path and carries the token as a bearer credential;
      both read back out unchanged. */
  lemma RequestReadsBack(zone: string, token: string, urls: seq<string>)
    ensures var q := RequestFor(zone, token, urls);
      StartsWith(q.path, ZonePrefix) && EndsWith(q.path, ZoneSuffix) &&
      q.path[|ZonePrefix|..|q.path| - |ZoneSuffix|] == zone &&
      StartsWith(q.authorization, BearerPrefix) &&
      q.authorization[|BearerPrefix|..] == token
  {
    var path := ZonePrefix + zone + ZoneSuffix;
    assert path[..|ZonePrefix|] == ZonePrefix;
    assert path[|path| - |ZoneSuffix|..] == ZoneSuffix;
    assert path[|ZonePrefix|..|path| - |ZoneSuffix|] == zone;
    var auth := BearerPrefix + token;
    assert auth[..|BearerPrefix|] == BearerPrefix;
  }

  /** The body lists the URLs when there are any, and purges everything otherwise. */
  lemma RequestBody(zone: string, token: string, urls: seq<string>)
    ensures var b := RequestFor(zone, token, urls).body;
      (b.Files? <==> urls != []) && (b.Files? ==> b.urls == urls)
  {
  }

  lemma {:induction false} SplitOnWithin(s: string, c: char, allowed: set<char>)
    requires forall k :: 0 <= k < |s| ==> s[k] in allowed
    ensures forall i, k :: 0 <= i < |SplitOn(s, c)| && 0 <= k < |SplitOn(s, c)[i]| ==> SplitOn(s, c)[i][k] in allowed
    decreases |s|
  {
    match IndexOf(s, c)
    case None =>
    case Some(n) =>
      SplitOnWithin(s[n + 1..], c, allowed);
  }

  lemma {:induction false} NonBlankAllBlank(pieces: seq<string>)
    requires forall i, k :: 0 <= i < |pieces| && 0 <= k < |pieces[i]| ==> IsWhitespace(pieces[i][k])
    ensures NonBlank(pieces) == []
  {
    if pieces != [] {
      TrimEmpty(pieces[0]);
      NonBlankAllBlank(pieces[1..]);
    }
  }

  /** An unset, empty or all-commas-and-blanks URL list yields no URL, so the whole zone is purged. */
  lemma BlankUrlsPurgeEverything(value: string)
    requires forall k :: 0 <= k < |value| ==> value[k] == ',' || IsWhitespace(value[k])
    ensures PurgeUrls(value) == []
  {
    var ws := set k | 0 <= k < |value| :: value[k];
    SplitOnWithin(value, ',', ws);
    var pieces := SplitOn(value, ',');
    forall i, k | 0 <= i < |pieces| && 0 <= k < |pieces[i]|
      ensures IsWhitespace(pieces[i][k])
    {
      assert pieces[i][k] in ws;
      assert pieces[i][k] != ',';
    }
    NonBlankAllBlank(pieces);
  }

  // ---------------------------------------------------------------------
  // The answer
  // ---------------------------------------------------------------------

  /** The parsed reply: a JSON object with its `success` member (`Undefined` when absent),
      or any other value — another JSON value, or the raw text when parsing failed. */
  datatype Reply = Object(success: JsValue) | Plain(value: JsValue)

  /** `postJson`'s body: `JSON.parse(data || '{}')`, falling back to the raw text.
      `parsed` is the parser's answer for non-empty data, `None` when it throws. */
  function Received(data: string, parsed: Option<Reply>): Reply
  {
    if data == "" then Object(Undefined)
    else match parsed
      case None => Plain(Str(data))
      case Some(reply) => reply
  }

  predicate ReplyTruthy(reply: Reply)
  {
    match reply
    case Object(_) => true
    case Plain(v) => Truthy(v)
  }

  /** `response.success`: only an object has the member. */
  function SuccessMember(reply: Reply): JsValue
  {
    match reply
    case Object(s) => s
    case Plain(_) => Undefined
  }

  /** `statusCode && statusCode >= 200 && statusCode < 300 && response && response.success !== false`. */
  predicate Succeeded(status: int, reply: Reply)
  {
    status != 0 && status >= 200 && status < 300 && ReplyTruthy(reply) && SuccessMember(reply) != Bool(false)
  }

  /** Success is exactly: a 2xx status, and a reply that is neither an object saying
      `success: false` nor a falsy value. */
  lemma SucceededSpec(status: int, reply: Reply)
    ensures Succeeded(status, reply) <==>
      200 <= status < 300 &&
      reply != Object(Bool(false)) &&
      !(reply.Plain? && !Truthy(reply.value))
  {
  }

  /** An empty 2xx reply counts as success, and so does non-JSON text. */
  lemma EmptyOrTextReplySucceeds(status: int, data: string)
    requires 200 <= status < 300
    ensures Succeeded(status, Received(data, None))
  {
  }

  /** A reply that parses to `null` or `false` fails even with a 2xx status. */
  lemma FalsyReplyFails(status: int, data: string, v: JsValue)
    requires data != "" && !Truthy(v)
    ensures !Succeeded(status, Received(data, Some(Plain(v))))
  {
  }
}
