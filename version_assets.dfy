/**
 * The post-build rewriter of scripts/versionAssets.js: in the built HTML,
 * CSS and JavaScript files, every `/images/<name>.avif` or `.webp` URL gets
 * a `v=<build id>` query parameter so browsers fetch the new file after a
 * deploy. The rewrite is the global replace of one regular expression,
 * modelled as a left-to-right scanner that cuts the text into untouched
 * characters and matched URLs.
 */
module VersionAssets {
  import opened Js

  /** `shouldEdit`: the file name ends in `.html`, `.css` or `.js`. */
  predicate ShouldEdit(file: string)
  {
    EndsWith(file, ".html") || EndsWith(file, ".css") || EndsWith(file, ".js")
  }

  /**
   * A file is edited exactly when its name ends in `.html`, `.css` or `.js`:
   * whatever precedes the suffix is irrelevant.
   */
  lemma ShouldEditSpec(stem: string, ext: string)
    requires ext == ".html" || ext == ".css" || ext == ".js"
    ensures ShouldEdit(stem + ext)
  {
    assert (stem + ext)[|stem + ext| - |ext|..] == ext;
  }

  lemma ShouldEditExamples()
    ensures ShouldEdit("build/index.html") && ShouldEdit("static/js/main.js")
    ensures !ShouldEdit("static/js/main.js.map") && !ShouldEdit("manifest.json")
  {
    assert "static/js/main.js.map"[|"static/js/main.js.map"| - 3..] == "map";
    assert "static/js/main.js.map"[|"static/js/main.js.map"| - 4..] == ".map";
    assert "static/js/main.js.map"[|"static/js/main.js.map"| - 5..] == "s.map";
    assert "manifest.json"[|"manifest.json"| - 3..] == "son";
    assert "manifest.json"[|"manifest.json"| - 4..] == "json";
    assert "manifest.json"[|"manifest.json"| - 5..] == ".json";
  }

  /** The class `[\w\-./]` of the path part. */
  predicate PathChar(c: char)
  {
    IsWordChar(c) || c == '-' || c == '.' || c == '/'
  }

  /** The class `[^\s"')]` of the query part. */
  predicate QueryChar(c: char)
  {
    !IsWhitespace(c) && c != '"' && c != '\'' && c != ')'
  }

  /** The length of the longest prefix of `s` made of path characters. */
  function PathRun(s: string): (n: nat)
    ensures n <= |s|
    ensures forall i :: 0 <= i < n ==> PathChar(s[i])
    ensures n < |s| ==> !PathChar(s[n])
  {
    if s != [] && PathChar(s[0]) then 1 + PathRun(s[1..]) else 0
  }

  /** The length of the longest prefix of `s` made of query characters. */
  function QueryRun(s: string): (n: nat)
    ensures n <= |s|
    ensures forall i :: 0 <= i < n ==> QueryChar(s[i])
    ensures n < |s| ==> !QueryChar(s[n])
  {
    if s != [] && QueryChar(s[0]) then 1 + QueryRun(s[1..]) else 0
  }

  /** `\.(?:avif|webp)` matches at index `i` of `s`. */
  predicate ExtAt(s: string, i: nat)
  {
    i + 5 <= |s| && s[i] == '.'
    && ((s[i + 1] == 'a' && s[i + 2] == 'v' && s[i + 3] == 'i' && s[i + 4] == 'f')
        || (s[i + 1] == 'w' && s[i + 2] == 'e' && s[i + 3] == 'b' && s[i + 4] == 'p'))
  }

  /** The literal `\/images\/` matches at the start of `s`. */
  predicate ImagesAt(s: string)
  {
    |s| >= 8 && s[0] == '/' && s[1] == 'i' && s[2] == 'm' && s[3] == 'a'
    && s[4] == 'g' && s[5] == 'e' && s[6] == 's' && s[7] == '/'
  }

  lemma ImagesAtIsPrefix(s: string)
    ensures ImagesAt(s) <==> StartsWith(s, "/images/")
  {
    if StartsWith(s, "/images/") {
      assert forall i :: 0 <= i < 8 ==> s[i] == s[..8][i];
    }
  }

  /** A name of length `k` after `/images/` is followed by the extension. */
  predicate StemAt(s: string, k: nat)
  {
    ExtAt(s, 8 + k)
  }

  /**
   * Backtracking of the greedy `[\w\-./]+`: the longest name length, at
   * most `k` and at least 1, after which the extension follows; 0 if none.
   */
  function FindStem(s: string, k: nat): (r: nat)
    ensures r <= k
    ensures r > 0 ==> StemAt(s, r)
    ensures forall j :: r < j <= k ==> !StemAt(s, j)
  {
    if k == 0 then 0 else if StemAt(s, k) then k else FindStem(s, k - 1)
  }

  /** A match at the start of the text: the lengths of the URL group and of the query group. */
  datatype Match = Match(urlLen: nat, queryLen: nat)

  /** The regular expression `(\/images\/[\w\-./]+\.(?:avif|webp))(\?[^\s"')]*)?` tried at the start of `s`. */
  function MatchAt(s: string): (m: Option<Match>)
    ensures m.Some? ==> 14 <= m.value.urlLen && m.value.urlLen + m.value.queryLen <= |s|
  {
    if !ImagesAt(s) then None
    else
      var k := FindStem(s, PathRun(s[8..]));
      if k == 0 then None
      else
        var u := 8 + k + 5;
        var q := if u < |s| && s[u] == '?' then 1 + QueryRun(s[u + 1..]) else 0;
        Some(Match(u, q))
  }

  /** The end of the match at the start of `s`. */
  function MatchEnd(s: string): (e: nat)
    requires MatchAt(s).Some?
    ensures 14 <= e <= |s|
  {
    MatchAt(s).value.urlLen + MatchAt(s).value.queryLen
  }

  /** The first group of the match at the start of `s`. */
  function MatchUrl(s: string): string
    requires MatchAt(s).Some?
  {
    s[..MatchAt(s).value.urlLen]
  }

  /** The second group of the match at the start of `s` (empty when absent). */
  function MatchQuery(s: string): string
    requires MatchAt(s).Some?
  {
    s[MatchAt(s).value.urlLen..MatchEnd(s)]
  }

  /** The shape of a URL the expression accepts. */
  predicate IsImageUrl(url: string)
  {
    |url| >= 14 && ImagesAt(url)
    && (forall i :: 8 <= i < |url| - 5 ==> PathChar(url[i]))
    && ExtAt(url, |url| - 5)
  }

  /** The shape of the optional query group: empty, or `?` followed by query characters. */
  predicate IsQuery(query: string)
  {
    query == [] || (query[0] == '?' && forall i :: 1 <= i < |query| ==> QueryChar(query[i]))
  }

  /**
   * What a match is: an image URL followed by a query; the name is the
   * longest one the text allows, and the query runs as far as it can.
   */
  lemma MatchAtSpec(s: string)
    requires MatchAt(s).Some?
    ensures IsImageUrl(MatchUrl(s)) && IsQuery(MatchQuery(s))
    ensures forall j :: |MatchUrl(s)| - 13 < j <= PathRun(s[8..]) ==> !StemAt(s, j)
    ensures MatchEnd(s) < |s| ==> (if MatchQuery(s) == [] then s[MatchEnd(s)] != '?' else !QueryChar(s[MatchEnd(s)]))
  {
    MatchUrlShape(s);
    MatchQueryShape(s);
  }

  lemma MatchUrlShape(s: string)
    requires MatchAt(s).Some?
    ensures IsImageUrl(MatchUrl(s))
  {
    var url := MatchUrl(s);
    forall i | 8 <= i < |url| - 5 ensures PathChar(url[i]) {
      assert url[i] == s[8..][i - 8];
    }
  }

  lemma MatchQueryShape(s: string)
    requires MatchAt(s).Some?
    ensures IsQuery(MatchQuery(s))
    ensures MatchEnd(s) < |s| ==> (if MatchQuery(s) == [] then s[MatchEnd(s)] != '?' else !QueryChar(s[MatchEnd(s)]))
  {
    var u := MatchAt(s).value.urlLen;
    var q := MatchAt(s).value.queryLen;
    if q > 0 {
      var query := MatchQuery(s);
      forall i | 1 <= i < |query| ensures QueryChar(query[i]) {
        assert query[i] == s[u + 1..][i - 1];
      }
      if u + q < |s| {
        assert s[u + q] == s[u + 1..][q - 1];
      }
    }
  }

  /** No match starts where the text does not start with `/images/`. */
  lemma NoMatchWithoutPrefix(s: string)
    requires !StartsWith(s, "/images/")
    ensures MatchAt(s).None?
  {
    ImagesAtIsPrefix(s);
  }

  /** A piece of the scanned text: one character outside any match, or one match. */
  datatype Piece = Plain(c: char) | Link(url: string, query: string)

  /** The global search: from each position, a match if one starts there, else one plain character. */
  function Scan(s: string): (ps: seq<Piece>)
    decreases |s|
  {
    if s == [] then []
    else
      if MatchAt(s).Some? then [Link(MatchUrl(s), MatchQuery(s))] + Scan(s[MatchEnd(s)..])
      else [Plain(s[0])] + Scan(s[1..])
  }

  /** The text of the pieces, as they were found. */
  function Unscan(ps: seq<Piece>): string
  {
    if ps == [] then []
    else (match ps[0] case Plain(c) => [c] case Link(url, query) => url + query) + Unscan(ps[1..])
  }

  lemma UnscanCons(p: Piece, ps: seq<Piece>)
    ensures Unscan([p] + ps) == (match p case Plain(c) => [c] case Link(url, query) => url + query) + Unscan(ps)
  {
    assert ([p] + ps)[1..] == ps;
  }

  /** Scanning loses nothing: the pieces spell the text back. */
  lemma {:induction false} ScanRoundTrip(s: string)
    ensures Unscan(Scan(s)) == s
    decreases |s|
  {
    if s != [] {
      if MatchAt(s).Some? {
        ScanRoundTrip(s[MatchEnd(s)..]);
        LinkStep(s);
      } else {
        ScanRoundTrip(s[1..]);
        PlainStep(s);
      }
    }
  }

  lemma LinkStep(s: string)
    requires MatchAt(s).Some?
    requires Unscan(Scan(s[MatchEnd(s)..])) == s[MatchEnd(s)..]
    ensures Unscan(Scan(s)) == s
  {
    ScanLinkUnfold(s);
    UnscanLink(MatchUrl(s), MatchQuery(s), Scan(s[MatchEnd(s)..]));
    SplitThree(s, MatchAt(s).value.urlLen, MatchEnd(s));
  }

  lemma UnscanLink(url: string, query: string, ps: seq<Piece>)
    ensures Unscan([Link(url, query)] + ps) == url + query + Unscan(ps)
  {
    assert ([Link(url, query)] + ps)[1..] == ps;
  }

  lemma SplitThree(s: string, u: nat, e: nat)
    requires u <= e <= |s|
    ensures s[..u] + s[u..e] + s[e..] == s
  {
  }

  lemma ScanLinkUnfold(s: string)
    requires MatchAt(s).Some?
    ensures Scan(s) == [Link(MatchUrl(s), MatchQuery(s))] + Scan(s[MatchEnd(s)..])
  {
  }

  lemma PlainStep(s: string)
    requires s != [] && MatchAt(s).None?
    requires Unscan(Scan(s[1..])) == s[1..]
    ensures Unscan(Scan(s)) == s
  {
    assert Scan(s) == [Plain(s[0])] + Scan(s[1..]);
    UnscanCons(Plain(s[0]), Scan(s[1..]));
    assert [s[0]] + s[1..] == s;
  }

  /** Every link the scanner finds has the shape of the expression. */
  lemma {:induction false} ScanLinks(s: string)
    ensures forall i :: 0 <= i < |Scan(s)| && Scan(s)[i].Link? ==> IsImageUrl(Scan(s)[i].url) && IsQuery(Scan(s)[i].query)
    decreases |s|
  {
    if s != [] {
      if MatchAt(s).Some? {
        MatchAtSpec(s);
        ScanLinks(s[MatchEnd(s)..]);
      } else {
        ScanLinks(s[1..]);
      }
    }
  }

  /** `/([?&])v=/.test(query)`: the query already carries a version. */
  predicate HasVersion(query: string)
  {
    Contains(query, "?v=") || Contains(query, "&v=")
  }

  /** The replacement callback for one match. */
  function RewriteLink(url: string, query: string, buildId: string): (r: string)
    ensures StartsWith(r, url + query)
    ensures HasVersion(query) ==> r == url + query
    ensures !HasVersion(query) ==> HasVersion(r[|url|..])
  {
    if query != [] && HasVersion(query) then url + query
    else
      var sep := if query != [] then "&" else "?";
      var r := url + query + sep + "v=" + buildId;
      assert r[..|url + query|] == url + query;
      assert r[|url|..] == query + (sep + "v=") + buildId;
      ContainsMiddle(query, sep + "v=", buildId);
      assert sep + "v=" == (if query != [] then "&v=" else "?v=");
      r
  }

  /** A match without a query gets `?v=<id>`. */
  lemma RewriteBareUrl(url: string, buildId: string)
    ensures RewriteLink(url, "", buildId) == url + "?v=" + buildId
  {
    assert !Contains("", "?v=") && !Contains("", "&v=");
  }

  /** A match whose query has no version gets `&v=<id>` after the query. */
  lemma RewriteQueriedUrl(url: string, query: string, buildId: string)
    requires query != [] && !HasVersion(query)
    ensures RewriteLink(url, query, buildId) == url + query + "&v=" + buildId
  {
  }

  /** The pieces after replacement: plain characters as they were, links through the callback. */
  function Render(ps: seq<Piece>, buildId: string): string
  {
    if ps == [] then [] else RenderPiece(ps[0], buildId) + Render(ps[1..], buildId)
  }

  function RenderPiece(p: Piece, buildId: string): string
  {
    match p
    case Plain(c) => [c]
    case Link(url, query) => RewriteLink(url, query, buildId)
  }

  /** `versionUrls(content, buildId)`. */
  function VersionUrls(content: string, buildId: string): string
  {
    Render(Scan(content), buildId)
  }

  /** Text with no match is returned unchanged. */
  lemma {:induction false} RenderPlain(ps: seq<Piece>, buildId: string)
    requires forall i :: 0 <= i < |ps| ==> ps[i].Plain?
    ensures Render(ps, buildId) == Unscan(ps)
  {
    if ps != [] {
      RenderPlain(ps[1..], buildId);
    }
  }

  /** Every link among the pieces already carries a version. */
  predicate AllVersioned(ps: seq<Piece>)
  {
    forall i :: 0 <= i < |ps| ==> ps[i].Plain? || HasVersion(ps[i].query)
  }

  /** Rendering only ever adds text, and adds none when every link is versioned. */
  lemma {:induction false} RenderExtends(ps: seq<Piece>, buildId: string)
    ensures |Render(ps, buildId)| >= |Unscan(ps)|
    ensures AllVersioned(ps) ==> Render(ps, buildId) == Unscan(ps)
  {
    if ps != [] {
      RenderExtends(ps[1..], buildId);
      if ps[0].Link? {
        var r := RewriteLink(ps[0].url, ps[0].query, buildId);
        assert |r| >= |ps[0].url + ps[0].query|;
      }
    }
  }

  lemma RenderCons(p: Piece, ps: seq<Piece>, buildId: string)
    ensures Render([p] + ps, buildId) == RenderPiece(p, buildId) + Render(ps, buildId)
  {
    assert ([p] + ps)[1..] == ps;
  }

  lemma ScanPlainUnfold(s: string)
    requires s != [] && MatchAt(s).None?
    ensures Scan(s) == [Plain(s[0])] + Scan(s[1..])
  {
  }

  /** A match at the start is replaced and the scan goes on after it. */
  lemma OutLink(s: string, buildId: string)
    requires MatchAt(s).Some?
    ensures VersionUrls(s, buildId)
      == RewriteLink(MatchUrl(s), MatchQuery(s), buildId) + VersionUrls(s[MatchEnd(s)..], buildId)
  {
    ScanLinkUnfold(s);
    RenderCons(Link(MatchUrl(s), MatchQuery(s)), Scan(s[MatchEnd(s)..]), buildId);
  }

  /** Where no match starts, the first character is copied and the scan goes on at the next one. */
  lemma OutPlain(s: string, buildId: string)
    requires s != [] && MatchAt(s).None?
    ensures VersionUrls(s, buildId) == [s[0]] + VersionUrls(s[1..], buildId)
  {
    ScanPlainUnfold(s);
    RenderCons(Plain(s[0]), Scan(s[1..]), buildId);
  }

  /** Text in which `/images/` never occurs is returned unchanged. */
  lemma {:induction false} NoImagesUnchanged(s: string, buildId: string)
    requires !Contains(s, "/images/")
    ensures VersionUrls(s, buildId) == s
    decreases |s|
  {
    if s == [] {
      assert Scan(s) == [];
    } else {
      assert !StartsWith(s, "/images/");
      NoMatchWithoutPrefix(s);
      NoImagesUnchanged(s[1..], buildId);
      OutPlain(s, buildId);
      assert [s[0]] + s[1..] == s;
    }
  }

  /** Text that a query group runs through without stopping. */
  predicate IsQueryText(t: string)
  {
    forall i :: 0 <= i < |t| ==> QueryChar(t[i])
  }

  lemma {:induction false} QueryRunAppend(a: string, b: string)
    requires IsQueryText(a)
    ensures QueryRun(a + b) == |a| + QueryRun(b)
    decreases |a|
  {
    if a != [] {
      assert (a + b)[0] == a[0];
      assert (a + b)[1..] == a[1..] + b;
      QueryRunAppend(a[1..], b);
    } else {
      assert a + b == b;
    }
  }

  lemma {:induction false} PathRunExact(x: string, r: nat)
    requires r <= |x| && forall i :: 0 <= i < r ==> PathChar(x[i])
    requires r < |x| ==> !PathChar(x[r])
    ensures PathRun(x) == r
    decreases r
  {
    if r > 0 {
      PathRunExact(x[1..], r - 1);
    }
  }

  lemma ContainsExtend(a: string, b: string, part: string)
    requires Contains(a, part)
    ensures Contains(a + b, part)
  {
    ContainsAt(a, part);
    ContainsAt(a + b, part);
    var i: nat :| OccursAt(a, part, i);
    assert (a + b)[i..i + |part|] == a[i..i + |part|];
    assert OccursAt(a + b, part, i);
  }

  lemma HasVersionExtend(a: string, b: string)
    requires HasVersion(a)
    ensures HasVersion(a + b)
  {
    if Contains(a, "?v=") {
      ContainsExtend(a, b, "?v=");
    } else {
      ContainsExtend(a, b, "&v=");
    }
  }

  /** Every character of a matched URL is a path character. */
  lemma UrlIsPath(url: string)
    requires IsImageUrl(url)
    ensures forall i :: 0 <= i < |url| ==> PathChar(url[i])
  {
  }

  /** A match starting inside the name part of a failed `/images/` prefix would have given that prefix a name. */
  lemma InnerMatchGivesStem(s: string, j: nat)
    requires ImagesAt(s)
    requires 1 <= j <= 8 + PathRun(s[8..]) && j <= |s|
    requires MatchAt(s[j..]).Some?
    ensures MatchAt(s).Some?
  {
    var t := s[j..];
    var url := MatchUrl(t);
    assert IsImageUrl(url) && |url| + j <= |s| by {
      MatchAtSpec(t);
    }
    forall p | j <= p < j + |url| ensures s[p] == url[p - j] {
      assert url[p - j] == t[p - j];
    }
    StemFromInner(s, j, url);
  }

  lemma StemFromInner(s: string, j: nat, url: string)
    requires ImagesAt(s)
    requires 1 <= j <= 8 + PathRun(s[8..]) && j + |url| <= |s| && IsImageUrl(url)
    requires forall p :: j <= p < j + |url| ==> s[p] == url[p - j]
    ensures MatchAt(s).Some?
  {
    var U := |url|;
    var k := j + U - 13;
    assert k <= PathRun(s[8..]) by {
      UrlIsPath(url);
      forall i | 0 <= i < k ensures PathChar(s[8..][i]) {
        if 8 + i >= j {
          assert s[8..][i] == s[8 + i];
        }
      }
      PathRunAtLeast(s[8..], k);
    }
    assert StemAt(s, k) by {
      ExtAtShift(s, 8 + k, url, U - 5);
    }
    StemGivesMatch(s, k);
  }

  lemma PathRunAtLeast(x: string, k: nat)
    requires k <= |x| && forall i :: 0 <= i < k ==> PathChar(x[i])
    ensures k <= PathRun(x)
  {
  }

  lemma StemGivesMatch(s: string, k: nat)
    requires ImagesAt(s) && 1 <= k <= PathRun(s[8..]) && StemAt(s, k)
    ensures MatchAt(s).Some?
  {
  }

  /** `ExtAt` only looks at the five characters it names. */
  lemma ExtAtShift(a: string, i: nat, b: string, k: nat)
    requires i + 5 <= |a| && k + 5 <= |b|
    requires forall p :: i <= p < i + 5 ==> a[p] == b[p - i + k]
    ensures ExtAt(a, i) == ExtAt(b, k)
  {
    assert a[i] == b[k] && a[i + 1] == b[k + 1] && a[i + 2] == b[k + 2];
    assert a[i + 3] == b[k + 3] && a[i + 4] == b[k + 4];
  }

  /** No match starts at any of the first `n` positions of `x`. */
  predicate NoMatchBefore(x: string, n: nat)
  {
    forall i :: 0 <= i < n && i <= |x| ==> MatchAt(x[i..]).None?
  }

  lemma NoMatchBeforeTail(x: string, n: nat)
    requires x != [] && NoMatchBefore(x, n)
    ensures NoMatchBefore(x[1..], if n > 0 then n - 1 else 0)
  {
    forall i | 0 <= i < (if n > 0 then n - 1 else 0) && i <= |x[1..]| ensures MatchAt(x[1..][i..]).None? {
      assert x[1..][i..] == x[i + 1..];
    }
  }

  /** The first `n` characters of `a` and `b` exist and agree. */
  predicate Agree(a: string, b: string, n: nat)
  {
    n <= |a| && n <= |b| && forall i :: 0 <= i < n ==> a[i] == b[i]
  }

  /** A replaced match starts with the first 14 characters of the input. */
  lemma LinkKeepsPrefix(x: string, buildId: string)
    requires MatchAt(x).Some?
    ensures Agree(VersionUrls(x, buildId), x, 14)
  {
    OutLink(x, buildId);
    var url := MatchUrl(x);
    var query := MatchQuery(x);
    var r := RewriteLink(url, query, buildId);
    assert r[..|url + query|] == url + query;
    forall i | 0 <= i < 14 ensures r[i] == x[i] {
      assert r[i] == r[..|url + query|][i];
      assert x[i] == x[..MatchAt(x).value.urlLen][i];
    }
  }

  /**
   * Where no match starts before position `n`, the output agrees with the
   * input on its first `n + 14` characters (a match is at least 14 long).
   */
  lemma {:induction false} OutKeepsPrefix(x: string, n: nat, buildId: string)
    requires NoMatchBefore(x, n)
    ensures |x| < n + 14 ==> VersionUrls(x, buildId) == x
    ensures |x| >= n + 14 ==> Agree(VersionUrls(x, buildId), x, n + 14)
    decreases |x|
  {
    if x == [] {
      assert Scan(x) == [];
    } else if MatchAt(x).Some? {
      assert n == 0 by {
        assert x[0..] == x;
      }
      LinkKeepsPrefix(x, buildId);
    } else {
      NoMatchBeforeTail(x, n);
      OutKeepsPrefix(x[1..], if n > 0 then n - 1 else 0, buildId);
      OutPlain(x, buildId);
      PrefixCons(x, VersionUrls(x[1..], buildId), n);
    }
  }

  /** The sequence step of `OutKeepsPrefix` for one copied character. */
  lemma PrefixCons(x: string, rest: string, n: nat)
    requires x != []
    requires |x[1..]| < (if n > 0 then n - 1 else 0) + 14 ==> rest == x[1..]
    requires |x[1..]| >= (if n > 0 then n - 1 else 0) + 14 ==> Agree(rest, x[1..], (if n > 0 then n - 1 else 0) + 14)
    ensures |x| < n + 14 ==> [x[0]] + rest == x
    ensures |x| >= n + 14 ==> Agree([x[0]] + rest, x, n + 14)
  {
    assert [x[0]] + x[1..] == x;
    if |x| >= n + 14 {
      forall i | 1 <= i < n + 14 ensures ([x[0]] + rest)[i] == x[i] {
        assert ([x[0]] + rest)[i] == rest[i - 1];
        if |x[1..]| < (if n > 0 then n - 1 else 0) + 14 {
          assert rest[i - 1] == x[1..][i - 1];
        }
      }
    }
  }

  /** Where a failed `/images/` prefix stands, no match starts anywhere in its name part. */
  lemma NoMatchNear(s: string)
    requires ImagesAt(s) && MatchAt(s).None?
    ensures NoMatchBefore(s[1..], 8 + PathRun(s[8..]))
  {
    forall i | 0 <= i < 8 + PathRun(s[8..]) && i <= |s[1..]| ensures MatchAt(s[1..][i..]).None? {
      assert s[1..][i..] == s[i + 1..];
      if MatchAt(s[i + 1..]).Some? {
        InnerMatchGivesStem(s, i + 1);
        assert false;
      }
    }
  }

  /** A text agreeing with a failed `/images/` prefix far enough fails too. */
  lemma SamePrefixNoMatch(s: string, t: string)
    requires ImagesAt(s) && MatchAt(s).None?
    requires Agree(t, s, 8 + PathRun(s[8..]) + 14)
    ensures MatchAt(t).None?
  {
    var r := PathRun(s[8..]);
    forall i | 0 <= i < r ensures PathChar(t[8..][i]) {
      assert t[8..][i] == s[8..][i];
    }
    assert t[8..][r] == s[8..][r];
    PathRunExact(t[8..], r);
    forall k | 0 < k <= r ensures StemAt(t, k) == StemAt(s, k) {
      forall p | 8 + k <= p < 13 + k ensures t[p] == s[p] {
      }
    }
  }

  /** Where the input has no match, neither has the output at that position. */
  lemma NoneStaysNone(s: string, buildId: string)
    requires s != [] && MatchAt(s).None?
    ensures MatchAt([s[0]] + VersionUrls(s[1..], buildId)).None?
  {
    var rest := VersionUrls(s[1..], buildId);
    var t := [s[0]] + rest;
    var n := if ImagesAt(s) then 8 + PathRun(s[8..]) else 0;
    if ImagesAt(s) {
      NoMatchNear(s);
    }
    OutKeepsPrefix(s[1..], n, buildId);
    NoneStaysNoneStep(s, rest, n);
  }

  lemma NoneStaysNoneStep(s: string, rest: string, n: nat)
    requires s != [] && MatchAt(s).None?
    requires n == if ImagesAt(s) then 8 + PathRun(s[8..]) else 0
    requires |s[1..]| < n + 14 ==> rest == s[1..]
    requires |s[1..]| >= n + 14 ==> Agree(rest, s[1..], n + 14)
    ensures MatchAt([s[0]] + rest).None?
  {
    var t := [s[0]] + rest;
    assert [s[0]] + s[1..] == s;
    if |s[1..]| >= n + 14 {
      forall i | 1 <= i < n + 15 ensures t[i] == s[i] {
        assert t[i] == rest[i - 1];
      }
      if ImagesAt(s) {
        SamePrefixNoMatch(s, t);
      } else {
        assert !ImagesAt(t);
      }
    }
  }

  lemma PathCharIsQueryChar(c: char)
    requires PathChar(c)
    ensures QueryChar(c)
  {
  }

  /** The replacement of a match is query text, with `?` right after the URL and a version after that. */
  lemma RewriteShape(url: string, query: string, buildId: string)
    requires forall i :: 0 <= i < |url| ==> PathChar(url[i])
    requires IsQuery(query) && IsQueryText(buildId)
    ensures var r := RewriteLink(url, query, buildId);
      IsQueryText(r) && |r| > |url| && r[|url|] == '?' && Agree(r, url, |url|) && HasVersion(r[|url|..])
  {
    var r := RewriteLink(url, query, buildId);
    assert r[..|url + query|] == url + query;
    forall i | 0 <= i < |url| ensures r[i] == url[i] {
      assert r[i] == r[..|url + query|][i];
    }
    assert HasVersion(r[|url|..]) by {
      if HasVersion(query) {
        assert r[|url|..] == query;
      }
    }
    var e := |url| + |query|;
    if query != [] {
      assert r[|url|] == (url + query)[|url|];
    }
    forall i | 0 <= i < |r| ensures QueryChar(r[i]) {
      if i < |url| {
        PathCharIsQueryChar(url[i]);
      } else if i < e {
        assert r[i] == (url + query)[i];
        assert r[i] == query[i - |url|];
      } else if i >= e + 3 {
        assert r[i] == buildId[i - e - 3];
      }
    }
  }

  /** An image URL followed by `?` is matched with exactly that URL and a query running as far as it can. */
  lemma UrlThenQuestion(t: string, url: string)
    requires IsImageUrl(url) && Agree(t, url, |url|) && |t| > |url| && t[|url|] == '?'
    ensures MatchAt(t).Some? && MatchAt(t).value.urlLen == |url|
    ensures MatchAt(t).value.queryLen == 1 + QueryRun(t[|url| + 1..])
  {
    var u := |url|;
    UrlIsPath(url);
    forall i | 0 <= i < u - 8 ensures PathChar(t[8..][i]) {
      assert t[8..][i] == url[8 + i];
    }
    assert t[8..][u - 8] == '?';
    PathRunExact(t[8..], u - 8);
    assert StemAt(t, u - 13);
  }

  /** What a replaced URL looks like to a second pass: the same URL, and a query that still carries the version. */
  lemma LinkStaysLink(s: string, buildId: string)
    requires MatchAt(s).Some? && IsQueryText(buildId)
    ensures var R := RewriteLink(MatchUrl(s), MatchQuery(s), buildId);
      var rest := VersionUrls(s[MatchEnd(s)..], buildId);
      && IsQueryText(R)
      && MatchAt(R + rest).Some? && MatchEnd(R + rest) == |R| + QueryRun(rest)
      && HasVersion(MatchQuery(R + rest))
  {
    var url := MatchUrl(s);
    MatchAtSpec(s);
    UrlIsPath(url);
    var R := RewriteLink(url, MatchQuery(s), buildId);
    RewriteShape(url, MatchQuery(s), buildId);
    LinkInOutput(url, R, VersionUrls(s[MatchEnd(s)..], buildId));
  }

  lemma LinkInOutput(url: string, R: string, rest: string)
    requires IsImageUrl(url) && IsQueryText(R) && |R| > |url| && R[|url|] == '?' && Agree(R, url, |url|)
    requires HasVersion(R[|url|..])
    ensures MatchAt(R + rest).Some? && MatchEnd(R + rest) == |R| + QueryRun(rest)
    ensures HasVersion(MatchQuery(R + rest))
  {
    LinkGroupsInOutput(url, R, rest);
    var u := |url|;
    var qr := QueryRun(rest);
    assert MatchQuery(R + rest) == (R + rest)[u..|R| + qr];
    SliceOfAppend(R, rest, u, qr);
    HasVersionExtend(R[u..], rest[..qr]);
  }

  lemma SliceOfAppend(a: string, b: string, i: nat, j: nat)
    requires i <= |a| && j <= |b|
    ensures (a + b)[i..|a| + j] == a[i..] + b[..j]
  {
  }

  lemma LinkGroupsInOutput(url: string, R: string, rest: string)
    requires IsImageUrl(url) && IsQueryText(R) && |R| > |url| && R[|url|] == '?' && Agree(R, url, |url|)
    ensures MatchAt(R + rest).Some? && MatchAt(R + rest).value.urlLen == |url|
    ensures MatchAt(R + rest).value.queryLen == |R| - |url| + QueryRun(rest)
  {
    var u := |url|;
    var t := R + rest;
    assert MatchAt(t).Some? && MatchAt(t).value.urlLen == u && MatchAt(t).value.queryLen == 1 + QueryRun(t[u + 1..]) by {
      forall i | 0 <= i <= u ensures t[i] == R[i] {
      }
      UrlThenQuestion(t, url);
    }
    assert QueryRun(t[u + 1..]) == |R| - u - 1 + QueryRun(rest) by {
      assert t[u + 1..] == R[u + 1..] + rest;
      QueryRunAppend(R[u + 1..], rest);
    }
  }

  lemma AllVersionedCons(p: Piece, ps: seq<Piece>)
    requires p.Plain? || HasVersion(p.query)
    requires AllVersioned(ps)
    ensures AllVersioned([p] + ps)
  {
  }

  /** The second-pass facts about the output, as one predicate. */
  predicate Stable(t: string)
  {
    AllVersioned(Scan(t)) && AllVersioned(Scan(t[QueryRun(t)..]))
  }

  /**
   * Every link a second pass finds in the output already carries a version;
   * so does every link found after the query-character run it starts with.
   */
  lemma {:induction false} OutputIsVersioned(s: string, buildId: string)
    requires IsQueryText(buildId)
    ensures Stable(VersionUrls(s, buildId))
    decreases |s|
  {
    if s == [] {
      assert Scan(s) == [];
      assert VersionUrls(s, buildId) == [];
      assert Scan([]) == [];
    } else if MatchAt(s).Some? {
      OutputIsVersioned(s[MatchEnd(s)..], buildId);
      StableAfterLink(s, buildId);
    } else {
      OutputIsVersioned(s[1..], buildId);
      StableAfterPlain(s, buildId);
    }
  }

  lemma StableAfterLink(s: string, buildId: string)
    requires MatchAt(s).Some? && IsQueryText(buildId)
    requires Stable(VersionUrls(s[MatchEnd(s)..], buildId))
    ensures Stable(VersionUrls(s, buildId))
  {
    OutLink(s, buildId);
    LinkStaysLink(s, buildId);
    StableLinkStep(RewriteLink(MatchUrl(s), MatchQuery(s), buildId), VersionUrls(s[MatchEnd(s)..], buildId));
  }

  lemma StableLinkStep(R: string, rest: string)
    requires Stable(rest) && IsQueryText(R)
    requires MatchAt(R + rest).Some? && MatchEnd(R + rest) == |R| + QueryRun(rest)
    requires HasVersion(MatchQuery(R + rest))
    ensures Stable(R + rest)
  {
    var t := R + rest;
    var qr := QueryRun(rest);
    ScanLinkUnfold(t);
    assert t[MatchEnd(t)..] == rest[qr..];
    AllVersionedCons(Link(MatchUrl(t), MatchQuery(t)), Scan(rest[qr..]));
    QueryRunAppend(R, rest);
    assert t[QueryRun(t)..] == rest[qr..];
  }

  lemma StableAfterPlain(s: string, buildId: string)
    requires s != [] && MatchAt(s).None? && IsQueryText(buildId)
    requires Stable(VersionUrls(s[1..], buildId))
    ensures Stable(VersionUrls(s, buildId))
  {
    OutPlain(s, buildId);
    NoneStaysNone(s, buildId);
    StablePlainStep(s[0], VersionUrls(s[1..], buildId));
  }

  lemma StablePlainStep(c: char, rest: string)
    requires Stable(rest) && MatchAt([c] + rest).None?
    ensures Stable([c] + rest)
  {
    var t := [c] + rest;
    ScanPlainUnfold(t);
    assert t[1..] == rest;
    AllVersionedCons(Plain(c), Scan(rest));
    if QueryChar(c) {
      assert QueryRun(t) == 1 + QueryRun(rest);
      assert t[QueryRun(t)..] == rest[QueryRun(rest)..];
    } else {
      assert t[0..] == t;
    }
  }

  /**
   * Running the rewrite twice with the same build id changes nothing,
   * provided the id itself cannot end a query (a short commit hash or a
   * millisecond timestamp cannot).
   */
  lemma VersionUrlsIdempotent(s: string, buildId: string)
    requires IsQueryText(buildId)
    ensures VersionUrls(VersionUrls(s, buildId), buildId) == VersionUrls(s, buildId)
  {
    var t := VersionUrls(s, buildId);
    OutputIsVersioned(s, buildId);
    RenderExtends(Scan(t), buildId);
    ScanRoundTrip(t);
  }

  /** A query without the letter `v` carries no version. */
  lemma {:induction false} NoVersionWithoutV(query: string)
    requires forall i :: 0 <= i < |query| ==> query[i] != 'v'
    ensures !HasVersion(query)
  {
    ContainsAt(query, "?v=");
    ContainsAt(query, "&v=");
    forall i: nat ensures !OccursAt(query, "?v=", i) && !OccursAt(query, "&v=", i) {
      if i + 3 <= |query| {
        assert query[i..i + 3][1] == query[i + 1];
      }
    }
  }

  /** A concrete run: a bare URL, a URL with a query, and a versioned URL. */
  lemma VersionUrlsExample()
    ensures RewriteLink("/images/hero.avif", "", "abc") == "/images/hero.avif?v=abc"
    ensures RewriteLink("/images/hero.webp", "?w=2", "abc") == "/images/hero.webp?w=2&v=abc"
    ensures RewriteLink("/images/hero.webp", "?v=1", "abc") == "/images/hero.webp?v=1"
  {
    RewriteBareUrl("/images/hero.avif", "abc");
    NoVersionWithoutV("?w=2");
    RewriteQueriedUrl("/images/hero.webp", "?w=2", "abc");
    assert HasVersion("?v=1") by {
      assert StartsWith("?v=1", "?v=");
    }
  }
}
