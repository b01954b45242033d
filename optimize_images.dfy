/**
 * The pure decisions of the image optimiser script: which source files are
 * converted, which also get a WebP copy, which responsive widths are
 * produced, when an output counts as stale, which directories the walk
 * skips, and the names of the files written.
 */
module OptimizeImages {
  import opened Js

  /** `filePath.replace(/\\/g, '/')`. */
  function NormalizeSlashes(p: string): (r: string)
    ensures |r| == |p|
    ensures forall i :: 0 <= i < |p| ==> r[i] == (if p[i] == '\\' then '/' else p[i])
  {
    if p == [] then [] else [if p[0] == '\\' then '/' else p[0]] + NormalizeSlashes(p[1..])
  }

  /** After normalisation no backslash is left, and normalising again changes nothing. */
  lemma NormalizeSlashesSpec(p: string)
    ensures '\\' !in NormalizeSlashes(p)
    ensures NormalizeSlashes(NormalizeSlashes(p)) == NormalizeSlashes(p)
  {
    var r := NormalizeSlashes(p);
    assert forall i :: 0 <= i < |r| ==> r[i] != '\\';
  }

  lemma NormalizeSlashesAppend(a: string, b: string)
    ensures NormalizeSlashes(a + b) == NormalizeSlashes(a) + NormalizeSlashes(b)
  {
    var l, r := NormalizeSlashes(a + b), NormalizeSlashes(a) + NormalizeSlashes(b);
    forall i | 0 <= i < |a + b|
      ensures l[i] == r[i]
    {
      if i < |a| {
        assert (a + b)[i] == a[i];
      } else {
        assert (a + b)[i] == b[i - |a|];
      }
    }
  }

  /** The last index below `n` where `s` holds `c`, searching backwards. */
  function LastIndexBefore(s: string, c: char, n: nat): (r: Option<nat>)
    requires n <= |s|
    ensures r.Some? ==> r.value < n && s[r.value] == c && forall j | r.value < j < n :: s[j] != c
    ensures r.None? ==> forall j | 0 <= j < n :: s[j] != c
  {
    if n == 0 then None
    else if s[n - 1] == c then Some(n - 1)
    else LastIndexBefore(s, c, n - 1)
  }

  /** `s.lastIndexOf(c)`, with `None` for -1. */
  function LastIndexOf(s: string, c: char): Option<nat>
  {
    LastIndexBefore(s, c, |s|)
  }

  lemma LastIndexAt(s: string, c: char, k: nat)
    requires k < |s| && s[k] == c && forall j | k < j < |s| :: s[j] != c
    ensures LastIndexOf(s, c) == Some(k)
  {
  }

  /** Where the final path component starts: just after the last `/`, or at 0. */
  function BaseStart(path: string): (b: nat)
    ensures b <= |path|
    ensures forall j | b <= j < |path| :: path[j] != '/'
    ensures b > 0 ==> path[b - 1] == '/'
  {
    match LastIndexOf(path, '/')
    case None => 0
    case Some(i) => i + 1
  }

  lemma BaseStartAt(path: string, k: nat)
    requires 0 < k <= |path| && path[k - 1] == '/' && forall j | k <= j < |path| :: path[j] != '/'
    ensures BaseStart(path) == k
  {
  }

  /** The base names that get a WebP copy when they sit directly in `/public/images/`. */
  const WebpNames: set<string> := {
    "hero", "logo", "moose_in_suit", "peaking_moose",
    "cleaning_background", "cleaning_background_dark",
    "map", "map_dark", "reviews", "reviews_dark",
    "bucket", "box", "broom", "house", "building"
  }

  /** The extensions the allow-list pattern accepts: `png` and `jpe?g`. */
  const WebpExtensions: set<string> := {"png", "jpg", "jpeg"}

  /** No listed name contains a slash. */
  lemma WebpNamePlain(n: string)
    requires n in WebpNames
    ensures forall j | 0 <= j < |n| :: n[j] != '/'
  {
  }

  /** No accepted extension contains a dot or a slash. */
  lemma WebpExtensionPlain(e: string)
    requires e in WebpExtensions
    ensures forall j | 0 <= j < |e| :: e[j] != '.' && e[j] != '/'
  {
  }

  /** The alternation of the allow-list pattern: a listed name, a dot, an accepted extension. */
  predicate IsWebpFileName(f: string)
  {
    exists n, e | n in WebpNames && e in WebpExtensions :: f == n + "." + e
  }

  /** The same test, read off the last dot of the file name. */
  predicate WebpFile(f: string)
  {
    match LastIndexOf(f, '.')
    case None => false
    case Some(d) => f[..d] in WebpNames && f[d + 1..] in WebpExtensions
  }

  /** Reading the name off the last dot agrees with the alternation of the pattern. */
  lemma WebpFileSpec(f: string)
    ensures WebpFile(f) <==> IsWebpFileName(f)
  {
    if WebpFile(f) {
      var d := LastIndexOf(f, '.').value;
      assert f == f[..d] + "." + f[d + 1..];
    }
    if IsWebpFileName(f) {
      var n, e :| n in WebpNames && e in WebpExtensions && f == n + "." + e;
      WebpExtensionPlain(e);
      SplitAtLastDot(n, e);
    }
  }

  /** The last dot of `n.e` is the one between them when `e` has none. */
  lemma SplitAtLastDot(n: string, e: string)
    requires forall j | 0 <= j < |e| :: e[j] != '.'
    ensures var f := n + "." + e;
      LastIndexOf(f, '.') == Some(|n|) && f[..|n|] == n && f[|n| + 1..] == e
  {
    var f := n + "." + e;
    assert f[|n|] == '.';
    assert forall j | |n| < j < |f| :: f[j] == e[j - |n| - 1];
    LastIndexAt(f, '.', |n|);
    assert f[..|n|] == n;
    assert f[|n| + 1..] == e;
  }

  /**
   * The case-insensitive allow-list pattern, anchored only at the end: it
   * matches at `k` when the lower-cased path has `/public/images/` just before
   * `k` and a listed file name from `k` to the end. The pattern has no `u`
   * flag, so case folding touches ASCII letters only.
   */
  predicate WebpPatternAt(q: string, k: nat)
  {
    15 <= k <= |q| && q[k - 15..k] == "/public/images/" && IsWebpFileName(q[k..])
  }

  /** The allow-list test: the final component is a listed file in `/public/images/`. */
  predicate WebpListed(p: string)
  {
    WebpListedLower(Lower(p))
  }

  predicate WebpListedLower(q: string)
  {
    var b := BaseStart(q);
    b >= 15 && q[b - 15..b] == "/public/images/" && WebpFile(q[b..])
  }

  /** `WebpListed` holds exactly when the regular expression finds a match. */
  lemma WebpListedMatchesPattern(p: string)
    ensures WebpListed(p) <==> exists k: nat :: WebpPatternAt(Lower(p), k)
  {
    var q := Lower(p);
    var b := BaseStart(q);
    if WebpListed(p) {
      WebpFileSpec(q[b..]);
      assert WebpPatternAt(q, b);
    }
    if exists k: nat :: WebpPatternAt(q, k) {
      var k: nat :| WebpPatternAt(q, k);
      PatternAtBase(q, k);
      WebpFileSpec(q[k..]);
    }
  }

  /** A match of the pattern can only start right after the last `/`. */
  lemma PatternAtBase(q: string, k: nat)
    requires WebpPatternAt(q, k)
    ensures BaseStart(q) == k
  {
    var n, e :| n in WebpNames && e in WebpExtensions && q[k..] == n + "." + e;
    WebpNamePlain(n);
    WebpExtensionPlain(e);
    assert q[k - 1] == q[k - 15..k][14];
    forall j | k <= j < |q|
      ensures q[j] != '/'
    {
      assert q[j] == (n + "." + e)[j - k];
    }
  }

  /** `SHOULD_ALSO_WEBP`. */
  predicate ShouldAlsoWebp(filePath: string)
  {
    var p := NormalizeSlashes(filePath);
    InGallery(p) || WebpListed(p)
  }

  predicate InGallery(p: string)
  {
    Contains(p, "/public/images/gallery/")
  }

  /**
   * Any file below a `public/images/gallery/` folder gets a WebP copy,
   * whichever mix of `/` and `\\` separates the folder names.
   */
  lemma GalleryAlwaysWebp(dir: string, gallery: string, rest: string)
    requires NormalizeSlashes(gallery) == "/public/images/gallery/"
    ensures ShouldAlsoWebp(dir + gallery + rest)
  {
    GalleryNormalized(dir, gallery, rest);
  }

  lemma GalleryNormalized(dir: string, gallery: string, rest: string)
    requires NormalizeSlashes(gallery) == "/public/images/gallery/"
    ensures InGallery(NormalizeSlashes(dir + gallery + rest))
  {
    NormalizeSlashesAppend(dir + gallery, rest);
    NormalizeSlashesAppend(dir, gallery);
    ContainsMiddle(NormalizeSlashes(dir), NormalizeSlashes(gallery), NormalizeSlashes(rest));
  }

  /** The decision does not depend on which separator the path uses. */
  lemma ShouldAlsoWebpSeparators(filePath: string)
    ensures ShouldAlsoWebp(NormalizeSlashes(filePath)) == ShouldAlsoWebp(filePath)
  {
    NormalizeSlashesSpec(filePath);
  }

  lemma LowerIdempotent(s: string)
    ensures Lower(Lower(s)) == Lower(s)
  {
    assert forall i :: 0 <= i < |s| ==> Lower(Lower(s))[i] == Lower(s)[i];
  }

  /** The allow-list ignores ASCII letter case. */
  lemma WebpListedIgnoresCase(p: string)
    ensures WebpListed(Lower(p)) == WebpListed(p)
  {
    LowerIdempotent(p);
  }

  /** `VALID_SRC_EXT`: exactly these spellings are converted. */
  const ValidSrcExt: set<string> := {".png", ".jpg", ".jpeg", ".JPG", ".JPEG"}

  /** Membership is exact: upper-case PNG and mixed-case spellings are not converted. */
  lemma ValidSrcExtExact()
    ensures ".png" in ValidSrcExt && ".JPEG" in ValidSrcExt
    ensures ".PNG" !in ValidSrcExt && ".Jpg" !in ValidSrcExt && ".avif" !in ValidSrcExt && "" !in ValidSrcExt
  {
  }

  /**
   * `path.extname` for a path without trailing separators: the text from the
   * last `.` of the final component, or empty when that component has no dot,
   * starts with its only dot, or is `..`.
   */
  function ExtName(path: string): (r: string)
    ensures |r| <= |path| && r == path[|path| - |r|..]
    ensures r != [] ==> r[0] == '.'
    ensures forall j | 0 < j < |r| :: r[j] != '.' && r[j] != '/'
  {
    var b := BaseStart(path);
    match LastIndexOf(path, '.')
    case None => ""
    case Some(d) =>
      if d <= b || (d == b + 1 && |path| == b + 2 && path[b] == '.') then ""
      else path[d..]
  }

  /**
   * The extension is non-empty exactly when the final component has a dot
   * after its first character and is not `..`.
   */
  lemma ExtNameNonEmpty(path: string)
    ensures ExtName(path) != [] <==>
      (exists j :: BaseStart(path) < j < |path| && path[j] == '.') && path[BaseStart(path)..] != ".."
  {
    var b := BaseStart(path);
    match LastIndexOf(path, '.')
    case None =>
    case Some(d) =>
      if d > b {
        assert BaseStart(path) < d < |path| && path[d] == '.';
        if path[b..] == ".." {
          assert path[b + 1] == path[b..][1];
        }
        if d == b + 1 && |path| == b + 2 && path[b] == '.' {
          assert path[b..] == [path[b], path[b + 1]];
        }
      }
  }

  lemma ExtNameExamples()
    ensures ExtName("a/x.PNG") == ".PNG"
    ensures ExtName("a.b/x") == ""
    ensures ExtName("a/.env") == ""
  {
    BaseStartAt("a/x.PNG", 2);
    LastIndexAt("a/x.PNG", '.', 3);
    BaseStartAt("a.b/x", 4);
    LastIndexAt("a.b/x", '.', 1);
    BaseStartAt("a/.env", 2);
    LastIndexAt("a/.env", '.', 2);
  }

  /** The output names `convertOne` derives from a source path. */
  datatype Outputs = Outputs(base: string, avif: string, webp: string)

  /**
   * The first half of `convertOne`: `None` when the extension is not one of the
   * accepted spellings (the function returns early), otherwise the path without
   * its extension and the two full-size output names.
   */
  function OutputNames(srcPath: string): (r: Option<Outputs>)
    ensures r.Some? <==> ExtName(srcPath) in ValidSrcExt
    ensures r.Some? ==> r.value.base + ExtName(srcPath) == srcPath
    ensures r.Some? ==> r.value.avif == r.value.base + ".avif" && r.value.webp == r.value.base + ".webp"
  {
    var ext := ExtName(srcPath);
    if ext !in ValidSrcExt then None
    else
      var base := srcPath[..|srcPath| - |ext|];
      assert base + ext == srcPath;
      Some(Outputs(base, base + ".avif", base + ".webp"))
  }

  /**
   * A file `dir/name.ext` whose extension is not one of the accepted
   * spellings is skipped; the test is case-sensitive, so `x.PNG` and
   * `x.Jpg` are among them.
   */
  lemma UnacceptedFileSkipped(dir: string, name: string, ext: string)
    requires PlainExtension(ext) && ext !in ValidSrcExt && PlainName(name)
    ensures OutputNames(dir + "/" + name + ext).None?
  {
    ExtNameOfFile(dir, name, ext);
  }

  /** An accepted extension is a dot followed by letters only. */
  lemma ValidSrcExtPlain(ext: string)
    requires ext in ValidSrcExt
    ensures PlainExtension(ext)
  {
  }

  /** A dot followed by at least one character, none of them a dot or a separator. */
  predicate PlainExtension(ext: string)
  {
    |ext| >= 2 && ext[0] == '.' && forall j | 0 < j < |ext| :: ext[j] != '.' && ext[j] != '/'
  }

  /** A non-empty file name without dots or separators. */
  predicate PlainName(name: string)
  {
    |name| > 0 && forall j | 0 <= j < |name| :: name[j] != '.' && name[j] != '/'
  }

  /** The extension of `dir/name.ext` is `.ext`, and what precedes it is `dir/name`. */
  lemma ExtNameOfFile(dir: string, name: string, ext: string)
    requires PlainExtension(ext) && PlainName(name)
    ensures var path := dir + "/" + name + ext;
      ExtName(path) == ext && path[..|path| - |ext|] == dir + "/" + name
  {
    var path := dir + "/" + name + ext;
    var k := |dir| + 1;
    var d := k + |name|;
    assert path[k - 1] == '/';
    forall j | k <= j < |path| ensures path[j] != '/' {
      if j < d { assert path[j] == name[j - k]; } else { assert path[j] == ext[j - d]; }
    }
    BaseStartAt(path, k);
    assert path[d] == ext[0];
    forall j | d < j < |path| ensures path[j] != '.' {
      assert path[j] == ext[j - d];
    }
    LastIndexAt(path, '.', d);
    assert path[d..] == ext;
    assert path[..|path| - |ext|] == dir + "/" + name;
  }

  /**
   * A file `dir/name.ext` with a dot-free name and an accepted extension is
   * converted, with outputs next to it under the same name.
   */
  lemma AcceptedFileConverted(dir: string, name: string, ext: string)
    requires ext in ValidSrcExt && PlainName(name)
    ensures var path := dir + "/" + name + ext;
      ExtName(path) == ext &&
      OutputNames(path) == Some(Outputs(dir + "/" + name, dir + "/" + name + ".avif", dir + "/" + name + ".webp"))
  {
    ValidSrcExtPlain(ext);
    ExtNameOfFile(dir, name, ext);
  }

  lemma Affixes(a: string, b: string)
    ensures StartsWith(a + b, a) && EndsWith(a + b, b)
  {
    assert (a + b)[..|a|] == a;
    assert (a + b)[|a + b| - |b|..] == b;
  }

  /** The name of one responsive variant: `${base}-w${w}.avif` or `.webp`. */
  function VariantName(base: string, w: nat, format: string): (r: string)
    ensures StartsWith(r, base + "-w") && EndsWith(r, "." + format)
  {
    var r := base + "-w" + (NatToString(w) + "." + format);
    Affixes(base + "-w", NatToString(w) + "." + format);
    Affixes(base + "-w" + NatToString(w), "." + format);
    assert r == base + "-w" + NatToString(w) + "." + format;
    r
  }

  /** `targetWidths`. */
  const TargetWidths: seq<nat> := [40, 64, 80, 96, 128, 160, 256, 360, 512, 720, 768, 1024, 1536, 1920]

  predicate Ascending(ws: seq<nat>)
  {
    forall i, j :: 0 <= i < j < |ws| ==> ws[i] < ws[j]
  }

  /** The targets are listed from smallest to largest, up to 1920. */
  lemma TargetWidthsAscending()
    ensures Ascending(TargetWidths) && TargetWidths[13] == 1920
  {
  }

  /** `ws.filter((w) => w < width)`. */
  function Below(ws: seq<nat>, width: nat): (r: seq<nat>)
    ensures |r| <= |ws|
    ensures forall w :: w in r <==> w in ws && w < width
  {
    if ws == [] then []
    else (if ws[0] < width then [ws[0]] else []) + Below(ws[1..], width)
  }

  /** A filter keeps the order: an ascending list stays ascending. */
  lemma {:induction false} BelowAscending(ws: seq<nat>, width: nat)
    requires Ascending(ws)
    ensures Ascending(Below(ws, width))
  {
    if ws != [] {
      var tail := ws[1..];
      assert Ascending(tail);
      BelowAscending(tail, width);
      var r := Below(tail, width);
      forall w | w in r
        ensures ws[0] < w
      {
        var j :| 0 <= j < |tail| && tail[j] == w;
        assert ws[j + 1] == w;
      }
      if ws[0] < width {
        var out := [ws[0]] + r;
        forall i, j | 0 <= i < j < |out|
          ensures out[i] < out[j]
        {
          assert out[j] == r[j - 1] && r[j - 1] in r;
          if i > 0 {
            assert out[i] == r[i - 1];
          }
        }
      }
    }
  }

  /** `arr.filter((w, i) => i % 2 === 0)`. */
  function EvenIndexed(ws: seq<nat>): (r: seq<nat>)
    ensures |r| == (|ws| + 1) / 2
    ensures forall i :: 0 <= i < |r| ==> r[i] == ws[2 * i]
  {
    if |ws| <= 1 then ws else [ws[0]] + EvenIndexed(ws[2..])
  }

  /** The width filter chain of `convertOne`; a width of 0 stands for an unknown width. */
  function AllowedWidths(width: nat): seq<nat>
  {
    var below := if width > 0 then Below(TargetWidths, width) else [];
    if |below| > 8 then EvenIndexed(below) else below
  }

  /**
   * The variants are target widths strictly below the source width, in
   * ascending order, never more than eight, and there are none when the
   * width is unknown.
   */
  lemma AllowedWidthsSpec(width: nat)
    ensures forall w :: w in AllowedWidths(width) ==> w in TargetWidths && w < width
    ensures Ascending(AllowedWidths(width))
    ensures |AllowedWidths(width)| <= 8
    ensures width == 0 ==> AllowedWidths(width) == []
  {
    var below := if width > 0 then Below(TargetWidths, width) else [];
    assert Ascending(below) by {
      BelowAscending(TargetWidths, width);
    }
    assert |below| <= 14;
    if |below| > 8 {
      EvenIndexedKeeps(below);
    }
  }

  /** Keeping every other element keeps the order and adds nothing new. */
  lemma EvenIndexedKeeps(ws: seq<nat>)
    requires Ascending(ws)
    ensures Ascending(EvenIndexed(ws))
    ensures forall w | w in EvenIndexed(ws) :: w in ws
  {
    var r := EvenIndexed(ws);
    forall i, j | 0 <= i < j < |r|
      ensures r[i] < r[j]
    {
      assert r[i] == ws[2 * i] && r[j] == ws[2 * j];
    }
    forall w | w in r
      ensures w in ws
    {
      var i :| 0 <= i < |r| && r[i] == w;
      assert ws[2 * i] == w;
    }
  }

  /** In an ascending list, the elements below a bound form a prefix. */
  lemma {:induction false} BelowPrefix(ws: seq<nat>, width: nat, k: nat)
    requires k <= |ws|
    requires forall i | 0 <= i < k :: ws[i] < width
    requires forall i | k <= i < |ws| :: ws[i] >= width
    ensures Below(ws, width) == ws[..k]
  {
    if ws != [] {
      var k' := if k > 0 then k - 1 else 0;
      BelowPrefix(ws[1..], width, k');
      if k > 0 {
        assert ws[..k] == [ws[0]] + ws[1..][..k'];
      }
    }
  }

  /** With at most eight candidates, every target width below the source width is produced. */
  lemma AllowedWidthsComplete(width: nat, w: nat)
    requires width > 0 && |Below(TargetWidths, width)| <= 8
    requires w in TargetWidths && w < width
    ensures w in AllowedWidths(width)
  {
  }

  /** A 100-pixel source gets the four smallest variants. */
  lemma AllowedWidthsSmallExample()
    ensures AllowedWidths(100) == [40, 64, 80, 96]
  {
    BelowPrefix(TargetWidths, 100, 4);
    assert TargetWidths[..4] == [40, 64, 80, 96];
  }

  /** A source wider than every target keeps every other one of the fourteen, from the smallest. */
  lemma AllowedWidthsLargeExample()
    ensures var r := AllowedWidths(4000);
      |r| == 7 && r[0] == 40 && r[1] == 80 && r[2] == 128 && r[3] == 256
      && r[4] == 512 && r[5] == 768 && r[6] == 1536
  {
    BelowAllTargets(4000);
    EvenTargets();
  }

  /** Every target width is a candidate for a source wider than 1920 pixels. */
  lemma BelowAllTargets(width: nat)
    requires width > 1920
    ensures Below(TargetWidths, width) == TargetWidths
  {
    TargetWidthsAscending();
    BelowPrefix(TargetWidths, width, 14);
  }

  lemma EvenTargets()
    ensures var r := EvenIndexed(TargetWidths);
      |r| == 7 && r[0] == 40 && r[1] == 80 && r[2] == 128 && r[3] == 256
      && r[4] == 512 && r[5] == 768 && r[6] == 1536
  {
  }

  /**
   * `isNewer(source, target)`: modification times in milliseconds, `None`
   * when the `stat` of that file fails. A failed stat means "build it".
   */
  predicate IsNewer(source: Option<int>, target: Option<int>)
  {
    match (source, target)
    case (Some(s), Some(t)) => s > t + 1000
    case _ => true
  }

  /**
   * Staleness is monotone: a source that is newer still, or an output that is
   * older still, keeps an output stale.
   */
  lemma IsNewerMonotone(s: int, t: int, s2: int, t2: int)
    requires IsNewer(Some(s), Some(t))
    requires s <= s2 && t2 <= t
    ensures IsNewer(Some(s2), Some(t2))
  {
  }

  /**
   * With both times known, at most one of two files is stale against the
   * other, and neither is when they are within one second of each other.
   */
  lemma IsNewerTolerance(s: int, t: int)
    ensures !(IsNewer(Some(s), Some(t)) && IsNewer(Some(t), Some(s)))
    ensures -1000 <= s - t <= 1000 ==> !IsNewer(Some(s), Some(t)) && !IsNewer(Some(t), Some(s))
  {
  }

  function Lookup(mtime: map<string, int>, f: string): Option<int>
  {
    if f in mtime then Some(mtime[f]) else None
  }

  /** The file `f`, if `isNewer` says it must be built. */
  function BuildIfStale(f: string, src: Option<int>, mtime: map<string, int>): seq<string>
  {
    if IsNewer(src, Lookup(mtime, f)) then [f] else []
  }

  /**
   * The files `convertOne` writes for one source, in order, given the
   * modification time of every existing file (a missing key is a failed
   * `stat`) and the source's pixel width (0 when unknown).
   */
  function ConvertPlan(srcPath: string, width: nat, mtime: map<string, int>): seq<string>
  {
    match OutputNames(srcPath)
    case None => []
    case Some(o) =>
      OutputPlan(o, ShouldAlsoWebp(srcPath), AllowedWidths(width), Lookup(mtime, srcPath), mtime)
  }

  function OutputPlan(o: Outputs, webp: bool, widths: seq<nat>, src: Option<int>,
                      mtime: map<string, int>): seq<string>
  {
    BuildIfStale(o.avif, src, mtime)
    + (if webp then BuildIfStale(o.webp, src, mtime) else [])
    + VariantPlan(o.base, widths, webp, src, mtime)
  }

  /** The loop over the allowed widths: an AVIF variant, then a WebP one when wanted. */
  function VariantPlan(base: string, widths: seq<nat>, webp: bool, src: Option<int>,
                       mtime: map<string, int>): seq<string>
  {
    if widths == [] then []
    else
      BuildIfStale(VariantName(base, widths[0], "avif"), src, mtime)
      + (if webp then BuildIfStale(VariantName(base, widths[0], "webp"), src, mtime) else [])
      + VariantPlan(base, widths[1..], webp, src, mtime)
  }

  /** What a file written for `base` looks like: AVIF always, WebP only when wanted. */
  predicate IsOutputOf(f: string, base: string, webp: bool)
  {
    StartsWith(f, base) && (EndsWith(f, ".avif") || (webp && EndsWith(f, ".webp")))
  }

  lemma VariantIsOutput(base: string, w: nat, format: string, webp: bool)
    requires format == "avif" || (webp && format == "webp")
    ensures IsOutputOf(VariantName(base, w, format), base, webp)
  {
    var f := VariantName(base, w, format);
    assert f[..|base|] == f[..|base| + 2][..|base|];
  }

  lemma {:induction false} VariantPlanNames(base: string, widths: seq<nat>, webp: bool,
                                           src: Option<int>, mtime: map<string, int>)
    ensures forall f | f in VariantPlan(base, widths, webp, src, mtime) :: IsOutputOf(f, base, webp)
    ensures |VariantPlan(base, widths, webp, src, mtime)| <= 2 * |widths|
  {
    if widths != [] {
      VariantPlanNames(base, widths[1..], webp, src, mtime);
      VariantIsOutput(base, widths[0], "avif", webp);
      if webp {
        VariantIsOutput(base, widths[0], "webp", webp);
      }
    }
  }

  lemma OutputPlanNames(o: Outputs, webp: bool, widths: seq<nat>, src: Option<int>,
                        mtime: map<string, int>)
    requires o.avif == o.base + ".avif" && o.webp == o.base + ".webp"
    ensures forall f | f in OutputPlan(o, webp, widths, src, mtime) :: IsOutputOf(f, o.base, webp)
    ensures |OutputPlan(o, webp, widths, src, mtime)| <= 2 + 2 * |widths|
  {
    VariantPlanNames(o.base, widths, webp, src, mtime);
    Affixes(o.base, ".avif");
    Affixes(o.base, ".webp");
  }

  /**
   * Every file written sits next to the source: the source path without its
   * extension, then an `.avif` or `.webp` suffix, and WebP files only for
   * sources that qualify for a WebP copy. Unsupported extensions write nothing.
   */
  lemma ConvertPlanNames(srcPath: string, width: nat, mtime: map<string, int>)
    ensures ExtName(srcPath) !in ValidSrcExt ==> ConvertPlan(srcPath, width, mtime) == []
    ensures forall f | f in ConvertPlan(srcPath, width, mtime) ::
      IsOutputOf(f, srcPath[..|srcPath| - |ExtName(srcPath)|], ShouldAlsoWebp(srcPath))
    ensures |ConvertPlan(srcPath, width, mtime)| <= 2 + 2 * |AllowedWidths(width)|
  {
    var oo := OutputNames(srcPath);
    if oo.Some? {
      var o := oo.value;
      assert o.base == srcPath[..|srcPath| - |ExtName(srcPath)|];
      OutputPlanNames(o, ShouldAlsoWebp(srcPath), AllowedWidths(width), Lookup(mtime, srcPath), mtime);
    }
  }

  /** The output exists and is no more than a second older than the source. */
  predicate Fresh(f: string, src: int, mtime: map<string, int>)
  {
    f in mtime && mtime[f] + 1000 >= src
  }

  lemma {:induction false} VariantPlanFresh(base: string, widths: seq<nat>, webp: bool,
                                           src: int, mtime: map<string, int>)
    requires forall w | w in widths :: Fresh(VariantName(base, w, "avif"), src, mtime)
    requires webp ==> forall w | w in widths :: Fresh(VariantName(base, w, "webp"), src, mtime)
    ensures VariantPlan(base, widths, webp, Some(src), mtime) == []
  {
    if widths != [] {
      assert widths[0] in widths;
      VariantPlanFresh(base, widths[1..], webp, src, mtime);
    }
  }

  /**
   * Running the conversion again after its outputs were written writes
   * nothing: once every output is at least as recent as the source minus the
   * fuzz, the plan is empty.
   */
  lemma OutputPlanFresh(o: Outputs, webp: bool, widths: seq<nat>, src: int, mtime: map<string, int>)
    requires Fresh(o.avif, src, mtime) && (webp ==> Fresh(o.webp, src, mtime))
    requires forall w | w in widths :: Fresh(VariantName(o.base, w, "avif"), src, mtime)
    requires webp ==> forall w | w in widths :: Fresh(VariantName(o.base, w, "webp"), src, mtime)
    ensures OutputPlan(o, webp, widths, Some(src), mtime) == []
  {
    VariantPlanFresh(o.base, widths, webp, src, mtime);
  }

  /** A full-size AVIF output whose `stat` fails is always built. */
  lemma MissingAvifIsBuilt(srcPath: string, width: nat, mtime: map<string, int>)
    requires OutputNames(srcPath).Some?
    requires OutputNames(srcPath).value.avif !in mtime
    ensures OutputNames(srcPath).value.avif in ConvertPlan(srcPath, width, mtime)
  {
  }

  /** The `walk` rule: folders starting with `_` or, in any case, with `backup` are skipped. */
  predicate SkipDir(name: string)
  {
    StartsWith(name, "_") || StartsWith(Lower(name), "backup")
  }

  /**
   * A folder is skipped exactly when its name starts with `_`, or its first
   * six letters spell `backup` in any letter case.
   */
  lemma SkipDirSpec(name: string)
    ensures SkipDir(name) <==>
      (|name| > 0 && name[0] == '_') ||
      (|name| >= 6 && forall i | 0 <= i < 6 :: LowerChar(name[i]) == "backup"[i])
  {
    if |name| > 0 && name[0] == '_' {
      assert name[..1] == "_";
    }
    if |name| >= 6 && forall i | 0 <= i < 6 :: LowerChar(name[i]) == "backup"[i] {
      assert Lower(name)[..6] == "backup";
    }
    if StartsWith(Lower(name), "backup") {
      forall i | 0 <= i < 6 ensures LowerChar(name[i]) == "backup"[i] {
        assert Lower(name)[..6][i] == Lower(name)[i];
      }
    }
  }

  /** Any name whose first six letters spell `backup` in some case is skipped. */
  lemma SkipDirBackup(pre: string, rest: string)
    requires Lower(pre) == "backup"
    ensures SkipDir(pre + rest)
  {
    LowerAppend(pre, rest);
    assert Lower(pre + rest)[..6] == Lower(pre);
  }

  lemma SkipDirBackupExample()
    ensures SkipDir("BackUp images")
  {
    assert Lower("BackUp") == "backup";
    SkipDirBackup("BackUp", " images");
    assert "BackUp" + " images" == "BackUp images";
  }

  lemma SkipDirKeepsGallery()
    ensures !SkipDir("gallery")
  {
    assert Lower("gallery")[0] == 'g';
  }

  /** A directory tree as `readdirSync` reports it. */
  datatype Entry = File(name: string) | Dir(name: string, children: seq<Entry>)

  /**
   * The paths `walk` yields, as sequences of component names relative to the
   * starting directory, in listing order.
   */
  function Walk(entries: seq<Entry>): seq<seq<string>>
    decreases entries
  {
    if entries == [] then []
    else
      var e := entries[0];
      var first :=
        match e
        case File(n) => [[n]]
        case Dir(n, cs) => if SkipDir(n) then [] else Prefix(n, Walk(cs));
      first + Walk(entries[1..])
  }

  /** Put one directory name in front of every path. */
  function Prefix(n: string, paths: seq<seq<string>>): (r: seq<seq<string>>)
    ensures |r| == |paths|
    ensures forall i :: 0 <= i < |r| ==> r[i] == [n] + paths[i]
  {
    if paths == [] then [] else [[n] + paths[0]] + Prefix(n, paths[1..])
  }

  /** A non-empty path that passes through no skipped directory. */
  predicate NoSkippedDir(path: seq<string>)
  {
    |path| > 0 && forall i :: 0 <= i < |path| - 1 ==> !SkipDir(path[i])
  }

  /** The walk never descends into a skipped directory. */
  lemma {:induction false} WalkSkips(entries: seq<Entry>)
    ensures forall p | p in Walk(entries) :: NoSkippedDir(p)
    decreases entries
  {
    if entries != [] {
      var e := entries[0];
      WalkSkips(entries[1..]);
      if e.Dir? && !SkipDir(e.name) {
        WalkSkips(e.children);
        var inner := Walk(e.children);
        forall p | p in Prefix(e.name, inner)
          ensures NoSkippedDir(p)
        {
          var i :| 0 <= i < |inner| && p == [e.name] + inner[i];
          assert NoSkippedDir(inner[i]);
          forall j | 0 <= j < |p| - 1
            ensures !SkipDir(p[j])
          {
            if j > 0 {
              assert p[j] == inner[i][j - 1];
            }
          }
        }
      }
    }
  }

  /** Every file listed in the starting directory is yielded. */
  lemma {:induction false} WalkYieldsTopFiles(entries: seq<Entry>, i: nat)
    requires i < |entries| && entries[i].File?
    ensures [entries[i].name] in Walk(entries)
    decreases entries
  {
    if i > 0 {
      WalkYieldsTopFiles(entries[1..], i - 1);
    }
  }

  /** Every file of a folder the walk enters is yielded, under the folder's name. */
  lemma {:induction false} WalkYieldsNested(entries: seq<Entry>, i: nat, p: seq<string>)
    requires i < |entries| && entries[i].Dir? && !SkipDir(entries[i].name)
    requires p in Walk(entries[i].children)
    ensures [entries[i].name] + p in Walk(entries)
    decreases entries
  {
    if i > 0 {
      WalkYieldsNested(entries[1..], i - 1, p);
    } else {
      var inner := Walk(entries[0].children);
      var k :| 0 <= k < |inner| && inner[k] == p;
      assert Prefix(entries[0].name, inner)[k] == [entries[0].name] + p;
    }
  }

  /**
   * `path` names a file of the tree `entries` reached through folders that are
   * none of them skipped.
   */
  ghost predicate InTree(entries: seq<Entry>, path: seq<string>)
    decreases path
  {
    exists i | 0 <= i < |entries| ::
      (|path| == 1 && entries[i] == File(path[0])) ||
      (|path| > 1 && entries[i].Dir? && entries[i].name == path[0] && !SkipDir(path[0]) &&
       InTree(entries[i].children, path[1..]))
  }

  /** The walk yields every such file, with its full path. */
  lemma {:induction false} WalkComplete(entries: seq<Entry>, path: seq<string>)
    requires InTree(entries, path)
    ensures path in Walk(entries)
    decreases path
  {
    var i :| 0 <= i < |entries| &&
      ((|path| == 1 && entries[i] == File(path[0])) ||
       (|path| > 1 && entries[i].Dir? && entries[i].name == path[0] && !SkipDir(path[0]) &&
        InTree(entries[i].children, path[1..])));
    if |path| == 1 {
      WalkYieldsTopFiles(entries, i);
      assert path == [path[0]];
    } else {
      WalkComplete(entries[i].children, path[1..]);
      WalkYieldsNested(entries, i, path[1..]);
      assert path == [path[0]] + path[1..];
    }
  }
}
