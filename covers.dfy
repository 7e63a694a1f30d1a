/**
 * `download_cover_image` (app.py): choosing the saved file's extension from
 * the image URL, its file name from the game id, and the URL path returned
 * to the caller. Writing the bytes to disk is not modelled.
 */
module Covers {
  import opened Common
  import opened Decimal

  const AllowedExtensions: seq<string> := ["jpg", "jpeg", "png", "webp"]
  const DefaultExtension: string := "jpg"
  const CoversUrlPrefix: string := "/static/covers/"
  const CoverFilePrefix: string := "game_"

  /** Position of the last `sep` in `s`, if any. */
  function LastIndexOf(s: string, sep: char): (r: Option<nat>)
    ensures r.None? ==> sep !in s
    ensures r.Some? ==> r.value < |s| && s[r.value] == sep
    ensures r.Some? ==> forall j :: r.value < j < |s| ==> s[j] != sep
    decreases |s|
  {
    if |s| == 0 then None
    else if s[|s| - 1] == sep then Some(|s| - 1)
    else LastIndexOf(s[..|s| - 1], sep)
  }

  /** Position of the first `sep` in `s`, if any. */
  function FirstIndexOf(s: string, sep: char): (r: Option<nat>)
    ensures r.None? ==> sep !in s
    ensures r.Some? ==> r.value < |s| && s[r.value] == sep
    ensures r.Some? ==> forall j :: 0 <= j < r.value ==> s[j] != sep
    decreases |s|
  {
    if |s| == 0 then None
    else if s[0] == sep then Some(0)
    else
      match FirstIndexOf(s[1..], sep)
      case None => None
      case Some(k) => Some(k + 1)
  }

  /** `s.split(sep)[-1]`: what follows the last `sep`, or all of `s` when there is none. */
  function AfterLast(s: string, sep: char): (r: string)
    ensures sep !in r
    ensures |r| <= |s| && r == s[|s| - |r|..]
    ensures |r| < |s| ==> s[|s| - |r| - 1] == sep
  {
    match LastIndexOf(s, sep)
    case None => s
    case Some(k) => s[k + 1..]
  }

  /** `s.split(sep)[0]`: what precedes the first `sep`, or all of `s` when there is none. */
  function BeforeFirst(s: string, sep: char): (r: string)
    ensures sep !in r
    ensures |r| <= |s| && r == s[..|r|]
    ensures |r| < |s| ==> s[|r|] == sep
  {
    match FirstIndexOf(s, sep)
    case None => s
    case Some(k) => s[..k]
  }

  /** `url.split('.')[-1].split('?')[0]`, before the whitelist is applied. */
  function RawExtension(url: string): (raw: string)
    ensures '.' !in raw && '?' !in raw
    ensures |raw| <= |url|
  {
    BeforeFirst(AfterLast(url, '.'), '?')
  }

  /** The extension kept for the saved file. */
  function CoverExtension(url: string): (ext: string)
    ensures ext in AllowedExtensions
    ensures RawExtension(url) in AllowedExtensions ==> ext == RawExtension(url)
    ensures RawExtension(url) !in AllowedExtensions ==> ext == DefaultExtension
  {
    var ext := RawExtension(url);
    if ext in AllowedExtensions then ext else DefaultExtension
  }

  lemma ExtensionHasNoDot(url: string)
    ensures '.' !in CoverExtension(url)
  {
  }

  /**
   * `f"game_{game_id}.{ext}"`: it starts with `game_`, and splitting it at
   * its last dot gives back the chosen extension.
   */
  function CoverFileName(url: string, gameId: nat): (name: string)
    ensures |name| >= |CoverFilePrefix| && name[..|CoverFilePrefix|] == CoverFilePrefix
    ensures AfterLast(name, '.') == CoverExtension(url)
  {
    ExtensionHasNoDot(url);
    AfterLastOfJoin(CoverFilePrefix + DecimalString(gameId), '.', CoverExtension(url));
    CoverFilePrefix + DecimalString(gameId) + ['.'] + CoverExtension(url)
  }

  /**
   * `f"/static/covers/{filename}"`: exactly
   * `/static/covers/game_{id}.{ext}`, whose extension is the chosen one.
   */
  function CoverPath(url: string, gameId: nat): (path: string)
    ensures path == CoversUrlPrefix + CoverFilePrefix + DecimalString(gameId) + ['.'] + CoverExtension(url)
    ensures AfterLast(path, '.') == CoverExtension(url)
  {
    Regroup(CoversUrlPrefix, CoverFilePrefix, DecimalString(gameId), CoverExtension(url));
    ExtensionHasNoDot(url);
    AfterLastOfJoin(CoversUrlPrefix + CoverFilePrefix + DecimalString(gameId), '.', CoverExtension(url));
    CoversUrlPrefix + CoverFileName(url, gameId)
  }

  /**
   * The whole helper: a 200 response yields the path of the saved cover,
   * any other status or an exception yields `None`.
   */
  function DownloadCoverImage(url: string, gameId: nat, response: Fetch<seq<bv8>>): (r: Option<string>)
    ensures r.Some? <==> response.Ok?
    ensures r.Some? ==> r.value == CoverPath(url, gameId)
  {
    if response.Ok? then Some(CoverPath(url, gameId)) else None
  }

  lemma AfterLastOfJoin(a: string, sep: char, b: string)
    requires sep !in b
    ensures AfterLast(a + [sep] + b, sep) == b
  {
    var s := a + [sep] + b;
    assert s[|a|] == sep;
    assert s[|a| + 1..] == b;
  }

  lemma BeforeFirstOfJoin(a: string, sep: char, b: string)
    requires sep !in a
    ensures BeforeFirst(a + [sep] + b, sep) == a
  {
    var s := a + [sep] + b;
    assert s[|a|] == sep;
    assert s[..|a|] == a;
  }

  lemma BeforeFirstAbsent(a: string, sep: char)
    requires sep !in a
    ensures BeforeFirst(a, sep) == a
  {
  }

  /**
   * For a URL `stem.ext?query` whose last dot is the one before the
   * extension, the extension is `ext` when whitelisted and `jpg` otherwise.
   */
  lemma ExtensionWithQuery(stem: string, ext: string, query: string)
    requires '.' !in ext && '?' !in ext && '.' !in query
    ensures CoverExtension(stem + "." + ext + "?" + query) ==
      if ext in AllowedExtensions then ext else DefaultExtension
  {
    var tail := ext + "?" + query;
    assert stem + "." + ext + "?" + query == stem + ['.'] + tail;
    AfterLastOfJoin(stem, '.', tail);
    assert tail == ext + ['?'] + query;
    BeforeFirstOfJoin(ext, '?', query);
  }

  /** The same for a URL `stem.ext` without a query string. */
  lemma ExtensionWithoutQuery(stem: string, ext: string)
    requires '.' !in ext && '?' !in ext
    ensures CoverExtension(stem + "." + ext) ==
      if ext in AllowedExtensions then ext else DefaultExtension
  {
    assert stem + "." + ext == stem + ['.'] + ext;
    AfterLastOfJoin(stem, '.', ext);
    BeforeFirstAbsent(ext, '?');
  }

  /** A dot inside the query string makes the whitelisted extension fall back to `jpg`. */
  lemma DotInQueryFallsBack()
    ensures CoverExtension("https://img.example/cover.png?v=1.2") == "jpg"
  {
    var url := "https://img.example/cover.png?v=1.2";
    assert url == "https://img.example/cover.png?v=1" + ['.'] + "2";
    AfterLastOfJoin("https://img.example/cover.png?v=1", '.', "2");
    BeforeFirstAbsent("2", '?');
  }

  lemma DigitsHaveNoDot(s: string)
    requires AllDigits(s)
    ensures '.' !in s
  {
  }

  lemma SliceAfterPrefix(p: string, q: string, d: string, e: string)
    ensures |p + q + d + ['.'] + e| >= |p| + |q|
    ensures (p + q + d + ['.'] + e)[|p| + |q|..] == d + ['.'] + e
  {
    var t := d + ['.'] + e;
    assert p + q + d + ['.'] + e == (p + q) + t;
  }

  lemma Regroup(p: string, q: string, d: string, e: string)
    ensures p + q + d + ['.'] + e == p + (q + d + ['.'] + e)
  {
  }

  /** The id can be read back from a cover path. */
  lemma CoverPathDigits(url: string, gameId: nat)
    ensures |CoverPath(url, gameId)| >= |CoversUrlPrefix| + |CoverFilePrefix|
    ensures BeforeFirst(CoverPath(url, gameId)[|CoversUrlPrefix| + |CoverFilePrefix|..], '.') == DecimalString(gameId)
  {
    var d := DecimalString(gameId);
    var e := CoverExtension(url);
    SliceAfterPrefix(CoversUrlPrefix, CoverFilePrefix, d, e);
    DigitsHaveNoDot(d);
    BeforeFirstOfJoin(d, '.', e);
  }

  /** Distinct games never share a cover path, whatever their URLs. */
  lemma CoverPathInjective(url1: string, id1: nat, url2: string, id2: nat)
    requires CoverPath(url1, id1) == CoverPath(url2, id2)
    ensures id1 == id2
  {
    CoverPathDigits(url1, id1);
    CoverPathDigits(url2, id2);
    DecimalStringInjective(id1, id2);
  }
}
