/**
 * Path layout of the photo store: the two directories it writes into and the
 * file names it derives from a photo id, plus the parsing that recovers an id
 * from a thumbnail file name during the orphan sweep.
 */
module Paths {

  import opened Wrappers

  /** `photos` under the app cache dir (thumbnails), and `photos` under the
      external files dir (optimized images and their staging file). */
  datatype Area = CacheArea | StorageArea

  /** A file inside one of the two areas, identified by its name. */
  datatype FilePath = FilePath(area: Area, name: string)

  const OptimizedSuffix: string := ".jpg"
  const ThumbnailSuffix: string := "_thumb.jpg"
  const TempSuffix: string := "_opt.tmp"

  function OptimizedName(id: string): string { id + OptimizedSuffix }
  function ThumbnailName(id: string): string { id + ThumbnailSuffix }
  function TempName(id: string): string { id + TempSuffix }

  /** `<id>.jpg` in the storage area. */
  function OptimizedPath(id: string): (p: FilePath)
    ensures p.area == StorageArea && p.name == OptimizedName(id)
  {
    FilePath(StorageArea, OptimizedName(id))
  }

  /** `<id>_thumb.jpg` in the cache area. */
  function ThumbnailPath(id: string): (p: FilePath)
    ensures p.area == CacheArea && p.name == ThumbnailName(id)
  {
    FilePath(CacheArea, ThumbnailName(id))
  }

  /** `<id>_opt.tmp` in the storage area, where the optimized image is staged. */
  function TempPath(id: string): (p: FilePath)
    ensures p.area == StorageArea && p.name == TempName(id)
  {
    FilePath(StorageArea, TempName(id))
  }

  /** Appending a fixed suffix is injective. */
  lemma SuffixInjective(a: string, b: string, suffix: string)
    requires a + suffix == b + suffix
    ensures a == b
  {
    assert |a| == |b|;
    assert a == (a + suffix)[..|a|];
    assert b == (b + suffix)[..|b|];
  }

  /** Distinct ids never share an artifact file, and the staging file of one
      id is never the optimized file of another (their last characters differ). */
  lemma NamesDistinct(a: string, b: string)
    ensures OptimizedName(a) == OptimizedName(b) ==> a == b
    ensures ThumbnailName(a) == ThumbnailName(b) ==> a == b
    ensures TempName(a) == TempName(b) ==> a == b
    ensures OptimizedName(a) != TempName(b)
  {
    if OptimizedName(a) == OptimizedName(b) { SuffixInjective(a, b, OptimizedSuffix); }
    if ThumbnailName(a) == ThumbnailName(b) { SuffixInjective(a, b, ThumbnailSuffix); }
    if TempName(a) == TempName(b) { SuffixInjective(a, b, TempSuffix); }
    var o, t := OptimizedName(a), TempName(b);
    assert o[|o| - 1] == 'g' && t[|t| - 1] == 'p';
  }

  /** Kotlin's `String.endsWith`. */
  predicate EndsWith(s: string, suffix: string) {
    |suffix| <= |s| && s[|s| - |suffix|..] == suffix
  }

  /** Kotlin's `String.removeSuffix`: drops `suffix` when present, else returns `s`. */
  function RemoveSuffix(s: string, suffix: string): (r: string)
    ensures EndsWith(s, suffix) ==> r + suffix == s
    ensures !EndsWith(s, suffix) ==> r == s
  {
    if EndsWith(s, suffix) then s[..|s| - |suffix|] else s
  }

  /** Index of the last `.` in `s`, if any. */
  function LastDot(s: string): (r: Option<nat>)
    ensures r.Some? ==> r.value < |s| && s[r.value] == '.'
    ensures r.Some? ==> forall i :: r.value < i < |s| ==> s[i] != '.'
    ensures r.None? ==> forall i :: 0 <= i < |s| ==> s[i] != '.'
  {
    if s == [] then None
    else if s[|s| - 1] == '.' then Some(|s| - 1)
    else LastDot(s[..|s| - 1])
  }

  /** `File.nameWithoutExtension`: the name before its last `.`, or the whole
      name when it has none. */
  function NameWithoutExtension(name: string): string {
    match LastDot(name)
    case None => name
    case Some(i) => name[..i]
  }

  /** The photo id the orphan sweep derives from a cache file name. */
  function ThumbnailId(name: string): string {
    RemoveSuffix(NameWithoutExtension(name), "_thumb")
  }

  /** Stripping the extension and then `_thumb` from `<id>_thumb.jpg` gives back `<id>`. */
  lemma ThumbnailIdRoundTrip(id: string)
    ensures ThumbnailId(ThumbnailName(id)) == id
  {
    var name := ThumbnailName(id);
    var dot := |id| + 6;
    assert name[dot] == '.';
    assert name[dot + 1] == 'j' && name[dot + 2] == 'p' && name[dot + 3] == 'g';
    var r := LastDot(name);
    assert r.Some? && r.value == dot;
    assert NameWithoutExtension(name) == id + "_thumb";
  }

  /** Every name the sweep lists (one ending in `_thumb.jpg`) is the thumbnail
      name of the id it derives, so the sweep's existence test looks at the
      right optimized file. */
  lemma ThumbnailNameOfId(name: string)
    requires EndsWith(name, ThumbnailSuffix)
    ensures ThumbnailName(ThumbnailId(name)) == name
  {
    var id := name[..|name| - |ThumbnailSuffix|];
    assert name == ThumbnailName(id);
    ThumbnailIdRoundTrip(id);
  }
}
