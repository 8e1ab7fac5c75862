/**
 * The local photo store: optimized images in the storage area, thumbnails in
 * the cache area, one row per photo in the index, and a single-slot listing
 * cache. Ingest writes files step by step and rolls every file of the new id
 * back on any failure; the listing purges index rows whose files are gone;
 * delete removes files and rows and invalidates the cache; the startup sweep
 * removes thumbnails whose optimized image is gone.
 *
 * The clock, the free space on disk, the photo id, the outcome of each image
 * transcode, of the rename and of each file deletion the source inspects are
 * inputs of the operations.
 */
module StorageManager {

  import opened Wrappers
  import opened Paths
  import opened Entities
  import opened PhotoDao

  /** What the store hands out: a photo row plus the recomputed thumbnail path. */
  datatype PhotoReference = PhotoReference(id: string, optimizedPath: FilePath, thumbnailPath: FilePath, timestamp: int)

  /** Space kept free on the storage area when admitting a new photo: 10 MiB. */
  const StorageBuffer: int := 10 * 1024 * 1024

  /** Lifetime of the cached listing, in milliseconds. */
  const CacheValidityMs: int := 5000

  /** The outcome of decoding the source image and encoding it into a
      destination file. A decode failure happens before the destination is
      opened; a failure to open it creates nothing; an encode failure leaves
      a partial file behind; success leaves a file of some length, maybe zero. */
  datatype Transcode = DecodeFailure | OpenFailure | EncodeFailure(written: nat) | Encoded(length: nat)

  /** The exception that ends an ingest, one per throw site. */
  datatype IngestError =
    | InsufficientStorage
    | DecodeError
    | OpenError
    | EncodeError
    | RenameFailed
    | OptimizedInvalid
    | ThumbnailInvalid
    | IndexInsertFailed

  function TranscodeError(t: Transcode): IngestError
    requires !t.Encoded?
  {
    match t
    case DecodeFailure => DecodeError
    case OpenFailure => OpenError
    case EncodeFailure(_) => EncodeError
  }

  /** The first checkpoint of an ingest that fails, in the order the source
      runs them, or None when every one passes. */
  function IngestFailure(sourceLength: nat, availableBytes: int, optimized: Transcode, renamed: bool,
                         thumbnail: Transcode, alreadyIndexed: bool): (f: Option<IngestError>)
    ensures f.None? <==>
      && sourceLength <= availableBytes - StorageBuffer
      && optimized.Encoded? && renamed && optimized.length > 0
      && thumbnail.Encoded? && thumbnail.length > 0
      && !alreadyIndexed
    ensures sourceLength > availableBytes - StorageBuffer ==> f == Some(InsufficientStorage)
    ensures f == Some(IndexInsertFailed) ==> alreadyIndexed
  {
    if sourceLength > availableBytes - StorageBuffer then Some(InsufficientStorage)
    else if !optimized.Encoded? then Some(TranscodeError(optimized))
    else if !renamed then Some(RenameFailed)
    else if optimized.length == 0 then Some(OptimizedInvalid)
    else if !thumbnail.Encoded? then Some(TranscodeError(thumbnail))
    else if thumbnail.length == 0 then Some(ThumbnailInvalid)
    else if alreadyIndexed then Some(IndexInsertFailed)
    else None
  }

  /** A directory after transcoding into its file `name`: the file holds what
      the encoder wrote, or nothing changed when nothing was opened. */
  function Transcoded(files: map<string, nat>, name: string, t: Transcode): map<string, nat> {
    match t
    case DecodeFailure => files
    case OpenFailure => files
    case EncodeFailure(written) => files[name := written]
    case Encoded(length) => files[name := length]
  }

  function Min(a: int, b: int): int { if a <= b then a else b }

  /** `drop(offset).take(limit)`: skip `offset` entries, then keep at most `limit`. */
  function Window<T>(s: seq<T>, offset: nat, limit: nat): (w: seq<T>)
    ensures |w| == if offset >= |s| then 0 else Min(limit, |s| - offset)
    ensures forall i :: 0 <= i < |w| ==> w[i] == s[offset + i]
  {
    var rest := if offset <= |s| then s[offset..] else [];
    if limit <= |rest| then rest[..limit] else rest
  }

  /** Page 2 of size 2 over five photos is the second and third photo. */
  lemma PaginationExample<T>(a: T, b: T, c: T, d: T, e: T)
    ensures Window([a, b, c, d, e], 1, 2) == [b, c]
  {
    var w := Window([a, b, c, d, e], 1, 2);
    assert |w| == 2 && w[0] == b && w[1] == c;
  }

  function PathExists(p: FilePath, storage: map<string, nat>, cache: map<string, nat>): bool {
    match p.area
    case StorageArea => p.name in storage
    case CacheArea => p.name in cache
  }

  /** A row survives the listing when its optimized file and its thumbnail both exist. */
  predicate Intact(e: PhotoEntity, storage: map<string, nat>, cache: map<string, nat>) {
    PathExists(e.filePath, storage, cache) && ThumbnailName(e.id) in cache
  }

  function ToReference(e: PhotoEntity): PhotoReference {
    PhotoReference(e.id, e.filePath, ThumbnailPath(e.id), e.timestamp)
  }

  /** A reference keeps its row's id, path and time, and its thumbnail is a
      cache-area file the sweep parses back to the same id. */
  lemma ReferenceThumbnailOfRow(e: PhotoEntity)
    ensures var r := ToReference(e);
      && r.id == e.id && r.optimizedPath == e.filePath && r.timestamp == e.timestamp
      && r.thumbnailPath.area == CacheArea && ThumbnailId(r.thumbnailPath.name) == e.id
  {
    ThumbnailIdRoundTrip(e.id);
  }

  function References(s: seq<PhotoEntity>): (r: seq<PhotoReference>)
    ensures |r| == |s| && forall i :: 0 <= i < |s| ==> r[i] == ToReference(s[i])
  {
    seq(|s|, i requires 0 <= i < |s| => ToReference(s[i]))
  }

  /** The rows of `listing` that survive, in listing order. */
  function Kept(listing: seq<PhotoEntity>, storage: map<string, nat>, cache: map<string, nat>): seq<PhotoEntity>
    decreases |listing|
  {
    if listing == [] then []
    else
      var last := listing[|listing| - 1];
      Kept(listing[..|listing| - 1], storage, cache) + (if Intact(last, storage, cache) then [last] else [])
  }

  /** One more listed row: the kept prefix grows by that row exactly when it is intact. */
  lemma KeptReferencesStep(listing: seq<PhotoEntity>, i: nat, storage: map<string, nat>, cache: map<string, nat>)
    requires i < |listing|
    ensures Intact(listing[i], storage, cache) ==>
      References(Kept(listing[..i + 1], storage, cache)) == References(Kept(listing[..i], storage, cache)) + [ToReference(listing[i])]
    ensures !Intact(listing[i], storage, cache) ==>
      References(Kept(listing[..i + 1], storage, cache)) == References(Kept(listing[..i], storage, cache))
  {
    assert listing[..i + 1][..i] == listing[..i];
  }

  /** The table once the rows without files are purged. */
  function IntactRows(t: map<string, PhotoEntity>, storage: map<string, nat>, cache: map<string, nat>): (h: map<string, PhotoEntity>)
    ensures forall k :: k in h <==> k in t && Intact(t[k], storage, cache)
    ensures forall k :: k in h ==> h[k] == t[k]
  {
    map k | k in t && Intact(t[k], storage, cache) :: t[k]
  }

  /** A row is kept exactly when it is listed and intact. */
  lemma {:induction false} KeptMembers(listing: seq<PhotoEntity>, storage: map<string, nat>, cache: map<string, nat>)
    ensures forall e :: e in Kept(listing, storage, cache) <==> e in listing && Intact(e, storage, cache)
    decreases |listing|
  {
    if listing != [] {
      var init := listing[..|listing| - 1];
      KeptMembers(init, storage, cache);
      assert listing == init + [listing[|listing| - 1]];
    }
  }

  /** Purging keeps the listing's order and keeps its ids distinct. */
  lemma {:induction false} KeptOrder(listing: seq<PhotoEntity>, storage: map<string, nat>, cache: map<string, nat>)
    requires SortedByTimeDesc(listing) && DistinctIds(listing)
    ensures SortedByTimeDesc(Kept(listing, storage, cache)) && DistinctIds(Kept(listing, storage, cache))
    decreases |listing|
  {
    if listing != [] {
      var init := listing[..|listing| - 1];
      var last := listing[|listing| - 1];
      KeptOrder(init, storage, cache);
      KeptMembers(init, storage, cache);
      var k := Kept(init, storage, cache);
      forall i | 0 <= i < |k|
        ensures k[i].timestamp >= last.timestamp && k[i].id != last.id
      {
        assert k[i] in init;
        var j :| 0 <= j < |init| && init[j] == k[i];
      }
    }
  }

  /** The kept rows are a valid listing of the purged table. */
  lemma KeptListsIntactRows(listing: seq<PhotoEntity>, t: map<string, PhotoEntity>,
                            storage: map<string, nat>, cache: map<string, nat>)
    requires Lists(listing, t)
    ensures Lists(Kept(listing, storage, cache), IntactRows(t, storage, cache))
  {
    KeptOrder(listing, storage, cache);
    KeptMembers(listing, storage, cache);
    var k := Kept(listing, storage, cache);
    forall i | 0 <= i < |k|
      ensures k[i].id in t && t[k[i].id] == k[i]
    {
      assert k[i] in listing;
      var j :| 0 <= j < |listing| && listing[j] == k[i];
    }
  }

  lemma RemoveOneMore<K, V>(m: map<K, V>, a: set<K>, x: K)
    ensures (m - a) - {x} == m - (a + {x})
  {
  }

  /** The ids of the listed rows that are missing a file. */
  function Purged(listing: seq<PhotoEntity>, storage: map<string, nat>, cache: map<string, nat>): set<string>
    decreases |listing|
  {
    if listing == [] then {}
    else
      var last := listing[|listing| - 1];
      Purged(listing[..|listing| - 1], storage, cache) + (if Intact(last, storage, cache) then {} else {last.id})
  }

  lemma PurgedStep(listing: seq<PhotoEntity>, i: nat, storage: map<string, nat>, cache: map<string, nat>)
    requires i < |listing|
    ensures Intact(listing[i], storage, cache) ==> Purged(listing[..i + 1], storage, cache) == Purged(listing[..i], storage, cache)
    ensures !Intact(listing[i], storage, cache) ==>
      Purged(listing[..i + 1], storage, cache) == Purged(listing[..i], storage, cache) + {listing[i].id}
  {
    assert listing[..i + 1][..i] == listing[..i];
  }

  lemma {:induction false} PurgedMembers(listing: seq<PhotoEntity>, storage: map<string, nat>, cache: map<string, nat>)
    ensures forall k :: k in Purged(listing, storage, cache) ==>
      exists j :: 0 <= j < |listing| && listing[j].id == k && !Intact(listing[j], storage, cache)
    ensures forall j :: 0 <= j < |listing| && !Intact(listing[j], storage, cache) ==> listing[j].id in Purged(listing, storage, cache)
    decreases |listing|
  {
    if listing != [] {
      var init := listing[..|listing| - 1];
      PurgedMembers(init, storage, cache);
      forall k | k in Purged(listing, storage, cache)
        ensures exists j :: 0 <= j < |listing| && listing[j].id == k && !Intact(listing[j], storage, cache)
      {
        if k in Purged(init, storage, cache) {
          var j :| 0 <= j < |init| && init[j].id == k && !Intact(init[j], storage, cache);
          assert listing[j] == init[j];
        }
      }
      forall j | 0 <= j < |listing| && !Intact(listing[j], storage, cache)
        ensures listing[j].id in Purged(listing, storage, cache)
      {
        if j < |init| {
          assert init[j] == listing[j];
        }
      }
    }
  }

  /** The ids the cold read purges are exactly the table's rows missing a file. */
  lemma PurgedRowsAreBroken(listing: seq<PhotoEntity>, t: map<string, PhotoEntity>,
                            storage: map<string, nat>, cache: map<string, nat>)
    requires Lists(listing, t) && PhotoTable(t)
    ensures Purged(listing, storage, cache) == t.Keys - IntactRows(t, storage, cache).Keys
    ensures t - Purged(listing, storage, cache) == IntactRows(t, storage, cache)
  {
    PurgedMembers(listing, storage, cache);
    var purged := Purged(listing, storage, cache);
    forall k | k in t
      ensures k in purged <==> !Intact(t[k], storage, cache)
    {
      var j :| 0 <= j < |listing| && listing[j] == t[k];
      if k in purged {
        var j' :| 0 <= j' < |listing| && listing[j'].id == k && !Intact(listing[j'], storage, cache);
      }
    }
    forall k | k in purged
      ensures k in t
    {
      var j :| 0 <= j < |listing| && listing[j].id == k && !Intact(listing[j], storage, cache);
    }
  }

  /** What the cold read ends with: the table without the purged ids is the
      table of intact rows, and the kept references list it. */
  lemma ListingReconciled(listing: seq<PhotoEntity>, t: map<string, PhotoEntity>,
                          storage: map<string, nat>, cache: map<string, nat>)
    requires Lists(listing, t) && PhotoTable(t)
    ensures Purged(listing, storage, cache) == t.Keys - IntactRows(t, storage, cache).Keys
    ensures t - Purged(listing, storage, cache) == IntactRows(t, storage, cache)
    ensures ListsReferences(References(Kept(listing, storage, cache)), IntactRows(t, storage, cache))
  {
    PurgedRowsAreBroken(listing, t, storage, cache);
    KeptListsIntactRows(listing, t, storage, cache);
    ReferencesList(Kept(listing, storage, cache), IntactRows(t, storage, cache));
  }

  /** `refs` lists table `t` newest first, each row once, as references. */
  ghost predicate ListsReferences(refs: seq<PhotoReference>, t: map<string, PhotoEntity>) {
    && (forall i, j :: 0 <= i < j < |refs| ==> refs[i].timestamp >= refs[j].timestamp && refs[i].id != refs[j].id)
    && (forall i :: 0 <= i < |refs| ==> refs[i].id in t && refs[i] == ToReference(t[refs[i].id]))
    && (forall k :: k in t ==> ToReference(t[k]) in refs)
  }

  lemma ReferencesList(s: seq<PhotoEntity>, t: map<string, PhotoEntity>)
    requires Lists(s, t)
    ensures ListsReferences(References(s), t)
  {
    var r := References(s);
    forall k | k in t
      ensures ToReference(t[k]) in r
    {
      var j :| 0 <= j < |s| && s[j] == t[k];
      assert r[j] == ToReference(t[k]);
    }
  }

  /** Each file of every surviving reference exists. */
  lemma ReferencedFilesExist(refs: seq<PhotoReference>, t: map<string, PhotoEntity>,
                             storage: map<string, nat>, cache: map<string, nat>)
    requires ListsReferences(refs, IntactRows(t, storage, cache))
    ensures forall i :: 0 <= i < |refs| ==>
      PathExists(refs[i].optimizedPath, storage, cache) && PathExists(refs[i].thumbnailPath, storage, cache)
  {
  }

  /** Kotlin's `Char.isWhitespace`: Java whitespace plus the Unicode space separators. */
  predicate IsWhitespace(c: char) {
    || ('\t' <= c <= '\r')
    || ('\U{1C}' <= c <= '\U{1F}')
    || c == ' ' || c == '\U{A0}' || c == '\U{1680}'
    || ('\U{2000}' <= c <= '\U{200A}')
    || c == '\U{2028}' || c == '\U{2029}' || c == '\U{202F}' || c == '\U{205F}' || c == '\U{3000}'
  }

  /** Kotlin's `String.isBlank`: empty or whitespace only. */
  predicate IsBlank(s: string) {
    forall i :: 0 <= i < |s| ==> IsWhitespace(s[i])
  }

  /** A cache-area file the startup sweep deletes: a `*_thumb.jpg` whose
      derived id is non-empty and whose `<id>.jpg` is not in the storage area. */
  predicate IsOrphanThumbnail(name: string, storage: map<string, nat>) {
    EndsWith(name, ThumbnailSuffix) && ThumbnailId(name) != "" && OptimizedName(ThumbnailId(name)) !in storage
  }

  /** A thumbnail is swept exactly when its photo has no optimized file. */
  lemma OrphanThumbnailOfId(id: string, storage: map<string, nat>)
    ensures IsOrphanThumbnail(ThumbnailName(id), storage) <==> id != "" && OptimizedName(id) !in storage
  {
    ThumbnailIdRoundTrip(id);
  }

  class PhotoStorageManager {
    /** The storage area: file name to length. */
    var storageFiles: map<string, nat>
    /** The cache area: file name to length. */
    var cacheFiles: map<string, nat>
    const dao: PhotoIndex
    var cachedPhotos: Option<seq<PhotoReference>>
    var photoCacheTimestamp: int

    ghost predicate Valid()
      reads this, dao
    {
      dao.Valid()
    }

    constructor (dao: PhotoIndex, storageFiles: map<string, nat>, cacheFiles: map<string, nat>)
      requires dao.Valid()
      ensures Valid()
      ensures this.dao == dao && this.storageFiles == storageFiles && this.cacheFiles == cacheFiles
      ensures cachedPhotos == None && photoCacheTimestamp == 0
    {
      this.dao := dao;
      this.storageFiles := storageFiles;
      this.cacheFiles := cacheFiles;
      cachedPhotos := None;
      photoCacheTimestamp := 0;
    }

    /** `File.length()`: zero for a missing file. */
    function Length(p: FilePath): nat
      reads this
    {
      match p.area
      case StorageArea => if p.name in storageFiles then storageFiles[p.name] else 0
      case CacheArea => if p.name in cacheFiles then cacheFiles[p.name] else 0
    }

    /** Creates or truncates `p` and leaves `length` bytes in it. */
    method WriteFile(p: FilePath, length: nat)
      modifies this
      ensures p.area == StorageArea ==> storageFiles == old(storageFiles)[p.name := length] && cacheFiles == old(cacheFiles)
      ensures p.area == CacheArea ==> cacheFiles == old(cacheFiles)[p.name := length] && storageFiles == old(storageFiles)
      ensures cachedPhotos == old(cachedPhotos) && photoCacheTimestamp == old(photoCacheTimestamp)
    {
      if p.area == StorageArea {
        storageFiles := storageFiles[p.name := length];
      } else {
        cacheFiles := cacheFiles[p.name := length];
      }
    }

    /** `File.delete()` where the source ignores the result: the file is gone afterwards. */
    method DeleteFile(p: FilePath)
      modifies this
      ensures p.area == StorageArea ==> storageFiles == old(storageFiles) - {p.name} && cacheFiles == old(cacheFiles)
      ensures p.area == CacheArea ==> cacheFiles == old(cacheFiles) - {p.name} && storageFiles == old(storageFiles)
      ensures cachedPhotos == old(cachedPhotos) && photoCacheTimestamp == old(photoCacheTimestamp)
    {
      if p.area == StorageArea {
        storageFiles := storageFiles - {p.name};
      } else {
        cacheFiles := cacheFiles - {p.name};
      }
    }

    /** `compressImage` into `dest`, with the transcode outcome supplied. */
    method CompressImage(dest: FilePath, outcome: Transcode) returns (failure: Option<IngestError>)
      modifies this
      ensures failure.None? <==> outcome.Encoded?
      ensures failure.Some? ==> failure.value == TranscodeError(outcome)
      ensures storageFiles == if dest.area == StorageArea then Transcoded(old(storageFiles), dest.name, outcome) else old(storageFiles)
      ensures cacheFiles == if dest.area == CacheArea then Transcoded(old(cacheFiles), dest.name, outcome) else old(cacheFiles)
      ensures cachedPhotos == old(cachedPhotos) && photoCacheTimestamp == old(photoCacheTimestamp)
    {
      match outcome
      case DecodeFailure =>
        failure := Some(DecodeError);
      case OpenFailure =>
        failure := Some(OpenError);
      case EncodeFailure(written) =>
        WriteFile(dest, written);
        failure := Some(EncodeError);
      case Encoded(length) =>
        WriteFile(dest, length);
        failure := None;
    }

    /** `File.renameTo` within the storage area: fails when the platform
        refuses (`allowed` false) or the source is missing; otherwise the
        target takes the source's bytes and the source is gone. */
    method RenameTo(from: string, to: string, allowed: bool) returns (ok: bool)
      modifies this
      ensures ok <==> allowed && from in old(storageFiles)
      ensures ok ==> storageFiles == (old(storageFiles) - {from})[to := old(storageFiles)[from]]
      ensures !ok ==> storageFiles == old(storageFiles)
      ensures cacheFiles == old(cacheFiles)
      ensures cachedPhotos == old(cachedPhotos) && photoCacheTimestamp == old(photoCacheTimestamp)
    {
      ok := allowed && from in storageFiles;
      if ok {
        storageFiles := (storageFiles - {from})[to := storageFiles[from]];
      }
    }

    /** The `catch` block of ingest: delete the optimized, staging and thumbnail files of the id. */
    method Rollback(photoId: string)
      modifies this
      ensures storageFiles == old(storageFiles) - {OptimizedName(photoId), TempName(photoId)}
      ensures cacheFiles == old(cacheFiles) - {ThumbnailName(photoId)}
      ensures cachedPhotos == old(cachedPhotos) && photoCacheTimestamp == old(photoCacheTimestamp)
    {
      DeleteFile(OptimizedPath(photoId));
      DeleteFile(TempPath(photoId));
      DeleteFile(ThumbnailPath(photoId));
    }

    /** The `try` block of ingest: runs the checkpoints in order and stops at
        the first failure. Whatever happens, only the three files of the id
        may have changed. */
    method TryIngest(photoId: string, now: int, sourceLength: nat, availableBytes: int,
                     optimized: Transcode, renamed: bool, thumbnail: Transcode)
      returns (failure: Option<IngestError>)
      requires Valid()
      modifies this, dao
      ensures Valid()
      ensures cachedPhotos == old(cachedPhotos) && photoCacheTimestamp == old(photoCacheTimestamp)
      ensures dao.metadata == old(dao.metadata)
      ensures failure == IngestFailure(sourceLength, availableBytes, optimized, renamed, thumbnail, photoId in old(dao.photos))
      ensures storageFiles - {OptimizedName(photoId), TempName(photoId)} == old(storageFiles) - {OptimizedName(photoId), TempName(photoId)}
      ensures cacheFiles - {ThumbnailName(photoId)} == old(cacheFiles) - {ThumbnailName(photoId)}
      ensures failure.Some? ==> dao.photos == old(dao.photos)
      ensures failure.None? ==>
        && storageFiles == (old(storageFiles) - {TempName(photoId)})[OptimizedName(photoId) := optimized.length]
        && cacheFiles == old(cacheFiles)[ThumbnailName(photoId) := thumbnail.length]
        && dao.photos == old(dao.photos)[photoId := PhotoEntity(photoId, OptimizedPath(photoId), now)]
    {
      var optimizedFile := OptimizedPath(photoId);
      var thumbnailFile := ThumbnailPath(photoId);
      var tempOptimizedFile := TempPath(photoId);
      var timestamp := now;
      NamesDistinct(photoId, photoId);

      if sourceLength > availableBytes - StorageBuffer {
        return Some(InsufficientStorage);
      }

      failure := CompressImage(tempOptimizedFile, optimized);
      if failure.Some? {
        return;
      }

      var moved := RenameTo(tempOptimizedFile.name, optimizedFile.name, renamed);
      if !moved {
        DeleteFile(tempOptimizedFile);
        return Some(RenameFailed);
      }

      if !PathExists(optimizedFile, storageFiles, cacheFiles) || Length(optimizedFile) == 0 {
        DeleteFile(optimizedFile);
        return Some(OptimizedInvalid);
      }

      failure := CompressImage(thumbnailFile, thumbnail);
      if failure.Some? {
        return;
      }

      if !PathExists(thumbnailFile, storageFiles, cacheFiles) || Length(thumbnailFile) == 0 {
        DeleteFile(thumbnailFile);
        return Some(ThumbnailInvalid);
      }

      var inserted := dao.InsertPhoto(PhotoEntity(photoId, optimizedFile, timestamp));
      if !inserted {
        return Some(IndexInsertFailed);
      }
    }

    /** Ingest one source image as photo `photoId` at time `now`. On success
        both renditions exist and are non-empty, the staging file is gone and
        exactly one photo row was inserted; on any failure the three files of
        the id are deleted and the index is untouched. The source file itself
        is left to the caller. */
    method SavePhotoFromFile(photoId: string, now: int, sourceLength: nat, availableBytes: int,
                             optimized: Transcode, renamed: bool, thumbnail: Transcode)
      returns (r: Result<PhotoReference, IngestError>)
      requires Valid()
      modifies this, dao
      ensures Valid()
      ensures cachedPhotos == old(cachedPhotos) && photoCacheTimestamp == old(photoCacheTimestamp)
      ensures dao.metadata == old(dao.metadata)
      ensures var f := IngestFailure(sourceLength, availableBytes, optimized, renamed, thumbnail, photoId in old(dao.photos));
        (f.Some? ==> r == Failure(f.value)) && (f.None? ==> r.Success?)
      ensures r.Failure? ==>
        && storageFiles == old(storageFiles) - {OptimizedName(photoId), TempName(photoId)}
        && cacheFiles == old(cacheFiles) - {ThumbnailName(photoId)}
        && dao.photos == old(dao.photos)
      ensures r.Failure? && OptimizedName(photoId) !in old(storageFiles) && TempName(photoId) !in old(storageFiles)
              && ThumbnailName(photoId) !in old(cacheFiles) ==>
        storageFiles == old(storageFiles) && cacheFiles == old(cacheFiles)
      ensures r.Success? ==>
        && r.value == PhotoReference(photoId, OptimizedPath(photoId), ThumbnailPath(photoId), now)
        && optimized.Encoded? && optimized.length > 0 && thumbnail.Encoded? && thumbnail.length > 0
        && storageFiles == (old(storageFiles) - {TempName(photoId)})[OptimizedName(photoId) := optimized.length]
        && cacheFiles == old(cacheFiles)[ThumbnailName(photoId) := thumbnail.length]
        && photoId !in old(dao.photos)
        && dao.photos == old(dao.photos)[photoId := PhotoEntity(photoId, OptimizedPath(photoId), now)]
    {
      var failure := TryIngest(photoId, now, sourceLength, availableBytes, optimized, renamed, thumbnail);
      if failure.Some? {
        Rollback(photoId);
        r := Failure(failure.value);
      } else {
        r := Success(PhotoReference(photoId, OptimizedPath(photoId), ThumbnailPath(photoId), now));
      }
    }

    /** `savePhotoMetadata`: inserts the metadata row stamped with `now`; the
        insert aborts when the photo already has a metadata row. */
    method SavePhotoMetadata(photoId: string, latitude: Option<real>, longitude: Option<real>, address: Option<string>,
                             compassDirection: string, deviceOrientation: string, now: int)
      returns (ok: bool)
      requires Valid()
      modifies dao
      ensures Valid()
      ensures ok <==> photoId !in old(dao.metadata)
      ensures ok ==> (dao.GetPhotoMetadata(photoId) ==
        Some(PhotoMetadataEntity(photoId, latitude, longitude, address, compassDirection, deviceOrientation, now)))
      ensures ok ==> (dao.metadata ==
        old(dao.metadata)[photoId := PhotoMetadataEntity(photoId, latitude, longitude, address, compassDirection, deviceOrientation, now)])
      ensures !ok ==> dao.metadata == old(dao.metadata)
      ensures dao.photos == old(dao.photos)
    {
      var metadata := PhotoMetadataEntity(photoId, latitude, longitude, address, compassDirection, deviceOrientation, now);
      ok := dao.InsertPhotoMetadata(metadata);
    }

    /** The cached listing may be served at time `now`. */
    predicate CacheHit(now: int)
      reads this
    {
      cachedPhotos.Some? && now - photoCacheTimestamp < CacheValidityMs
    }

    /** The cold path of `getAllPhotos`: maps the index listing to references,
        keeping rows whose files both exist and purging the others from both
        tables. Files and cache fields are untouched. */
    method Reconcile() returns (photos: seq<PhotoReference>)
      requires Valid()
      modifies dao
      ensures Valid()
      ensures dao.photos == IntactRows(old(dao.photos), storageFiles, cacheFiles)
      ensures dao.metadata == old(dao.metadata) - (old(dao.photos).Keys - dao.photos.Keys)
      ensures ListsReferences(photos, dao.photos)
    {
      var entities := dao.GetAllPhotos();
      var storage, cache := storageFiles, cacheFiles;
      photos := [];
      var i := 0;
      while i < |entities|
        invariant 0 <= i <= |entities|
        invariant dao.Valid()
        invariant photos == References(Kept(entities[..i], storage, cache))
        invariant dao.photos == old(dao.photos) - Purged(entities[..i], storage, cache)
        invariant dao.metadata == old(dao.metadata) - Purged(entities[..i], storage, cache)
      {
        var entity := entities[i];
        KeptReferencesStep(entities, i, storage, cache);
        PurgedStep(entities, i, storage, cache);
        ghost var purged := Purged(entities[..i], storage, cache);
        if PathExists(entity.filePath, storage, cache) && PathExists(ThumbnailPath(entity.id), storage, cache) {
          photos := photos + [ToReference(entity)];
        } else {
          dao.DeletePhoto(entity.id);
          dao.DeletePhotoMetadata(entity.id);
          RemoveOneMore(old(dao.photos), purged, entity.id);
          RemoveOneMore(old(dao.metadata), purged, entity.id);
        }
        i := i + 1;
      }
      assert entities[..i] == entities;
      ListingReconciled(entities, old(dao.photos), storage, cache);
    }

    /** `getAllPhotos(limit, offset)` at time `now`. A fresh cache is served
        windowed and nothing changes. Otherwise the listing is rebuilt from
        the index: rows missing a file are dropped from the result and purged
        from both tables, the full result becomes the cache stamped `now`, and
        the window of it is returned. */
    method GetAllPhotos(limit: nat, offset: nat, now: int) returns (page: seq<PhotoReference>)
      requires Valid()
      modifies this, dao
      ensures Valid()
      ensures storageFiles == old(storageFiles) && cacheFiles == old(cacheFiles)
      ensures old(CacheHit(now)) ==>
        && page == Window(old(cachedPhotos).value, offset, limit)
        && cachedPhotos == old(cachedPhotos) && photoCacheTimestamp == old(photoCacheTimestamp)
        && dao.photos == old(dao.photos) && dao.metadata == old(dao.metadata)
      ensures !old(CacheHit(now)) ==>
        && cachedPhotos.Some? && photoCacheTimestamp == now
        && page == Window(cachedPhotos.value, offset, limit)
        && dao.photos == IntactRows(old(dao.photos), storageFiles, cacheFiles)
        && dao.metadata == old(dao.metadata) - (old(dao.photos).Keys - dao.photos.Keys)
        && ListsReferences(cachedPhotos.value, dao.photos)
    {
      if CacheHit(now) {
        return Window(cachedPhotos.value, offset, limit);
      }
      var photos := Reconcile();
      cachedPhotos := Some(photos);
      photoCacheTimestamp := now;
      page := Window(photos, offset, limit);
    }

    /** `deletePhoto(photoId)`. A blank id is refused. A missing file counts
        as deleted; `optimizedDeletes` / `thumbnailDeletes` say whether the
        platform lets an existing file be deleted. When at least one file
        counts as deleted, both rows of the id are removed and the cache is
        cleared. The result is true exactly when both files are gone. */
    method DeletePhoto(photoId: string, optimizedDeletes: bool, thumbnailDeletes: bool) returns (ok: bool)
      requires Valid()
      modifies this, dao
      ensures Valid()
      ensures ok <==> !IsBlank(photoId) && OptimizedName(photoId) !in storageFiles && ThumbnailName(photoId) !in cacheFiles
      ensures !IsBlank(photoId) && OptimizedName(photoId) !in old(storageFiles) && ThumbnailName(photoId) !in old(cacheFiles) ==> ok
      ensures IsBlank(photoId) ==>
        && storageFiles == old(storageFiles) && cacheFiles == old(cacheFiles)
        && cachedPhotos == old(cachedPhotos) && photoCacheTimestamp == old(photoCacheTimestamp)
        && dao.photos == old(dao.photos) && dao.metadata == old(dao.metadata)
      ensures !IsBlank(photoId) ==>
        var optimizedGone := OptimizedName(photoId) !in old(storageFiles) || optimizedDeletes;
        var thumbnailGone := ThumbnailName(photoId) !in old(cacheFiles) || thumbnailDeletes;
        && storageFiles == (if optimizedGone then old(storageFiles) - {OptimizedName(photoId)} else old(storageFiles))
        && cacheFiles == (if thumbnailGone then old(cacheFiles) - {ThumbnailName(photoId)} else old(cacheFiles))
        && (optimizedGone || thumbnailGone ==>
              && dao.photos == old(dao.photos) - {photoId} && dao.metadata == old(dao.metadata) - {photoId}
              && cachedPhotos == None && photoCacheTimestamp == 0)
        && (!optimizedGone && !thumbnailGone ==>
              && dao.photos == old(dao.photos) && dao.metadata == old(dao.metadata)
              && cachedPhotos == old(cachedPhotos) && photoCacheTimestamp == old(photoCacheTimestamp))
    {
      if IsBlank(photoId) {
        return false;
      }
      var optimizedFile := OptimizedPath(photoId);
      var thumbnailFile := ThumbnailPath(photoId);

      var deletedOptimized := false;
      if PathExists(optimizedFile, storageFiles, cacheFiles) {
        if optimizedDeletes {
          DeleteFile(optimizedFile);
        }
        deletedOptimized := optimizedDeletes;
      } else {
        deletedOptimized := true;
      }

      var deletedThumbnail := false;
      if PathExists(thumbnailFile, storageFiles, cacheFiles) {
        if thumbnailDeletes {
          DeleteFile(thumbnailFile);
        }
        deletedThumbnail := thumbnailDeletes;
      } else {
        deletedThumbnail := true;
      }

      if deletedOptimized || deletedThumbnail {
        dao.DeletePhoto(photoId);
        dao.DeletePhotoMetadata(photoId);
        cachedPhotos := None;
        photoCacheTimestamp := 0;
      }

      ok := deletedOptimized && deletedThumbnail;
    }

    /** `findOrphanedThumbnails`: the cache-area thumbnails whose photo has no
        optimized file, each once, in directory order. */
    method FindOrphanedThumbnails() returns (orphans: seq<string>)
      ensures forall n :: n in orphans <==> n in cacheFiles && IsOrphanThumbnail(n, storageFiles)
      ensures forall i, j :: 0 <= i < j < |orphans| ==> orphans[i] != orphans[j]
    {
      orphans := [];
      var allThumbnails := set n | n in cacheFiles && EndsWith(n, ThumbnailSuffix);
      var pending := allThumbnails;
      while pending != {}
        invariant pending <= allThumbnails
        invariant forall n :: n in orphans <==> n in allThumbnails && n !in pending && IsOrphanThumbnail(n, storageFiles)
        invariant forall i, j :: 0 <= i < j < |orphans| ==> orphans[i] != orphans[j]
        decreases pending
      {
        var thumbnailFile :| thumbnailFile in pending;
        var photoId := ThumbnailId(thumbnailFile);
        if photoId != "" {
          if OptimizedName(photoId) !in storageFiles {
            orphans := orphans + [thumbnailFile];
          }
        }
        pending := pending - {thumbnailFile};
      }
    }

    /** The startup sweep: deletes exactly the orphaned thumbnails; no other
        file, row or cache field changes. */
    method CleanupOrphanedThumbnails()
      modifies this
      ensures storageFiles == old(storageFiles)
      ensures cacheFiles == map n | n in old(cacheFiles) && !IsOrphanThumbnail(n, storageFiles) :: old(cacheFiles)[n]
      ensures forall n :: n in cacheFiles ==> !IsOrphanThumbnail(n, storageFiles)
      ensures cachedPhotos == old(cachedPhotos) && photoCacheTimestamp == old(photoCacheTimestamp)
    {
      var orphans := FindOrphanedThumbnails();
      for i := 0 to |orphans|
        invariant storageFiles == old(storageFiles)
        invariant forall n :: n in cacheFiles <==> n in old(cacheFiles) && n !in orphans[..i]
        invariant forall n :: n in cacheFiles ==> cacheFiles[n] == old(cacheFiles)[n]
        invariant cachedPhotos == old(cachedPhotos) && photoCacheTimestamp == old(photoCacheTimestamp)
      {
        assert orphans[..i + 1] == orphans[..i] + [orphans[i]];
        DeleteFile(FilePath(CacheArea, orphans[i]));
      }
      assert orphans[..|orphans|] == orphans;
    }
  }
}
