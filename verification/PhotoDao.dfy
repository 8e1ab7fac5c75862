/**
 * The two-table photo index behind the DAO interface: `photos` and
 * `photo_metadata`, each keyed by photo id. Inserts and deletes change the
 * tables in place; the listing queries return rows ordered by timestamp,
 * newest first.
 */
module PhotoDao {

  import opened Wrappers
  import opened Paths
  import opened Entities

  /** A row of the left join of `photos` with `photo_metadata`; the metadata
      columns are null when the photo has no metadata row. */
  datatype PhotoWithMetadata = PhotoWithMetadata(
    id: string,
    filePath: FilePath,
    timestamp: int,
    latitude: Option<real>,
    longitude: Option<real>,
    address: Option<string>,
    compassDirection: Option<string>,
    deviceOrientation: Option<string>)

  ghost predicate SortedByTimeDesc(s: seq<PhotoEntity>) {
    forall i, j :: 0 <= i < j < |s| ==> s[i].timestamp >= s[j].timestamp
  }

  ghost predicate DistinctIds(s: seq<PhotoEntity>) {
    forall i, j :: 0 <= i < j < |s| ==> s[i].id != s[j].id
  }

  /** `s` is a valid answer to `SELECT * FROM photos ORDER BY timestamp DESC`
      on table `t`: every row exactly once, newest first (ties in any order). */
  ghost predicate Lists(s: seq<PhotoEntity>, t: map<string, PhotoEntity>) {
    && SortedByTimeDesc(s)
    && DistinctIds(s)
    && (forall i :: 0 <= i < |s| ==> s[i].id in t && t[s[i].id] == s[i])
    && (forall k :: k in t ==> t[k] in s)
  }

  /** Inserts `p` into a newest-first sequence before the first older row. */
  function InsertByTime(p: PhotoEntity, s: seq<PhotoEntity>): (r: seq<PhotoEntity>)
    ensures |r| == |s| + 1
    ensures forall x :: x in r <==> x == p || x in s
    ensures r[0] == p || (s != [] && r[0] == s[0])
    ensures SortedByTimeDesc(s) ==> SortedByTimeDesc(r)
  {
    if s == [] then [p]
    else if p.timestamp >= s[0].timestamp then [p] + s
    else [s[0]] + InsertByTime(p, s[1..])
  }

  /** The insertion adds exactly one copy of `p` and drops nothing. */
  lemma {:induction false} InsertByTimePermutes(p: PhotoEntity, s: seq<PhotoEntity>)
    ensures multiset(InsertByTime(p, s)) == multiset(s) + multiset{p}
  {
    if s != [] && p.timestamp < s[0].timestamp {
      InsertByTimePermutes(p, s[1..]);
      assert s == [s[0]] + s[1..];
    }
  }

  /** Inserting a row whose id is new keeps the ids distinct. */
  lemma {:induction false} InsertByTimeDistinct(p: PhotoEntity, s: seq<PhotoEntity>)
    requires DistinctIds(s)
    requires forall i :: 0 <= i < |s| ==> s[i].id != p.id
    ensures DistinctIds(InsertByTime(p, s))
  {
    if s != [] && p.timestamp < s[0].timestamp {
      var tail := s[1..];
      InsertByTimeDistinct(p, tail);
      var rest := InsertByTime(p, tail);
      forall j | 0 <= j < |rest|
        ensures rest[j].id != s[0].id
      {
        if rest[j] != p {
          assert rest[j] in tail;
          var k :| 0 <= k < |tail| && tail[k] == rest[j];
          assert s[k + 1] == rest[j];
        }
      }
    }
  }

  /** The row the left join produces for photo row `p`. */
  function JoinRow(p: PhotoEntity, metadata: map<string, PhotoMetadataEntity>): (r: PhotoWithMetadata)
    ensures r.id == p.id && r.filePath == p.filePath && r.timestamp == p.timestamp
    ensures r.compassDirection.Some? <==> p.id in metadata
    ensures p.id !in metadata ==> r.latitude.None? && r.longitude.None? && r.address.None? && r.deviceOrientation.None?
    ensures p.id in metadata ==>
      var m := metadata[p.id];
      && r.latitude == m.latitude && r.longitude == m.longitude && r.address == m.address
      && r.compassDirection == Some(m.compassDirection) && r.deviceOrientation == Some(m.deviceOrientation)
  {
    if p.id in metadata then
      var m := metadata[p.id];
      PhotoWithMetadata(p.id, p.filePath, p.timestamp, m.latitude, m.longitude, m.address,
                        Some(m.compassDirection), Some(m.deviceOrientation))
    else
      PhotoWithMetadata(p.id, p.filePath, p.timestamp, None, None, None, None, None)
  }

  class PhotoIndex {
    var photos: map<string, PhotoEntity>
    var metadata: map<string, PhotoMetadataEntity>

    ghost predicate Valid()
      reads this
    {
      PhotoTable(photos) && MetadataTable(metadata)
    }

    constructor ()
      ensures Valid() && photos == map[] && metadata == map[]
    {
      photos := map[];
      metadata := map[];
    }

    /** `@Insert` with the default conflict strategy: a row whose key is
        already present aborts and leaves the table unchanged. */
    method InsertPhoto(photo: PhotoEntity) returns (ok: bool)
      requires Valid()
      modifies this
      ensures Valid()
      ensures ok <==> photo.id !in old(photos)
      ensures photos == if ok then old(photos)[photo.id := photo] else old(photos)
      ensures metadata == old(metadata)
    {
      ok := photo.id !in photos;
      if ok {
        photos := photos[photo.id := photo];
      }
    }

    method InsertPhotoMetadata(m: PhotoMetadataEntity) returns (ok: bool)
      requires Valid()
      modifies this
      ensures Valid()
      ensures ok <==> m.photoId !in old(metadata)
      ensures metadata == if ok then old(metadata)[m.photoId := m] else old(metadata)
      ensures photos == old(photos)
    {
      ok := m.photoId !in metadata;
      if ok {
        metadata := metadata[m.photoId := m];
      }
    }

    /** `SELECT * FROM photo_metadata WHERE photoId = :photoId`: the one row
        for the id, or null. */
    function GetPhotoMetadata(photoId: string): (r: Option<PhotoMetadataEntity>)
      requires Valid()
      reads this
      ensures r.Some? <==> photoId in metadata
      ensures r.Some? ==> r.value.photoId == photoId && r.value in metadata.Values
    {
      if photoId in metadata then Some(metadata[photoId]) else None
    }

    /** `DELETE FROM photos WHERE id = :photoId`: a no-op when absent. */
    method DeletePhoto(photoId: string)
      requires Valid()
      modifies this
      ensures Valid()
      ensures photos == old(photos) - {photoId}
      ensures metadata == old(metadata)
    {
      photos := photos - {photoId};
    }

    /** `DELETE FROM photo_metadata WHERE photoId = :photoId`: a no-op when absent. */
    method DeletePhotoMetadata(photoId: string)
      requires Valid()
      modifies this
      ensures Valid()
      ensures metadata == old(metadata) - {photoId}
      ensures photos == old(photos)
    {
      metadata := metadata - {photoId};
    }

    /** `SELECT * FROM photos ORDER BY timestamp DESC`. The loop stands for the
        query engine; it visits rows in an unspecified order, so rows with equal
        timestamps come back in an unspecified order, as SQL leaves them. */
    method GetAllPhotos() returns (s: seq<PhotoEntity>)
      requires Valid()
      ensures Lists(s, photos)
    {
      s := [];
      var pending := photos.Keys;
      while pending != {}
        invariant pending <= photos.Keys
        invariant SortedByTimeDesc(s) && DistinctIds(s)
        invariant forall i :: 0 <= i < |s| ==> s[i].id in photos && s[i].id !in pending && photos[s[i].id] == s[i]
        invariant forall k :: k in photos && k !in pending ==> photos[k] in s
        decreases pending
      {
        var k :| k in pending;
        InsertByTimeDistinct(photos[k], s);
        var s' := InsertByTime(photos[k], s);
        forall i | 0 <= i < |s'|
          ensures s'[i].id in photos && s'[i].id !in pending - {k} && photos[s'[i].id] == s'[i]
        {
          if s'[i] != photos[k] {
            assert s'[i] in s;
            var j :| 0 <= j < |s| && s[j] == s'[i];
          }
        }
        s := s';
        pending := pending - {k};
      }
    }

    /** The left join of `photos` with `photo_metadata`, newest photo first:
        exactly one row per photo row, metadata columns from the matching
        metadata row or null. */
    method GetPhotosWithMetadata() returns (rows: seq<PhotoWithMetadata>)
      requires Valid()
      ensures forall i, j :: 0 <= i < j < |rows| ==> rows[i].timestamp >= rows[j].timestamp
      ensures forall i, j :: 0 <= i < j < |rows| ==> rows[i].id != rows[j].id
      ensures forall k :: k in photos ==> exists i :: 0 <= i < |rows| && rows[i].id == k
      ensures forall i :: 0 <= i < |rows| ==> rows[i].id in photos && rows[i] == JoinRow(photos[rows[i].id], metadata)
    {
      var s := GetAllPhotos();
      var m := metadata;
      rows := seq(|s|, i requires 0 <= i < |s| => JoinRow(s[i], m));
      forall k | k in photos
        ensures exists i :: 0 <= i < |rows| && rows[i].id == k
      {
        var i :| 0 <= i < |s| && s[i] == photos[k];
        assert rows[i].id == k;
      }
    }
  }
}
