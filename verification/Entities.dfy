/**
 * The two rows of the photo index. Both are immutable records; each table
 * is keyed by its primary key, so a table is a map from that key to the row.
 */
module Entities {

  import opened Wrappers
  import opened Paths

  /** A row of table `photos`, keyed by `id`. `filePath` is the optimized image. */
  datatype PhotoEntity = PhotoEntity(id: string, filePath: FilePath, timestamp: int)

  /** A row of table `photo_metadata`, keyed by `photoId`. Coordinates and
      address are optional; compass direction and device orientation are not. */
  datatype PhotoMetadataEntity = PhotoMetadataEntity(
    photoId: string,
    latitude: Option<real>,
    longitude: Option<real>,
    address: Option<string>,
    compassDirection: string,
    deviceOrientation: string,
    timestamp: int)

  /** Table `photos`: every row sits under its own primary key. */
  ghost predicate PhotoTable(t: map<string, PhotoEntity>) {
    forall k :: k in t ==> t[k].id == k
  }

  /** Table `photo_metadata`: every row sits under its own primary key. */
  ghost predicate MetadataTable(t: map<string, PhotoMetadataEntity>) {
    forall k :: k in t ==> t[k].photoId == k
  }

  /** The primary key admits at most one photo row per id. */
  lemma AtMostOnePhotoRow(t: map<string, PhotoEntity>, a: PhotoEntity, b: PhotoEntity)
    requires PhotoTable(t) && a in t.Values && b in t.Values
    requires a.id == b.id
    ensures a == b
  {
    var ka :| ka in t && t[ka] == a;
    var kb :| kb in t && t[kb] == b;
  }

  /** The primary key admits at most one metadata row per photo. */
  lemma AtMostOneMetadataRow(t: map<string, PhotoMetadataEntity>, a: PhotoMetadataEntity, b: PhotoMetadataEntity)
    requires MetadataTable(t) && a in t.Values && b in t.Values
    requires a.photoId == b.photoId
    ensures a == b
  {
    var ka :| ka in t && t[ka] == a;
    var kb :| kb in t && t[kb] == b;
  }
}
