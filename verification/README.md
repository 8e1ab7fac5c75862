# Photo store model

A Dafny model of the local photo store of an Android camera app. Captured
images are ingested into two renditions, an optimized JPEG in the durable
storage area and a thumbnail in the evictable cache area. One row per photo
goes into an index of two tables, `photos` and `photo_metadata`. The store
lists photos newest first through a five-second listing cache and purges
index rows whose files have disappeared. It deletes photos, sweeps away
orphaned thumbnails at startup, and labels compass headings.

Modules:

- `Paths`: the naming of a photo's three files (`<id>.jpg`, `<id>_thumb.jpg`, `<id>_opt.tmp`) and the parsing of a thumbnail name back to its id.
- `Entities`: the two index rows, `PhotoEntity` and `PhotoMetadataEntity`.
- `PhotoDao`: the index as the class `PhotoIndex`. Each table is a map from primary key to row. It has the listing queries and the `LEFT JOIN` row `PhotoWithMetadata`.
- `StorageManager`: the class `PhotoStorageManager`. Each area is a map from file name to length. It holds the index and the listing-cache fields. It covers ingest with rollback, metadata save, the cached listing with purge, delete, and the orphan sweep.
- `SampleSize`: the decoder downsample factor `calculateInSampleSize`.
- `Compass`: `formatCompassDirection`.

The clock, the free space, the photo id, each image transcode's outcome, the
rename's outcome and the outcome of each file deletion the code inspects are
all parameters of the operations.

Ingest never deletes the source image. The capture screen deletes it after
a successful ingest (`app/src/main/java/com/example/myapplication/MainActivity.kt:120-121`), and nobody deletes it on
failure.

## Model

| member | source | states |
|---|---|---|
| Paths.OptimizedPath | app/src/main/java/com/example/myapplication/PhotoStorageManager.kt:46 | the optimized file is `<id>.jpg` in the storage area |
| Paths.ThumbnailPath | app/src/main/java/com/example/myapplication/PhotoStorageManager.kt:47 | the thumbnail is `<id>_thumb.jpg` in the cache area |
| Paths.TempPath | app/src/main/java/com/example/myapplication/PhotoStorageManager.kt:48 | the staging file is `<id>_opt.tmp` in the storage area |
| Paths.SuffixInjective | app/src/main/java/com/example/myapplication/PhotoStorageManager.kt:45-48 | equal names with the same suffix come from equal ids |
| Paths.NamesDistinct | app/src/main/java/com/example/myapplication/PhotoStorageManager.kt:45-48 | each naming is injective in the id, and no optimized name equals a staging name, so the files of one photo never collide with another's |
| Paths.RemoveSuffix | app/src/main/java/com/example/myapplication/PhotoStorageManager.kt:249 | `removeSuffix` strips the suffix exactly when the string ends with it, and otherwise returns the string unchanged |
| Paths.LastDot | app/src/main/java/com/example/myapplication/PhotoStorageManager.kt:249 | the position `nameWithoutExtension` cuts at is the last '.' in the name, or there is no '.' |
| Paths.ThumbnailIdRoundTrip | app/src/main/java/com/example/myapplication/PhotoStorageManager.kt:249 | parsing the thumbnail name of an id gives back that id |
| Paths.ThumbnailNameOfId | app/src/main/java/com/example/myapplication/PhotoStorageManager.kt:246-249 | every listed `*_thumb.jpg` name is the thumbnail name of the id parsed from it |
| Entities.AtMostOnePhotoRow | app/src/main/java/com/example/myapplication/PhotoMetadataEntity.kt:6-11 | the primary key `id` identifies at most one photo row |
| Entities.AtMostOneMetadataRow | app/src/main/java/com/example/myapplication/PhotoMetadataEntity.kt:13-22 | the primary key `photoId` identifies at most one metadata row |
| PhotoDao.InsertByTime | app/src/main/java/com/example/myapplication/PhotoDao.kt:7-8 | inserting a row into a newest-first listing keeps it newest first; the result is one longer and holds that row and the listed ones |
| PhotoDao.InsertByTimePermutes | app/src/main/java/com/example/myapplication/PhotoDao.kt:7-8 | the insertion is a permutation of the listing plus one copy of the row |
| PhotoDao.InsertByTimeDistinct | app/src/main/java/com/example/myapplication/PhotoDao.kt:7-8 | inserting a row with a new id keeps every id listed once |
| PhotoDao.JoinRow | app/src/main/java/com/example/myapplication/PhotoDao.kt:25-43 | a joined row carries the photo's columns; its metadata columns are present exactly when the photo has a metadata row, and then they equal that row's columns |
| PhotoDao.PhotoIndex.constructor | app/src/main/java/com/example/myapplication/PhotoDao.kt:5-6 | a fresh index has both tables empty |
| PhotoDao.PhotoIndex.InsertPhoto | app/src/main/java/com/example/myapplication/PhotoDao.kt:10-11 | the insert succeeds exactly when the id is new, then adds the row; a duplicate key changes nothing |
| PhotoDao.PhotoIndex.InsertPhotoMetadata | app/src/main/java/com/example/myapplication/PhotoDao.kt:13-14 | the same for a metadata row, keyed by `photoId` |
| PhotoDao.PhotoIndex.GetPhotoMetadata | app/src/main/java/com/example/myapplication/PhotoDao.kt:16-17 | returns a row exactly when one has that `photoId`, and then the row of the table with that key |
| PhotoDao.PhotoIndex.DeletePhoto | app/src/main/java/com/example/myapplication/PhotoDao.kt:19-20 | removes the photo row with that id and nothing else |
| PhotoDao.PhotoIndex.DeletePhotoMetadata | app/src/main/java/com/example/myapplication/PhotoDao.kt:22-23 | removes the metadata row with that id and nothing else |
| PhotoDao.PhotoIndex.GetAllPhotos | app/src/main/java/com/example/myapplication/PhotoDao.kt:7-8 | the result lists every photo row exactly once, newest first |
| PhotoDao.PhotoIndex.GetPhotosWithMetadata | app/src/main/java/com/example/myapplication/PhotoDao.kt:25-31 | one joined row per photo, newest first, each id once, each row the join of its photo with its metadata |
| StorageManager.IngestFailure | app/src/main/java/com/example/myapplication/PhotoStorageManager.kt:51-95 | ingest fails exactly when a checkpoint fails: capacity, transcode, rename, empty optimized file, thumbnail transcode, empty thumbnail, duplicate key; short space always reports insufficient storage |
| StorageManager.Window | app/src/main/java/com/example/myapplication/PhotoStorageManager.kt:156-157 | `drop(offset).take(limit)`: the length is the smaller of the limit and what remains after the offset, and entry i is entry offset+i of the listing |
| StorageManager.PaginationExample | app/src/main/java/com/example/myapplication/PhotoStorageManager.kt:156-157 | a window of 2 at offset 1 over five photos is the second and third photo |
| StorageManager.References | app/src/main/java/com/example/myapplication/PhotoStorageManager.kt:161-172 | each listing entry becomes the reference with the same id, path and timestamp and the recomputed thumbnail path |
| StorageManager.IntactRows | app/src/main/java/com/example/myapplication/PhotoStorageManager.kt:166 | the purged table holds exactly the rows whose optimized file and thumbnail both exist, unchanged |
| StorageManager.KeptReferencesStep | app/src/main/java/com/example/myapplication/PhotoStorageManager.kt:161-186 | each listed row adds its reference to the result exactly when both its files exist |
| StorageManager.KeptMembers | app/src/main/java/com/example/myapplication/PhotoStorageManager.kt:161-186 | a row is in the result exactly when it is listed and both its files exist |
| StorageManager.KeptOrder | app/src/main/java/com/example/myapplication/PhotoStorageManager.kt:161-186 | `mapNotNull` keeps the newest-first order and the distinct ids |
| StorageManager.KeptListsIntactRows | app/src/main/java/com/example/myapplication/PhotoStorageManager.kt:161-186 | the kept rows list the purged table |
| StorageManager.PurgedStep | app/src/main/java/com/example/myapplication/PhotoStorageManager.kt:173-177 | each listed row with a missing file adds its id to the purged set, and an intact one adds nothing |
| StorageManager.PurgedMembers | app/src/main/java/com/example/myapplication/PhotoStorageManager.kt:173-177 | an id is purged exactly when some listed row with that id misses a file |
| StorageManager.PurgedRowsAreBroken | app/src/main/java/com/example/myapplication/PhotoStorageManager.kt:173-177 | the purged ids are exactly the table's rows missing a file, and removing them leaves exactly the intact rows |
| StorageManager.ListingReconciled | app/src/main/java/com/example/myapplication/PhotoStorageManager.kt:160-186 | after the cold read the index holds exactly the intact rows and the result lists them newest first |
| StorageManager.ReferenceThumbnailOfRow | app/src/main/java/com/example/myapplication/PhotoStorageManager.kt:163-172 | a reference keeps its row's id, path and time, and its thumbnail is the cache-area file that parses back to the same id |
| StorageManager.ReferencesList | app/src/main/java/com/example/myapplication/PhotoStorageManager.kt:161-172 | references of a listing of a table list that table |
| StorageManager.ReferencedFilesExist | app/src/main/java/com/example/myapplication/PhotoStorageManager.kt:166-172 | both files of every reference in a cold listing exist |
| StorageManager.OrphanThumbnailOfId | app/src/main/java/com/example/myapplication/PhotoStorageManager.kt:249-253 | the thumbnail of a photo is an orphan exactly when the id is non-empty and its `<id>.jpg` is missing |
| StorageManager.PhotoStorageManager.constructor | app/src/main/java/com/example/myapplication/PhotoStorageManager.kt:147-148 | the store starts with an empty listing cache and timestamp 0 |
| StorageManager.PhotoStorageManager.CompressImage | app/src/main/java/com/example/myapplication/PhotoStorageManager.kt:211-236 | fails exactly when the transcode fails; a decode or open failure leaves the destination untouched; an encode failure leaves the partial file; success leaves the encoded file |
| StorageManager.PhotoStorageManager.RenameTo | app/src/main/java/com/example/myapplication/PhotoStorageManager.kt:67-70 | the rename succeeds exactly when it is allowed and the staging file exists; the staging file then becomes the optimized file, and otherwise nothing changes |
| StorageManager.PhotoStorageManager.Rollback | app/src/main/java/com/example/myapplication/PhotoStorageManager.kt:104-109 | the catch block removes the optimized, staging and thumbnail files of the id, and nothing else |
| StorageManager.PhotoStorageManager.TryIngest | app/src/main/java/com/example/myapplication/PhotoStorageManager.kt:51-103 | the try block reports the first failing checkpoint; it touches only the id's three files, and on success it publishes both renditions, removes the staging file and inserts the row |
| StorageManager.PhotoStorageManager.SavePhotoFromFile | app/src/main/java/com/example/myapplication/PhotoStorageManager.kt:43-111 | ingest succeeds exactly when every checkpoint passes. On failure the id's files are gone and the index is unchanged, and for a fresh id nothing changed at all. On success both renditions are non-empty, the staging file is gone and exactly one row was added |
| StorageManager.PhotoStorageManager.SavePhotoMetadata | app/src/main/java/com/example/myapplication/PhotoStorageManager.kt:113-133 | the metadata row is stored exactly when the photo has none, and reading it back gives the saved columns with the save time; photo rows do not change |
| StorageManager.PhotoStorageManager.Reconcile | app/src/main/java/com/example/myapplication/PhotoStorageManager.kt:160-186 | the cold read drops every row missing a file from both tables and keeps the rest; the result lists the remaining rows newest first |
| StorageManager.PhotoStorageManager.GetAllPhotos | app/src/main/java/com/example/myapplication/PhotoStorageManager.kt:151-192 | a fresh cache (under 5000 ms old) is served windowed with nothing changed; otherwise the cold read runs, its full result is cached with the current time, and its window is returned |
| StorageManager.PhotoStorageManager.DeletePhoto | app/src/main/java/com/example/myapplication/PhotoStorageManager.kt:269-323 | a blank id changes nothing and returns false. A missing file counts as deleted. If either file counts as deleted, both rows go and the cache is cleared. The result is true exactly when both files are gone afterwards |
| StorageManager.PhotoStorageManager.FindOrphanedThumbnails | app/src/main/java/com/example/myapplication/PhotoStorageManager.kt:243-258 | the result lists each cache file that is an orphaned thumbnail, once |
| StorageManager.PhotoStorageManager.CleanupOrphanedThumbnails | app/src/main/java/com/example/myapplication/PhotoStorageManager.kt:260-267 | deletes exactly the orphaned thumbnails; every other file and the cache fields are unchanged |
| SampleSize.CalculateInSampleSize | app/src/main/java/com/example/myapplication/PhotoStorageManager.kt:194-209 | with integer division truncating toward zero: 1 when the image already fits; otherwise the least power of two at which a half-dimension divided by it falls below its bound; never above a bounded dimension, unless 1 |
| SampleSize.PowerOfTwoBelowDouble | app/src/main/java/com/example/myapplication/PhotoStorageManager.kt:204-205 | a power of two below twice another is at most it, so doubling skips no candidate |
| SampleSize.GuardBelowDouble | app/src/main/java/com/example/myapplication/PhotoStorageManager.kt:204-205 | when the guard holds at the current factor, it holds at every power of two below its double, which is the next factor |
| SampleSize.QuotientAtLeastOne | app/src/main/java/com/example/myapplication/PhotoStorageManager.kt:204 | a truncated quotient of at least one means the dividend is at least the divisor |
| SampleSize.SampleSizeUnique | app/src/main/java/com/example/myapplication/PhotoStorageManager.kt:194-209 | the characterisation determines the factor |
| SampleSize.LargePhotoExample | app/src/main/java/com/example/myapplication/PhotoStorageManager.kt:194-209 | an 8000x6000 image bounded by 2048x2048 is decoded at factor 2 |
| Compass.SectorIndex | app/src/main/java/com/example/myapplication/LocationOrientationManager.kt:185 | the sector index is one of the eight directions |
| Compass.SectorIndexMatchesRealFormula | app/src/main/java/com/example/myapplication/LocationOrientationManager.kt:185 | the integer index equals `((degrees + 22.5) / 45).toInt() % 8` |
| Compass.DecimalString | app/src/main/java/com/example/myapplication/LocationOrientationManager.kt:199 | the printed deviation is a non-empty string of digits with no leading zero |
| Compass.DecimalRoundTrip | app/src/main/java/com/example/myapplication/LocationOrientationManager.kt:199 | reading the printed deviation back gives the deviation |
| Compass.Label | app/src/main/java/com/example/myapplication/LocationOrientationManager.kt:186-200 | the label ends with the sector's direction name, and is that bare name exactly when the sector is intercardinal or the deviation is at most 5 |
| Compass.FormatCompassDirection | app/src/main/java/com/example/myapplication/LocationOrientationManager.kt:174-201 | the label of a heading ends with the name of the sector the heading falls in |
| Compass.IntercardinalIsBareName | app/src/main/java/com/example/myapplication/LocationOrientationManager.kt:188-193 | an intercardinal sector is reported by its bare name |
| Compass.CardinalLabel | app/src/main/java/com/example/myapplication/LocationOrientationManager.kt:188-200 | a cardinal sector within 5 degrees gives its bare name; further out it gives the absolute deviation, then "° from", then the name |
| Compass.LabelShape | app/src/main/java/com/example/myapplication/LocationOrientationManager.kt:174-201 | every label is a direction name, or a deviation above 5 followed by "° from" and a cardinal name |
| Compass.BareNameExamples | app/src/main/java/com/example/myapplication/LocationOrientationManager.kt:174-201 | 0 is North, 45 is Northeast and 93 is East |
| Compass.DeviationExample | app/src/main/java/com/example/myapplication/LocationOrientationManager.kt:196-200 | 100 is "10° from East" |
| Compass.NorthDeviationNotWrapped | app/src/main/java/com/example/myapplication/LocationOrientationManager.kt:185-199 | as written, a heading of 350 is labelled "350° from North" |
| Compass.WrappedDeviation | app/src/main/java/com/example/myapplication/LocationOrientationManager.kt:188-194 | measured the short way round, a cardinal deviation is at most 22 degrees |
| Compass.WrappedLabelWithinHalfSector | app/src/main/java/com/example/myapplication/LocationOrientationManager.kt:188-200 | with wrapping, no label reports more than 22 degrees, and 350 is "10° from North" |

## Left out

- Coroutines, `withContext(Dispatchers.IO)` and concurrent calls: each operation is one atomic step. The startup sweep launched from `init` is the separate method `CleanupOrphanedThumbnails`.
- Bitmap decoding and JPEG encoding are not modelled: each transcode's outcome is a parameter. The quality settings 85 and 80 and the bounds 2048 and 200 that `compressImage` passes to the decoder have no effect in the model.
- `StatFs`, `System.currentTimeMillis` and `UUID.randomUUID` are parameters. A fresh id is not assumed: a duplicate key is handled as the insert's abort.
- Absolute paths are the pair of an area and a file name. `File(entity.filePath)` is the stored path. Directory creation (`mkdirs`) is not modelled.
- Timestamps and lengths are unbounded integers; 64-bit `Long` overflow is not modelled.
- Latitude and longitude are `real`, not IEEE doubles.
- The index fails only on a primary-key conflict. Other SQLite faults are not modelled, so the catch-and-log around index deletes never runs.
- `File.delete` can fail only in `DeletePhoto`, where the result is inspected. Elsewhere a delete always succeeds.
- The rename is refused only when the platform refuses it or the staging file is missing.
- Negative `limit` or `offset`, which make `drop`/`take` throw, are excluded by typing them `nat`. The defaults 100 and 0 are not modelled.
- `getPhotosWithMetadata` and `getPhotoMetadata` of the store (`PhotoStorageManager.kt:135-145`) only forward to the index. They are modelled by `PhotoIndex.GetPhotosWithMetadata` and `PhotoIndex.GetPhotoMetadata`.
- The SQL `ORDER BY timestamp DESC` leaves the order of equal timestamps unspecified. The listing contracts allow any such order.
- Log output is not modelled.
- SampleSize.CalculateInSampleSize: requires a positive width or height bound. With both bounds at most 0 the source loop only ends through `Int` overflow, and both callers pass positive bounds.
- `calculateInSampleSize`'s 32-bit overflow of `inSampleSize *= 2` is not modelled. It cannot happen with positive bounds and `Int` dimensions.
- Compass.FormatCompassDirection: defined for headings 0 to 360 only. That is the range its caller produces by rounding `(azimuth + 360) % 360`. Negative or larger degrees are not modelled. The floating-point `+ 22.5` and `/ 45` are exact integer arithmetic here.
- The rest of `LocationOrientationManager.kt` (sensors, location, geocoding) is not part of this model. `PhotoDatabase.kt` and the activities are not part of this model either.

## Findings

| source | as written | input that shows it | evidently intended | confidence | as-written member | corrected member |
|---|---|---|---|---|---|---|
| app/src/main/java/com/example/myapplication/LocationOrientationManager.kt:189 | the deviation for North is the raw heading, even in the sector just below 360 | heading 350 gives "350° from North" | the deviation measured back from 360: "10° from North", never above 22 degrees | not executed | Compass.NorthDeviationNotWrapped | Compass.WrappedLabelWithinHalfSector |
