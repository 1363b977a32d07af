# tilefeed: verified models of its core

tilefeed turns PostGIS tables into vector tiles, keeps the tiles up to date while rows
change, serves them through a cache, tells connected maps what changed, and exports the
result as a PMTiles archive. This project models the parts where a mistake is easy to make
and hard to see, and proves what they are for:

- **Archive** (`Hilbert`, `Varint`, `Directory`, `Header`, `Split`, `Packing`, `Reader`,
  `Sizes`, `Export`, `Verify`, `Exporter`): tile ids along the Hilbert curve, varints, the
  columnar directory, runs and deduplication, root and leaf directories, the two-level lookup
  and the final check of an export. Reading an exported archive gives back exactly the store
  it was made from, and on a store at rest an export never refuses its own archive
  (`Exporter.ExportReadsBack`, `Exporter.ExportAccepts`).
- **Generation and updates** (`Tiles`, `Config`, `Database`, `Generator`, `Updater`): the
  native generator's walk down the quadtree stores what a scan of every tile would, and the
  updater, run against row edits at any moment, leaves the store equal to a fresh generation
  whenever its queue is empty.
- **Cache** (`CacheView`, `Cache`, `Coherence`): an LRU kept in two maps refines a recency
  list, and with any number of readers, commits and foreign writers a cached tile is older
  than the store only while an invalidation or a clear is still to come.
- **Change events** (`Events`, `ViewFilter`, `EventBus`, `Sse`, `Delivery`): areas are
  compacted and events merged without hiding a change, a client that draws a changed tile
  wants the event, the bus replays exactly once, and resuming a connection from the last id
  sent loses nothing. Together: a client drawing a regenerated tile is told of it or asked to
  reload (`Delivery.RegeneratedIsTold`).
- **Tile encoding** (`Mvt`): geometry commands and tag dictionaries against a decoder
  written from sections 4.3 and 4.4 of the Mapbox Vector Tile Specification 2.1.

`Words`, `Options` and `Sorting` hold machine words, powers of two, options and sorting.
Algorithms the program runs as loops over mutable state are methods (or a class, where it
keeps an object) proved against a function; concurrent parts are step systems proved over
every run. What a database, gzip, SHA-256 or the Mercator projection computes is a parameter,
constrained only by the laws named in the code (`Lossless`, `Deflates`, `Injective`, `SpatialLaws`, `Mercator`).

Run `dafny verify dfyconfig.toml` to check everything.

## Where the code falls short of its purpose

Each of these is proved, with the condition under which the code does what it promises.

- Generation: a margin that widens the data extent past a pole makes positions start over
  from the other pole, and the walk keeps a single row of tiles (`Generator.MarginPastPole`,
  `Generator.WalkIsFullScanBetweenPoles`). A row with a label point but no geometry widens no
  extent; its label is missed exactly in the tiles the other data's extent does not reach
  (`Generator.WalkIsFullScan`, `Generator.WalkMissesLabelsWithoutGeometry`).
- Updates: the tiles of a changed box come from half-open ranges, while `ST_Intersects` is
  closed, so a row whose western or northern edge lies exactly on a tile border shows in a
  tile its box does not reach (`Tiles.RangeCoversUnlessOnBorder`). A new row is drawn there,
  and a deleted one erased, exactly when the box queried, or recorded, reaches the tile
  (`Updater.InsertIsDrawnWhenReached`, `Updater.DeleteIsErasedWhenReached`).
- Cache watcher: a foreign write is cleared exactly when the watcher had read a version of the
  source before it; one before that is taken for the baseline, and the old tile stays
  (`Coherence.ClearedIffWatched`, `Coherence.UnwatchedWriteStays`).
- Event stream: within a flushed batch the ids are held below sources still waiting, not below
  later events of the same batch. Every cut of a batch is safe exactly when each event's id
  stays below the first event of the next (`Sse.BatchIsSafe`, `Sse.MidBatchGap`).
- Viewport: west more than one turn past east gives an inside-out range
  (`ViewFilter.RangesInOrder`, `ViewFilter.InvertedSpanMissesNarrowAreas`). An area wholly
  beyond the Mercator square is clamped into its edge tiles, and a view that draws those tiles
  but ends at the square does not see it (`ViewFilter.VisibleChangeIsSeen`).
- Encoding: each part of a geometry starts over from (0, 0), which the specification does not
  (`Mvt.PartsRoundTrip`). A ring that is not closed would lose its last point
  (`Mvt.RingRoundTrip`); none comes from the database, whose polygons are closed.

The reader's limit of ten million entries in a directory is no such case: no directory past it
fits its place in an archive of fewer than 2^32 tiles (`Sizes.BuildSucceeds`), and an archive
with one would be refused by the export's own check (`Verify.ExportVerifies`).

Two comments in the source promise more than the code does: `flush_pending` is said to send
no id past an event not yet sent (src/server.rs:610-612), and the margin to let the walk reach
what a full scan reaches (src/generator.rs:409-410). The models follow the code.

## Model

| member | source | states |
|---|---|---|
| Hilbert.PointOfDistance | src/pmtiles.rs:74-88 | the tile at the distance of a tile is that tile, at every zoom |
| Hilbert.DistanceOfPoint | src/pmtiles.rs:106-129 | the distance of the tile at a distance is that distance: with the above, the curve is a bijection of the grid |
| Hilbert.CurveEnds | src/pmtiles.rs:106-129 | the curve starts in corner (0,0) and ends in corner (2^z-1,0) |
| Hilbert.CurveIsContinuous | src/pmtiles.rs:106-129 | consecutive distances are tiles sharing an edge |
| Hilbert.TilesBelowClosedForm | src/pmtiles.rs:68-70 | the tiles of the zooms below z number (4^z-1)/3, the base the code adds |
| Hilbert.IdOf | src/pmtiles.rs:64-91 | a tile's id lies in its zoom's range, from (4^z-1)/3 up to (4^(z+1)-1)/3 |
| Hilbert.EveryIdIsTaken | src/pmtiles.rs:94-104 | every id of a zoom's range is the id of a tile of that zoom |
| Hilbert.IdsAreUnique | src/pmtiles.rs:64-91 | two different tiles, of one zoom or of two, never share an id |
| Hilbert.ConsecutiveIdsShareAnEdge | src/pmtiles.rs:64-91 | tiles of one zoom with consecutive ids share an edge |
| Hilbert.FirstAndLastId | src/pmtiles.rs:64-91 | corners (0,0) and (2^z-1,0) have the first and last id of the zoom's range |
| Hilbert.TileIdRound | src/pmtiles.rs:74-88 | one round, wrapping reflections included, adds the leading digit of the distance and leaves the distance of the turned low bits |
| Hilbert.TileId | src/pmtiles.rs:64-91 | the loop computes the tile's id for any 32-bit column and row; those outside the grid are folded back into it |
| Hilbert.HilbertToXy | src/pmtiles.rs:106-129 | the loop over base-4 digits gives the tile at the distance |
| Hilbert.TileIdToZxy | src/pmtiles.rs:94-104 | every id up to zoom 31 gives the one tile with that id, every larger id the error |
| Hilbert.TileThereAndBack | src/pmtiles.rs:64-129 | the two loops undo each other on every tile up to zoom 31 |
| Varint.DecodeOfEncode | src/pmtiles.rs:131-156 | a varint anywhere in a longer buffer decodes to its value and consumes exactly its own bytes |
| Varint.ColumnRoundTrip | src/pmtiles.rs:161-238 | a column of varints decodes to its values and ends where it ends |
| Varint.DecodeEnds | src/pmtiles.rs:139-156 | a varint is truncated exactly when the buffer ends within ten bytes that all go on, too long exactly when ten go on, and else ends at the first byte that does not |
| Varint.WriteVarint | src/pmtiles.rs:131-137 | the loop appends exactly the encoding |
| Varint.ReadVarint | src/pmtiles.rs:139-156 | the loop decodes, or reports a truncated or overlong varint, and never reads outside the buffer |
| Directory.DirectoryRoundTrip | src/pmtiles.rs:161-238 | a directory reads back as written exactly when it has at most ten million entries and no offset of 2^64-1 outside the contiguous shorthand |
| Directory.DirectoryLayout | src/pmtiles.rs:161-197 | a written directory is the entry count and then, entry by entry within each column, the id differences, run lengths, lengths, and offsets plus one with zero for "directly behind"; nothing follows |
| Directory.ParseOfSerialize | src/pmtiles.rs:161-238 | what any written directory parses to: the count error, the first-entry error, or the entries with the offsets its codes give |
| Directory.UnencodableOffsetLost | src/pmtiles.rs:188-194 | an offset of 2^64-1 that the shorthand does not cover comes back different |
| Directory.SerializeDirectory | src/pmtiles.rs:161-197 | the four column loops write exactly the columnar form |
| Directory.DeserializeDirectory | src/pmtiles.rs:199-238 | the four column loops fill entries in place to exactly what parsing the columns gives, with the same errors |
| Directory.ReadOffsets | src/pmtiles.rs:222-236 | the last loop decodes offsets and the contiguous shorthand, and fails on a shorthand in the first entry |
| Header.HeaderRoundTrip | src/pmtiles.rs:275-371 | every header reads back from its 127 bytes, whatever follows them |
| Header.HeaderLayout | src/pmtiles.rs:275-305 | each field stands at its place among the 127 bytes |
| Header.LeByte | src/pmtiles.rs:280-290 | byte i of a stored number is its digit for 256^i |
| Header.FromBytesMeaning | src/pmtiles.rs:307-371 | which headers are refused, and for what, length before magic number before version before the formats |
| Header.PositionOfDegrees | src/pmtiles.rs:266-273 | a position read from a header is stored again as it was |
| Header.DegreesOfPosition | src/pmtiles.rs:266-273 | degrees come back within half a unit of 1e-7 exactly when the scaled value is within half a unit of the 32-bit range, saturation and rounding included |
| Split.FindGivesLast | src/pmtiles.rs:503-507 | the reverse search gives the last entry whose id is not above the one wanted, and none exactly when all are above |
| Split.LeafAnswers | src/pmtiles.rs:390-410 | searching the leaf responsible for an id finds what searching the whole list finds |
| Split.RootPointsAtLeaf | src/pmtiles.rs:390-410 | for every id from the first on, the root's answer points at the byte range of the leaf responsible for it |
| Split.LeavesHoldEntries | src/pmtiles.rs:390-410 | the leaf byte ranges tile the leaf section exactly and the leaves joined give back the entries |
| Split.FirstSizeThatFits | src/pmtiles.rs:382-420 | the doubling loop ends at the first leaf size whose root fits, or reports failure only past one leaf for everything |
| Split.BuiltShape | src/pmtiles.rs:382-420 | whenever building succeeds the root fits 16384 bytes less the header, and is the flat directory or the root of a split |
| Split.SplitChunks | src/pmtiles.rs:392-408 | the chunk loop writes the leaves and root pointers of the split |
| Split.ChooseDirectories | src/pmtiles.rs:382-420 | the whole loop computes what the specification of the split gives |
| Packing.PackStores | src/pmtiles.rs:670-725 | every tile's blob lies whole in the data under its digest, and nothing else is filed |
| Packing.PackAnswers | src/pmtiles.rs:670-725 | looking any id up in the packed entries gives exactly the span of that id's tile, or nothing when it has none |
| Packing.PackLayout | src/pmtiles.rs:670-725 | runs are apart and maximal and sum to the tiles, each new blob starts where the data ended, distinct blobs are at most the entries and those at most the tiles |
| Packing.RunsApartMeaning | src/pmtiles.rs:697-705 | runs are disjoint, in order, and two adjoining runs hold different content |
| Packing.PackTile | src/pmtiles.rs:670-725 | the body of the loop is one packing step: lengthen the run, share a span, or append |
| Packing.PackTiles | src/pmtiles.rs:670-725 | the loop packs all rows and counts them |
| Reader.ReadBackOne | src/pmtiles.rs:487-490 | a compressed directory is read back exactly when it has at most ten million entries |
| Reader.GetTile | src/pmtiles.rs:497-530 | the two-round loop reads what the two-level lookup specifies, errors included |
| Reader.SearchSplit | src/pmtiles.rs:497-530 | reading through root and leaf gives what the flat list gives |
| Sizes.DirectoryLength | src/pmtiles.rs:131-197 | a written directory takes more than four and at most thirty bytes an entry, at most twenty-six a leaf pointer |
| Sizes.LeavesLength | src/pmtiles.rs:390-406 | compressed, the leaves of any split stay below 106 bytes an entry, and every length and offset fits its field |
| Sizes.BuildSucceeds | src/pmtiles.rs:382-420 | with fewer than 2^32 entries and DEFLATE's bounds the doubling always ends, with leaves of at most 2^23 entries, and no root holds more entries than a reader accepts |
| Export.LongDirectoriesUnreadable | src/pmtiles.rs:204-206 | an archive with a directory past ten million entries, were it kept, would have a tile that cannot be read |
| Export.CoordIdsAreUnique | src/pmtiles.rs:653-662 | two rows of the store never get one id, the TMS flip included |
| Export.RowDelivers | src/pmtiles.rs:653-690 | there is a row for a tile exactly when it is listed and still present, holding the stored bytes when they begin 1f 8b 08 and else bytes that inflate to them |
| Verify.VerifyArchive | src/pmtiles.rs:538-595 | the check accepts exactly the archives whose sections, directories, entries and entry count are consistent |
| Verify.ExportVerifies | src/pmtiles.rs:538-595 | the archive of an export passes the check exactly when none of its directories is past ten million entries |
| Verify.WrongCountFails | src/pmtiles.rs:587-594 | of an export with readable directories, put under a header with any entry count, the check accepts exactly the right count |
| Verify.VerifiedIsReadable | src/pmtiles.rs:532-595 | reading a tile of an archive that passes runs into a broken part exactly when the tile's leaf sends it on to a further directory that is not there |
| Exporter.ZoomBounds | src/pmtiles.rs:654-655 | every listed zoom lies between the two the header is given |
| Exporter.ZoomsReached | src/pmtiles.rs:654-655 | and both are zooms of listed tiles |
| Exporter.ListTiles | src/pmtiles.rs:650-662 | the listing gives every coordinate its id and the lowest and highest zoom, or stops at the first row off its grid |
| Exporter.ReadListed | src/pmtiles.rs:668-690 | one row for each listed tile still present, in order: the stored bytes when they begin 1f 8b 08, else bytes that inflate to them |
| Exporter.SampledTile | src/pmtiles.rs:825-834 | every sampled id is that of a tile that was listed and present |
| Exporter.ExportSampleSpread | src/pmtiles.rs:825-834 | of an export's entries 64 are sampled, all when there are no more, in strictly rising order of ids |
| Exporter.CheckSampled | src/pmtiles.rs:843-866 | one sampled id: beyond zoom 31, vanished, unreadable, missing, different, or the same as the store's tile, compressed unless it begins 1f 8b 08 |
| Exporter.VerifyAgainstSource | src/pmtiles.rs:837-870 | accepts exactly the archives that pass the structural check and whose sampled tiles all are the store's in gzip form; otherwise names the first that is not |
| Exporter.ExportFits | src/pmtiles.rs:728-743 | for tiles and metadata that fit a 64-bit file, the directories can be built, fit their fields, and can all be read back |
| Exporter.ExportReadsBack | src/pmtiles.rs:631-792 | every export gives an archive that passes the structural check; reading any tile of it gives, if it was listed and present, the stored bytes when they begin 1f 8b 08 and else bytes that inflate to them, and nothing for any other tile |
| Exporter.ExportDescribes | src/pmtiles.rs:728-776 | its header counts the tiles listed and present, the entries and the distinct contents, has the listed zooms, bounds and centre, and puts root, metadata, leaves and data one behind the other to the end of the file; the metadata inflates to the text given |
| Exporter.ExportAccepts | src/pmtiles.rs:779 | the final check passes exactly when no sampled tile has changed since it was read |
| Exporter.WriteArchive | src/pmtiles.rs:664-776 | writes the archive of the tiles still present, or fails when no root fits, with the counts it reports |
| Exporter.ExportMbtiles | src/pmtiles.rs:631-792 | fails for the first off-grid row, for no tiles, for a root that cannot fit and for a failed final check, and succeeds otherwise; what it exports reads back as above, and the counts it reports are those of the file |
| Tiles.CellNests | src/tiles.rs:34-56 | twice as many cells: each position's cell is a half of its former one |
| Tiles.UnionBounds | src/tiles.rs:75-82 | the result is the least box around both |
| Tiles.TileInsideParent | src/tiles.rs:13-30 | a tile's envelope lies inside its parent's |
| Tiles.RangeNests | src/tiles.rs:48-56 | a box whose range holds a tile holds the tile's parent at the zoom above |
| Tiles.TouchingIsOverlap | src/tiles.rs:48-56 | for a box on the globe the ranges hold exactly the tiles it overlaps, borders west and north of it included, and the outermost tiles for what lies beyond the map |
| Tiles.MeetingIsTouching | src/tiles.rs:48-56 | a box meeting a tile has it in its range exactly when it does not merely graze the tile's eastern or southern edge |
| Tiles.RangeCoversUnlessOnBorder | src/tiles.rs:48-56 | the ranges hold every tile a box meets, down to a zoom, exactly when neither its western nor its northern edge lies on a tile border of that zoom |
| Tiles.TilesForBounds | src/tiles.rs:59-72 | the nested loops list exactly the tiles of the box's ranges, each once |
| Tiles.ChildrenWithin | src/tiles.rs:100-119 | the next level is exactly the children of the parents within the extent's range, in strict order, so without repeats |
| Config.FaultlessIsEncodable | src/config.rs:597-627 | a layer passes the checks exactly when it is encoded at some zoom and at none outside the source |
| Config.ValidateLayerZooms | src/config.rs:597-627 | validation passes exactly when all layers do, else names the first faulty layer and its first fault |
| Config.EncodedLayers | src/config.rs:556-594 | a tile layer is encoded at a zoom exactly when it belongs to a layer whose range holds it: derived layers follow their parent |
| Config.TileLayersMeaning | src/config.rs:556-594 | the tile layers at a zoom are each layer in its range under its own name, its label points under "_labels" when it has them, its boundary lines under "_boundary" |
| Config.ListTileLayers | src/config.rs:570-594 | the loop lists them in encoding order |
| Config.FindSourceForLayer | src/config.rs:526-534 | the first source owning the name, derived names included, or none |
| Config.OwnsMeaning | src/config.rs:526-534 | a source owns its layers' names and the derived ones of layers that derive them |
| Config.FindLayer | src/config.rs:630-632 | a layer of exactly that name, or none when there is none |
| Config.FindLayerIsFirst | src/config.rs:630-632 | of several layers of the name it is the first |
| Config.RoutedToOwner | src/updater.rs:451-463 | with sources apart a notification goes to the one source owning the name |
| Config.LayerIsFound | src/updater.rs:516-519 | there, with names apart, it reaches the layer it names |
| Config.DerivedIsNotFound | src/updater.rs:516-519 | one that names a derived layer is owned by the source and finds no layer, so it is skipped |
| Database.GeneratedWhenShown | src/generator.rs:496-519 | a tile has content exactly when some layer active at its zoom shows a row in it |
| Database.AssembleKeepsAll | src/generator.rs:496-519 | with distinct tile-layer names the content holds each layer's rows, and only layers with rows |
| Database.GeneratedShows | src/generator.rs:496-519 | with names apart a generated tile holds, for every tile layer encoded at its zoom, derived ones included, exactly the table's rows that pass and whose geometry, or label point, hits the tile's box, and nothing else |
| Database.FetchTileFeatures | src/generator.rs:496-519 | the loop over tile layers puts under each one's name, if they are distinct, exactly the rows that pass and whose geometry, or label point, hits the box |
| Generator.UniteExtents | src/generator.rs:390-401 | the loop computes the union of the layers' extents |
| Generator.ExtentHolds | src/generator.rs:390-401 | the data extent holds every layer's extent |
| Generator.AnyLayerHasFeatures | src/generator.rs:523-535 | the probe answers whether any of the layers has a feature or label point in the tile |
| Generator.ParentDescends | src/generator.rs:421-427 | above every tile some layer still wants, the walk goes on, through an active layer or the pending probe |
| Generator.NothingDeeper | src/generator.rs:429-432 | below an empty level there is nothing to generate, so stopping early loses nothing |
| Generator.WalkLevel | src/generator.rs:433-472 | one level stores each tile with content, leaves the rest, and expands exactly the tiles to descend from |
| Generator.GenerateWithNative | src/generator.rs:372-490 | for any rows, zoom ranges, extent and margin the walk stores exactly what generating every tile of the widened extent's ranges would; with names apart every stored tile shows exactly the rows the tables hold there |
| Generator.FullScanShows | src/generator.rs:496-519 | where the store is a scan of every tile and names are apart, each tile of the source's zooms shows exactly the rows there |
| Generator.MarginReachesTile | src/generator.rs:409-411 | a box meeting a tile, once widened by the margin, has the tile in its range |
| Generator.WalkIsFullScan | src/generator.rs:372-490 | with the widened extent between the poles, the walk stores what a scan of every tile stores exactly when it looks at every tile showing a label without a geometry |
| Generator.MarginPastPole | src/generator.rs:409-411 | an extent widened past the north pole leaves the last row of each zoom, past the south pole the first row |
| Generator.WalkIsFullScanBetweenPoles | src/generator.rs:372-490 | given content off those rows, walk and scan agree exactly when the widened extent ends before the poles and no label without a geometry is missed |
| Generator.WalkMissesLabelsWithoutGeometry | src/postgis.rs:260-281 | a label without a geometry, in a tile the extent does not reach, is in no tile the walk stores |
| Updater.AnnouncementsStay | sql/setup_notify.sql:15-51 | a tile announced by a notification stays announced over any later edit: a row that goes or moves leaves its old box |
| Updater.UnannouncedTarget | sql/setup_notify.sql:15-51 | an edit changes no tile its own notification is not about |
| Updater.AnnouncedIsAffected | src/updater.rs:515-545 | looking a notification up regenerates every tile it is about |
| Updater.FetchedIsTarget | src/updater.rs:688-725 | a tile all of whose layers were fetched fresh encodes to what a fresh generation gives |
| Updater.StepKeeps | src/updater.rs:500-620 | every step, row edits between any two of them included, keeps every tile fresh or accounted for by a queued or running notification |
| Updater.StaleTilesAreQueued | src/updater.rs:500-620 | between batches a tile that differs from a fresh generation is announced by a notification still queued |
| Updater.EmptyQueueMeansFresh | src/updater.rs:500-620 | once the queue is empty the store is exactly what a fresh generation of the current tables stores, and every tile shows, for each tile layer, exactly the rows there |
| Updater.RowsOffBordersAreCovered | src/updater.rs:679-686 | a row meets the theorem's condition when the queried box lies around the recorded one and neither has its western or northern edge on a tile border |
| Updater.UncoveredRowIsMissed | src/updater.rs:679-686 | a tile an edit's notification does not reach is never touched, in any run without further edits |
| Updater.SingleEditIsExact | src/updater.rs:500-620 | once a single edit of a fresh source is worked off, any tile is fresh exactly when the edit left it alone or its notification reaches it, coverage or not |
| Updater.TargetTellsRows | src/generator.rs:496-519 | two tables giving one tile show the same rows of each layer in it |
| Updater.InsertIsDrawnWhenReached | src/updater.rs:515-545 | a new row is drawn in a tile it shows in exactly when the box queried for it reaches the tile |
| Updater.DeleteIsErasedWhenReached | sql/setup_notify.sql:15-51 | a deleted row is erased from a tile it showed in exactly when the box recorded for it reaches the tile |
| Updater.RegenerateSingleTile | src/updater.rs:688-725 | regenerating a tile gives what a fresh generation gives, none when it has become empty: with names apart, for each tile layer exactly the rows that pass and hit the tile |
| Updater.UpdateSource | src/updater.rs:500-675 | a batch regenerates, writes or deletes exactly the affected tiles, each, with names apart, then showing exactly the rows there, clears exactly those, and reports their count, zooms, layers and areas |
| Updater.AreasReportAffected | src/updater.rs:522-545 | every regenerated tile is touched, at a zoom in range, by a reported area |
| Updater.NoteAreasMeaning | src/updater.rs:515-545 | reported for a notification are the box queried for the row as it is, if it passes, and the recorded old box, each over its layer's zooms |
| Updater.AffectedMeaning | src/updater.rs:522-545 | and a tile is regenerated for it exactly when one of those areas, at the tile's zoom, touches it |
| Updater.AreasOfAll | src/updater.rs:515-545 | a batch reports the areas of its notifications and no others |
| Cache.FitIsLongestSuffix | src/cache.rs:217-227 | what eviction keeps is the longest most recently used suffix within the budget |
| Cache.RemoveKeeps | src/cache.rs:120-130 | removing a key keeps both maps inverse to each other, the byte count the sum of the sizes, and the rest of the recency order |
| Cache.PushKeeps | src/cache.rs:229-241 | adding under the next tick keeps all of that, with the new key most recent |
| Cache.TouchKeeps | src/cache.rs:167-175 | a hit moves the key to the most recent place and keeps the rest |
| Cache.OverBudget | src/cache.rs:217-227 | while something has to go the order is not empty: the loop's break is never taken |
| Cache.TileCache.WithinBytes | src/cache.rs:44-57 | in every state the data and ETags of the cached tiles, with 160 bytes for each, stay within the budget, and are what the byte counter says |
| Cache.TileCache.Remove | src/cache.rs:120-130 | the new maps, bytes and recency, and whether the key was there |
| Cache.TileCache.Find | src/cache.rs:156-196 | a hit returns the entry and makes it most recent; a miss or expiry returns the source's generation and drops an expired entry |
| Cache.TileCache.PopFirst | src/cache.rs:218-226 | drops exactly the least recently used entry |
| Cache.TileCache.Evict | src/cache.rs:217-227 | evicts until the new tile fits, keeping the longest recent suffix; what is kept and the new tile together stay within the budget |
| Cache.TileCache.Insert | src/cache.rs:198-250 | stores exactly when the generation is current and 160 bytes with the tile's data and ETag fit the budget, after which the recency is the longest suffix that fits beside it, and the tile |
| Cache.TileCache.Invalidate | src/cache.rs:254-275 | moves the source's generation, drops exactly the given tiles and counts those that were cached |
| Cache.TileCache.ClearSource | src/cache.rs:279-300 | moves the generation and drops exactly the source's tiles |
| Coherence.StepKeeps | src/server.rs:258-298 | every step of readers, commits, invalidations, expiry, foreign writers and the watcher keeps the cache coherent |
| Coherence.RunIsCoherent | src/cache.rs:156-299 | in every run each cached tile, and each read whose generation is still current, equals the store unless its invalidation or its source's clear is still to come |
| Coherence.QuietCacheIsExact | src/updater.rs:595-628 | a cached tile with no invalidation pending, no foreign write missed and none the watcher is behind on is the stored one |
| Coherence.NoOtherWriters | src/server.rs:142-175 | without foreign writes nothing ever waits for the watcher |
| Coherence.StaleInsertRefused | src/cache.rs:198-212 | a read that a commit has overtaken is not cached |
| Coherence.OnePollAfterWrite | src/server.rs:151-171 | from any state, a foreign write and one poll clear the source's tiles exactly when it had a baseline; otherwise the cache stays and the new version is the baseline |
| Coherence.WatchedUntilCleared | src/server.rs:151-171 | after a watched foreign write the version compared with stays older than it until the source is cleared |
| Coherence.ClearedIffWatched | src/server.rs:151-171 | after a foreign write in any state, once the watcher has the current version, the source has been cleared exactly when a version of it had been read before the write |
| Coherence.MissedIsHistory | src/server.rs:151-171 | what the model counts as missed are the unwatched foreign writes no poll has cleared since |
| Coherence.WatchedCacheIsExact | src/server.rs:142-175 | with every foreign write watched or cleared later, the watcher at the current version and no invalidation pending, a cached tile is the stored one |
| Coherence.UnwatchedWriteStays | src/server.rs:163-171 | from any state, an unwatched foreign write and a poll leave the old tile cached with nothing pending |
| Coherence.EarlyWriteIsMissed | src/server.rs:163-171 | a whole run from the start in which that happens |
| Events.CompactIsBounded | src/events.rs:53-88 | at most 64 areas, none only for none, and exactly the given ones while those are at most 64 |
| Events.CompactCovers | src/events.rs:53-88 | every given box and zoom range is covered by one of the result |
| Events.CompactIsTight | src/events.rs:53-88 | nothing beyond an area around all of them is added |
| Events.CompactMeaning | src/events.rs:53-88 | up to 64 different areas come back as they are; more, of at most 64 zoom ranges, as the least box for each range; still more as the one least area around all |
| Events.CompactAreas | src/events.rs:53-88 | the sort, dedup, by-zoom and fold loops compute that compaction, in all three cases |
| Events.MergeIncludesBoth | src/events.rs:152-208 | a merge of two events of one source tells everything either told |
| Events.MergeMeaning | src/events.rs:152-208 | a merge of two updates sums and unites what they tell, adds nothing beyond an area around all of theirs, and tells no areas exactly when one of them told none |
| Events.FoldedEvents | src/events.rs:152-208 | a fold is a generation exactly when one event is, else it sums the tiles and unites zooms and layers |
| Events.FoldedParts | src/events.rs:152-208 | a folded generation has the latest duration; a folded update the first zoom limit, and no areas exactly when one event had none |
| Events.FoldIncludesEach | src/events.rs:152-208 | a fold tells everything each of its events told |
| ViewFilter.RangesInOrder | src/viewport.rs:234-250 | the ranges are in order within [-180,180] exactly when west is at most one turn past east |
| ViewFilter.RangesAreExact | src/viewport.rs:234-250 | then they face exactly the longitudes of the requested span, modulo whole turns |
| ViewFilter.InvertedSpanMissesNarrowAreas | src/viewport.rs:234-250 | otherwise no area narrower than the gap meets the one range, wherever it lies |
| ViewFilter.Parse | src/viewport.rs:50-104 | a query is accepted exactly when latitudes, zoom and source names are valid, and gives that view |
| ViewFilter.RangeHoldsAncestor | src/viewport.rs:120-122 | growing at the coarsest drawn zoom contains growing at every deeper one |
| ViewFilter.VisibleChangeIsSeen | src/viewport.rs:156-230 | of a tile drawn, at most a zoom away or the deepest of a source the map is past, and in the view, an area altering it is seen exactly when it reaches the square or a view beyond it |
| ViewFilter.TileZoomsMeaning | src/viewport.rs:147-154 | the zooms told of are those the map draws: above zoom - 1 and up to zoom + 1, and the source's deepest for a map past it |
| ViewFilter.GrownViewMeaning | src/viewport.rs:156-211 | an area is seen of the grown view exactly when it meets a tile the view shows part of, or lies with it past the square |
| ViewFilter.WantsMeaning | src/viewport.rs:107-127 | an event is let through exactly when its source is asked for and it is a generation, tells no areas, or tells one of a drawn zoom that meets a tile the view shows part of |
| ViewFilter.VisibleChangeIsWanted | src/viewport.rs:107-127 | an event reporting such an area, however coarsely, is wanted |
| ViewFilter.WantsMore | src/viewport.rs:107-127 | a viewport that wants an event wants every event that includes it |
| ViewFilter.WantsMerge | src/viewport.rs:107-127 | a viewport that wants one of a source's events wants their merge |
| ViewFilter.Viewport.CoveredView | src/viewport.rs:133-145 | the memo answers what growing the view afresh would |
| ViewFilter.Viewport.WantsEvent | src/viewport.rs:107-127 | the memoising filter answers that, in every state of the memo |
| ViewFilter.CompactedChangeIsWanted | src/updater.rs:640-670 | a client drawing a tile that some recorded area alters wants the batch's event, however far its areas were compacted |
| EventBus.Bus.Send | src/events.rs:248-263 | the event gets the next id, the log grows by it, and the history stays the last 256 |
| EventBus.Bus.SubscribeSince | src/events.rs:270-296 | complete exactly when the id is known and no later event was dropped, and then the replay is every later event in order |
| EventBus.ReplayThenReceive | src/events.rs:270-296 | a complete replay and then a receiver that never lags give every event after the requested id once, in order |
| EventBus.AfterNumbered | src/events.rs:284-289 | filtering the history by id is starting it later |
| Sse.MergedIncludes | src/server.rs:543-560 | an accumulated event tells everything each event it stands for told |
| Sse.StepKeeps | src/server.rs:507-595 | every step keeps each wanted event sent, resynced or pending, sent at most once, and the ids sent from going back |
| Sse.OpenStream | src/server.rs:489-520 | subscribes and yields the resync, the missed events the viewport wants and the end of the replay, as the step system starts |
| Sse.ReloadOnlyWhenLost | src/server.rs:489-540 | a client is never asked to reload exactly when it gave no id, or one the bus has sent and at most 256 events back, and it never lags |
| Sse.ReplayIsSafe | src/server.rs:507-520 | a client cut off anywhere in the replay resumes safely |
| Sse.ResumeIsSafe | src/server.rs:507-595 | between steps of any connection every wanted event up to the last id sent is in what was sent or was resynced, and ids never went back |
| Sse.SentExactlyOnce | src/server.rs:530-595 | what is sent stands only for events the client wants, tells everything of each, and no event is sent twice |
| Sse.ClosedIsComplete | src/server.rs:570-577 | when the bus closes everything wanted has been sent or resynced |
| Sse.BatchPrefixIsSafe | src/server.rs:613-638 | cut off within a batch, resuming is safe exactly when the unsent events come after the last id sent or were resynced |
| Sse.CutIsSafe | src/server.rs:613-638 | in what the flush holds beforehand, unless a reload was asked for meanwhile: exactly when the held-back id of the last event sent is below the first event of each one unsent |
| Sse.BatchIsSafe | src/server.rs:613-638 | every cut of a batch is safe exactly when each event's held-back id is below the first event of the next |
| Sse.MidBatchGap | src/server.rs:622-637 | a run in which the first event of a batch is sent under an id past an unsent event |
| Sse.ReconnectLosesNothing | src/server.rs:468-500 | a client that comes back with its last id has, over both connections, every wanted event up to the last id it then gets |
| Sse.FlushPending | src/server.rs:613-638 | takes exactly the due events, sorted by last id, each under an id below whatever still waits |
| Delivery.RegeneratedIsWanted | src/updater.rs:640-670 | a client wants the event of every batch that regenerates a tile it draws |
| Delivery.RegeneratedIsTold | src/server.rs:489-595 | between any two steps of its connection it has been told all of that event or asked to reload, unless the event comes after the id it would resume from; when the stream ends it has |
| Mvt.ZigzagInverse | src/mvt.rs:431-433 | zigzag and its inverse of section 4.3.2 undo each other on 32 bits |
| Mvt.CommandReadsBack | src/mvt.rs:426-428 | a command's id reads back, its count exactly when it fits 29 bits |
| Mvt.EncodeMultiPoint | src/mvt.rs:317-340 | the loop writes one MoveTo and the steps between the points |
| Mvt.EncodeRing | src/mvt.rs:376-423 | the loop writes MoveTo, LineTo and ClosePath, nothing for fewer than two points, without the last point when closing |
| Mvt.EncodeParts | src/mvt.rs:346-374 | the parts are encoded one behind the other |
| Mvt.DecodeRing | src/mvt.rs:376-423 | a part decodes, from any cursor, to its points moved by that cursor |
| Mvt.MultiPointRoundTrip | src/mvt.rs:317-340 | a list of points decodes to a MoveTo for each, in order |
| Mvt.LineRoundTrip | src/mvt.rs:342-344 | a line decodes to its points |
| Mvt.RingReadsAs | src/mvt.rs:376-423 | a line or ring decodes to a MoveTo to its first point, a LineTo for each further one, the last of a ring left out, and ClosePath for a ring |
| Mvt.RingRoundTrip | src/mvt.rs:376-423 | a decoded ring traces its points exactly when the first and last are one |
| Mvt.PartsRoundTrip | src/mvt.rs:346-374 | several parts decode as meant exactly when every part another drawn part follows ends at (0, 0) |
| Mvt.ComputeExcludedProperties | src/mvt.rs:144-158 | the set holds exactly the names some rule excludes at the zoom |
| Mvt.ValueKeyIsUnique | src/mvt.rs:435-442 | different values have different dictionary keys |
| Mvt.Dictionaries.KeyIndex | src/mvt.rs:85-88 | gives the key's one index, appending it only when new |
| Mvt.Dictionaries.ValueIndex | src/mvt.rs:90-94 | gives an index at which a decoder reads the property's own value: the same text, boolean or number, the text of what is nested |
| Mvt.Dictionaries.Tags | src/mvt.rs:77-99 | the tags decode to exactly the kept properties' names and values, in order, and the dictionaries only grow |
| Mvt.EncodeLayer | src/mvt.rs:48-106 | every drawable feature is encoded in order, its tags read back as the names and values of its kept properties through the final dictionaries, and keys are distinct |
| Mvt.KeptHolds | src/mvt.rs:78-83 | the kept properties are exactly those not excluded |
| Mvt.KeptInOrder | src/mvt.rs:78-83 | and come in the order they had, each as often |
| Mvt.DrawableInOrder | src/mvt.rs:60-75 | the features encoded are those with a geometry, in order |

## Left out

- Sse.StepKeeps: the cooldown is a step that may come at any time for any set of waiting sources, so when a batch is sent is not modelled.
- Sse.FlushPending: the last ids of the pending events are taken to be distinct, as they are of different events.
- Coherence.StepKeeps: expiry and the poll interval are steps that may come at any time; clocks are not modelled.
- Cache.TileCache.Find: whether the entry has outlived its time to live is an input.
- Updater.StepKeeps: listener reconnects, failed queries and tiles that fail to encode are left out; there the code does miss updates. Every layer has its own trigger, and label point columns are excluded, because their old place is in no notification.
- Updater.UpdateSource: describes a batch with no row edits meanwhile (the step system covers edits) and keeps affected tiles as a set, not in sorted order.
- Updater.SingleEditIsExact: describes one edit of a fresh source; rows that show under their box are covered for any number of edits (`Updater.EmptyQueueMeansFresh`).
- Database.GeneratedShows: for sources whose tile-layer names are distinct; of two tile layers of one name a tile keeps the later one with rows (`Database.FetchTileFeatures`).
- ViewFilter.WantsMeaning: for views whose longitude ranges are in order (`ViewFilter.RangesInOrder` says when) and areas with their edges and zooms in order, as the database and the layers give them.
- Generator.GenerateWithNative: tiles of a level are taken in order; the code takes them as queries finish, which leaves the same store.
- Generator.WalkIsFullScan: the answers to the extent queries are inputs, required to lie around the rows they are about.
- Exporter.ExportReadsBack: for fewer than 2^32 tiles of less than 4 GiB that, with the metadata and a terabyte for directories, stay below 2^64 bytes (`FitsFile`).
- Exporter.ExportMbtiles: reading the store is one snapshot for the tiles and one for the final comparison; file and database errors are left out.
- Header.HeaderRoundTrip: positions are the stored 32-bit integers; their degrees are reals (`Header.DegreesOfPosition`), without floating-point error.
- ViewFilter.Parse: starts from numbers and names already read from the query string.
- Mvt.EncodeLayer: the protobuf bytes are left out, and a feature's geometry is given as encoded.
- Mvt.MultiPointRoundTrip: for lists of fewer than 2^29 points, the most a command can count.
- Mvt.ZigzagInverse: shifts and exclusive-or are written as the arithmetic they amount to on two's complement.
- Arithmetic follows a release build: sums, casts and shifts of machine words wrap. Counters that would need 2^64 events or ticks to wrap are unbounded.
- Config.RoutedToOwner: the grouping of notifications by source and the lookup of the source's store are left out.
- Delivery.RegeneratedIsTold: for clients with a zoom and a box whose view the recorded areas reach (`AreasReach`).
- Reals stand for floating point and the projection is any strictly decreasing map of latitudes, so rounding and trigonometry are not modelled.
- gzip, SHA-256, JSON, protobuf, SQLite, PostgreSQL and PostGIS themselves: parameters with the laws the code relies on.
- Douglas-Peucker simplification, GeoJSON parsing and quantisation of coordinates.
- Tippecanoe and GDAL generation, publishing, webhooks, metrics, HTTP routing, TileJSON, ETags, command line and configuration files.
- Archive metadata text, bounds and centre: passed through, not computed.
