# Verified kernels of shpx

shpx converts spatial data between formats. Around a lot of driver plumbing it has a number of
self-contained kernels whose exact behaviour matters: binary codecs, streaming and loading
protocols, and planners. This project models those kernels in Dafny, branch by branch, and proves
what they promise for all inputs and all runs. `dafny verify dfyconfig.toml` checks everything.

What is modelled, kernel by kernel:

- **PostgreSQL numerics** (`PgNumeric`, `NumericWire`). Splitting an `i128` at a decimal scale into
  base-10000 digits without forming the scaled product, the rolling checked accumulator that reads
  digits back at any scale, and the wire payload. A result is always the value times a power of ten
  truncated toward zero, the digits after the first one below the point never carry into it (a
  comment in the source hedges this), and decoding undoes encoding for every value but `i128::MIN`.
- **COPY BINARY** (`CopyFormat`, `CopyWriter`). Rows, NULLs, dates, timestamps, decimals and EWKB
  geometries become tuples; the flush loop sends them in chunks. A reader written from the
  description of the format ("Binary Format", under COPY in the PostgreSQL documentation) recovers
  exactly the rows from the concatenated chunks.
- **Binary geometries** (`Doubles`, `Geometry`, `SpatialiteFormat`, `SpatialiteBlob`, `SpatialiteReader`,
  `WkbFormat`, `WkbCodec`, `SpatialiteCodec`, `Ewkb`, `GpkgBlob`). Nested encoders, cursor decoders
  with count guards, WKB with a byte order of its own in every member (section 8.2 of OGC Simple
  Feature Access 1.2.1), the exact size estimate, the bounding box, and the two header wrappers
  (GeoPackage: section 2.1.3.1.1 of OGC GeoPackage 1.3).
- **Readers** (`SequentialReader`, `ReaderProtocol`, `FgbBatches`, `FeatureStream`). The worker
  thread and its bounded channel as a state machine over all interleavings; the FlatGeobuf
  read-ahead; the FeatureCollection byte machine (section 3.3 of RFC 7946).
- **Loaders** (`Database`, `LoadRuns`, `Staging`, `MultiRowInsert`). The SQL Server staging loader and
  the multi-row INSERT writers against a database whose every statement may fail, and whole runs of
  calls on one connection.
- **Planners and printers** (`JsonInference`, `DbfFields`, `DbfPlan`, `DecimalText`, with `Utf8`,
  `Calendar` and `Numerals`). Column types from a GeoJSON sample, the DBF column plan with its name
  chooser and what its fields can store, and the two independent decimal printers.

`Wrappers`, `MachineInts`, `PowersOfTen`, `ByteOrder`, `Framing` and `Lists` hold what these share, and
`Examples` shows small inputs with the bytes and texts they become.

Rust integers are subset types of the mathematical integers, so every narrowing and every checked
operation is an explicit proof obligation or an explicit error. An `f64` is its eight bytes; only the
bounding box orders them, by an integer key of those bytes that is proved to order them as the
numbers they stand for. I/O, clocks and other
libraries are parameters: the row source of a reader, the element parser of the feature stream, the
conversion of rows to a batch, and nondeterministic success or failure of every database statement.

Places where the code does less than, or something else than, its own text or a reader's expectation
says. Each but the last two, a bound and a constant, is proved with its exact condition:

- `i128::MIN` encodes to a numeric but does not decode (`PgNumericCodec.RoundTrip`), and a value whose
  truncation is 0 can still be refused when its exponent is below -38
  (`PgNumericCodec.TinyValueRefused`).
- The GeoPackage decimal printer negates with wrap-around and prints two minus signs for `i128::MIN`
  at a positive scale (`DecimalText.PrintersAgree`; a debug build panics there instead). Neither
  printer applies a negative scale (`DecimalText.TextValue`).
- A FeatureCollection cut right behind a comma ends without an error (`FeatureStream.QuietEnd`).
- The first `[` of the file is taken for the features array. One that stands earlier, in a `bbox`, in
  a list of tags or inside a name, costs all the elements (`FeatureStream.EarlierBracket`): if no
  element stands right behind it, the stream yields one error (`FeatureStream.LeadingBbox`), or,
  when that array is empty, nothing at all and no error (`FeatureStream.EmptyEarlyArray`).
- A fraction that meets an integer column becomes null, where the module comment
  (crates/shpx-driver-geojson/src/reader.rs:18) speaks of reduced precision
  (`JsonInference.LostExactlyWhen`).
- Under the `Skip` policy a decimal column that is too precise is written, not skipped
  (`DbfPlan.MappingOutcome`). An Int64 column gets 18 places, too few for its extremes
  (`DbfPlan.IntegersFit`). A decimal column gets one place for sign and point together
  (`DbfPlan.DecimalsFit`), so a field declared with as many decimals as digits, or for more than 18
  digits with 17 or more decimals, holds no number at all (`DbfPlan.UselessColumns`). The name chooser
  can fail from 9000 taken names on, and not before (`DbfPlan.NamesNeverRunOut`,
  `DbfPlan.NineThousandCanBlock`).
- Under the `Warn` policy a timestamp column is planned as a date field, but the row writer has no branch
  for timestamps (crates/shpx-driver-shp/src/writer.rs:210-293), so the first value that is not null stops
  it (`DbfPlan.PlannedIsWritten`).
- A GeoPackage blob re-encodes to itself exactly when it is little-endian and its two reserved flag
  bits are zero (`GpkgBlob.DecodeEncode`).
- The chunk size of multi-row INSERT looks at the parameter limit only: for SQL Server a layer without
  attribute columns gets 1042 rows per statement, above the 1000 a VALUES list may have
  (`MultiRowInsert.ValuesListLimit`).
- Nothing rolls back on SQL Server. A row that cannot be encoded, in `write_batch` or in `bulk_write`,
  leaves a transaction open, and the later BEGIN/COMMIT pairs nest inside it: until the server itself
  fails, a call that returns Ok has committed its rows if and only if no earlier call met such a row
  (`LoadRuns.SqlServerOkLands`, `LoadRuns.EncodeFailureBlocks`; `MultiRowInsert.OkWithoutCommit` runs
  it). The comment at crates/shpx-driver-sqlserver/src/writer.rs:231-232 promises a rollback. The
  PostGIS writer does roll back, so its Ok always means committed (`LoadRuns.PostgresOkLands`).
- A worker thread that panics closes its channel as one that has finished does, so the iterator ends
  without an error and rows are missing (`ReaderProtocol.CleanEnd`,
  `ReaderProtocol.PanicLooksLikeTheEnd`).
- A FlatGeobuf DateTime column is narrowed to dates when no value has a `T` or a blank in it. That is
  right if and only if all such values are dates (`FgbBatches.NarrowedRightly`), and wrong for the
  lower-case `t` that section 5.6 of RFC 3339 allows (`FgbBatches.LowerCaseNarrowed`).
- Under the `Error` policy a DBF name is still cut, without the promised error
  (crates/shpx-driver-shp/src/dbf_schema.rs:238), when it is taken and there is no room for the number
  (`DbfPlan.NumberCuts`): always for a taken name of ten bytes (`DbfPlan.PickDbfName`,
  `DbfPlan.CutWithoutError`).
- One date and one moment are sent as the word that a PostgreSQL server reads as -infinity
  (`CopyWriter.InfinitiesSent`).
- The WKB reader goes into a member before it looks at its kind, so its nesting is bounded only by a
  ninth of the input length (`WkbCodec.ReadGeom`).
- The PostgreSQL parameter limit in force is 32767 (crates/shpx-driver-postgis/src/writer.rs:48),
  not the 65535 of the comment in crates/shpx-rdb-common/src/multirow.rs:3.

## Model

| member | source | states |
|---|---|---|
| PgNumericCodec.ToI128WithScale | crates/shpx-driver-postgis/src/copy_binary.rs:385-463 | succeeds iff the value is not NaN, its leading exponent is at least -38, its last exponent at most 38 and the truncated magnitude fits i128; the result is exactly the value times 10^t truncated toward zero |
| PgNumericCodec.AddCutDigit | crates/shpx-driver-postgis/src/copy_binary.rs:399-427 | stopping at the first digit with a negative exponent already gives the whole truncated value |
| PgNumericCodec.CutDigit | crates/shpx-driver-postgis/src/copy_binary.rs:396-427 | no carry: the truncated value is the accumulated part shifted plus the whole part of that one digit, whatever digits follow |
| PgNumericCodec.WholeDigit | crates/shpx-driver-postgis/src/copy_binary.rs:428-441 | taking in one more whole digit gives the magnitude of the longer prefix, which never exceeds the final magnitude |
| PgNumericCodec.PrefixBelowWhole | crates/shpx-driver-postgis/src/copy_binary.rs:428-456 | every intermediate accumulator is bounded by the final magnitude, so no checked step fails on the way to a result that fits |
| PgNumericCodec.FromI128Scale | crates/shpx-driver-postgis/src/copy_binary.rs:298-327 | every i128 at every scale gets sign, weight, display scale and at most 11 digits in normal form that represent it |
| PgNumericCodec.FromU128Scale | crates/shpx-driver-postgis/src/copy_binary.rs:329-374 | the digits are the base-10000 normal form of abs / 10^scale: in range, first and last nonzero, weight within i16 |
| PgNumericCodec.PushDigits | crates/shpx-driver-postgis/src/copy_binary.rs:345-350 | the division loop yields exactly the digits of abs times 10^padLow without forming the product |
| PgNumericCodec.FirstChunkExact | crates/shpx-driver-postgis/src/copy_binary.rs:330-344 | splitting off the padded low chunk loses nothing: chunk plus quotient times 10000 is abs times 10^padLow |
| PgNumericCodec.TrimTrailingZeros | crates/shpx-driver-postgis/src/copy_binary.rs:359-365 | drops exactly the trailing zero digits, each a factor 10000 of the magnitude |
| PgNumericCodec.Rescale | crates/shpx-driver-postgis/src/copy_binary.rs:298-463 | what was encoded at one scale is worth floor(magnitude times 10^(t - scale)) at any other scale t |
| PgNumericCodec.RoundTrip | crates/shpx-driver-postgis/src/copy_binary.rs:298-463 | at the encoding scale the digits are decodable iff the value is not i128::MIN, and then decode to it, trimmed zeros included |
| PgNumericCodec.EncodeThenDecode | crates/shpx-driver-postgis/src/copy_binary.rs:298-463 | running both: Ok with the same value for every i128 but the smallest, for every scale a byte can hold |
| PgNumericCodec.TinyValueRefused | crates/shpx-driver-postgis/src/copy_binary.rs:417-424 | a concrete value with truncation 0 that decoding refuses, so the exponent bound is needed |
| PgNumericCodec.NormalFormUnique | crates/shpx-driver-postgis/src/copy_binary.rs:329-374 | equal rationals, such as (v, s) and (10v, s+1), get identical digits and weight |
| ByteOrder.Value32 | crates/shpx-driver-postgis/src/copy_binary.rs:465-474 | reading a word gives its number in base 256, first byte most significant, or last byte in little-endian order; `Value16` and `Value64` say it for the other widths |
| ByteOrder.Written32 | crates/shpx-driver-postgis/src/copy_binary.rs:232-245 | and so does writing one, negative numbers in two's complement; `Written16` and `Written64` for the other widths |
| NumericWire.PayloadWords | crates/shpx-driver-postgis/src/copy_binary.rs:465-475 | the payload in numbers: count, weight, sign, scale and each digit stand in their two bytes, most significant first |
| NumericWire.WritePayload | crates/shpx-driver-postgis/src/copy_binary.rs:465-475 | appends count, weight, sign, scale and digits as the payload of the numeric; its first two bytes are the digit count |
| Examples.NumericDigits | crates/shpx-driver-postgis/src/copy_binary.rs:298-374 | -12345.678 has the digits 1, 2345, 6780 with weight 1 and nothing else |
| Examples.NumericPayload | crates/shpx-driver-postgis/src/copy_binary.rs:465-475 | and these bytes |
| NumericWire.FromSql | crates/shpx-driver-postgis/src/copy_binary.rs:493-518 | succeeds iff the bytes start with a payload, and returns the numeric of that payload |
| NumericWire.PayloadUnique | crates/shpx-driver-postgis/src/copy_binary.rs:465-518 | bytes start with at most one payload |
| NumericWire.ThroughTheWire | crates/shpx-driver-postgis/src/copy_binary.rs:298-518 | encode, write, read, decode returns every value but i128::MIN |
| CopyFormat.FileReadsBack | crates/shpx-driver-postgis/src/copy_binary.rs:38-107 | a reader of the COPY format gets back exactly the tuples, NULLs and field bytes included, from header, tuples and trailer |
| CopyFormat.FileUnique | crates/shpx-driver-postgis/src/copy_binary.rs:38-107 | a file with this header that reads as some tuples is byte for byte the written file of those tuples |
| CopyFormat.TuplesComplete | crates/shpx-driver-postgis/src/copy_binary.rs:94-107 | no tuple is ever mistaken for the trailer |
| CopyFormat.FieldInverse | crates/shpx-driver-postgis/src/copy_binary.rs:221-230 | the field decoder accepts exactly the written fields and inverts them |
| CopyFormat.FieldStarts | crates/shpx-driver-postgis/src/copy_binary.rs:221-230 | the first four bytes of a field, most significant first, are its length, or all ones for NULL |
| CopyFormat.TupleStarts | crates/shpx-driver-postgis/src/copy_binary.rs:94-107 | the first two bytes of a tuple, most significant first, are the number of its fields |
| Examples.CopyFile | crates/shpx-driver-postgis/src/copy_binary.rs:38-107 | the bytes of a file with one row of a text and a NULL |
| CopyWriter.UnixMicrosIsInstant | crates/shpx-driver-postgis/src/copy_binary.rs:252-262 | ticks divided by the ticks per second of the unit, times a million, truncated toward zero, for all four units |
| CopyWriter.TicksFitIff | crates/shpx-driver-postgis/src/copy_binary.rs:252-262 | no overflow iff the ticks lie within the bounds of their unit |
| CopyWriter.SameInstantSameWord | crates/shpx-driver-postgis/src/copy_binary.rs:110-263 | one instant given in two units is sent as one word |
| CopyWriter.Epochs | crates/shpx-driver-postgis/src/copy_binary.rs:49-52 | the two epoch constants are the days and microseconds from 1970 to 2000 in the Gregorian calendar |
| CopyWriter.EncodeField | crates/shpx-driver-postgis/src/copy_binary.rs:110-263 | succeeds iff the cell can be sent; the field then carries the cell: the day and the instant undo to the input, the numeric represents the decimal, stripping the EWKB gives WKB and SRID |
| CopyWriter.InfinitiesSent | crates/shpx-driver-postgis/src/copy_binary.rs:110-263 | the smallest 32-bit and 64-bit words are sent for exactly one date and one moment, the largest never |
| CopyWriter.EncodeRow | crates/shpx-driver-postgis/src/copy_binary.rs:94-107 | succeeds iff the row has at most 32767 fields and all can be sent; appends one tuple that carries them in order and starts with their number |
| CopyWriter.WriteRow | crates/shpx-driver-postgis/src/writer.rs:279-284 | sent and buffered bytes together stay header plus tuples, the row's tuple added, and what stays buffered behind a row is below the threshold |
| CopyWriter.BulkWrite | crates/shpx-driver-postgis/src/writer.rs:247-297 | on success the sent chunks concatenate to one file that reads back as exactly the input rows; on failure they are the beginning of a file whose tuples carry the first of the input rows in order; nothing incomplete is ever committed; all chunks but the last reach the threshold |
| Doubles.LessIffBelow | crates/shpx-geom/src/spatialite_blob.rs:136-161 | comparing the bits of two doubles is comparing the numbers they stand for, from sign, exponent and fraction, subnormals, zeros and infinities included |
| Doubles.MinusThree | crates/shpx-geom/src/spatialite_blob.rs:136-161 | the number of the double -3.0 |
| Geometry.CoordsAreAllPoints | crates/shpx-geom/src/geom_walk.rs:55-83 | the coordinates are exactly the points of the geometry, in all rings, holes and members |
| Geometry.ComputeMbr | crates/shpx-geom/src/spatialite_blob.rs:136-161 | fails iff an axis has no finite ordinate or an infinite one; otherwise each bound is attained and no ordinate that is a number lies beyond it |
| Geometry.Walk | crates/shpx-geom/src/geom_walk.rs:55-83 | visits exactly the nested coordinates in order, folding them into the bounds |
| Geometry.ExtendedIsTight | crates/shpx-geom/src/spatialite_blob.rs:136-161 | folding the four bounds over any coordinate list gives its tight box |
| SpatialiteBlob.WriteInner | crates/shpx-geom/src/spatialite_blob.rs:186-247 | fails iff some count does not fit 32 bits; otherwise appends the encoding of the geometry, all six kinds |
| SpatialiteReader.Cursor.ReadInner | crates/shpx-geom/src/spatialite_blob.rs:249-337 | reads from the cursor what the reference decoder reads at that position and advances behind it |
| SpatialiteReader.Cursor.EnsureRemainingFor | crates/shpx-geom/src/spatialite_blob.rs:401-412 | passes iff that many items can still follow |
| SpatialiteFormat.WrittenF64 | crates/shpx-geom/src/spatialite_blob.rs:366-450 | a double is written as its 64 bits, most significant byte first or last |
| SpatialiteFormat.GeomInverse | crates/shpx-geom/src/spatialite_blob.rs:186-358 | in either byte order, a geometry is decoded at a position iff its encoding stands there, and exactly those bytes are consumed; so the count guard rejects no genuine blob |
| Framing.ListInverse | crates/shpx-geom/src/spatialite_blob.rs:339-412 | a guarded counted list decoder inverts the list encoder whenever the item decoder inverts the item encoder |
| WkbFormat.ChildInverse | crates/shpx-geom/src/wkb.rs:223-268 | a member in either byte order is decoded exactly where its encoding stands, and by no other type code |
| WkbFormat.WkbInverse | crates/shpx-geom/src/wkb.rs:191-278 | a geometry with all its byte orders, those of the members included, is decoded at a position iff its encoding stands there, and exactly those bytes are consumed |
| Examples.MixedMultiPoint | crates/shpx-geom/src/wkb.rs:95-278 | the bytes of a multipoint whose members differ in byte order |
| Examples.SmallBigEndianPolygon | crates/shpx-geom/src/wkb.rs:191-292 | the bytes of a polygon in big-endian order |
| WkbCodec.EncodeInto | crates/shpx-geom/src/wkb.rs:95-176 | fails iff some count does not fit 32 bits; otherwise appends the little-endian form of the geometry |
| WkbCodec.Encode | crates/shpx-geom/src/wkb.rs:52-56 | the bytes are WKB of that geometry, all in little-endian order |
| WkbCodec.ReadGeom | crates/shpx-geom/src/wkb.rs:191-278 | reads with the cursor what the reference decoder reads there; a member of another kind is refused; every level of nesting has consumed nine bytes |
| WkbCodec.Decode | crates/shpx-geom/src/wkb.rs:178-189 | accepts exactly the WKB values in any mixture of byte orders, without trailing bytes, and returns the geometry |
| WkbCodec.ReadIffWkb | crates/shpx-geom/src/wkb.rs:178-189 | the bytes read as a geometry iff they are its WKB in some choice of byte orders, so they are WKB of at most one |
| WkbCodec.EncodeThenDecode | crates/shpx-geom/src/wkb.rs:52-189 | every geometry whose counts fit comes back bit for bit |
| SpatialiteCodec.SizeIsExact | crates/shpx-geom/src/spatialite_blob.rs:163-184 | the blob is exactly as long as the estimate |
| Examples.SpatialiteMultiPoint | crates/shpx-geom/src/spatialite_blob.rs:59-247 | the bytes of a multipoint blob with SRID 4326 |
| SpatialiteCodec.Encode | crates/shpx-geom/src/spatialite_blob.rs:59-83 | succeeds iff the argument is WKB, in any byte orders, of a geometry with a finite box; the blob holds SRID, a tight box and that geometry, and has the estimated length |
| SpatialiteCodec.EncodeBlob | crates/shpx-geom/src/spatialite_blob.rs:61-83 | the same from the geometry on: fails iff there is no finite box or a count does not fit |
| SpatialiteCodec.Decode | crates/shpx-geom/src/spatialite_blob.rs:85-134 | accepts exactly the blobs, in either byte order, and returns the SRID and the standard little-endian WKB of the geometry |
| SpatialiteCodec.DecodeBlob | crates/shpx-geom/src/spatialite_blob.rs:85-130 | up to the geometry: byte order, SRID and geometry are those the blob was made of |
| SpatialiteCodec.BlobUnique | crates/shpx-geom/src/spatialite_blob.rs:59-134 | a byte string is the blob of at most one byte order, SRID, box and geometry |
| SpatialiteCodec.EncodeThenDecode | crates/shpx-geom/src/spatialite_blob.rs:59-134 | whatever can be encoded comes back with its SRID as standard WKB of the same geometry, and byte for byte iff the argument was standard |
| SpatialiteCodec.DecodeThenEncode | crates/shpx-geom/src/spatialite_blob.rs:59-134 | through WKB and back, a little-endian blob re-encodes, iff its geometry has a box, to itself outside bytes 6 to 37 |
| Ewkb.EncodeStrip | crates/shpx-geom/src/ewkb.rs:39-119 | stripping undoes tagging: same WKB and the SRID, in either byte order |
| Ewkb.StripEncode | crates/shpx-geom/src/ewkb.rs:39-119 | tagging undoes stripping, byte for byte |
| Ewkb.TaggableIffPlain | crates/shpx-geom/src/ewkb.rs:39-119 | the inputs that can be tagged are exactly those that stripping passes through |
| Ewkb.TaggableTypes | crates/shpx-geom/src/ewkb.rs:39-119 | they have a byte order and a type below the three flag bits |
| Ewkb.TaggedLayout | crates/shpx-geom/src/ewkb.rs:39-119 | what tagging writes: the byte order, the type plus the SRID bit, the SRID, the rest, both words in that byte order |
| Examples.TaggedPoint | crates/shpx-geom/src/ewkb.rs:39-119 | the bytes of a tagged point |
| GpkgBlob.Encode | crates/shpx-geom/src/gpkg_blob.rs:105-120 | the blob is the header and payload in little-endian order with zero reserved bits, which `GpkgBlob.WrittenIsRead` reads back |
| GpkgBlob.Decode | crates/shpx-geom/src/gpkg_blob.rs:122-181 | succeeds iff the blob is some header and payload encoded in one of the two byte orders with some reserved bits, and returns these; each of the five errors has its exact condition |
| GpkgBlob.WrittenIsRead | crates/shpx-geom/src/gpkg_blob.rs:122-271 | whatever byte order and reserved bits a header was written with, its fields, envelope floats included, and the payload are what is read |
| GpkgBlob.ReadIsWritten | crates/shpx-geom/src/gpkg_blob.rs:122-271 | a blob that passes the checks is the encoding, in its own byte order, of the header read from it |
| GpkgBlob.BlobUnique | crates/shpx-geom/src/gpkg_blob.rs:105-181 | a byte string is the blob of at most one header and payload |
| GpkgBlob.ReadF64Array | crates/shpx-geom/src/gpkg_blob.rs:244-271 | fills the array with the leading floats iff there are enough bytes |
| GpkgBlob.EncodeThenDecode | crates/shpx-geom/src/gpkg_blob.rs:105-271 | decoding undoes encoding for every header and payload, floats bit for bit |
| GpkgBlob.DecodeEncode | crates/shpx-geom/src/gpkg_blob.rs:105-271 | an accepted blob re-encodes to itself iff it is little-endian and its reserved flag bits are zero |
| Examples.GpkgHeaders | crates/shpx-geom/src/gpkg_blob.rs:105-120 | the header bytes with and without an envelope |
| Examples.GpkgFlags | crates/shpx-geom/src/gpkg_blob.rs:105-120 | the flag bytes of the other envelopes |
| SequentialReader.ScriptIsChunked | crates/shpx-driver-shp/src/reader.rs:121-156 | batching row by row is cutting the rows into full chunks; a leftover is kept only when the source ends cleanly |
| SequentialReader.CleanScript | crates/shpx-driver-fgb/src/reader.rs:401-475 | without an error the results are the rows of the whole source, chunk by chunk in order, all but the last full and none empty |
| ReaderProtocol.StepKeepsInv | crates/shpx-driver-postgis/src/reader.rs:195-255 | every step of worker, channel or consumer, panics of the worker included, keeps: delivered, queued and still to come together are the sequential results |
| ReaderProtocol.Safety | crates/shpx-driver-shp/src/reader.rs:121-233 | in every interleaving the delivered results are a prefix of the sequential ones, only the last can be an error, and at most two batches are queued |
| ReaderProtocol.CleanEnd | crates/shpx-driver-shp/src/reader.rs:121-233 | after an end without an error every row was delivered, in order and in full batches, iff the worker did not panic with anything left |
| ReaderProtocol.PanicLooksLikeTheEnd | crates/shpx-driver-shp/src/reader.rs:121-233 | a run with a row in the source that ends without the row and without an error |
| ReaderProtocol.NothingAfterTheEnd | crates/shpx-driver-postgis/src/reader.rs:291-310 | nothing is delivered after an error or the end |
| ReaderProtocol.NoDeadlock | crates/shpx-driver-postgis/src/reader.rs:183-310 | while the consumer holds its receiver one of the two threads can move |
| ReaderProtocol.DeliveredChunks | crates/shpx-driver-shp/src/reader.rs:121-233 | in every run, at every moment, the i-th delivered batch is the conversion of the i-th chunk of the source rows |
| ReaderProtocol.StepsRunOut | crates/shpx-driver-postgis/src/reader.rs:183-310 | every step that changes the state uses up fuel |
| ReaderProtocol.EveryRunEnds | crates/shpx-driver-postgis/src/reader.rs:183-310 | a run makes at most six steps per source item and eight more, and where no step is left the consumer has seen the end and the worker is gone |
| ReaderProtocol.WorkerStops | crates/shpx-driver-shp/src/reader.rs:133-156 | once the receiver is dropped the worker makes at most batch size plus one further moves |
| FgbBatches.Open | crates/shpx-driver-fgb/src/reader.rs:85-209 | fails iff the read-ahead meets a broken feature; loses no row; a DateTime column becomes Date32 iff the file is shorter than the limit, the column has values, and none in the whole file has a `T` or a blank in it |
| FgbBatches.NarrowedRightly | crates/shpx-driver-fgb/src/reader.rs:308-339 | such a column is one of dates, `YYYY-MM-DD`, iff every value without `T` and blank is one |
| FgbBatches.LowerCaseNarrowed | crates/shpx-driver-fgb/src/reader.rs:308-339 | opening a file whose one value is a timestamp with a lower-case t narrows its column |
| FgbBatches.Prefetch | crates/shpx-driver-fgb/src/reader.rs:141-163 | buffers the leading rows and notices the end iff the file is shorter than the limit |
| FgbBatches.RefineArrowTypes | crates/shpx-driver-fgb/src/reader.rs:309-339 | narrows exactly the DateTime columns that have values, none of them with a `T` or a blank |
| FgbBatches.TimestampsKept | crates/shpx-driver-fgb/src/reader.rs:309-339 | one value with an upper-case T or a blank keeps the column one of timestamps |
| FgbBatches.BatchIter.Next | crates/shpx-driver-fgb/src/reader.rs:401-475 | call by call the results are those of reading the whole file sequentially, however much was read ahead; nothing follows an error or the end |
| FeatureStream.FcFeatureStream.Pull | crates/shpx-driver-geojson/src/stream.rs:139-253 | one call does what the flat byte sequence says, so the split into buffers makes no difference |
| FeatureStream.BufReader.PeekNonWs | crates/shpx-driver-geojson/src/stream.rs:113-134 | finds the next visible byte across buffers and consumes only the whitespace before it |
| FeatureStream.BufReader.NextNonWs | crates/shpx-driver-geojson/src/stream.rs:103-110 | takes the next visible byte off the reader |
| FeatureStream.FcFeatureStream.SkipToBracket | crates/shpx-driver-geojson/src/stream.rs:149-176 | skips everything up to the first bracket, or reports its absence or the read error |
| FeatureStream.SkippedBlanks | crates/shpx-driver-geojson/src/stream.rs:103-134 | the bytes skipped are the blanks of JSON and the form feed |
| FeatureStream.CallsMakeProgress | crates/shpx-driver-geojson/src/stream.rs:139-253 | each call consumes input or ends the stream |
| FeatureStream.NothingAfterTheEnd | crates/shpx-driver-geojson/src/stream.rs:139-253 | after the first None or the first error every call returns None |
| FeatureStream.OneErrorAtMost | crates/shpx-driver-geojson/src/stream.rs:139-253 | an error can only be the last item |
| FeatureStream.WellFormedDocument | crates/shpx-driver-geojson/src/stream.rs:84-253 | without an earlier bracket, a closed array, the empty one included, yields exactly its elements in order and no error, whatever follows the bracket |
| FeatureStream.DocumentDrains | crates/shpx-driver-geojson/src/stream.rs:84-253 | the elements come out in order, and then the results depend only on what follows the last of them |
| FeatureStream.QuietEnd | crates/shpx-driver-geojson/src/stream.rs:178-253 | an array, cut anywhere or closed, yields its elements without an error iff behind the last one the bracket follows, or, unless there was no element, a comma and then only blanks to the end of the file |
| FeatureStream.EarlierBracket | crates/shpx-driver-geojson/src/stream.rs:149-176 | a closed document is read iff no bracket stands before the features array, or there are no features and the earlier array is empty; the only documents set aside are those where an element stands right behind the earlier bracket |
| FeatureStream.NoObjectNoElement | crates/shpx-driver-geojson/src/stream.rs:149-253 | looking at the first visible byte behind the earlier bracket settles that: elements are objects |
| FeatureStream.MistakenDocument | crates/shpx-driver-geojson/src/stream.rs:149-253 | with an earlier bracket the stream yields what the bytes behind that bracket yield as an array, for every document |
| FeatureStream.LeadingBbox | crates/shpx-driver-geojson/src/stream.rs:149-221 | behind a leading bbox the stream is a single error |
| FeatureStream.EmptyEarlyArray | crates/shpx-driver-geojson/src/stream.rs:149-221 | behind an empty earlier array it is empty, without an error |
| Staging.EncodeRow | crates/shpx-driver-sqlserver/src/bulk.rs:31-63 | fails iff a cell cannot be encoded; otherwise the cells stand in the order of the staging columns |
| Database.ExpectedByName | crates/shpx-driver-sqlserver/src/staging.rs:37-91 | the target row, a map from column names, holds each attribute cell under the name of its column and the geometry under its own |
| Staging.ColumnsAligned | crates/shpx-driver-sqlserver/src/staging.rs:37-91 | selecting by name from an encoded row puts each cell under its own name in the target, provided no name stands twice in a column list |
| Staging.ChunksKeepRows | crates/shpx-driver-sqlserver/src/staging.rs:139-185 | grouping batches into chunks neither loses, repeats nor reorders a row |
| Staging.ChunkSizes | crates/shpx-driver-sqlserver/src/staging.rs:139-185 | no chunk is empty and all but the last have at least the chunk size |
| Staging.FlushChunk | crates/shpx-driver-sqlserver/src/staging.rs:188-220 | on success exactly the rows of the chunk are added to what the connection sees, staging is empty again, and they are committed iff no transaction was open before; on failure the committed rows are the old ones, or also the whole chunk if only the commit reported failure; a row that cannot be encoded leaves one more transaction open |
| Staging.RunBulkChunks | crates/shpx-driver-sqlserver/src/staging.rs:108-185 | on any connection: on success the connection sees every input row exactly once, in order, columns aligned, and they are committed iff no transaction was open before; whatever fails, the committed target is the original plus a whole number of leading chunks, and inside an open transaction the original |
| MultiRowInsert.ChunkRowsIsLargest | crates/shpx-rdb-common/src/multirow.rs:20-27 | the chunk size is the largest that keeps the parameters below the limit by the margin, and one when a single row exceeds it |
| MultiRowInsert.ParameterLimits | crates/shpx-rdb-common/src/multirow.rs:20-27 | a statement has as many rows as keep its parameters within 32751 for PostGIS and 2084 for SQL Server |
| MultiRowInsert.ValuesListLimit | crates/shpx-rdb-common/src/multirow.rs:20-27 | the chunk size stays within 1000 rows iff the layer has an attribute column, and is 1042 otherwise |
| MultiRowInsert.BuildInsertSqlChunk | crates/shpx-driver-postgis/src/writer.rs:457-489 | builds the statement for that many rows, with the column list of the layer |
| MultiRowInsert.TuplesNumbers | crates/shpx-driver-sqlserver/src/writer.rs:391-428 | read left to right the placeholders are exactly 1 to rows times parameters per row, in both layouts |
| MultiRowInsert.BuildRowParams | crates/shpx-driver-postgis/src/writer.rs:491-515 | fails iff a value cannot be bound; otherwise attributes in order, then the geometry parameters |
| MultiRowInsert.ParamBindsCell | crates/shpx-driver-sqlserver/src/writer.rs:456-488 | parameter number r times k plus c plus 1 is column c of row r |
| MultiRowInsert.ChunkInsertsItsRows | crates/shpx-driver-postgis/src/writer.rs:203-227 | binding the parameters to the statement inserts exactly the rows of the chunk, each cell under the name of its column, iff no two columns share a name |
| MultiRowInsert.ParamsLength | crates/shpx-driver-postgis/src/writer.rs:215-220 | a chunk binds exactly rows times parameters per row values |
| MultiRowInsert.WriteChunks | crates/shpx-driver-sqlserver/src/writer.rs:241-271 | the chunks are the batch cut into full pieces in order, the cached statement is always the one for the current size, and no statement exceeds the limit unless a single row does |
| MultiRowInsert.WriteBatch | crates/shpx-driver-postgis/src/writer.rs:182-231 | all rows of the batch are committed in order or none; Ok outside a transaction means committed; after a failure PostGIS is outside a transaction again; after a row that cannot be encoded SQL Server is one transaction deeper |
| MultiRowInsert.OkWithoutCommit | crates/shpx-driver-sqlserver/src/writer.rs:210-281 | two calls on SQL Server: after a row that cannot be encoded the second call can return Ok, the transaction stays open, and nothing is committed |
| LoadRuns.RunCommitsWholeChunks | crates/shpx-driver-sqlserver/src/writer.rs:210-324 | over any run of calls of both kinds, failed ones included, the table gains whole chunks in order and nothing else |
| LoadRuns.PostgresOkLands | crates/shpx-driver-postgis/src/writer.rs:182-231 | PostGIS: every call that returns Ok has committed its rows, whatever failed before |
| LoadRuns.SqlServerOkLands | crates/shpx-driver-sqlserver/src/writer.rs:210-324 | SQL Server: as long as no call reported a failure of the server, a call that returns Ok has committed its rows iff no earlier call met a row it could not encode, and none of them otherwise |
| LoadRuns.EncodeFailureBlocks | crates/shpx-driver-sqlserver/src/writer.rs:210-324 | whatever came before, such a call keeps every later one from committing until the server fails |
| JsonInference.ColumnState.Update | crates/shpx-driver-geojson/src/reader.rs:261-291 | after each value the fields represent the set of kinds seen |
| JsonInference.ColumnState.IntoArrowType | crates/shpx-driver-geojson/src/reader.rs:293-303 | the column type is a function of that set |
| JsonInference.IntegersOfI64 | crates/shpx-driver-geojson/src/reader.rs:264-275 | a number counts as an integer iff some i64 is its value |
| JsonInference.MergeAddsKind | crates/shpx-driver-geojson/src/reader.rs:307-315 | merging is adding one kind to the set |
| JsonInference.OrderDoesNotMatter | crates/shpx-driver-geojson/src/reader.rs:215-315 | samples with the same cells, in any order and multiplicity, give every key the same type |
| JsonInference.ColumnsAreTheKeys | crates/shpx-driver-geojson/src/reader.rs:215-239 | the columns are exactly the keys, none twice |
| JsonInference.ColumnsByFirstAppearance | crates/shpx-driver-geojson/src/reader.rs:213-239 | and they stand in the order of first appearance |
| JsonInference.InferColumns | crates/shpx-driver-geojson/src/reader.rs:215-239 | the map of column states yields that column list with those types |
| JsonInference.LostExactlyWhen | crates/shpx-driver-geojson/src/reader.rs:517-561 | a value becomes null iff it is null or its kind is not one the column type takes |
| JsonInference.NotLostMeansKept | crates/shpx-driver-geojson/src/reader.rs:517-561 | a cell that is not null holds the value, its number or its text |
| JsonInference.SampleKept | crates/shpx-driver-geojson/src/reader.rs:480-561 | in the rows of the sample a cell is null iff the property is missing or null |
| JsonInference.AppendRow | crates/shpx-driver-geojson/src/reader.rs:480-485 | one cell for each column, from the property of that name |
| JsonInference.UnifyGeometryType | crates/shpx-driver-geojson/src/reader.rs:318-343 | refuses collections; a single kind is kept iff no other occurs |
| Utf8.TruncateAtCharBoundary | crates/shpx-driver-shp/src/util.rs:63-72 | the longest prefix of whole characters that fits the byte limit |
| Utf8.BoundaryIsPrefix | crates/shpx-driver-shp/src/util.rs:67-71 | every offset accepted as a character boundary is the byte length of a prefix |
| Utf8.WidthIsShortest | crates/shpx-driver-shp/src/util.rs:63-72 | the byte length of a character is that of its shortest form, which gives the character back |
| DbfPlan.MappingOutcome | crates/shpx-driver-shp/src/dbf_schema.rs:152-234 | a column aborts the plan iff its type is lossy and the policy is Error; it is dropped iff the policy is another and the type is unwritable, or a timestamp under Skip |
| DbfPlan.MappingFits | crates/shpx-driver-shp/src/dbf_schema.rs:152-234 | the declared width exceeds the decimals iff the Arrow scale is within its precision |
| DbfPlan.IntegersFit | crates/shpx-driver-shp/src/dbf_schema.rs:159-170 | the declared width holds the decimal text of every integer, for Int64 iff it lies between -10^17 and 10^18 |
| DbfPlan.DecimalsFit | crates/shpx-driver-shp/src/dbf_schema.rs:216-231 | every decimal column that is planned, at any precision and scale: exactly which values fit the declared width, which has one place for sign and point together |
| DbfPlan.PlannedStores | crates/shpx-driver-shp/src/dbf_schema.rs:152-234 | for every type that is planned: exactly which values the planned field stores as they are, text, truth values, numbers and dates |
| DbfFields.DaysStored | crates/shpx-driver-shp/src/writer.rs:275-286 | the days a date field can hold are those of the years 0 to 9999 |
| DbfPlan.PlannedIsWritten | crates/shpx-driver-shp/src/writer.rs:201-293 | the row writer has a branch for every planned column but those of timestamps |
| DbfPlan.UselessColumns | crates/shpx-driver-shp/src/dbf_schema.rs:216-231 | the declared field holds no value at all iff it has decimals and as many as the precision or more, or for a precision above 18 at least 17 |
| DbfPlan.NarrowDecimalsFit | crates/shpx-driver-shp/src/dbf_schema.rs:216-225 | up to 18 digits a value within the precision fits iff there are no decimals, or it keeps an integer digit, and when negative leaves a further place free |
| DbfPlan.PickDbfName | crates/shpx-driver-shp/src/dbf_schema.rs:239-263 | the chosen name is unused, at most ten bytes and the first free spelling; it fails iff the policy forbids shortening or all spellings are taken, the latter only from 9000 used names on; a ten-byte name is kept iff it is unused |
| DbfPlan.NumberCuts | crates/shpx-driver-shp/src/dbf_schema.rs:250-259 | a numbered spelling keeps the whole name iff name and number fit ten bytes |
| DbfPlan.CutWithoutError | crates/shpx-driver-shp/src/dbf_schema.rs:236-264 | a taken ten-byte name comes out cut under the Error policy |
| DbfPlan.FindSuffix | crates/shpx-driver-shp/src/dbf_schema.rs:250-259 | the first free numbered spelling, if any |
| DbfPlan.NamesNeverRunOut | crates/shpx-driver-shp/src/dbf_schema.rs:250-259 | all spellings taken means at least 9000 used names |
| DbfPlan.NineThousandCanBlock | crates/shpx-driver-shp/src/dbf_schema.rs:250-259 | for any ten-byte name ending in a multiple of 1000, some 9000 names do block it |
| DbfPlan.EachColumnOnce | crates/shpx-driver-shp/src/dbf_schema.rs:112-145 | every attribute column is in exactly one of the written and the dropped list, once, both in schema order |
| DbfPlan.ErrorPolicyDropsNothing | crates/shpx-driver-shp/src/dbf_schema.rs:112-145 | under the Error policy no column is left out |
| DbfPlan.NamesDistinct | crates/shpx-driver-shp/src/dbf_schema.rs:112-145 | no two fields of a plan share a name |
| DbfPlan.PlanDbfWriterSchema | crates/shpx-driver-shp/src/dbf_schema.rs:112-145 | with at most 9000 columns it fails iff the policy refuses a column, at the first such column and with the error of its type, else of its name; a plan has the written columns as fields, the dropped ones as names, and each field the first free spelling; each field stores exactly the values its type says |
| DecimalText.FormatCsv | crates/shpx-driver-csv/src/writer.rs:245-275 | prints sign, quotient and remainder by 10^scale, for every i128 and scale |
| DecimalText.PrintersAgree | crates/shpx-driver-gpkg/src/writer.rs:444-466 | the GeoPackage printer gives the same text iff the value is not i128::MIN or the scale is at most 0 |
| DecimalText.WholeIsQuotient | crates/shpx-driver-csv/src/writer.rs:261-274 | the whole part of the text is the quotient by 10^scale |
| DecimalText.CutNumeral | crates/shpx-driver-csv/src/writer.rs:261-274 | cutting the numeral at the scale, or padding it with zeros, is dividing by 10^scale |
| DecimalText.ReadBack | crates/shpx-driver-csv/src/writer.rs:245-275 | parsing the text gives back the value with exactly scale fraction digits |
| Examples.DecimalTexts | crates/shpx-driver-csv/src/writer.rs:245-275 | some texts |
| DecimalText.TextValue | crates/shpx-driver-csv/src/writer.rs:246-249 | the text has the value of the column iff the scale is not negative or the value is 0 |
| DecimalText.TextInjective | crates/shpx-driver-csv/src/writer.rs:245-275 | different values of one scale never share a text |

## Left out

- Infinities and out-of-range digits on the wire: `PgNumericCodec.ToI128WithScale` is stated for digits in 0..9999; `NumericWire.FromSql` accepts any digits, as the code does.
- The three panics on oversized COPY fields (`expect` on a length) are an error value of the model; the numeric payload cannot reach them.
- The date written for a year before 0 or after 9999, which the code saturates or leaves to its library.
- Values of float columns finer than a millionth: `DbfPlan.PlannedStores` takes them in millionths.
- `f64` arithmetic: integers and decimals that pass through `f64` in the DBF writer and in a JSON float column are not rounded here; `DbfPlan.IntegersFit` and `DbfPlan.DecimalsFit` speak of the exact decimal text.
- Bytes consumed by the element parser when it rejects an element: the feature stream is over then, and nothing reads on.
- SQL text: statements are structures with column lists and numbered parameters; quoting, type names and the case-insensitive comparison of SQL Server column names are not modelled.
- What a client-side failure does to an unfinished bulk request on the wire, after which the server may refuse the next statement.
- Dropping the staging table at the end of a load is best effort and left out.
- Catalog queries, connection setup, TLS, spatial index creation, pagination iterators, and the per-type conversion switches of the relational readers.
- Whether a date text is a day of the calendar, and what chrono makes of other texts.
- Calendar formatting, time zones, text encodings and reprojection, which belong to libraries.
- The `crs` member scanner and the line-delimited GeoJSON reader: single loops whose properties would be easy members.
- Geometry conversions between variant types, GeoParquet metadata and CRS merging: variant maps.
- Error texts and tracing: an error is modelled by its kind, and by the column where the code names it.
