/**
 * The content-addressed object store of iss.py as a state machine over an
 * abstract filesystem.
 *
 * The state holds the files under the blob tree (path to raw bytes) and under
 * the metadata tree (path to the JSON object written there).  Directories are
 * not stored: the blob roots always exist (they are created at start-up), and
 * every proper ancestor of a stored blob file exists because `_ensure_dirs`
 * created it before the blob was written.
 *
 * SHA-256, the PIL image probe, `json.loads` and `time.time()` are parameters:
 * `hash` maps bytes to a 64-character lowercase hex digest, `probe` tells what
 * `Image.open(...).size` did, `parse` tells what `json.loads` returned, and
 * `now` is the clock reading.
 */
module ObjectStore {
  import opened Wrappers
  import opened Paths

  newtype byte = x: int | 0 <= x < 256
  type Bytes = seq<byte>

  /** A JSON value as `json.dump` writes it. */
  datatype Json =
    | JNull
    | JBool(b: bool)
    | JInt(i: int)
    | JReal(r: real)
    | JStr(s: string)
    | JArray(items: seq<Json>)
    | JObject(fields: map<string, Json>)

  /** A metadata record: the JSON object stored in a `.json` side file. */
  type Record = map<string, Json>

  datatype Store = Store(blobs: map<string, Bytes>, meta: map<string, Record>)

  /** The store at start-up: both trees empty, only the blob root created. */
  const EmptyStore: Store := Store(map[], map[])

  /** What the PIL probe of the uploaded bytes reports: their size, or one of two failures. */
  datatype Probe =
    | Dimensions(width: int, height: int)
    /** `UnidentifiedImageError`, the one exception the upload swallows */
    | Unidentified
    /** any other exception, such as PIL's decompression-bomb error */
    | Crashed

  /** The ways a request fails: HTTP 404, or an exception surfacing as a server error. */
  datatype Error =
    | InvalidIdentifier   // the `assert` in `_path_for`
    | NotFound            // `HTTPException(404)`
    | IsADirectory        // `open()` on a path that names a directory
    | MissingFile         // `file.read()` on an absent upload
    | MalformedMetadata   // `json.loads` failed, or its value has no `update`
    | DecoderFailed       // an image-probe exception other than `UnidentifiedImageError`

  datatype ImageReceipt = ImageReceipt(imageId: string, bytes: nat, filename: Option<string>)
  datatype ArtifactReceipt = ArtifactReceipt(artifactId: string, kind: string)

  /** The state after a request and what the request returned. */
  datatype Step<T> = Step(store: Store, result: Result<T, Error>)

  /** The identifier handed out for some bytes: the tag and the hex digest. */
  function IdFor(hash: Bytes -> HexDigest, raw: Bytes): (id: string)
    ensures Tag <= id && |id| == |Tag| + 64
    ensures id[|Tag|..] == hash(raw)
  {
    Tag + hash(raw)
  }

  // ---------------------------------------------------------------------------
  // The filesystem as `os.path.exists` sees it.

  /** `p` names a directory that holds the file `k` somewhere below it. */
  predicate IsAncestorDir(p: string, k: string) {
    |p| < |k| && k[..|p|] == p && (k[|p|] == '/' || EndsWithSlash(p))
  }

  /**
   * A directory of the blob tree: the root, created at start-up, or a
   * directory some stored blob was written below.
   */
  predicate IsDirectory(s: Store, p: string): (r: bool)
    ensures p == BlobRoot || p == BlobRoot + "/" ==> r
    ensures forall k :: k in s.blobs && IsAncestorDir(p, k) ==> r
    ensures r && p != BlobRoot && p != BlobRoot + "/" ==> |s.blobs| > 0
  {
    p == BlobRoot || p == BlobRoot + "/" || exists k :: k in s.blobs && IsAncestorDir(p, k)
  }

  /** `os.path.exists` on a path of the blob tree: a file or a directory. */
  predicate Exists(s: Store, p: string): (r: bool)
    ensures p in s.blobs ==> r
    ensures IsDirectory(s, p) ==> r
    ensures s.blobs == map[] ==> (r <==> p == BlobRoot || p == BlobRoot + "/")
  {
    p in s.blobs || IsDirectory(s, p)
  }

  // ---------------------------------------------------------------------------
  // Metadata records.

  function JsonOfOption(v: Option<string>): Json {
    match v
    case Some(t) => JStr(t)
    case None => JNull
  }

  /** The record an image upload writes; `probe` must not have crashed. */
  function ImageRecord(raw: Bytes, contentType: Option<string>, probe: Probe, now: real): (rec: Record)
    requires !probe.Crashed?
    ensures ImageFields(rec, raw, contentType, probe, now) && Describes(rec, raw)
  {
    var (width, height) := match probe
      case Dimensions(w, h) => (JInt(w), JInt(h))
      case _ => (JNull, JNull);
    map["kind" := JStr("image"), "bytes" := JInt(|raw|), "mime" := JsonOfOption(contentType),
        "width" := width, "height" := height, "created_at" := JReal(now)]
  }

  /** The six keys an image record holds. */
  const ImageKeys: set<string> := {"kind", "bytes", "mime", "width", "height", "created_at"}

  /**
   * The fields an image record promises: exactly the six image keys, with
   * kind, size, declared MIME type, both dimensions or neither, and the clock
   * reading.
   */
  predicate ImageFields(rec: Record, raw: Bytes, contentType: Option<string>, probe: Probe, now: real) {
    && rec.Keys == ImageKeys
    && "kind" in rec && rec["kind"] == JStr("image")
    && "bytes" in rec && rec["bytes"] == JInt(|raw|)
    && "mime" in rec && rec["mime"] == JsonOfOption(contentType)
    && "width" in rec && "height" in rec
    && (rec["width"].JNull? <==> rec["height"].JNull?)
    && (probe.Dimensions? ==> rec["width"] == JInt(probe.width) && rec["height"] == JInt(probe.height))
    && (!probe.Dimensions? ==> rec["width"] == JNull)
    && "created_at" in rec && rec["created_at"] == JReal(now)
  }

  /** The keys the artifact upload always sets, whatever the caller sent. */
  const Mandatory: set<string> := {"kind", "bytes", "created_at"}

  /**
   * The caller's metadata fields: none when the metadata text is absent or
   * empty, otherwise the members of the JSON object it parses to; text that
   * does not parse, or parses to anything but an object, cannot be updated
   * and fails the request.
   */
  function CallerFields(metaText: Option<string>, parse: string -> Option<Json>): (r: Result<Record, Error>)
    ensures (metaText.None? || metaText == Some("")) ==> r == Success(map[])
    ensures r.Failure? <==> metaText.Some? && metaText.value != "" && !(parse(metaText.value).Some? && parse(metaText.value).value.JObject?)
    ensures r.Success? && metaText.Some? && metaText.value != "" ==> parse(metaText.value) == Some(JObject(r.value))
  {
    if metaText.None? || metaText.value == "" then Success(map[])
    else match parse(metaText.value)
      case Some(JObject(fields)) => Success(fields)
      case _ => Failure(MalformedMetadata)
  }

  /** The caller's fields overridden by the mandatory ones (`dict.update`). */
  function ArtifactRecord(fields: Record, kind: string, raw: Bytes, now: real): (rec: Record)
    ensures ArtifactFields(rec, fields, kind, raw, now) && Describes(rec, raw)
  {
    fields + map["kind" := JStr(kind), "bytes" := JInt(|raw|), "created_at" := JReal(now)]
  }

  /** Callers may add keys but never override kind, bytes or created_at. */
  predicate ArtifactFields(rec: Record, fields: Record, kind: string, raw: Bytes, now: real) {
    && rec.Keys == fields.Keys + Mandatory
    && rec["kind"] == JStr(kind) && rec["bytes"] == JInt(|raw|) && rec["created_at"] == JReal(now)
    && (forall key :: key in fields && key !in Mandatory ==> rec[key] == fields[key])
  }

  /** What every metadata record must say about its blob. */
  predicate Describes(rec: Record, blob: Bytes) {
    && "kind" in rec && rec["kind"].JStr?
    && "bytes" in rec && rec["bytes"] == JInt(|blob|)
    && "created_at" in rec
  }

  // ---------------------------------------------------------------------------
  // Invariants of the store.

  /** Every blob sits at the path its own digest names. */
  ghost predicate ContentAddressed(s: Store, hash: Bytes -> HexDigest) {
    forall k :: k in s.blobs ==> k == BlobPath(hash(s.blobs[k]))
  }

  /** Every metadata file belongs to a stored blob and describes it. */
  ghost predicate MetaSound(s: Store, hash: Bytes -> HexDigest) {
    && (forall m :: m in s.meta ==> exists k :: k in s.blobs && m == MetaPath(hash(s.blobs[k])))
    && (forall k :: k in s.blobs && MetaPath(hash(s.blobs[k])) in s.meta ==>
          Describes(s.meta[MetaPath(hash(s.blobs[k]))], s.blobs[k]))
  }

  ghost predicate Valid(s: Store, hash: Bytes -> HexDigest) {
    ContentAddressed(s, hash) && MetaSound(s, hash)
  }

  /** Every stored blob has its metadata file. */
  ghost predicate Complete(s: Store, hash: Bytes -> HexDigest) {
    forall k :: k in s.blobs ==> MetaPath(hash(s.blobs[k])) in s.meta
  }

  /** No stored blob other than `raw` itself has the digest of `raw`. */
  ghost predicate NoCollision(s: Store, hash: Bytes -> HexDigest, raw: Bytes) {
    forall k :: k in s.blobs && hash(s.blobs[k]) == hash(raw) ==> s.blobs[k] == raw
  }

  // ---------------------------------------------------------------------------
  // The shared write path.

  /**
   * The write path as iss.py runs it: skip everything when the blob path
   * exists; otherwise write the blob, and only then build the metadata record,
   * whose failure leaves the blob behind without metadata.
   */
  function WriteBlobThenMeta<T>(s: Store, loc: Locations, raw: Bytes,
                                record: Result<Record, Error>, receipt: T): (out: Step<T>)
    ensures Exists(s, loc.blob) ==> out == Step(s, Success(receipt))
    ensures !Exists(s, loc.blob) ==> out.store.blobs == s.blobs[loc.blob := raw]
    ensures !Exists(s, loc.blob) && record.Success? ==>
              out == Step(Store(s.blobs[loc.blob := raw], s.meta[loc.meta := record.value]), Success(receipt))
    ensures !Exists(s, loc.blob) && record.Failure? ==>
              out.store.meta == s.meta && out.result == Failure(record.error)
  {
    if Exists(s, loc.blob) then Step(s, Success(receipt))
    else
      var written := s.(blobs := s.blobs[loc.blob := raw]);
      match record
      case Failure(e) => Step(written, Failure(e))
      case Success(rec) => Step(written.(meta := written.meta[loc.meta := rec]), Success(receipt))
  }

  /** The write path with the record built before anything is written. */
  function WriteBlobAndMeta<T>(s: Store, loc: Locations, raw: Bytes,
                               record: Result<Record, Error>, receipt: T): (out: Step<T>)
    ensures Exists(s, loc.blob) ==> out == Step(s, Success(receipt))
    ensures !Exists(s, loc.blob) && record.Success? ==>
              out == Step(Store(s.blobs[loc.blob := raw], s.meta[loc.meta := record.value]), Success(receipt))
    ensures !Exists(s, loc.blob) && record.Failure? ==> out == Step(s, Failure(record.error))
  {
    if Exists(s, loc.blob) then Step(s, Success(receipt))
    else
      match record
      case Failure(e) => Step(s, Failure(e))
      case Success(rec) => Step(Store(s.blobs[loc.blob := raw], s.meta[loc.meta := rec]), Success(receipt))
  }

  /** The blob and metadata paths of the identifier computed for `raw`. */
  function LocationsFor(hash: Bytes -> HexDigest, raw: Bytes): (loc: Locations)
    ensures PathFor(IdFor(hash, raw)) == Some(loc)
    ensures loc == Locations(BlobPath(hash(raw)), MetaPath(hash(raw)))
  {
    DigestIdLayout(hash(raw));
    PathFor(IdFor(hash, raw)).value
  }

  // ---------------------------------------------------------------------------
  // Uploads as iss.py writes them.

  /** `POST /images` (`upload_image`). */
  function UploadImageAsWritten(s: Store, hash: Bytes -> HexDigest, probe: Bytes -> Probe, now: real,
                                raw: Bytes, contentType: Option<string>, filename: Option<string>)
    : (out: Step<ImageReceipt>)
    ensures out.result.Success? ==> out.result.value == ImageReceipt(IdFor(hash, raw), |raw|, filename)
    ensures Exists(s, BlobPath(hash(raw))) ==> out.store == s && out.result.Success?
    ensures !Exists(s, BlobPath(hash(raw))) ==> out.store.blobs == s.blobs[BlobPath(hash(raw)) := raw]
    ensures !Exists(s, BlobPath(hash(raw))) ==> (out.result.Failure? <==> probe(raw).Crashed?)
    ensures !Exists(s, BlobPath(hash(raw))) && probe(raw).Crashed? ==> out.store.meta == s.meta
    ensures !Exists(s, BlobPath(hash(raw))) && !probe(raw).Crashed? ==>
              var m := MetaPath(hash(raw));
              && m in out.store.meta
              && out.store.meta == s.meta[m := out.store.meta[m]]
              && ImageFields(out.store.meta[m], raw, contentType, probe(raw), now)
  {
    var loc := LocationsFor(hash, raw);
    var record := if probe(raw).Crashed? then Failure(DecoderFailed)
                  else Success(ImageRecord(raw, contentType, probe(raw), now));
    WriteBlobThenMeta(s, loc, raw, record, ImageReceipt(IdFor(hash, raw), |raw|, filename))
  }

  /** `POST /artifacts` (`upload_artifact`); `file` is `None` when no file part was sent. */
  function UploadArtifactAsWritten(s: Store, hash: Bytes -> HexDigest, parse: string -> Option<Json>, now: real,
                                   kind: string, metaText: Option<string>, file: Option<Bytes>)
    : (out: Step<ArtifactReceipt>)
    ensures file.None? ==> out == Step(s, Failure(MissingFile))
    ensures out.result.Success? ==> file.Some? && out.result.value == ArtifactReceipt(IdFor(hash, file.value), kind)
    ensures file.Some? && Exists(s, BlobPath(hash(file.value))) ==> out.store == s && out.result.Success?
    ensures file.Some? && !Exists(s, BlobPath(hash(file.value))) ==>
              && out.store.blobs == s.blobs[BlobPath(hash(file.value)) := file.value]
              && (out.result.Failure? <==> CallerFields(metaText, parse).Failure?)
    ensures file.Some? && !Exists(s, BlobPath(hash(file.value))) && CallerFields(metaText, parse).Failure? ==>
              out.store.meta == s.meta
    ensures file.Some? && !Exists(s, BlobPath(hash(file.value))) && CallerFields(metaText, parse).Success? ==>
              var m := MetaPath(hash(file.value));
              && m in out.store.meta
              && out.store.meta == s.meta[m := out.store.meta[m]]
              && ArtifactFields(out.store.meta[m], CallerFields(metaText, parse).value, kind, file.value, now)
  {
    match file
    case None => Step(s, Failure(MissingFile))
    case Some(raw) =>
      var loc := LocationsFor(hash, raw);
      var record := match CallerFields(metaText, parse)
        case Failure(e) => Failure(e)
        case Success(fields) => Success(ArtifactRecord(fields, kind, raw, now));
      WriteBlobThenMeta(s, loc, raw, record, ArtifactReceipt(IdFor(hash, raw), kind))
  }

  // ---------------------------------------------------------------------------
  // Uploads with the metadata record built before the blob is written.

  /** A probe failure of any kind degrades to absent dimensions, as for `UnidentifiedImageError`. */
  function BestEffort(probe: Probe): (p: Probe)
    ensures !p.Crashed?
    ensures probe.Dimensions? ==> p == probe
    ensures !probe.Dimensions? ==> p == Unidentified
  {
    if probe.Crashed? then Unidentified else probe
  }

  /** `upload_image` with every probe failure treated as "not an image". */
  function UploadImage(s: Store, hash: Bytes -> HexDigest, probe: Bytes -> Probe, now: real,
                       raw: Bytes, contentType: Option<string>, filename: Option<string>)
    : (out: Step<ImageReceipt>)
    ensures out.result == Success(ImageReceipt(IdFor(hash, raw), |raw|, filename))
    ensures Exists(s, BlobPath(hash(raw))) ==> out.store == s
    ensures !Exists(s, BlobPath(hash(raw))) ==>
              var m := MetaPath(hash(raw));
              && out.store.blobs == s.blobs[BlobPath(hash(raw)) := raw]
              && m in out.store.meta
              && out.store.meta == s.meta[m := out.store.meta[m]]
              && ImageFields(out.store.meta[m], raw, contentType, BestEffort(probe(raw)), now)
  {
    var loc := LocationsFor(hash, raw);
    var record := ImageRecord(raw, contentType, BestEffort(probe(raw)), now);
    WriteBlobAndMeta(s, loc, raw, Success(record), ImageReceipt(IdFor(hash, raw), |raw|, filename))
  }

  /** `upload_artifact` that rejects unusable caller metadata before writing anything. */
  function UploadArtifact(s: Store, hash: Bytes -> HexDigest, parse: string -> Option<Json>, now: real,
                          kind: string, metaText: Option<string>, file: Option<Bytes>)
    : (out: Step<ArtifactReceipt>)
    ensures file.None? ==> out == Step(s, Failure(MissingFile))
    ensures out.result.Success? ==> file.Some? && out.result.value == ArtifactReceipt(IdFor(hash, file.value), kind)
    ensures file.Some? && Exists(s, BlobPath(hash(file.value))) ==> out == Step(s, out.result) && out.result.Success?
    ensures file.Some? && !Exists(s, BlobPath(hash(file.value))) && CallerFields(metaText, parse).Failure? ==>
              out == Step(s, Failure(MalformedMetadata))
    ensures file.Some? && !Exists(s, BlobPath(hash(file.value))) && CallerFields(metaText, parse).Success? ==>
              var m := MetaPath(hash(file.value));
              && out.result.Success?
              && out.store.blobs == s.blobs[BlobPath(hash(file.value)) := file.value]
              && m in out.store.meta
              && out.store.meta == s.meta[m := out.store.meta[m]]
              && ArtifactFields(out.store.meta[m], CallerFields(metaText, parse).value, kind, file.value, now)
  {
    match file
    case None => Step(s, Failure(MissingFile))
    case Some(raw) =>
      var loc := LocationsFor(hash, raw);
      var record := match CallerFields(metaText, parse)
        case Failure(e) => Failure(e)
        case Success(fields) => Success(ArtifactRecord(fields, kind, raw, now));
      WriteBlobAndMeta(s, loc, raw, record, ArtifactReceipt(IdFor(hash, raw), kind))
  }

  // ---------------------------------------------------------------------------
  // Reads.

  /**
   * `GET /images/{id}` and `GET /artifacts/{id}` as written: both bodies are
   * the same `os.path.exists` test followed by `open(path, "rb")`, and `open`
   * fails on a directory.
   */
  function FetchAsWritten(s: Store, id: string): (r: Result<Bytes, Error>)
    ensures r == Failure(InvalidIdentifier) <==> !(Tag <= id)
    ensures r == Failure(NotFound) <==> Tag <= id && !Exists(s, PathFor(id).value.blob)
    ensures r == Failure(IsADirectory) <==>
              Tag <= id && PathFor(id).value.blob !in s.blobs && IsDirectory(s, PathFor(id).value.blob)
    ensures r.Success? ==> PathFor(id).Some? && r.value == s.blobs[PathFor(id).value.blob]
    ensures Tag <= id && PathFor(id).value.blob in s.blobs ==> r == Success(s.blobs[PathFor(id).value.blob])
  {
    match PathFor(id)
    case None => Failure(InvalidIdentifier)
    case Some(loc) =>
      if !Exists(s, loc.blob) then Failure(NotFound)
      else if loc.blob in s.blobs then Success(s.blobs[loc.blob])
      else Failure(IsADirectory)
  }

  /** The read path with the existence test narrowed to regular files. */
  function Fetch(s: Store, id: string): (r: Result<Bytes, Error>)
    ensures r.Failure? ==> r.error in {InvalidIdentifier, NotFound}
    ensures r == Failure(InvalidIdentifier) <==> !(Tag <= id)
    ensures r == Failure(NotFound) <==> Tag <= id && PathFor(id).value.blob !in s.blobs
    ensures r.Success? ==> r.value == s.blobs[PathFor(id).value.blob]
  {
    match PathFor(id)
    case None => Failure(InvalidIdentifier)
    case Some(loc) =>
      if loc.blob in s.blobs then Success(s.blobs[loc.blob]) else Failure(NotFound)
  }
}
