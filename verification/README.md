# Image Store Service: a Dafny model of its object store and release-notes renderer

The Image Store Service is a content-addressed object store behind an HTTP
API. An upload hashes its bytes with SHA-256. The identifier handed back is
`sha256:<hex>`, and the bytes go to `<blobs>/<hex[0:2]>/<hex[2:4]>/<hex>`.
A JSON metadata record goes to the same shard directories under `<meta>`,
named `<hex>.json`. The store writes only when nothing exists at the blob path yet,
so identical content is stored once and the first upload's record wins.
A read resolves the identifier to the blob path and returns the bytes, or 404
when nothing is there. A small release script cuts one version's section out
of the changelog and fills a release-notes template around it.

The project has five modules:

- `Wrappers` (`wrappers.dfy`): `Option` and `Result`.
- `Paths` (`paths.dfy`): `_path_for`. It keeps POSIX `os.path.join` and
  Python's clamping slices, so short or odd identifiers resolve exactly as in
  the code.
- `ObjectStore` (`object_store.dfy`): the store as a state
  `Store(blobs, meta)` mapping file paths to contents. It has the image and
  artifact uploads as written, corrected uploads, and the read path as
  written and corrected. Directories are derived, not stored: the blob root,
  and every proper ancestor of a stored blob file.
- `StoreLemmas` (`store_lemmas.dfy`): the invariants the uploads keep,
  read-after-write, first-write-wins, and the three departures listed under
  Findings.
- `ReleaseNotes` (`release_notes.dfy`): `extract_changelog_section` over the
  changelog's lines (the scan as a loop, proved equal to a declarative
  definition) and `render_notes`.

Four things the code calls out to are parameters:

- SHA-256 is `hash: Bytes -> HexDigest`, a function onto 64-character
  lowercase hex strings. It is not assumed injective. Round trips therefore
  promise bytes with the same digest, and the very same bytes when no
  other stored blob shares that digest (`NoCollision`).
- PIL's `Image.open(...).size` is `probe: Bytes -> Probe`. The result is the
  dimensions, `Unidentified` (the `UnidentifiedImageError` the code swallows),
  or `Crashed` (any other exception, which propagates).
- `json.loads` is `parse: string -> Option<Json>`.
- `time.time()` is `now: real`.

Two behaviours of the code shape the model:

- `_path_for` (iss.py:41-42) checks only the `sha256:` tag. It accepts any
  tail, malformed hex included, so `PathFor` does too.
- `os.path.exists` (iss.py:90) is true for directories as well as files.
  `FetchAsWritten` therefore fails with `IsADirectory`, where `open` would
  raise, when an identifier resolves to the blob root or a shard directory as
  `PathFor` spells them.

## Model

| member | source | states |
|---|---|---|
| Paths.PathFor | iss.py:38-45 | An identifier resolves to a pair of paths exactly when it starts with `sha256:`; every other identifier fails the assert |
| Paths.UntaggedIdRejected | iss.py:41 | Identifiers with a different tag (`sha-256:`) or with no tag at all are rejected |
| Paths.Slice | iss.py:42-44 | Python's `s[i:j]` clamps both bounds to the length: the plain subsequence when `j` is in range, the tail from `i` when only `i` is, and empty when `i` is past the end |
| Paths.Join | iss.py:43-44 | POSIX `os.path.join` of two parts: an absolute second part replaces the first; otherwise the first part is a prefix and the second a suffix, with exactly one `/` inserted only when the first is non-empty and does not already end in `/` |
| Paths.ShardLayout | iss.py:42-44 | Any tagged identifier with at least four slash-free characters after the tag maps to `<blobs>/h[0:2]/h[2:4]/h` and `<meta>/h[0:2]/h[2:4]/h.json`, hex or not |
| Paths.DigestIdLayout | iss.py:42-44 | The identifier of a 64-character digest resolves to the documented sharded blob and metadata paths |
| Paths.SharedShardTail | iss.py:43-44 | For any tagged slash-free identifier, the metadata path is the blob path with the root swapped and `.json` appended, and the blob file is named by the whole hex part |
| Paths.PathForInjective | iss.py:38-45 | Two different slash-free identifiers never share a blob file |
| Paths.DigestPathsInjective | iss.py:43-44 | Distinct digests have distinct blob paths and distinct metadata paths |
| Paths.EmptyHexResolvesToRoot | iss.py:42-44 | `sha256:` with nothing after it resolves to the blob root directory `./data/blobs/` and to `./data/meta/.json` |
| ObjectStore.IdFor | iss.py:58 | The identifier is `sha256:` followed by the 64-character digest of the bytes |
| ObjectStore.IsDirectory | iss.py:60 | The blob root is always a directory, so is every proper ancestor of a stored blob file, and an empty store has no other directory |
| ObjectStore.Exists | iss.py:60 | `os.path.exists` holds for every stored blob file and every directory; in an empty store it holds only for the blob root |
| ObjectStore.LocationsFor | iss.py:58-59 | The identifier built from the bytes' digest resolves to the blob and metadata paths of that digest |
| ObjectStore.ImageRecord | iss.py:65-78 | The image record has exactly the six keys `kind`, `bytes`, `mime`, `width`, `height` and `created_at`: kind `image`, the byte count, the declared MIME type or null, both dimensions from the probe or both null, and the clock reading |
| ObjectStore.CallerFields | iss.py:110 | Absent or empty metadata gives no caller fields; otherwise the request fails exactly when the text does not parse to a JSON object, and on success the fields are that object's |
| ObjectStore.ArtifactRecord | iss.py:110-111 | The artifact record holds the caller's keys plus `kind`, `bytes` and `created_at`; the mandatory three take the upload's values and every other caller key keeps its value |
| ObjectStore.WriteBlobThenMeta | iss.py:105-113 | When the blob path exists nothing changes and the request succeeds; otherwise the blob is written first, and a record failure leaves it written with no record |
| ObjectStore.WriteBlobAndMeta | iss.py:105-113 | The corrected write path: nothing changes on a dedup hit or on a record failure; otherwise the blob and its record are added together |
| ObjectStore.UploadImageAsWritten | iss.py:53-83 | The receipt carries the identifier, byte count and filename. A dedup hit changes nothing. A fresh upload always adds the blob, fails exactly when the probe crashes, and otherwise adds only a record with the image fields |
| ObjectStore.UploadArtifactAsWritten | iss.py:94-114 | A missing file fails without a change. A dedup hit changes nothing. A fresh upload always adds the blob, fails exactly when the caller metadata is unusable, and otherwise adds only a record with the artifact fields |
| ObjectStore.BestEffort | iss.py:66-70 | Probe failures of every kind become `Unidentified`, that is no dimensions; real dimensions are kept |
| ObjectStore.UploadImage | iss.py:53-83 | The corrected image upload always succeeds with the same receipt; a fresh upload adds the blob together with its record |
| ObjectStore.UploadArtifact | iss.py:94-114 | The corrected artifact upload rejects unusable metadata before any write; otherwise it adds the blob and its record together, and a dedup hit changes nothing |
| ObjectStore.FetchAsWritten | iss.py:85-92 | Read as written (`get_artifact`, iss.py:116-123, has the same body). A bad tag is `InvalidIdentifier`, a path that does not exist is `NotFound`, a path naming a directory is `IsADirectory`, and a stored blob file at the resolved path is always returned |
| ObjectStore.Fetch | iss.py:85-92 | The corrected read fails only with `InvalidIdentifier` or `NotFound`, the latter exactly when no blob file is at the path |
| StoreLemmas.StartUpStateValid | iss.py:17-21 | The start-up state, both trees empty with the blob root created, is valid and complete, and only the blob root exists in it |
| StoreLemmas.ExistsMeansStored | iss.py:60 | In a store where every blob sits at its digest's path, `os.path.exists` on a digest's blob path is membership of that blob file |
| StoreLemmas.AddBlobKeepsValid | iss.py:63-64 | Writing a new blob under its own digest keeps the store valid, and that digest had no record yet |
| StoreLemmas.AddBlobAndMetaKeepsValid | iss.py:60-80 | Writing a new blob and a record describing it keeps the store valid, and complete if it was complete |
| StoreLemmas.WriteOutcomeKeepsValid | iss.py:105-113 | Each outcome of the write path keeps the store valid: no change, the blob alone, or the blob with a describing record. It keeps completeness when the record was written |
| StoreLemmas.ImageUploadAsWrittenKeepsValid | iss.py:53-83 | The image upload as written keeps every blob at its digest path and every record truthful |
| StoreLemmas.ArtifactUploadAsWrittenKeepsValid | iss.py:94-114 | The artifact upload as written keeps every blob at its digest path and every record truthful |
| StoreLemmas.ImageUploadKeepsComplete | iss.py:53-83 | The corrected image upload keeps the store valid and keeps every blob paired with its record |
| StoreLemmas.ArtifactUploadKeepsComplete | iss.py:94-114 | The corrected artifact upload keeps the store valid and keeps every blob paired with its record |
| StoreLemmas.FetchAfterUpload | iss.py:85-92 | After the write step of either upload, the corrected read of the bytes' identifier succeeds with bytes of the same digest, and with the uploaded bytes when no other stored blob shares that digest. The read as written gives the same answer there |
| StoreLemmas.ImageRoundTripAsWritten | iss.py:53-92 | As written: after `upload_image`, `get_image` on the bytes' identifier returns bytes of the same digest, and the same bytes without a collision; a successful upload returned that identifier. This holds even when the upload failed after writing the blob |
| StoreLemmas.ArtifactRoundTripAsWritten | iss.py:94-123 | As written: after `upload_artifact` with a file, `get_artifact` on the bytes' identifier returns bytes of the same digest, and the same bytes without a collision; a successful upload returned that identifier |
| StoreLemmas.ImageRoundTrip | iss.py:53-92 | The corrected image upload read back by the corrected read returns bytes of the same digest, and the same bytes without a collision |
| StoreLemmas.ArtifactRoundTrip | iss.py:94-123 | A successful corrected artifact upload read back by the corrected read returns bytes of the same digest, and the same bytes without a collision |
| StoreLemmas.ReuploadChangesNothing | iss.py:60 | Once bytes are stored, re-uploading bytes with the same digest changes nothing and succeeds. This holds as an image or as an artifact, and whatever the metadata |
| StoreLemmas.FetchAgreesOnDigests | iss.py:89-92 | On identifiers built from real digests, the read as written and the corrected read agree |
| StoreLemmas.EmptyIdOpensDirectory | iss.py:89-92 | Reading `sha256:` opens the blob root directory and fails with `IsADirectory` as written; the corrected read reports `NotFound` |
| StoreLemmas.MalformedMetadataOrphansBlob | iss.py:105-113 | As written, unparsable artifact metadata leaves the blob without a record, and a retry does not repair it. The corrected upload writes nothing, and a retry stores the record |
| StoreLemmas.ProbeCrashOrphansBlob | iss.py:63-70 | As written, a probe crash leaves the blob without a record, and a retry does not repair it. The corrected upload records null dimensions |
| ReleaseNotes.FirstHeader | scripts/render_release_notes.py:46-50 | The first line at or after a position that starts with `## [<version>]`; no earlier line does |
| ReleaseNotes.FirstStop | scripts/render_release_notes.py:47-53 | The first line at or after a position that is a `## ` heading of another section; no earlier line is |
| ReleaseNotes.CollectSection | scripts/render_release_notes.py:43-55 | The scan collects exactly the lines from the first header up to, not including, the next heading of another section; nothing is collected when no header occurs |
| ReleaseNotes.TrimTrailingBlanks | scripts/render_release_notes.py:58-60 | The result is a prefix of the buffer that does not end in an empty line, and only empty lines were removed |
| ReleaseNotes.ExtractChangelogSection | scripts/render_release_notes.py:41-61 | Fails with `VersionNotFound` exactly when no line starts with the version header; otherwise returns the newline-join of the trimmed section |
| ReleaseNotes.SectionEmptyIffNoHeader | scripts/render_release_notes.py:56-57 | The collected section is empty exactly when no line carries the version header |
| ReleaseNotes.SectionShape | scripts/render_release_notes.py:41-61 | The result starts at the first header line and ends before the next heading of another section. Only blank lines are cut from its end, and its first line is the header |
| ReleaseNotes.LineInsideSectionKept | scripts/render_release_notes.py:46-55 | A line between the header and the stop is kept in place and is not a stop. This covers blank lines, `### ` subheadings and repeated headers of the version |
| ReleaseNotes.JoinLines | scripts/render_release_notes.py:61 | `"\n".join`: no lines join to the empty string; otherwise the first line opens the result, followed by a newline when more lines follow |
| ReleaseNotes.JoinLinesAppend | scripts/render_release_notes.py:61 | Joining two non-empty runs of lines puts exactly one newline between their joins |
| ReleaseNotes.JoinEndsWithLastLine | scripts/render_release_notes.py:89 | The newline-join of lines whose last line is non-empty ends with that line's last character |
| ReleaseNotes.JoinPreamble | scripts/render_release_notes.py:66 | The template lines before the image references join to the section, a rule and the deployment heading |
| ReleaseNotes.RenderNotes | scripts/render_release_notes.py:64-89 | The rendered notes open with the changelog section followed by a newline, and end with a newline |
| ReleaseNotes.RenderNotesParts | scripts/render_release_notes.py:64-89 | The rendered notes are the opening, the image line, the digest line, the fixed trailer and one newline, separated by newlines |
| ReleaseNotes.RenderNotesStartsWithSection | scripts/render_release_notes.py:64-66 | The rendered notes open with the changelog section followed by the separator rule and the deployment heading |
| ReleaseNotes.RenderNotesEndsWithOneNewline | scripts/render_release_notes.py:86-89 | The rendered notes end with exactly one newline |
| ReleaseNotes.RenderNotesHasReferences | scripts/render_release_notes.py:65-70 | The image reference `ghcr.io/<owner>/image_store_service:<version>` and the digest reference appear as whole, consecutive lines |

## Left out

- HTTP and FastAPI glue is not modelled: routing, `UploadFile`, `StreamingResponse`, status codes and CORS (iss.py:22-37). Errors are a datatype instead.
- The `/health` and `/healthz` endpoint (iss.py:125-129) is a constant response with no state.
- Configuration from `ISS_DATA` and the start-up `makedirs` (iss.py:17-21) are fixed: the roots are the defaults `./data/blobs` and `./data/meta`.
- `_ensure_dirs` (iss.py:48-51) is implicit: directories are derived from stored blob paths, and creating them never fails.
- SHA-256, PIL, `json.loads` and `time.time()` are parameters, not implementations. `json.dump` is not modelled: the metadata file holds the record map itself.
- Exists, IsDirectory and FetchAsWritten see only the blob tree with its paths written plainly. Paths with `.` or `..` components, symlinks, and paths outside the tree from an absolute tail count as absent, because path normalisation and the rest of the filesystem are not modelled. So `sha256:.` and `sha256:..` open a directory and crash in the program, as in the first finding, while `FetchAsWritten` answers `NotFound`.
- Concurrency, atomic publishing and partial writes are not modelled. Each request is one atomic step.
- Running Python with `-O` removes the `assert` in `_path_for`; the model always keeps the check.
- The `print` in `upload_image` (iss.py:82) has no effect on state or result.
- File reading, `splitlines`, argument parsing and writing the output file in the release script are not modelled. The changelog is given as its lines.
- `scripts/generate_provenance.py` and `scripts/generate_openapi.py` are build tooling, outside the store and the release notes.

## Findings

| source | as written | input that shows it | evidently intended | confidence | as-written member | corrected member |
|---|---|---|---|---|---|---|
| iss.py:89-92 | `os.path.exists` is true for directories, and `open` is then called on one | `GET /images/sha256:` resolves to `./data/blobs/`, which always exists, so `open` raises `IsADirectoryError` and the server errors | a missing object is reported as 404 | high, not executed | StoreLemmas.EmptyIdOpensDirectory | ObjectStore.Fetch |
| iss.py:105-113 | the blob is written before `json.loads(meta)` and `update` run | an artifact upload with `meta="not json"` raises after the blob is stored. Every retry is a dedup hit, so the record is never written | metadata is validated before anything is written, so every stored blob has its record | high, not executed | StoreLemmas.MalformedMetadataOrphansBlob | ObjectStore.UploadArtifact |
| iss.py:63-70 | the blob is written before the probe; only `UnidentifiedImageError` is caught | an image upload that makes PIL raise another error (a decompression bomb, say) stores the blob, and no record ever follows | every stored image has a record, with null dimensions when they cannot be read | medium, not executed | StoreLemmas.ProbeCrashOrphansBlob | ObjectStore.UploadImage |
