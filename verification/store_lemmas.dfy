/**
 * Properties of the object store: existence tests on digest paths, the
 * invariants every upload keeps, read-after-write, first-write-wins, and the
 * places where the code as written departs from them.
 */
module StoreLemmas {
  import opened Wrappers
  import opened Paths
  import opened ObjectStore

  /**
   * The start-up state satisfies the invariants the uploads keep: with both
   * trees empty, every blob is trivially at its digest's path and paired
   * with its record, and only the blob root exists.
   */
  lemma StartUpStateValid(hash: Bytes -> HexDigest)
    ensures Valid(EmptyStore, hash) && Complete(EmptyStore, hash)
    ensures forall p :: Exists(EmptyStore, p) <==> p == BlobRoot || p == BlobRoot + "/"
  {
  }

  /**
   * In a content-addressed store the only thing at a digest's blob path can
   * be that blob: `os.path.exists` there is a plain membership test.
   */
  lemma ExistsMeansStored(s: Store, hash: Bytes -> HexDigest, d: HexDigest)
    requires ContentAddressed(s, hash)
    ensures Exists(s, BlobPath(d)) <==> BlobPath(d) in s.blobs
  {
    if k :| k in s.blobs && IsAncestorDir(BlobPath(d), k) {
      assert false;
    }
  }

  /** Adding a blob under its own digest keeps the store valid. */
  lemma AddBlobKeepsValid(s: Store, hash: Bytes -> HexDigest, raw: Bytes)
    requires Valid(s, hash) && BlobPath(hash(raw)) !in s.blobs
    ensures Valid(Store(s.blobs[BlobPath(hash(raw)) := raw], s.meta), hash)
    ensures MetaPath(hash(raw)) !in s.meta
  {
    var bp := BlobPath(hash(raw));
    var s' := Store(s.blobs[bp := raw], s.meta);
    forall m | m in s.meta ensures exists k :: k in s'.blobs && m == MetaPath(hash(s'.blobs[k])) {
      var k :| k in s.blobs && m == MetaPath(hash(s.blobs[k]));
      assert k != bp && s'.blobs[k] == s.blobs[k];
    }
    if MetaPath(hash(raw)) in s.meta {
      var k :| k in s.blobs && MetaPath(hash(raw)) == MetaPath(hash(s.blobs[k]));
      DigestPathsInjective(hash(raw), hash(s.blobs[k]));
      assert false;
    }
  }

  /** Adding a blob together with a record that describes it keeps the store valid and complete. */
  lemma AddBlobAndMetaKeepsValid(s: Store, hash: Bytes -> HexDigest, raw: Bytes, rec: Record)
    requires Valid(s, hash) && BlobPath(hash(raw)) !in s.blobs && Describes(rec, raw)
    ensures Valid(Store(s.blobs[BlobPath(hash(raw)) := raw], s.meta[MetaPath(hash(raw)) := rec]), hash)
    ensures Complete(s, hash) ==>
              Complete(Store(s.blobs[BlobPath(hash(raw)) := raw], s.meta[MetaPath(hash(raw)) := rec]), hash)
  {
    var bp, mp := BlobPath(hash(raw)), MetaPath(hash(raw));
    var s' := Store(s.blobs[bp := raw], s.meta[mp := rec]);
    AddBlobKeepsValid(s, hash, raw);
    forall m | m in s'.meta ensures exists k :: k in s'.blobs && m == MetaPath(hash(s'.blobs[k])) {
      if m == mp {
        assert s'.blobs[bp] == raw;
      } else {
        var k :| k in s.blobs && m == MetaPath(hash(s.blobs[k]));
        assert k != bp && s'.blobs[k] == s.blobs[k];
      }
    }
    forall k | k in s'.blobs && MetaPath(hash(s'.blobs[k])) in s'.meta
      ensures Describes(s'.meta[MetaPath(hash(s'.blobs[k]))], s'.blobs[k])
    {
      if k != bp {
        if MetaPath(hash(s.blobs[k])) == mp {
          DigestPathsInjective(hash(s.blobs[k]), hash(raw));
          assert false;
        }
      }
    }
  }

  /**
   * The outcome of any write path: nothing changed, or the blob alone was
   * added, or the blob was added with a record describing it.
   */
  lemma WriteOutcomeKeepsValid(s: Store, hash: Bytes -> HexDigest, raw: Bytes, s': Store)
    requires Valid(s, hash)
    requires Exists(s, BlobPath(hash(raw))) ==> s' == s
    requires !Exists(s, BlobPath(hash(raw))) ==>
               && s'.blobs == s.blobs[BlobPath(hash(raw)) := raw]
               && (s'.meta == s.meta
                   || (&& MetaPath(hash(raw)) in s'.meta
                       && s'.meta == s.meta[MetaPath(hash(raw)) := s'.meta[MetaPath(hash(raw))]]
                       && Describes(s'.meta[MetaPath(hash(raw))], raw)))
    ensures Valid(s', hash)
    ensures Complete(s, hash) && MetaPath(hash(raw)) in s'.meta ==> Complete(s', hash)
  {
    var bp, mp := BlobPath(hash(raw)), MetaPath(hash(raw));
    ExistsMeansStored(s, hash, hash(raw));
    if !Exists(s, bp) {
      AddBlobKeepsValid(s, hash, raw);
      if s'.meta != s.meta {
        AddBlobAndMetaKeepsValid(s, hash, raw, s'.meta[mp]);
        assert s' == Store(s.blobs[bp := raw], s.meta[mp := s'.meta[mp]]);
      } else {
        assert s' == Store(s.blobs[bp := raw], s.meta);
      }
    }
  }

  /** The image upload as written keeps every blob at its digest path and every record truthful. */
  lemma ImageUploadAsWrittenKeepsValid(s: Store, hash: Bytes -> HexDigest, probe: Bytes -> Probe, now: real,
                                       raw: Bytes, contentType: Option<string>, filename: Option<string>)
    requires Valid(s, hash)
    ensures Valid(UploadImageAsWritten(s, hash, probe, now, raw, contentType, filename).store, hash)
  {
    WriteOutcomeKeepsValid(s, hash, raw, UploadImageAsWritten(s, hash, probe, now, raw, contentType, filename).store);
  }

  /** The artifact upload as written keeps every blob at its digest path and every record truthful. */
  lemma ArtifactUploadAsWrittenKeepsValid(s: Store, hash: Bytes -> HexDigest, parse: string -> Option<Json>,
                                          now: real, kind: string, metaText: Option<string>, file: Option<Bytes>)
    requires Valid(s, hash)
    ensures Valid(UploadArtifactAsWritten(s, hash, parse, now, kind, metaText, file).store, hash)
  {
    if file.Some? {
      WriteOutcomeKeepsValid(s, hash, file.value, UploadArtifactAsWritten(s, hash, parse, now, kind, metaText, file).store);
    }
  }

  /** The corrected image upload keeps the store valid and never leaves a blob without its record. */
  lemma ImageUploadKeepsComplete(s: Store, hash: Bytes -> HexDigest, probe: Bytes -> Probe, now: real,
                                 raw: Bytes, contentType: Option<string>, filename: Option<string>)
    requires Valid(s, hash) && Complete(s, hash)
    ensures var s' := UploadImage(s, hash, probe, now, raw, contentType, filename).store;
            Valid(s', hash) && Complete(s', hash)
  {
    var s' := UploadImage(s, hash, probe, now, raw, contentType, filename).store;
    ExistsMeansStored(s, hash, hash(raw));
    if Exists(s, BlobPath(hash(raw))) {
      assert s' == s;
    } else {
      WriteOutcomeKeepsValid(s, hash, raw, s');
    }
  }

  /** The corrected artifact upload keeps the store valid and never leaves a blob without its record. */
  lemma ArtifactUploadKeepsComplete(s: Store, hash: Bytes -> HexDigest, parse: string -> Option<Json>,
                                    now: real, kind: string, metaText: Option<string>, file: Option<Bytes>)
    requires Valid(s, hash) && Complete(s, hash)
    ensures var s' := UploadArtifact(s, hash, parse, now, kind, metaText, file).store;
            Valid(s', hash) && Complete(s', hash)
  {
    var s' := UploadArtifact(s, hash, parse, now, kind, metaText, file).store;
    if file.Some? {
      var raw := file.value;
      ExistsMeansStored(s, hash, hash(raw));
      if Exists(s, BlobPath(hash(raw))) || CallerFields(metaText, parse).Failure? {
        assert s' == s;
      } else {
        WriteOutcomeKeepsValid(s, hash, raw, s');
      }
    }
  }

  /** Writing bytes at their own digest's blob path keeps every blob at its digest's path. */
  lemma WriteKeepsContentAddressed(s: Store, hash: Bytes -> HexDigest, raw: Bytes, s': Store)
    requires ContentAddressed(s, hash)
    requires s'.blobs == s.blobs[BlobPath(hash(raw)) := raw]
    ensures ContentAddressed(s', hash)
  {
  }

  /**
   * Read-after-write: fetching the identifier an upload returned yields bytes
   * with the uploaded digest, and the uploaded bytes themselves unless a
   * different stored blob already had that digest.  The read as written
   * gives the same answer there as the corrected read.
   */
  lemma FetchAfterUpload(s: Store, hash: Bytes -> HexDigest, raw: Bytes, s': Store)
    requires ContentAddressed(s, hash)
    requires Exists(s, BlobPath(hash(raw))) ==> s' == s
    requires !Exists(s, BlobPath(hash(raw))) ==> s'.blobs == s.blobs[BlobPath(hash(raw)) := raw]
    ensures Fetch(s', IdFor(hash, raw)).Success?
    ensures hash(Fetch(s', IdFor(hash, raw)).value) == hash(raw)
    ensures NoCollision(s, hash, raw) ==> Fetch(s', IdFor(hash, raw)) == Success(raw)
    ensures FetchAsWritten(s', IdFor(hash, raw)) == Fetch(s', IdFor(hash, raw))
  {
    var d := hash(raw);
    var bp := BlobPath(d);
    if !Exists(s, bp) {
      WriteKeepsContentAddressed(s, hash, raw, s');
    }
    FetchAgreesOnDigests(s', hash, d);
    assert PathFor(IdFor(hash, raw)) == Some(LocationsFor(hash, raw));
    ExistsMeansStored(s, hash, d);
    if Exists(s, bp) {
      DigestPathsInjective(hash(s.blobs[bp]), d);
    }
  }

  lemma ImageRoundTrip(s: Store, hash: Bytes -> HexDigest, probe: Bytes -> Probe, now: real,
                       raw: Bytes, contentType: Option<string>, filename: Option<string>)
    requires ContentAddressed(s, hash)
    ensures var out := UploadImage(s, hash, probe, now, raw, contentType, filename);
            var got := Fetch(out.store, out.result.value.imageId);
            && got.Success? && hash(got.value) == hash(raw)
            && (NoCollision(s, hash, raw) ==> got.value == raw)
  {
    FetchAfterUpload(s, hash, raw, UploadImage(s, hash, probe, now, raw, contentType, filename).store);
  }

  lemma ArtifactRoundTrip(s: Store, hash: Bytes -> HexDigest, parse: string -> Option<Json>, now: real,
                          kind: string, metaText: Option<string>, raw: Bytes)
    requires ContentAddressed(s, hash)
    ensures var out := UploadArtifact(s, hash, parse, now, kind, metaText, Some(raw));
            out.result.Success? ==>
              var got := Fetch(out.store, out.result.value.artifactId);
              && got.Success? && hash(got.value) == hash(raw)
              && (NoCollision(s, hash, raw) ==> got.value == raw)
  {
    var out := UploadArtifact(s, hash, parse, now, kind, metaText, Some(raw));
    if out.result.Success? {
      FetchAfterUpload(s, hash, raw, out.store);
    }
  }

  /**
   * The round trip of the code as written: once `upload_image` returned an
   * identifier, `get_image` on it returns bytes of the uploaded digest, and
   * the uploaded bytes without a collision.  The blob is readable even when
   * the upload failed after writing it.
   */
  lemma ImageRoundTripAsWritten(s: Store, hash: Bytes -> HexDigest, probe: Bytes -> Probe, now: real,
                                raw: Bytes, contentType: Option<string>, filename: Option<string>)
    requires ContentAddressed(s, hash)
    ensures var out := UploadImageAsWritten(s, hash, probe, now, raw, contentType, filename);
            var got := FetchAsWritten(out.store, IdFor(hash, raw));
            && got.Success? && hash(got.value) == hash(raw)
            && (NoCollision(s, hash, raw) ==> got.value == raw)
            && (out.result.Success? ==> out.result.value.imageId == IdFor(hash, raw))
  {
    FetchAfterUpload(s, hash, raw, UploadImageAsWritten(s, hash, probe, now, raw, contentType, filename).store);
  }

  /**
   * The round trip of the code as written for artifacts: after an upload of
   * a file, `get_artifact` on its identifier returns bytes of the uploaded
   * digest, and the uploaded bytes without a collision.
   */
  lemma ArtifactRoundTripAsWritten(s: Store, hash: Bytes -> HexDigest, parse: string -> Option<Json>, now: real,
                                   kind: string, metaText: Option<string>, raw: Bytes)
    requires ContentAddressed(s, hash)
    ensures var out := UploadArtifactAsWritten(s, hash, parse, now, kind, metaText, Some(raw));
            var got := FetchAsWritten(out.store, IdFor(hash, raw));
            && got.Success? && hash(got.value) == hash(raw)
            && (NoCollision(s, hash, raw) ==> got.value == raw)
            && (out.result.Success? ==> out.result.value.artifactId == IdFor(hash, raw))
  {
    FetchAfterUpload(s, hash, raw, UploadArtifactAsWritten(s, hash, parse, now, kind, metaText, Some(raw)).store);
  }

  /**
   * First write wins, across both routes: once some bytes were uploaded as an
   * image, uploading bytes with the same digest again, as an image or as an
   * artifact, with any other metadata, changes nothing and succeeds.
   */
  lemma ReuploadChangesNothing(s: Store, hash: Bytes -> HexDigest, probe: Bytes -> Probe,
                               parse: string -> Option<Json>, now: real, now': real,
                               raw: Bytes, raw': Bytes, contentType: Option<string>,
                               contentType': Option<string>, filename: Option<string>,
                               filename': Option<string>, kind: string, metaText: Option<string>)
    requires hash(raw') == hash(raw)
    ensures var s1 := UploadImage(s, hash, probe, now, raw, contentType, filename).store;
            && UploadImage(s1, hash, probe, now', raw', contentType', filename').store == s1
            && UploadArtifact(s1, hash, parse, now', kind, metaText, Some(raw')) ==
                 Step(s1, Success(ArtifactReceipt(IdFor(hash, raw), kind)))
  {
    var s1 := UploadImage(s, hash, probe, now, raw, contentType, filename).store;
    assert Exists(s1, BlobPath(hash(raw)));
  }

  /** On well-formed identifiers of a content-addressed store, the two read paths agree. */
  lemma FetchAgreesOnDigests(s: Store, hash: Bytes -> HexDigest, d: HexDigest)
    requires ContentAddressed(s, hash)
    ensures FetchAsWritten(s, Tag + d) == Fetch(s, Tag + d)
  {
    DigestIdLayout(d);
    ExistsMeansStored(s, hash, d);
  }

  // ---------------------------------------------------------------------------
  // Where the code as written departs from what its tests and docstrings
  // intend: a directory read, and blobs left without their records.

  /**
   * `GET /images/sha256:` resolves to the blob root itself, which exists as a
   * directory, so the read opens a directory and fails with a server error
   * instead of the 404 a missing object gets.
   */
  lemma EmptyIdOpensDirectory(s: Store, hash: Bytes -> HexDigest)
    requires ContentAddressed(s, hash)
    ensures FetchAsWritten(s, Tag) == Failure(IsADirectory)
    ensures Fetch(s, Tag) == Failure(NotFound)
  {
    EmptyHexResolvesToRoot();
    if BlobRoot + "/" in s.blobs {
      assert false;
    }
  }

  /**
   * An artifact upload whose metadata is not a JSON object stores the blob,
   * fails, and leaves no record; a retry with good metadata is a dedup hit,
   * so the blob stays without a record for good.  The corrected upload
   * rejects the request before writing and a retry completes the object.
   */
  lemma MalformedMetadataOrphansBlob(s: Store, hash: Bytes -> HexDigest, parse: string -> Option<Json>,
                                     now: real, now': real, kind: string, text: string, raw: Bytes)
    requires Valid(s, hash) && BlobPath(hash(raw)) !in s.blobs
    requires text != "" && parse(text).None?
    ensures var out := UploadArtifactAsWritten(s, hash, parse, now, kind, Some(text), Some(raw));
            && out.result == Failure(MalformedMetadata)
            && BlobPath(hash(raw)) in out.store.blobs
            && MetaPath(hash(raw)) !in out.store.meta
            && !Complete(out.store, hash)
            && UploadArtifactAsWritten(out.store, hash, parse, now', kind, None, Some(raw)).store == out.store
    ensures var out := UploadArtifact(s, hash, parse, now, kind, Some(text), Some(raw));
            && out == Step(s, Failure(MalformedMetadata))
            && MetaPath(hash(raw)) in UploadArtifact(s, hash, parse, now', kind, None, Some(raw)).store.meta
  {
    AddBlobKeepsValid(s, hash, raw);
    ExistsMeansStored(s, hash, hash(raw));
    var out := UploadArtifactAsWritten(s, hash, parse, now, kind, Some(text), Some(raw));
    assert out.store.blobs[BlobPath(hash(raw))] == raw;
  }

  /**
   * An image upload whose probe raises anything but `UnidentifiedImageError`
   * stores the blob and no record, and no later upload of the same bytes adds
   * one.  The corrected upload records absent dimensions instead.
   */
  lemma ProbeCrashOrphansBlob(s: Store, hash: Bytes -> HexDigest, probe: Bytes -> Probe, now: real, now': real,
                              raw: Bytes, contentType: Option<string>, filename: Option<string>)
    requires Valid(s, hash) && BlobPath(hash(raw)) !in s.blobs
    requires probe(raw).Crashed?
    ensures var out := UploadImageAsWritten(s, hash, probe, now, raw, contentType, filename);
            && out.result == Failure(DecoderFailed)
            && BlobPath(hash(raw)) in out.store.blobs
            && MetaPath(hash(raw)) !in out.store.meta
            && !Complete(out.store, hash)
            && UploadImageAsWritten(out.store, hash, probe, now', raw, contentType, filename).store == out.store
    ensures var out := UploadImage(s, hash, probe, now, raw, contentType, filename);
            && MetaPath(hash(raw)) in out.store.meta
            && out.store.meta[MetaPath(hash(raw))]["width"] == JNull
            && out.store.meta[MetaPath(hash(raw))]["height"] == JNull
  {
    AddBlobKeepsValid(s, hash, raw);
    ExistsMeansStored(s, hash, hash(raw));
    var out := UploadImageAsWritten(s, hash, probe, now, raw, contentType, filename);
    assert out.store.blobs[BlobPath(hash(raw))] == raw;
  }
}
