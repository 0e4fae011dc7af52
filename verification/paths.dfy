/**
 * Digest and path resolution of the image store (`_path_for` in iss.py).
 *
 * An identifier is the tag `sha256:` followed by a hex digest.  The blob of an
 * object lives at `<blobs>/<hex[0:2]>/<hex[2:4]>/<hex>` and its metadata record
 * at `<meta>/<hex[0:2]>/<hex[2:4]>/<hex>.json`.  Paths are built with POSIX
 * `os.path.join`, and the digest is cut with Python's clamping slices, so the
 * model keeps both exactly, including for identifiers shorter than four hex
 * characters, which the source does not reject.
 */
module Paths {
  import opened Wrappers

  /** The two storage roots under the default data directory `./data`. */
  const BlobRoot: string := "./data/blobs"
  const MetaRoot: string := "./data/meta"
  /** The algorithm tag every identifier must start with. */
  const Tag: string := "sha256:"
  /** Suffix of every metadata file. */
  const MetaSuffix: string := ".json"

  predicate IsLowerHex(c: char) {
    '0' <= c <= '9' || 'a' <= c <= 'f'
  }

  /** What `hashlib.sha256(raw).hexdigest()` produces: 64 lowercase hex characters. */
  predicate IsHexDigest(s: string) {
    |s| == 64 && forall i :: 0 <= i < |s| ==> IsLowerHex(s[i])
  }

  type HexDigest = s: string | IsHexDigest(s) witness seq(64, _ => '0')

  predicate NoSlash(s: string) {
    forall i :: 0 <= i < |s| ==> s[i] != '/'
  }

  predicate StartsWithSlash(s: string) {
    |s| > 0 && s[0] == '/'
  }

  predicate EndsWithSlash(s: string) {
    |s| > 0 && s[|s| - 1] == '/'
  }

  predicate EndsWith(s: string, suffix: string) {
    |suffix| <= |s| && s[|s| - |suffix|..] == suffix
  }

  /**
   * POSIX `os.path.join(a, b)`: an absolute `b` replaces `a`; otherwise a
   * separator is inserted unless `a` is empty or already ends with one.
   */
  function Join(a: string, b: string): (r: string)
    ensures StartsWithSlash(b) ==> r == b
    ensures !StartsWithSlash(b) ==> a <= r && EndsWith(r, b)
    ensures !StartsWithSlash(b) && a != "" && !EndsWithSlash(a) ==> |r| == |a| + 1 + |b| && r[|a|] == '/'
    ensures !StartsWithSlash(b) && (a == "" || EndsWithSlash(a)) ==> |r| == |a| + |b|
  {
    if StartsWithSlash(b) then b
    else if a == "" || EndsWithSlash(a) then a + b
    else a + "/" + b
  }

  /** Python's `s[i:j]` for `0 <= i <= j`: both bounds are clamped to the length. */
  function Slice(s: string, i: nat, j: nat): (r: string)
    requires i <= j
    ensures |r| == (if j <= |s| then j else |s|) - (if i <= |s| then i else |s|)
    ensures j <= |s| ==> r == s[i..j]
    ensures i <= |s| < j ==> r == s[i..]
    ensures |s| < i ==> r == []
  {
    var lo := if i <= |s| then i else |s|;
    var hi := if j <= |s| then j else |s|;
    s[lo..hi]
  }

  /** The blob path and the metadata path of one identifier. */
  datatype Locations = Locations(blob: string, meta: string)

  /** The layout promised for a well-formed digest: `<root>/ab/cd/abcd…`. */
  function BlobPath(d: HexDigest): (p: string)
    ensures |p| == |BlobRoot| + 71
  {
    BlobRoot + "/" + d[0..2] + "/" + d[2..4] + "/" + d
  }

  function MetaPath(d: HexDigest): string {
    MetaRoot + "/" + d[0..2] + "/" + d[2..4] + "/" + d + MetaSuffix
  }

  /**
   * `_path_for`: `None` stands for the failed `assert` when the tag is
   * missing.  Nothing else is checked: the rest of the identifier is sliced
   * and joined whatever it holds.
   */
  function PathFor(id: string): (r: Option<Locations>)
    ensures r.Some? <==> Tag <= id
  {
    if !(Tag <= id) then None
    else
      var hex := id[|Tag|..];
      var s1 := Slice(hex, 0, 2);
      var s2 := Slice(hex, 2, 4);
      Some(Locations(Join(Join(Join(BlobRoot, s1), s2), hex),
                     Join(Join(Join(MetaRoot, s1), s2), hex + MetaSuffix)))
  }

  /**
   * Any tagged identifier with at least four slash-free characters after the
   * tag, hex or not, resolves to `<root>/h[0:2]/h[2:4]/h` and
   * `<meta>/h[0:2]/h[2:4]/h.json`: the tag is the only thing checked.
   */
  lemma ShardLayout(id: string)
    requires Tag <= id && |id| >= |Tag| + 4 && NoSlash(id[|Tag|..])
    ensures var h := id[|Tag|..];
            PathFor(id) == Some(Locations(BlobRoot + "/" + h[0..2] + "/" + h[2..4] + "/" + h,
                                          MetaRoot + "/" + h[0..2] + "/" + h[2..4] + "/" + h + MetaSuffix))
  {
    var h := id[|Tag|..];
    JoinShards(BlobRoot, h, h);
    JoinShards(MetaRoot, h, h + MetaSuffix);
    var shards := MetaRoot + "/" + h[0..2] + "/" + h[2..4] + "/";
    assert shards + (h + MetaSuffix) == shards + h + MetaSuffix;
  }

  /** Two shards cut from a slash-free `h`, joined under a root that does not end in a separator. */
  lemma JoinShards(root: string, h: string, last: string)
    requires root != "" && !EndsWithSlash(root)
    requires |h| >= 4 && NoSlash(h) && !StartsWithSlash(last)
    ensures Join(Join(Join(root, Slice(h, 0, 2)), Slice(h, 2, 4)), last)
         == root + "/" + h[0..2] + "/" + h[2..4] + "/" + last
  {
    var s1, s2 := h[0..2], h[2..4];
    assert s1[0] == h[0] && s2[0] == h[2];
    JoinShardsUnderRoot(root, s1, s2, last);
    var t1 := "/" + s1;
    assert t1[|t1| - 1] == h[1];
    var t2 := t1 + "/" + s2;
    assert Join(t1, s2) == t2;
    assert t2[|t2| - 1] == h[3];
    assert Join(t2, last) == t2 + "/" + last;
    assert root + (t2 + "/" + last) == root + "/" + s1 + "/" + s2 + "/" + last;
  }

  /** The identifier of a well-formed digest resolves to `BlobPath` and `MetaPath`. */
  lemma DigestIdLayout(d: HexDigest)
    ensures PathFor(Tag + d) == Some(Locations(BlobPath(d), MetaPath(d)))
  {
    assert (Tag + d)[|Tag|..] == d;
    forall i | 0 <= i < |d| ensures d[i] != '/' {
      assert IsLowerHex(d[i]);
    }
    ShardLayout(Tag + d);
  }

  /** Joining onto a longer base only extends the part after the common prefix. */
  lemma JoinUnderPrefix(r: string, t: string, b: string)
    requires t != "" && !StartsWithSlash(b)
    ensures Join(r + t, b) == r + Join(t, b)
  {
    assert (r + t)[|r + t| - 1] == t[|t| - 1];
  }

  /** Appending a suffix to the last component appends it to the joined path. */
  lemma JoinAppendSuffix(a: string, b: string, suffix: string)
    requires !StartsWithSlash(suffix)
    ensures Join(a, b + suffix) == Join(a, b) + suffix
  {
    if b == "" {
      assert b + suffix == suffix;
    } else {
      assert (b + suffix)[0] == b[0];
    }
  }

  lemma NoSlashSlice(s: string, i: nat, j: nat)
    requires i <= j && NoSlash(s)
    ensures NoSlash(Slice(s, i, j)) && !StartsWithSlash(Slice(s, i, j))
  {
  }

  /** The three joins under a plain root depend on the root only as a prefix. */
  lemma JoinShardsUnderRoot(root: string, s1: string, s2: string, last: string)
    requires root != "" && !EndsWithSlash(root)
    requires !StartsWithSlash(s1) && !StartsWithSlash(s2) && !StartsWithSlash(last)
    ensures Join(Join(Join(root, s1), s2), last) == root + Join(Join("/" + s1, s2), last)
  {
    var t1 := "/" + s1;
    assert Join(root, s1) == root + t1;
    JoinUnderPrefix(root, t1, s2);
    var t2 := Join(t1, s2);
    assert |t2| >= |t1| > 0;
    JoinUnderPrefix(root, t2, last);
  }

  /** A join onto a non-empty base ends with a separator followed by the last component. */
  lemma JoinEndsWithComponent(t: string, last: string)
    requires t != "" && !StartsWithSlash(last)
    ensures EndsWith(Join(t, last), "/" + last)
  {
    if EndsWithSlash(t) {
      assert Join(t, last) == t[..|t| - 1] + ("/" + last);
    } else {
      assert Join(t, last) == t + ("/" + last);
    }
  }

  /**
   * For any tagged identifier whose hex part holds no `/`, the metadata path
   * is the blob path with the blob root replaced by the metadata root and
   * `.json` appended: both live under the same shard directories.  The blob
   * file's own name is the whole hex part.
   */
  lemma SharedShardTail(id: string)
    requires Tag <= id && NoSlash(id[|Tag|..])
    ensures BlobRoot <= PathFor(id).value.blob
    ensures PathFor(id).value.meta == MetaRoot + PathFor(id).value.blob[|BlobRoot|..] + MetaSuffix
    ensures EndsWith(PathFor(id).value.blob, "/" + id[|Tag|..])
  {
    var hex := id[|Tag|..];
    var s1 := Slice(hex, 0, 2);
    var s2 := Slice(hex, 2, 4);
    NoSlashSlice(hex, 0, 2);
    NoSlashSlice(hex, 2, 4);
    assert !StartsWithSlash(hex) && !StartsWithSlash(hex + MetaSuffix);
    JoinShardsUnderRoot(BlobRoot, s1, s2, hex);
    JoinShardsUnderRoot(MetaRoot, s1, s2, hex + MetaSuffix);
    var t2 := Join("/" + s1, s2);
    assert |t2| > 0;
    JoinAppendSuffix(t2, hex, MetaSuffix);
    var tail := Join(t2, hex);
    JoinEndsWithComponent(t2, hex);
    EndsWithUnderPrefix(BlobRoot, tail, "/" + hex);
    assert MetaRoot + (tail + MetaSuffix) == MetaRoot + tail + MetaSuffix;
  }

  lemma EndsWithUnderPrefix(r: string, t: string, e: string)
    requires EndsWith(t, e)
    ensures r <= r + t && (r + t)[|r|..] == t && EndsWith(r + t, e)
  {
    assert (r + t)[|r + t| - |e|..] == t[|t| - |e|..];
  }

  /** If a path ends with both `/h1` and a longer `/h2`, the separator before `h1` lies inside `h2`. */
  lemma SeparatorInsideLonger(p: string, h1: string, h2: string)
    requires |h1| < |h2|
    requires EndsWith(p, "/" + h1) && EndsWith(p, "/" + h2)
    ensures h2[|h2| - |h1| - 1] == '/'
  {
    var k := |p| - |h1| - 1;
    assert p[k] == ("/" + h1)[0];
    assert p[k] == ("/" + h2)[|h2| - |h1|];
  }

  /** Two slash-free names that both end a path after a separator are equal. */
  lemma LastComponentUnique(p: string, h1: string, h2: string)
    requires NoSlash(h1) && NoSlash(h2)
    requires EndsWith(p, "/" + h1) && EndsWith(p, "/" + h2)
    ensures h1 == h2
  {
    if |h1| < |h2| {
      SeparatorInsideLonger(p, h1, h2);
      assert false;
    } else if |h2| < |h1| {
      SeparatorInsideLonger(p, h2, h1);
      assert false;
    } else {
      assert ("/" + h1)[1..] == h1 && ("/" + h2)[1..] == h2;
    }
  }

  /**
   * Path resolution never sends two different slash-free identifiers to the
   * same blob file (and so, by `SharedShardTail`, to the same metadata file).
   */
  lemma PathForInjective(id1: string, id2: string)
    requires Tag <= id1 && NoSlash(id1[|Tag|..])
    requires Tag <= id2 && NoSlash(id2[|Tag|..])
    ensures PathFor(id1).value.blob == PathFor(id2).value.blob ==> id1 == id2
  {
    if PathFor(id1).value.blob == PathFor(id2).value.blob {
      SharedShardTail(id1);
      SharedShardTail(id2);
      SameLastComponentSameId(PathFor(id1).value.blob, id1, id2);
    }
  }

  /** Two tagged identifiers whose slash-free tails both end one path are equal. */
  lemma SameLastComponentSameId(p: string, id1: string, id2: string)
    requires Tag <= id1 && NoSlash(id1[|Tag|..]) && EndsWith(p, "/" + id1[|Tag|..])
    requires Tag <= id2 && NoSlash(id2[|Tag|..]) && EndsWith(p, "/" + id2[|Tag|..])
    ensures id1 == id2
  {
    LastComponentUnique(p, id1[|Tag|..], id2[|Tag|..]);
    assert id1 == Tag + id1[|Tag|..] && id2 == Tag + id2[|Tag|..];
  }

  /** Distinct digests have distinct blob files and distinct metadata files. */
  lemma DigestPathsInjective(d1: HexDigest, d2: HexDigest)
    requires BlobPath(d1) == BlobPath(d2) || MetaPath(d1) == MetaPath(d2)
    ensures d1 == d2
  {
    assert d1 == BlobPath(d1)[|BlobRoot| + 7..] && d2 == BlobPath(d2)[|BlobRoot| + 7..];
    assert d1 == MetaPath(d1)[|MetaRoot| + 7..|MetaRoot| + 71]
        && d2 == MetaPath(d2)[|MetaRoot| + 7..|MetaRoot| + 71];
  }

  /** An identifier with an empty hex part resolves to the blob root directory itself. */
  lemma EmptyHexResolvesToRoot()
    ensures PathFor("sha256:") == Some(Locations("./data/blobs/", "./data/meta/.json"))
  {
    assert "sha256:"[|Tag|..] == "";
    assert Slice("", 0, 2) == "" && Slice("", 2, 4) == "";
    assert !EndsWithSlash(BlobRoot) && !EndsWithSlash(MetaRoot);
    assert Join(BlobRoot, "") == "./data/blobs/";
    assert Join(MetaRoot, "") == "./data/meta/";
    assert Join("./data/blobs/", "") == "./data/blobs/";
    assert Join("./data/meta/", "") == "./data/meta/";
    assert Join("./data/meta/", "" + MetaSuffix) == "./data/meta/.json";
  }

  /** A missing or different algorithm tag is rejected. */
  lemma UntaggedIdRejected()
    ensures PathFor("sha-256:abcd").None? && PathFor("abcd").None?
  {
    assert "sha-256:abcd"[3] != Tag[3];
  }
}
