/** Importing a backup bundle: the inventory of an untrusted archive, whose claimed sizes are added up in 64 bits. */
module BackupBundles {
  import opened Results
  import opened Collections
  import opened Words

  type Bytes = seq<bv8>

  const FORMAT := "codex-backup-bundle.v1"
  const MAXIMUM_ARCHIVE_BYTES := 0x4000_0000
  const MAXIMUM_EXPANDED_BYTES := 0x1_0000_0000
  const MAXIMUM_MANIFEST_BYTES := 0x100_0000
  const MAXIMUM_IMAGE_BYTES := 0x400_0000
  const MAXIMUM_PARTS := 513
  const MAXIMUM_BLOBS := 100_000
  const MAXIMUM_FILES := 2 + MAXIMUM_PARTS + MAXIMUM_BLOBS
  const MANIFEST_PATH := "manifest.json"
  const REASONS := {"manual", "save", "pre-restore", "download", "imported"}

  /** An entry of the archive: the size it claims, and what reading it yields. */
  datatype File = File(name: string, regular: bool, size: Word, content: Option<Bytes>)

  datatype Part = Part(
    scope: string, addonId: string, generationId: string, addonVersion: string, pointId: int, createdAt: string, reason: string,
    path: string, bytes: int, sha256: string)

  datatype Blob = Blob(id: string, sha256: string, bytes: Word, ownerKind: string, ownerId: string, createdAt: string)

  datatype Manifest = Manifest(
    format: string, createdAt: string, hostVersion: string, migration: int, parts: seq<Part>, blobs: seq<Blob>)

  /** What the host knows: its newest migration, exact JSON, SHA-256, dates, add-on IDs and recovery images. */
  datatype Host = Host(
    migration: int, decode: Bytes -> Option<Manifest>, digest: Bytes -> string, validTime: string -> bool,
    validAddonId: string -> bool, validImage: (Part, Bytes, seq<Blob>) -> bool)

  type Entries = map<string, File>

  // ----- what a good bundle is -----

  predicate ValidDigest(value: string) {
    |value| == 64 && forall c <- value :: '0' <= c <= '9' || 'a' <= c <= 'f'
  }

  function PartPath(part: Part): string {
    if part.scope == "addon" then "parts/addons/" + part.addonId + ".json" else "parts/campaign.json"
  }

  function ObjectPath(digest: string): string {
    "blobs/sha256/" + digest
  }

  predicate ValidPart(host: Host, part: Part) {
    && (|| (part.scope == "campaign" && part.addonId == "" && part.generationId == "" && part.addonVersion == "")
        || (part.scope == "addon" && host.validAddonId(part.addonId)
            && (part.generationId == "" || ValidDigest(part.generationId)) && |part.addonVersion| <= 100))
    && part.pointId >= 1 && host.validTime(part.createdAt) && part.reason in REASONS && part.path == PartPath(part)
    && 1 <= part.bytes <= MAXIMUM_IMAGE_BYTES && ValidDigest(part.sha256)
  }

  predicate ValidBlob(host: Host, blob: Blob) {
    ValidDigest(blob.sha256) && blob.bytes <= MAXIMUM_ARCHIVE_BYTES && host.validTime(blob.createdAt)
  }

  predicate ValidHeader(host: Host, manifest: Manifest) {
    && manifest.format == FORMAT
    && host.validTime(manifest.createdAt) && manifest.hostVersion != "" && |manifest.hostVersion| <= 100
    && 1 <= manifest.migration <= host.migration
    && 1 <= |manifest.parts| <= MAXIMUM_PARTS
  }

  ghost predicate ValidParts(host: Host, parts: seq<Part>) {
    && (forall part <- parts :: ValidPart(host, part))
    && forall i, j | 0 <= i < j < |parts| :: (parts[i].scope, parts[i].addonId) != (parts[j].scope, parts[j].addonId)
  }

  ghost predicate ValidBlobs(host: Host, blobs: seq<Blob>) {
    && (forall blob <- blobs :: ValidBlob(host, blob))
    && (forall i, j | 0 <= i < j < |blobs| :: blobs[i].id != blobs[j].id)
    && (forall a <- blobs, b <- blobs | a.sha256 == b.sha256 :: a.bytes == b.bytes)
  }

  ghost predicate ValidManifest(host: Host, manifest: Manifest) {
    && ValidHeader(host, manifest) && ValidParts(host, manifest.parts)
    && |manifest.blobs| <= MAXIMUM_BLOBS && ValidBlobs(host, manifest.blobs)
  }

  function Total(files: seq<File>): nat {
    if files == [] then 0 else Total(files[..|files| - 1]) + files[|files| - 1].size
  }

  ghost predicate DistinctNames(files: seq<File>) {
    forall i, j | 0 <= i < j < |files| :: files[i].name != files[j].name
  }

  /** A name the manifest declares, with its size. */
  ghost predicate Declares(manifest: Manifest, body: nat, name: string, size: int) {
    || (name == MANIFEST_PATH && size == body)
    || (exists part <- manifest.parts :: name == part.path && size == part.bytes)
    || (exists blob <- manifest.blobs :: name == ObjectPath(blob.sha256) && size == blob.bytes)
  }

  ghost predicate DeclaresName(manifest: Manifest, name: string) {
    || name == MANIFEST_PATH
    || (exists part <- manifest.parts :: name == part.path)
    || (exists blob <- manifest.blobs :: name == ObjectPath(blob.sha256))
  }

  /** The file reads as exactly the bytes it claims. */
  ghost predicate Reads(file: File, body: Bytes, limit: nat) {
    file.size <= limit && file.content == Some(body) && |body| == file.size
  }

  /** The archive holds regular files of distinct names, exactly the declared ones, each of its declared size,
      at most 4 GiB together, and every part matches its digest and is a recovery image. */
  ghost predicate GoodBundle(host: Host, files: seq<File>, manifest: Manifest) {
    && DistinctNames(files) && (forall file <- files :: file.regular)
    && Total(files) <= MAXIMUM_EXPANDED_BYTES
    && ValidManifest(host, manifest)
    && (exists file <- files, body :: file.name == MANIFEST_PATH && Reads(file, body, MAXIMUM_MANIFEST_BYTES)
                                      && host.decode(body) == Some(manifest)
                                      && (forall other <- files :: Declares(manifest, |body|, other.name, other.size)))
    && (forall name | DeclaresName(manifest, name) :: exists file <- files :: file.name == name)
    && (forall part <- manifest.parts, file <- files | file.name == part.path :: GoodPart(host, manifest, part, file))
  }

  ghost predicate GoodPart(host: Host, manifest: Manifest, part: Part, file: File) {
    exists body :: Reads(file, body, MAXIMUM_IMAGE_BYTES) && host.digest(body) == part.sha256 && host.validImage(part, body, manifest.blobs)
  }

  // ----- the first loop -----

  /** The running total as the code keeps it. */
  function Wrapped(files: seq<File>): Word {
    Wrap(Total(files))
  }

  /** The entries are the files by name; none is missing, repeated or irregular. */
  ghost predicate Listed(files: seq<File>, entries: Entries) {
    && DistinctNames(files) && (forall file <- files :: file.regular && file.name in entries && entries[file.name] == file)
    && (forall name | name in entries :: entries[name] in files && entries[name].name == name)
    && |entries| == |files|
  }

  /** The running total never exceeded the limit. */
  ghost predicate WithinLimit(files: seq<File>) {
    files == [] || (WithinLimit(files[..|files| - 1]) && Wrapped(files) <= MAXIMUM_EXPANDED_BYTES)
  }

  /** The first loop after some of the files. */
  ghost predicate Inventoried(files: seq<File>, k: nat, found: Entries, expanded: nat) {
    k <= |files| && k <= MAXIMUM_FILES && Listed(files[..k], found) && WithinLimit(files[..k]) && expanded == Wrapped(files[..k])
  }

  /** What the first loop lets pass: its total is the wrapping one. */
  ghost predicate Listable(files: seq<File>) {
    DistinctNames(files) && (forall file <- files :: file.regular) && WithinLimit(files) && |files| <= MAXIMUM_FILES
  }

  method Inventory(files: seq<File>) returns (entries: Option<Entries>)
    ensures entries.Some? <==> Listable(files)
    ensures entries.Some? ==> Listed(files, entries.value)
  {
    hide Listed, WithinLimit, Wrapped, Listable;
    var found: Entries, expanded: nat := map[], 0;
    InventoryStarts(files);
    for k := 0 to |files|
      invariant Inventoried(files, k, found, expanded)
    {
      var file := files[k];
      var sum := Wrap(expanded + file.size);
      if file.name in found || !file.regular || sum > MAXIMUM_EXPANDED_BYTES || |found| >= MAXIMUM_FILES {
        FileIsRefused(files, k, found, expanded);
        return None;
      }
      InventoryNext(files, k, found, expanded);
      found, expanded := found[file.name := file], sum;
    }
    assert files[..|files|] == files;
    AllListed(files, found, expanded);
    entries := Some(found);
  }

  lemma AllListed(files: seq<File>, found: Entries, expanded: nat)
    requires Inventoried(files, |files|, found, expanded)
    ensures Listable(files) && Listed(files, found)
  {
    hide WithinLimit, Wrapped;
    assert files[..|files|] == files;
  }

  lemma InventoryStarts(files: seq<File>)
    ensures Inventoried(files, 0, map[], 0)
  {
  }

  lemma InventoryNext(files: seq<File>, k: nat, found: Entries, expanded: nat)
    requires k < |files| && Inventoried(files, k, found, expanded)
    requires |found| < MAXIMUM_FILES && files[k].name !in found && files[k].regular && Wrap(expanded + files[k].size) <= MAXIMUM_EXPANDED_BYTES
    ensures Inventoried(files, k + 1, found[files[k].name := files[k]], Wrap(expanded + files[k].size))
  {
    hide Listed, WithinLimit, Wrapped;
    assert |found| == k by { ListedCount(files[..k], found); }
    WrappedNext(files, k);
    ListNext(files, k, found);
    LimitNext(files, k);
  }

  lemma ListedCount(files: seq<File>, entries: Entries)
    requires Listed(files, entries)
    ensures |entries| == |files|
  {
  }

  ghost predicate Refused(files: seq<File>) {
    || !DistinctNames(files) || (exists file <- files :: !file.regular)
    || Total(files) > MAXIMUM_EXPANDED_BYTES || |files| > MAXIMUM_FILES
  }

  /** What the loop refuses, no good bundle is. */
  lemma NotListableIsRefused(files: seq<File>)
    requires !Listable(files)
    ensures Refused(files)
  {
    hide DistinctNames;
    if Total(files) <= MAXIMUM_EXPANDED_BYTES {
      SmallTotalsAreWithinLimit(files);
    }
  }

  lemma {:induction false} SmallTotalsAreWithinLimit(files: seq<File>)
    requires Total(files) <= MAXIMUM_EXPANDED_BYTES
    ensures WithinLimit(files)
  {
    if files != [] {
      SmallTotalsAreWithinLimit(files[..|files| - 1]);
    }
  }

  lemma FileIsRefused(files: seq<File>, k: nat, found: Entries, expanded: nat)
    requires k < |files| && Inventoried(files, k, found, expanded)
    requires files[k].name in found || !files[k].regular || Wrap(expanded + files[k].size) > MAXIMUM_EXPANDED_BYTES
          || |found| >= MAXIMUM_FILES
    ensures !Listable(files)
  {
    hide WithinLimit, Total, DistinctNames;
    if files[k].name in found {
      RepeatedName(files, k, found);
    } else if !files[k].regular {
      assert files[k] in files;
    } else if Wrap(expanded + files[k].size) > MAXIMUM_EXPANDED_BYTES {
      WrappedNext(files, k);
      if WithinLimit(files) { LimitOfPrefix(files, k + 1); }
    } else {
      assert |found| == k;
    }
  }

  lemma {:induction false} LimitOfPrefix(files: seq<File>, k: nat)
    requires WithinLimit(files) && 0 < k <= |files|
    ensures Wrapped(files[..k]) <= MAXIMUM_EXPANDED_BYTES
  {
    if k < |files| {
      var front := files[..|files| - 1];
      LimitOfPrefix(front, k);
      assert front[..k] == files[..k];
    } else {
      assert files[..k] == files;
    }
  }

  lemma RepeatedName(files: seq<File>, k: nat, found: Entries)
    requires k < |files| && Listed(files[..k], found) && files[k].name in found
    ensures !DistinctNames(files)
  {
    var i :| 0 <= i < k && files[..k][i] == found[files[k].name];
    assert files[i].name == files[k].name;
  }

  lemma TotalNext(files: seq<File>, k: nat)
    requires k < |files|
    ensures files[..k + 1] == files[..k] + [files[k]]
    ensures Total(files[..k + 1]) == Total(files[..k]) + files[k].size
  {
    assert files[..k + 1][..k] == files[..k];
  }

  lemma WrappedNext(files: seq<File>, k: nat)
    requires k < |files|
    ensures Wrapped(files[..k + 1]) == Wrap(Wrapped(files[..k]) + files[k].size)
  {
    TotalNext(files, k);
    WrapTwice(Total(files[..k]), files[k].size);
  }

  lemma ListNext(files: seq<File>, k: nat, found: Entries)
    requires k < |files| && Listed(files[..k], found) && files[k].name !in found && files[k].regular
    ensures Listed(files[..k + 1], found[files[k].name := files[k]])
  {
    var before := files[..k];
    var more := found[files[k].name := files[k]];
    assert files[..k + 1] == before + [files[k]];
    assert forall i | 0 <= i < k :: before[i] in before;
    assert more.Keys == found.Keys + {files[k].name};
    assert |more| == |more.Keys| && |found| == |found.Keys|;
  }

  lemma LimitNext(files: seq<File>, k: nat)
    requires k < |files| && WithinLimit(files[..k]) && Wrapped(files[..k + 1]) <= MAXIMUM_EXPANDED_BYTES
    ensures WithinLimit(files[..k + 1])
  {
    assert files[..k + 1][..k] == files[..k];
  }

  /** The sum of untrusted sizes could wrap, but not when every size turns out to be as small as a declared one:
      then the running total was the true total all along. */
  lemma {:induction false} SmallSizesDoNotWrap(files: seq<File>)
    requires WithinLimit(files)
    requires forall file <- files :: file.size <= MAXIMUM_ARCHIVE_BYTES
    ensures Total(files) <= MAXIMUM_EXPANDED_BYTES && Wrapped(files) == Total(files)
  {
    if files != [] {
      SmallSizesDoNotWrap(files[..|files| - 1]);
      assert files[|files| - 1] in files;
    }
  }

  /** Without the later check it does wrap: next to a file of one byte, one that claims 2^64 - 1 bytes passes
      the first loop. */
  lemma ClaimedSizesCanWrap() returns (files: seq<File>, entries: Entries)
    ensures Listable(files) && Listed(files, entries) && Total(files) > MAXIMUM_EXPANDED_BYTES
  {
    var one, huge := File("a", true, 1, None), File("b", true, 0xFFFF_FFFF_FFFF_FFFF, None);
    files, entries := [one, huge], map["a" := one, "b" := huge];
    TotalOfTwo(one, huge);
    TwoAreListed(one, huge);
  }

  lemma TotalOfTwo(a: File, b: File)
    ensures Total([a]) == a.size && Total([a, b]) == a.size + b.size
    ensures WithinLimit([a, b]) <==> Wrap(a.size) <= MAXIMUM_EXPANDED_BYTES && Wrap(a.size + b.size) <= MAXIMUM_EXPANDED_BYTES
  {
    assert [a][..0] == [] && Total([a]) == a.size;
    assert [a, b][..1] == [a] && Total([a, b]) == a.size + b.size;
    assert WithinLimit([]);
    assert WithinLimit([a]) <==> Wrapped([a]) <= MAXIMUM_EXPANDED_BYTES;
    assert WithinLimit([a, b]) <==> WithinLimit([a]) && Wrapped([a, b]) <= MAXIMUM_EXPANDED_BYTES;
  }

  lemma TwoAreListed(a: File, b: File)
    requires a.name != b.name && a.regular && b.regular
    ensures Listed([a, b], map[a.name := a, b.name := b])
  {
    var entries := map[a.name := a, b.name := b];
    assert entries.Keys == {a.name, b.name};
    assert |entries| == |entries.Keys|;
  }

  // ----- Manifest.validate -----

  method ValidateParts(host: Host, parts: seq<Part>) returns (ok: bool)
    ensures ok <==> ValidParts(host, parts)
  {
    var seen: set<(string, string)> := {};
    for k := 0 to |parts|
      invariant ValidParts(host, parts[..k])
      invariant seen == set part <- parts[..k] :: (part.scope, part.addonId)
    {
      var part := parts[k];
      assert parts[..k + 1] == parts[..k] + [part] && part in parts;
      if !ValidPart(host, part) { return false; }
      if (part.scope, part.addonId) in seen {
        var i :| 0 <= i < k && (parts[..k][i].scope, parts[..k][i].addonId) == (part.scope, part.addonId);
        assert (parts[i].scope, parts[i].addonId) == (parts[k].scope, parts[k].addonId);
        return false;
      }
      seen := seen + {(part.scope, part.addonId)};
    }
    assert parts[..|parts|] == parts;
    ok := true;
  }

  /** What the loop over the blobs has recorded. */
  ghost predicate Recorded(host: Host, blobs: seq<Blob>, ids: set<string>, sizes: map<string, Word>) {
    && ValidBlobs(host, blobs)
    && ids == (set blob <- blobs :: blob.id)
    && (forall blob <- blobs :: blob.sha256 in sizes && sizes[blob.sha256] == blob.bytes)
    && (forall digest | digest in sizes :: exists blob <- blobs :: blob.sha256 == digest)
  }

  lemma RecordNext(host: Host, blobs: seq<Blob>, k: nat, ids: set<string>, sizes: map<string, Word>)
    requires k < |blobs| && Recorded(host, blobs[..k], ids, sizes)
    requires blobs[k].id !in ids && ValidBlob(host, blobs[k]) && (blobs[k].sha256 in sizes ==> sizes[blobs[k].sha256] == blobs[k].bytes)
    ensures Recorded(host, blobs[..k + 1], ids + {blobs[k].id}, sizes[blobs[k].sha256 := blobs[k].bytes])
  {
    var before := blobs[..k];
    assert blobs[..k + 1] == before + [blobs[k]];
    assert forall i | 0 <= i < k :: before[i] in before;
  }

  lemma BlobIsRefused(host: Host, blobs: seq<Blob>, k: nat, ids: set<string>, sizes: map<string, Word>)
    requires k < |blobs| && Recorded(host, blobs[..k], ids, sizes)
    requires blobs[k].id in ids || !ValidBlob(host, blobs[k]) || (blobs[k].sha256 in sizes && sizes[blobs[k].sha256] != blobs[k].bytes)
    ensures !ValidBlobs(host, blobs)
  {
    hide ValidBlob;
    var before := blobs[..k];
    assert blobs[k] in blobs && forall blob <- before :: blob in blobs;
    if blobs[k].id in ids {
      var i :| 0 <= i < k && before[i].id == blobs[k].id;
      assert blobs[i].id == blobs[k].id;
    }
  }

  method ValidateBlobs(host: Host, blobs: seq<Blob>) returns (ok: bool)
    ensures ok <==> ValidBlobs(host, blobs)
  {
    var ids: set<string>, sizes: map<string, Word> := {}, map[];
    for k := 0 to |blobs|
      invariant Recorded(host, blobs[..k], ids, sizes)
    {
      var blob := blobs[k];
      if blob.id in ids || !ValidBlob(host, blob) || (blob.sha256 in sizes && sizes[blob.sha256] != blob.bytes) {
        BlobIsRefused(host, blobs, k, ids, sizes);
        return false;
      }
      RecordNext(host, blobs, k, ids, sizes);
      ids, sizes := ids + {blob.id}, sizes[blob.sha256 := blob.bytes];
    }
    assert blobs[..|blobs|] == blobs;
    ok := true;
  }

  method Validate(host: Host, manifest: Manifest) returns (ok: bool)
    ensures ok <==> ValidManifest(host, manifest)
  {
    if !ValidHeader(host, manifest) { return false; }
    var parts := ValidateParts(host, manifest.parts);
    if !parts || |manifest.blobs| > MAXIMUM_BLOBS { return false; }
    ok := ValidateBlobs(host, manifest.blobs);
  }

  // ----- the declared sizes -----

  /** No two declared names collide unless they are one content. */
  lemma PathsDiffer(host: Host, parts: seq<Part>, i: nat, j: nat, digest: string)
    requires ValidParts(host, parts) && i < |parts| && j < |parts|
    ensures i != j ==> parts[i].path != parts[j].path
    ensures parts[i].path != MANIFEST_PATH && parts[i].path != ObjectPath(digest) && ObjectPath(digest) != MANIFEST_PATH
  {
    assert parts[i] in parts && parts[j] in parts;
    assert PartPath(parts[i])[0] == 'p' && ObjectPath(digest)[0] == 'b' && MANIFEST_PATH[0] == 'm';
    if i != j && PartPath(parts[i]) == PartPath(parts[j]) {
      AddonPaths(parts[i], parts[j]);
    }
  }

  lemma AddonPaths(a: Part, b: Part)
    requires a.scope in {"addon", "campaign"} && b.scope in {"addon", "campaign"}
    requires (a.scope == "campaign" ==> a.addonId == "") && (b.scope == "campaign" ==> b.addonId == "")
    requires PartPath(a) == PartPath(b)
    ensures (a.scope, a.addonId) == (b.scope, b.addonId)
  {
    var prefix := "parts/addons/";
    if a.scope == "addon" {
      assert PartPath(a)[6] == 'a';
    }
    if b.scope == "addon" {
      assert PartPath(b)[6] == 'a';
    }
    assert "parts/campaign.json"[6] == 'c';
    if a.scope == "addon" && b.scope == "addon" {
      var left, right := PartPath(a), PartPath(b);
      assert |a.addonId| == |left| - |prefix| - 5 && |b.addonId| == |right| - |prefix| - 5;
      assert left[|prefix|..|prefix| + |a.addonId|] == a.addonId && right[|prefix|..|prefix| + |b.addonId|] == b.addonId;
    }
  }

  type Sizes = map<string, int>

  ghost predicate PartsDeclared(parts: seq<Part>, body: nat, sizes: Sizes) {
    && MANIFEST_PATH in sizes && sizes[MANIFEST_PATH] == body
    && (forall part <- parts :: part.path in sizes && sizes[part.path] == part.bytes)
    && (forall name | name in sizes :: name == MANIFEST_PATH || exists part <- parts :: name == part.path)
    && |sizes| <= 1 + |parts|
  }

  ghost predicate AllDeclared(manifest: Manifest, blobs: seq<Blob>, body: nat, sizes: Sizes) {
    && MANIFEST_PATH in sizes && sizes[MANIFEST_PATH] == body
    && (forall part <- manifest.parts :: part.path in sizes && sizes[part.path] == part.bytes)
    && (forall blob <- blobs :: ObjectPath(blob.sha256) in sizes && sizes[ObjectPath(blob.sha256)] == blob.bytes)
    && (forall name | name in sizes ::
          name == MANIFEST_PATH || (exists part <- manifest.parts :: name == part.path) || (exists blob <- blobs :: name == ObjectPath(blob.sha256)))
    && |sizes| <= 1 + |manifest.parts| + |blobs|
  }

  lemma GrowsByOne(sizes: Sizes, name: string, size: int)
    ensures |sizes[name := size]| <= |sizes| + 1
  {
    assert sizes[name := size].Keys == sizes.Keys + {name};
    assert |sizes[name := size]| == |sizes[name := size].Keys| && |sizes| == |sizes.Keys|;
  }

  lemma PartNext(host: Host, parts: seq<Part>, k: nat, body: nat, sizes: Sizes)
    requires ValidParts(host, parts) && k < |parts| && PartsDeclared(parts[..k], body, sizes)
    ensures PartsDeclared(parts[..k + 1], body, sizes[parts[k].path := parts[k].bytes])
  {
    var before := parts[..k];
    assert parts[..k + 1] == before + [parts[k]];
    PathsDiffer(host, parts, k, k, "");
    GrowsByOne(sizes, parts[k].path, parts[k].bytes);
    forall part <- before
      ensures part.path != parts[k].path
    {
      var i :| 0 <= i < k && before[i] == part;
      PathsDiffer(host, parts, i, k, "");
    }
  }

  lemma ObjectPathIsNew(host: Host, parts: seq<Part>, digest: string)
    requires ValidParts(host, parts)
    ensures ObjectPath(digest) != MANIFEST_PATH && forall part <- parts :: part.path != ObjectPath(digest)
  {
    assert ObjectPath(digest)[0] == 'b' && MANIFEST_PATH[0] == 'm';
    forall part <- parts
      ensures part.path != ObjectPath(digest)
    {
      var i :| 0 <= i < |parts| && parts[i] == part;
      PathsDiffer(host, parts, i, i, digest);
    }
  }

  lemma SameObject(a: string, b: string)
    requires ObjectPath(a) == ObjectPath(b)
    ensures a == b
  {
    assert ObjectPath(a)[|"blobs/sha256/"|..] == a && ObjectPath(b)[|"blobs/sha256/"|..] == b;
  }

  lemma BlobNext(host: Host, manifest: Manifest, k: nat, body: nat, sizes: Sizes)
    requires ValidManifest(host, manifest) && k < |manifest.blobs| && AllDeclared(manifest, manifest.blobs[..k], body, sizes)
    ensures AllDeclared(manifest, manifest.blobs[..k + 1], body, sizes[ObjectPath(manifest.blobs[k].sha256) := manifest.blobs[k].bytes])
  {
    hide ValidHeader, ValidParts, ValidBlob, ObjectPath;
    var before, blob := manifest.blobs[..k], manifest.blobs[k];
    assert manifest.blobs[..k + 1] == before + [blob] && blob in manifest.blobs;
    GrowsByOne(sizes, ObjectPath(blob.sha256), blob.bytes);
    ObjectPathIsNew(host, manifest.parts, blob.sha256);
    forall other <- before | ObjectPath(other.sha256) == ObjectPath(blob.sha256)
      ensures other.bytes == blob.bytes
    {
      SameObject(other.sha256, blob.sha256);
      assert other in manifest.blobs;
    }
  }

  method Declared(host: Host, manifest: Manifest, body: nat) returns (sizes: Sizes)
    requires ValidManifest(host, manifest)
    ensures AllDeclared(manifest, manifest.blobs, body, sizes)
  {
    sizes := map[MANIFEST_PATH := body];
    for k := 0 to |manifest.parts|
      invariant PartsDeclared(manifest.parts[..k], body, sizes)
    {
      PartNext(host, manifest.parts, k, body, sizes);
      sizes := sizes[manifest.parts[k].path := manifest.parts[k].bytes];
    }
    assert manifest.parts[..|manifest.parts|] == manifest.parts;
    for k := 0 to |manifest.blobs|
      invariant AllDeclared(manifest, manifest.blobs[..k], body, sizes)
    {
      BlobNext(host, manifest, k, body, sizes);
      sizes := sizes[ObjectPath(manifest.blobs[k].sha256) := manifest.blobs[k].bytes];
    }
    assert manifest.blobs[..|manifest.blobs|] == manifest.blobs;
  }

  // ----- Import -----

  /** The body of an entry: it must read as exactly the bytes it claims, at most `limit`. */
  function ReadEntry(entries: Entries, name: string, limit: nat): (body: Option<Bytes>)
    ensures body.Some? <==> name in entries && exists content :: Reads(entries[name], content, limit)
    ensures body.Some? ==> Reads(entries[name], body.value, limit)
  {
    if name !in entries || entries[name].size > limit || entries[name].content.None?
       || |entries[name].content.value| != entries[name].size
    then None
    else
      assert Reads(entries[name], entries[name].content.value, limit);
      entries[name].content
  }

  /** Every entry is declared with its size, and counting shows that every declared name is there. */
  ghost predicate Matches(entries: Entries, sizes: Sizes) {
    entries.Keys == sizes.Keys && forall name | name in entries :: entries[name].size == sizes[name]
  }

  method CheckInventory(entries: Entries, sizes: Sizes) returns (ok: bool)
    ensures ok <==> Matches(entries, sizes)
  {
    var left := entries.Keys;
    while left != {}
      invariant left <= entries.Keys
      invariant forall name | name in entries && name !in left :: name in sizes && entries[name].size == sizes[name]
      decreases left
    {
      var name: string :| name in left;
      if name !in sizes || entries[name].size != sizes[name] { return false; }
      left := left - {name};
    }
    assert entries.Keys <= sizes.Keys;
    assert |entries| == |entries.Keys| && |sizes| == |sizes.Keys|;
    if |entries| == |sizes| {
      SubsetOfSameSize(entries.Keys, sizes.Keys);
    }
    ok := |entries| == |sizes|;
  }

  ghost predicate GoodParts(host: Host, manifest: Manifest, parts: seq<Part>, entries: Entries) {
    forall part <- parts :: part.path in entries && GoodPart(host, manifest, part, entries[part.path])
  }

  method CheckParts(host: Host, manifest: Manifest, entries: Entries) returns (ok: bool)
    ensures ok <==> GoodParts(host, manifest, manifest.parts, entries)
  {
    for k := 0 to |manifest.parts|
      invariant GoodParts(host, manifest, manifest.parts[..k], entries)
    {
      var part := manifest.parts[k];
      assert manifest.parts[..k + 1] == manifest.parts[..k] + [part] && part in manifest.parts;
      var image := ReadEntry(entries, part.path, MAXIMUM_IMAGE_BYTES);
      if image.None? || host.digest(image.value) != part.sha256 || !host.validImage(part, image.value, manifest.blobs) { return false; }
    }
    assert manifest.parts[..|manifest.parts|] == manifest.parts;
    ok := true;
  }

  /** The checks of `Import` accept exactly the good bundles. */
  method CheckBundle(host: Host, files: seq<File>) returns (result: Option<Manifest>)
    ensures result.Some? ==> GoodBundle(host, files, result.value)
    ensures result.None? ==> forall manifest :: !GoodBundle(host, files, manifest)
  {
    var entries := Inventory(files);
    if entries.None? {
      NotListableIsRefused(files);
      RefusedIsNotGood(host, files);
      return None;
    }
    var body := ReadEntry(entries.value, MANIFEST_PATH, MAXIMUM_MANIFEST_BYTES);
    var manifest := if body.Some? then host.decode(body.value) else None;
    if manifest.None? {
      ManifestIsRead(host, files, entries.value);
      return None;
    }
    var valid := Validate(host, manifest.value);
    if !valid {
      ManifestIsRead(host, files, entries.value);
      return None;
    }
    var sizes := Declared(host, manifest.value, |body.value|);
    var matching := CheckInventory(entries.value, sizes);
    if !matching {
      ManifestIsRead(host, files, entries.value);
      if GoodBundle(host, files, manifest.value) {
        GoodMatches(host, files, entries.value, body.value, manifest.value, sizes);
      }
      return None;
    }
    var images := CheckParts(host, manifest.value, entries.value);
    if !images {
      ManifestIsRead(host, files, entries.value);
      if GoodBundle(host, files, manifest.value) {
        GoodHasParts(host, files, entries.value, manifest.value);
      }
      return None;
    }
    CheckedIsGood(host, files, entries.value, body.value, manifest.value, sizes);
    result := manifest;
  }

  lemma {:induction false} PathsAreFew(parts: seq<Part>)
    ensures |set part <- parts :: part.path| <= |parts|
  {
    if parts != [] {
      var front, last := parts[..|parts| - 1], parts[|parts| - 1];
      PathsAreFew(front);
      assert parts == front + [last];
      assert (set part <- parts :: part.path) == (set part <- front :: part.path) + {last.path};
    }
  }

  lemma {:induction false} ObjectsAreFew(blobs: seq<Blob>)
    ensures |set blob <- blobs :: ObjectPath(blob.sha256)| <= |blobs|
  {
    if blobs != [] {
      var front, last := blobs[..|blobs| - 1], blobs[|blobs| - 1];
      ObjectsAreFew(front);
      assert blobs == front + [last];
      assert (set blob <- blobs :: ObjectPath(blob.sha256)) == (set blob <- front :: ObjectPath(blob.sha256)) + {ObjectPath(last.sha256)};
    }
  }

  lemma {:induction false} NamesAreMany(files: seq<File>)
    requires DistinctNames(files)
    ensures |set file <- files :: file.name| == |files|
  {
    if files != [] {
      var front, last := files[..|files| - 1], files[|files| - 1];
      hide DistinctNames;
      assert files == front + [last];
      LastNameIsNew(front, last);
      NamesAreMany(front);
      assert (set file <- files :: file.name) == (set file <- front :: file.name) + {last.name};
    }
  }

  lemma LastNameIsNew(front: seq<File>, last: File)
    requires DistinctNames(front + [last])
    ensures DistinctNames(front) && forall file <- front :: file.name != last.name
  {
    var files := front + [last];
    assert forall i | 0 <= i < |front| :: files[i] == front[i];
    forall file <- front
      ensures file.name != last.name
    {
      var i :| 0 <= i < |front| && front[i] == file;
      assert files[i].name != files[|front|].name;
    }
  }

  lemma GoodIsSmall(host: Host, files: seq<File>, manifest: Manifest)
    requires GoodBundle(host, files, manifest)
    ensures |files| <= 1 + MAXIMUM_PARTS + MAXIMUM_BLOBS
  {
    var parts := set part <- manifest.parts :: part.path;
    var objects := set blob <- manifest.blobs :: ObjectPath(blob.sha256);
    PathsAreFew(manifest.parts);
    ObjectsAreFew(manifest.blobs);
    NamesAreMany(files);
    SubsetIsSmaller(set file <- files :: file.name, {MANIFEST_PATH} + parts + objects);
  }

  lemma RefusedIsNotGood(host: Host, files: seq<File>)
    requires Refused(files)
    ensures forall manifest :: !GoodBundle(host, files, manifest)
  {
    forall manifest | GoodBundle(host, files, manifest)
      ensures false
    {
      GoodIsSmall(host, files, manifest);
    }
  }

  /** The manifest of a good bundle is the one its entry holds. */
  lemma ManifestIsRead(host: Host, files: seq<File>, entries: Entries)
    requires Listed(files, entries)
    ensures forall manifest | GoodBundle(host, files, manifest) ::
      var body := ReadEntry(entries, MANIFEST_PATH, MAXIMUM_MANIFEST_BYTES);
      && body.Some? && host.decode(body.value) == Some(manifest) && ValidManifest(host, manifest)
      && forall other <- files :: Declares(manifest, |body.value|, other.name, other.size)
  {
  }

  lemma GoodMatches(host: Host, files: seq<File>, entries: Entries, body: Bytes, manifest: Manifest, sizes: Sizes)
    requires Listed(files, entries) && AllDeclared(manifest, manifest.blobs, |body|, sizes) && GoodBundle(host, files, manifest)
    requires ReadEntry(entries, MANIFEST_PATH, MAXIMUM_MANIFEST_BYTES) == Some(body)
    ensures Matches(entries, sizes)
  {
    ManifestIsRead(host, files, entries);
    forall name | name in entries
      ensures name in sizes && entries[name].size == sizes[name]
    {
      assert Declares(manifest, |body|, name, entries[name].size);
    }
    forall name | name in sizes
      ensures name in entries
    {
      assert DeclaresName(manifest, name);
    }
    assert entries.Keys == sizes.Keys;
  }

  lemma GoodHasParts(host: Host, files: seq<File>, entries: Entries, manifest: Manifest)
    requires Listed(files, entries) && GoodBundle(host, files, manifest)
    ensures GoodParts(host, manifest, manifest.parts, entries)
  {
    forall part <- manifest.parts
      ensures part.path in entries && GoodPart(host, manifest, part, entries[part.path])
    {
      assert DeclaresName(manifest, part.path);
    }
  }

  /** What passed every check is a good bundle; the declared sizes are what rules out that the total wrapped. */
  lemma CheckedIsGood(host: Host, files: seq<File>, entries: Entries, body: Bytes, manifest: Manifest, sizes: Sizes)
    requires Listed(files, entries) && WithinLimit(files)
    requires ReadEntry(entries, MANIFEST_PATH, MAXIMUM_MANIFEST_BYTES) == Some(body) && host.decode(body) == Some(manifest)
    requires ValidManifest(host, manifest) && AllDeclared(manifest, manifest.blobs, |body|, sizes)
    requires Matches(entries, sizes) && GoodParts(host, manifest, manifest.parts, entries)
    ensures GoodBundle(host, files, manifest)
  {
    forall file <- files
      ensures Declares(manifest, |body|, file.name, file.size) && file.size <= MAXIMUM_ARCHIVE_BYTES
    {
      DeclaredIsSmall(host, manifest, body, sizes, file);
    }
    SmallSizesDoNotWrap(files);
    assert entries[MANIFEST_PATH] in files && Reads(entries[MANIFEST_PATH], body, MAXIMUM_MANIFEST_BYTES);
    forall name | DeclaresName(manifest, name)
      ensures exists file <- files :: file.name == name
    {
      assert name in sizes && entries[name] in files;
    }
  }

  lemma DeclaredIsSmall(host: Host, manifest: Manifest, body: Bytes, sizes: Sizes, file: File)
    requires ValidManifest(host, manifest) && AllDeclared(manifest, manifest.blobs, |body|, sizes)
    requires |body| <= MAXIMUM_MANIFEST_BYTES && file.name in sizes && file.size == sizes[file.name]
    ensures Declares(manifest, |body|, file.name, file.size) && file.size <= MAXIMUM_ARCHIVE_BYTES
  {
    if part :| part in manifest.parts && part.path == file.name {
      assert ValidPart(host, part);
    } else if blob :| blob in manifest.blobs && ObjectPath(blob.sha256) == file.name {
      assert ValidBlob(host, blob);
    }
  }
}
