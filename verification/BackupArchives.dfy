/** The full backup archive: what its writer publishes and what its reader accepts and extracts. */
module BackupArchives {
  import opened Results
  import opened Collections
  import opened Words

  type Bytes = seq<bv8>

  /** File names and paths are their bytes, one character each. */
  type Path = string

  const CONTRACT_VERSION := "codex-backup.v2"
  const MANIFEST_NAME := "manifest.json"
  const DATABASE_NAME := "codex.db"
  const MAXIMUM_PATH := 1024
  /** File modes are 32 bits, of which the lowest nine are permissions. */
  type Mode = bv32

  const MAXIMUM_MODE: Mode := 0x1FF

  datatype Limits = Limits(manifestBytes: Word, archiveBytes: int, expandedBytes: Word, fileBytes: Word, entries: int)

  datatype Entry = Entry(path: Path, bytes: Word, sha256: string, mode: Mode)

  datatype Manifest = Manifest(contractVersion: string, createdAt: string, hostVersion: string, entries: seq<Entry>)

  /** A ZIP entry: its header, and what reading it yields. */
  datatype File = File(name: Path, regular: bool, mode: Mode, size: Word, content: Option<Bytes>)

  /** `size` is that of the archive file itself. */
  datatype Archive = Archive(files: seq<File>, size: int)

  datatype Extracted = Extracted(mode: Mode, content: Bytes)

  type Extraction = map<Path, Extracted>

  /** JSON, SHA-256, ZIP sizes, dates and control characters, and the permissions that the process withholds from
      the files it creates. */
  datatype Host = Host(
    encode: Manifest -> Bytes, decode: Bytes -> Option<Manifest>, clean: Path -> Path, digest: Bytes -> string,
    zipSize: seq<File> -> int, validTime: string -> bool, hasControl: string -> bool, umask: Mode)

  // ----- paths -----

  function Split(path: Path): (parts: seq<string>)
    ensures parts != []
  {
    if path == "" then [""]
    else
      var rest := Split(path[1..]);
      if path[0] == '/' then [""] + rest else [[path[0]] + rest[0]] + rest[1..]
  }

  function Base(path: Path): string {
    var parts := Split(path);
    parts[|parts| - 1]
  }

  predicate LowerHex(text: string) {
    forall c <- text :: '0' <= c <= '9' || 'a' <= c <= 'f'
  }

  predicate AnyHex(text: string) {
    forall c <- text :: '0' <= c <= '9' || 'a' <= c <= 'f' || 'A' <= c <= 'F'
  }

  predicate ValidBlobPath(path: Path) {
    var parts := Split(path);
    && |parts| == 4 && parts[0] == "blobs" && parts[1] == "sha256" && |parts[2]| == 2 && |parts[3]| == 64
    && parts[2] <= parts[3] && LowerHex(parts[3])
  }

  /** A path that cannot leave the directory it is extracted to, and belongs to the database, an add-on or a blob. */
  predicate ValidPath(host: Host, path: Path) {
    && path != "" && |path| <= MAXIMUM_PATH && '\\' !in path && path[0] != '/'
    && (forall part <- Split(path) :: part !in {"", ".", ".."} && !host.hasControl(part))
    && (path == DATABASE_NAME || "addons/" <= path || ValidBlobPath(path))
  }

  /** Byte order. */
  predicate Less(a: Path, b: Path) {
    b != "" && (a == "" || a[0] < b[0] || (a[0] == b[0] && Less(a[1..], b[1..])))
  }

  lemma {:induction false} LessIsTransitive(a: Path, b: Path, c: Path)
    requires Less(a, b) && Less(b, c)
    ensures Less(a, c)
  {
    if a != "" && a[0] == b[0] && b[0] == c[0] {
      LessIsTransitive(a[1..], b[1..], c[1..]);
    }
  }

  lemma {:induction false} LessIsTotal(a: Path, b: Path)
    ensures Less(a, b) || Less(b, a) || a == b
    ensures !(Less(a, b) && Less(b, a)) && !Less(a, a)
  {
    if a != "" && b != "" {
      LessIsTotal(a[1..], b[1..]);
      assert a == [a[0]] + a[1..] && b == [b[0]] + b[1..];
    }
    if a != "" {
      LessIsIrreflexive(a);
    }
  }

  lemma {:induction false} LessIsIrreflexive(a: Path)
    ensures !Less(a, a)
  {
    if a != "" {
      LessIsIrreflexive(a[1..]);
    }
  }

  /** Files of one tree: none lies inside another. */
  ghost predicate TreePaths(paths: seq<Path>) {
    forall p <- paths, q <- paths :: !(p + "/" <= q)
  }

  // ----- what a reader accepts -----

  /** The limits a caller may set. */
  predicate ValidLimits(limits: Limits) {
    && 0 < limits.manifestBytes < 0x7FFF_FFFF_FFFF_FFFF && limits.archiveBytes > 0 && limits.expandedBytes > 0
    && 0 < limits.fileBytes <= limits.expandedBytes && limits.fileBytes < 0x7FFF_FFFF_FFFF_FFFF && limits.entries >= 1
  }

  function Expanded(entries: seq<Entry>): nat {
    if entries == [] then 0 else Expanded(entries[..|entries| - 1]) + entries[|entries| - 1].bytes
  }

  /** The running total, kept in 64 bits, never exceeds the limit. */
  ghost predicate WithinLimit(entries: seq<Entry>, limit: Word) {
    entries == [] || (WithinLimit(entries[..|entries| - 1], limit) && Wrap(Expanded(entries)) <= limit)
  }

  /** The total cannot wrap as long as the limit and one more file fit 64 bits: then it is the true total that
      stays within the limit. */
  lemma {:induction false} SmallTotalsDoNotWrap(entries: seq<Entry>, limit: Word, each: Word)
    requires limit + each < 0x1_0000_0000_0000_0000 && forall entry <- entries :: entry.bytes <= each
    ensures WithinLimit(entries, limit) <==> Expanded(entries) <= limit
  {
    if entries != [] {
      SmallTotalsDoNotWrap(entries[..|entries| - 1], limit, each);
      assert entries[|entries| - 1] in entries;
    }
  }

  /** With a limit near the end of the 64 bits it can: three files within it exceed it together, unnoticed. */
  lemma LargeLimitsCanWrap(entry: Entry, limits: Limits)
    requires limits == Limits(1, 1, 0xFFFF_FFFF_FFFF_FFFF, 0x7FFF_FFFF_FFFF_FFFE, 3) && entry.bytes == limits.fileBytes
    ensures ValidLimits(limits)
    ensures WithinLimit([entry, entry, entry], limits.expandedBytes) && Expanded([entry, entry, entry]) > limits.expandedBytes
  {
    var entries := [entry, entry, entry];
    assert entries[..2] == [entry, entry] && [entry, entry][..1] == [entry] && [entry][..0] == [];
    assert Expanded([entry]) == entry.bytes;
    assert Expanded([entry, entry]) == 2 * entry.bytes;
    assert WithinLimit([entry, entry], limits.expandedBytes);
  }

  predicate ValidEntry(host: Host, limits: Limits, entry: Entry) {
    && ValidPath(host, entry.path) && entry.bytes <= limits.fileBytes && 0 < entry.mode <= MAXIMUM_MODE
    && |entry.sha256| == 64 && AnyHex(entry.sha256)
    && ("blobs/" <= entry.path ==> Base(entry.path) == entry.sha256)
  }

  ghost predicate Ascending(entries: seq<Entry>) {
    forall i, j | 0 <= i < j < |entries| :: Less(entries[i].path, entries[j].path)
  }

  ghost predicate ValidEntries(host: Host, limits: Limits, entries: seq<Entry>) {
    && (forall entry <- entries :: ValidEntry(host, limits, entry))
    && Ascending(entries) && WithinLimit(entries, limits.expandedBytes)
  }

  predicate ValidHeader(host: Host, limits: Limits, manifest: Manifest) {
    && manifest.contractVersion == CONTRACT_VERSION && manifest.hostVersion != "" && |manifest.hostVersion| <= 100
    && host.validTime(manifest.createdAt) && 1 <= |manifest.entries| <= limits.entries
  }

  ghost predicate ValidManifest(host: Host, limits: Limits, manifest: Manifest) {
    && ValidHeader(host, limits, manifest) && ValidEntries(host, limits, manifest.entries)
    && exists entry <- manifest.entries :: entry.path == DATABASE_NAME
  }

  method CheckEntries(host: Host, limits: Limits, entries: seq<Entry>) returns (ok: bool)
    ensures ok <==> ValidEntries(host, limits, entries) && exists entry <- entries :: entry.path == DATABASE_NAME
  {
    hide ValidEntry, Ascending, WithinLimit, Less;
    var expanded: nat, previous, found := 0, "", false;
    NothingChecked(host, limits, entries);
    for k := 0 to |entries|
      invariant Checked(host, limits, entries, k, expanded, previous, found)
    {
      var entry := entries[k];
      var sum := Wrap(expanded + entry.bytes);
      if !Less(previous, entry.path) || !ValidEntry(host, limits, entry) || sum > limits.expandedBytes {
        EntryIsRefused(host, limits, entries, k, expanded, previous, found);
        return false;
      }
      EntryIsChecked(host, limits, entries, k, expanded, previous, found);
      expanded, previous, found := sum, entry.path, found || entry.path == DATABASE_NAME;
    }
    assert entries[..|entries|] == entries;
    ok := found;
  }

  /** The loop over a manifest's entries after the first `k`. */
  ghost predicate Checked(host: Host, limits: Limits, entries: seq<Entry>, k: nat, expanded: nat, previous: Path, found: bool) {
    && k <= |entries| && ValidEntries(host, limits, entries[..k]) && expanded == Wrap(Expanded(entries[..k]))
    && previous == (if k == 0 then "" else entries[k - 1].path)
    && (found <==> exists entry <- entries[..k] :: entry.path == DATABASE_NAME)
  }

  lemma NothingChecked(host: Host, limits: Limits, entries: seq<Entry>)
    ensures Checked(host, limits, entries, 0, 0, "", false)
  {
    assert entries[..0] == [];
  }

  lemma ExpandedNext(entries: seq<Entry>, k: nat)
    requires k < |entries|
    ensures entries[..k + 1] == entries[..k] + [entries[k]] && entries[..k + 1][..k] == entries[..k]
    ensures Wrap(Expanded(entries[..k + 1])) == Wrap(Wrap(Expanded(entries[..k])) + entries[k].bytes)
  {
    assert entries[..k + 1][..k] == entries[..k];
    WrapTwice(Expanded(entries[..k]), entries[k].bytes);
  }

  lemma AscendingNext(entries: seq<Entry>, k: nat)
    requires k < |entries| && Ascending(entries[..k]) && (k > 0 ==> Less(entries[k - 1].path, entries[k].path))
    ensures Ascending(entries[..k + 1])
  {
    var before := entries[..k];
    forall i | 0 <= i < k
      ensures Less(entries[i].path, entries[k].path)
    {
      if i < k - 1 {
        assert Less(before[i].path, before[k - 1].path);
        LessIsTransitive(entries[i].path, entries[k - 1].path, entries[k].path);
      }
    }
  }

  lemma EntryIsChecked(host: Host, limits: Limits, entries: seq<Entry>, k: nat, expanded: nat, previous: Path, found: bool)
    requires k < |entries| && Checked(host, limits, entries, k, expanded, previous, found)
    requires Less(previous, entries[k].path) && ValidEntry(host, limits, entries[k]) && Wrap(expanded + entries[k].bytes) <= limits.expandedBytes
    ensures Checked(host, limits, entries, k + 1, Wrap(expanded + entries[k].bytes), entries[k].path, found || entries[k].path == DATABASE_NAME)
  {
    hide ValidEntry, Expanded;
    ExpandedNext(entries, k);
    AscendingNext(entries, k);
  }

  lemma {:induction false} LimitOfPrefix(entries: seq<Entry>, k: nat, limit: Word)
    requires WithinLimit(entries, limit) && 0 < k <= |entries|
    ensures Wrap(Expanded(entries[..k])) <= limit
  {
    if k < |entries| {
      var front := entries[..|entries| - 1];
      LimitOfPrefix(front, k, limit);
      assert front[..k] == entries[..k];
    } else {
      assert entries[..k] == entries;
    }
  }

  lemma EntryIsRefused(host: Host, limits: Limits, entries: seq<Entry>, k: nat, expanded: nat, previous: Path, found: bool)
    requires k < |entries| && Checked(host, limits, entries, k, expanded, previous, found)
    requires !(Less(previous, entries[k].path) && ValidEntry(host, limits, entries[k]) && Wrap(expanded + entries[k].bytes) <= limits.expandedBytes)
    ensures !ValidEntries(host, limits, entries)
  {
    hide Expanded, AnyHex, Base, Split;
    if ValidEntries(host, limits, entries) {
      assert entries[k] in entries;
      ExpandedNext(entries, k);
      LimitOfPrefix(entries, k + 1, limits.expandedBytes);
    }
  }

  function DecodeManifest(host: Host, limits: Limits, file: File): Option<Manifest> {
    if file.size == 0 || file.size > limits.manifestBytes || file.content.None? || |file.content.value| > limits.manifestBytes then None
    else host.decode(file.content.value)
  }

  function Manifests(files: seq<File>): seq<File> {
    if files == [] then []
    else
      var front, last := Manifests(files[..|files| - 1]), files[|files| - 1];
      if last.name == MANIFEST_NAME then front + [last] else front
  }

  /** `inspectArchive` and `decodeManifest`: what the reader accepts. */
  ghost predicate Accepts(host: Host, limits: Limits, archive: Archive, manifest: Manifest) {
    && 0 < archive.size <= limits.archiveBytes && 2 <= |archive.files| <= limits.entries + 1
    && |Manifests(archive.files)| == 1
    && DecodeManifest(host, limits, Manifests(archive.files)[0]) == Some(manifest)
    && ValidManifest(host, limits, manifest)
  }

  method InspectArchive(host: Host, limits: Limits, archive: Archive) returns (manifest: Option<Manifest>)
    ensures manifest.Some? ==> Accepts(host, limits, archive, manifest.value)
    ensures manifest.None? ==> forall other :: !Accepts(host, limits, archive, other)
  {
    manifest := None;
    if !(0 < archive.size <= limits.archiveBytes) || !(2 <= |archive.files| <= limits.entries + 1) { return; }
    var manifests := Manifests(archive.files);
    if |manifests| != 1 { return; }
    var decoded := DecodeManifest(host, limits, manifests[0]);
    if decoded.None? || !ValidHeader(host, limits, decoded.value) { return; }
    var valid := CheckEntries(host, limits, decoded.value.entries);
    if valid {
      manifest := decoded;
    }
  }

  // ----- extraction -----

  /** The files other than the manifest. */
  function Entries(files: seq<File>): seq<File> {
    if files == [] then []
    else
      var front, last := Entries(files[..|files| - 1]), files[|files| - 1];
      if last.name == MANIFEST_NAME then front else front + [last]
  }

  lemma {:induction false} EntriesContain(files: seq<File>, file: File)
    ensures file in Entries(files) <==> file in files && file.name != MANIFEST_NAME
  {
    if files != [] {
      assert files == files[..|files| - 1] + [files[|files| - 1]];
      EntriesContain(files[..|files| - 1], file);
    }
  }

  predicate Describes(entry: Entry, file: File) {
    entry.path == file.name && file.regular && file.mode == entry.mode && file.size == entry.bytes
  }

  ghost predicate HasEntry(manifest: Manifest, file: File) {
    exists entry <- manifest.entries :: Describes(entry, file)
  }

  ghost predicate HasFile(files: seq<File>, entry: Entry) {
    exists file <- Entries(files) :: Describes(entry, file)
  }

  /** Each file has its entry and each entry its file, and no name occurs twice. */
  ghost predicate Bijection(files: seq<File>, manifest: Manifest) {
    && (forall file {:trigger HasEntry(manifest, file)} | file in Entries(files) :: HasEntry(manifest, file))
    && (forall entry {:trigger HasFile(files, entry)} | entry in manifest.entries :: HasFile(files, entry))
    && DistinctNames(Entries(files))
  }

  ghost predicate DistinctNames(files: seq<File>) {
    forall i, j | 0 <= i < j < |files| :: files[i].name != files[j].name
  }

  type Inventory = map<Path, File>

  ghost predicate Listed(known: seq<File>, manifest: Manifest, inventory: Inventory) {
    && (forall file <- known :: file.name in inventory && inventory[file.name] == file)
    && (forall name | name in inventory :: inventory[name] in known && inventory[name].name == name)
    && (forall file {:trigger HasEntry(manifest, file)} | file in known :: HasEntry(manifest, file))
    && DistinctNames(known)
  }

  /** The entry of a path: `expected` in the source. */
  function EntryOf(entries: seq<Entry>, path: Path): (r: Option<Entry>)
    ensures r.Some? ==> r.value in entries && r.value.path == path
    ensures r.None? ==> forall entry <- entries :: entry.path != path
  {
    if entries == [] then None
    else if entries[|entries| - 1].path == path then Some(entries[|entries| - 1])
    else
      assert entries == entries[..|entries| - 1] + [entries[|entries| - 1]];
      EntryOf(entries[..|entries| - 1], path)
  }

  lemma EntryIs(entries: seq<Entry>, entry: Entry)
    requires Ascending(entries) && entry in entries
    ensures EntryOf(entries, entry.path) == Some(entry)
  {
    var found := EntryOf(entries, entry.path).value;
    var i :| 0 <= i < |entries| && entries[i] == entry;
    var j :| 0 <= j < |entries| && entries[j] == found;
    LessIsIrreflexive(entry.path);
  }

  predicate Known(manifest: Manifest, file: File) {
    var entry := EntryOf(manifest.entries, file.name);
    entry.Some? && Describes(entry.value, file)
  }

  lemma FileIsListed(files: seq<File>, k: nat, manifest: Manifest, inventory: Inventory)
    requires k < |files| && files[k].name != MANIFEST_NAME && Listed(Entries(files[..k]), manifest, inventory)
    requires Known(manifest, files[k]) && files[k].name !in inventory
    ensures Listed(Entries(files[..k + 1]), manifest, inventory[files[k].name := files[k]])
  {
    EntriesNext(files, k);
    ListNext(Entries(files[..k]), files[k], manifest, inventory);
  }

  lemma ListNext(known: seq<File>, file: File, manifest: Manifest, inventory: Inventory)
    requires Listed(known, manifest, inventory) && Known(manifest, file) && file.name !in inventory
    ensures Listed(known + [file], manifest, inventory[file.name := file])
  {
    assert HasEntry(manifest, file);
    assert forall i | 0 <= i < |known| :: known[i] in known;
  }

  lemma FileIsUnlisted(files: seq<File>, k: nat, manifest: Manifest, inventory: Inventory)
    requires k < |files| && files[k].name != MANIFEST_NAME && Listed(Entries(files[..k]), manifest, inventory) && Ascending(manifest.entries)
    requires !Known(manifest, files[k]) || files[k].name in inventory
    ensures !Bijection(files, manifest)
  {
    EntriesContain(files, files[k]);
    if files[k].name in inventory {
      RepeatedName(files, k, inventory[files[k].name]);
    } else if HasEntry(manifest, files[k]) {
      var entry :| entry in manifest.entries && Describes(entry, files[k]);
      EntryIs(manifest.entries, entry);
    }
  }

  lemma RepeatedName(files: seq<File>, k: nat, earlier: File)
    requires k < |files| && files[k].name != MANIFEST_NAME
    requires earlier in Entries(files[..k]) && earlier.name == files[k].name
    ensures !DistinctNames(Entries(files))
  {
    var before := Entries(files[..k]);
    var i :| 0 <= i < |before| && before[i] == earlier;
    EntryAt(files, k);
    assert Entries(files)[i].name == Entries(files)[|before|].name;
  }

  /** A file is listed right after the files before it. */
  lemma EntryAt(files: seq<File>, k: nat)
    requires k < |files| && files[k].name != MANIFEST_NAME
    ensures
      var before, all := Entries(files[..k]), Entries(files);
      |before| < |all| && all[|before|] == files[k] && forall i | 0 <= i < |before| :: all[i] == before[i]
  {
    EntriesNext(files, k);
    EntriesPrefix(files, k + 1);
  }

  lemma EntriesNext(files: seq<File>, k: nat)
    requires k < |files|
    ensures Entries(files[..k + 1]) == if files[k].name == MANIFEST_NAME then Entries(files[..k]) else Entries(files[..k]) + [files[k]]
  {
    assert files[..k + 1][..k] == files[..k];
  }

  lemma {:induction false} EntriesPrefix(files: seq<File>, k: nat)
    requires k <= |files|
    ensures Entries(files[..k]) <= Entries(files)
  {
    if k < |files| {
      var front := files[..|files| - 1];
      assert front[..k] == files[..k];
      EntriesPrefix(front, k);
    } else {
      assert files[..k] == files;
    }
  }

  method TakeInventory(files: seq<File>, manifest: Manifest) returns (inventory: Option<Inventory>)
    requires Ascending(manifest.entries)
    ensures inventory.Some? <==> Bijection(files, manifest)
    ensures inventory.Some? ==> Listed(Entries(files), manifest, inventory.value)
  {
    var listed: Inventory := map[];
    for k := 0 to |files|
      invariant Listed(Entries(files[..k]), manifest, listed)
    {
      var file := files[k];
      EntriesNext(files, k);
      if file.name != MANIFEST_NAME {
        if !Known(manifest, file) || file.name in listed {
          FileIsUnlisted(files, k, manifest, listed);
          return None;
        }
        FileIsListed(files, k, manifest, listed);
        listed := listed[file.name := file];
      }
    }
    assert files[..|files|] == files;
    CountingDecides(files, manifest, listed);
    inventory := if |listed| == |manifest.entries| then Some(listed) else None;
  }

  function Paths(entries: seq<Entry>): (r: seq<Path>)
    ensures |r| == |entries| && forall i | 0 <= i < |r| :: r[i] == entries[i].path
  {
    if entries == [] then [] else Paths(entries[..|entries| - 1]) + [entries[|entries| - 1].path]
  }

  lemma {:induction false} DistinctAreMany(s: seq<Path>)
    requires NoRepeats(s)
    ensures |Elements(s)| == |s|
  {
    if s != [] {
      var front, last := s[..|s| - 1], s[|s| - 1];
      DistinctAreMany(front);
      assert s == front + [last];
      assert Elements(s) == Elements(front) + {last};
      assert last !in front;
    }
  }

  lemma PathsAreDistinct(entries: seq<Entry>)
    requires Ascending(entries)
    ensures |Elements(Paths(entries))| == |entries|
  {
    var paths := Paths(entries);
    forall i, j | 0 <= i < j < |paths|
      ensures paths[i] != paths[j]
    {
      LessIsIrreflexive(paths[i]);
    }
    DistinctAreMany(paths);
  }

  lemma EntryPath(entries: seq<Entry>, entry: Entry)
    requires entry in entries
    ensures entry.path in Elements(Paths(entries))
  {
    var i :| 0 <= i < |entries| && entries[i] == entry;
    assert Paths(entries)[i] == entry.path;
  }

  lemma PathEntry(entries: seq<Entry>, path: Path) returns (entry: Entry)
    requires path in Elements(Paths(entries))
    ensures entry in entries && entry.path == path
  {
    var i :| 0 <= i < |Paths(entries)| && Paths(entries)[i] == path;
    entry := entries[i];
  }

  lemma SameCountIsBijection(files: seq<File>, manifest: Manifest, inventory: Inventory)
    requires Listed(Entries(files), manifest, inventory) && Ascending(manifest.entries) && |inventory| == |manifest.entries|
    ensures Bijection(files, manifest)
  {
    PathsAreDistinct(manifest.entries);
    ListedPaths(files, manifest, inventory);
    assert |inventory| == |inventory.Keys|;
    SubsetOfSameSize(inventory.Keys, Elements(Paths(manifest.entries)));
    forall entry <- manifest.entries
      ensures HasFile(files, entry)
    {
      EntryHasFile(files, manifest, inventory, entry);
    }
  }

  lemma BijectionHasSameCount(files: seq<File>, manifest: Manifest, inventory: Inventory)
    requires Listed(Entries(files), manifest, inventory) && Ascending(manifest.entries) && Bijection(files, manifest)
    ensures |inventory| == |manifest.entries|
  {
    PathsAreDistinct(manifest.entries);
    ListedPaths(files, manifest, inventory);
    forall path <- Elements(Paths(manifest.entries))
      ensures path in inventory.Keys
    {
      var entry := PathEntry(manifest.entries, path);
      assert HasFile(files, entry);
    }
    assert inventory.Keys == Elements(Paths(manifest.entries));
    assert |inventory| == |inventory.Keys|;
  }

  /** Once every file is known, the counts agree exactly when no entry lacks its file. */
  lemma CountingDecides(files: seq<File>, manifest: Manifest, inventory: Inventory)
    requires Listed(Entries(files), manifest, inventory) && Ascending(manifest.entries)
    ensures |inventory| == |manifest.entries| <==> Bijection(files, manifest)
  {
    if Bijection(files, manifest) {
      BijectionHasSameCount(files, manifest, inventory);
    } else if |inventory| == |manifest.entries| {
      SameCountIsBijection(files, manifest, inventory);
    }
  }

  lemma ListedPaths(files: seq<File>, manifest: Manifest, inventory: Inventory)
    requires Listed(Entries(files), manifest, inventory)
    ensures inventory.Keys <= Elements(Paths(manifest.entries))
  {
    forall name | name in inventory
      ensures name in Elements(Paths(manifest.entries))
    {
      assert HasEntry(manifest, inventory[name]);
      var entry :| entry in manifest.entries && Describes(entry, inventory[name]);
      EntryPath(manifest.entries, entry);
    }
  }

  lemma EntryHasFile(files: seq<File>, manifest: Manifest, inventory: Inventory, entry: Entry)
    requires Listed(Entries(files), manifest, inventory) && Ascending(manifest.entries)
    requires inventory.Keys == Elements(Paths(manifest.entries)) && entry in manifest.entries
    ensures HasFile(files, entry)
  {
    EntryPath(manifest.entries, entry);
    var file := inventory[entry.path];
    assert HasEntry(manifest, file);
    var other :| other in manifest.entries && Describes(other, file);
    EntryIs(manifest.entries, entry);
    EntryIs(manifest.entries, other);
  }

  /** The file reads as the bytes its entry records. */
  ghost predicate HoldsContent(host: Host, entry: Entry, file: File) {
    file.content.Some? && |file.content.value| == entry.bytes && host.digest(file.content.value) == entry.sha256
  }

  ghost predicate GoodContents(host: Host, files: seq<File>, entries: seq<Entry>) {
    forall entry <- entries, file <- Entries(files) | Describes(entry, file) :: HoldsContent(host, entry, file)
  }

  /** Everything extraction needs: the bijection, the recorded contents, and paths that can live in one tree. */
  ghost predicate Extractable(host: Host, files: seq<File>, manifest: Manifest) {
    && Bijection(files, manifest) && GoodContents(host, files, manifest.entries) && TreePaths(Paths(manifest.entries))
  }

  /** A path can be created next to those that were: it is new, and neither lies inside the other. */
  ghost predicate Places(placed: Extraction, path: Path) {
    path !in placed && forall p | p in placed :: !(p + "/" <= path) && !(path + "/" <= p)
  }

  predicate CanPlace(placed: Extraction, path: Path)
    ensures CanPlace(placed, path) <==> Places(placed, path)
  {
    path !in placed && forall p <- placed.Keys :: !(p + "/" <= path) && !(path + "/" <= p)
  }

  /** The mode a file gets when it is created with this one. */
  function Masked(host: Host, mode: Mode): Mode {
    mode & !host.umask
  }

  /** The first entries have been extracted, with their modes and contents. */
  ghost predicate Placed(host: Host, entries: seq<Entry>, k: nat, inventory: Inventory, placed: Extraction) {
    && k <= |entries| && TreePaths(Paths(entries[..k]))
    && placed.Keys == Elements(Paths(entries[..k]))
    && (forall entry <- entries[..k] :: entry.path in placed && entry.path in inventory && HoldsContent(host, entry, inventory[entry.path])
                                      && placed[entry.path] == Extracted(Masked(host, entry.mode), inventory[entry.path].content.value))
  }

  lemma PathsNext(entries: seq<Entry>, k: nat)
    requires k < |entries|
    ensures entries[..k + 1] == entries[..k] + [entries[k]]
    ensures Paths(entries[..k + 1]) == Paths(entries[..k]) + [entries[k].path]
  {
    assert entries[..k + 1][..k] == entries[..k];
  }

  lemma TreeGrows(paths: seq<Path>, placed: Extraction, path: Path)
    requires TreePaths(paths) && placed.Keys == Elements(paths) && Places(placed, path)
    ensures TreePaths(paths + [path]) && Elements(paths + [path]) == placed.Keys + {path} && path !in placed
  {
    forall p <- paths + [path], q <- paths + [path]
      ensures !(p + "/" <= q)
    {
      assert p in paths ==> p in placed;
      assert q in paths ==> q in placed;
    }
  }

  lemma PlaceNext(host: Host, entries: seq<Entry>, k: nat, inventory: Inventory, placed: Extraction)
    requires k < |entries| && Placed(host, entries, k, inventory, placed) && Places(placed, entries[k].path)
    requires entries[k].path in inventory && HoldsContent(host, entries[k], inventory[entries[k].path])
    ensures Placed(host, entries, k + 1, inventory,
                   placed[entries[k].path := Extracted(Masked(host, entries[k].mode), inventory[entries[k].path].content.value)])
  {
    hide TreePaths, HoldsContent, Paths, Places;
    PathsNext(entries, k);
    TreeGrows(Paths(entries[..k]), placed, entries[k].path);
    forall entry <- entries[..k]
      ensures entry.path != entries[k].path
    {
      assert entry.path in placed;
    }
  }

  method WriteEntries(host: Host, manifest: Manifest, inventory: Inventory) returns (placed: Option<Extraction>)
    requires Ascending(manifest.entries) && inventory.Keys == Elements(Paths(manifest.entries))
    ensures placed.Some? ==> Placed(host, manifest.entries, |manifest.entries|, inventory, placed.value)
    ensures placed.None? ==> Unplaceable(host, manifest.entries, inventory)
  {
    var entries, written: Extraction := manifest.entries, map[];
    for k := 0 to |entries|
      invariant Placed(host, entries, k, inventory, written)
    {
      var entry := entries[k];
      EntryPath(entries, entry);
      var file := inventory[entry.path];
      if !CanPlace(written, entry.path) || file.content.None? || |file.content.value| != entry.bytes || host.digest(file.content.value) != entry.sha256 {
        CannotPlace(host, entries, k, inventory, written);
        return None;
      }
      PlaceNext(host, entries, k, inventory, written);
      written := written[entry.path := Extracted(Masked(host, entry.mode), file.content.value)];
    }
    placed := Some(written);
  }

  ghost predicate Unplaceable(host: Host, entries: seq<Entry>, inventory: Inventory) {
    || !TreePaths(Paths(entries))
    || (exists entry <- entries :: entry.path in inventory && !HoldsContent(host, entry, inventory[entry.path]))
  }

  lemma CannotPlace(host: Host, entries: seq<Entry>, k: nat, inventory: Inventory, placed: Extraction)
    requires k < |entries| && Ascending(entries) && Placed(host, entries, k, inventory, placed) && entries[k].path in inventory
    requires !Places(placed, entries[k].path) || !HoldsContent(host, entries[k], inventory[entries[k].path])
    ensures Unplaceable(host, entries, inventory)
  {
    hide HoldsContent, Less, Masked;
    assert entries[k] in entries;
    if !Places(placed, entries[k].path) {
      if entries[k].path in placed {
        var earlier := PathEntry(entries[..k], entries[k].path);
        var i :| 0 <= i < k && entries[i] == earlier;
        LessIsIrreflexive(entries[k].path);
      } else {
        var p :| p in placed && (p + "/" <= entries[k].path || entries[k].path + "/" <= p);
        var earlier := PathEntry(entries[..k], p);
        EntryPath(entries, earlier);
        EntryPath(entries, entries[k]);
      }
    }
  }

  /** Extraction succeeds exactly for archives whose files and manifest entries are in bijection, hold the
      recorded contents and can live in one tree; it yields each entry's mode, less what the process withholds, and its file's
      bytes. */
  method ExtractArchive(host: Host, archive: Archive, manifest: Manifest) returns (extraction: Option<Extraction>)
    requires Ascending(manifest.entries)
    ensures extraction.Some? <==> Extractable(host, archive.files, manifest)
    ensures extraction.Some? ==> IsExtraction(host, archive.files, manifest, extraction.value)
  {
    var inventory := TakeInventory(archive.files, manifest);
    if inventory.None? { return None; }
    InventoryIsComplete(archive.files, manifest, inventory.value);
    extraction := WriteEntries(host, manifest, inventory.value);
    if extraction.Some? {
      PlacedIsExtraction(host, archive.files, manifest, inventory.value, extraction.value);
    } else {
      UnplaceableIsNotExtractable(host, archive.files, manifest, inventory.value);
    }
  }

  ghost predicate IsExtraction(host: Host, files: seq<File>, manifest: Manifest, extraction: Extraction) {
    && extraction.Keys == Elements(Paths(manifest.entries))
    && (forall entry <- manifest.entries, file <- Entries(files) | Describes(entry, file) ::
          entry.path in extraction && file.content == Some(extraction[entry.path].content) && extraction[entry.path].mode == Masked(host, entry.mode))
  }

  ghost function ExtractionOf(host: Host, files: seq<File>, entries: seq<Entry>): Extraction {
    if entries == [] then map[]
    else
      var last := entries[|entries| - 1];
      ExtractionOf(host, files, entries[..|entries| - 1])[last.path := Extracted(Masked(host, last.mode), ContentOf(files, last))]
  }

  ghost predicate Extracts(host: Host, files: seq<File>, extraction: Extraction, entry: Entry) {
    entry.path in extraction && extraction[entry.path] == Extracted(Masked(host, entry.mode), ContentOf(files, entry))
  }

  lemma {:induction false} ExtractionOfEach(host: Host, files: seq<File>, entries: seq<Entry>)
    requires Ascending(entries)
    ensures ExtractionOf(host, files, entries).Keys == Elements(Paths(entries))
    ensures forall entry <- entries :: Extracts(host, files, ExtractionOf(host, files, entries), entry)
  {
    hide ContentOf, Masked, Less, Ascending;
    if entries != [] {
      var front, last := entries[..|entries| - 1], entries[|entries| - 1];
      LastPathIsNew(entries);
      ExtractionOfEach(host, files, front);
      assert entries == front + [last];
    }
  }

  lemma LastPathIsNew(entries: seq<Entry>)
    requires Ascending(entries) && entries != []
    ensures Ascending(entries[..|entries| - 1])
    ensures forall entry <- entries[..|entries| - 1] :: entry.path != entries[|entries| - 1].path
  {
    hide Less;
    var front, last := entries[..|entries| - 1], entries[|entries| - 1];
    forall entry <- front
      ensures entry.path != last.path
    {
      var i :| 0 <= i < |front| && front[i] == entry;
      LessIsIrreflexive(last.path);
      assert Less(entries[i].path, entries[|front|].path);
    }
  }

  /** What can be extracted has an extraction. */
  lemma ExtractionExists(host: Host, files: seq<File>, manifest: Manifest) returns (extraction: Extraction)
    requires Extractable(host, files, manifest) && Ascending(manifest.entries)
    ensures IsExtraction(host, files, manifest, extraction)
  {
    hide ValidPath, TreePaths, Ascending, HoldsContent, ExtractionOf, ContentOf, Bijection;
    extraction := ExtractionOf(host, files, manifest.entries);
    ExtractionOfEach(host, files, manifest.entries);
    forall entry <- manifest.entries, file <- Entries(files) | Describes(entry, file)
      ensures entry.path in extraction && file.content == Some(extraction[entry.path].content) && extraction[entry.path].mode == Masked(host, entry.mode)
    {
      assert Extracts(host, files, extraction, entry);
      ContentIs(host, files, manifest, entry, file);
    }
  }

  ghost function ContentOf(files: seq<File>, entry: Entry): Bytes {
    if exists file <- Entries(files) :: Describes(entry, file) && file.content.Some? then
      var file :| file in Entries(files) && Describes(entry, file) && file.content.Some?;
      file.content.value
    else []
  }

  lemma ContentIs(host: Host, files: seq<File>, manifest: Manifest, entry: Entry, file: File)
    requires Extractable(host, files, manifest) && entry in manifest.entries && file in Entries(files) && Describes(entry, file)
    ensures file.content == Some(ContentOf(files, entry))
  {
    hide ValidPath, TreePaths;
    assert HoldsContent(host, entry, file);
    var other :| other in Entries(files) && Describes(entry, other) && other.content.Some? && other.content.value == ContentOf(files, entry);
    var i :| 0 <= i < |Entries(files)| && Entries(files)[i] == file;
    var j :| 0 <= j < |Entries(files)| && Entries(files)[j] == other;
  }

  lemma InventoryIsComplete(files: seq<File>, manifest: Manifest, inventory: Inventory)
    requires Bijection(files, manifest) && Listed(Entries(files), manifest, inventory) && Ascending(manifest.entries)
    ensures inventory.Keys == Elements(Paths(manifest.entries))
  {
    ListedPaths(files, manifest, inventory);
    forall path <- Elements(Paths(manifest.entries))
      ensures path in inventory
    {
      var entry := PathEntry(manifest.entries, path);
      assert HasFile(files, entry);
    }
  }

  lemma PlacedIsExtraction(host: Host, files: seq<File>, manifest: Manifest, inventory: Inventory, placed: Extraction)
    requires Bijection(files, manifest) && Listed(Entries(files), manifest, inventory)
    requires Placed(host, manifest.entries, |manifest.entries|, inventory, placed)
    ensures Extractable(host, files, manifest) && IsExtraction(host, files, manifest, placed)
  {
    var entries := manifest.entries;
    assert entries[..|entries|] == entries;
    forall entry <- entries, file <- Entries(files) | Describes(entry, file)
      ensures inventory[entry.path] == file && HoldsContent(host, entry, file)
    {
      assert file.name in inventory;
    }
  }

  lemma UnplaceableIsNotExtractable(host: Host, files: seq<File>, manifest: Manifest, inventory: Inventory)
    requires Listed(Entries(files), manifest, inventory) && Unplaceable(host, manifest.entries, inventory) && Ascending(manifest.entries)
    ensures !Extractable(host, files, manifest)
  {
    if TreePaths(Paths(manifest.entries)) {
      var entry :| entry in manifest.entries && entry.path in inventory && !HoldsContent(host, entry, inventory[entry.path]);
      var file := inventory[entry.path];
      assert HasEntry(manifest, file);
      var other :| other in manifest.entries && Describes(other, file);
      EntryIs(manifest.entries, entry);
      EntryIs(manifest.entries, other);
    }
  }
}
