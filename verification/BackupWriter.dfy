/** Writing the backup archive, and its agreement with the reader. */
module BackupWriter {
  import opened Results
  import opened Collections
  import opened Words
  import opened BackupArchives

  type Permissions = mode: Mode | mode <= MAXIMUM_MODE

  const DATABASE_MODE: Permissions := 0x1A0
  const MANIFEST_MODE: Permissions := 0x1A0
  const STAGING := ".staging"

  datatype Kind = Regular | Folder | Irregular

  /** What walking the add-on or the blob directory comes across. */
  datatype Found = Found(relative: Path, kind: Kind, mode: Permissions, content: Bytes)

  /** A file that is backed up; `expected` is the digest its name promises, if any. */
  datatype Source = Source(path: Path, mode: Permissions, content: Bytes, expected: Option<string>)

  // ----- collecting the sources -----

  function SourceOf(found: Found, blobs: bool): Source {
    Source((if blobs then "blobs/" else "addons/") + found.relative, found.mode, found.content,
           if blobs then Some(Base(found.relative)) else None)
  }

  predicate Skipped(found: Found) {
    Split(found.relative)[0] == STAGING
  }

  predicate Collectable(host: Host, limits: Limits, found: Found, blobs: bool) {
    found.kind.Regular? && |found.content| <= limits.fileBytes && ValidPath(host, SourceOf(found, blobs).path)
  }

  /** Blobs lie in directories named after the first byte of their digest. */
  predicate AllowedFolder(found: Found, blobs: bool) {
    var parts := Split(found.relative);
    blobs ==> parts[0] == "sha256" && |parts| <= 2 && (|parts| == 2 ==> |parts[1]| == 2 && LowerHex(parts[1]))
  }

  /** The files of one directory; anything but a directory that may be there or a regular file of a valid path
      refuses the backup. */
  function Collect(host: Host, limits: Limits, tree: seq<Found>, blobs: bool): Option<seq<Source>> {
    if tree == [] then Some([])
    else
      var found := tree[|tree| - 1];
      match Collect(host, limits, tree[..|tree| - 1], blobs)
      case None => None
      case Some(before) =>
        if Skipped(found) then Some(before)
        else if found.kind.Folder? then if AllowedFolder(found, blobs) then Some(before) else None
        else if !Collectable(host, limits, found, blobs) || |before| + 2 > limits.entries then None
        else Some(before + [SourceOf(found, blobs)])
  }

  method CollectFiles(host: Host, limits: Limits, tree: seq<Found>, blobs: bool) returns (sources: Option<seq<Source>>)
    ensures sources == Collect(host, limits, tree, blobs)
  {
    hide Skipped, Collectable, SourceOf, AllowedFolder;
    var collected: seq<Source> := [];
    for k := 0 to |tree|
      invariant Collect(host, limits, tree[..k], blobs) == Some(collected)
    {
      var found := tree[k];
      assert tree[..k + 1][..k] == tree[..k];
      if Skipped(found) || (found.kind.Folder? && AllowedFolder(found, blobs)) { continue; }
      if found.kind.Folder? || !Collectable(host, limits, found, blobs) || |collected| + 2 > limits.entries {
        RefusalStays(host, limits, tree, blobs, k + 1);
        return None;
      }
      collected := collected + [SourceOf(found, blobs)];
    }
    assert tree[..|tree|] == tree;
    sources := Some(collected);
  }

  lemma {:induction false} RefusalStays(host: Host, limits: Limits, tree: seq<Found>, blobs: bool, k: nat)
    requires k <= |tree| && Collect(host, limits, tree[..k], blobs).None?
    ensures Collect(host, limits, tree, blobs).None?
  {
    if k < |tree| {
      var front := tree[..|tree| - 1];
      assert front[..k] == tree[..k];
      RefusalStays(host, limits, front, blobs, k);
    } else {
      assert tree[..k] == tree;
    }
  }

  /** What is known of a source before it is read. */
  ghost predicate SoundSource(host: Host, source: Source) {
    ValidPath(host, source.path) && ("blobs/" <= source.path ==> source.expected == Some(Base(source.path)))
  }

  lemma {:induction false} BaseOfJoin(prefix: Path, relative: Path)
    requires prefix == "" || prefix[|prefix| - 1] == '/'
    ensures Base(prefix + relative) == Base(relative)
    decreases |prefix|
  {
    if prefix == "" {
      assert prefix + relative == relative;
    } else {
      var path := prefix + relative;
      assert path[1..] == prefix[1..] + relative && path[0] == prefix[0];
      if prefix[0] == '/' {
        if |prefix| == 1 {
          assert prefix[1..] == "";
        }
        BaseOfJoin(prefix[1..], relative);
      } else {
        BaseOfJoin(prefix[1..], relative);
        ManyParts(prefix[1..], relative);
      }
    }
  }

  lemma {:induction false} ManyParts(prefix: Path, relative: Path)
    requires prefix != "" && prefix[|prefix| - 1] == '/'
    ensures |Split(prefix + relative)| > 1
    decreases |prefix|
  {
    var path := prefix + relative;
    assert path[1..] == prefix[1..] + relative && path[0] == prefix[0];
    if prefix[0] != '/' {
      ManyParts(prefix[1..], relative);
    }
  }

  lemma {:induction false} CollectedAreSound(host: Host, limits: Limits, tree: seq<Found>, blobs: bool)
    requires Collect(host, limits, tree, blobs).Some?
    ensures forall source <- Collect(host, limits, tree, blobs).value :: SoundSource(host, source) && source.path != DATABASE_NAME
  {
    if tree != [] {
      CollectedAreSound(host, limits, tree[..|tree| - 1], blobs);
      var found := tree[|tree| - 1];
      BaseOfJoin("blobs/", found.relative);
      if !blobs {
        assert ("addons/" + found.relative)[0] == 'a';
      }
    }
  }

  // ----- sorting them -----

  function Insert(sorted: seq<Source>, source: Source): seq<Source> {
    if sorted == [] || Less(sorted[|sorted| - 1].path, source.path) then sorted + [source]
    else Insert(sorted[..|sorted| - 1], source) + [sorted[|sorted| - 1]]
  }

  function Sort(sources: seq<Source>): seq<Source> {
    if sources == [] then [] else Insert(Sort(sources[..|sources| - 1]), sources[|sources| - 1])
  }

  ghost predicate DistinctPaths(sources: seq<Source>) {
    forall i, j | 0 <= i < j < |sources| :: sources[i].path != sources[j].path
  }

  ghost predicate Sorted(sources: seq<Source>) {
    forall i, j | 0 <= i < j < |sources| :: Less(sources[i].path, sources[j].path)
  }

  lemma {:induction false} InsertSorts(sorted: seq<Source>, source: Source)
    requires Sorted(sorted) && forall other <- sorted :: other.path != source.path
    ensures Sorted(Insert(sorted, source)) && |Insert(sorted, source)| == |sorted| + 1
    ensures forall other :: other in Insert(sorted, source) <==> other == source || other in sorted
  {
    if sorted != [] {
      var front, last := sorted[..|sorted| - 1], sorted[|sorted| - 1];
      assert sorted == front + [last];
      if Less(last.path, source.path) {
        forall i | 0 <= i < |front|
          ensures Less(sorted[i].path, source.path)
        {
          LessIsTransitive(sorted[i].path, last.path, source.path);
        }
      } else {
        LessIsTotal(last.path, source.path);
        InsertSorts(front, source);
        var inserted := Insert(front, source);
        forall i | 0 <= i < |inserted|
          ensures Less(inserted[i].path, last.path)
        {
          assert inserted[i] in inserted;
          if inserted[i] != source {
            var j :| 0 <= j < |front| && front[j] == inserted[i];
            assert Less(sorted[j].path, sorted[|front|].path);
          }
        }
      }
    }
  }

  lemma {:induction false} SortSorts(sources: seq<Source>)
    requires DistinctPaths(sources)
    ensures Sorted(Sort(sources)) && |Sort(sources)| == |sources|
    ensures forall source :: source in Sort(sources) <==> source in sources
  {
    if sources != [] {
      var front, last := sources[..|sources| - 1], sources[|sources| - 1];
      assert sources == front + [last];
      SortSorts(front);
      forall other <- Sort(front)
        ensures other.path != last.path
      {
        assert other in front;
        var i :| 0 <= i < |front| && front[i] == other;
        assert sources[i].path != sources[|front|].path;
      }
      InsertSorts(Sort(front), last);
    }
  }

  // ----- writing the archive -----

  /** `addFile` reads the source as a whole and checks the digest its name promises. */
  predicate Addable(host: Host, limits: Limits, source: Source) {
    |source.content| <= limits.fileBytes && (source.expected.Some? ==> source.expected.value == host.digest(source.content))
  }

  function EntryFor(host: Host, limits: Limits, source: Source): Entry
    requires Addable(host, limits, source)
  {
    Entry(source.path, |source.content|, host.digest(source.content), source.mode)
  }

  function FileFor(host: Host, limits: Limits, source: Source): File
    requires Addable(host, limits, source)
  {
    File(source.path, true, source.mode, |source.content|, Some(source.content))
  }

  function EntriesFor(host: Host, limits: Limits, sources: seq<Source>): (r: seq<Entry>)
    requires forall source <- sources :: Addable(host, limits, source)
    ensures |r| == |sources| && forall i | 0 <= i < |r| :: r[i] == EntryFor(host, limits, sources[i])
  {
    if sources == [] then []
    else EntriesFor(host, limits, sources[..|sources| - 1]) + [EntryFor(host, limits, sources[|sources| - 1])]
  }

  function FilesFor(host: Host, limits: Limits, sources: seq<Source>): (r: seq<File>)
    requires forall source <- sources :: Addable(host, limits, source)
    ensures |r| == |sources| && forall i | 0 <= i < |r| :: r[i] == FileFor(host, limits, sources[i])
  {
    if sources == [] then []
    else FilesFor(host, limits, sources[..|sources| - 1]) + [FileFor(host, limits, sources[|sources| - 1])]
  }

  function ManifestFile(body: Bytes): File
    requires |body| < 0x1_0000_0000_0000_0000
  {
    File(MANIFEST_NAME, true, MANIFEST_MODE, |body|, Some(body))
  }

  /** The archive that `Create` publishes for sorted sources: every limit of the reader was kept. */
  ghost predicate Publishes(host: Host, limits: Limits, sources: seq<Source>, manifest: Manifest, archive: Archive) {
    && ValidLimits(limits) && |sources| <= limits.entries && (forall source <- sources :: Addable(host, limits, source))
    && (exists source <- sources :: source.path == DATABASE_NAME)
    && manifest.contractVersion == CONTRACT_VERSION && manifest.hostVersion != "" && |manifest.hostVersion| <= 100
    && manifest.entries == EntriesFor(host, limits, sources) && WithinLimit(manifest.entries, limits.expandedBytes)
    && |host.encode(manifest)| <= limits.manifestBytes
    && archive.files == FilesFor(host, limits, sources) + [ManifestFile(host.encode(manifest))]
    && archive.size == host.zipSize(archive.files) && archive.size <= limits.archiveBytes
  }

  /** Every source can be read, and the running total stays within the limit. */
  ghost predicate Affordable(host: Host, limits: Limits, sources: seq<Source>) {
    && (forall source <- sources :: Addable(host, limits, source))
    && WithinLimit(EntriesFor(host, limits, sources), limits.expandedBytes)
  }

  method AddFiles(host: Host, limits: Limits, sources: seq<Source>) returns (added: Option<(seq<Entry>, seq<File>)>)
    ensures added.Some? <==> Affordable(host, limits, sources)
    ensures added.Some? ==> added.value == (EntriesFor(host, limits, sources), FilesFor(host, limits, sources))
  {
    hide Addable, Affordable, Adding;
    var entries: seq<Entry>, files: seq<File>, expanded: nat := [], [], 0;
    NothingAdded(host, limits);
    assert sources[..0] == [];
    for k := 0 to |sources|
      invariant Adding(host, limits, sources[..k], entries, files, expanded)
    {
      var source := sources[k];
      if !Addable(host, limits, source) {
        CannotAdd(host, limits, sources, k, entries, files, expanded);
        return None;
      }
      var sum := Wrap(expanded + |source.content|);
      if sum > limits.expandedBytes {
        CannotAdd(host, limits, sources, k, entries, files, expanded);
        return None;
      }
      AddNext(host, limits, sources[..k], source, entries, files, expanded);
      assert sources[..k + 1] == sources[..k] + [source];
      expanded, entries, files := sum, entries + [EntryFor(host, limits, source)], files + [FileFor(host, limits, source)];
    }
    assert sources[..|sources|] == sources;
    AddedAll(host, limits, sources, entries, files, expanded);
    added := Some((entries, files));
  }

  lemma NothingAdded(host: Host, limits: Limits)
    ensures Adding(host, limits, [], [], [], 0)
  {
  }

  lemma AddedAll(host: Host, limits: Limits, sources: seq<Source>, entries: seq<Entry>, files: seq<File>, expanded: nat)
    requires Adding(host, limits, sources, entries, files, expanded)
    ensures Affordable(host, limits, sources)
    ensures entries == EntriesFor(host, limits, sources) && files == FilesFor(host, limits, sources)
  {
  }

  lemma CannotAdd(host: Host, limits: Limits, sources: seq<Source>, k: nat, entries: seq<Entry>, files: seq<File>, expanded: nat)
    requires k < |sources| && Adding(host, limits, sources[..k], entries, files, expanded)
    requires Addable(host, limits, sources[k]) ==> Wrap(expanded + |sources[k].content|) > limits.expandedBytes
    ensures !Affordable(host, limits, sources)
  {
    hide Addable, WithinLimit, Wrap, EntriesFor, FilesFor, Expanded;
    if Affordable(host, limits, sources) {
      assert sources[k] in sources;
      var all := EntriesFor(host, limits, sources);
      EntriesOfPrefix(host, limits, sources, k);
      LimitOfPrefix(all, k + 1, limits.expandedBytes);
      ExpandedNext(all, k);
    }
  }

  lemma EntriesOfPrefix(host: Host, limits: Limits, sources: seq<Source>, k: nat)
    requires k <= |sources| && AllAddable(host, limits, sources)
    ensures EntriesFor(host, limits, sources)[..k] == EntriesFor(host, limits, sources[..k])
  {
    hide Addable;
  }

  /** The writing loop after some of the sources. */
  ghost predicate Adding(host: Host, limits: Limits, sources: seq<Source>, entries: seq<Entry>, files: seq<File>, expanded: nat) {
    && (forall source <- sources :: Addable(host, limits, source))
    && entries == EntriesFor(host, limits, sources) && files == FilesFor(host, limits, sources)
    && expanded == Wrap(Expanded(entries)) && WithinLimit(entries, limits.expandedBytes)
  }

  lemma AddNext(host: Host, limits: Limits, sources: seq<Source>, source: Source, entries: seq<Entry>, files: seq<File>, expanded: nat)
    requires Adding(host, limits, sources, entries, files, expanded) && Addable(host, limits, source)
    requires Wrap(expanded + |source.content|) <= limits.expandedBytes
    ensures Adding(host, limits, sources + [source], entries + [EntryFor(host, limits, source)], files + [FileFor(host, limits, source)],
                   Wrap(expanded + |source.content|))
  {
    var entry := EntryFor(host, limits, source);
    assert (sources + [source])[..|sources|] == sources && (entries + [entry])[..|entries|] == entries;
    WrapTwice(Expanded(entries), |source.content|);
  }

  /** What `Create` asks of the sorted sources and of what it makes of them. */
  ghost predicate Publishable(host: Host, limits: Limits, sources: seq<Source>, hostVersion: string, createdAt: string) {
    && ValidLimits(limits) && hostVersion != "" && |hostVersion| <= 100
    && |sources| <= limits.entries && Affordable(host, limits, sources)
    && var body := host.encode(ManifestFor(host, limits, sources, hostVersion, createdAt));
       |body| <= limits.manifestBytes && host.zipSize(FilesFor(host, limits, sources) + [ManifestFile(body)]) <= limits.archiveBytes
  }

  function ManifestFor(host: Host, limits: Limits, sources: seq<Source>, hostVersion: string, createdAt: string): Manifest
    requires forall source <- sources :: Addable(host, limits, source)
  {
    Manifest(CONTRACT_VERSION, createdAt, hostVersion, EntriesFor(host, limits, sources))
  }

  /** The database image and the files found in the two directories, in the order of their paths. */
  function Sources(database: Bytes, addons: seq<Source>, blobs: seq<Source>): seq<Source> {
    Sort([Source(DATABASE_NAME, DATABASE_MODE, database, None)] + addons + blobs)
  }

  /** Creates an archive from the database image and the files found in the two directories; it is published
      exactly when the files can be collected and everything stays within the limits. */
  method Create(host: Host, limits: Limits, database: Bytes, addons: seq<Found>, blobs: seq<Found>, hostVersion: string, createdAt: string)
    returns (archive: Option<Archive>)
    ensures
      var addonSources, blobSources := Collect(host, limits, addons, false), Collect(host, limits, blobs, true);
      if addonSources.None? || blobSources.None? then archive.None?
      else
        var sources := Sources(database, addonSources.value, blobSources.value);
        && (archive.Some? <==> Publishable(host, limits, sources, hostVersion, createdAt))
        && (archive.Some? ==> Publishes(host, limits, sources, ManifestFor(host, limits, sources, hostVersion, createdAt), archive.value))
  {
    hide Collect, Sort, Affordable, Publishes, EntriesFor, FilesFor;
    if !ValidLimits(limits) || hostVersion == "" || |hostVersion| > 100 { return None; }
    var addonSources := CollectFiles(host, limits, addons, false);
    if addonSources.None? { return None; }
    var blobSources := CollectFiles(host, limits, blobs, true);
    if blobSources.None? { return None; }
    var unsorted := [Source(DATABASE_NAME, DATABASE_MODE, database, None)] + addonSources.value + blobSources.value;
    var sources := Sort(unsorted);
    SortKeeps(unsorted);
    if |unsorted| > limits.entries { return None; }
    var added := AddFiles(host, limits, sources);
    if added.None? { return None; }
    AffordableIsAddable(host, limits, sources);
    var manifest := Manifest(CONTRACT_VERSION, createdAt, hostVersion, added.value.0);
    var body := host.encode(manifest);
    if |body| > limits.manifestBytes { return None; }
    var files := added.value.1 + [ManifestFile(body)];
    if host.zipSize(files) > limits.archiveBytes { return None; }
    assert unsorted[0] in sources;
    PublishableIsPublished(host, limits, sources, hostVersion, createdAt);
    archive := Some(Archive(files, host.zipSize(files)));
  }

  lemma AffordableIsAddable(host: Host, limits: Limits, sources: seq<Source>)
    requires Affordable(host, limits, sources)
    ensures forall source <- sources :: Addable(host, limits, source)
  {
  }

  lemma PublishableIsPublished(host: Host, limits: Limits, sources: seq<Source>, hostVersion: string, createdAt: string)
    requires Publishable(host, limits, sources, hostVersion, createdAt) && exists source <- sources :: source.path == DATABASE_NAME
    ensures
      var manifest := ManifestFor(host, limits, sources, hostVersion, createdAt);
      var files := FilesFor(host, limits, sources) + [ManifestFile(host.encode(manifest))];
      Publishes(host, limits, sources, manifest, Archive(files, host.zipSize(files)))
  {
  }

  lemma {:induction false} InsertKeeps(sorted: seq<Source>, source: Source)
    ensures |Insert(sorted, source)| == |sorted| + 1
    ensures forall other :: other in Insert(sorted, source) <==> other == source || other in sorted
  {
    if sorted != [] {
      assert sorted == sorted[..|sorted| - 1] + [sorted[|sorted| - 1]];
      InsertKeeps(sorted[..|sorted| - 1], source);
    }
  }

  lemma {:induction false} SortKeeps(sources: seq<Source>)
    ensures |Sort(sources)| == |sources|
    ensures forall source :: source in Sort(sources) <==> source in sources
  {
    if sources != [] {
      var front, last := sources[..|sources| - 1], sources[|sources| - 1];
      assert sources == front + [last];
      SortKeeps(front);
      InsertKeeps(Sort(front), last);
    }
  }

  // ----- the writer and the reader agree -----

  predicate Ascii(text: string) {
    forall c <- text :: c < 128 as char
  }

  /** JSON keeps a manifest, except that in every string `clean` replaces what is not UTF-8, which never makes it
      shorter; dates are ASCII; SHA-256 is written as 64 lower-case hexadecimal digits; a ZIP file is not empty. */
  ghost predicate Lawful(host: Host) {
    && (forall manifest :: host.encode(manifest) != [] && host.decode(host.encode(manifest)) == Some(Cleaned(host, manifest)))
    && (forall text :: host.clean(host.clean(text)) == host.clean(text) && |text| <= |host.clean(text)|)
    && (forall text :: Ascii(text) || host.validTime(text) ==> host.clean(text) == text)
    && (forall content :: |host.digest(content)| == 64 && LowerHex(host.digest(content)))
    && (forall files :: host.zipSize(files) > 0)
  }

  ghost function Cleaned(host: Host, manifest: Manifest): Manifest {
    Manifest(host.clean(manifest.contractVersion), host.clean(manifest.createdAt), host.clean(manifest.hostVersion),
             CleanEntries(host, manifest.entries))
  }

  ghost function CleanEntries(host: Host, entries: seq<Entry>): (r: seq<Entry>)
    ensures |r| == |entries|
    ensures forall i | 0 <= i < |r| :: r[i] == entries[i].(path := host.clean(entries[i].path), sha256 := host.clean(entries[i].sha256))
  {
    if entries == [] then []
    else
      var last := entries[|entries| - 1];
      CleanEntries(host, entries[..|entries| - 1]) + [last.(path := host.clean(last.path), sha256 := host.clean(last.sha256))]
  }

  /** The sources of one backup: distinct paths of one tree, as the collectors found them. */
  ghost predicate SoundSources(host: Host, sources: seq<Source>) {
    && Sorted(sources) && (forall source <- sources :: SoundSource(host, source))
    && forall s <- sources, t <- sources :: !(s.path + "/" <= t.path)
  }

  /** The reader accepts the archive and extracts exactly the sources. */
  ghost predicate Restores(host: Host, limits: Limits, archive: Archive, sources: seq<Source>) {
    exists manifest :: RestoresWith(host, limits, archive, manifest, sources)
  }

  ghost predicate RestoresWith(host: Host, limits: Limits, archive: Archive, manifest: Manifest, sources: seq<Source>) {
    && Accepts(host, limits, archive, manifest) && Extractable(host, archive.files, manifest)
    && forall extraction | IsExtraction(host, archive.files, manifest, extraction) :: YieldsSources(sources, extraction)
  }

  ghost predicate YieldsSources(sources: seq<Source>, extraction: Extraction) {
    && (forall path | path in extraction :: exists source <- sources :: source.path == path)
    && (forall source <- sources :: source.path in extraction && extraction[source.path] == Extracted(source.mode, source.content))
  }

  /** JSON can hold the path, the reader takes the mode, and the process withholds none of it. */
  ghost predicate Portable(host: Host, source: Source) {
    host.clean(source.path) == source.path && source.mode != 0 && Masked(host, source.mode) == source.mode
  }

  /** What JSON makes of the version is not too long for the reader. */
  ghost predicate PortableVersion(host: Host, hostVersion: string) {
    |host.clean(hostVersion)| <= 100
  }

  lemma SourceIsNotManifest(host: Host, source: Source)
    requires SoundSource(host, source)
    ensures source.path != MANIFEST_NAME
  {
    assert MANIFEST_NAME[0] == 'm' && Split(MANIFEST_NAME)[0][0] == 'm';
    assert "addons/"[0] == 'a' && "blobs"[0] == 'b';
  }

  /** The archive without its manifest is the sources' files. */
  lemma PublishedFiles(host: Host, limits: Limits, sources: seq<Source>, manifest: Manifest, archive: Archive)
    requires Publishes(host, limits, sources, manifest, archive) && forall source <- sources :: SoundSource(host, source)
    ensures Entries(archive.files) == FilesFor(host, limits, sources)
    ensures Manifests(archive.files) == [ManifestFile(host.encode(manifest))]
  {
    var files := FilesFor(host, limits, sources);
    forall i | 0 <= i < |files|
      ensures files[i].name != MANIFEST_NAME
    {
      SourceIsNotManifest(host, sources[i]);
    }
    PlainFiles(files);
    assert archive.files[..|files|] == files;
    assert Entries(archive.files) == Entries(files);
    assert Manifests(archive.files) == Manifests(files) + [ManifestFile(host.encode(manifest))];
  }

  lemma {:induction false} PlainFiles(files: seq<File>)
    requires forall i | 0 <= i < |files| :: files[i].name != MANIFEST_NAME
    ensures Entries(files) == files && Manifests(files) == []
  {
    if files != [] {
      PlainFiles(files[..|files| - 1]);
      assert files == files[..|files| - 1] + [files[|files| - 1]];
    }
  }

  /** The only manifest a reader can find in it is the cleaned one. */
  lemma ReadBackIsCleaned(host: Host, limits: Limits, sources: seq<Source>, manifest: Manifest, archive: Archive, read: Manifest)
    requires Lawful(host) && Publishes(host, limits, sources, manifest, archive) && SoundSources(host, sources)
    requires Accepts(host, limits, archive, read)
    ensures read == Cleaned(host, manifest)
  {
    PublishedFiles(host, limits, sources, manifest, archive);
  }

  lemma CleanIsSame(host: Host, limits: Limits, sources: seq<Source>, manifest: Manifest)
    requires Lawful(host) && host.validTime(manifest.createdAt) && manifest.contractVersion == CONTRACT_VERSION
    requires forall source <- sources :: Addable(host, limits, source) && Portable(host, source)
    requires manifest.entries == EntriesFor(host, limits, sources)
    ensures Cleaned(host, manifest) == manifest.(hostVersion := host.clean(manifest.hostVersion))
  {
    hide Lawful, Addable, Portable;
    EntriesAreClean(host, limits, sources);
    HeaderIsClean(host, manifest.createdAt);
  }

  lemma EntriesAreClean(host: Host, limits: Limits, sources: seq<Source>)
    requires Lawful(host) && AllAddable(host, limits, sources) && forall source <- sources :: Portable(host, source)
    ensures CleanEntries(host, EntriesFor(host, limits, sources)) == EntriesFor(host, limits, sources)
  {
    hide Lawful, Addable;
    var entries := EntriesFor(host, limits, sources);
    var cleaned := CleanEntries(host, entries);
    forall i | 0 <= i < |cleaned|
      ensures cleaned[i] == entries[i]
    {
      assert sources[i] in sources;
      DigestIsClean(host, sources[i].content);
    }
  }

  lemma HeaderIsClean(host: Host, createdAt: string)
    requires Lawful(host) && host.validTime(createdAt)
    ensures host.clean(CONTRACT_VERSION) == CONTRACT_VERSION && host.clean(createdAt) == createdAt
  {
    assert Ascii(CONTRACT_VERSION);
  }

  lemma DigestIsClean(host: Host, content: Bytes)
    requires Lawful(host)
    ensures host.clean(host.digest(content)) == host.digest(content)
  {
    assert LowerHex(host.digest(content));
    assert Ascii(host.digest(content));
  }

  ghost predicate AllAddable(host: Host, limits: Limits, sources: seq<Source>) {
    forall source <- sources :: Addable(host, limits, source)
  }

  lemma PublishedEntryIsValid(host: Host, limits: Limits, source: Source)
    requires Lawful(host) && Addable(host, limits, source) && SoundSource(host, source) && Portable(host, source)
    ensures ValidEntry(host, limits, EntryFor(host, limits, source))
  {
    assert LowerHex(host.digest(source.content));
  }

  lemma PublishedManifestIsValid(host: Host, limits: Limits, sources: seq<Source>, manifest: Manifest, archive: Archive)
    requires Lawful(host) && Publishes(host, limits, sources, manifest, archive) && SoundSources(host, sources)
    requires PortableVersion(host, manifest.hostVersion) && forall source <- sources :: Portable(host, source)
    requires host.validTime(manifest.createdAt)
    ensures ValidManifest(host, limits, manifest.(hostVersion := host.clean(manifest.hostVersion)))
  {
    hide ValidEntry, Portable, SoundSource, WithinLimit, Lawful, Addable, Ascending, Sorted;
    EntriesAreValid(host, limits, sources);
    EntriesAscend(host, limits, sources);
    DatabaseIsListed(host, limits, sources);
    assert 0 < |host.clean(manifest.hostVersion)| by { CleanIsNotShorter(host, manifest.hostVersion); }
  }

  lemma CleanIsNotShorter(host: Host, text: string)
    requires Lawful(host)
    ensures |text| <= |host.clean(text)|
  {
  }

  lemma EntriesAreValid(host: Host, limits: Limits, sources: seq<Source>)
    requires Lawful(host) && AllAddable(host, limits, sources)
    requires forall source <- sources :: SoundSource(host, source) && Portable(host, source)
    ensures forall entry <- EntriesFor(host, limits, sources) :: ValidEntry(host, limits, entry)
  {
    hide ValidEntry, Portable, SoundSource, Lawful;
    var entries := EntriesFor(host, limits, sources);
    forall entry <- entries
      ensures ValidEntry(host, limits, entry)
    {
      var i :| 0 <= i < |entries| && entries[i] == entry;
      assert sources[i] in sources;
      PublishedEntryIsValid(host, limits, sources[i]);
    }
  }

  lemma EntriesAscend(host: Host, limits: Limits, sources: seq<Source>)
    requires AllAddable(host, limits, sources) && Sorted(sources)
    ensures Ascending(EntriesFor(host, limits, sources))
  {
  }

  lemma DatabaseIsListed(host: Host, limits: Limits, sources: seq<Source>)
    requires AllAddable(host, limits, sources) && exists source <- sources :: source.path == DATABASE_NAME
    ensures exists entry <- EntriesFor(host, limits, sources) :: entry.path == DATABASE_NAME
  {
    var entries := EntriesFor(host, limits, sources);
    var i :| 0 <= i < |sources| && sources[i].path == DATABASE_NAME;
    assert entries[i] in entries;
  }

  lemma PublishedBijection(host: Host, limits: Limits, sources: seq<Source>, manifest: Manifest, files: seq<File>)
    requires AllAddable(host, limits, sources) && Sorted(sources)
    requires manifest.entries == EntriesFor(host, limits, sources) && Entries(files) == FilesFor(host, limits, sources)
    ensures Bijection(files, manifest)
  {
    var known := Entries(files);
    forall file | file in known
      ensures HasEntry(manifest, file)
    {
      var i :| 0 <= i < |known| && known[i] == file;
      assert manifest.entries[i] in manifest.entries && Describes(manifest.entries[i], file);
    }
    forall entry | entry in manifest.entries
      ensures HasFile(files, entry)
    {
      var i :| 0 <= i < |known| && manifest.entries[i] == entry;
      assert known[i] in known && Describes(entry, known[i]);
    }
    forall i, j | 0 <= i < j < |known|
      ensures known[i].name != known[j].name
    {
      LessIsIrreflexive(sources[i].path);
    }
  }

  /** An entry describes only the file written with it. */
  lemma DescribesItsFile(host: Host, limits: Limits, sources: seq<Source>, entry: Entry, file: File) returns (i: nat)
    requires AllAddable(host, limits, sources) && Sorted(sources)
    requires entry in EntriesFor(host, limits, sources) && file in FilesFor(host, limits, sources) && Describes(entry, file)
    ensures i < |sources| && entry == EntryFor(host, limits, sources[i]) && file == FileFor(host, limits, sources[i])
  {
    i :| 0 <= i < |sources| && EntriesFor(host, limits, sources)[i] == entry;
    var j :| 0 <= j < |sources| && FilesFor(host, limits, sources)[j] == file;
    LessIsIrreflexive(entry.path);
    assert i == j;
  }

  lemma PublishedContents(host: Host, limits: Limits, sources: seq<Source>, manifest: Manifest, files: seq<File>)
    requires AllAddable(host, limits, sources) && Sorted(sources)
    requires manifest.entries == EntriesFor(host, limits, sources) && Entries(files) == FilesFor(host, limits, sources)
    ensures GoodContents(host, files, manifest.entries)
  {
    forall entry <- manifest.entries, file <- Entries(files) | Describes(entry, file)
      ensures HoldsContent(host, entry, file)
    {
      var i := DescribesItsFile(host, limits, sources, entry, file);
    }
  }

  lemma PublishedPaths(host: Host, limits: Limits, sources: seq<Source>)
    requires AllAddable(host, limits, sources) && SoundSources(host, sources)
    ensures TreePaths(Paths(EntriesFor(host, limits, sources)))
  {
    var paths := Paths(EntriesFor(host, limits, sources));
    forall p <- paths, q <- paths
      ensures !(p + "/" <= q)
    {
      var i :| 0 <= i < |paths| && paths[i] == p;
      var j :| 0 <= j < |paths| && paths[j] == q;
      assert sources[i] in sources && sources[j] in sources;
    }
  }

  lemma PublishedIsExtractable(host: Host, limits: Limits, sources: seq<Source>, manifest: Manifest, archive: Archive)
    requires Publishes(host, limits, sources, manifest, archive) && SoundSources(host, sources)
    ensures Extractable(host, archive.files, manifest.(hostVersion := host.clean(manifest.hostVersion)))
  {
    PublishedFiles(host, limits, sources, manifest, archive);
    var read := manifest.(hostVersion := host.clean(manifest.hostVersion));
    PublishedBijection(host, limits, sources, read, archive.files);
    PublishedContents(host, limits, sources, read, archive.files);
    PublishedPaths(host, limits, sources);
  }

  lemma ExtractionYieldsSources(host: Host, limits: Limits, sources: seq<Source>, manifest: Manifest, files: seq<File>, extraction: Extraction)
    requires AllAddable(host, limits, sources)
    requires manifest.entries == EntriesFor(host, limits, sources) && Entries(files) == FilesFor(host, limits, sources)
    requires IsExtraction(host, files, manifest, extraction) && forall source <- sources :: Portable(host, source)
    ensures YieldsSources(sources, extraction)
  {
    forall path | path in extraction
      ensures exists source <- sources :: source.path == path
    {
      var entry := PathEntry(manifest.entries, path);
      var i :| 0 <= i < |sources| && manifest.entries[i] == entry;
      assert sources[i] in sources;
    }
    forall source <- sources
      ensures source.path in extraction && extraction[source.path] == Extracted(source.mode, source.content)
    {
      var i :| 0 <= i < |sources| && sources[i] == source;
      var entry, file := manifest.entries[i], Entries(files)[i];
      assert entry in manifest.entries && file in Entries(files) && Describes(entry, file);
      assert Portable(host, source);
    }
  }

  lemma PublishedIsAccepted(host: Host, limits: Limits, sources: seq<Source>, manifest: Manifest, archive: Archive)
    requires Lawful(host) && Publishes(host, limits, sources, manifest, archive) && SoundSources(host, sources)
    requires host.validTime(manifest.createdAt)
    requires PortableVersion(host, manifest.hostVersion) && forall source <- sources :: Portable(host, source)
    ensures Accepts(host, limits, archive, manifest.(hostVersion := host.clean(manifest.hostVersion)))
  {
    PublishedFiles(host, limits, sources, manifest, archive);
    CleanIsSame(host, limits, sources, manifest);
    PublishedManifestIsValid(host, limits, sources, manifest, archive);
    assert |archive.files| == |sources| + 1;
    assert DecodeManifest(host, limits, ManifestFile(host.encode(manifest))) == Some(manifest.(hostVersion := host.clean(manifest.hostVersion)));
  }

  lemma PortableIsRestored(host: Host, limits: Limits, sources: seq<Source>, manifest: Manifest, archive: Archive)
    requires Lawful(host) && Publishes(host, limits, sources, manifest, archive) && SoundSources(host, sources)
    requires host.validTime(manifest.createdAt)
    requires PortableVersion(host, manifest.hostVersion) && forall source <- sources :: Portable(host, source)
    ensures Restores(host, limits, archive, sources)
  {
    var read := manifest.(hostVersion := host.clean(manifest.hostVersion));
    PublishedFiles(host, limits, sources, manifest, archive);
    PublishedIsAccepted(host, limits, sources, manifest, archive);
    PublishedIsExtractable(host, limits, sources, manifest, archive);
    forall extraction | IsExtraction(host, archive.files, read, extraction)
      ensures YieldsSources(sources, extraction)
    {
      ExtractionYieldsSources(host, limits, sources, read, archive.files, extraction);
    }
    assert RestoresWith(host, limits, archive, read, sources);
  }

  lemma RestoredIsPortable(host: Host, limits: Limits, sources: seq<Source>, manifest: Manifest, archive: Archive, read: Manifest, source: Source)
    requires Lawful(host) && Publishes(host, limits, sources, manifest, archive) && SoundSources(host, sources)
    requires RestoresWith(host, limits, archive, read, sources) && source in sources
    ensures Portable(host, source) && PortableVersion(host, manifest.hostVersion)
  {
    hide Lawful, ValidPath, WithinLimit, GoodContents, TreePaths, YieldsSources, IsExtraction;
    ReadBackIsCleaned(host, limits, sources, manifest, archive, read);
    PublishedFiles(host, limits, sources, manifest, archive);
    var file := FileOfSource(host, limits, sources, archive.files, read, source);
    DescribedIsPortable(host, limits, manifest, read, source, file);
    var extraction := ExtractionExists(host, archive.files, read);
    assert YieldsSources(sources, extraction);
    ExtractedIsUnmasked(host, archive.files, read, sources, extraction, source, file);
  }

  lemma ExtractedIsUnmasked(host: Host, files: seq<File>, read: Manifest, sources: seq<Source>, extraction: Extraction, source: Source, file: File)
    requires IsExtraction(host, files, read, extraction) && YieldsSources(sources, extraction) && source in sources
    requires HasEntry(read, file) && file in Entries(files) && file.name == source.path && file.mode == source.mode
    ensures Masked(host, source.mode) == source.mode
  {
    hide Masked;
    var entry :| entry in read.entries && Describes(entry, file);
  }

  lemma FileOfSource(host: Host, limits: Limits, sources: seq<Source>, files: seq<File>, read: Manifest, source: Source) returns (file: File)
    requires AllAddable(host, limits, sources) && Entries(files) == FilesFor(host, limits, sources)
    requires Bijection(files, read) && source in sources
    ensures HasEntry(read, file) && file in Entries(files) && file.name == source.path && file.mode == source.mode
  {
    var i :| 0 <= i < |sources| && sources[i] == source;
    file := FilesFor(host, limits, sources)[i];
    assert file in Entries(files) && HasEntry(read, file);
  }

  lemma DescribedIsPortable(host: Host, limits: Limits, manifest: Manifest, read: Manifest, source: Source, file: File)
    requires Lawful(host) && read == Cleaned(host, manifest) && ValidManifest(host, limits, read)
    requires HasEntry(read, file) && file.name == source.path && file.mode == source.mode
    ensures host.clean(source.path) == source.path && source.mode != 0
  {
    hide Lawful, ValidPath, Ascending, WithinLimit, AnyHex, Base;
    var entry :| entry in read.entries && Describes(entry, file);
    var j :| 0 <= j < |read.entries| && read.entries[j] == entry;
    assert entry.path == host.clean(manifest.entries[j].path);
    CleanTwice(host, manifest.entries[j].path);
    assert ValidEntry(host, limits, entry);
  }

  lemma CleanTwice(host: Host, text: string)
    requires Lawful(host)
    ensures host.clean(host.clean(text)) == host.clean(text)
  {
  }

  /** What the writer publishes, the reader restores to the same paths, modes and bytes, exactly when every path
      is one that JSON can hold, every file has a permission and none that the process withholds, and JSON does not
      make the version too long. */
  lemma PublishedIsRestoredExactly(host: Host, limits: Limits, sources: seq<Source>, manifest: Manifest, archive: Archive)
    requires Lawful(host) && Publishes(host, limits, sources, manifest, archive) && SoundSources(host, sources)
    requires host.validTime(manifest.createdAt)
    ensures Restores(host, limits, archive, sources) <==>
      PortableVersion(host, manifest.hostVersion) && forall source <- sources :: Portable(host, source)
  {
    assert sources != [];
    if PortableVersion(host, manifest.hostVersion) && forall source <- sources :: Portable(host, source) {
      PortableIsRestored(host, limits, sources, manifest, archive);
    }
    if Restores(host, limits, archive, sources) {
      var read :| RestoresWith(host, limits, archive, read, sources);
      assert sources[0] in sources;
      forall source <- sources
        ensures Portable(host, source) && PortableVersion(host, manifest.hostVersion)
      {
        RestoredIsPortable(host, limits, sources, manifest, archive, read, source);
      }
    }
  }

  // ----- the sources of one data directory are sound -----

  /** What walking one directory finds: distinct names, and nothing inside a file. */
  ghost predicate IsTree(tree: seq<Found>) {
    && (forall i, j | 0 <= i < j < |tree| :: tree[i].relative != tree[j].relative)
    && (forall f <- tree, g <- tree :: !f.kind.Folder? ==> !(f.relative + "/" <= g.relative))
  }

  lemma {:induction false} CollectedFrom(host: Host, limits: Limits, tree: seq<Found>, blobs: bool, source: Source) returns (found: Found)
    requires Collect(host, limits, tree, blobs).Some? && source in Collect(host, limits, tree, blobs).value
    ensures found in tree && !found.kind.Folder? && source == SourceOf(found, blobs)
  {
    if source in Collect(host, limits, tree[..|tree| - 1], blobs).value {
      found := CollectedFrom(host, limits, tree[..|tree| - 1], blobs, source);
    } else {
      found := tree[|tree| - 1];
    }
  }

  lemma {:induction false} CollectedAreDistinct(host: Host, limits: Limits, tree: seq<Found>, blobs: bool)
    requires Collect(host, limits, tree, blobs).Some?
    requires forall i, j | 0 <= i < j < |tree| :: tree[i].relative != tree[j].relative
    ensures DistinctPaths(Collect(host, limits, tree, blobs).value)
  {
    if tree != [] {
      var front, last := tree[..|tree| - 1], tree[|tree| - 1];
      CollectedAreDistinct(host, limits, front, blobs);
      var before := Collect(host, limits, front, blobs).value;
      forall i | 0 <= i < |before|
        ensures before[i].path != SourceOf(last, blobs).path
      {
        var found := CollectedFrom(host, limits, front, blobs, before[i]);
        var j :| 0 <= j < |front| && front[j] == found;
        assert tree[j].relative != tree[|front|].relative;
        SamePrefix(if blobs then "blobs/" else "addons/", found.relative, last.relative);
      }
    }
  }

  lemma SamePrefix(prefix: Path, a: Path, b: Path)
    ensures prefix + a == prefix + b ==> a == b
    ensures (prefix + a) + "/" <= prefix + b ==> a + "/" <= b
  {
    assert (prefix + a)[|prefix|..] == a && (prefix + b)[|prefix|..] == b;
    if (prefix + a) + "/" <= prefix + b {
      assert ((prefix + a) + "/")[|prefix|..] == a + "/";
      assert (prefix + b)[|prefix|..|prefix| + |a| + 1] == a + "/";
    }
  }

  lemma CollectedAreTree(host: Host, limits: Limits, tree: seq<Found>, blobs: bool, s: Source, t: Source)
    requires Collect(host, limits, tree, blobs).Some? && IsTree(tree)
    requires s in Collect(host, limits, tree, blobs).value && t in Collect(host, limits, tree, blobs).value
    ensures !(s.path + "/" <= t.path)
  {
    var f := CollectedFrom(host, limits, tree, blobs, s);
    var g := CollectedFrom(host, limits, tree, blobs, t);
    SamePrefix(if blobs then "blobs/" else "addons/", f.relative, g.relative);
  }

  /** The three kinds of source start differently. */
  lemma FirstLetters(host: Host, limits: Limits, tree: seq<Found>, blobs: bool)
    requires Collect(host, limits, tree, blobs).Some?
    ensures forall source <- Collect(host, limits, tree, blobs).value :: source.path != "" && source.path[0] == if blobs then 'b' else 'a'
  {
    forall source <- Collect(host, limits, tree, blobs).value
      ensures source.path != "" && source.path[0] == if blobs then 'b' else 'a'
    {
      var found := CollectedFrom(host, limits, tree, blobs, source);
    }
  }

  lemma DatabaseIsSound(host: Host, database: Bytes)
    requires !host.hasControl(DATABASE_NAME)
    ensures SoundSource(host, Source(DATABASE_NAME, DATABASE_MODE, database, None))
  {
    hide Split, ValidBlobPath, Base;
    PlainNameIsOnePart(DATABASE_NAME);
    assert DATABASE_NAME[0] == 'c';
  }

  lemma {:induction false} PlainNameIsOnePart(name: Path)
    requires '/' !in name
    ensures Split(name) == [name]
  {
    if name != "" {
      PlainNameIsOnePart(name[1..]);
      assert [name[0]] + name[1..] == name;
    }
  }

  /** The backup of one data directory has sound sources, so the agreement above holds of what it publishes. */
  lemma DirectoryIsSound(host: Host, limits: Limits, database: Bytes, addons: seq<Found>, blobs: seq<Found>)
    requires Collect(host, limits, addons, false).Some? && Collect(host, limits, blobs, true).Some?
    requires IsTree(addons) && IsTree(blobs) && !host.hasControl(DATABASE_NAME)
    ensures SoundSources(host, Sources(database, Collect(host, limits, addons, false).value, Collect(host, limits, blobs, true).value))
  {
    var db := Source(DATABASE_NAME, DATABASE_MODE, database, None);
    var a, b := Collect(host, limits, addons, false).value, Collect(host, limits, blobs, true).value;
    DatabaseIsSound(host, database);
    CollectedAreSound(host, limits, addons, false);
    CollectedAreSound(host, limits, blobs, true);
    FirstLetters(host, limits, addons, false);
    FirstLetters(host, limits, blobs, true);
    CollectedAreDistinct(host, limits, addons, false);
    CollectedAreDistinct(host, limits, blobs, true);
    JoinedAreDistinct(db, a, b);
    SortSorts([db] + a + b);
    forall s <- [db] + a + b, t <- [db] + a + b
      ensures !(s.path + "/" <= t.path)
    {
      if s in a && t in a {
        CollectedAreTree(host, limits, addons, false, s, t);
      } else if s in b && t in b {
        CollectedAreTree(host, limits, blobs, true, s, t);
      } else {
        DifferentTrees(s.path, t.path);
      }
    }
  }

  // ----- backups that are published and cannot be restored -----

  /** The limits that hold when a caller sets none. */
  const DEFAULT_LIMITS := Limits(0x400_0000, 0x4000_0000, 0x1_0000_0000, 0x4000_0000, 100_000)

  /** The manifest and the archive of these sources are not too large. */
  ghost predicate Fits(host: Host, sources: seq<Source>, hostVersion: string, createdAt: string) {
    && AllAddable(host, DEFAULT_LIMITS, sources)
    && |host.encode(ManifestFor(host, DEFAULT_LIMITS, sources, hostVersion, createdAt))| <= DEFAULT_LIMITS.manifestBytes
    && host.zipSize(FilesFor(host, DEFAULT_LIMITS, sources) + [ManifestFile(host.encode(ManifestFor(host, DEFAULT_LIMITS, sources, hostVersion, createdAt)))])
       <= DEFAULT_LIMITS.archiveBytes
  }

  /** Sources of a backup that the writer publishes and the reader does not restore. */
  ghost predicate PublishedAndLost(host: Host, sources: seq<Source>, hostVersion: string, createdAt: string) {
    && Publishable(host, DEFAULT_LIMITS, sources, hostVersion, createdAt)
    && var manifest := ManifestFor(host, DEFAULT_LIMITS, sources, hostVersion, createdAt);
       var files := FilesFor(host, DEFAULT_LIMITS, sources) + [ManifestFile(host.encode(manifest))];
       var archive := Archive(files, host.zipSize(files));
       && Publishes(host, DEFAULT_LIMITS, sources, manifest, archive)
       && !Restores(host, DEFAULT_LIMITS, archive, sources)
  }

  /** An empty add-on file beside an empty database. */
  function OneAddon(relative: Path, mode: Permissions): Found {
    Found(relative, Regular, mode, [])
  }

  function OneAddonSources(relative: Path, mode: Permissions): seq<Source> {
    [SourceOf(OneAddon(relative, mode), false), Source(DATABASE_NAME, DATABASE_MODE, [], None)]
  }

  lemma OneAddonIsBackedUp(host: Host, relative: Path, mode: Permissions)
    requires ValidPath(host, "addons/" + relative) && !Skipped(OneAddon(relative, mode))
    ensures Collect(host, DEFAULT_LIMITS, [OneAddon(relative, mode)], false) == Some([SourceOf(OneAddon(relative, mode), false)])
    ensures Sources([], [SourceOf(OneAddon(relative, mode), false)], []) == OneAddonSources(relative, mode)
  {
    hide ValidPath, Skipped;
    var addon, db := SourceOf(OneAddon(relative, mode), false), Source(DATABASE_NAME, DATABASE_MODE, [], None);
    assert [OneAddon(relative, mode)][..0] == [] && Collect(host, DEFAULT_LIMITS, [], false) == Some([]);
    assert Collectable(host, DEFAULT_LIMITS, OneAddon(relative, mode), false);
    assert Collect(host, DEFAULT_LIMITS, [OneAddon(relative, mode)], false) == Some([] + [addon]) && [] + [addon] == [addon];
    assert Less(addon.path, db.path) && !Less(db.path, addon.path) by {
      assert addon.path[0] == 'a' && DATABASE_NAME[0] == 'c';
    }
    assert [db] + [addon] + [] == [db, addon] && [db, addon][..1] == [db] && [db][..0] == [];
    assert Sort([db]) == [db];
    assert Insert([db], addon) == [addon] + [db];
  }

  lemma OneAddonIsAddable(host: Host, relative: Path, mode: Permissions)
    ensures AllAddable(host, DEFAULT_LIMITS, OneAddonSources(relative, mode))
    ensures WithinLimit(EntriesFor(host, DEFAULT_LIMITS, OneAddonSources(relative, mode)), DEFAULT_LIMITS.expandedBytes)
  {
    var entries := EntriesFor(host, DEFAULT_LIMITS, OneAddonSources(relative, mode));
    assert |entries| == 2 && entries[0].bytes == 0 && entries[1].bytes == 0;
    assert entries[..1][..0] == [] && Expanded(entries[..1][..0]) == 0;
    assert Expanded(entries[..1]) == 0;
    assert entries[..|entries| - 1] == entries[..1];
    assert Expanded(entries) == 0 && entries[..2] == entries;
  }

  lemma UnportableIsLost(host: Host, relative: Path, mode: Permissions, hostVersion: string, createdAt: string)
    requires Lawful(host) && host.validTime(createdAt) && 0 < |hostVersion| <= 100 && !host.hasControl(DATABASE_NAME)
    requires ValidPath(host, "addons/" + relative) && !Skipped(OneAddon(relative, mode))
    requires !(PortableVersion(host, hostVersion) && Portable(host, SourceOf(OneAddon(relative, mode), false)))
    requires Fits(host, OneAddonSources(relative, mode), hostVersion, createdAt)
    ensures PublishedAndLost(host, OneAddonSources(relative, mode), hostVersion, createdAt)
  {
    hide Lawful, ValidPath, Skipped, Portable, PortableVersion, WithinLimit, EntriesFor, FilesFor, Restores, SoundSources, Addable;
    var sources := OneAddonSources(relative, mode);
    OneAddonIsBackedUp(host, relative, mode);
    OneAddonIsAddable(host, relative, mode);
    DirectoryIsSound(host, DEFAULT_LIMITS, [], [OneAddon(relative, mode)], []);
    assert sources[1].path == DATABASE_NAME && sources[0] in sources;
    PublishableIsPublished(host, DEFAULT_LIMITS, sources, hostVersion, createdAt);
    var manifest := ManifestFor(host, DEFAULT_LIMITS, sources, hostVersion, createdAt);
    var files := FilesFor(host, DEFAULT_LIMITS, sources) + [ManifestFile(host.encode(manifest))];
    PublishedIsRestoredExactly(host, DEFAULT_LIMITS, sources, manifest, Archive(files, host.zipSize(files)));
  }

  /** An add-on file that nobody may read, write or run is collected and published, and the reader refuses the archive. */
  lemma ModeZeroIsLost(host: Host, hostVersion: string, createdAt: string)
    requires Lawful(host) && host.validTime(createdAt) && 0 < |hostVersion| <= 100
    requires !host.hasControl(DATABASE_NAME) && !host.hasControl("addons") && !host.hasControl("notes")
    requires Fits(host, OneAddonSources("notes", 0), hostVersion, createdAt)
    ensures Collect(host, DEFAULT_LIMITS, [OneAddon("notes", 0)], false) == Some([SourceOf(OneAddon("notes", 0), false)])
    ensures Sources([], [SourceOf(OneAddon("notes", 0), false)], []) == OneAddonSources("notes", 0)
    ensures PublishedAndLost(host, OneAddonSources("notes", 0), hostVersion, createdAt)
  {
    hide Lawful, Fits, PublishedAndLost, Collect, Sort, Split, ValidPath;
    PlainAddonPath(host, "notes");
    OneAddonIsBackedUp(host, "notes", 0);
    UnportableIsLost(host, "notes", 0, hostVersion, createdAt);
  }

  /** Under the usual mask of 022 a file that everyone may write comes back as one that only its owner may write. */
  lemma MaskedModeIsLost(host: Host, hostVersion: string, createdAt: string)
    requires Lawful(host) && host.validTime(createdAt) && 0 < |hostVersion| <= 100 && host.umask == 0x12
    requires !host.hasControl(DATABASE_NAME) && !host.hasControl("addons") && !host.hasControl("notes")
    requires Fits(host, OneAddonSources("notes", 0x1B6), hostVersion, createdAt)
    ensures Collect(host, DEFAULT_LIMITS, [OneAddon("notes", 0x1B6)], false) == Some([SourceOf(OneAddon("notes", 0x1B6), false)])
    ensures Sources([], [SourceOf(OneAddon("notes", 0x1B6), false)], []) == OneAddonSources("notes", 0x1B6)
    ensures PublishedAndLost(host, OneAddonSources("notes", 0x1B6), hostVersion, createdAt)
    ensures Masked(host, 0x1B6) == 0x1A4
  {
    hide Lawful, Fits, PublishedAndLost, Collect, Sort, Split, ValidPath;
    PlainAddonPath(host, "notes");
    OneAddonIsBackedUp(host, "notes", 0x1B6);
    UnportableIsLost(host, "notes", 0x1B6, hostVersion, createdAt);
  }

  /** A file whose name is not UTF-8 is recorded under another name by JSON, and the reader refuses the archive. */
  lemma UncleanPathIsLost(host: Host, name: Path, hostVersion: string, createdAt: string)
    requires Lawful(host) && host.validTime(createdAt) && 0 < |hostVersion| <= 100
    requires !host.hasControl(DATABASE_NAME) && !host.hasControl("addons") && !host.hasControl(name)
    requires PlainName(name) && host.clean("addons/" + name) != "addons/" + name
    requires Fits(host, OneAddonSources(name, 0x1A0), hostVersion, createdAt)
    ensures Collect(host, DEFAULT_LIMITS, [OneAddon(name, 0x1A0)], false) == Some([SourceOf(OneAddon(name, 0x1A0), false)])
    ensures Sources([], [SourceOf(OneAddon(name, 0x1A0), false)], []) == OneAddonSources(name, 0x1A0)
    ensures PublishedAndLost(host, OneAddonSources(name, 0x1A0), hostVersion, createdAt)
  {
    hide Lawful, Fits, PublishedAndLost, Collect, Sort, Split, ValidPath;
    PlainAddonPath(host, name);
    OneAddonIsBackedUp(host, name, 0x1A0);
    UnportableIsLost(host, name, 0x1A0, hostVersion, createdAt);
  }

  /** And a version that JSON makes too long for the reader takes every backup with it. */
  lemma UncleanVersionIsLost(host: Host, hostVersion: string, createdAt: string)
    requires Lawful(host) && host.validTime(createdAt) && 0 < |hostVersion| <= 100 && |host.clean(hostVersion)| > 100
    requires !host.hasControl(DATABASE_NAME) && !host.hasControl("addons") && !host.hasControl("notes")
    requires Fits(host, OneAddonSources("notes", 0x1A0), hostVersion, createdAt)
    ensures PublishedAndLost(host, OneAddonSources("notes", 0x1A0), hostVersion, createdAt)
  {
    hide Lawful, Fits, PublishedAndLost, Split, ValidPath;
    PlainAddonPath(host, "notes");
    UnportableIsLost(host, "notes", 0x1A0, hostVersion, createdAt);
  }

  predicate PlainName(name: Path) {
    name !in {"", ".", "..", STAGING} && '/' !in name && '\\' !in name && |name| <= 1000
  }

  lemma PlainAddonPath(host: Host, name: Path)
    requires PlainName(name) && !host.hasControl("addons") && !host.hasControl(name)
    ensures ValidPath(host, "addons/" + name) && !Skipped(OneAddon(name, 0))
    ensures Split(name) == [name]
  {
    hide Split;
    PlainNameIsOnePart(name);
    SplitAfter("addons", name);
    var path := "addons/" + name;
    assert "addons" + "/" == "addons/" && Split(path) == ["addons", name];
    forall part <- Split(path)
      ensures part !in {"", ".", ".."} && !host.hasControl(part)
    {
      assert part == "addons" || part == name;
      assert |"addons"| == 6;
    }
    NoBackslash("addons/", name);
  }

  lemma NoBackslash(first: string, second: string)
    requires '\\' !in first && '\\' !in second
    ensures '\\' !in first + second
  {
  }

  lemma {:induction false} SplitAfter(first: Path, name: Path)
    requires '/' !in first
    ensures Split(first + "/" + name) == [first] + Split(name)
  {
    var path := first + "/" + name;
    if first == "" {
      assert path[1..] == name;
    } else {
      SplitAfter(first[1..], name);
      assert path[1..] == first[1..] + "/" + name;
      assert [first[0]] + first[1..] == first;
    }
  }

  lemma DifferentTrees(p: Path, q: Path)
    requires p != "" && q != "" && (p[0] != q[0] || (p == DATABASE_NAME && q == DATABASE_NAME))
    ensures !(p + "/" <= q)
  {
    assert (p + "/")[0] == p[0];
  }

  lemma JoinedAreDistinct(db: Source, a: seq<Source>, b: seq<Source>)
    requires DistinctPaths(a) && DistinctPaths(b) && db.path == DATABASE_NAME
    requires forall source <- a :: source.path != "" && source.path[0] == 'a'
    requires forall source <- b :: source.path != "" && source.path[0] == 'b'
    ensures DistinctPaths([db] + a + b)
  {
    var all := [db] + a + b;
    assert DATABASE_NAME[0] == 'c';
    forall i, j | 0 <= i < j < |all|
      ensures all[i].path != all[j].path
    {
      if 1 <= i && j <= |a| {
        assert all[i] == a[i - 1] && all[j] == a[j - 1];
      } else if |a| < i {
        assert all[i] == b[i - 1 - |a|] && all[j] == b[j - 1 - |a|];
      } else {
        assert i == 0 || all[i] in a;
        assert all[j] in a || all[j] in b;
      }
    }
  }
}
