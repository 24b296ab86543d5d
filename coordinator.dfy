/** The coordinator: `extractHeads` (HeadExtractor.java lines 142-176) with the
    file selection of `gatherMCA`, `gatherPlayerData`, `gatherFromDataPacks`
    and `processDataPack` (lines 178-257), run one unit of work after
    another.

    The file system is given as data: the listing of each directory the
    source looks at (when it is a directory), the regular files' bytes, the
    walk of each data pack and, for a zipped pack, the walk of each root of
    the archive.  The library calls are the fields of `Library`. */
module Coordinator {
  import opened Options
  import opened Tags
  import Region
  import TextScanner
  import TagScanner
  import Validator

  datatype Library = Library(
    readTag: Region.Stream -> Option<Tag>,     // NBTIO.readTag on a chunk's stream
    readFile: seq<Region.byte> -> Option<Tag>,         // NBTIO.readFile on a .dat file
    readString: seq<Region.byte> -> Option<string>,    // Files.readString (UTF-8)
    decode: string -> Option<Validator.Json>)  // Base64 decoding, then Jackson's readTree

  /** An entry of a directory listing or walk. */
  datatype Entry =
    | RegularFile(name: string, bytes: seq<Region.byte>)
    | OtherEntry(name: string)  // a directory, or anything else that is not a regular file

  /** An entry of `datapacks/`. */
  datatype PackEntry =
    | PackDirectory(name: string, walk: seq<Entry>)
      /** a regular file; `archive` is the walk of each root when it opens as a
          zip file system, `None` when opening it throws */
    | PackFile(name: string, archive: Option<seq<seq<Entry>>>)
    | PackOther(name: string)

  /** One world directory; a listing is `None` when that path is not a directory. */
  datatype World = World(
    entities: Option<seq<Entry>>,
    region: Option<seq<Entry>>,
    playerData: Option<seq<Entry>>,
    levelDat: Entry,
    dataPacks: Option<seq<PackEntry>>)

  datatype Flags = Flags(entities: bool, region: bool, playerData: bool, dataPacks: bool)
  {
    predicate Any() {
      entities || region || playerData || dataPacks
    }
  }

  /** `String.endsWith`: a bare suffix, no dot required. */
  predicate EndsWith(name: string, suffix: string) {
    |suffix| <= |name| && name[|name| - |suffix|..] == suffix
  }

  function Listing(dir: Option<seq<Entry>>): seq<Entry> {
    if dir.Some? then dir.value else []
  }

  /** `removeIf(path -> !Files.isRegularFile(path) || !name.endsWith(suffix))`. */
  function KeepRegular(entries: seq<Entry>, suffix: string): (kept: seq<Entry>)
    ensures forall e :: e in kept <==> e in entries && e.RegularFile? && EndsWith(e.name, suffix)
  {
    if entries == [] then []
    else if entries[0].RegularFile? && EndsWith(entries[0].name, suffix)
    then [entries[0]] + KeepRegular(entries[1..], suffix)
    else KeepRegular(entries[1..], suffix)
  }

  /** `gatherMCA`: the regular files ending in "mca" in entities/ and region/,
      each directory only when its flag is set. */
  function GatherMCA(world: World, includeEntities: bool, includeRegion: bool): (paths: seq<Entry>)
    ensures forall e :: e in paths <==>
      ((includeEntities && e in Listing(world.entities)) || (includeRegion && e in Listing(world.region))) &&
      e.RegularFile? && EndsWith(e.name, "mca")
  {
    KeepRegular((if includeEntities then Listing(world.entities) else []) +
                (if includeRegion then Listing(world.region) else []), "mca")
  }

  /** `gatherPlayerData`: the regular files ending in "dat" in playerdata/,
      and level.dat. */
  function GatherPlayerData(world: World): (paths: seq<Entry>)
    ensures forall e :: e in paths <==>
      (e in Listing(world.playerData) || e == world.levelDat) && e.RegularFile? && EndsWith(e.name, "dat")
  {
    KeepRegular(Listing(world.playerData) + [world.levelDat], "dat")
  }

  /** `processDataPack`'s selection: the regular files ending in "json" or
      "mcfunction" of a walk. */
  function TextFiles(walk: seq<Entry>): (files: seq<Entry>)
    ensures forall e :: e in files <==>
      e in walk && e.RegularFile? && (EndsWith(e.name, "json") || EndsWith(e.name, "mcfunction"))
  {
    if walk == [] then []
    else if walk[0].RegularFile? && (EndsWith(walk[0].name, "json") || EndsWith(walk[0].name, "mcfunction"))
    then [walk[0]] + TextFiles(walk[1..])
    else TextFiles(walk[1..])
  }

  /** The text files of every root of a zip file system, root after root. */
  function TextFilesOfRoots(roots: seq<seq<Entry>>): (files: seq<Entry>)
    ensures forall e :: e in files <==> exists r :: r in roots && e in TextFiles(r)
  {
    if roots == [] then []
    else
      var rest := TextFilesOfRoots(roots[1..]);
      assert forall r | r in roots[1..] :: r in roots;
      assert forall r | r in roots :: r == roots[0] || r in roots[1..];
      assert roots[0] in roots;
      TextFiles(roots[0]) + rest
  }

  /** A file a data-pack entry hands to `processDataPack`: a text file of a
      pack directory's walk, or of a root of a regular file ending in "zip". */
  predicate Selects(pack: PackEntry, e: Entry)
  {
    (pack.PackDirectory? && e in TextFiles(pack.walk)) ||
    (pack.PackFile? && EndsWith(pack.name, "zip") && pack.archive.Some? &&
     exists r :: r in pack.archive.value && e in TextFiles(r))
  }

  /** One entry of datapacks/ (lines 219-227): a directory is walked, a
      regular file ending in "zip" is opened and each of its roots walked,
      anything else is passed over; `None` when opening the zip throws. */
  function PackEntryFiles(pack: PackEntry): (files: Option<seq<Entry>>)
    ensures files.None? <==> pack.PackFile? && EndsWith(pack.name, "zip") && pack.archive.None?
    ensures files.Some? ==> forall e :: e in files.value <==> Selects(pack, e)
  {
    match pack
    case PackDirectory(_, walk) => Some(TextFiles(walk))
    case PackFile(name, archive) =>
      if !EndsWith(name, "zip") then Some([])
      else if archive.None? then None
      else Some(TextFilesOfRoots(archive.value))
    case PackOther(_) => Some([])
  }

  /** `gatherFromDataPacks`: the text files of every pack directory and of
      every regular file ending in "zip"; `None` when such a file cannot be
      opened as a zip file system (the `IOException` leaves `extractHeads`). */
  function PackTextFiles(packs: seq<PackEntry>): (files: Option<seq<Entry>>)
    ensures files.None? <==>
      exists k :: 0 <= k < |packs| && packs[k].PackFile? && EndsWith(packs[k].name, "zip") && packs[k].archive.None?
    ensures files.Some? ==>
      forall e :: e in files.value <==> exists k :: 0 <= k < |packs| && Selects(packs[k], e)
  {
    if packs == [] then Some([])
    else
      match (PackEntryFiles(packs[0]), PackTextFiles(packs[1..]))
      case (Some(a), Some(b)) =>
        assert forall k | 1 <= k < |packs| :: packs[k] == packs[1..][k - 1];
        Some(a + b)
      case _ =>
        assert forall k | 1 <= k < |packs| :: packs[k] == packs[1..][k - 1];
        None
  }

  /** One unit of work. */
  datatype Job = McaJob(bytes: seq<Region.byte>) | DatJob(bytes: seq<Region.byte>) | TextJob(bytes: seq<Region.byte>)

  function Bytes(e: Entry): seq<Region.byte> {
    if e.RegularFile? then e.bytes else []
  }

  /** One `processMCA` task per file (line 159). */
  function McaJobs(files: seq<Entry>): (jobs: seq<Job>)
    ensures |jobs| == |files|
    ensures forall k | 0 <= k < |files| :: jobs[k] == McaJob(Bytes(files[k]))
  {
    if files == [] then [] else [McaJob(Bytes(files[0]))] + McaJobs(files[1..])
  }

  /** One `processDAT` task per file (line 164). */
  function DatJobs(files: seq<Entry>): (jobs: seq<Job>)
    ensures |jobs| == |files|
    ensures forall k | 0 <= k < |files| :: jobs[k] == DatJob(Bytes(files[k]))
  {
    if files == [] then [] else [DatJob(Bytes(files[0]))] + DatJobs(files[1..])
  }

  /** One `processString(Files.readString(path))` per file (line 238). */
  function TextJobs(files: seq<Entry>): (jobs: seq<Job>)
    ensures |jobs| == |files|
    ensures forall k | 0 <= k < |files| :: jobs[k] == TextJob(Bytes(files[k]))
  {
    if files == [] then [] else [TextJob(Bytes(files[0]))] + TextJobs(files[1..])
  }

  /** A task list holds, for each kind, exactly the tasks of the given files. */
  lemma JobsMembership(files: seq<Entry>)
    ensures forall j :: j in McaJobs(files) <==> j.McaJob? && exists e :: e in files && j.bytes == Bytes(e)
    ensures forall j :: j in DatJobs(files) <==> j.DatJob? && exists e :: e in files && j.bytes == Bytes(e)
    ensures forall j :: j in TextJobs(files) <==> j.TextJob? && exists e :: e in files && j.bytes == Bytes(e)
  {
    forall j: Job | exists e :: e in files && j.bytes == Bytes(e)
      ensures j.McaJob? ==> j in McaJobs(files)
      ensures j.DatJob? ==> j in DatJobs(files)
      ensures j.TextJob? ==> j in TextJobs(files)
    {
      var e :| e in files && j.bytes == Bytes(e);
      var k :| 0 <= k < |files| && files[k] == e;
      assert j.McaJob? ==> McaJobs(files)[k] == j;
      assert j.DatJob? ==> DatJobs(files)[k] == j;
      assert j.TextJob? ==> TextJobs(files)[k] == j;
    }
    forall k | 0 <= k < |files| ensures files[k] in files { }
  }

  /** The work one world gives rise to (lines 157-167); `None` when gathering
      its data packs throws. */
  function WorldJobs(world: World, flags: Flags): (jobs: Option<seq<Job>>)
    ensures jobs.None? <==>
      flags.dataPacks && world.dataPacks.Some? && PackTextFiles(world.dataPacks.value).None?
  {
    var mca := if flags.entities || flags.region then McaJobs(GatherMCA(world, flags.entities, flags.region)) else [];
    var dat := if flags.playerData then DatJobs(GatherPlayerData(world)) else [];
    if !flags.dataPacks then Some(mca + dat)
    else if world.dataPacks.None? then Some(mca + dat)
    else
      match PackTextFiles(world.dataPacks.value)
      case None => None
      case Some(texts) => Some(mca + dat + TextJobs(texts))
  }

  /** Which units of work a world gives rise to: archive tasks only when
      entity or region files are read, data-file tasks only when player data
      is, and read-and-scan tasks only when data packs are, each for a file
      the matching gather function selects. */
  lemma WorldJobsMembership(world: World, flags: Flags, j: Job)
    requires WorldJobs(world, flags).Some?
    ensures j in WorldJobs(world, flags).value <==>
      (j.McaJob? && (flags.entities || flags.region) &&
        exists e :: e in GatherMCA(world, flags.entities, flags.region) && j.bytes == Bytes(e)) ||
      (j.DatJob? && flags.playerData &&
        exists e :: e in GatherPlayerData(world) && j.bytes == Bytes(e)) ||
      (j.TextJob? && flags.dataPacks && world.dataPacks.Some? &&
        PackTextFiles(world.dataPacks.value).Some? &&
        exists e :: e in PackTextFiles(world.dataPacks.value).value && j.bytes == Bytes(e))
  {
    JobsMembership(GatherMCA(world, flags.entities, flags.region));
    JobsMembership(GatherPlayerData(world));
    if flags.dataPacks && world.dataPacks.Some? {
      JobsMembership(PackTextFiles(world.dataPacks.value).value);
    }
  }

  /** The work of all worlds, in order; `None` when gathering fails for one. */
  function AllJobs(worlds: seq<World>, flags: Flags): Option<seq<Job>>
    decreases |worlds|
  {
    if worlds == [] then Some([])
    else
      match (AllJobs(worlds[..|worlds| - 1], flags), WorldJobs(worlds[|worlds| - 1], flags))
      case (Some(a), Some(b)) => Some(a + b)
      case _ => None
  }

  /** What one unit of work hands to the consumer, and whether an exception
      escapes it (to resurface at `join()`). */
  datatype Run = Run(candidates: seq<string>, escapes: bool)

  function RunJob(lib: Library, job: Job): (run: Run)
    ensures run.escapes ==> job.McaJob?
    ensures job.DatJob? && lib.readFile(job.bytes).None? ==> run.candidates == []
    ensures job.TextJob? && lib.readString(job.bytes).None? ==> run.candidates == []
  {
    match job
    case McaJob(bytes) =>
      var outcome := Region.ReadArchive(bytes, lib.readTag);
      Run(TagScanner.CandidatesOf(outcome.chunks), outcome.Crash?)
    case DatJob(bytes) =>
      (match lib.readFile(bytes)
       case None => Run([], false)  // IOException caught in processDAT
       case Some(root) => Run(TagScanner.Candidates(root), false))
    case TextJob(bytes) =>
      (match lib.readString(bytes)
       case None => Run([], false)  // IOException caught in processDataPack
       case Some(text) => Run(TextScanner.ScanText(text), false))
  }

  /** The consumer's verdicts: the candidates that validate. */
  function Accepted(lib: Library, candidates: seq<string>): set<string>
  {
    set h | h in candidates && Validator.ValidateHead(lib.decode, h)
  }

  /** Everything the consumer adds to the result set for a list of jobs. */
  function Union(lib: Library, jobs: seq<Job>): set<string>
    decreases |jobs|
  {
    if jobs == [] then {}
    else Union(lib, jobs[..|jobs| - 1]) + Accepted(lib, RunJob(lib, jobs[|jobs| - 1]).candidates)
  }

  predicate Escapes(lib: Library, jobs: seq<Job>)
  {
    exists j :: j in jobs && RunJob(lib, j).escapes
  }

  /** The result of `extractHeads`: the set, or an exception. */
  datatype Extraction = Heads(heads: set<string>) | Failed

  /** Specification of `extractHeads` as written: all flags off gives the
      empty set; a data pack that cannot be opened, or an unchecked exception
      in any unit of work, makes the call throw. */
  function Extract(lib: Library, worlds: seq<World>, flags: Flags): (r: Extraction)
    ensures r.Failed? <==>
      flags.Any() && (AllJobs(worlds, flags).None? || Escapes(lib, AllJobs(worlds, flags).value))
    ensures r.Heads? ==> r == ExtractScoped(lib, worlds, flags)
  {
    if !flags.Any() then Heads({})
    else
      match AllJobs(worlds, flags)
      case None => Failed
      case Some(jobs) => if Escapes(lib, jobs) then Failed else Heads(Union(lib, jobs))
  }

  /** The same specification with the fix for the finding on empty region
      files: an unchecked exception in one archive is confined to that file,
      like the `IOException` caught at line 286, so the heads read from its
      earlier chunks and from every other file are kept. */
  function ExtractScoped(lib: Library, worlds: seq<World>, flags: Flags): (r: Extraction)
    ensures r.Failed? <==> flags.Any() && AllJobs(worlds, flags).None?
  {
    if !flags.Any() then Heads({})
    else
      match AllJobs(worlds, flags)
      case None => Failed
      case Some(jobs) => Heads(Union(lib, jobs))
  }

  // ---------------------------------------------------------------------
  // The loop of `extractHeads`, one unit of work after another.

  lemma AcceptedAppend(lib: Library, a: seq<string>, b: seq<string>)
    ensures Accepted(lib, a + b) == Accepted(lib, a) + Accepted(lib, b)
  {
  }

  lemma AcceptedSameElements(lib: Library, a: seq<string>, b: seq<string>)
    requires multiset(a) == multiset(b)
    ensures Accepted(lib, a) == Accepted(lib, b)
  {
    forall h ensures h in a <==> h in b {
      assert h in a <==> h in multiset(a);
      assert h in b <==> h in multiset(b);
    }
  }

  /** The head consumer (lines 150-154) applied to each candidate in turn:
      a candidate that validates is added to the shared set. */
  method Consume(lib: Library, heads: set<string>, candidates: seq<string>) returns (result: set<string>)
    ensures result == heads + Accepted(lib, candidates)
  {
    result := heads;
    for k := 0 to |candidates|
      invariant result == heads + Accepted(lib, candidates[..k])
    {
      var head := candidates[k];
      var valid := Validator.ValidateHead(lib.decode, head);
      if valid {
        result := result + {head};
      }
      AcceptedAppend(lib, candidates[..k], [head]);
      assert candidates[..k + 1] == candidates[..k] + [head];
    }
    assert candidates[..|candidates|] == candidates;
  }

  lemma ChunkStep(lib: Library, chunks: seq<Tag>, k: nat)
    requires k < |chunks|
    ensures Accepted(lib, TagScanner.CandidatesOf(chunks[..k + 1])) ==
            Accepted(lib, TagScanner.CandidatesOf(chunks[..k])) + Accepted(lib, TagScanner.Candidates(chunks[k]))
  {
    assert chunks[..k + 1] == chunks[..k] + [chunks[k]];
    TagScanner.CandidatesOfAppend(chunks[..k], [chunks[k]]);
    AcceptedAppend(lib, TagScanner.CandidatesOf(chunks[..k]), TagScanner.Candidates(chunks[k]));
  }

  /** `processMCA` with its consumer: every chunk read is scanned. */
  method ProcessArchive(lib: Library, heads: set<string>, bytes: seq<Region.byte>) returns (result: set<string>, escapes: bool)
    ensures result == heads + Accepted(lib, RunJob(lib, McaJob(bytes)).candidates)
    ensures escapes == RunJob(lib, McaJob(bytes)).escapes
  {
    var outcome := Region.ProcessMCA(bytes, lib.readTag);
    var chunks := outcome.chunks;
    result := heads;
    for k := 0 to |chunks|
      invariant result == heads + Accepted(lib, TagScanner.CandidatesOf(chunks[..k]))
    {
      var found := TagScanner.ProcessTag(chunks[k]);
      AcceptedSameElements(lib, found, TagScanner.Candidates(chunks[k]));
      result := Consume(lib, result, found);
      ChunkStep(lib, chunks, k);
    }
    assert chunks[..|chunks|] == chunks;
    escapes := outcome.Crash?;
  }

  /** One unit of work with its consumer: `processMCA`, `processDAT`, or the
      read and scan of one data-pack file. */
  method ProcessJob(lib: Library, heads: set<string>, job: Job) returns (result: set<string>, escapes: bool)
    ensures result == heads + Accepted(lib, RunJob(lib, job).candidates)
    ensures escapes == RunJob(lib, job).escapes
  {
    match job {
      case McaJob(bytes) =>
        result, escapes := ProcessArchive(lib, heads, bytes);
      case DatJob(bytes) =>
        var root := lib.readFile(bytes);
        escapes := false;
        if root.None? {
          return heads, false;
        }
        var found := TagScanner.ProcessTag(root.value);
        AcceptedSameElements(lib, found, TagScanner.Candidates(root.value));
        result := Consume(lib, heads, found);
      case TextJob(bytes) =>
        var text := lib.readString(bytes);
        escapes := false;
        if text.None? {
          return heads, false;
        }
        var found := TextScanner.ProcessString(text.value);
        result := Consume(lib, heads, found);
    }
  }

  /** Once gathering fails for a world, it fails for every longer list. */
  lemma {:induction false} AllJobsPrefix(worlds: seq<World>, flags: Flags, k: nat)
    requires k <= |worlds|
    requires AllJobs(worlds, flags).Some?
    ensures AllJobs(worlds[..k], flags).Some?
    decreases |worlds|
  {
    if k < |worlds| {
      var init := worlds[..|worlds| - 1];
      AllJobsPrefix(init, flags, k);
      assert init[..k] == worlds[..k];
    } else {
      assert worlds[..k] == worlds;
    }
  }

  lemma {:induction false} UnionAppend(lib: Library, a: seq<Job>, b: seq<Job>)
    ensures Union(lib, a + b) == Union(lib, a) + Union(lib, b)
    decreases |b|
  {
    if b == [] {
      assert a + b == a;
    } else {
      var init := b[..|b| - 1];
      UnionAppend(lib, a, init);
      assert (a + b)[..|a + b| - 1] == a + init;
    }
  }

  lemma EscapesAppend(lib: Library, a: seq<Job>, b: seq<Job>)
    ensures Escapes(lib, a + b) == (Escapes(lib, a) || Escapes(lib, b))
  {
    if Escapes(lib, a + b) {
      var j :| j in a + b && RunJob(lib, j).escapes;
    }
  }

  lemma WorkStep(lib: Library, work: seq<Job>, m: nat)
    requires m < |work|
    ensures Union(lib, work[..m + 1]) == Union(lib, work[..m]) + Accepted(lib, RunJob(lib, work[m]).candidates)
    ensures Escapes(lib, work[..m + 1]) == (Escapes(lib, work[..m]) || RunJob(lib, work[m]).escapes)
  {
    assert work[..m + 1][..m] == work[..m];
    EscapesAppend(lib, work[..m], [work[m]]);
    assert work[..m + 1] == work[..m] + [work[m]];
  }

  /** The tasks of one world, their heads added to the shared set. */
  method ProcessWork(lib: Library, heads: set<string>, work: seq<Job>) returns (result: set<string>, escapes: bool)
    ensures result == heads + Union(lib, work)
    ensures escapes == Escapes(lib, work)
  {
    result, escapes := heads, false;
    for m := 0 to |work|
      invariant result == heads + Union(lib, work[..m])
      invariant escapes == Escapes(lib, work[..m])
    {
      var escaped;
      result, escaped := ProcessJob(lib, result, work[m]);
      escapes := escapes || escaped;
      WorkStep(lib, work, m);
    }
    assert work[..|work|] == work;
  }

  lemma AllJobsStep(worlds: seq<World>, flags: Flags, k: nat)
    requires k < |worlds|
    ensures AllJobs(worlds[..k + 1], flags) ==
      match (AllJobs(worlds[..k], flags), WorldJobs(worlds[k], flags))
      case (Some(a), Some(b)) => Some(a + b)
      case _ => None
  {
    assert worlds[..k + 1][..k] == worlds[..k];
  }

  /** `extractHeads`: all flags off returns the empty set at once; otherwise
      every world's files are processed, and the set is returned unless an
      exception surfaced. */
  method ExtractHeads(lib: Library, worlds: seq<World>, flags: Flags) returns (r: Extraction)
    ensures r == Extract(lib, worlds, flags)
  {
    if !flags.Any() {
      return Heads({});
    }
    var heads: set<string> := {};
    var escapes := false;
    ghost var done: seq<Job> := [];
    for k := 0 to |worlds|
      invariant AllJobs(worlds[..k], flags) == Some(done)
      invariant heads == Union(lib, done)
      invariant escapes == Escapes(lib, done)
    {
      AllJobsStep(worlds, flags, k);
      var jobs := WorldJobs(worlds[k], flags);
      if jobs.None? {
        if AllJobs(worlds, flags).Some? {
          AllJobsPrefix(worlds, flags, k + 1);
        }
        return Failed;
      }
      var escaped;
      heads, escaped := ProcessWork(lib, heads, jobs.value);
      UnionAppend(lib, done, jobs.value);
      EscapesAppend(lib, done, jobs.value);
      escapes := escapes || escaped;
      done := done + jobs.value;
    }
    assert worlds[..|worlds|] == worlds;
    if escapes {
      return Failed;
    }
    return Heads(heads);
  }

  // ---------------------------------------------------------------------
  // What the result holds.

  /** The result does not depend on the order the pool runs its tasks in:
      two lists of the same units of work give the same heads and the same
      failure. */
  lemma ScheduleIrrelevant(lib: Library, a: seq<Job>, b: seq<Job>)
    requires forall j :: j in a <==> j in b
    ensures Union(lib, a) == Union(lib, b)
    ensures Escapes(lib, a) == Escapes(lib, b)
  {
    forall h ensures h in Union(lib, a) <==> h in Union(lib, b) {
      UnionMembership(lib, a, h);
      UnionMembership(lib, b, h);
    }
  }

  /** A head is in the union exactly when some unit of work hands it to the
      consumer and it validates. */
  lemma {:induction false} UnionMembership(lib: Library, jobs: seq<Job>, h: string)
    ensures h in Union(lib, jobs) <==>
      Validator.ValidateHead(lib.decode, h) && exists j :: j in jobs && h in RunJob(lib, j).candidates
    decreases |jobs|
  {
    if jobs != [] {
      var init := jobs[..|jobs| - 1];
      var last := jobs[|jobs| - 1];
      UnionMembership(lib, init, h);
      assert jobs == init + [last];
      if h in RunJob(lib, last).candidates && Validator.ValidateHead(lib.decode, h) {
        assert last in jobs;
      }
      if exists j :: j in jobs && h in RunJob(lib, j).candidates {
        var j :| j in jobs && h in RunJob(lib, j).candidates;
        assert j in init || j == last;
      }
    }
  }

  /** With every flag off, nothing is read. */
  lemma NoFlagsNoHeads(lib: Library, worlds: seq<World>)
    ensures Extract(lib, worlds, Flags(false, false, false, false)) == Heads({})
  {
  }

  /** Every head returned was handed to the consumer by some unit of work of
      the given worlds and passed `validateHead`; every such candidate is
      returned. */
  lemma ExtractedHeads(lib: Library, worlds: seq<World>, flags: Flags, h: string)
    requires flags.Any() && Extract(lib, worlds, flags).Heads?
    ensures AllJobs(worlds, flags).Some?
    ensures h in Extract(lib, worlds, flags).heads <==>
      Validator.ValidateHead(lib.decode, h) &&
      exists j :: j in AllJobs(worlds, flags).value && h in RunJob(lib, j).candidates
  {
    UnionMembership(lib, AllJobs(worlds, flags).value, h);
  }

  /** The work of a list of worlds is the work of its members. */
  lemma {:induction false} AllJobsMembership(worlds: seq<World>, flags: Flags)
    ensures AllJobs(worlds, flags).Some? <==> forall w | w in worlds :: WorldJobs(w, flags).Some?
    ensures AllJobs(worlds, flags).Some? ==>
      forall j :: j in AllJobs(worlds, flags).value <==>
        exists w :: w in worlds && WorldJobs(w, flags).Some? && j in WorldJobs(w, flags).value
    decreases |worlds|
  {
    if worlds != [] {
      var init := worlds[..|worlds| - 1];
      var last := worlds[|worlds| - 1];
      AllJobsMembership(init, flags);
      assert worlds == init + [last];
      if AllJobs(worlds, flags).Some? {
        forall j | j in AllJobs(worlds, flags).value
          ensures exists w :: w in worlds && WorldJobs(w, flags).Some? && j in WorldJobs(w, flags).value
        {
          if j in AllJobs(init, flags).value {
            var w :| w in init && WorldJobs(w, flags).Some? && j in WorldJobs(w, flags).value;
            assert w in worlds;
          } else {
            assert last in worlds;
          }
        }
        forall j | exists w :: w in worlds && WorldJobs(w, flags).Some? && j in WorldJobs(w, flags).value
          ensures j in AllJobs(worlds, flags).value
        {
          var w :| w in worlds && WorldJobs(w, flags).Some? && j in WorldJobs(w, flags).value;
          assert w in init || w == last;
        }
      } else {
        if AllJobs(init, flags).None? {
          var w :| w in init && WorldJobs(w, flags).None?;
          assert w in worlds;
        } else {
          assert WorldJobs(last, flags).None?;
        }
      }
    }
  }

  /** The worlds come as a `Set<Path>` whose iteration order is unspecified:
      any two enumerations of the same worlds give the same result. */
  lemma WorldOrderIrrelevant(lib: Library, worlds: seq<World>, others: seq<World>, flags: Flags)
    requires forall w :: w in worlds <==> w in others
    ensures Extract(lib, worlds, flags) == Extract(lib, others, flags)
    ensures ExtractScoped(lib, worlds, flags) == ExtractScoped(lib, others, flags)
  {
    AllJobsMembership(worlds, flags);
    AllJobsMembership(others, flags);
    if AllJobs(worlds, flags).Some? {
      var a, b := AllJobs(worlds, flags).value, AllJobs(others, flags).value;
      forall j ensures j in a <==> j in b {
        if j in a {
          var w :| w in worlds && WorldJobs(w, flags).Some? && j in WorldJobs(w, flags).value;
          assert w in others;
        }
        if j in b {
          var w :| w in others && WorldJobs(w, flags).Some? && j in WorldJobs(w, flags).value;
          assert w in worlds;
        }
      }
      ScheduleIrrelevant(lib, a, b);
    }
  }

  // ---------------------------------------------------------------------
  // The finding: an empty region file.

  /** w with a zero-byte file `name` added to its region directory. */
  function WithEmptyRegionFile(w: World, name: string): World
  {
    w.(region := Some(Listing(w.region) + [RegularFile(name, [])]))
  }

  /** A zero-byte archive hands nothing to the consumer, and the exception
      from its first `getInt` escapes `processMCA`. */
  lemma EmptyArchiveRun(lib: Library)
    ensures RunJob(lib, McaJob([])) == Run([], true)
  {
    Region.EmptyArchiveCrashes(lib.readTag);
  }

  /** The region files of a world with a zero-byte file added: the same,
      plus that file when region files are read. */
  lemma GatherWithEmptyFile(w: World, name: string, entities: bool, region: bool)
    requires EndsWith(name, "mca")
    ensures forall e :: e in GatherMCA(WithEmptyRegionFile(w, name), entities, region) <==>
      e in GatherMCA(w, entities, region) || (region && e == RegularFile(name, []))
  {
  }

  lemma McaJobsWithEmptyFile(g: seq<Entry>, g': seq<Entry>, f: Entry, added: bool)
    requires f.RegularFile? && f.bytes == []
    requires forall e :: e in g' <==> e in g || (added && e == f)
    ensures forall j :: j in McaJobs(g') <==> j in McaJobs(g) || (added && j == McaJob([]))
  {
    JobsMembership(g);
    JobsMembership(g');
    if added {
      assert f in g';
    }
  }

  /** The work of a world with an empty region file added: the same, plus
      one unit of work for that file when region files are read. */
  lemma WorldJobsWithEmptyFile(w: World, name: string, flags: Flags)
    requires EndsWith(name, "mca")
    ensures WorldJobs(WithEmptyRegionFile(w, name), flags).Some? == WorldJobs(w, flags).Some?
    ensures WorldJobs(w, flags).Some? ==>
      forall j :: j in WorldJobs(WithEmptyRegionFile(w, name), flags).value <==>
        j in WorldJobs(w, flags).value || (flags.region && j == McaJob([]))
  {
    var w' := WithEmptyRegionFile(w, name);
    var g, g' := GatherMCA(w, flags.entities, flags.region), GatherMCA(w', flags.entities, flags.region);
    GatherWithEmptyFile(w, name, flags.entities, flags.region);
    McaJobsWithEmptyFile(g, g', RegularFile(name, []), flags.region);
    assert GatherPlayerData(w') == GatherPlayerData(w);
  }

  /** As written: a zero-byte region file in any world makes `extractHeads`
      throw, so no head at all is returned. */
  lemma EmptyRegionFileAborts(lib: Library, worlds: seq<World>, flags: Flags, i: nat, name: string)
    requires flags.region && i < |worlds| && EndsWith(name, "mca")
    ensures Extract(lib, worlds[i := WithEmptyRegionFile(worlds[i], name)], flags) == Failed
  {
    var w' := WithEmptyRegionFile(worlds[i], name);
    var ws' := worlds[i := w'];
    AllJobsMembership(ws', flags);
    if AllJobs(ws', flags).Some? {
      assert ws'[i] == w';
      WorldJobsWithEmptyFile(worlds[i], name, flags);
      assert McaJob([]) in WorldJobs(w', flags).value;
      EmptyArchiveRun(lib);
      assert McaJob([]) in AllJobs(ws', flags).value;
    }
  }

  lemma ReplacedMembers(worlds: seq<World>, i: nat, x': World)
    requires i < |worlds|
    ensures x' in worlds[i := x']
    ensures forall x | x in worlds[i := x'] :: x in worlds || x == x'
    ensures forall x | x in worlds :: x in worlds[i := x'] || x == worlds[i]
  {
    var ws' := worlds[i := x'];
    assert ws'[i] == x';
    forall x | x in ws' ensures x in worlds || x == x' {
      var k :| 0 <= k < |ws'| && ws'[k] == x;
      assert k != i ==> worlds[k] == x;
    }
    forall x | x in worlds ensures x in ws' || x == worlds[i] {
      var k :| 0 <= k < |worlds| && worlds[k] == x;
      assert k != i ==> ws'[k] == x;
    }
  }

  /** Adding units of work for zero-byte archives leaves the union alone. */
  lemma UnionIgnoresEmptyArchive(lib: Library, a: seq<Job>, b: seq<Job>)
    requires forall j | j in a :: j in b
    requires forall j | j in b :: j in a || j == McaJob([])
    ensures Union(lib, a) == Union(lib, b)
  {
    EmptyArchiveRun(lib);
    forall h ensures h in Union(lib, a) <==> h in Union(lib, b) {
      UnionMembership(lib, a, h);
      UnionMembership(lib, b, h);
    }
  }

  /** Corrected: the empty file is skipped, and every world gives the heads
      it gives without that file. */
  lemma EmptyRegionFileSkipped(lib: Library, worlds: seq<World>, flags: Flags, i: nat, name: string)
    requires i < |worlds| && EndsWith(name, "mca")
    ensures ExtractScoped(lib, worlds[i := WithEmptyRegionFile(worlds[i], name)], flags) ==
            ExtractScoped(lib, worlds, flags)
  {
    var w, w' := worlds[i], WithEmptyRegionFile(worlds[i], name);
    var ws' := worlds[i := w'];
    WorldJobsWithEmptyFile(w, name, flags);
    ReplacedMembers(worlds, i, w');
    AllJobsMembership(worlds, flags);
    AllJobsMembership(ws', flags);
    if AllJobs(worlds, flags).Some? {
      assert AllJobs(ws', flags).Some?;
      var a, a' := AllJobs(worlds, flags).value, AllJobs(ws', flags).value;
      forall j | j in a ensures j in a' {
        var x :| x in worlds && WorldJobs(x, flags).Some? && j in WorldJobs(x, flags).value;
      }
      forall j | j in a' ensures j in a || j == McaJob([]) {
        var x :| x in ws' && WorldJobs(x, flags).Some? && j in WorldJobs(x, flags).value;
      }
      UnionIgnoresEmptyArchive(lib, a, a');
    } else {
      var x :| x in worlds && WorldJobs(x, flags).None?;
      assert x in ws' || x == w;
    }
  }

  /** The correction changes nothing when no unit of work throws. */
  lemma ScopedAgrees(lib: Library, worlds: seq<World>, flags: Flags)
    requires AllJobs(worlds, flags).Some? ==> !Escapes(lib, AllJobs(worlds, flags).value)
    ensures ExtractScoped(lib, worlds, flags) == Extract(lib, worlds, flags)
  {
  }
}
