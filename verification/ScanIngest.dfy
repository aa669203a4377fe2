/**
 Ingest of scan results: one write window that upserts files and findings, sweeps the findings a scan no
 longer saw, and reports which linked issues regressed or were resolved.

 `ScanStore` holds the two tables and the call's statistics; its methods are proved equal to functions on
 values, and what an ingest does to every finding is then stated in closed form.
 */
module ScanIngest {
  import opened Wrappers

  type Path = string
  type FileId = string
  type IssueId = string

  datatype Status = Open | Acknowledged | Fixed | FalsePositive | UnseenInLatest

  predicate Terminal(s: Status)
  {
    s.Fixed? || s.FalsePositive?
  }

  // The wardline kind read out of a finding's metadata, and the text stored.
  datatype Metadata = Metadata(kind: Option<string>, text: string)

  const NON_DEFECT_KINDS: set<string> := {"fact", "classification", "metric", "suggestion"}

  /** A missing or unknown kind is a defect. */
  function KindOf(m: Metadata): string
  {
    if m.kind.Some? && m.kind.value in NON_DEFECT_KINDS then m.kind.value else "defect"
  }

  datatype Content = Content(message: string, severity: string, suggestion: string, lineEnd: Option<int>,
    metadata: Metadata)

  datatype Finding = Finding(
    file: FileId,
    source: string,
    rule: string,
    line: Option<int>,
    fingerprint: string,
    content: Content,
    status: Status,
    issue: Option<IssueId>,
    runId: string,
    seenCount: nat)

  datatype Report = Report(path: Path, rule: string, line: Option<int>, fingerprint: string, content: Content)

  // What the registry answered for a path.
  datatype Resolved = Resolved(id: FileId, canonical: Path, isLocal: bool)

  // Its answers before the write window, and those it gives inside for paths that were not asked about before.
  datatype Registry = Registry(before: map<Path, Resolved>, inside: map<Path, Resolved>)

  datatype Error = Unresolved(path: Path) | RegistryDrift(path: Path)

  datatype Batch = Batch(
    source: string,
    runId: string,
    markUnseen: bool,
    resolutions: Registry,
    skipped: set<Path>,
    scanned: seq<Path>,
    reports: seq<Report>)

  datatype Tally = Tally(
    filesCreated: nat,
    filesUpdated: nat,
    created: nat,
    updated: nat,
    newIds: seq<nat>,
    replayed: seq<nat>)

  // The state of the write window: a finding's id is its position.
  datatype Work = Work(
    files: map<Path, FileId>,
    findings: seq<Finding>,
    tally: Tally,
    counted: set<FileId>,
    seen: map<FileId, set<nat>>,
    regressed: set<IssueId>)

  // ---------------------------------------------------------------------------------------
  // Files
  // ---------------------------------------------------------------------------------------

  /** An existing row keeps its id; only a stable id that disagrees with it is an error. */
  function Adopt(path: Path, existing: FileId, r: Option<Resolved>): Result<FileId, Error>
  {
    if r.Some? && r.value.id != existing && !r.value.isLocal then Err(RegistryDrift(path)) else Ok(existing)
  }

  datatype Placed = Placed(files: map<Path, FileId>, id: FileId, inserted: bool)

  function PlaceFile(files: map<Path, FileId>, resolutions: Registry, path: Path): Result<Placed, Error>
  {
    var r := if path in resolutions.before then Some(resolutions.before[path]) else None;
    if path in files then
      match Adopt(path, files[path], r)
      case Err(e) => Err(e)
      case Ok(id) => Ok(Placed(files, id, false))
    else if r.None? && path !in resolutions.inside then Err(Unresolved(path))
    else
      var resolved := if r.Some? then r.value else resolutions.inside[path];
      if resolved.canonical in files then
        match Adopt(path, files[resolved.canonical], Some(resolved))
        case Err(e) => Err(e)
        case Ok(id) => Ok(Placed(files, id, false))
      else if resolved.id in files.Values then Ok(Placed(files, resolved.id, false))
      else Ok(Placed(files[resolved.canonical := resolved.id], resolved.id, true))
  }

  /** What the registry says of a path, now or before, decides only where no file has the path: then a file of the
      canonical path is taken, then one with the answered id, and otherwise a file is made.  Only a stable id that
      disagrees with the file taken is refused. */
  lemma PlaceFileMeans(files: map<Path, FileId>, resolutions: Registry, path: Path)
    ensures var r := PlaceFile(files, resolutions, path);
      var early, late := path in resolutions.before, path in resolutions.inside;
      && (path in files ==>
            r == if early && !resolutions.before[path].isLocal && resolutions.before[path].id != files[path]
                 then Err(RegistryDrift(path)) else Ok(Placed(files, files[path], false)))
      && (path !in files && !early && !late ==> r == Err(Unresolved(path)))
      && (path !in files && (early || late) ==>
            var a := if early then resolutions.before[path] else resolutions.inside[path];
            && (a.canonical in files ==>
                  r == if !a.isLocal && a.id != files[a.canonical] then Err(RegistryDrift(path))
                       else Ok(Placed(files, files[a.canonical], false)))
            && (a.canonical !in files && (exists p :: p in files && files[p] == a.id) ==>
                  r == Ok(Placed(files, a.id, false)))
            && (a.canonical !in files && (forall p | p in files :: files[p] != a.id) ==>
                  r == Ok(Placed(files[a.canonical := a.id], a.id, true))))
  {
  }

  function CountFile(w: Work, p: Placed): Work
  {
    var t :=
      if p.id in w.counted then w.tally
      else if p.inserted then w.tally.(filesCreated := w.tally.filesCreated + 1)
      else w.tally.(filesUpdated := w.tally.filesUpdated + 1);
    w.(files := p.files, tally := t, counted := w.counted + {p.id})
  }

  // ---------------------------------------------------------------------------------------
  // Findings
  // ---------------------------------------------------------------------------------------

  const SUGGESTION_CAP := 10000

  function StoredContent(c: Content): Content
  {
    if |c.suggestion| > SUGGESTION_CAP then c.(suggestion := c.suggestion[..SUGGESTION_CAP] + "\n[truncated]") else c
  }

  // A finding is identified by its fingerprint, or by its site when it has none.
  datatype Identity =
    | ByPrint(source: string, fingerprint: string)
    | BySite(file: FileId, source: string, rule: string, line: int)

  function LineKey(line: Option<int>): int
  {
    if line.Some? then line.value else -1
  }

  function IdentityOf(f: Finding): Identity
  {
    if f.fingerprint != "" then ByPrint(f.source, f.fingerprint) else BySite(f.file, f.source, f.rule, LineKey(f.line))
  }

  function ReportIdentity(source: string, r: Report, file: FileId): Identity
  {
    if r.fingerprint != "" then ByPrint(source, r.fingerprint) else BySite(file, source, r.rule, LineKey(r.line))
  }

  /** The first row with an identity. */
  function Lookup(findings: seq<Finding>, id: Identity): (k: Option<nat>)
    ensures k.Some? ==> k.value < |findings| && IdentityOf(findings[k.value]) == id
    ensures k.None? ==> forall i | 0 <= i < |findings| :: IdentityOf(findings[i]) != id
  {
    LookupFrom(findings, id, 0)
  }

  function LookupFrom(findings: seq<Finding>, id: Identity, from: nat): (k: Option<nat>)
    requires from <= |findings|
    ensures k.Some? ==> from <= k.value < |findings| && IdentityOf(findings[k.value]) == id
    ensures k.None? ==> forall i | from <= i < |findings| :: IdentityOf(findings[i]) != id
    decreases |findings| - from
  {
    if from == |findings| then None
    else if IdentityOf(findings[from]) == id then Some(from)
    else LookupFrom(findings, id, from + 1)
  }

  predicate Regresses(s: Status)
  {
    s.Fixed? || s.UnseenInLatest?
  }

  function Touch(f: Finding, r: Report, file: FileId, runId: string): Finding
  {
    f.(content := StoredContent(r.content), file := file, line := r.line,
       runId := if f.runId == "" then runId else f.runId, seenCount := f.seenCount + 1,
       status := if Regresses(f.status) then Open else f.status)
  }

  function NewFinding(b: Batch, r: Report, file: FileId): Finding
  {
    Finding(file, b.source, r.rule, r.line, r.fingerprint, StoredContent(r.content), Open, None, b.runId, 1)
  }

  predicate Unchanged(f: Finding, r: Report, file: FileId)
  {
    !Regresses(f.status) && f.file == file && f.content == StoredContent(r.content) && f.line == r.line
  }

  function See(seen: map<FileId, set<nat>>, file: FileId, k: nat): map<FileId, set<nat>>
  {
    seen[file := (if file in seen then seen[file] else {}) + {k}]
  }

  function PlaceFinding(w: Work, b: Batch, r: Report, file: FileId): Work
  {
    match Lookup(w.findings, ReportIdentity(b.source, r, file))
    case Some(k) =>
      var f := w.findings[k];
      w.(findings := w.findings[k := Touch(f, r, file, b.runId)],
         tally := w.tally.(updated := w.tally.updated + 1,
                           replayed := w.tally.replayed + if Unchanged(f, r, file) then [k] else []),
         seen := See(w.seen, file, k),
         regressed := w.regressed + if f.issue.Some? && Regresses(f.status) then {f.issue.value} else {})
    case None =>
      var k := |w.findings|;
      w.(findings := w.findings + [NewFinding(b, r, file)],
         tally := w.tally.(created := w.tally.created + 1, newIds := w.tally.newIds + [k]),
         seen := See(w.seen, file, k))
  }

  function Step(w: Work, b: Batch, r: Report): Result<Work, Error>
  {
    if r.path in b.skipped then Ok(w)
    else
      match PlaceFile(w.files, b.resolutions, r.path)
      case Err(e) => Err(e)
      case Ok(p) => Ok(PlaceFinding(CountFile(w, p), b, r, p.id))
  }

  function Steps(w: Work, b: Batch, reports: seq<Report>): Result<Work, Error>
    decreases reports
  {
    if reports == [] then Ok(w)
    else
      match Step(w, b, reports[0])
      case Err(e) => Err(e)
      case Ok(w1) => Steps(w1, b, reports[1..])
  }

  // ---------------------------------------------------------------------------------------
  // The sweep
  // ---------------------------------------------------------------------------------------

  /** Files that were scanned but reported nothing join the sweep with nothing seen. */
  function WithScanned(seen: map<FileId, set<nat>>, files: map<Path, FileId>, scanned: seq<Path>): map<FileId, set<nat>>
    decreases scanned
  {
    if scanned == [] then seen
    else
      var next := if scanned[0] in files && files[scanned[0]] !in seen then seen[files[scanned[0]] := {}] else seen;
      WithScanned(next, files, scanned[1..])
  }

  predicate Sweeps(f: Finding, k: nat, source: string, seen: map<FileId, set<nat>>)
  {
    && f.source == source && f.file in seen && k !in seen[f.file]
    && !Terminal(f.status) && KindOf(f.content.metadata) == "defect"
  }

  function Swept(f: Finding, k: nat, source: string, seen: map<FileId, set<nat>>): Finding
  {
    if Sweeps(f, k, source, seen) then f.(status := UnseenInLatest) else f
  }

  function Sweep(findings: seq<Finding>, source: string, seen: map<FileId, set<nat>>): (r: seq<Finding>)
    ensures |r| == |findings| && forall k | 0 <= k < |r| :: r[k] == Swept(findings[k], k, source, seen)
  {
    seq(|findings|, k requires 0 <= k < |findings| => Swept(findings[k], k, source, seen))
  }

  /** The linked findings the sweep moves for the first time, each with its issue. */
  ghost predicate Resolves(findings: seq<Finding>, source: string, seen: map<FileId, set<nat>>, p: (nat, IssueId))
  {
    p.0 < |findings| &&
    var f := findings[p.0];
    Sweeps(f, p.0, source, seen) && f.issue == Some(p.1) && !f.status.UnseenInLatest?
  }

  ghost predicate IsResolved(resolved: set<(nat, IssueId)>, findings: seq<Finding>, source: string,
      seen: map<FileId, set<nat>>)
  {
    forall p: (nat, IssueId) :: p in resolved <==> Resolves(findings, source, seen, p)
  }

  // ---------------------------------------------------------------------------------------
  // One write window
  // ---------------------------------------------------------------------------------------

  const FRESH := Tally(0, 0, 0, 0, [], [])

  function Start(files: map<Path, FileId>, findings: seq<Finding>): Work
  {
    Work(files, findings, FRESH, {}, map[], {})
  }

  function SeenIn(w: Work, b: Batch): map<FileId, set<nat>>
  {
    if b.markUnseen then WithScanned(w.seen, w.files, b.scanned) else map[]
  }

  datatype Reply = Committed | Failed(error: Error) | Busy

  /** What one uninterrupted attempt makes of the tables and the statistics; what the statistics were before
      does not matter. */
  ghost predicate CleanRun(before: Work, b: Batch, r: Reply, after: Work, resolved: set<(nat, IssueId)>)
  {
    match Steps(Start(before.files, before.findings), b, b.reports)
    case Err(e) => r == Failed(e) && after.files == before.files && after.findings == before.findings
    case Ok(w) =>
      && r == Committed && after.files == w.files && after.findings == Sweep(w.findings, b.source, SeenIn(w, b))
      && after.tally == w.tally && after.regressed == w.regressed
      && IsResolved(resolved, w.findings, b.source, SeenIn(w, b))
  }

  // ---------------------------------------------------------------------------------------
  // The object
  // ---------------------------------------------------------------------------------------

  const ATTEMPTS := 3

  class ScanStore {
    var files: map<Path, FileId>
    var findings: seq<Finding>

    // Statistics of the running call.
    var tally: Tally
    var counted: set<FileId>
    var seen: map<FileId, set<nat>>
    var regressed: set<IssueId>
    var resolved: set<(nat, IssueId)>

    function View(): Work
      reads this
    {
      Work(files, findings, tally, counted, seen, regressed)
    }

    constructor ()
      ensures View() == Start(map[], []) && resolved == {}
    {
      files, findings, tally, counted, seen, regressed, resolved := map[], [], FRESH, {}, map[], {}, {};
    }

    method UpsertFileRecord(resolutions: Registry, path: Path) returns (r: Result<FileId, Error>)
      modifies this`files, this`tally, this`counted
      ensures match PlaceFile(old(files), resolutions, path) {
          case Err(e) => r == Err(e) && View() == old(View())
          case Ok(p) => r == Ok(p.id) && View() == CountFile(old(View()), p)
        }
    {
      var placed := PlaceFile(files, resolutions, path);
      if placed.Err? {
        return Err(placed.error);
      }
      var p := placed.value;
      files := p.files;
      if p.id !in counted {
        counted := counted + {p.id};
        if p.inserted {
          tally := tally.(filesCreated := tally.filesCreated + 1);
        } else {
          tally := tally.(filesUpdated := tally.filesUpdated + 1);
        }
      }
      assert counted == old(counted) + {p.id};
      return Ok(p.id);
    }

    method UpsertFinding(b: Batch, r: Report, file: FileId)
      modifies this`findings, this`tally, this`seen, this`regressed
      ensures View() == PlaceFinding(old(View()), b, r, file)
    {
      var existing := Lookup(findings, ReportIdentity(b.source, r, file));
      if existing.Some? {
        var k := existing.value;
        var f := findings[k];
        if Unchanged(f, r, file) {
          tally := tally.(replayed := tally.replayed + [k]);
        }
        findings := findings[k := Touch(f, r, file, b.runId)];
        tally := tally.(updated := tally.updated + 1);
        seen := See(seen, file, k);
        if f.issue.Some? && Regresses(f.status) {
          regressed := regressed + {f.issue.value};
        }
      } else {
        var k := |findings|;
        findings := findings + [NewFinding(b, r, file)];
        tally := tally.(created := tally.created + 1, newIds := tally.newIds + [k]);
        seen := See(seen, file, k);
      }
    }

    /** The loop over the batch; a lock error can interrupt it after `limit` reports. */
    method UpsertAll(b: Batch, limit: nat) returns (r: Result<bool, Error>)
      modifies this`files, this`findings, this`tally, this`counted, this`seen, this`regressed
      ensures r.Err? ==> Steps(old(View()), b, b.reports) == Err(r.error)
      ensures limit >= |b.reports| && r.Ok? ==> Steps(old(View()), b, b.reports) == Ok(View())
    {
      var i := 0;
      while i < |b.reports| && i < limit
        invariant i <= |b.reports|
        invariant Steps(old(View()), b, b.reports) == Steps(View(), b, b.reports[i..])
      {
        var report := b.reports[i];
        assert b.reports[i..][1..] == b.reports[i + 1..];
        if report.path !in b.skipped {
          var file := UpsertFileRecord(b.resolutions, report.path);
          if file.Err? {
            return Err(file.error);
          }
          UpsertFinding(b, report, file.value);
        }
        i := i + 1;
      }
      return Ok(true);
    }

    method FoldInScanned(scanned: seq<Path>)
      modifies this`seen
      ensures seen == WithScanned(old(seen), files, scanned)
    {
      for i := 0 to |scanned|
        invariant WithScanned(old(seen), files, scanned) == WithScanned(seen, files, scanned[i..])
      {
        assert scanned[i..][1..] == scanned[i + 1..];
        if scanned[i] in files && files[scanned[i]] !in seen {
          seen := seen[files[scanned[i]] := {}];
        }
      }
    }

    /** The SELECT and UPDATE of one file. */
    method SweepFile(source: string, file: FileId, ids: set<nat>)
      modifies this`findings, this`resolved
      ensures findings == Sweep(old(findings), source, map[file := ids])
      ensures forall p :: p in resolved <==> p in old(resolved) || Resolves(old(findings), source, map[file := ids], p)
    {
      for k := 0 to |findings|
        invariant |findings| == old(|findings|)
        invariant forall i | 0 <= i < k :: findings[i] == Swept(old(findings)[i], i, source, map[file := ids])
        invariant forall i | k <= i < |findings| :: findings[i] == old(findings)[i]
        invariant forall p ::
          p in resolved <==> p in old(resolved) || (p.0 < k && Resolves(old(findings), source, map[file := ids], p))
      {
        var f := findings[k];
        if Sweeps(f, k, source, map[file := ids]) {
          if f.issue.Some? && !f.status.UnseenInLatest? {
            resolved := resolved + {(k, f.issue.value)};
          }
          findings := findings[k := f.(status := UnseenInLatest)];
        }
      }
    }

    method MarkUnseen(source: string)
      modifies this`findings, this`resolved
      ensures findings == Sweep(old(findings), source, seen)
      ensures forall p :: p in resolved <==> p in old(resolved) || Resolves(old(findings), source, seen, p)
    {
      var todo := seen.Keys;
      ghost var done: map<FileId, set<nat>> := map[];
      while todo != {}
        invariant todo <= seen.Keys && done == (map g | g in seen.Keys - todo :: seen[g])
        invariant findings == Sweep(old(findings), source, done)
        invariant forall p :: p in resolved <==> p in old(resolved) || Resolves(old(findings), source, done, p)
        decreases |todo|
      {
        var file :| file in todo;
        SweepNext(old(findings), source, done, file, seen[file]);
        SweepFile(source, file, seen[file]);
        todo := todo - {file};
        done := done[file := seen[file]];
      }
      assert done == seen;
    }

    /** One attempt at the write window, under BEGIN IMMEDIATE.  `interrupt` says after how many reports a lock
        error rolls it back, if one does. */
    method Window(b: Batch, interrupt: Option<nat>) returns (r: Reply)
      modifies this
      ensures interrupt.None? ==> !r.Busy?
      ensures r.Busy? ==> files == old(files) && findings == old(findings)
      ensures !r.Busy? ==> CleanRun(old(View()), b, r, View(), resolved)
    {
      var files0, findings0 := files, findings;
      tally, counted, seen, regressed, resolved := FRESH, {}, map[], {}, {};
      var upserted := UpsertAll(b, if interrupt.Some? then interrupt.value else |b.reports|);
      if upserted.Err? {
        files, findings := files0, findings0;
        return Failed(upserted.error);
      }
      if interrupt.Some? {
        files, findings := files0, findings0;
        return Busy;
      }
      if b.markUnseen {
        ghost var w := View();
        FoldInScanned(b.scanned);
        MarkUnseen(b.source);
        assert IsResolved(resolved, w.findings, b.source, SeenIn(w, b));
      } else {
        SweepsNothing(findings, b.source);
      }
      return Committed;
    }

    /** The retry wrapper: up to three attempts, each interrupted or not. */
    method Ingest(b: Batch, interrupts: seq<Option<nat>>) returns (r: Reply)
      requires |interrupts| == ATTEMPTS
      modifies this
      ensures r.Busy? ==> files == old(files) && findings == old(findings) && forall i | i in interrupts :: i.Some?
      ensures !r.Busy? ==> CleanRun(old(View()), b, r, View(), resolved)
    {
      for attempt := 0 to ATTEMPTS
        invariant files == old(files) && findings == old(findings)
        invariant forall k | 0 <= k < attempt :: interrupts[k].Some?
      {
        ghost var before := View();
        r := Window(b, interrupts[attempt]);
        if !r.Busy? {
          return;
        }
      }
      return Busy;
    }
  }

  /** Sweeping file after file is sweeping all files at once. */
  lemma SweepNext(findings: seq<Finding>, source: string, done: map<FileId, set<nat>>, file: FileId, ids: set<nat>)
    requires file !in done
    ensures var mid := Sweep(findings, source, done);
      && Sweep(mid, source, map[file := ids]) == Sweep(findings, source, done[file := ids])
      && forall p :: Resolves(findings, source, done[file := ids], p)
                     <==> Resolves(findings, source, done, p) || Resolves(mid, source, map[file := ids], p)
  {
  }

  lemma SweepsNothing(findings: seq<Finding>, source: string)
    ensures Sweep(findings, source, map[]) == findings && IsResolved({}, findings, source, map[])
  {
  }

  // ---------------------------------------------------------------------------------------
  // What an ingest does to every finding
  // ---------------------------------------------------------------------------------------

  type Seen = map<FileId, set<nat>>

  /** The batch has seen finding `k` in the file where it now is. */
  ghost predicate Touched(fs: seq<Finding>, seen: Seen, k: nat)
  {
    k < |fs| && fs[k].file in seen && k in seen[fs[k].file]
  }

  // Also a finding seen in a file it has since left.
  ghost predicate SeenIsTouched(fs: seq<Finding>, seen: Seen)
  {
    forall g, k | g in seen && k in seen[g] :: Touched(fs, seen, k)
  }

  /** A finding that is seen again is open if it was fixed or unseen, and otherwise keeps its status. */
  ghost predicate SeenAgain(before: Status, after: Status)
  {
    after == if before.Fixed? || before.UnseenInLatest? then Open else before
  }

  ghost predicate TouchedIsSeenAgain(pre: seq<Finding>, fs: seq<Finding>, seen: Seen, source: string)
  {
    forall k: nat | Touched(fs, seen, k) ::
      fs[k].source == source && if k < |pre| then SeenAgain(pre[k].status, fs[k].status) else fs[k].status.Open?
  }

  ghost predicate UntouchedIsSame(pre: seq<Finding>, fs: seq<Finding>, seen: Seen)
  {
    && |pre| <= |fs|
    && (forall k | 0 <= k < |pre| :: fs[k].issue == pre[k].issue)
    && (forall k | 0 <= k < |fs| && !Touched(fs, seen, k) :: k < |pre| && fs[k] == pre[k])
  }

  ghost predicate Regressed(pre: seq<Finding>, fs: seq<Finding>, seen: Seen, k: nat, x: IssueId)
  {
    && k < |pre| && Touched(fs, seen, k) && pre[k].issue == Some(x)
    && (pre[k].status.Fixed? || pre[k].status.UnseenInLatest?)
  }

  ghost predicate RegressedIs(pre: seq<Finding>, fs: seq<Finding>, seen: Seen, regressed: set<IssueId>)
  {
    forall x :: x in regressed <==> exists k: nat :: Regressed(pre, fs, seen, k, x)
  }

  /** How far a batch has come from the findings `pre`. */
  ghost predicate Progress(pre: seq<Finding>, w: Work, source: string)
  {
    && SeenIsTouched(w.findings, w.seen) && TouchedIsSeenAgain(pre, w.findings, w.seen, source)
    && UntouchedIsSame(pre, w.findings, w.seen) && RegressedIs(pre, w.findings, w.seen, w.regressed)
  }

  lemma StartProgress(files: map<Path, FileId>, pre: seq<Finding>, source: string)
    ensures Progress(pre, Start(files, pre), source)
  {
  }

  /** Seeing finding `k`, changed in place or appended, touches `k` and nothing else. */
  lemma SeeTouches(fs: seq<Finding>, fs': seq<Finding>, seen: Seen, k: nat)
    requires SeenIsTouched(fs, seen) && k < |fs'| && k <= |fs| <= |fs'| <= |fs| + 1
    requires forall j | 0 <= j < |fs'| && j != k :: j < |fs| && fs'[j] == fs[j]
    ensures SeenIsTouched(fs', See(seen, fs'[k].file, k))
    ensures forall j: nat :: Touched(fs', See(seen, fs'[k].file, k), j) <==> Touched(fs, seen, j) || j == k
  {
    var seen' := See(seen, fs'[k].file, k);
    forall j: nat ensures Touched(fs', seen', j) <==> Touched(fs, seen, j) || j == k {
      if j != k && j < |fs'| {
        var x := fs'[j];
        assert j < |fs| && x == fs[j];
      } else if j == k && Touched(fs, seen, k) {
        assert Touched(fs', seen', k);
      }
    }
    forall g, j | g in seen' && j in seen'[g] ensures Touched(fs', seen', j) {
      if j != k {
        assert j in seen[g];
      }
    }
  }

  lemma RegressedGrows(pre: seq<Finding>, fs: seq<Finding>, fs': seq<Finding>, seen: Seen, seen': Seen, k: nat,
      regressed: set<IssueId>)
    requires RegressedIs(pre, fs, seen, regressed) && UntouchedIsSame(pre, fs, seen)
    requires forall j: nat :: Touched(fs', seen', j) <==> Touched(fs, seen, j) || j == k
    requires k < |fs| ==> TouchedIsSeenAgain(pre, fs, seen, fs[k].source)
    ensures RegressedIs(pre, fs', seen',
              regressed + if k < |fs| && fs[k].issue.Some? && Regresses(fs[k].status) then {fs[k].issue.value} else {})
  {
    var all := regressed + if k < |fs| && fs[k].issue.Some? && Regresses(fs[k].status) then {fs[k].issue.value} else {};
    forall x ensures x in all <==> exists j: nat :: Regressed(pre, fs', seen', j, x) {
      if x in regressed {
        var j: nat :| Regressed(pre, fs, seen, j, x);
        assert Regressed(pre, fs', seen', j, x);
      } else if x in all {
        assert !Touched(fs, seen, k);
        assert Regressed(pre, fs', seen', k, x);
      }
      if j: nat :| Regressed(pre, fs', seen', j, x) {
        if Touched(fs, seen, j) {
          assert Regressed(pre, fs, seen, j, x);
        } else {
          assert fs[k] == pre[k];
        }
      }
    }
  }

  lemma PlaceProgress(pre: seq<Finding>, w: Work, b: Batch, r: Report, file: FileId)
    requires Progress(pre, w, b.source)
    ensures Progress(pre, PlaceFinding(w, b, r, file), b.source)
  {
    var w1 := PlaceFinding(w, b, r, file);
    var found := Lookup(w.findings, ReportIdentity(b.source, r, file));
    var k := if found.Some? then found.value else |w.findings|;
    assert w1.findings[k].file == file && w1.seen == See(w.seen, file, k) && w1.findings[k].source == b.source;
    SeeTouches(w.findings, w1.findings, w.seen, k);
    assert w1.regressed == w.regressed
      + if k < |w.findings| && w.findings[k].issue.Some? && Regresses(w.findings[k].status)
                                         then {w.findings[k].issue.value} else {};
    RegressedGrows(pre, w.findings, w1.findings, w.seen, w1.seen, k, w.regressed);
    hide Touched, SeenIsTouched, RegressedIs;
  }

  lemma {:induction false} StepsProgress(pre: seq<Finding>, w: Work, b: Batch, reports: seq<Report>)
    requires Progress(pre, w, b.source)
    ensures Steps(w, b, reports).Ok? ==> Progress(pre, Steps(w, b, reports).value, b.source)
    decreases reports
  {
    hide PlaceFinding, PlaceFile;
    if reports != [] && Step(w, b, reports[0]).Ok? {
      var r := reports[0];
      if r.path !in b.skipped {
        var p := PlaceFile(w.files, b.resolutions, r.path).value;
        PlaceProgress(pre, CountFile(w, p), b, r, p.id);
      }
      StepsProgress(pre, Step(w, b, r).value, b, reports[1..]);
    }
  }

  lemma {:induction false} ScannedKeys(seen: map<FileId, set<nat>>, files: map<Path, FileId>, scanned: seq<Path>)
    ensures var all := WithScanned(seen, files, scanned);
      && (forall g | g in seen :: g in all && all[g] == seen[g])
      && (forall g | g in all && g !in seen :: all[g] == {})
      && (forall g :: g in all <==> g in seen || exists p :: p in scanned && p in files && files[p] == g)
    decreases scanned
  {
    if scanned != [] {
      var next := if scanned[0] in files && files[scanned[0]] !in seen then seen[files[scanned[0]] := {}] else seen;
      ScannedKeys(next, files, scanned[1..]);
      assert forall p :: p in scanned <==> p == scanned[0] || p in scanned[1..];
    }
  }

  // -- Which findings and files a batch names --

  /** The file each report is placed in; none for a skipped one. */
  ghost function PlacedIn(w: Work, b: Batch, reports: seq<Report>): (r: seq<Option<FileId>>)
    requires Steps(w, b, reports).Ok?
    ensures |r| == |reports|
    decreases reports
  {
    if reports == [] then []
    else
      var file := if reports[0].path in b.skipped then None
        else Some(PlaceFile(w.files, b.resolutions, reports[0].path).value.id);
      [file] + PlacedIn(Step(w, b, reports[0]).value, b, reports[1..])
  }

  /** Some report of the batch was placed with this identity. */
  ghost predicate Names(w: Work, b: Batch, reports: seq<Report>, id: Identity)
    requires Steps(w, b, reports).Ok?
  {
    exists i | 0 <= i < |reports| ::
      var file := PlacedIn(w, b, reports)[i];
      file.Some? && ReportIdentity(b.source, reports[i], file.value) == id
  }

  /** The row a report with the finding's identity goes to; with unique identities that is every row. */
  ghost predicate IsFirst(fs: seq<Finding>, k: nat)
  {
    k < |fs| && Lookup(fs, IdentityOf(fs[k])) == Some(k)
  }

  lemma UniqueIsFirst(fs: seq<Finding>, k: nat)
    requires Unique(fs) && k < |fs|
    ensures IsFirst(fs, k)
  {
  }

  lemma {:induction false} LookupStays(fs: seq<Finding>, fs': seq<Finding>, id: Identity, from: nat)
    requires from <= |fs| <= |fs'| && (forall k | 0 <= k < |fs| :: IdentityOf(fs'[k]) == IdentityOf(fs[k]))
    ensures LookupFrom(fs, id, from).Some? ==> LookupFrom(fs', id, from) == LookupFrom(fs, id, from)
    decreases |fs| - from
  {
    if from < |fs| {
      LookupStays(fs, fs', id, from + 1);
    }
  }

  lemma PlaceTouches(w: Work, b: Batch, r: Report, file: FileId, k: nat)
    requires SeenIsTouched(w.findings, w.seen)
    ensures var w1 := PlaceFinding(w, b, r, file);
      && SeenIsTouched(w1.findings, w1.seen) && w1.seen.Keys == w.seen.Keys + {file}
      && (Touched(w1.findings, w1.seen, k) <==>
            Touched(w.findings, w.seen, k)
            || (k < |w1.findings| && Lookup(w1.findings, ReportIdentity(b.source, r, file)) == Some(k)))
  {
    var w1 := PlaceFinding(w, b, r, file);
    var id := ReportIdentity(b.source, r, file);
    var found := Lookup(w.findings, id);
    var at := if found.Some? then found.value else |w.findings|;
    assert w1.findings[at].file == file && w1.seen == See(w.seen, file, at);
    SeeTouches(w.findings, w1.findings, w.seen, at);
    FirstIsFound(w.findings, w1.findings, id, at);
  }

  lemma NamesNext(w: Work, b: Batch, reports: seq<Report>, id: Identity)
    requires Steps(w, b, reports).Ok? && reports != []
    ensures var head := PlacedIn(w, b, reports)[0];
      Names(w, b, reports, id) <==>
        (head.Some? && ReportIdentity(b.source, reports[0], head.value) == id)
        || Names(Step(w, b, reports[0]).value, b, reports[1..], id)
  {
    var files, rest := PlacedIn(w, b, reports), PlacedIn(Step(w, b, reports[0]).value, b, reports[1..]);
    assert files[1..] == rest;
    hide PlacedIn, Steps, Step;
    if Names(w, b, reports, id) {
      var i :| 0 <= i < |reports| && files[i].Some? && ReportIdentity(b.source, reports[i], files[i].value) == id;
      if i > 0 {
        assert rest[i - 1] == files[i] && reports[1..][i - 1] == reports[i];
      }
    }
    if Names(Step(w, b, reports[0]).value, b, reports[1..], id) {
      var i :| 0 <= i < |reports| - 1 && rest[i].Some?
        && ReportIdentity(b.source, reports[1..][i], rest[i].value) == id;
      assert files[i + 1] == rest[i] && reports[i + 1] == reports[1..][i];
    }
  }

  /** After the upserts a finding is touched exactly when it was before or some report was placed with its identity
      and it is the row such reports go to. */
  lemma {:induction false} StepsTouch(w: Work, b: Batch, reports: seq<Report>, k: nat)
    requires Steps(w, b, reports).Ok? && SeenIsTouched(w.findings, w.seen)
    ensures var w1 := Steps(w, b, reports).value;
      Touched(w1.findings, w1.seen, k) <==>
        Touched(w.findings, w.seen, k) || (IsFirst(w1.findings, k) && Names(w, b, reports, IdentityOf(w1.findings[k])))
    decreases reports
  {
    if reports != [] {
      var r, rest := reports[0], reports[1..];
      var mid, end := Step(w, b, r).value, Steps(w, b, reports).value;
      StepsKeepIdentities(mid, b, rest);
      if k < |end.findings| {
        NamesNext(w, b, reports, IdentityOf(end.findings[k]));
      }
      if r.path in b.skipped {
        StepsTouch(mid, b, rest, k);
      } else {
        var p := PlaceFile(w.files, b.resolutions, r.path).value;
        var id := ReportIdentity(b.source, r, p.id);
        PlaceTouches(CountFile(w, p), b, r, p.id, k);
        StepsTouch(mid, b, rest, k);
        PlaceKeepsIdentities(CountFile(w, p), b, r, p.id);
        LookupStays(mid.findings, end.findings, id, 0);
        hide PlaceFinding, Touched, SeenIsTouched, Names;
        FirstHasIdentity(mid.findings, end.findings, id, k);
      }
    }
  }

  lemma FirstHasIdentity(fs: seq<Finding>, fs': seq<Finding>, id: Identity, k: nat)
    requires KeepsIdentities(fs, fs') && Lookup(fs, id).Some? && Lookup(fs', id) == Lookup(fs, id)
    ensures k < |fs| && Lookup(fs, id) == Some(k) <==> IsFirst(fs', k) && IdentityOf(fs'[k]) == id
  {
  }

  /** The files seen are those seen before and those of placed reports. */
  lemma {:induction false} StepsSeeFiles(w: Work, b: Batch, reports: seq<Report>)
    requires Steps(w, b, reports).Ok?
    ensures forall g :: g in Steps(w, b, reports).value.seen <==> g in w.seen || Some(g) in PlacedIn(w, b, reports)
    decreases reports
  {
    if reports != [] {
      var mid, files := Step(w, b, reports[0]).value, PlacedIn(w, b, reports);
      var rest := PlacedIn(mid, b, reports[1..]);
      StepsSeeFiles(mid, b, reports[1..]);
      assert files == [files[0]] + rest;
      assert mid.seen.Keys == w.seen.Keys + if files[0].Some? then {files[0].value} else {};
      hide Steps, Step, PlacedIn;
      assert forall g :: Some(g) in files <==> Some(g) == files[0] || Some(g) in rest;
    }
  }

  /** The finding a batch touched: a report was placed with its identity. */
  ghost predicate Reported(start: Work, b: Batch, fs: seq<Finding>, k: nat)
    requires Steps(start, b, b.reports).Ok?
  {
    IsFirst(fs, k) && Names(start, b, b.reports, IdentityOf(fs[k]))
  }

  /** With unique identities a finding is reported exactly when the batch names its identity. */
  lemma ReportedIsNamed(files: map<Path, FileId>, pre: seq<Finding>, b: Batch, w: Work, k: nat)
    requires Steps(Start(files, pre), b, b.reports) == Ok(w) && Unique(pre) && k < |w.findings|
    ensures Reported(Start(files, pre), b, w.findings, k)
       <==> Names(Start(files, pre), b, b.reports, IdentityOf(w.findings[k]))
  {
    StepsKeepIdentities(Start(files, pre), b, b.reports);
    UniqueIsFirst(w.findings, k);
  }

  /** The files of placed reports, and the known files of scanned paths. */
  ghost function SweptFiles(start: Work, b: Batch): set<FileId>
    requires Steps(start, b, b.reports).Ok?
  {
    var files := Steps(start, b, b.reports).value.files;
    (set file | file in PlacedIn(start, b, b.reports) && file.Some? :: file.value)
      + (set p | p in b.scanned && p in files :: files[p])
  }
  /** An untouched finding that the sweep moves. */
  ghost predicate Unseen(f: Finding, b: Batch, swept: set<FileId>)
  {
    && b.markUnseen && f.source == b.source && f.file in swept
    && f.status in {Open, Acknowledged, UnseenInLatest}
    && (f.content.metadata.kind.None?
        || f.content.metadata.kind.value !in {"fact", "classification", "metric", "suggestion"})
  }

  /** What the window has seen is what the reports name, and what it sweeps is `SweptFiles`. */
  lemma SeenIsReported(files: map<Path, FileId>, pre: seq<Finding>, b: Batch, w: Work)
    requires Steps(Start(files, pre), b, b.reports) == Ok(w)
    ensures forall k: nat :: Touched(w.findings, w.seen, k) <==> Reported(Start(files, pre), b, w.findings, k)
    ensures b.markUnseen ==> SeenIn(w, b).Keys == SweptFiles(Start(files, pre), b)
  {
    var start := Start(files, pre);
    forall k: nat ensures Touched(w.findings, w.seen, k) <==> Reported(start, b, w.findings, k) {
      StepsTouch(start, b, b.reports, k);
    }
    StepsSeeFiles(start, b, b.reports);
    ScannedKeys(w.seen, w.files, b.scanned);
    var placed := PlacedIn(start, b, b.reports);
    assert forall g :: g in w.seen <==> Some(g) in placed;
    hide Steps, PlacedIn, WithScanned;
    assert forall g :: Some(g) in placed <==> g in (set file | file in placed && file.Some? :: file.value);
  }

  /** The sweep is exact.  A finding that a report of the batch was placed on, wherever its fingerprint moved it, is
      open again if it was fixed or unseen, keeps its status otherwise, and is not swept; any other becomes unseen
      exactly when it is a non-terminal defect of the
      source in the file of a placed report or of a scanned path, and is otherwise as it was; `resolved` is exactly
      the linked findings so moved for the first time, and `regressed` exactly the issues of reported findings that
      were fixed or unseen. */
  lemma SweepIsExact(files: map<Path, FileId>, pre: seq<Finding>, b: Batch, w: Work, resolved: set<(nat, IssueId)>)
    requires Steps(Start(files, pre), b, b.reports) == Ok(w)
    requires IsResolved(resolved, w.findings, b.source, SeenIn(w, b))
    ensures |pre| <= |w.findings|
    ensures var out, start := Sweep(w.findings, b.source, SeenIn(w, b)), Start(files, pre);
      && (forall k | 0 <= k < |out| && Reported(start, b, w.findings, k) ::
            && out[k] == w.findings[k]
            && if k < |pre| then SeenAgain(pre[k].status, out[k].status) else out[k].status.Open?)
      && (forall k | 0 <= k < |out| && !Reported(start, b, w.findings, k) ::
            k < |pre| && out[k] == if Unseen(pre[k], b, SweptFiles(start, b)) then pre[k].(status := UnseenInLatest)
              else pre[k])
      && (forall p: (nat, IssueId) :: p in resolved <==>
            && p.0 < |pre| && !Reported(start, b, w.findings, p.0) && Unseen(pre[p.0], b, SweptFiles(start, b))
            && pre[p.0].issue == Some(p.1) && !pre[p.0].status.UnseenInLatest?)
      && (forall x :: x in w.regressed <==>
            exists k :: 0 <= k < |pre| && Reported(start, b, w.findings, k) && pre[k].issue == Some(x)
              && (pre[k].status.Fixed? || pre[k].status.UnseenInLatest?))
  {
    SeenIsReported(files, pre, b, w);
    SweepFollowsSeen(files, pre, b, w, resolved);
    hide Steps, SweptFiles, Touched, Reported, Sweep, Sweeps, SeenIn, IsResolved;
    forall x ensures x in w.regressed <==>
      exists k :: 0 <= k < |pre| && Reported(Start(files, pre), b, w.findings, k) && pre[k].issue == Some(x)
        && (pre[k].status.Fixed? || pre[k].status.UnseenInLatest?)
    {
      if k: nat :| Regressed(pre, w.findings, w.seen, k, x) {
        assert Reported(Start(files, pre), b, w.findings, k);
      }
      if k: nat :| k < |pre| && Reported(Start(files, pre), b, w.findings, k) && pre[k].issue == Some(x)
                   && (pre[k].status.Fixed? || pre[k].status.UnseenInLatest?) {
        assert Regressed(pre, w.findings, w.seen, k, x);
      }
    }
  }

  /** The same in terms of what the window has seen. */
  lemma SweepFollowsSeen(files: map<Path, FileId>, pre: seq<Finding>, b: Batch, w: Work, resolved: set<(nat, IssueId)>)
    requires Steps(Start(files, pre), b, b.reports) == Ok(w)
    requires IsResolved(resolved, w.findings, b.source, SeenIn(w, b))
    ensures |pre| <= |w.findings|
    ensures var out, swept := Sweep(w.findings, b.source, SeenIn(w, b)), SeenIn(w, b).Keys;
      && (forall k: nat | Touched(w.findings, w.seen, k) ::
            && out[k] == w.findings[k]
            && if k < |pre| then SeenAgain(pre[k].status, out[k].status) else out[k].status.Open?)
      && (forall k | 0 <= k < |out| && !Touched(w.findings, w.seen, k) ::
            k < |pre| && out[k] == if Unseen(pre[k], b, swept) then pre[k].(status := UnseenInLatest) else pre[k])
      && (forall p: (nat, IssueId) :: p in resolved <==>
            && p.0 < |pre| && !Touched(w.findings, w.seen, p.0) && Unseen(pre[p.0], b, swept)
            && pre[p.0].issue == Some(p.1) && !pre[p.0].status.UnseenInLatest?)
      && (forall x :: x in w.regressed <==> exists k: nat :: Regressed(pre, w.findings, w.seen, k, x))
  {
    StartProgress(files, pre, b.source);
    StepsProgress(pre, Start(files, pre), b, b.reports);
    ScannedKeys(w.seen, w.files, b.scanned);
    var seen := SeenIn(w, b);
    forall k | 0 <= k < |w.findings|
      ensures Sweeps(w.findings[k], k, b.source, seen) <==>
        !Touched(w.findings, w.seen, k) && Unseen(w.findings[k], b, seen.Keys)
    {
    }
  }

  /** A batch whose scheme does not match sweeps nothing and resolves nothing. */
  lemma NoSweepNoResolve(b: Batch, w: Work, resolved: set<(nat, IssueId)>)
    requires !b.markUnseen && IsResolved(resolved, w.findings, b.source, SeenIn(w, b))
    ensures Sweep(w.findings, b.source, SeenIn(w, b)) == w.findings && resolved == {}
  {
    SweepsNothing(w.findings, b.source);
    forall p ensures p !in resolved {
    }
  }

  // -- What a touched finding holds --

  /** After a report is placed, the finding with its identity holds what the report says, where its file is; a new
      one is open, unlinked and seen once, an old one keeps its issue and counts one more sighting. */
  lemma PlacedHoldsReport(w: Work, b: Batch, r: Report, file: FileId) returns (k: nat)
    ensures var w1 := PlaceFinding(w, b, r, file);
      && k < |w1.findings| && Lookup(w1.findings, ReportIdentity(b.source, r, file)) == Some(k)
      && w1.findings[k].content == r.content.(
            suggestion := if |r.content.suggestion| <= 10000 then r.content.suggestion
                          else r.content.suggestion[..10000] + "\n[truncated]")
      && w1.findings[k].file == file && w1.findings[k].line == r.line
      && (k < |w.findings| ==>
            && w1.findings[k].issue == w.findings[k].issue && w1.findings[k].seenCount == w.findings[k].seenCount + 1
            && w1.findings[k].runId == if w.findings[k].runId == "" then b.runId else w.findings[k].runId)
      && (k == |w.findings| ==>
            && w1.findings[k].status.Open? && w1.findings[k].issue.None? && w1.findings[k].seenCount == 1
            && w1.findings[k].runId == b.runId)
  {
    var id := ReportIdentity(b.source, r, file);
    var found := Lookup(w.findings, id);
    k := if found.Some? then found.value else |w.findings|;
    FirstIsFound(w.findings, PlaceFinding(w, b, r, file).findings, id, k);
  }

  /** A report goes to the finding with its fingerprint in the source, whatever the file; without a fingerprint to
      the one without one at the same place, where no line and line -1 are the same. */
  lemma IdentityMeans(source: string, r: Report, file: FileId, f: Finding)
    ensures IdentityOf(f) == ReportIdentity(source, r, file) <==>
      && f.source == source && f.fingerprint == r.fingerprint
      && (r.fingerprint == "" ==>
            && f.file == file && f.rule == r.rule
            && (f.line == r.line || (f.line in {None, Some(-1)} && r.line in {None, Some(-1)})))
  {
  }

  /** A report adds one to one counter, its id to the new ones if it made a finding, and to the unchanged ones if the
      finding was there, neither fixed nor unseen, with this file, line and content. */
  lemma PlacedCounts(w: Work, b: Batch, r: Report, file: FileId, k: nat)
    requires Lookup(PlaceFinding(w, b, r, file).findings, ReportIdentity(b.source, r, file)) == Some(k)
    ensures var w1 := PlaceFinding(w, b, r, file);
      var there := k < |w.findings|;
      && (there <==> Lookup(w.findings, ReportIdentity(b.source, r, file)) == Some(k))
      && w1.tally == w.tally.(
            created := w.tally.created + if there then 0 else 1,
            updated := w.tally.updated + if there then 1 else 0,
            newIds := w.tally.newIds + (if there then [] else [k]),
            replayed := w1.tally.replayed)
      && w1.tally.replayed == w.tally.replayed +
           (if there && w.findings[k].status in {Open, Acknowledged, FalsePositive} && w.findings[k].file == file
               && w.findings[k].line == r.line && w.findings[k].content == w1.findings[k].content
            then [k] else [])
  {
    var id := ReportIdentity(b.source, r, file);
    var found := Lookup(w.findings, id);
    FirstIsFound(w.findings, PlaceFinding(w, b, r, file).findings, id,
      if found.Some? then found.value else |w.findings|);
  }

  lemma FirstIsFound(fs: seq<Finding>, fs': seq<Finding>, id: Identity, k: nat)
    requires k < |fs'| && k <= |fs| <= |fs'| && IdentityOf(fs'[k]) == id
    requires forall j | 0 <= j < k :: fs'[j] == fs[j]
    requires Lookup(fs, id) == if k < |fs| then Some(k) else None
    ensures Lookup(fs', id) == Some(k)
  {
    FirstIsFoundFrom(fs, fs', id, k, 0);
  }

  lemma {:induction false} FirstIsFoundFrom(fs: seq<Finding>, fs': seq<Finding>, id: Identity, k: nat, from: nat)
    requires from <= k < |fs'| && k <= |fs| <= |fs'| && IdentityOf(fs'[k]) == id
    requires forall j | 0 <= j < k :: fs'[j] == fs[j]
    requires LookupFrom(fs, id, from) == if k < |fs| then Some(k) else None
    ensures LookupFrom(fs', id, from) == Some(k)
    decreases k - from
  {
    if from < k {
      FirstIsFoundFrom(fs, fs', id, k, from + 1);
    }
  }

  /** A report leaves every finding with another identity alone. */
  lemma PlacedLeavesOthers(w: Work, b: Batch, r: Report, file: FileId, k: nat)
    requires k < |w.findings| && IdentityOf(w.findings[k]) != ReportIdentity(b.source, r, file)
    ensures k < |PlaceFinding(w, b, r, file).findings| && PlaceFinding(w, b, r, file).findings[k] == w.findings[k]
  {
  }

  /** The counters: a batch appended exactly as many findings as it reports created, with the ids it reports as
      new; what it reports as already present was there before and had not regressed. */
  ghost predicate Tallied(pre: seq<Finding>, w: Work)
  {
    && |pre| + w.tally.created == |w.findings| && |w.tally.newIds| == w.tally.created
    && (forall i | 0 <= i < |w.tally.newIds| :: w.tally.newIds[i] == |pre| + i)
    && (forall i | 0 <= i < |w.tally.replayed| :: w.tally.replayed[i] < |w.findings|)
    && |w.tally.replayed| <= w.tally.updated
  }

  lemma {:induction false} StepsTally(pre: seq<Finding>, w: Work, b: Batch, reports: seq<Report>)
    requires Tallied(pre, w)
    ensures Steps(w, b, reports).Ok? ==> Tallied(pre, Steps(w, b, reports).value)
    decreases reports
  {
    hide PlaceFile, IdentityOf, ReportIdentity, StoredContent;
    if reports != [] && Step(w, b, reports[0]).Ok? {
      StepsTally(pre, Step(w, b, reports[0]).value, b, reports[1..]);
    }
  }

  lemma IngestTallies(before: Work, b: Batch, after: Work, resolved: set<(nat, IssueId)>)
    requires CleanRun(before, b, Committed, after, resolved)
    ensures Tallied(before.findings, after)
  {
    StepsTally(before.findings, Start(before.files, before.findings), b, b.reports);
  }

  /** The file counters: as many created as paths were added, and every other placed file updated, each once. */
  ghost predicate FilesTallied(files: map<Path, FileId>, w: Work, placed: set<FileId>)
  {
    && files.Keys <= w.files.Keys && |w.files.Keys| == |files.Keys| + w.tally.filesCreated
    && w.counted == placed && placed <= w.files.Values
    && w.tally.filesCreated + w.tally.filesUpdated == |placed|
  }

  lemma InsertedFile(files: map<Path, FileId>, path: Path, id: FileId)
    requires path !in files
    ensures files.Keys <= files[path := id].Keys && files.Values <= files[path := id].Values
    ensures id in files[path := id].Values && |files[path := id].Keys| == |files.Keys| + 1
  {
    var after := files[path := id];
    assert after.Keys == files.Keys + {path};
    assert path in after && after[path] == id;
    forall v | v in files.Values ensures v in after.Values {
      var q :| q in files && files[q] == v;
      assert q in after && after[q] == v;
    }
  }

  lemma PlacedFile(files: map<Path, FileId>, resolutions: Registry, path: Path)
    requires PlaceFile(files, resolutions, path).Ok?
    ensures var p := PlaceFile(files, resolutions, path).value;
      && files.Keys <= p.files.Keys && files.Values <= p.files.Values && p.id in p.files.Values
      && |p.files.Keys| == |files.Keys| + (if p.inserted then 1 else 0)
      && (p.inserted ==> p.id !in files.Values)
  {
    var p := PlaceFile(files, resolutions, path).value;
    if p.inserted {
      var r := if path in resolutions.before then resolutions.before[path] else resolutions.inside[path];
      assert r.canonical !in files && p == Placed(files[r.canonical := r.id], r.id, true);
      InsertedFile(files, r.canonical, r.id);
      hide PlaceFile;
    }
  }

  lemma CountTallies(files: map<Path, FileId>, w: Work, placed: set<FileId>, resolutions: Registry, path: Path)
    requires FilesTallied(files, w, placed) && PlaceFile(w.files, resolutions, path).Ok?
    ensures var p := PlaceFile(w.files, resolutions, path).value;
      FilesTallied(files, CountFile(w, p), placed + {p.id})
  {
    PlacedFile(w.files, resolutions, path);
    var p := PlaceFile(w.files, resolutions, path).value;
    assert p.id in placed ==> placed + {p.id} == placed;
  }

  ghost function FilesOf(placed: seq<Option<FileId>>): set<FileId>
  {
    set file | file in placed && file.Some? :: file.value
  }

  lemma {:induction false} StepsTallyFiles(files: map<Path, FileId>, w: Work, placed: set<FileId>, b: Batch,
      reports: seq<Report>)
    requires FilesTallied(files, w, placed) && Steps(w, b, reports).Ok?
    ensures FilesTallied(files, Steps(w, b, reports).value, placed + FilesOf(PlacedIn(w, b, reports)))
    decreases reports
  {
    hide FilesTallied, PlaceFile, CountFile, PlaceFinding;
    if reports == [] {
      assert placed + FilesOf([]) == placed;
    } else {
      var r, rest := reports[0], reports[1..];
      var next := if r.path in b.skipped then placed else placed + {PlaceFile(w.files, b.resolutions, r.path).value.id};
      StepTalliesFile(files, w, placed, b, r);
      PlacedNext(w, b, reports);
      StepsTallyFiles(files, Step(w, b, r).value, next, b, rest);
      assert next + FilesOf(PlacedIn(Step(w, b, r).value, b, rest)) == placed + FilesOf(PlacedIn(w, b, reports));
    }
  }

  lemma PlacedNext(w: Work, b: Batch, reports: seq<Report>)
    requires Steps(w, b, reports).Ok? && reports != []
    ensures Step(w, b, reports[0]).Ok?
    ensures var r := reports[0];
      FilesOf(PlacedIn(w, b, reports))
      == (if r.path in b.skipped then {} else {PlaceFile(w.files, b.resolutions, r.path).value.id})
         + FilesOf(PlacedIn(Step(w, b, r).value, b, reports[1..]))
  {
    var all, later := PlacedIn(w, b, reports), PlacedIn(Step(w, b, reports[0]).value, b, reports[1..]);
    assert all == [all[0]] + later;
    hide PlacedIn, Steps, Step, PlaceFile;
    assert forall x :: x in all <==> x == all[0] || x in later;
  }

  lemma StepTalliesFile(files: map<Path, FileId>, w: Work, placed: set<FileId>, b: Batch, r: Report)
    requires FilesTallied(files, w, placed) && Step(w, b, r).Ok?
    ensures FilesTallied(files, Step(w, b, r).value,
      if r.path in b.skipped then placed else placed + {PlaceFile(w.files, b.resolutions, r.path).value.id})
  {
    if r.path !in b.skipped {
      CountTallies(files, w, placed, b.resolutions, r.path);
      hide PlaceFile, CountFile;
    }
  }

  /** A committed ingest counts a file created for every path it added and an updated one for every other file a
      report was placed in, each file once however many reports it has. */
  lemma FilesAreCountedOnce(before: Work, b: Batch, after: Work, resolved: set<(nat, IssueId)>)
    requires CleanRun(before, b, Committed, after, resolved)
    ensures before.files.Keys <= after.files.Keys
    ensures after.tally.filesCreated == |after.files.Keys| - |before.files.Keys|
    ensures after.tally.filesCreated + after.tally.filesUpdated
         == |FilesOf(PlacedIn(Start(before.files, before.findings), b, b.reports))|
  {
    var start := Start(before.files, before.findings);
    assert FilesTallied(before.files, start, {});
    hide Steps, PlacedIn, FilesOf, Sweep, IsResolved, SeenIn, Start;
    StepsTallyFiles(before.files, start, {}, b, b.reports);
    assert {} + FilesOf(PlacedIn(start, b, b.reports)) == FilesOf(PlacedIn(start, b, b.reports));
  }

  // ---------------------------------------------------------------------------------------
  // Identities and replay
  // ---------------------------------------------------------------------------------------

  /** No two findings of a source share a fingerprint, and no two without one share a site. */
  ghost predicate Unique(fs: seq<Finding>)
  {
    forall i, j | 0 <= i < j < |fs| :: IdentityOf(fs[i]) != IdentityOf(fs[j])
  }

  ghost predicate KeepsIdentities(fs: seq<Finding>, fs': seq<Finding>)
  {
    |fs| <= |fs'| && forall k | 0 <= k < |fs| :: IdentityOf(fs'[k]) == IdentityOf(fs[k])
  }

  lemma PlaceKeepsIdentities(w: Work, b: Batch, r: Report, file: FileId)
    ensures var w1 := PlaceFinding(w, b, r, file);
      && KeepsIdentities(w.findings, w1.findings)
      && (Unique(w.findings) ==> Unique(w1.findings))
      && Lookup(w1.findings, ReportIdentity(b.source, r, file)).Some?
  {
    var w1 := PlaceFinding(w, b, r, file);
    var id := ReportIdentity(b.source, r, file);
    var found := Lookup(w.findings, id);
    var k := if found.Some? then found.value else |w.findings|;
    assert IdentityOf(w1.findings[k]) == id;
    assert KeepsIdentities(w.findings, w1.findings);
  }

  lemma {:induction false} StepsKeepIdentities(w: Work, b: Batch, reports: seq<Report>)
    ensures Steps(w, b, reports).Ok? ==>
      var w1 := Steps(w, b, reports).value;
      KeepsIdentities(w.findings, w1.findings) && (Unique(w.findings) ==> Unique(w1.findings))
    decreases reports
  {
    hide PlaceFinding, PlaceFile, IdentityOf, Unique;
    if reports != [] && Step(w, b, reports[0]).Ok? {
      var r := reports[0];
      if r.path !in b.skipped {
        var p := PlaceFile(w.files, b.resolutions, r.path).value;
        PlaceKeepsIdentities(CountFile(w, p), b, r, p.id);
      }
      StepsKeepIdentities(Step(w, b, r).value, b, reports[1..]);
    }
  }

  lemma SweepKeepsIdentities(fs: seq<Finding>, source: string, seen: Seen)
    ensures KeepsIdentities(fs, Sweep(fs, source, seen)) && (Unique(fs) ==> Unique(Sweep(fs, source, seen)))
  {
  }

  /** Every ingest keeps both identities unique. */
  lemma IngestKeepsUnique(before: Work, b: Batch, r: Reply, after: Work, resolved: set<(nat, IssueId)>)
    requires Unique(before.findings) && CleanRun(before, b, r, after, resolved)
    ensures Unique(after.findings) && KeepsIdentities(before.findings, after.findings)
  {
    StepsKeepIdentities(Start(before.files, before.findings), b, b.reports);
    var w := Steps(Start(before.files, before.findings), b, b.reports);
    if w.Ok? {
      SweepKeepsIdentities(w.value.findings, b.source, SeenIn(w.value, b));
    }
  }

  // A registry that keeps paths as given.
  ghost predicate KeepsPaths(resolutions: Registry)
  {
    && (forall p | p in resolutions.before :: resolutions.before[p].canonical == p)
    && (forall p | p in resolutions.inside :: resolutions.inside[p].canonical == p)
  }

  /** A report whose file and finding are already there. */
  ghost predicate Covered(files: map<Path, FileId>, fs: seq<Finding>, b: Batch, r: Report)
  {
    r.path in b.skipped ||
    var p := PlaceFile(files, b.resolutions, r.path);
    p.Ok? && p.value.files == files && !p.value.inserted && HasIdentity(fs, ReportIdentity(b.source, r, p.value.id))
  }

  ghost predicate HasIdentity(fs: seq<Finding>, id: Identity)
  {
    exists k :: 0 <= k < |fs| && IdentityOf(fs[k]) == id
  }

  lemma IdentityStays(fs: seq<Finding>, fs': seq<Finding>, id: Identity)
    requires KeepsIdentities(fs, fs') && HasIdentity(fs, id)
    ensures HasIdentity(fs', id)
  {
    var k :| 0 <= k < |fs| && IdentityOf(fs[k]) == id;
    assert IdentityOf(fs'[k]) == id;
  }

  lemma FileStays(files: map<Path, FileId>, resolutions: Registry, path: Path, other: Path)
    requires KeepsPaths(resolutions)
    requires PlaceFile(files, resolutions, path).Ok? && PlaceFile(files, resolutions, other).Ok?
    requires var p := PlaceFile(files, resolutions, path).value; p.files == files && !p.inserted
    ensures PlaceFile(PlaceFile(files, resolutions, other).value.files, resolutions, path)
         == Ok(Placed(PlaceFile(files, resolutions, other).value.files, PlaceFile(files, resolutions, path).value.id,
           false))
  {
    var files' := PlaceFile(files, resolutions, other).value.files;
    if files' != files && path !in files {
      var id := if path in resolutions.before then resolutions.before[path].id else resolutions.inside[path].id;
      assert id in files.Values;
      var q :| q in files && files[q] == id;
      assert files'[q] == id;
    }
  }

  /** A file placed once is found again where it was put. */
  lemma PlacedIsFound(files: map<Path, FileId>, resolutions: Registry, path: Path)
    requires KeepsPaths(resolutions) && PlaceFile(files, resolutions, path).Ok?
    ensures var p := PlaceFile(files, resolutions, path).value;
      PlaceFile(p.files, resolutions, path) == Ok(Placed(p.files, p.id, false))
  {
  }

  lemma StepCovers(w: Work, b: Batch, r: Report, x: Report)
    requires KeepsPaths(b.resolutions) && Step(w, b, r).Ok?
    ensures var w1 := Step(w, b, r).value;
      Covered(w1.files, w1.findings, b, r)
        && (Covered(w.files, w.findings, b, x) ==> Covered(w1.files, w1.findings, b, x))
  {
    if r.path !in b.skipped {
      var p := PlaceFile(w.files, b.resolutions, r.path).value;
      var c := CountFile(w, p);
      var w1 := PlaceFinding(c, b, r, p.id);
      PlaceKeepsIdentities(c, b, r, p.id);
      PlacedIsFound(w.files, b.resolutions, r.path);
      if Covered(w.files, w.findings, b, x) && x.path !in b.skipped {
        FileStays(w.files, b.resolutions, x.path, r.path);
        IdentityStays(w.findings, w1.findings,
          ReportIdentity(b.source, x, PlaceFile(w.files, b.resolutions, x.path).value.id));
      }
    }
  }

  lemma {:induction false} StepsCover(w: Work, b: Batch, reports: seq<Report>, x: Report)
    requires KeepsPaths(b.resolutions) && Steps(w, b, reports).Ok?
    requires x in reports || Covered(w.files, w.findings, b, x)
    ensures Covered(Steps(w, b, reports).value.files, Steps(w, b, reports).value.findings, b, x)
    decreases reports
  {
    hide Covered, Step;
    if reports != [] {
      StepCovers(w, b, reports[0], x);
      StepsCover(Step(w, b, reports[0]).value, b, reports[1..], x);
    }
  }

  /** Covered reports create nothing. */
  lemma {:induction false} CoveredCreatesNothing(w: Work, b: Batch, reports: seq<Report>)
    requires forall x | x in reports :: Covered(w.files, w.findings, b, x)
    ensures Steps(w, b, reports).Ok?
    ensures var w1 := Steps(w, b, reports).value;
      && w1.files == w.files && |w1.findings| == |w.findings| && KeepsIdentities(w.findings, w1.findings)
      && w1.tally.created == w.tally.created && w1.tally.newIds == w.tally.newIds
      && w1.tally.filesCreated == w.tally.filesCreated
    decreases reports
  {
    if reports != [] {
      var r := reports[0];
      assert r in reports;
      var w1 := Step(w, b, r).value;
      CoveredStep(w, b, r);
      forall x | x in reports[1..] ensures Covered(w1.files, w1.findings, b, x) {
        assert Covered(w.files, w.findings, b, x);
        CoverStays(w.files, w.findings, w1.findings, b, x);
      }
      CoveredCreatesNothing(w1, b, reports[1..]);
    }
  }

  lemma CoverStays(files: map<Path, FileId>, fs: seq<Finding>, fs': seq<Finding>, b: Batch, x: Report)
    requires Covered(files, fs, b, x) && KeepsIdentities(fs, fs')
    ensures Covered(files, fs', b, x)
  {
    if x.path !in b.skipped {
      IdentityStays(fs, fs', ReportIdentity(b.source, x, PlaceFile(files, b.resolutions, x.path).value.id));
    }
  }

  lemma CoveredStep(w: Work, b: Batch, r: Report)
    requires Covered(w.files, w.findings, b, r)
    ensures Step(w, b, r).Ok?
    ensures var w1 := Step(w, b, r).value;
      && w1.files == w.files && |w1.findings| == |w.findings| && KeepsIdentities(w.findings, w1.findings)
      && w1.tally.created == w.tally.created && w1.tally.newIds == w.tally.newIds
      && w1.tally.filesCreated == w.tally.filesCreated
  {
    if r.path !in b.skipped {
      var p := PlaceFile(w.files, b.resolutions, r.path).value;
      PlaceKeepsIdentities(CountFile(w, p), b, r, p.id);
    }
  }

  /** Replay stability: ingesting a batch again succeeds, creates no file and no finding and leaves every identity
      as it was. */
  lemma ReplayCreatesNothing(before: Work, b: Batch, after: Work, resolved: set<(nat, IssueId)>)
    requires KeepsPaths(b.resolutions) && CleanRun(before, b, Committed, after, resolved)
    ensures var again := Steps(Start(after.files, after.findings), b, b.reports);
      && again.Ok? && again.value.files == after.files && |again.value.findings| == |after.findings|
      && KeepsIdentities(after.findings, again.value.findings)
      && again.value.tally.created == 0 && again.value.tally.newIds == [] && again.value.tally.filesCreated == 0
  {
    var w := Steps(Start(before.files, before.findings), b, b.reports).value;
    SweepKeepsIdentities(w.findings, b.source, SeenIn(w, b));
    forall x | x in b.reports ensures Covered(after.files, after.findings, b, x) {
      StepsCover(Start(before.files, before.findings), b, b.reports, x);
      CoverStays(w.files, w.findings, after.findings, b, x);
    }
    CoveredCreatesNothing(Start(after.files, after.findings), b, b.reports);
  }

  // ---------------------------------------------------------------------------------------
  // Accounting
  // ---------------------------------------------------------------------------------------

  /** The kind policy; `*` accepts everything. */
  predicate Accepted(r: Report, accept: set<string>)
  {
    "*" in accept || KindOf(r.content.metadata) in accept
  }

  /** Request positions whose kind is rejected, among the first `n`. */
  function RejectedAt(requests: seq<Report>, accept: set<string>, n: nat): seq<nat>
    requires n <= |requests|
  {
    if n == 0 then []
    else RejectedAt(requests, accept, n - 1) + if Accepted(requests[n - 1], accept) then [] else [n - 1]
  }

  /** Request positions accepted by kind but dropped with their over-cap path. */
  function OverCapAt(requests: seq<Report>, accept: set<string>, skipped: set<Path>, n: nat): seq<nat>
    requires n <= |requests|
  {
    if n == 0 then []
    else
      OverCapAt(requests, accept, skipped, n - 1)
      + if Accepted(requests[n - 1], accept) && requests[n - 1].path in skipped then [n - 1] else []
  }

  function Survivors(requests: seq<Report>, accept: set<string>, n: nat): seq<Report>
    requires n <= |requests|
  {
    if n == 0 then []
    else Survivors(requests, accept, n - 1) + if Accepted(requests[n - 1], accept) then [requests[n - 1]] else []
  }

  function FailedAt(requests: seq<Report>, accept: set<string>, skipped: set<Path>): seq<nat>
  {
    RejectedAt(requests, accept, |requests|) + OverCapAt(requests, accept, skipped, |requests|)
  }

  function Ingestible(reports: seq<Report>, skipped: set<Path>): nat
  {
    if reports == [] then 0
    else Ingestible(reports[..|reports| - 1], skipped) + if reports[|reports| - 1].path in skipped then 0 else 1
  }

  lemma IngestibleNext(reports: seq<Report>, r: Report, skipped: set<Path>)
    ensures Ingestible(reports + [r], skipped) == Ingestible(reports, skipped) + if r.path in skipped then 0 else 1
  {
    assert (reports + [r])[..|reports|] == reports;
  }

  lemma {:induction false} IngestibleSplits(reports: seq<Report>, skipped: set<Path>)
    requires reports != []
    ensures Ingestible(reports, skipped) ==
      (if reports[0].path in skipped then 0 else 1) + Ingestible(reports[1..], skipped)
  {
    if |reports| > 1 {
      IngestibleSplits(reports[..|reports| - 1], skipped);
      assert reports[..|reports| - 1][1..] == reports[1..][..|reports| - 2];
    }
  }

  lemma {:induction false} StepsCountReports(w: Work, b: Batch, reports: seq<Report>)
    requires Steps(w, b, reports).Ok?
    ensures var t := Steps(w, b, reports).value.tally;
      t.created + t.updated == w.tally.created + w.tally.updated + Ingestible(reports, b.skipped)
    decreases reports
  {
    if reports != [] {
      IngestibleSplits(reports, b.skipped);
      StepsCountReports(Step(w, b, reports[0]).value, b, reports[1..]);
    }
  }

  ghost predicate RisingBelow(s: seq<nat>, n: nat)
  {
    (forall i | 0 <= i < |s| :: s[i] < n) && forall i, j | 0 <= i < j < |s| :: s[i] < s[j]
  }

  /** The kind of a report, where one that is missing or unknown is a defect, is accepted, or every kind is. */
  ghost predicate KindAccepted(r: Report, accept: set<string>)
  {
    var kind := r.content.metadata.kind;
    var known := kind.Some? && kind.value in {"fact", "classification", "metric", "suggestion"};
    "*" in accept || (if known then kind.value in accept else "defect" in accept)
  }

  lemma AcceptedMeans(r: Report, accept: set<string>)
    ensures Accepted(r, accept) <==> KindAccepted(r, accept)
  {
  }

  lemma {:induction false} RejectedIff(requests: seq<Report>, accept: set<string>, n: nat, k: nat)
    requires k < n <= |requests|
    ensures k in RejectedAt(requests, accept, n) <==> !KindAccepted(requests[k], accept)
  {
    AcceptedMeans(requests[n - 1], accept);
    hide Accepted, KindAccepted;
    if k < n - 1 {
      RejectedIff(requests, accept, n - 1, k);
    } else {
      RejectedRises(requests, accept, n - 1);
      assert k !in RejectedAt(requests, accept, n - 1);
    }
  }

  lemma {:induction false} RejectedRises(requests: seq<Report>, accept: set<string>, n: nat)
    requires n <= |requests|
    ensures RisingBelow(RejectedAt(requests, accept, n), n)
  {
    hide Accepted;
    if n > 0 {
      RejectedRises(requests, accept, n - 1);
    }
  }

  lemma {:induction false} OverCapIff(requests: seq<Report>, accept: set<string>, skipped: set<Path>, n: nat, k: nat)
    requires k < n <= |requests|
    ensures k in OverCapAt(requests, accept, skipped, n)
       <==> KindAccepted(requests[k], accept) && requests[k].path in skipped
  {
    AcceptedMeans(requests[n - 1], accept);
    hide Accepted, KindAccepted;
    if k < n - 1 {
      OverCapIff(requests, accept, skipped, n - 1, k);
    } else {
      OverCapRises(requests, accept, skipped, n - 1);
      assert k !in OverCapAt(requests, accept, skipped, n - 1);
    }
  }

  lemma {:induction false} OverCapRises(requests: seq<Report>, accept: set<string>, skipped: set<Path>, n: nat)
    requires n <= |requests|
    ensures RisingBelow(OverCapAt(requests, accept, skipped, n), n)
  {
    hide Accepted;
    if n > 0 {
      OverCapRises(requests, accept, skipped, n - 1);
    }
  }

  lemma {:induction false} PositionsSplit(requests: seq<Report>, accept: set<string>, skipped: set<Path>, n: nat)
    requires n <= |requests|
    ensures |RejectedAt(requests, accept, n)| + |OverCapAt(requests, accept, skipped, n)|
            + Ingestible(Survivors(requests, accept, n), skipped) == n
  {
    if n > 0 {
      PositionsSplit(requests, accept, skipped, n - 1);
      var init := Survivors(requests, accept, n - 1);
      var r := requests[n - 1];
      IngestibleNext(init, r, skipped);
      hide Ingestible, KindOf;
      assert Survivors(requests, accept, n) == if Accepted(r, accept) then init + [r] else init;
    }
  }

  /** On success every request position is accounted for once: applied, or in `failed` at its own position, which is
      there exactly if its kind is not accepted or its path was skipped. */
  lemma EveryRequestIsAccountedFor(before: Work, b: Batch, requests: seq<Report>, accept: set<string>, after: Work,
      resolved: set<(nat, IssueId)>)
    requires b.reports == Survivors(requests, accept, |requests|) && CleanRun(before, b, Committed, after, resolved)
    ensures var failed := FailedAt(requests, accept, b.skipped);
      && |requests| == after.tally.created + after.tally.updated + |failed|
      && (forall k | k in failed :: k < |requests|)
      && (forall k | 0 <= k < |requests| ::
            k in failed <==> !KindAccepted(requests[k], accept) || requests[k].path in b.skipped)
      && forall i, j | 0 <= i < j < |failed| :: failed[i] != failed[j]
  {
    StepsCountReports(Start(before.files, before.findings), b, b.reports);
    PositionsSplit(requests, accept, b.skipped, |requests|);
    RejectedRises(requests, accept, |requests|);
    OverCapRises(requests, accept, b.skipped, |requests|);
    var rejected, over := RejectedAt(requests, accept, |requests|), OverCapAt(requests, accept, b.skipped, |requests|);
    hide Steps, IsResolved, Ingestible, RejectedAt, OverCapAt, Survivors, Accepted, KindAccepted;
    forall k | 0 <= k < |requests|
      ensures k in rejected <==> !KindAccepted(requests[k], accept)
      ensures k in over <==> KindAccepted(requests[k], accept) && requests[k].path in b.skipped
    {
      RejectedIff(requests, accept, |requests|, k);
      OverCapIff(requests, accept, b.skipped, |requests|, k);
    }
    forall i, j | 0 <= i < |rejected| && 0 <= j < |over| ensures rejected[i] != over[j] {
      assert rejected[i] in rejected && over[j] in over && rejected[i] < |requests|;
    }
  }
}
