/**
 Moving a legacy `.filigree/` store forward to `.weft/filigree/`.

 `Disk` is the part of the project root the migration reads and writes, `Advance` performs one
 file operation of `migrate_store_to_weft`, and `Apply` interleaves those operations with crashes,
 re-runs and writers.  `ProjectRoot` is the object whose files are updated in place.
 */
module StoreMigration {
  import opened Wrappers

  // Committed database writes in commit order.
  type Rows = seq<nat>
  type Content = string

  datatype Meta = ConfigJson | InstallVersion | ContextMd | FederationToken | Scanners | Templates

  const META_FILES: seq<Meta> := [ConfigJson, InstallVersion, ContextMd, FederationToken]
  const META_DIRS: seq<Meta> := [Scanners, Templates]
  const ALL_META: seq<Meta> := META_FILES + META_DIRS

  predicate IsMetaFile(n: Meta) { n in META_FILES }

  datatype DbTarget = LegacyTarget | WeftTarget | CustomTarget
  datatype ConfFile = NoConf | CorruptConf | Conf(db: DbTarget)
  datatype Side = Legacy | Weft
  datatype Sidecar = Wal | Shm

  datatype Disk = Disk(
    conf: ConfFile,
    legacyDir: bool,
    weftDir: bool,
    legacyDb: Option<Rows>,
    weftDb: Option<Rows>,
    legacyMeta: map<Meta, Content>,
    weftMeta: map<Meta, Content>,
    sidecars: set<Sidecar>,
    breadcrumb: bool)

  // What the surroundings do to one migration attempt.
  datatype Env = Env(weftSymlinked: bool, daemonServing: bool, writerActive: bool, tokenStuck: bool)

  const CALM := Env(false, false, false, false)

  datatype Outcome = NoOp(store: Side) | Migrated | UnsafePath | Busy | ConfUnreadable

  /** The store directory, in the absence of an operator override. */
  function ResolveStoreDir(d: Disk): Side
  {
    var keepLegacy := d.legacyDb.Some? && (d.weftDb.None? || d.conf.NoConf?);
    if d.weftDir && !keepLegacy then Weft
    else if d.legacyDir then Legacy
    else Weft
  }

  /** The database a writer opens: the conf's `db` field, or the resolved store's database. */
  function CanonicalSide(d: Disk): Side
  {
    match d.conf
    case Conf(LegacyTarget) => Legacy
    case Conf(WeftTarget) => Weft
    case _ => ResolveStoreDir(d)
  }

  function CanonicalRows(d: Disk): Option<Rows>
  {
    if CanonicalSide(d) == Weft then d.weftDb else d.legacyDb
  }

  // ---------------------------------------------------------------------------------------
  // One migration attempt, operation by operation
  // ---------------------------------------------------------------------------------------

  datatype Decision = Stop(outcome: Outcome) | Go

  /** The guards in front of the first file operation, in the order they are tried. */
  function Decide(d: Disk, env: Env): Decision
  {
    var confUnknown := !d.conf.Conf?;
    if !d.legacyDir then Stop(NoOp(ResolveStoreDir(d)))
    else if d.weftDb.Some? && d.conf == Conf(WeftTarget) then Stop(NoOp(Weft))
    else if confUnknown && d.weftDb.Some? && d.legacyDb.None? then Stop(NoOp(Weft))
    else if d.conf == Conf(CustomTarget) then Stop(NoOp(ResolveStoreDir(d)))
    else if d.legacyDb.None? && d.weftDb.None? then Stop(NoOp(ResolveStoreDir(d)))
    else if env.weftSymlinked then Stop(UnsafePath)
    else if env.daemonServing then Stop(Busy)
    else if d.conf.CorruptConf? then Stop(ConfUnreadable)
    else Go
  }

  datatype Pc =
    | AcquireFence
    | MakeDir
    | PublishDb
    | JudgeCanonical
    | CopyMeta(next: nat, legacyCanonical: bool)
    | RewriteConf
    | Unlink(nth: nat)
    | DropToken
    | LeaveBreadcrumb

  datatype Progress = At(pc: Pc) | Ended(outcome: Outcome)

  function Rank(pc: Pc): nat
  {
    match pc
    case AcquireFence => 20
    case MakeDir => 19
    case PublishDb => 18
    case JudgeCanonical => 17
    case CopyMeta(i, _) => if i < 6 then 16 - i else 10
    case RewriteConf => 9
    case Unlink(k) => if k < 3 then 6 - k else 3
    case DropToken => 2
    case LeaveBreadcrumb => 1
  }

  /** Copy one metadata entry: files are refreshed while legacy is canonical, all else is copy-once. */
  function CopyOne(d: Disk, n: Meta, legacyCanonical: bool): Disk
  {
    if n in d.legacyMeta && (n !in d.weftMeta || (IsMetaFile(n) && legacyCanonical))
    then d.(weftMeta := d.weftMeta[n := d.legacyMeta[n]])
    else d
  }

  function CopyRest(d: Disk, i: nat, legacyCanonical: bool): Disk
    decreases 6 - i
  {
    if i >= 6 then d else CopyRest(CopyOne(d, ALL_META[i], legacyCanonical), i + 1, legacyCanonical)
  }

  function UnlinkOne(d: Disk, nth: nat): Disk
  {
    if nth == 0 then d.(legacyDb := None)
    else if nth == 1 then d.(sidecars := d.sidecars - {Wal})
    else d.(sidecars := d.sidecars - {Shm})
  }

  function Advance(d: Disk, pc: Pc, env: Env): (r: (Disk, Progress))
    ensures r.1.At? ==> Rank(r.1.pc) < Rank(pc)
  {
    match pc
    case AcquireFence =>
      if d.legacyDb.None? then (d, At(JudgeCanonical))
      else if env.writerActive then (d, Ended(Busy))
      else (d, At(MakeDir))
    case MakeDir => (d.(weftDir := true), At(PublishDb))
    case PublishDb => (d.(weftDb := d.legacyDb), At(JudgeCanonical))
    case JudgeCanonical => (d, At(CopyMeta(0, ResolveStoreDir(d) == Legacy)))
    case CopyMeta(i, legacyCanonical) =>
      if i < 6 then
        (CopyOne(d, ALL_META[i], legacyCanonical),
         At(if i + 1 < 6 then CopyMeta(i + 1, legacyCanonical) else RewriteConf))
      else (d, At(RewriteConf))
    case RewriteConf =>
      (if d.conf.Conf? then d.(conf := Conf(WeftTarget)) else d, At(Unlink(0)))
    case Unlink(k) =>
      if k < 3 then (UnlinkOne(d, k), At(if k + 1 < 3 then Unlink(k + 1) else DropToken))
      else (d, At(DropToken))
    case DropToken =>
      (if env.tokenStuck then d else d.(legacyMeta := d.legacyMeta - {FederationToken}), At(LeaveBreadcrumb))
    case LeaveBreadcrumb => (d.(breadcrumb := true), Ended(Migrated))
  }

  /** The rest of an attempt that nothing interrupts. */
  function Finish(d: Disk, pc: Pc, env: Env): (Disk, Outcome)
    decreases Rank(pc)
  {
    var (d', p) := Advance(d, pc, env);
    match p
    case At(pc') => Finish(d', pc', env)
    case Ended(o) => (d', o)
  }

  function Migrate(d: Disk, env: Env): (Disk, Outcome)
  {
    match Decide(d, env)
    case Stop(o) => (d, o)
    case Go => Finish(d, AcquireFence, env)
  }

  lemma FinishSnapshot(d: Disk, env: Env)
    requires !(d.legacyDb.Some? && env.writerActive)
    ensures var d' := if d.legacyDb.Some? then d.(weftDir := true, weftDb := d.legacyDb) else d;
      Finish(d, AcquireFence, env) == Finish(d', CopyMeta(0, ResolveStoreDir(d') == Legacy), env)
  {
    if d.legacyDb.Some? {
      var d1 := d.(weftDir := true);
      assert Finish(d, AcquireFence, env) == Finish(d, MakeDir, env) == Finish(d1, PublishDb, env);
      assert Finish(d1, PublishDb, env) == Finish(d1.(weftDb := d.legacyDb), JudgeCanonical, env);
    }
  }

  lemma {:induction false} FinishCopies(d: Disk, i: nat, lc: bool, env: Env)
    requires i < 6
    ensures Finish(d, CopyMeta(i, lc), env) == Finish(CopyRest(d, i, lc), RewriteConf, env)
    decreases 6 - i
  {
    var d1 := CopyOne(d, ALL_META[i], lc);
    if i + 1 < 6 {
      assert Finish(d, CopyMeta(i, lc), env) == Finish(d1, CopyMeta(i + 1, lc), env);
      FinishCopies(d1, i + 1, lc, env);
    } else {
      assert Finish(d, CopyMeta(i, lc), env) == Finish(d1, RewriteConf, env);
      assert CopyRest(d1, 6, lc) == d1;
    }
  }

  lemma FinishBusy(d: Disk, env: Env)
    requires d.legacyDb.Some? && env.writerActive
    ensures Finish(d, AcquireFence, env) == (d, Busy)
  {
  }

  lemma FinishConf(d: Disk, env: Env)
    ensures Finish(d, RewriteConf, env)
         == Finish(if d.conf.Conf? then d.(conf := Conf(WeftTarget)) else d, Unlink(0), env)
  {
  }

  lemma FinishTail(d: Disk, env: Env)
    ensures Finish(d, DropToken, env)
         == (d.(legacyMeta := if env.tokenStuck then d.legacyMeta else d.legacyMeta - {FederationToken},
                breadcrumb := true), Migrated)
  {
    var d' := if env.tokenStuck then d else d.(legacyMeta := d.legacyMeta - {FederationToken});
    assert Finish(d, DropToken, env) == Finish(d', LeaveBreadcrumb, env);
  }

  // ---------------------------------------------------------------------------------------
  // The files updated in place
  // ---------------------------------------------------------------------------------------

  class ProjectRoot {
    var conf: ConfFile
    var legacyDir: bool
    var weftDir: bool
    var legacyDb: Option<Rows>
    var weftDb: Option<Rows>
    var legacyMeta: map<Meta, Content>
    var weftMeta: map<Meta, Content>
    var sidecars: set<Sidecar>
    var breadcrumb: bool

    function View(): Disk
      reads this
    {
      Disk(conf, legacyDir, weftDir, legacyDb, weftDb, legacyMeta, weftMeta, sidecars, breadcrumb)
    }

    constructor (d: Disk)
      ensures View() == d
    {
      conf, legacyDir, weftDir := d.conf, d.legacyDir, d.weftDir;
      legacyDb, weftDb := d.legacyDb, d.weftDb;
      legacyMeta, weftMeta := d.legacyMeta, d.weftMeta;
      sidecars, breadcrumb := d.sidecars, d.breadcrumb;
    }

    /** Take the write fence on the legacy database and snapshot it, unless a writer is active. */
    method SnapshotUnderFence(env: Env) returns (fenced: bool)
      modifies this`weftDir, this`weftDb
      ensures fenced <==> !(legacyDb.Some? && env.writerActive)
      ensures !fenced ==> View() == old(View())
      ensures fenced ==>
        Finish(old(View()), AcquireFence, env) == Finish(View(), CopyMeta(0, ResolveStoreDir(View()) == Legacy), env)
    {
      ghost var before := View();
      if legacyDb.Some? {
        if env.writerActive {
          return false;
        }
        weftDir := true;
        weftDb := legacyDb;
      }
      FinishSnapshot(before, env);
      return true;
    }

    method CopyMetadataFiles(legacyCanonical: bool)
      modifies this`weftMeta
      ensures CopyRest(old(View()), 0, legacyCanonical) == CopyRest(View(), 4, legacyCanonical)
    {
      for i := 0 to |META_FILES|
        invariant CopyRest(old(View()), 0, legacyCanonical) == CopyRest(View(), i, legacyCanonical)
      {
        var n := META_FILES[i];
        assert ALL_META[i] == n;
        ghost var before := View();
        if n in legacyMeta && (legacyCanonical || n !in weftMeta) {
          weftMeta := weftMeta[n := legacyMeta[n]];
        }
        assert View() == CopyOne(before, n, legacyCanonical);
      }
    }

    method CopyMetadataDirs(ghost legacyCanonical: bool)
      modifies this`weftMeta
      ensures View() == CopyRest(old(View()), 4, legacyCanonical)
    {
      for i := 0 to |META_DIRS|
        invariant CopyRest(old(View()), 4, legacyCanonical) == CopyRest(View(), 4 + i, legacyCanonical)
      {
        var n := META_DIRS[i];
        assert ALL_META[4 + i] == n && !IsMetaFile(n);
        ghost var before := View();
        if n in legacyMeta && n !in weftMeta {
          weftMeta := weftMeta[n := legacyMeta[n]];
        }
        assert View() == CopyOne(before, n, legacyCanonical);
      }
    }

    method RemoveLegacyDb(ghost env: Env)
      modifies this`legacyDb, this`sidecars
      ensures Finish(old(View()), Unlink(0), env) == Finish(View(), DropToken, env)
    {
      for k := 0 to 3
        invariant Finish(old(View()), Unlink(0), env) == Finish(View(), Unlink(k), env)
      {
        ghost var before := View();
        if k == 0 {
          legacyDb := None;
        } else {
          sidecars := sidecars - {if k == 1 then Wal else Shm};
        }
        assert View() == UnlinkOne(before, k);
      }
    }

    method CommitConf(ghost env: Env)
      modifies this`conf
      ensures Finish(old(View()), RewriteConf, env) == Finish(View(), Unlink(0), env)
    {
      FinishConf(View(), env);
      if conf.Conf? && conf != Conf(WeftTarget) {
        conf := Conf(WeftTarget);
      }
    }

    method LeaveHusk(env: Env)
      modifies this`legacyMeta, this`breadcrumb
      ensures Finish(old(View()), DropToken, env) == (View(), Migrated)
    {
      FinishTail(View(), env);
      if !env.tokenStuck {
        legacyMeta := legacyMeta - {FederationToken};
      }
      breadcrumb := true;
    }

    /** An attempt that nothing interrupts performs exactly the operations of `Migrate`. */
    method MigrateStoreToWeft(env: Env) returns (outcome: Outcome)
      modifies this
      ensures (View(), outcome) == Migrate(old(View()), env)
    {
      match Decide(View(), env) {
        case Stop(o) => return o;
        case Go =>
      }
      ghost var before := View();
      var fenced := SnapshotUnderFence(env);
      if !fenced {
        FinishBusy(before, env);
        return Busy;
      }
      FinishCopies(View(), 0, ResolveStoreDir(View()) == Legacy, env);
      var legacyCanonical := ResolveStoreDir(View()) == Legacy;
      CopyMetadataFiles(legacyCanonical);
      CopyMetadataDirs(legacyCanonical);
      CommitConf(env);
      RemoveLegacyDb(env);
      LeaveHusk(env);
      return Migrated;
    }
  }

  // ---------------------------------------------------------------------------------------
  // Runs: attempts, crashes, re-runs and writers
  // ---------------------------------------------------------------------------------------

  datatype Run = Run(pc: Pc, env: Env)

  // `committed` is every database write ever acknowledged, `latest` the last metadata write per
  // name, and `pinned` the last one made while `.weft/filigree` was the resolved store.  `late` are the
  // entries last written to the legacy store after the current attempt had passed them, unless the copy in weft
  // happens to hold what was written.
  datatype Sys = Sys(
    disk: Disk,
    run: Option<Run>,
    committed: Rows,
    latest: map<Meta, Content>,
    pinned: map<Meta, Content>,
    late: set<Meta>)

  datatype Action = Start(env: Env) | Tick | Crash | WriteRow(row: nat) | WriteMeta(name: Meta, content: Content)

  /** Database writers run whenever the write fence is not held; metadata files are not fenced. */
  predicate FenceOpen(s: Sys)
  {
    s.run.None? || s.run.value.pc.AcquireFence? || s.run.value.pc.DropToken? || s.run.value.pc.LeaveBreadcrumb?
  }

  predicate Holds(meta: map<Meta, Content>, n: Meta, c: Content)
  {
    n in meta && meta[n] == c
  }

  /** The attempt has done its copying of the entry. */
  predicate Passed(run: Option<Run>, n: Meta)
  {
    run.Some? &&
    match run.value.pc
    case CopyMeta(i, _) => i <= 6 && n in ALL_META[..i]
    case RewriteConf => true
    case Unlink(_) => true
    case DropToken => true
    case LeaveBreadcrumb => true
    case _ => false
  }

  function AppendRow(db: Option<Rows>, row: nat): Option<Rows>
  {
    Some(if db.Some? then db.value + [row] else [row])
  }

  function Apply(s: Sys, a: Action): Sys
  {
    match a
    case Start(env) =>
      if s.run.None? && Decide(s.disk, env).Go? then s.(run := Some(Run(AcquireFence, env)), late := {}) else s
    case Tick =>
      if s.run.None? then s
      else
        var (d, p) := Advance(s.disk, s.run.value.pc, s.run.value.env);
        s.(disk := d, run := if p.At? then Some(s.run.value.(pc := p.pc)) else None)
    case Crash => s.(run := None)
    case WriteRow(row) =>
      if !FenceOpen(s) then s
      else if CanonicalSide(s.disk) == Weft then
        s.(disk := s.disk.(weftDb := AppendRow(s.disk.weftDb, row)), committed := s.committed + [row])
      else
        s.(disk := s.disk.(legacyDb := AppendRow(s.disk.legacyDb, row)), committed := s.committed + [row])
    case WriteMeta(n, c) =>
      if ResolveStoreDir(s.disk) == Weft then
        s.(disk := s.disk.(weftMeta := s.disk.weftMeta[n := c]), latest := s.latest[n := c], pinned := s.pinned[n := c],
           late := s.late - {n})
      else
        s.(disk := s.disk.(legacyMeta := s.disk.legacyMeta[n := c]), latest := s.latest[n := c],
           late := if !Passed(s.run, n) then s.late else if Holds(s.disk.weftMeta, n, c) then s.late - {n}
             else s.late + {n})
  }

  /** A database write is committed unless it falls between taking the fence and removing the legacy database. */
  lemma WriteCommitsIff(s: Sys, row: nat)
    ensures Apply(s, WriteRow(row)).committed == s.committed + [row] <==>
      s.run.None? || s.run.value.pc in {AcquireFence, DropToken, LeaveBreadcrumb}
    ensures Apply(s, WriteRow(row)).committed in {s.committed, s.committed + [row]}
  {
    assert s.committed + [row] != s.committed;
  }

  function ApplyAll(s: Sys, actions: seq<Action>): Sys
  {
    if actions == [] then s else Apply(ApplyAll(s, actions[..|actions| - 1]), actions[|actions| - 1])
  }

  /** A legacy layout no migration has touched; an empty `.weft/filigree/` husk may exist. */
  predicate Vanilla(d: Disk)
  {
    && d.legacyDir && d.legacyDb.Some? && d.weftDb.None? && d.weftMeta == map[]
    && (d.conf == NoConf || d.conf == Conf(LegacyTarget))
  }

  function Init(d: Disk): Sys
    requires Vanilla(d)
  {
    Sys(d, None, d.legacyDb.value, d.legacyMeta, map[], {})
  }

  predicate Reachable(d0: Disk, actions: seq<Action>, s: Sys)
  {
    Vanilla(d0) && s == ApplyAll(Init(d0), actions)
  }

  /** The commit point has passed: the conf names weft, or a confless install has no legacy database. */
  predicate Committed(d: Disk)
  {
    d.conf == Conf(WeftTarget) || (d.conf.NoConf? && d.legacyDb.None?)
  }

  // ---------------------------------------------------------------------------------------
  // The whole-run invariant
  // ---------------------------------------------------------------------------------------

  ghost predicate Copied(d: Disk, upTo: nat, refreshed: bool, late: set<Meta>)
  {
    forall j | 0 <= j < upTo && j < 6 && ALL_META[j] in d.legacyMeta && ALL_META[j] !in late ::
      && ALL_META[j] in d.weftMeta
      && (refreshed && j < 4 ==> d.weftMeta[ALL_META[j]] == d.legacyMeta[ALL_META[j]])
  }

  ghost predicate Agrees(part: map<Meta, Content>, whole: map<Meta, Content>)
  {
    forall n | n in part :: n in whole && whole[n] == part[n]
  }

  ghost predicate StoreInv(s: Sys)
  {
    var d := s.disk;
    && d.legacyDir
    && d.conf in {NoConf, Conf(LegacyTarget), Conf(WeftTarget)}
    && (d.weftDb.Some? ==> d.weftDir)
    && (d.weftDb.None? ==> d.weftMeta == map[] && s.pinned == map[])
    && Agrees(s.pinned, d.weftMeta)
    && CanonicalRows(d) == Some(s.committed)
    && (d.conf == Conf(LegacyTarget) ==> d.legacyDb.Some? && s.latest == d.legacyMeta + d.weftMeta)
    && (d.conf == Conf(WeftTarget) ==> s.latest == d.weftMeta)
    && (d.conf == NoConf && d.legacyDb.Some? ==> s.latest == d.legacyMeta && s.pinned == map[])
    && (d.conf.Conf? ==> s.late == {})
    && (Committed(d) ==>
          && d.weftDb.Some?
          && d.legacyMeta.Keys - s.late <= d.weftMeta.Keys
          && s.latest.Keys - s.late <= d.weftMeta.Keys
          && forall n | n in s.latest && IsMetaFile(n) && n !in s.late :: d.weftMeta[n] == s.latest[n])
  }

  ghost predicate RunInv(d: Disk, pc: Pc, late: set<Meta>)
  {
    match pc
    case AcquireFence => d.legacyDb.Some? && d.conf != Conf(WeftTarget)
    case MakeDir => d.legacyDb.Some? && d.conf != Conf(WeftTarget)
    case PublishDb => d.legacyDb.Some? && d.conf != Conf(WeftTarget) && d.weftDir
    case JudgeCanonical => d.legacyDb.Some? && d.weftDb == d.legacyDb && d.conf != Conf(WeftTarget)
    case CopyMeta(i, lc) =>
      && i < 6
      && d.legacyDb.Some? && d.weftDb == d.legacyDb && d.conf != Conf(WeftTarget)
      && lc == d.conf.NoConf? && Copied(d, i, lc, late)
    case RewriteConf =>
      && d.legacyDb.Some? && d.weftDb == d.legacyDb && d.conf != Conf(WeftTarget)
      && Copied(d, 6, d.conf.NoConf?, late)
    case Unlink(k) =>
      && k < 3
      && d.conf != Conf(LegacyTarget)
      && (if k == 0 then d.weftDb == d.legacyDb && d.legacyDb.Some? && Copied(d, 6, d.conf.NoConf?, late)
        else d.legacyDb.None?)
    case DropToken => d.conf != Conf(LegacyTarget) && d.legacyDb.None?
    case LeaveBreadcrumb => d.conf != Conf(LegacyTarget) && d.legacyDb.None?
  }

  ghost predicate Inv(s: Sys)
  {
    StoreInv(s) && (s.run.Some? ==> RunInv(s.disk, s.run.value.pc, s.late))
  }

  lemma MetaListed(n: Meta)
    ensures exists j :: 0 <= j < 6 && ALL_META[j] == n && (IsMetaFile(n) <==> j < 4)
  {
    match n
    case ConfigJson => assert ALL_META[0] == n;
    case InstallVersion => assert ALL_META[1] == n;
    case ContextMd => assert ALL_META[2] == n;
    case FederationToken => assert ALL_META[3] == n;
    case Scanners => assert ALL_META[4] == n;
    case Templates => assert ALL_META[5] == n;
  }

  lemma CopiedMeans(d: Disk, refreshed: bool, late: set<Meta>)
    requires Copied(d, 6, refreshed, late)
    ensures d.legacyMeta.Keys - late <= d.weftMeta.Keys
    ensures refreshed ==> forall n | n in d.legacyMeta && IsMetaFile(n) && n !in late ::
      d.weftMeta[n] == d.legacyMeta[n]
  {
    forall n | n in d.legacyMeta && n !in late
      ensures n in d.weftMeta && (refreshed && IsMetaFile(n) ==> d.weftMeta[n] == d.legacyMeta[n])
    {
      MetaListed(n);
      var j :| 0 <= j < 6 && ALL_META[j] == n && (IsMetaFile(n) <==> j < 4);
    }
  }

  lemma CopyStepKeepsInv(s: Sys, i: nat, lc: bool)
    requires StoreInv(s) && RunInv(s.disk, CopyMeta(i, lc), s.late)
    ensures StoreInv(s.(disk := CopyOne(s.disk, ALL_META[i], lc)))
    ensures Copied(CopyOne(s.disk, ALL_META[i], lc), i + 1, lc, s.late)
  {
    var d, d' := s.disk, CopyOne(s.disk, ALL_META[i], lc);
    assert IsMetaFile(ALL_META[i]) <==> i < 4;
    forall j | 0 <= j < i + 1 && j < 6 && ALL_META[j] in d'.legacyMeta && ALL_META[j] !in s.late
      ensures ALL_META[j] in d'.weftMeta
      ensures lc && j < 4 ==> d'.weftMeta[ALL_META[j]] == d'.legacyMeta[ALL_META[j]]
    {
    }
    if d.conf == Conf(LegacyTarget) {
      assert d.legacyMeta + d.weftMeta == d'.legacyMeta + d'.weftMeta;
    }
  }

  lemma SnapshotStepsKeepInv(s: Sys)
    requires Inv(s) && s.run.Some?
    requires s.run.value.pc.AcquireFence? || s.run.value.pc.MakeDir? || s.run.value.pc.PublishDb?
      || s.run.value.pc.JudgeCanonical?
    ensures Inv(Apply(s, Tick))
  {
  }

  lemma RewriteConfKeepsInv(s: Sys)
    requires Inv(s) && s.run.Some? && s.run.value.pc.RewriteConf?
    ensures Inv(Apply(s, Tick))
  {
    var d := s.disk;
    CopiedMeans(d, d.conf.NoConf?, s.late);
    assert d.conf.Conf? ==> d.legacyMeta + d.weftMeta == d.weftMeta;
  }

  lemma UnlinkKeepsInv(s: Sys)
    requires Inv(s) && s.run.Some? && s.run.value.pc.Unlink?
    ensures Inv(Apply(s, Tick))
  {
    if s.run.value.pc.nth == 0 {
      CopiedMeans(s.disk, s.disk.conf.NoConf?, s.late);
    }
  }

  lemma TailStepsKeepInv(s: Sys)
    requires Inv(s) && s.run.Some? && (s.run.value.pc.DropToken? || s.run.value.pc.LeaveBreadcrumb?)
    ensures Inv(Apply(s, Tick))
  {
  }

  lemma TickKeepsInv(s: Sys)
    requires Inv(s) && s.run.Some?
    ensures Inv(Apply(s, Tick))
  {
    match s.run.value.pc
    case CopyMeta(i, lc) => CopyStepKeepsInv(s, i, lc);
    case RewriteConf => RewriteConfKeepsInv(s);
    case Unlink(_) => UnlinkKeepsInv(s);
    case DropToken => TailStepsKeepInv(s);
    case LeaveBreadcrumb => TailStepsKeepInv(s);
    case _ => SnapshotStepsKeepInv(s);
  }

  lemma WriteRowKeepsStoreInv(s: Sys, row: nat)
    requires Inv(s) && FenceOpen(s)
    ensures StoreInv(Apply(s, WriteRow(row)))
  {
    var s' := Apply(s, WriteRow(row));
    assert CanonicalSide(s'.disk) == CanonicalSide(s.disk);
    assert Committed(s'.disk) == Committed(s.disk);
    assert s'.disk.weftDb.None? == s.disk.weftDb.None?;
  }

  lemma WriteRowKeepsInv(s: Sys, row: nat)
    requires Inv(s)
    ensures Inv(Apply(s, WriteRow(row)))
  {
    if FenceOpen(s) {
      WriteRowKeepsStoreInv(s, row);
    }
  }

  lemma WriteWeftMetaBeforeCommit(s: Sys, n: Meta, c: Content)
    requires StoreInv(s) && ResolveStoreDir(s.disk) == Weft && !Committed(s.disk)
    ensures StoreInv(s.(disk := s.disk.(weftMeta := s.disk.weftMeta[n := c]), latest := s.latest[n := c],
      pinned := s.pinned[n := c], late := s.late - {n}))
  {
    var d := s.disk;
    assert d.conf == Conf(LegacyTarget) && d.weftDb.Some?;
    assert d.legacyMeta + d.weftMeta[n := c] == (d.legacyMeta + d.weftMeta)[n := c];
  }

  lemma WriteWeftMetaAfterCommit(s: Sys, n: Meta, c: Content)
    requires StoreInv(s) && ResolveStoreDir(s.disk) == Weft && Committed(s.disk)
    ensures StoreInv(s.(disk := s.disk.(weftMeta := s.disk.weftMeta[n := c]), latest := s.latest[n := c],
      pinned := s.pinned[n := c], late := s.late - {n}))
  {
  }

  lemma WriteWeftMetaKeepsInv(s: Sys, n: Meta, c: Content)
    requires Inv(s) && ResolveStoreDir(s.disk) == Weft
    ensures Inv(Apply(s, WriteMeta(n, c)))
  {
    if Committed(s.disk) {
      WriteWeftMetaAfterCommit(s, n, c);
    } else {
      WriteWeftMetaBeforeCommit(s, n, c);
    }
  }

  lemma WriteLegacyMetaKeepsStoreInv(s: Sys, n: Meta, c: Content)
    requires StoreInv(s) && ResolveStoreDir(s.disk) == Legacy && (s.disk.conf.Conf? ==> !Passed(s.run, n))
    ensures StoreInv(Apply(s, WriteMeta(n, c)))
  {
    var d, d' := s.disk, Apply(s, WriteMeta(n, c)).disk;
    assert !Committed(d) && !Committed(d');
    hide Committed, Passed, Holds;
    if d.conf == Conf(LegacyTarget) {
      assert d.weftMeta == map[] && d.legacyMeta + d.weftMeta == d.legacyMeta;
      assert d'.legacyMeta + d'.weftMeta == d'.legacyMeta;
    }
  }

  /** Either the entry had not been passed, or it is late now or already copied with this content. */
  lemma WriteKeepsCopied(d: Disk, i: nat, refreshed: bool, late: set<Meta>, late': set<Meta>, n: Meta, c: Content)
    requires i <= 6 && Copied(d, i, refreshed, late)
    requires n in ALL_META[..i] ==> n in late' || Holds(d.weftMeta, n, c)
    requires late - {n} <= late'
    ensures Copied(d.(legacyMeta := d.legacyMeta[n := c]), i, refreshed, late')
  {
    forall j | 0 <= j < i ensures ALL_META[j] in ALL_META[..i] {
      assert ALL_META[..i][j] == ALL_META[j];
    }
  }

  lemma WriteLegacyMetaKeepsInv(s: Sys, n: Meta, c: Content)
    requires Inv(s) && ResolveStoreDir(s.disk) == Legacy
    ensures Inv(Apply(s, WriteMeta(n, c)))
  {
    var d, s' := s.disk, Apply(s, WriteMeta(n, c));
    WriteLegacyMetaKeepsStoreInv(s, n, c);
    if s.run.Some? {
      assert ALL_META[..6] == ALL_META;
      hide StoreInv, Copied;
      MetaListed(n);
      match s.run.value.pc
      case CopyMeta(i, lc) => WriteKeepsCopied(d, i, lc, s.late, s'.late, n, c);
      case RewriteConf => WriteKeepsCopied(d, 6, d.conf.NoConf?, s.late, s'.late, n, c);
      case Unlink(k) => if k == 0 { WriteKeepsCopied(d, 6, d.conf.NoConf?, s.late, s'.late, n, c); }
      case _ =>
    }
  }

  lemma StepKeepsInv(s: Sys, a: Action)
    requires Inv(s)
    ensures Inv(Apply(s, a))
  {
    match a
    case Tick => if s.run.Some? { TickKeepsInv(s); }
    case WriteRow(row) => WriteRowKeepsInv(s, row);
    case WriteMeta(n, c) =>
      if ResolveStoreDir(s.disk) == Weft { WriteWeftMetaKeepsInv(s, n, c); } else { WriteLegacyMetaKeepsInv(s, n, c); }
    case _ =>
  }

  lemma {:induction false} ReachableInv(d0: Disk, actions: seq<Action>)
    requires Vanilla(d0)
    ensures Inv(ApplyAll(Init(d0), actions))
  {
    if actions == [] {
      assert d0.legacyMeta + d0.weftMeta == d0.legacyMeta;
    } else {
      ReachableInv(d0, actions[..|actions| - 1]);
      StepKeepsInv(ApplyAll(Init(d0), actions[..|actions| - 1]), actions[|actions| - 1]);
    }
  }

  // -- Late entries are outdated --

  /** From the start of an attempt on, and after the commit, a late entry is one the attempt has passed and whose
      latest content weft does not hold. */
  ghost predicate LateInv(s: Sys)
  {
    s.run.Some? || Committed(s.disk) ==>
      forall n | n in s.late :: Passed(s.run, n) || s.run.None?
  }

  ghost predicate LateIsOutdated(s: Sys)
  {
    s.run.Some? || Committed(s.disk) ==>
      forall n | n in s.late :: n in s.latest && !Holds(s.disk.weftMeta, n, s.latest[n])
  }

  lemma CopyKeepsLate(s: Sys)
    requires LateInv(s) && LateIsOutdated(s) && s.run.Some? && s.run.value.pc.CopyMeta? && s.run.value.pc.next < 6
    ensures LateInv(Apply(s, Tick)) && LateIsOutdated(Apply(s, Tick))
  {
    var i := s.run.value.pc.next;
    forall n | n in s.late ensures n != ALL_META[i] && n in ALL_META[..i + 1] {
      var j :| 0 <= j < i && ALL_META[..i][j] == n;
      MetaListedOnce(j, i);
      assert ALL_META[..i + 1][j] == n;
    }
  }

  lemma TickKeepsLate(s: Sys)
    requires Inv(s) && LateInv(s) && LateIsOutdated(s) && s.run.Some?
    ensures LateInv(Apply(s, Tick)) && LateIsOutdated(Apply(s, Tick))
  {
    if s.run.value.pc.CopyMeta? {
      CopyKeepsLate(s);
    }
  }

  lemma StepKeepsLate(s: Sys, a: Action)
    requires Inv(s) && LateInv(s) && LateIsOutdated(s)
    ensures LateInv(Apply(s, a)) && LateIsOutdated(Apply(s, a))
  {
    if a.Tick? && s.run.Some? {
      TickKeepsLate(s);
    }
  }

  lemma {:induction false} ReachableLate(d0: Disk, actions: seq<Action>)
    requires Vanilla(d0)
    ensures LateInv(ApplyAll(Init(d0), actions)) && LateIsOutdated(ApplyAll(Init(d0), actions))
  {
    if actions != [] {
      ReachableInv(d0, actions[..|actions| - 1]);
      ReachableLate(d0, actions[..|actions| - 1]);
      StepKeepsLate(ApplyAll(Init(d0), actions[..|actions| - 1]), actions[|actions| - 1]);
    }
  }

  // ---------------------------------------------------------------------------------------
  // Main results
  // ---------------------------------------------------------------------------------------

  /** At every moment of every run the canonical database holds every committed write, in order. */
  lemma NoWriteIsLost(d0: Disk, actions: seq<Action>, s: Sys)
    requires Reachable(d0, actions, s)
    ensures CanonicalRows(s.disk) == Some(s.committed)
  {
    ReachableInv(d0, actions);
  }

  /** No metadata the resolved weft store was given is ever overwritten, and once the move is committed the weft
      store holds the latest content of a file, on a conf install also of a directory, exactly when the entry was
      not written late; late entries exist only on confless installs, and everything else is carried forward. */
  lemma MetadataIsCarriedForward(d0: Disk, actions: seq<Action>, s: Sys)
    requires Reachable(d0, actions, s)
    ensures forall n | n in s.pinned :: n in s.disk.weftMeta && s.disk.weftMeta[n] == s.pinned[n]
    ensures s.disk.conf.Conf? ==> s.late == {}
    ensures Committed(s.disk) ==>
      forall n | n in s.latest && (IsMetaFile(n) || s.disk.conf.Conf?) ::
        Holds(s.disk.weftMeta, n, s.latest[n]) <==> n !in s.late
    ensures Committed(s.disk) ==>
      forall n | n !in s.late && (n in s.latest || n in s.disk.legacyMeta) :: n in s.disk.weftMeta
  {
    ReachableInv(d0, actions);
    ReachableLate(d0, actions);
  }

  /** Before the commit a conf install may resolve to a weft store whose metadata is not copied yet:
      a reader finds the latest content of an entry exactly when the store is legacy or holds a copy. */
  lemma MetadataVisibleIff(d0: Disk, actions: seq<Action>, s: Sys, n: Meta)
    requires Reachable(d0, actions, s) && s.disk.conf == Conf(LegacyTarget) && n in s.latest
    ensures (var shown := if ResolveStoreDir(s.disk) == Weft then s.disk.weftMeta else s.disk.legacyMeta;
             n in shown && shown[n] == s.latest[n])
            <==> (s.disk.weftDb.None? || n in s.disk.weftMeta)
  {
    ReachableInv(d0, actions);
    assert s.disk.weftDb.None? ==> s.disk.legacyMeta + s.disk.weftMeta == s.disk.legacyMeta;
  }

  lemma FinishCommits(s: Sys)
    requires Inv(s) && s.run.Some? && !(s.run.value.pc.AcquireFence? && s.run.value.env.writerActive)
    ensures var (d, o) := Finish(s.disk, s.run.value.pc, s.run.value.env);
      && o == Migrated && Committed(d) && d.legacyDb.None? && d.breadcrumb
      && StoreInv(s.(disk := d, run := None))
    decreases Rank(s.run.value.pc)
  {
    TickKeepsInv(s);
    var s' := Apply(s, Tick);
    if s'.run.Some? {
      FinishCommits(s');
    }
  }

  /** From every state a crash can leave, one uninterrupted run makes weft canonical with every
      committed write, and any further run is a no-op that changes nothing. */
  lemma MigrationConverges(d0: Disk, actions: seq<Action>, s: Sys, later: Env)
    requires Reachable(d0, actions, s) && s.run.None?
    ensures var (d, o) := Migrate(s.disk, CALM);
      && (o == Migrated || (o == NoOp(Weft) && d == s.disk))
      && CanonicalSide(d) == Weft && ResolveStoreDir(d) == Weft
      && d.weftDb == Some(s.committed)
      && Migrate(d, later) == (d, NoOp(Weft))
  {
    ReachableInv(d0, actions);
    if Decide(s.disk, CALM).Go? {
      FinishCommits(Apply(s, Start(CALM)));
    }
  }

  /** A refused attempt leaves every file as it was. */
  lemma RefusalChangesNothing(d: Disk, env: Env)
    ensures Migrate(d, env).1 != Migrated ==> Migrate(d, env).0 == d
    ensures d.conf == CorruptConf ==> Migrate(d, env).0 == d
  {
    if Decide(d, env).Go? {
      if d.legacyDb.Some? && env.writerActive {
      } else {
        FinishMigrates(d, AcquireFence, env);
      }
    }
  }

  /** Nothing is there to move: no legacy directory, the move is complete, the operator keeps the database
      elsewhere, or there is no database yet. */
  predicate NothingToDo(d: Disk)
  {
    || !d.legacyDir
    || (d.weftDb.Some? && (d.conf == Conf(WeftTarget) || (d.legacyDb.None? && (d.conf.NoConf? || d.conf.CorruptConf?))))
    || d.conf == Conf(CustomTarget)
    || (d.legacyDb.None? && d.weftDb.None?)
  }

  /** When an attempt ends how; a relocated database in particular is left alone, whatever else is on the disk. */
  lemma OutcomeIff(d: Disk, env: Env)
    ensures var (d', o) := Migrate(d, env);
      && (o.NoOp? <==> NothingToDo(d))
      && (o == UnsafePath <==> !NothingToDo(d) && env.weftSymlinked)
      && (o == Busy <==>
            && !NothingToDo(d) && !env.weftSymlinked
            && (env.daemonServing || (d.conf != CorruptConf && d.legacyDb.Some? && env.writerActive)))
      && (o == ConfUnreadable <==> !NothingToDo(d) && !env.weftSymlinked && !env.daemonServing && d.conf == CorruptConf)
      && (o == Migrated <==>
            && d.legacyDir && d.conf != CorruptConf && d.conf != Conf(CustomTarget)
            && (d.legacyDb.Some? || d.weftDb.Some?)
            && !(d.weftDb.Some? && d.conf == Conf(WeftTarget))
            && !(d.weftDb.Some? && d.conf == NoConf && d.legacyDb.None?)
            && !env.weftSymlinked && !env.daemonServing && !(d.legacyDb.Some? && env.writerActive))
      && (d.conf == Conf(CustomTarget) ==> d' == d)
  {
    if Decide(d, env).Go? {
      if d.legacyDb.Some? && env.writerActive {
        FinishBusy(d, env);
      } else {
        FinishMigrates(d, AcquireFence, env);
        assert d.conf != Conf(CustomTarget) && d.conf != CorruptConf;
      }
    }
  }

  /** The store a no-op names: weft exactly when weft is there and the legacy database does not stand against it, or
      when there is no legacy directory. */
  lemma NoOpNames(d: Disk, env: Env)
    requires NothingToDo(d)
    ensures Migrate(d, env) == (d, NoOp(Weft)) || Migrate(d, env) == (d, NoOp(Legacy))
    ensures Migrate(d, env).1 == NoOp(Legacy) <==>
      && d.legacyDir
      && (d.weftDir ==> d.legacyDb.Some? && (d.weftDb.None? || d.conf == NoConf))
      && !(d.weftDb.Some? && (d.conf == Conf(WeftTarget) || (d.legacyDb.None? && !d.conf.Conf?)))
  {
  }

  lemma {:induction false} FinishMigrates(d: Disk, pc: Pc, env: Env)
    requires !(pc.AcquireFence? && d.legacyDb.Some? && env.writerActive)
    ensures Finish(d, pc, env).1 == Migrated
    decreases Rank(pc)
  {
    var (d', p) := Advance(d, pc, env);
    if p.At? {
      FinishMigrates(d', p.pc, env);
    }
  }

  // ---------------------------------------------------------------------------------------
  // What a completed attempt leaves behind
  // ---------------------------------------------------------------------------------------

  lemma {:induction false} TailLeavesHusk(d: Disk, env: Env)
    ensures Finish(d, RewriteConf, env) == (d.(
        conf := if d.conf.Conf? then Conf(WeftTarget) else d.conf,
        legacyDb := None,
        legacyMeta := if env.tokenStuck then d.legacyMeta else d.legacyMeta - {FederationToken},
        sidecars := {},
        breadcrumb := true), Migrated)
  {
    var d1 := if d.conf.Conf? then d.(conf := Conf(WeftTarget)) else d;
    FinishConf(d, env);
    var d2 := d1.(legacyDb := None);
    assert Finish(d1, Unlink(0), env) == Finish(d2, Unlink(1), env);
    var d3 := d2.(sidecars := d2.sidecars - {Wal});
    assert Finish(d2, Unlink(1), env) == Finish(d3, Unlink(2), env);
    var d4 := d3.(sidecars := d3.sidecars - {Shm});
    assert Finish(d3, Unlink(2), env) == Finish(d4, DropToken, env);
    forall x ensures x !in d4.sidecars {
      match x case Wal => case Shm =>
    }
    assert d4.sidecars == {};
    FinishTail(d4, env);
  }

  predicate TakesLegacy(d: Disk, n: Meta, legacyCanonical: bool)
  {
    n in d.legacyMeta && (n !in d.weftMeta || (IsMetaFile(n) && legacyCanonical))
  }

  lemma MetaListedOnce(i: nat, k: nat)
    requires i < 6 && k < 6
    ensures ALL_META[i] == ALL_META[k] <==> i == k
  {
  }

  lemma {:induction false} CopyRestEntry(d: Disk, i: nat, lc: bool, k: nat)
    requires k < 6 && i <= 6
    ensures var (d', n) := (CopyRest(d, i, lc), ALL_META[k]);
      && (n in d'.weftMeta <==> n in d.weftMeta || (i <= k && n in d.legacyMeta))
      && (n in d'.weftMeta ==>
            d'.weftMeta[n] == if i <= k && TakesLegacy(d, n, lc) then d.legacyMeta[n] else d.weftMeta[n])
      && d' == d.(weftMeta := d'.weftMeta)
    decreases 6 - i
  {
    if i < 6 {
      MetaListedOnce(i, k);
      CopyRestEntry(CopyOne(d, ALL_META[i], lc), i + 1, lc, k);
    }
  }

  lemma CopyRestWhole(d: Disk, lc: bool)
    ensures var d' := CopyRest(d, 0, lc);
      && d' == d.(weftMeta := d'.weftMeta)
      && d'.weftMeta.Keys == d.weftMeta.Keys + d.legacyMeta.Keys
      && forall n | n in d'.weftMeta ::
           d'.weftMeta[n] == if TakesLegacy(d, n, lc) then d.legacyMeta[n] else d.weftMeta[n]
  {
    var d' := CopyRest(d, 0, lc);
    CopyRestEntry(d, 0, lc, 0);
    forall n
      ensures n in d'.weftMeta <==> n in d.weftMeta.Keys + d.legacyMeta.Keys
      ensures n in d'.weftMeta ==> d'.weftMeta[n] == if TakesLegacy(d, n, lc) then d.legacyMeta[n] else d.weftMeta[n]
    {
      MetaListed(n);
      var k :| 0 <= k < 6 && ALL_META[k] == n;
      CopyRestEntry(d, 0, lc, k);
    }
  }

  /** The disk after the snapshot: what the metadata copies start from. */
  function Taken(d: Disk): Disk
  {
    if d.legacyDb.Some? then d.(weftDir := true, weftDb := d.legacyDb) else d
  }

  lemma MigrateInThreeParts(d: Disk, env: Env)
    requires Migrate(d, env).1 == Migrated && (d.weftDb.Some? ==> d.weftDir)
    ensures var lc := d.legacyDb.Some? && d.conf.NoConf?;
      Migrate(d, env) == Finish(CopyRest(Taken(d), 0, lc), RewriteConf, env)
  {
    FinishSnapshot(d, env);
    FinishCopies(Taken(d), 0, ResolveStoreDir(Taken(d)) == Legacy, env);
  }

  /** The whole disk a completed attempt leaves: what moved, what was removed and what stays. */
  lemma MigratedDisk(d: Disk, env: Env)
    requires Migrate(d, env).1 == Migrated && (d.weftDb.Some? ==> d.weftDir)
    ensures var d' := Migrate(d, env).0;
      var legacyCanonical := d.legacyDb.Some? && d.conf.NoConf?;
      && d'.weftDb == (if d.legacyDb.Some? then d.legacyDb else d.weftDb) && d'.legacyDb == None
      && d'.conf == (if d.conf.Conf? then Conf(WeftTarget) else d.conf)
      && d'.legacyDir == d.legacyDir && d'.sidecars == {} && d'.breadcrumb
      && d'.legacyMeta == (if env.tokenStuck then d.legacyMeta else d.legacyMeta - {FederationToken})
      && d'.weftMeta.Keys == d.weftMeta.Keys + d.legacyMeta.Keys
      && forall n | n in d'.weftMeta ::
           d'.weftMeta[n] == if TakesLegacy(d, n, legacyCanonical) then d.legacyMeta[n] else d.weftMeta[n]
  {
    var lc := d.legacyDb.Some? && d.conf.NoConf?;
    MigrateInThreeParts(d, env);
    CopyRestWhole(Taken(d), lc);
    TailLeavesHusk(CopyRest(Taken(d), 0, lc), env);
    assert forall n :: TakesLegacy(Taken(d), n, lc) == TakesLegacy(d, n, lc);
  }

  /** A run leaves weft with the legacy content of a metadata directory exactly when weft held no
      copy of it beforehand, or one that has not drifted. */
  lemma DirectoryIsFreshIff(d: Disk, n: Meta)
    requires n in META_DIRS && n in d.legacyMeta && Migrate(d, CALM).1 == Migrated && (d.weftDb.Some? ==> d.weftDir)
    ensures n in Migrate(d, CALM).0.weftMeta
    ensures Migrate(d, CALM).0.weftMeta[n] == d.legacyMeta[n]
      <==> (n !in d.weftMeta || d.weftMeta[n] == d.legacyMeta[n])
  {
    MigratedDisk(d, CALM);
  }

  /** What is left of the legacy store beside its metadata: the database, a sidecar or the dead token. */
  predicate Husk(d: Disk)
  {
    d.legacyDb.Some? || d.sidecars != {} || FederationToken in d.legacyMeta
  }

  /** Where an uninterrupted run converges, a legacy database, sidecar or token is still there exactly when an
      earlier attempt died after its commit and left one: every later run is then a no-op and removes nothing. */
  lemma HuskStaysIff(d0: Disk, actions: seq<Action>, s: Sys, env: Env)
    requires Reachable(d0, actions, s) && s.run.None?
    ensures Husk(Migrate(s.disk, CALM).0) <==> Committed(s.disk) && Husk(s.disk)
    ensures Committed(s.disk) ==> Migrate(s.disk, env).0 == s.disk
  {
    ReachableInv(d0, actions);
    if Decide(s.disk, CALM).Go? {
      FinishMigrates(s.disk, AcquireFence, CALM);
      MigratedDisk(s.disk, CALM);
    }
  }

  lemma ConfCommitted(d0: Disk) returns (actions: seq<Action>, s: Sys)
    requires Vanilla(d0) && d0.conf == Conf(LegacyTarget) && d0.legacyMeta == map[]
    ensures s == ApplyAll(Init(d0), actions)
    ensures s.disk == d0.(conf := Conf(WeftTarget), weftDir := true, weftDb := d0.legacyDb)
  {
    var s0 := Init(d0);
    var taken := d0.(weftDir := true, weftDb := d0.legacyDb);
    actions, s := Extend(s0, [], s0, Start(CALM));
    actions, s := Extend(s0, actions, s, Tick);
    actions, s := Extend(s0, actions, s, Tick);
    actions, s := Extend(s0, actions, s, Tick);
    actions, s := Extend(s0, actions, s, Tick);
    assert s == s0.(disk := taken, run := Some(Run(CopyMeta(0, false), CALM)));
    for i := 0 to 5
      invariant s == ApplyAll(s0, actions)
      invariant s == s0.(disk := taken, run := Some(Run(CopyMeta(i, false), CALM)))
    {
      actions, s := Extend(s0, actions, s, Tick);
    }
    actions, s := Extend(s0, actions, s, Tick);
    actions, s := Extend(s0, actions, s, Tick);
  }

  /** A conf install whose attempt dies right after the conf was rewritten keeps its legacy database for good. */
  lemma LegacyDatabaseCanStay() returns (d0: Disk, actions: seq<Action>, s: Sys)
    ensures Reachable(d0, actions, s) && s.run.None? && s.disk.legacyDb.Some?
    ensures Migrate(s.disk, CALM) == (s.disk, NoOp(Weft))
  {
    d0 := Disk(Conf(LegacyTarget), true, false, Some([]), None, map[], map[], {Wal}, false);
    actions, s := ConfCommitted(d0);
    actions, s := Extend(Init(d0), actions, s, Crash);
  }

  lemma ConflessSnapshotTaken(d0: Disk) returns (actions: seq<Action>, s: Sys)
    requires Vanilla(d0) && d0.conf == NoConf
    ensures s == ApplyAll(Init(d0), actions)
    ensures s == Init(d0).(disk := d0.(weftDir := true, weftDb := d0.legacyDb),
      run := Some(Run(CopyMeta(0, true), CALM)))
  {
    var s0 := Init(d0);
    actions, s := Extend(s0, [], s0, Start(CALM));
    assert s == s0.(run := Some(Run(AcquireFence, CALM)));
    actions, s := Extend(s0, actions, s, Tick);
    assert s == s0.(run := Some(Run(MakeDir, CALM)));
    actions, s := Extend(s0, actions, s, Tick);
    assert s == s0.(disk := d0.(weftDir := true), run := Some(Run(PublishDb, CALM)));
    actions, s := Extend(s0, actions, s, Tick);
    assert s == s0.(disk := d0.(weftDir := true, weftDb := d0.legacyDb), run := Some(Run(JudgeCanonical, CALM)));
    actions, s := Extend(s0, actions, s, Tick);
  }

  lemma InterruptedAfterScanners(d0: Disk) returns (actions: seq<Action>, s: Sys)
    requires Vanilla(d0) && d0.conf == NoConf && d0.legacyMeta.Keys == {Scanners}
    ensures s == ApplyAll(Init(d0), actions) && s.run.None?
    ensures s.disk == d0.(weftDir := true, weftDb := d0.legacyDb, weftMeta := d0.legacyMeta)
    ensures s.latest == d0.legacyMeta
  {
    actions, s := ConflessSnapshotTaken(d0);
    var taken := s;
    for i := 0 to 4
      invariant s == ApplyAll(Init(d0), actions)
      invariant s == taken.(run := Some(Run(CopyMeta(i, true), CALM)))
    {
      assert ALL_META[i] != Scanners;
      actions, s := Extend(Init(d0), actions, s, Tick);
    }
    actions, s := Extend(Init(d0), actions, s, Tick);
    assert ALL_META[4] == Scanners && map[][Scanners := d0.legacyMeta[Scanners]] == d0.legacyMeta;
    actions, s := Extend(Init(d0), actions, s, Crash);
  }

  /** A confless install whose `scanners/` is edited between an interrupted attempt and its resume
      is a reachable state, and it ends with the stale directory. */
  lemma StaleDirectoryIsReachable() returns (d0: Disk, actions: seq<Action>, s: Sys)
    ensures Reachable(d0, actions, s) && s.run.None?
    ensures Scanners in s.latest && s.latest[Scanners] == "new"
    ensures Scanners in Migrate(s.disk, CALM).0.weftMeta && Migrate(s.disk, CALM).0.weftMeta[Scanners] != "new"
  {
    d0 := Disk(NoConf, true, false, Some([]), None, map[Scanners := "old"], map[], {}, false);
    actions, s := InterruptedAfterScanners(d0);
    actions, s := Extend(Init(d0), actions, s, WriteMeta(Scanners, "new"));
    assert s.disk.legacyMeta[Scanners] == "new" && s.disk.weftMeta[Scanners] == "old";
    assert "new"[0] != "old"[0];
    FinishMigrates(s.disk, AcquireFence, CALM);
    DirectoryIsFreshIff(s.disk, Scanners);
  }

  /** A conf install in the middle of an attempt: the resolved store is weft, and an entry that was there before is
      not. */
  lemma MetadataCanBeInvisible() returns (d0: Disk, actions: seq<Action>, s: Sys)
    ensures Reachable(d0, actions, s) && s.disk.conf == Conf(LegacyTarget)
    ensures ConfigJson in s.latest && ResolveStoreDir(s.disk) == Weft && ConfigJson !in s.disk.weftMeta
  {
    d0 := Disk(Conf(LegacyTarget), true, false, Some([]), None, map[ConfigJson := "packs"], map[], {}, false);
    var s0 := Init(d0);
    actions, s := Extend(s0, [], s0, Start(CALM));
    actions, s := Extend(s0, actions, s, Tick);
    actions, s := Extend(s0, actions, s, Tick);
    actions, s := Extend(s0, actions, s, Tick);
    assert s.disk == d0.(weftDir := true, weftDb := Some([]));
  }

  lemma TokenCopied(d0: Disk) returns (actions: seq<Action>, s: Sys)
    requires Vanilla(d0) && d0.conf == NoConf && d0.legacyMeta.Keys == {FederationToken}
    ensures s == ApplyAll(Init(d0), actions)
    ensures s == Init(d0).(disk := d0.(weftDir := true, weftDb := d0.legacyDb, weftMeta := d0.legacyMeta),
                           run := Some(Run(CopyMeta(4, true), CALM)))
  {
    actions, s := ConflessSnapshotTaken(d0);
    var taken := s;
    for i := 0 to 3
      invariant s == ApplyAll(Init(d0), actions)
      invariant s == taken.(run := Some(Run(CopyMeta(i, true), CALM)))
    {
      assert ALL_META[i] != FederationToken;
      actions, s := Extend(Init(d0), actions, s, Tick);
    }
    actions, s := Extend(Init(d0), actions, s, Tick);
    assert ALL_META[3] == FederationToken && map[][FederationToken := d0.legacyMeta[FederationToken]] == d0.legacyMeta;
  }

  /** A confless install whose token is rotated right after the attempt copied it: the attempt ends with the old
      one. */
  lemma LateTokenIsLost() returns (d0: Disk, actions: seq<Action>, s: Sys)
    ensures Reachable(d0, actions, s) && Committed(s.disk) && s.late == {FederationToken}
    ensures FederationToken in s.latest && s.latest[FederationToken] == "new"
    ensures FederationToken in s.disk.weftMeta && s.disk.weftMeta[FederationToken] == "old"
  {
    d0 := Disk(NoConf, true, false, Some([]), None, map[FederationToken := "old"], map[], {}, false);
    actions, s := TokenCopied(d0);
    assert ALL_META[..4][3] == FederationToken;
    actions, s := Extend(Init(d0), actions, s, WriteMeta(FederationToken, "new"));
    var copied := s;
    actions, s := Extend(Init(d0), actions, s, Tick);
    actions, s := Extend(Init(d0), actions, s, Tick);
    assert s == copied.(run := Some(Run(RewriteConf, CALM)));
    actions, s := Extend(Init(d0), actions, s, Tick);
    actions, s := Extend(Init(d0), actions, s, Tick);
  }

  lemma Extend(s0: Sys, actions: seq<Action>, s: Sys, a: Action) returns (actions': seq<Action>, s': Sys)
    requires s == ApplyAll(s0, actions)
    ensures actions' == actions + [a] && s' == ApplyAll(s0, actions') && s' == Apply(s, a)
  {
    actions' := actions + [a];
    s' := Apply(s, a);
    assert actions'[..|actions'| - 1] == actions;
  }
}
