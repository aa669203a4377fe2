/**
 Promotion of an observation to an issue: three transactions - check and create, delete, audit - with other
 promoters, dismissals, TTL sweeps and crashes in between.
 */
module Promotion {
  import opened Wrappers

  type ObsId = nat
  type IssueId = nat
  type Stamp = int

  const AUDIT_CAP := 10000

  datatype Observation = Observation(summary: string, actor: string, expiresAt: Stamp)

  datatype Cause = Promoted | Expired | Dismissed(reason: string)

  datatype AuditRow = AuditRow(obs: ObsId, summary: string, actor: string, cause: Cause, at: Stamp)

  // An issue keeps the id of the observation it was promoted from in its fields.
  datatype Issue = Issue(source: Option<ObsId>, title: string)

  datatype Db = Db(
    observations: map<ObsId, Observation>,
    issues: map<IssueId, Issue>,
    audit: seq<AuditRow>,
    nextObs: ObsId,
    nextIssue: IssueId)

  datatype Reply =
    | Existing(issue: IssueId)
    | Created(issue: IssueId, observation: Observation)
    | NotFound
    | HasExpired
    | CreateFailed

  // ---------------------------------------------------------------------------------------
  // The transactions
  // ---------------------------------------------------------------------------------------

  ghost predicate PromotedTo(db: Db, obs: ObsId, issue: IssueId)
  {
    issue in db.issues && db.issues[issue].source == Some(obs)
  }

  predicate HasPromotedRow(audit: seq<AuditRow>, obs: ObsId)
  {
    exists i | 0 <= i < |audit| :: audit[i].obs == obs && audit[i].cause == Promoted
  }

  function OrElse(actor: string, fallback: string): string
  {
    if actor != "" then actor else fallback
  }

  function PromotionRow(obs: ObsId, o: Observation, actor: string, now: Stamp): AuditRow
  {
    AuditRow(obs, o.summary, OrElse(actor, o.actor), Promoted, now)
  }

  /** The branch for an observation that already has an issue: a lingering observation is deleted, and audited
      unless an audit row for the promotion is there. */
  function ClearLingering(db: Db, obs: ObsId, actor: string, now: Stamp): Db
  {
    if obs !in db.observations then db
    else
      var row := PromotionRow(obs, db.observations[obs], actor, now);
      db.(observations := db.observations - {obs},
          audit := if HasPromotedRow(db.audit, obs) then db.audit else db.audit + [row])
  }

  /** The first transaction.  `found` is what the lookup by source observation returned. */
  function CheckAndCreate(db: Db, obs: ObsId, actor: string, title: string, now: Stamp, creates: bool,
      found: Option<IssueId>): (Db, Reply)
  {
    if found.Some? then (ClearLingering(db, obs, actor, now), Existing(found.value))
    else if obs !in db.observations then (db, NotFound)
    else if db.observations[obs].expiresAt <= now then (db, HasExpired)
    else if !creates then (db, CreateFailed)
    else
      var o := db.observations[obs];
      (db.(issues := db.issues[db.nextIssue := Issue(Some(obs), OrElse(title, o.summary))],
        nextIssue := db.nextIssue + 1),
       Created(db.nextIssue, o))
  }

  /** `found` is an answer of the lookup: some issue promoted from `obs`, or none when there is none. */
  ghost predicate Finds(db: Db, obs: ObsId, found: Option<IssueId>)
  {
    match found
    case Some(i) => PromotedTo(db, obs, i)
    case None => forall i :: !PromotedTo(db, obs, i)
  }

  function DeletePromoted(db: Db, obs: ObsId): Db
  {
    db.(observations := db.observations - {obs})
  }

  function AuditPromotion(db: Db, obs: ObsId, o: Observation, actor: string, now: Stamp): Db
  {
    db.(audit := db.audit + [PromotionRow(obs, o, actor, now)])
  }

  function DismissalRow(db: Db, obs: ObsId, actor: string, reason: string, now: Stamp): AuditRow
    requires obs in db.observations
  {
    AuditRow(obs, db.observations[obs].summary, actor, Dismissed(reason), now)
  }

  function Dismiss(db: Db, obs: ObsId, actor: string, reason: string, now: Stamp): (Db, bool)
  {
    if obs !in db.observations then (db, false)
    else
      (db.(observations := db.observations - {obs},
           audit := db.audit + [DismissalRow(db, obs, actor, reason, now)]), true)
  }

  function ExpiredSet(db: Db, now: Stamp): set<ObsId>
  {
    set o | o in db.observations && db.observations[o].expiresAt <= now
  }

  function ExpiredRows(db: Db, order: seq<ObsId>, now: Stamp): seq<AuditRow>
    requires forall o | o in order :: o in db.observations
  {
    seq(|order|, i requires 0 <= i < |order| => AuditRow(order[i], db.observations[order[i]].summary, "system",
      Expired, now))
  }

  /** The audit trail keeps its newest rows. */
  function Prune(audit: seq<AuditRow>): seq<AuditRow>
  {
    if |audit| <= AUDIT_CAP then audit else audit[|audit| - AUDIT_CAP..]
  }

  ghost predicate Lists(order: seq<ObsId>, s: set<ObsId>)
  {
    (forall o :: o in order <==> o in s) && forall i, j | 0 <= i < j < |order| :: order[i] != order[j]
  }

  function Sweep(db: Db, order: seq<ObsId>, now: Stamp): Db
    requires forall o | o in order :: o in db.observations
  {
    db.(observations := db.observations - ExpiredSet(db, now), audit := Prune(db.audit + ExpiredRows(db, order, now)))
  }

  // ---------------------------------------------------------------------------------------
  // The object
  // ---------------------------------------------------------------------------------------

  class ObservationStore {
    var observations: map<ObsId, Observation>
    var issues: map<IssueId, Issue>
    var audit: seq<AuditRow>
    var nextObs: ObsId
    var nextIssue: IssueId

    function View(): Db
      reads this
    {
      Db(observations, issues, audit, nextObs, nextIssue)
    }

    constructor ()
      ensures View() == Db(map[], map[], [], 0, 0)
    {
      observations, issues, audit, nextObs, nextIssue := map[], map[], [], 0, 0;
    }

    method FindPromoted(obs: ObsId) returns (found: Option<IssueId>)
      ensures Finds(View(), obs, found)
    {
      var todo := issues.Keys;
      while todo != {}
        invariant todo <= issues.Keys && forall i | i in issues && i !in todo :: issues[i].source != Some(obs)
        decreases |todo|
      {
        var i :| i in todo;
        if issues[i].source == Some(obs) {
          return Some(i);
        }
        todo := todo - {i};
      }
      return None;
    }

    method PromoteTransaction(obs: ObsId, actor: string, title: string, now: Stamp, creates: bool)
      returns (reply: Reply, ghost found: Option<IssueId>)
      modifies this
      ensures Finds(old(View()), obs, found)
      ensures (View(), reply) == CheckAndCreate(old(View()), obs, actor, title, now, creates, found)
    {
      var existing := FindPromoted(obs);
      found := existing;
      if existing.Some? {
        if obs in observations {
          var lingering := observations[obs];
          observations := observations - {obs};
          if !HasPromotedRow(audit, obs) {
            audit := audit + [AuditRow(obs, lingering.summary, OrElse(actor, lingering.actor), Promoted, now)];
          }
        }
        reply := Existing(existing.value);
        return;
      }
      if obs !in observations {
        reply := NotFound;
        return;
      }
      var row := observations[obs];
      if row.expiresAt <= now {
        reply := HasExpired;
        return;
      }
      if !creates {
        reply := CreateFailed;
        return;
      }
      issues := issues[nextIssue := Issue(Some(obs), OrElse(title, row.summary))];
      reply := Created(nextIssue, row);
      nextIssue := nextIssue + 1;
    }

    /** The second transaction; false when a sweep or a dismissal was faster. */
    method DeleteAfterPromotion(obs: ObsId) returns (deleted: bool)
      modifies this`observations
      ensures View() == DeletePromoted(old(View()), obs)
      ensures deleted <==> obs in old(observations)
    {
      deleted := obs in observations;
      observations := observations - {obs};
    }

    /** The third transaction. */
    method RecordPromotionAudit(obs: ObsId, row: Observation, actor: string, now: Stamp)
      modifies this`audit
      ensures View() == AuditPromotion(old(View()), obs, row, actor, now)
    {
      audit := audit + [AuditRow(obs, row.summary, OrElse(actor, row.actor), Promoted, now)];
    }

    method DismissObservation(obs: ObsId, actor: string, reason: string, now: Stamp) returns (ok: bool)
      modifies this`observations, this`audit
      ensures (View(), ok) == Dismiss(old(View()), obs, actor, reason, now)
    {
      if obs !in observations {
        return false;
      }
      audit := audit + [AuditRow(obs, observations[obs].summary, actor, Dismissed(reason), now)];
      observations := observations - {obs};
      return true;
    }

    method SweepExpired(order: seq<ObsId>, now: Stamp) returns (deleted: nat)
      requires Lists(order, ExpiredSet(View(), now))
      modifies this`observations, this`audit
      ensures View() == Sweep(old(View()), order, now)
      ensures deleted == |order|
    {
      ghost var db := View();
      deleted := 0;
      while deleted < |order|
        invariant deleted <= |order|
        invariant forall o | o in order[..deleted] :: o in db.observations
        invariant audit == old(audit) + ExpiredRows(db, order[..deleted], now)
        invariant observations == db.observations - Members(order[..deleted])
      {
        var o := order[deleted];
        SweepNext(db, order, deleted, now);
        audit := audit + [AuditRow(o, observations[o].summary, "system", Expired, now)];
        observations := observations - {o};
        deleted := deleted + 1;
      }
      assert order[..|order|] == order;
      assert Members(order) == ExpiredSet(db, now);
      audit := Prune(audit);
    }
  }

  ghost function Members(order: seq<ObsId>): set<ObsId>
  {
    set o | o in order
  }

  lemma SweepNext(db: Db, order: seq<ObsId>, k: nat, now: Stamp)
    requires k < |order| && Lists(order, ExpiredSet(db, now)) && forall o | o in order[..k] :: o in db.observations
    ensures order[k] in db.observations && order[k] !in Members(order[..k])
    ensures (forall o | o in order[..k + 1] :: o in db.observations)
      && Members(order[..k + 1]) == Members(order[..k]) + {order[k]}
    ensures ExpiredRows(db, order[..k + 1], now)
         == ExpiredRows(db, order[..k], now)
           + [AuditRow(order[k], db.observations[order[k]].summary, "system", Expired, now)]
  {
    assert order[..k + 1] == order[..k] + [order[k]];
    assert order[k] in order;
  }

  // ---------------------------------------------------------------------------------------
  // What each transaction does
  // ---------------------------------------------------------------------------------------

  /** A promotion makes an issue exactly when none is there for the observation, which is there and has not expired,
      and the creation succeeds; every other case has its own reply, and only a lingering observation is touched. */
  lemma PromotesIff(db: Db, obs: ObsId, actor: string, title: string, now: Stamp, creates: bool, found: Option<IssueId>)
    ensures var (db', reply) := CheckAndCreate(db, obs, actor, title, now, creates, found);
      var there, live := obs in db.observations, obs in db.observations && now < db.observations[obs].expiresAt;
      && (reply == NotFound <==> found.None? && !there)
      && (reply == HasExpired <==> found.None? && there && !live)
      && (reply == CreateFailed <==> found.None? && live && !creates)
      && (reply.Created? <==> found.None? && live && creates)
      && (reply.Created? ==>
            var o := db.observations[obs];
            && reply == Created(db.nextIssue, o)
            && db'.issues == db.issues[db.nextIssue := Issue(Some(obs), if title == "" then o.summary else title)]
            && db'.nextIssue == db.nextIssue + 1
            && db'.observations == db.observations && db'.audit == db.audit && db'.nextObs == db.nextObs)
      && (found.Some? ==>
            && reply == Existing(found.value)
            && db'.observations == db.observations - {obs} && db'.issues == db.issues
            && (db'.audit == db.audit <==> !there || PromotedRowOf(db.audit, obs))
            && (db'.audit != db.audit ==>
                  var o := db.observations[obs];
                  db'.audit == db.audit + [AuditRow(obs, o.summary, if actor == "" then o.actor
                    else actor, Promoted, now)]))
      && (found.None? && !reply.Created? ==> db' == db)
  {
  }

  ghost predicate PromotedRowOf(audit: seq<AuditRow>, obs: ObsId)
  {
    exists row :: row in audit && row.obs == obs && row.cause.Promoted?
  }

  /** The two transactions after the issue was made: one takes the observation away, the other appends its row. */
  lemma CleanUpMeans(db: Db, obs: ObsId, o: Observation, actor: string, now: Stamp)
    ensures var db' := DeletePromoted(db, obs);
      && db' == db.(observations := db'.observations)
      && forall p :: p in db'.observations <==> p in db.observations && p != obs
    ensures forall p | p in DeletePromoted(db, obs).observations ::
      DeletePromoted(db, obs).observations[p] == db.observations[p]
    ensures AuditPromotion(db, obs, o, actor, now)
         == db.(audit := db.audit + [AuditRow(obs, o.summary, if actor == "" then o.actor else actor, Promoted, now)])
  {
  }

  /** A dismissal succeeds exactly for an observation that is there, and then takes it away with a row. */
  lemma DismissMeans(db: Db, obs: ObsId, actor: string, reason: string, now: Stamp)
    ensures var (db', ok) := Dismiss(db, obs, actor, reason, now);
      && (ok <==> obs in db.observations)
      && (!ok ==> db' == db)
      && (ok ==> db' == db.(
            observations := map p | p in db.observations && p != obs :: db.observations[p],
            audit := db.audit + [AuditRow(obs, db.observations[obs].summary, actor, Dismissed(reason), now)]))
  {
    var (db', ok) := Dismiss(db, obs, actor, reason, now);
    assert ok ==> db'.observations == map p | p in db.observations && p != obs :: db.observations[p];
  }

  /** A sweep takes away exactly the observations that have expired, each with one row, and of the audit trail the
      oldest rows beyond the cap. */
  lemma SweepMeans(db: Db, order: seq<ObsId>, now: Stamp)
    requires Lists(order, ExpiredSet(db, now))
    ensures forall o :: o in order <==> o in db.observations && db.observations[o].expiresAt <= now
    ensures var db' := Sweep(db, order, now);
      && db' == db.(observations := db'.observations, audit := db'.audit)
      && (forall o :: o in db'.observations <==> o in db.observations && now < db.observations[o].expiresAt)
      && (forall o | o in db'.observations :: db'.observations[o] == db.observations[o])
      && exists rows: seq<AuditRow> ::
           && |rows| == |order|
           && (forall i | 0 <= i < |order| ::
                 rows[i] == AuditRow(order[i], db.observations[order[i]].summary, "system", Expired, now))
           && Newest(db.audit + rows, db'.audit)
  {
    var db' := Sweep(db, order, now);
    var rows := ExpiredRows(db, order, now);
    assert Newest(db.audit + rows, db'.audit);
  }

  /** What is kept is all rows, or as many of the newest as the cap allows. */
  ghost predicate Newest(rows: seq<AuditRow>, kept: seq<AuditRow>)
  {
    |kept| == (if |rows| < 10000 then |rows| else 10000) && kept == rows[|rows| - |kept|..]
  }

  // ---------------------------------------------------------------------------------------
  // Interleavings
  // ---------------------------------------------------------------------------------------

  type Tid = nat

  // A promoter that created an issue still has to delete the observation and then to audit it.
  datatype Pc =
    | Idle
    | Deleting(obs: ObsId, row: Observation, actor: string)
    | Auditing(obs: ObsId, row: Observation, actor: string)

  // `trail` is every audit row ever written, pruned or not, `made` the issues ever made from observations.
  datatype Sys = Sys(db: Db, now: Stamp, pcs: map<Tid, Pc>, trail: seq<AuditRow>, made: map<IssueId, ObsId>)

  datatype Action =
    | Observe(observation: Observation)
    | Promote(t: Tid, obs: ObsId, actor: string, title: string, creates: bool, found: Option<IssueId>)
    | Step(t: Tid, succeeds: bool)
    | Crash(t: Tid)
    | CallDismiss(obs: ObsId, actor: string, reason: string)
    | CallSweep(order: seq<ObsId>)
    | CreateOther(title: string)
    | DeleteIssue(issue: IssueId)
    | Tick(d: nat)

  function PcOf(s: Sys, t: Tid): Pc
  {
    if t in s.pcs then s.pcs[t] else Idle
  }

  function PromoteStep(s: Sys, t: Tid, obs: ObsId, actor: string, title: string, creates: bool,
      found: Option<IssueId>): Sys
  {
    var (db, reply) := CheckAndCreate(s.db, obs, actor, title, s.now, creates, found);
    match reply
    case Created(i, row) => s.(db := db, pcs := s.pcs[t := Deleting(obs, row, actor)], made := s.made[i := obs])
    case Existing(_) => s.(db := db)
    case _ => s
  }

  ghost predicate Enabled(s: Sys, a: Action)
  {
    match a
    case Promote(t, obs, _, _, _, found) => PcOf(s, t).Idle? && Finds(s.db, obs, found)
    case CallSweep(order) => Lists(order, ExpiredSet(s.db, s.now))
    case _ => true
  }

  /** The audit rows a step writes. */
  function Rows(s: Sys, a: Action): seq<AuditRow>
    requires a.CallSweep? ==> forall o | o in a.order :: o in s.db.observations
  {
    match a
    case Promote(_, obs, actor, _, _, found) =>
      if found.Some? && obs in s.db.observations && !HasPromotedRow(s.db.audit, obs)
      then [PromotionRow(obs, s.db.observations[obs], actor, s.now)] else []
    case Step(t, succeeds) =>
      var pc := PcOf(s, t);
      if pc.Auditing? && succeeds then [PromotionRow(pc.obs, pc.row, pc.actor, s.now)] else []
    case CallDismiss(obs, actor, reason) =>
      if obs in s.db.observations then [DismissalRow(s.db, obs, actor, reason, s.now)] else []
    case CallSweep(order) => ExpiredRows(s.db, order, s.now)
    case _ => []
  }

  function StepStep(s: Sys, t: Tid, succeeds: bool): Sys
  {
    match PcOf(s, t)
    case Idle => s
    case Deleting(obs, row, actor) =>
      s.(db := if succeeds then DeletePromoted(s.db, obs) else s.db, pcs := s.pcs[t := Auditing(obs, row, actor)])
    case Auditing(obs, row, actor) =>
      s.(db := if succeeds then AuditPromotion(s.db, obs, row, actor, s.now) else s.db, pcs := s.pcs[t := Idle])
  }

  function Perform(s: Sys, a: Action): Sys
    requires a.CallSweep? ==> forall o | o in a.order :: o in s.db.observations
  {
    match a
    case Observe(o) =>
      s.(db := s.db.(observations := s.db.observations[s.db.nextObs := o], nextObs := s.db.nextObs + 1))
    case Promote(t, obs, actor, title, creates, found) => PromoteStep(s, t, obs, actor, title, creates, found)
    case Step(t, succeeds) => StepStep(s, t, succeeds)
    case Crash(t) => s.(pcs := s.pcs[t := Idle])
    case CallDismiss(obs, actor, reason) => s.(db := Dismiss(s.db, obs, actor, reason, s.now).0)
    case CallSweep(order) => s.(db := Sweep(s.db, order, s.now))
    case CreateOther(title) =>
      s.(db := s.db.(issues := s.db.issues[s.db.nextIssue := Issue(None, title)], nextIssue := s.db.nextIssue + 1))
    case DeleteIssue(issue) => s.(db := s.db.(issues := s.db.issues - {issue}))
    case Tick(d) => s.(now := s.now + d)
  }

  ghost function Apply(s: Sys, a: Action): Sys
  {
    if Enabled(s, a) then Perform(s, a).(trail := s.trail + Rows(s, a)) else s
  }

  const INIT := Sys(Db(map[], map[], [], 0, 0), 0, map[], [], map[])

  ghost function ApplyAll(actions: seq<Action>): Sys
  {
    if actions == [] then INIT else Apply(ApplyAll(actions[..|actions| - 1]), actions[|actions| - 1])
  }

  // ---------------------------------------------------------------------------------------
  // Over every run
  // ---------------------------------------------------------------------------------------

  ghost predicate OneIssueEach(db: Db)
  {
    forall i, j | i in db.issues && j in db.issues && db.issues[i].source.Some?
      && db.issues[i].source == db.issues[j].source :: i == j
  }

  ghost predicate WasMade(s: Sys, obs: ObsId)
  {
    exists i :: i in s.made && s.made[i] == obs
  }

  predicate HasRow(audit: seq<AuditRow>, obs: ObsId)
  {
    exists i | 0 <= i < |audit| :: audit[i].obs == obs
  }

  ghost predicate Issued(s: Sys)
  {
    && OneIssueEach(s.db)
    && (forall i | i in s.db.issues :: i < s.db.nextIssue)
    && (forall i | i in s.made :: i < s.db.nextIssue && s.made[i] < s.db.nextObs)
    && (forall i | i in s.db.issues && s.db.issues[i].source.Some? ::
      i in s.made && s.made[i] == s.db.issues[i].source.value)
    && (forall o | o in s.db.observations :: o < s.db.nextObs)
  }

  ghost predicate Inv(s: Sys)
  {
    && Issued(s)
    && |s.db.audit| <= |s.trail| && s.db.audit == s.trail[|s.trail| - |s.db.audit|..]
    && (forall o: ObsId | o < s.db.nextObs && o !in s.db.observations :: HasRow(s.trail, o) || WasMade(s, o))
    && (forall t: Tid :: !PcOf(s, t).Idle? ==> WasMade(s, PcOf(s, t).obs))
  }

  lemma MadeStays(s: Sys, s': Sys, obs: ObsId)
    requires WasMade(s, obs) && forall i | i in s.made :: i in s'.made && s'.made[i] == s.made[i]
    ensures WasMade(s', obs)
  {
    var i :| i in s.made && s.made[i] == obs;
    assert i in s'.made;
  }

  /** What a step writes is what the table gains, before it is pruned. */
  lemma RowsAreWritten(s: Sys, a: Action)
    requires Enabled(s, a)
    ensures Apply(s, a).trail == s.trail + Rows(s, a)
    ensures Apply(s, a).db.audit == s.db.audit + Rows(s, a)
      || (a.CallSweep? && Apply(s, a).db.audit == Prune(s.db.audit + Rows(s, a)))
  {
  }

  lemma AuditKeepsSuffix(s: Sys, a: Action)
    requires Inv(s) && Enabled(s, a)
    ensures var s' := Apply(s, a); |s'.db.audit| <= |s'.trail| && s'.db.audit == s'.trail[|s'.trail| - |s'.db.audit|..]
  {
    RowsAreWritten(s, a);
    hide Perform, Rows;
    var cut := |s.trail| - |s.db.audit|;
    assert s.db.audit + Rows(s, a) == (s.trail + Rows(s, a))[cut..];
  }

  lemma CreationKeepsIssued(s: Sys, t: Tid, from: ObsId, pc: Pc, title: string)
    requires Issued(s) && from in s.db.observations && Finds(s.db, from, None)
    ensures Issued(s.(db := s.db.(issues := s.db.issues[s.db.nextIssue := Issue(Some(from), title)],
      nextIssue := s.db.nextIssue + 1),
                      pcs := s.pcs[t := pc], made := s.made[s.db.nextIssue := from]))
  {
    forall i | i in s.db.issues ensures s.db.issues[i].source != Some(from) {
      assert !PromotedTo(s.db, from, i);
    }
  }

  lemma PromoteKeepsIssued(s: Sys, a: Action)
    requires Issued(s) && a.Promote? && Enabled(s, a)
    ensures Issued(PromoteStep(s, a.t, a.obs, a.actor, a.title, a.creates, a.found))
    ensures forall i | i in s.made ::
      var s' := PromoteStep(s, a.t, a.obs, a.actor, a.title, a.creates, a.found);
        i in s'.made && s'.made[i] == s.made[i]
  {
    if CheckAndCreate(s.db, a.obs, a.actor, a.title, s.now, a.creates, a.found).1.Created? {
      var o := s.db.observations[a.obs];
      CreationKeepsIssued(s, a.t, a.obs, Deleting(a.obs, o, a.actor), OrElse(a.title, o.summary));
    }
  }

  lemma IssuesKeepInv(s: Sys, a: Action)
    requires Issued(s) && Enabled(s, a)
    ensures Issued(Apply(s, a))
    ensures forall i | i in s.made :: i in Apply(s, a).made && Apply(s, a).made[i] == s.made[i]
  {
    hide Rows, PromoteStep;
    if a.Promote? {
      PromoteKeepsIssued(s, a);
    }
  }

  lemma HasRowStays(audit: seq<AuditRow>, rows: seq<AuditRow>, obs: ObsId)
    requires HasRow(audit, obs) || HasRow(rows, obs)
    ensures HasRow(audit + rows, obs)
  {
    if k :| 0 <= k < |audit| && audit[k].obs == obs {
      assert (audit + rows)[k].obs == obs;
    } else {
      var k :| 0 <= k < |rows| && rows[k].obs == obs;
      assert (audit + rows)[|audit| + k].obs == obs;
    }
  }

  /** An observation disappears with a row of its own, or as one that was promoted. */
  lemma DisappearsWithCause(s: Sys, a: Action, obs: ObsId)
    requires Inv(s) && Enabled(s, a) && obs in s.db.observations && obs !in Apply(s, a).db.observations
    ensures HasRow(Rows(s, a), obs) || WasMade(s, obs)
  {
    match a
    case Promote(_, _, _, _, _, found) =>
      assert PromotedTo(s.db, obs, found.value);
    case Step(t, _) => assert !PcOf(s, t).Idle?;
    case CallDismiss(_, _, _) => assert Rows(s, a)[0].obs == obs;
    case CallSweep(order) =>
      assert obs in ExpiredSet(s.db, s.now);
      var k :| 0 <= k < |order| && order[k] == obs;
      assert Rows(s, a)[k].obs == obs;
  }

  lemma PcKeepsInv(s: Sys, a: Action, t: Tid)
    requires Inv(s) && Enabled(s, a) && !PcOf(Apply(s, a), t).Idle?
    ensures WasMade(Apply(s, a), PcOf(Apply(s, a), t).obs)
  {
    var s' := Apply(s, a);
    IssuesKeepInv(s, a);
    if a.Promote? && a.t == t && PcOf(s, t).Idle? {
      assert s'.made[s.db.nextIssue] == a.obs;
    } else {
      assert !PcOf(s, t).Idle? && PcOf(s', t).obs == PcOf(s, t).obs;
      MadeStays(s, s', PcOf(s, t).obs);
    }
  }

  lemma StepKeepsInv(s: Sys, a: Action)
    requires Inv(s)
    ensures Inv(Apply(s, a))
  {
    if Enabled(s, a) {
      var s' := Apply(s, a);
      AuditKeepsSuffix(s, a);
      IssuesKeepInv(s, a);
      RowsAreWritten(s, a);
      forall o: ObsId | o < s'.db.nextObs && o !in s'.db.observations ensures HasRow(s'.trail, o) || WasMade(s', o) {
        if o in s.db.observations {
          DisappearsWithCause(s, a, o);
        } else {
          assert o < s.db.nextObs;
        }
        hide Perform, Rows;
        if WasMade(s, o) {
          MadeStays(s, s', o);
        } else {
          HasRowStays(s.trail, Rows(s, a), o);
        }
      }
      forall t: Tid | !PcOf(s', t).Idle? ensures WasMade(s', PcOf(s', t).obs) {
        PcKeepsInv(s, a, t);
      }
    }
  }

  lemma {:induction false} RunsKeepInv(actions: seq<Action>)
    ensures Inv(ApplyAll(actions))
  {
    if actions != [] {
      RunsKeepInv(actions[..|actions| - 1]);
      StepKeepsInv(ApplyAll(actions[..|actions| - 1]), actions[|actions| - 1]);
    }
  }

  /** Under any interleaving of promoters, crashes, dismissals and sweeps, at most one live issue carries an
      observation's id, and no observation disappears without an audit row or an issue; the audit table is the
      newest part of all rows ever written. */
  lemma PromotedAtMostOnce(actions: seq<Action>)
    ensures var s := ApplyAll(actions);
      && OneIssueEach(s.db)
      && (forall o: ObsId | o < s.db.nextObs && o !in s.db.observations :: HasRow(s.trail, o) || WasMade(s, o))
      && |s.db.audit| <= |s.trail| && s.db.audit == s.trail[|s.trail| - |s.db.audit|..]
  {
    RunsKeepInv(actions);
    hide Apply, ApplyAll, HasRow, WasMade;
  }

  /** A retry of a promotion whose issue is live returns that issue, whatever became of the earlier call, leaves no
      lingering observation, and makes no second issue. */
  lemma RetryReturnsTheIssue(actions: seq<Action>, obs: ObsId, issue: IssueId, actor: string, title: string,
      creates: bool, found: Option<IssueId>)
    requires var s := ApplyAll(actions); PromotedTo(s.db, obs, issue) && Finds(s.db, obs, found)
    ensures var s := ApplyAll(actions);
      var (db, reply) := CheckAndCreate(s.db, obs, actor, title, s.now, creates, found);
      && reply == Existing(issue) && obs !in db.observations && db.issues == s.db.issues
      && (obs in s.db.observations ==> HasPromotedRow(db.audit, obs))
      && (obs !in s.db.observations ==> db == s.db)
  {
    RunsKeepInv(actions);
    var s := ApplyAll(actions);
    assert found.Some? by {
      assert PromotedTo(s.db, obs, issue);
    }
    var db := CheckAndCreate(s.db, obs, actor, title, s.now, creates, found).0;
    if obs in s.db.observations && !HasPromotedRow(s.db.audit, obs) {
      assert db.audit[|db.audit| - 1].obs == obs;
    }
  }

  // ---------------------------------------------------------------------------------------
  // How often a promotion is audited
  // ---------------------------------------------------------------------------------------

  function PromotedRows(audit: seq<AuditRow>, obs: ObsId): nat
  {
    if audit == [] then 0
    else
      var last := audit[|audit| - 1];
      PromotedRows(audit[..|audit| - 1], obs) + if last.obs == obs && last.cause == Promoted then 1 else 0
  }

  lemma {:induction false} PromotedRowsAppend(audit: seq<AuditRow>, rows: seq<AuditRow>, obs: ObsId)
    ensures PromotedRows(audit + rows, obs) == PromotedRows(audit, obs) + PromotedRows(rows, obs)
  {
    if rows == [] {
      assert audit + rows == audit;
    } else {
      assert (audit + rows)[..|audit + rows| - 1] == audit + rows[..|rows| - 1];
      PromotedRowsAppend(audit, rows[..|rows| - 1], obs);
    }
  }

  lemma {:induction false} HasPromotedRowIff(audit: seq<AuditRow>, obs: ObsId)
    ensures HasPromotedRow(audit, obs) <==> PromotedRows(audit, obs) > 0
  {
    if audit != [] {
      var init := audit[..|audit| - 1];
      HasPromotedRowIff(init, obs);
      if HasPromotedRow(audit, obs) {
        var k :| 0 <= k < |audit| && audit[k].obs == obs && audit[k].cause == Promoted;
        assert k < |init| ==> init[k] == audit[k];
      } else {
        assert forall k | 0 <= k < |init| :: init[k] == audit[k];
      }
      if HasPromotedRow(init, obs) {
        var k :| 0 <= k < |init| && init[k].obs == obs && init[k].cause == Promoted;
        assert audit[k] == init[k];
      }
      assert audit[|audit| - 1].obs == obs && audit[|audit| - 1].cause == Promoted ==> HasPromotedRow(audit, obs);
    }
  }

  lemma PruneKeepsFewer(audit: seq<AuditRow>, obs: ObsId)
    ensures PromotedRows(Prune(audit), obs) <= PromotedRows(audit, obs)
  {
    var cut := |audit| - |Prune(audit)|;
    assert audit == audit[..cut] + Prune(audit);
    PromotedRowsAppend(audit[..cut], Prune(audit), obs);
  }

  /** The third transaction leaves a second row for a promotion exactly when the trail holds one already. */
  lemma AuditDuplicatesIff(s: Sys, t: Tid)
    requires PcOf(s, t).Auditing?
    ensures var obs := PcOf(s, t).obs;
      PromotedRows(Apply(s, Step(t, true)).db.audit, obs) > 1 <==> HasPromotedRow(s.db.audit, obs)
  {
    var pc := PcOf(s, t);
    var row := PromotionRow(pc.obs, pc.row, pc.actor, s.now);
    assert [row][..0] == [];
    PromotedRowsAppend(s.db.audit, [row], pc.obs);
    HasPromotedRowIff(s.db.audit, pc.obs);
  }

  /** The issues ever made from an observation, and the calls that still owe its audit row. */
  ghost function MadeFrom(s: Sys, obs: ObsId): set<IssueId>
  {
    set i | i in s.made && s.made[i] == obs
  }

  ghost function Pending(s: Sys, obs: ObsId): set<Tid>
  {
    set t | t in s.pcs && !s.pcs[t].Idle? && s.pcs[t].obs == obs
  }

  /** No more audit rows for an observation's promotions, written and owed, than issues made from it. */
  ghost predicate Accounted(s: Sys, obs: ObsId)
  {
    PromotedRows(s.db.audit, obs) + |Pending(s, obs)| <= |MadeFrom(s, obs)|
  }

  /** A retry writes the row of a lingering observation whose every promotion still has its own row to write. */
  ghost predicate Overcounts(s: Sys, a: Action, obs: ObsId)
  {
    && a.Promote? && a.obs == obs && Enabled(s, a) && a.found.Some?
    && obs in s.db.observations && !HasPromotedRow(s.db.audit, obs)
    && |Pending(s, obs)| >= |MadeFrom(s, obs)|
  }

  lemma RetryAccounts(s: Sys, a: Action, obs: ObsId)
    requires a.Promote? && Enabled(s, a) && a.found.Some?
    ensures Accounted(s, obs) && !Accounted(Apply(s, a), obs) <==> Accounted(s, obs) && Overcounts(s, a, obs)
  {
    var s' := Apply(s, a);
    assert Pending(s', obs) == Pending(s, obs) && MadeFrom(s', obs) == MadeFrom(s, obs);
    var rows := Rows(s, a);
    assert s'.db.audit == s.db.audit + rows;
    PromotedRowsAppend(s.db.audit, rows, obs);
    HasPromotedRowIff(s.db.audit, obs);
    if rows != [] {
      assert rows[..0] == [];
      assert PromotedRows(rows, obs) == if a.obs == obs then 1 else 0;
    }
  }

  lemma PendingChanges(s: Sys, s': Sys, t: Tid, obs: ObsId)
    requires t in s'.pcs && s'.pcs == s.pcs[t := s'.pcs[t]]
    ensures var rest := Pending(s, obs) - {t};
      Pending(s', obs) == if !s'.pcs[t].Idle? && s'.pcs[t].obs == obs then rest + {t} else rest
    ensures t in Pending(s, obs) <==> !PcOf(s, t).Idle? && PcOf(s, t).obs == obs
    ensures |Pending(s, obs) - {t}| == |Pending(s, obs)| - if t in Pending(s, obs) then 1 else 0
  {
    assert t !in Pending(s, obs) ==> Pending(s, obs) - {t} == Pending(s, obs);
  }

  lemma MadeChanges(s: Sys, s': Sys, i: IssueId, from: ObsId, obs: ObsId)
    requires i !in s.made && s'.made == s.made[i := from]
    ensures |MadeFrom(s', obs)| == |MadeFrom(s, obs)| + if from == obs then 1 else 0
  {
    assert MadeFrom(s', obs) == if from == obs then MadeFrom(s, obs) + {i} else MadeFrom(s, obs);
  }

  lemma CreationAccounts(s: Sys, t: Tid, from: ObsId, row: Observation, actor: string, db: Db, obs: ObsId)
    requires PcOf(s, t).Idle? && s.db.nextIssue !in s.made && db.audit == s.db.audit && Accounted(s, obs)
    ensures Accounted(s.(db := db, pcs := s.pcs[t := Deleting(from, row, actor)],
      made := s.made[s.db.nextIssue := from]), obs)
  {
    var s' := s.(db := db, pcs := s.pcs[t := Deleting(from, row, actor)], made := s.made[s.db.nextIssue := from]);
    PendingChanges(s, s', t, obs);
    MadeChanges(s, s', s.db.nextIssue, from, obs);
    hide Pending, MadeFrom, PromotedRows;
  }

  lemma FirstPromotionAccounts(s: Sys, a: Action, obs: ObsId)
    requires Inv(s) && a.Promote? && Enabled(s, a) && a.found.None? && Accounted(s, obs)
    ensures Accounted(Apply(s, a), obs)
  {
    var (db, reply) := CheckAndCreate(s.db, a.obs, a.actor, a.title, s.now, a.creates, None);
    assert s.trail + [] == s.trail;
    assert s.db.nextIssue !in s.made;
    hide Inv, Accounted;
    if reply.Created? {
      CreationAccounts(s, a.t, a.obs, reply.observation, a.actor, db, obs);
    } else {
      assert Apply(s, a) == s;
    }
  }

  lemma OneRow(audit: seq<AuditRow>, row: AuditRow, obs: ObsId)
    ensures PromotedRows(audit + [row], obs) == PromotedRows(audit, obs)
      + if row.obs == obs && row.cause == Promoted then 1 else 0
  {
    assert (audit + [row])[..|audit|] == audit;
  }

  /** A call that moves on: the row it writes is the row it owed. */
  lemma MoveAccounts(s: Sys, s': Sys, t: Tid, obs: ObsId)
    requires !PcOf(s, t).Idle? && Accounted(s, obs) && s'.made == s.made && t in s'.pcs
      && s'.pcs == s.pcs[t := s'.pcs[t]]
    requires s'.pcs[t].Idle? || s'.pcs[t].obs == PcOf(s, t).obs
    requires s'.db.audit == s.db.audit ||
      exists row :: s'.db.audit == s.db.audit + [row] && row.obs == PcOf(s, t).obs && s'.pcs[t].Idle?
    ensures Accounted(s', obs)
  {
    assert MadeFrom(s', obs) == MadeFrom(s, obs);
    PendingChanges(s, s', t, obs);
    if s'.db.audit != s.db.audit {
      var row :| s'.db.audit == s.db.audit + [row] && row.obs == PcOf(s, t).obs && s'.pcs[t].Idle?;
      OneRow(s.db.audit, row, obs);
    }
    hide Pending, MadeFrom, PromotedRows;
  }

  lemma StepAccounts(s: Sys, t: Tid, succeeds: bool, obs: ObsId)
    requires Accounted(s, obs)
    ensures Accounted(Apply(s, Step(t, succeeds)), obs)
  {
    hide Accounted;
    var s' := Apply(s, Step(t, succeeds));
    match PcOf(s, t)
    case Idle =>
      assert s.trail + [] == s.trail;
    case Deleting(o, row, actor) =>
      MoveAccounts(s, s', t, obs);
    case Auditing(o, row, actor) =>
      assert succeeds ==> s'.db.audit == s.db.audit + [PromotionRow(o, row, actor, s.now)];
      MoveAccounts(s, s', t, obs);
  }

  /** A call whose second transaction succeeds leaves no observation behind; one whose second or third fails goes on
      without it. */
  lemma CallSteps(s: Sys, t: Tid, succeeds: bool)
    ensures var pc, s' := PcOf(s, t), Apply(s, Step(t, succeeds));
      && (pc.Deleting? ==>
            && PcOf(s', t) == Auditing(pc.obs, pc.row, pc.actor)
            && s'.db.observations == (if succeeds then s.db.observations - {pc.obs} else s.db.observations)
            && s'.db.audit == s.db.audit)
      && (pc.Auditing? ==>
            && PcOf(s', t).Idle? && s'.db.observations == s.db.observations
            && s'.db.audit == s.db.audit + (if succeeds then [PromotionRow(pc.obs, pc.row, pc.actor, s.now)] else []))
  {
  }

  lemma {:induction false} NoPromotedRows(rows: seq<AuditRow>, obs: ObsId)
    requires forall k | 0 <= k < |rows| :: rows[k].cause != Promoted
    ensures PromotedRows(rows, obs) == 0
  {
    if rows != [] {
      NoPromotedRows(rows[..|rows| - 1], obs);
    }
  }

  lemma OtherAccounts(s: Sys, a: Action, obs: ObsId)
    requires !a.Promote? && !a.Step? && Accounted(s, obs)
    ensures Accounted(Apply(s, a), obs)
  {
    if Enabled(s, a) {
      var s' := Apply(s, a);
      assert MadeFrom(s', obs) == MadeFrom(s, obs);
      assert Pending(s', obs) <= Pending(s, obs);
      Subset(Pending(s', obs), Pending(s, obs));
      var rows := Rows(s, a);
      RowsAreWritten(s, a);
      NoPromotedRows(rows, obs);
      PromotedRowsAppend(s.db.audit, rows, obs);
      PruneKeepsFewer(s.db.audit + rows, obs);
    }
  }

  lemma {:induction false} Subset(a: set<Tid>, b: set<Tid>)
    requires a <= b
    ensures |a| <= |b|
  {
    if a != {} {
      var x :| x in a;
      Subset(a - {x}, b - {x});
    }
  }

  /** The accounts of an observation stop adding up exactly at a retry that writes the row of a lingering
      observation while every promotion of it is still on its way to its own row. */
  lemma OvercountsIff(s: Sys, a: Action, obs: ObsId)
    requires Inv(s) && Accounted(s, obs)
    ensures !Accounted(Apply(s, a), obs) <==> Overcounts(s, a, obs)
  {
    hide Accounted;
    if !Enabled(s, a) {
    } else if a.Promote? {
      if a.found.Some? {
        RetryAccounts(s, a, obs);
      } else {
        FirstPromotionAccounts(s, a, obs);
      }
    } else if a.Step? {
      StepAccounts(s, a.t, a.succeeds, obs);
    } else {
      OtherAccounts(s, a, obs);
    }
  }

  ghost predicate AccountedAfter(actions: seq<Action>, k: nat, obs: ObsId)
    requires k <= |actions|
  {
    Accounted(ApplyAll(actions[..k]), obs)
  }

  ghost predicate OvercountsAt(actions: seq<Action>, k: nat, obs: ObsId)
    requires k < |actions|
  {
    AccountedAfter(actions, k, obs) && Overcounts(ApplyAll(actions[..k]), actions[k], obs)
  }

  lemma StepOvercountsAt(actions: seq<Action>, k: nat, obs: ObsId)
    requires k < |actions| && AccountedAfter(actions, k, obs)
    ensures !AccountedAfter(actions, k + 1, obs) <==> OvercountsAt(actions, k, obs)
  {
    RunsKeepInv(actions[..k]);
    OvercountsIff(ApplyAll(actions[..k]), actions[k], obs);
    assert actions[..k + 1][..k] == actions[..k];
    assert ApplyAll(actions[..k + 1]) == Apply(ApplyAll(actions[..k]), actions[k]);
  }

  lemma {:induction false} OvercountedSince(actions: seq<Action>, k: nat, obs: ObsId) returns (j: nat)
    requires k <= |actions| && !AccountedAfter(actions, k, obs)
    ensures j < k && OvercountsAt(actions, j, obs)
  {
    assert actions[..0] == [] && Pending(INIT, obs) == {};
    assert Accounted(ApplyAll([]), obs);
    if k == 0 {
      assert false;
    } else if AccountedAfter(actions, k - 1, obs) {
      StepOvercountsAt(actions, k - 1, obs);
      j := k - 1;
    } else {
      j := OvercountedSince(actions, k - 1, obs);
    }
  }

  /** In every interleaving the audit rows of an observation's promotions, written and owed, exceed the issues made
      from it at some time exactly when some retry overcounts; so without such a retry the trail never holds more
      of them than there were promotions. */
  lemma AuditsMatchPromotionsIff(actions: seq<Action>, obs: ObsId)
    ensures (exists k: nat :: k <= |actions| && !AccountedAfter(actions, k, obs))
       <==> (exists k: nat :: k < |actions| && OvercountsAt(actions, k, obs))
    ensures (forall k: nat | k < |actions| :: !OvercountsAt(actions, k, obs)) ==>
      PromotedRows(ApplyAll(actions).db.audit, obs) <= |MadeFrom(ApplyAll(actions), obs)|
  {
    forall k: nat | k < |actions| && OvercountsAt(actions, k, obs) ensures !AccountedAfter(actions, k + 1, obs) {
      StepOvercountsAt(actions, k, obs);
    }
    if k: nat :| k <= |actions| && !AccountedAfter(actions, k, obs) {
      var j := OvercountedSince(actions, k, obs);
    }
    assert actions[..|actions|] == actions;
    if forall k: nat | k < |actions| :: !OvercountsAt(actions, k, obs) {
      assert AccountedAfter(actions, |actions|, obs);
    }
  }

  lemma Extend(actions: seq<Action>, s: Sys, a: Action) returns (actions': seq<Action>, s': Sys)
    requires s == ApplyAll(actions)
    ensures actions' == actions + [a] && s' == ApplyAll(actions') && s' == Apply(s, a)
  {
    actions' := actions + [a];
    s' := Apply(s, a);
    assert actions'[..|actions'| - 1] == actions;
  }

  /** A run that audits one promotion twice: a retry clears the observation between the first call's failed delete
      and its own audit. */
  lemma PromotionCanBeAuditedTwice() returns (actions: seq<Action>, s: Sys)
    ensures s == ApplyAll(actions) && |MadeFrom(s, 0)| == 1 && PromotedRows(s.db.audit, 0) == 2
    ensures |actions| == 5 && OvercountsAt(actions, 3, 0)
  {
    var o := Observation("leak", "ann", 1);
    var row := PromotionRow(0, o, "", 0);
    ghost var s4;
    actions, s4 := RetryInBetween(o);
    var before := actions;
    actions, s := Extend(actions, s4, Step(0, true));
    assert s.db.audit == [row, row] && [row, row][..1] == [row] && [row][..0] == [];
    assert actions[..3] == before[..3] && actions[3] == before[3];
    assert MadeFrom(s, 0) == {0};
  }

  lemma RetryInBetween(o: Observation) returns (actions: seq<Action>, s: Sys)
    requires o.expiresAt > 0
    ensures s == ApplyAll(actions) && |actions| == 4 && OvercountsAt(actions, 3, 0)
    ensures s.db.audit == [PromotionRow(0, o, "", 0)] && s.now == 0 && PcOf(s, 0) == Auditing(0, o, "")
      && s.made == map[0 := 0]
  {
    ghost var s3;
    actions, s3 := FailedDelete(o);
    var before := actions;
    var retry := Promote(1, 0, "", "", true, Some(0));
    assert PromotedTo(s3.db, 0, 0);
    assert Overcounts(s3, retry, 0);
    actions, s := Extend(actions, s3, retry);
    assert actions[..3] == before;
  }

  lemma FailedDelete(o: Observation) returns (actions: seq<Action>, s: Sys)
    requires o.expiresAt > 0
    ensures s == ApplyAll(actions) && |actions| == 3
    ensures s.db == Db(map[], map[0 := Issue(Some(0), o.summary)], [], 1, 1).(observations := map[0 := o])
    ensures s.now == 0 && s.pcs == map[0 := Auditing(0, o, "")] && s.made == map[0 := 0]
    ensures Pending(s, 0) == {0} && MadeFrom(s, 0) == {0} && Accounted(s, 0)
  {
    actions, s := Extend([], INIT, Observe(o));
    assert forall i :: !PromotedTo(s.db, 0, i);
    actions, s := Extend(actions, s, Promote(0, 0, "", "", true, None));
    actions, s := Extend(actions, s, Step(0, false));
    assert Pending(s, 0) == {0} && MadeFrom(s, 0) == {0};
  }
}
