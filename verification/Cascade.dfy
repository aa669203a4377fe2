/**
 The cascade between scan findings and the issues they are linked to.

 After an ingest or a stale sweep commits, its caller reopens and closes issues one by one, each in a
 transaction of its own; other ingests, sweeps and people act in between.
 */
module Cascade {
  import opened Wrappers

  type FindingId = nat
  type IssueId = string

  datatype Status = Open | Acknowledged | Fixed | FalsePositive | UnseenInLatest

  datatype Actor = CascadeActor | Person(name: string)

  // A linked or unlinked finding; `defect` tells wardline telemetry apart.
  datatype Finding = Finding(issue: Option<IssueId>, status: Status, defect: bool)

  // A status_changed event, as far as the cascade reads it.
  datatype Change = Change(actor: Actor, status: string)

  // A way into a done status: by a change, which is logged, or by an undo, which is not.
  datatype IntoDone = Moved(actor: Actor) | Undone(name: string)

  // `dones` is the whole history of ways into a done status, which the code does not keep.
  datatype Issue = Issue(status: string, log: seq<Change>, dones: seq<IntoDone>)

  datatype World = World(
    findings: map<FindingId, Finding>,
    issues: map<IssueId, Issue>,
    done: set<string>,
    closeDebts: set<IssueId>,
    reopenDebts: set<IssueId>)

  // A debt says that a close or a reopen failed, and stays on record; `reopenDebts` are the issues with one since
  // they last went into done.

  predicate IsDone(w: World, i: Issue)
  {
    i.status in w.done
  }

  /** Neither fixed, dismissed nor unseen: an active defect. */
  predicate Active(s: Status)
  {
    s.Open? || s.Acknowledged?
  }

  predicate IsResolved(s: Status)
  {
    s.Fixed? || s.UnseenInLatest?
  }

  // ---------------------------------------------------------------------------------------
  // The transactions
  // ---------------------------------------------------------------------------------------

  /** The actor of the most recent change into a done status. */
  function LastIntoDone(done: set<string>, log: seq<Change>): Option<Actor>
  {
    if log == [] then None
    else if log[|log| - 1].status in done then Some(log[|log| - 1].actor)
    else LastIntoDone(done, log[..|log| - 1])
  }

  /** Going into done starts a new account of failed reopens. */
  function DebtsAfter(w: World, id: IssueId, status: string): set<IssueId>
    requires id in w.issues
  {
    if status in w.done && !IsDone(w, w.issues[id]) then w.reopenDebts - {id} else w.reopenDebts
  }

  function SetStatus(w: World, id: IssueId, actor: Actor, status: string): World
    requires id in w.issues
  {
    var i := w.issues[id];
    var dones := if status in w.done then i.dones + [Moved(actor)] else i.dones;
    w.(issues := w.issues[id := Issue(status, i.log + [Change(actor, status)], dones)],
       reopenDebts := DebtsAfter(w, id, status))
  }

  predicate OtherActive(w: World, id: IssueId, finding: FindingId)
  {
    exists g | g in w.findings :: g != finding && w.findings[g].issue == Some(id) && Active(w.findings[g].status)
  }

  /** The close transaction re-reads the finding, its siblings and the issue under the writer lock. */
  predicate MayClose(w: World, finding: FindingId, id: IssueId)
  {
    && finding in w.findings && w.findings[finding].issue == Some(id) && IsResolved(w.findings[finding].status)
    && !OtherActive(w, id, finding)
    && id in w.issues && !IsDone(w, w.issues[id])
  }

  // The closure gate's verdict on an issue.
  datatype Decision = Decision(allowed: bool, loomweaveUnavailable: bool)

  // What a close or reopen meets outside the cascade: the done status to close into or the open one to go back
  // to, or a failure, such as a workflow that forbids the transition or a database that stays locked.
  datatype Lane = Lane(status: string) | Forbidden

  datatype CloseReply = CloseReply(closed: bool, debt: bool)

  /** A failure is noted as a debt, best effort: `recorded` says whether one is on record afterwards. */
  function NoteCloseDebt(w: World, id: IssueId, recorded: bool): World
  {
    if recorded then w.(closeDebts := w.closeDebts + {id}) else w
  }

  function CloseOne(w: World, finding: FindingId, id: IssueId, d: Decision, lane: Lane,
      recorded: bool): (World, CloseReply)
  {
    if !d.allowed then (NoteCloseDebt(w, id, recorded), CloseReply(false, true))
    else if !MayClose(w, finding, id) then (w, CloseReply(false, false))
    else if lane.Forbidden? || lane.status !in w.done then (NoteCloseDebt(w, id, recorded), CloseReply(false, true))
    else (SetStatus(w, id, CascadeActor, lane.status), CloseReply(true, false))
  }

  /** The check in front of a reopen, which reads outside any transaction. */
  predicate MayReopen(w: World, id: IssueId)
  {
    id in w.issues && IsDone(w, w.issues[id]) && LastIntoDone(w.done, w.issues[id].log) == Some(CascadeActor)
  }

  predicate CanReopen(w: World, id: IssueId, lane: Lane)
  {
    id in w.issues && IsDone(w, w.issues[id]) && lane.Lane? && lane.status !in w.done
  }

  /** The reopen transaction: it looks at the status again, and at nothing else of what was checked. */
  function ReopenTx(w: World, id: IssueId, lane: Lane, recorded: bool): World
  {
    if CanReopen(w, id, lane) then SetStatus(w, id, CascadeActor, lane.status)
    else if recorded then w.(reopenDebts := w.reopenDebts + {id})
    else w
  }

  /** The check and the reopen with nothing in between. */
  function ReopenOne(w: World, id: IssueId, lane: Lane, recorded: bool): World
  {
    if MayReopen(w, id) then ReopenTx(w, id, lane, recorded) else w
  }

  // ---------------------------------------------------------------------------------------
  // The object
  // ---------------------------------------------------------------------------------------

  datatype Candidate = Candidate(finding: FindingId, issue: IssueId)

  // The gate and the workflow, asked for an issue, and whether a debt of the issue gets on record; the gate is told
  // whether Loomweave is known to be down.
  datatype Policy = Policy(gate: (IssueId, bool) -> Decision, lane: IssueId -> Lane, records: IssueId -> bool)

  datatype Batch = Batch(world: World, closed: seq<IssueId>, down: bool)

  function CloseNext(b: Batch, c: Candidate, p: Policy): Batch
  {
    var d := p.gate(c.issue, b.down);
    var (w, r) := CloseOne(b.world, c.finding, c.issue, d, p.lane(c.issue), p.records(c.issue));
    Batch(w, if r.closed then b.closed + [c.issue] else b.closed, b.down || d.loomweaveUnavailable)
  }

  function CloseAll(b: Batch, cs: seq<Candidate>, p: Policy): Batch
  {
    if cs == [] then b else CloseNext(CloseAll(b, cs[..|cs| - 1], p), cs[|cs| - 1], p)
  }

  class CascadeService {
    const policy: Policy
    const done: set<string>
    var findings: map<FindingId, Finding>
    var issues: map<IssueId, Issue>
    var closeDebts: set<IssueId>
    var reopenDebts: set<IssueId>

    function View(): World
      reads this
    {
      World(findings, issues, done, closeDebts, reopenDebts)
    }

    constructor (policy: Policy, done: set<string>)
      ensures this.policy == policy && View() == World(map[], map[], done, {}, {})
    {
      this.policy, this.done := policy, done;
      findings, issues, closeDebts, reopenDebts := map[], map[], {}, {};
    }

    method IssueLastClosedByCascade(id: IssueId) returns (r: bool)
      requires id in issues
      ensures r <==> LastIntoDone(done, issues[id].log) == Some(CascadeActor)
    {
      var log := issues[id].log;
      var n := |log|;
      assert log[..n] == log;
      while n > 0
        invariant 0 <= n <= |log| && LastIntoDone(done, log) == LastIntoDone(done, log[..n])
      {
        if log[n - 1].status in done {
          return log[n - 1].actor == CascadeActor;
        }
        assert log[..n][..n - 1] == log[..n - 1];
        n := n - 1;
      }
      return false;
    }

    method MayReopenIssue(id: IssueId) returns (r: bool)
      ensures r <==> MayReopen(View(), id)
    {
      if id !in issues || issues[id].status !in done {
        return false;
      }
      r := IssueLastClosedByCascade(id);
    }

    method ReopenIssue(id: IssueId) returns (r: bool)
      modifies this`issues, this`reopenDebts
      ensures View() == ReopenTx(old(View()), id, policy.lane(id), policy.records(id))
      ensures r <==> CanReopen(old(View()), id, policy.lane(id))
    {
      var lane := policy.lane(id);
      if id !in issues || issues[id].status !in done || lane.Forbidden? || lane.status in done {
        if policy.records(id) {
          reopenDebts := reopenDebts + {id};
        }
        return false;
      }
      var i := issues[id];
      issues := issues[id := i.(status := lane.status, log := i.log + [Change(CascadeActor, lane.status)])];
      return true;
    }

    /** What the call does when nothing comes between its check and its reopen; the interleavings are below. */
    method ReopenRegressedFinding(id: IssueId) returns (r: bool)
      modifies this`issues, this`reopenDebts
      ensures View() == ReopenOne(old(View()), id, policy.lane(id), policy.records(id))
      ensures r <==> id in issues && old(id in issues && issues[id].status in done) && issues[id].status !in done
    {
      r := MayReopenIssue(id);
      if r {
        r := ReopenIssue(id);
      }
    }

    method ApplyCloseDecision(c: Candidate, d: Decision) returns (closed: bool)
      modifies this`issues, this`closeDebts, this`reopenDebts
      ensures (View(), closed) == var (w, r) :=
        CloseOne(old(View()), c.finding, c.issue, d, policy.lane(c.issue), policy.records(c.issue));
        (w, r.closed)
    {
      if !d.allowed {
        if policy.records(c.issue) {
          closeDebts := closeDebts + {c.issue};
        }
        return false;
      }
      if c.finding !in findings || findings[c.finding].issue != Some(c.issue)
        || !IsResolved(findings[c.finding].status) {
        return false;
      }
      if exists g | g in findings ::
        g != c.finding && findings[g].issue == Some(c.issue) && Active(findings[g].status) {
        return false;
      }
      if c.issue !in issues || issues[c.issue].status in done {
        return false;
      }
      var lane := policy.lane(c.issue);
      if lane.Forbidden? || lane.status !in done {
        if policy.records(c.issue) {
          closeDebts := closeDebts + {c.issue};
        }
        return false;
      }
      var i := issues[c.issue];
      issues := issues[c.issue := i.(status := lane.status, log := i.log + [Change(CascadeActor, lane.status)],
                                     dones := i.dones + [Moved(CascadeActor)])];
      reopenDebts := reopenDebts - {c.issue};
      return true;
    }

    method CloseResolvedFindings(candidates: seq<Candidate>) returns (closed: seq<IssueId>)
      modifies this`issues, this`closeDebts, this`reopenDebts
      ensures var b := CloseAll(Batch(old(View()), [], false), candidates, policy);
        View() == b.world && closed == b.closed
    {
      closed := [];
      var loomweaveDown := false;
      for i := 0 to |candidates|
        invariant CloseAll(Batch(old(View()), [], false), candidates[..i], policy) ==
          Batch(View(), closed, loomweaveDown)
      {
        assert candidates[..i + 1][..i] == candidates[..i];
        var c := candidates[i];
        var d := policy.gate(c.issue, loomweaveDown);
        var did := ApplyCloseDecision(c, d);
        if d.loomweaveUnavailable {
          loomweaveDown := true;
        }
        if did {
          closed := closed + [c.issue];
        }
      }
      assert candidates[..|candidates|] == candidates;
    }
  }

  // ---------------------------------------------------------------------------------------
  // What one step does
  // ---------------------------------------------------------------------------------------

  ghost predicate AllResolved(w: World, id: IssueId)
  {
    forall f | f in w.findings && w.findings[f].issue == Some(id) ::
      w.findings[f].status.Fixed? || w.findings[f].status.FalsePositive? || w.findings[f].status.UnseenInLatest?
  }

  /** Whatever happened before, the cascade closes an issue only when every finding linked to it is fixed, a
      false positive or unseen; it closes no other issue and touches no finding. */
  lemma ClosesOnlyResolved(w: World, finding: FindingId, id: IssueId, d: Decision, lane: Lane, recorded: bool)
    ensures var (w', r) := CloseOne(w, finding, id, d, lane, recorded);
      && w'.findings == w.findings
      && (r.closed ==>
            && d.allowed && AllResolved(w, id) && id in w.issues && !IsDone(w, w.issues[id])
            && IsDone(w', w'.issues[id]) && LastIntoDone(w'.done, w'.issues[id].log) == Some(CascadeActor))
      && (!r.closed ==> w'.issues == w.issues)
      && forall j | j in w.issues && j != id :: j in w'.issues && w'.issues[j] == w.issues[j]
  {
    if CloseOne(w, finding, id, d, lane, recorded).1.closed {
      forall f | f in w.findings && w.findings[f].issue == Some(id) ensures !Active(w.findings[f].status) {
      }
    }
  }

  lemma ActiveFinding(w: World, id: IssueId) returns (f: FindingId)
    requires !AllResolved(w, id)
    ensures f in w.findings && w.findings[f].issue == Some(id)
    ensures w.findings[f].status.Open? || w.findings[f].status.Acknowledged?
  {
    f :| f in w.findings && w.findings[f].issue == Some(id)
         && !(w.findings[f].status.Fixed? || w.findings[f].status.FalsePositive?
           || w.findings[f].status.UnseenInLatest?);
  }

  /** The finding is fixed or unseen and linked to the issue, no other finding of it is an active defect, and the
      issue is there and not done. */
  ghost predicate ReadyToClose(w: World, finding: FindingId, id: IssueId)
  {
    && finding in w.findings && w.findings[finding].issue == Some(id)
    && w.findings[finding].status in {Fixed, UnseenInLatest}
    && AllResolved(w, id)
    && id in w.issues && w.issues[id].status !in w.done
  }

  /** A candidate closes its issue exactly when the gate allows it, it is ready, and the workflow gives a done status;
      what stops an allowed and ready one, or the gate, is noted as a debt where that can be recorded. */
  lemma CloseOneIff(w: World, finding: FindingId, id: IssueId, d: Decision, lane: Lane, recorded: bool)
    ensures var (w', r) := CloseOne(w, finding, id, d, lane, recorded);
      var opens := lane.Lane? && lane.status in w.done;
      && (r.closed <==> d.allowed && ReadyToClose(w, finding, id) && opens)
      && (r.debt <==> !d.allowed || (ReadyToClose(w, finding, id) && !opens))
      && w'.closeDebts == (if r.debt && recorded then w.closeDebts + {id} else w.closeDebts)
      && (r.closed ==> w'.issues[id].status == lane.status)
  {
    assert ReadyToClose(w, finding, id) <==> MayClose(w, finding, id) by {
      if MayClose(w, finding, id) {
        forall f | f in w.findings && w.findings[f].issue == Some(id)
          ensures !Active(w.findings[f].status)
        {
          assert f != finding ==> !Active(w.findings[f].status);
        }
      }
    }
  }

  ghost predicate Distinct(s: seq<IssueId>)
  {
    forall i, j | 0 <= i < j < |s| :: s[i] != s[j]
  }

  /** The batch gets to the candidate with the gate allowing it, it is ready, and the workflow gives a done status. */
  ghost predicate ClosesCandidate(w: World, cs: seq<Candidate>, p: Policy, i: nat)
    requires i < |cs|
  {
    && p.gate(cs[i].issue, CloseAll(Batch(w, [], false), cs[..i], p).down).allowed
    && ReadyToClose(w, cs[i].finding, cs[i].issue)
    && p.lane(cs[i].issue).Lane? && p.lane(cs[i].issue).status in w.done
  }

  lemma LastCandidate(w: World, cs: seq<Candidate>, p: Policy, j: IssueId)
    requires cs != []
    ensures j in CloseAll(Batch(w, [], false), cs, p).closed <==>
      || j in CloseAll(Batch(w, [], false), cs[..|cs| - 1], p).closed
      || (cs[|cs| - 1].issue == j && ClosesCandidate(w, cs, p, |cs| - 1))
  {
    var init, c := cs[..|cs| - 1], cs[|cs| - 1];
    var b := CloseAll(Batch(w, [], false), init, p);
    var d := p.gate(c.issue, b.down);
    BatchClosesEachOnce(w, init, p);
    CloseOneIff(b.world, c.finding, c.issue, d, p.lane(c.issue), p.records(c.issue));
    var r := CloseOne(b.world, c.finding, c.issue, d, p.lane(c.issue), p.records(c.issue)).1;
    assert CloseAll(Batch(w, [], false), cs, p).closed == if r.closed then b.closed + [c.issue] else b.closed;
    if c.issue in b.closed {
      assert !r.closed;
    } else {
      SameReady(w, b.world, c);
    }
    hide CloseOne, ReadyToClose, CloseAll;
  }

  /** A batch closes the issue of every candidate it can close, and no other. */
  lemma {:induction false} BatchClosesWhatItCan(w: World, cs: seq<Candidate>, p: Policy, j: IssueId)
    ensures j in CloseAll(Batch(w, [], false), cs, p).closed <==>
      exists i: nat :: i < |cs| && cs[i].issue == j && ClosesCandidate(w, cs, p, i)
  {
    if cs != [] {
      var init := cs[..|cs| - 1];
      BatchClosesWhatItCan(w, init, p, j);
      LastCandidate(w, cs, p, j);
      EarlierCandidates(w, cs, p, j);
      hide ClosesCandidate, CloseAll;
    }
  }

  lemma EarlierCandidates(w: World, cs: seq<Candidate>, p: Policy, j: IssueId)
    requires cs != []
    ensures var init := cs[..|cs| - 1];
      (exists i: nat :: i < |cs| && cs[i].issue == j && ClosesCandidate(w, cs, p, i)) <==>
        || (exists i: nat :: i < |init| && init[i].issue == j && ClosesCandidate(w, init, p, i))
        || (cs[|cs| - 1].issue == j && ClosesCandidate(w, cs, p, |cs| - 1))
  {
    var init := cs[..|cs| - 1];
    forall i: nat | i < |init|
      ensures cs[i] == init[i] && (ClosesCandidate(w, cs, p, i) <==> ClosesCandidate(w, init, p, i))
    {
      assert cs[..i] == init[..i];
    }
    hide ClosesCandidate;
    if i: nat :| i < |init| && init[i].issue == j && ClosesCandidate(w, init, p, i) {
      assert ClosesCandidate(w, cs, p, i);
    }
  }

  /** What earlier candidates leave of a later one, whose issue they did not close. */
  lemma SameReady(w: World, w': World, c: Candidate)
    requires w'.findings == w.findings && w'.done == w.done && w'.issues.Keys == w.issues.Keys
    requires c.issue in w.issues ==> w'.issues[c.issue] == w.issues[c.issue]
    ensures ReadyToClose(w', c.finding, c.issue) <==> ReadyToClose(w, c.finding, c.issue)
  {
  }

  /** A batch reports each issue it closed once, and the issues it reports are exactly those it moved into done. */
  lemma {:induction false} BatchClosesEachOnce(w: World, cs: seq<Candidate>, p: Policy)
    ensures var b := CloseAll(Batch(w, [], false), cs, p);
      && Distinct(b.closed) && b.world.done == w.done && b.world.findings == w.findings
      && b.world.issues.Keys == w.issues.Keys
      && (forall j | j in w.issues :: j in b.closed <==> !IsDone(w, w.issues[j]) && IsDone(b.world, b.world.issues[j]))
      && (forall j | j in w.issues && j !in b.closed :: b.world.issues[j] == w.issues[j])
      && (forall j | j in b.closed :: j in w.issues && AllResolved(w, j))
  {
    if cs != [] {
      BatchClosesEachOnce(w, cs[..|cs| - 1], p);
      var b, c := CloseAll(Batch(w, [], false), cs[..|cs| - 1], p), cs[|cs| - 1];
      ClosesOnlyResolved(b.world, c.finding, c.issue, p.gate(c.issue, b.down), p.lane(c.issue), p.records(c.issue));
      hide CloseOne, OtherActive;
    }
  }

  /** The gate is told that Loomweave is down exactly once an earlier candidate's verdict said so. */
  lemma {:induction false} DownIff(w: World, cs: seq<Candidate>, p: Policy)
    ensures CloseAll(Batch(w, [], false), cs, p).down <==>
      exists i: nat :: i < |cs| && SaysDown(w, cs, p, i)
  {
    if cs != [] {
      var init := cs[..|cs| - 1];
      DownIff(w, init, p);
      forall i: nat | i < |init| ensures SaysDown(w, cs, p, i) <==> SaysDown(w, init, p, i) {
        assert cs[..i] == init[..i];
      }
      assert CloseAll(Batch(w, [], false), cs, p).down <==>
        CloseAll(Batch(w, [], false), init, p).down || SaysDown(w, cs, p, |init|);
      hide SaysDown, CloseAll;
      if i: nat :| i < |init| && SaysDown(w, init, p, i) {
        assert SaysDown(w, cs, p, i);
      }
    }
  }

  ghost predicate SaysDown(w: World, cs: seq<Candidate>, p: Policy, i: nat)
    requires i < |cs|
  {
    p.gate(cs[i].issue, CloseAll(Batch(w, [], false), cs[..i], p).down).loomweaveUnavailable
  }

  // ---------------------------------------------------------------------------------------
  // Interleavings
  // ---------------------------------------------------------------------------------------

  type Tid = nat

  // An issue that passed the check, and how many ways into done its history had then.
  datatype Checked = Checked(id: IssueId, mark: nat)

  // What a caller still has to do after its commit: its reopens come before its closes.
  // A reopen looks at the status (`sawDone`), then at the log (`checked`), and then begins its transaction.
  datatype Todo = Todo(reopens: set<IssueId>, sawDone: Option<IssueId>, checked: Option<Checked>,
    closes: set<Candidate>)

  const NOTHING := Todo({}, None, None, {})

  datatype Sys = Sys(world: World, todos: map<Tid, Todo>)

  datatype Action =
    | Ingest(t: Tid, touched: set<FindingId>, swept: set<FindingId>)
    | StaleSweep(t: Tid, aged: set<FindingId>)
    | CheckStatus(t: Tid, id: IssueId)
    | CheckLog(t: Tid)
    | DoReopen(t: Tid, lane: Lane, recorded: bool)
    | Close(t: Tid, c: Candidate, decision: Decision, lane: Lane, recorded: bool)
    | Crash(t: Tid)
    | Create(id: IssueId, status: string)
    | PersonMoves(id: IssueId, name: string, status: string)
    | PersonUndoes(id: IssueId, name: string, status: string)
    | PersonEdits(finding: FindingId, issue: Option<IssueId>, newStatus: Status)

  function TodoOf(s: Sys, t: Tid): Todo
  {
    if t in s.todos then s.todos[t] else NOTHING
  }

  function SetTodo(s: Sys, t: Tid, todo: Todo): Sys
  {
    s.(todos := s.todos[t := todo])
  }

  /** A touched finding that was fixed or unseen is open again; a swept one becomes unseen; new ones are open. */
  function Ingested(f: Finding, touched: bool, swept: bool): Finding
  {
    if touched then (if IsResolved(f.status) then f.(status := Open) else f)
    else if swept && f.defect && (Active(f.status) || f.status.UnseenInLatest?) then f.(status := UnseenInLatest)
    else f
  }

  function IngestFindings(fs: map<FindingId, Finding>, touched: set<FindingId>,
      swept: set<FindingId>): map<FindingId, Finding>
  {
    map f | f in fs.Keys + touched ::
      if f in fs then Ingested(fs[f], f in touched, f in swept) else Finding(None, Open, true)
  }

  function RegressedIssues(fs: map<FindingId, Finding>, touched: set<FindingId>): set<IssueId>
  {
    set f | f in touched && f in fs && fs[f].issue.Some? && IsResolved(fs[f].status) :: fs[f].issue.value
  }

  function ResolvedPairs(fs: map<FindingId, Finding>, touched: set<FindingId>, swept: set<FindingId>): set<Candidate>
  {
    set f | f in swept && f !in touched && f in fs && fs[f].issue.Some? && fs[f].defect && Active(fs[f].status) ::
      Candidate(f, fs[f].issue.value)
  }

  function IngestStep(s: Sys, t: Tid, touched: set<FindingId>, swept: set<FindingId>): Sys
  {
    var fs := s.world.findings;
    var regressed := RegressedIssues(fs, touched);
    var closes := set c | c in ResolvedPairs(fs, touched, swept) && c.issue !in regressed;
    SetTodo(s.(world := s.world.(findings := IngestFindings(fs, touched, swept))), t,
      Todo(regressed, None, None, closes))
  }

  predicate Ages(fs: map<FindingId, Finding>, f: FindingId, aged: set<FindingId>)
    requires f in fs
  {
    f in aged && fs[f].status.UnseenInLatest? && fs[f].defect
  }

  function StaleStep(s: Sys, t: Tid, aged: set<FindingId>): Sys
  {
    var fs := s.world.findings;
    var fs' := map f | f in fs :: if Ages(fs, f, aged) then fs[f].(status := Fixed) else fs[f];
    var closes := set f | f in fs && Ages(fs, f, aged) && fs[f].issue.Some? :: Candidate(f, fs[f].issue.value);
    SetTodo(s.(world := s.world.(findings := fs')), t, Todo({}, None, None, closes))
  }

  function UndoMove(w: World, id: IssueId, name: string, status: string): World
    requires id in w.issues
  {
    var i := w.issues[id];
    var dones := if status in w.done then i.dones + [Undone(name)] else i.dones;
    w.(issues := w.issues[id := Issue(status, i.log, dones)], reopenDebts := DebtsAfter(w, id, status))
  }

  function Apply(s: Sys, a: Action): Sys
  {
    match a
    case Ingest(t, touched, swept) => if TodoOf(s, t) == NOTHING then IngestStep(s, t, touched, swept) else s
    case StaleSweep(t, aged) => if TodoOf(s, t) == NOTHING then StaleStep(s, t, aged) else s
    case CheckStatus(t, id) =>
      var todo := TodoOf(s, t);
      if todo.sawDone.Some? || todo.checked.Some? || id !in todo.reopens then s
      else if id in s.world.issues && IsDone(s.world, s.world.issues[id]) then SetTodo(s, t, todo.(sawDone := Some(id)))
      else SetTodo(s, t, todo.(reopens := todo.reopens - {id}))
    case CheckLog(t) =>
      var todo := TodoOf(s, t);
      if todo.sawDone.None? then s
      else
        var id := todo.sawDone.value;
        if id in s.world.issues && LastIntoDone(s.world.done, s.world.issues[id].log) == Some(CascadeActor) then
          SetTodo(s, t, todo.(sawDone := None, checked := Some(Checked(id, |s.world.issues[id].dones|))))
        else SetTodo(s, t, todo.(sawDone := None, reopens := todo.reopens - {id}))
    case DoReopen(t, lane, recorded) =>
      var todo := TodoOf(s, t);
      if todo.checked.None? then s
      else
        var id := todo.checked.value.id;
        SetTodo(s.(world := ReopenTx(s.world, id, lane, recorded)), t,
          todo.(reopens := todo.reopens - {id}, checked := None))
    case Close(t, c, d, lane, recorded) =>
      var todo := TodoOf(s, t);
      if todo.reopens != {} || c !in todo.closes then s
      else SetTodo(s.(world := CloseOne(s.world, c.finding, c.issue, d, lane, recorded).0), t,
        todo.(closes := todo.closes - {c}))
    case Crash(t) => SetTodo(s, t, NOTHING)
    case Create(id, status) =>
      if id in s.world.issues || status in s.world.done then s
      else s.(world := s.world.(issues := s.world.issues[id := Issue(status, [], [])]))
    case PersonMoves(id, name, status) =>
      if id !in s.world.issues then s else s.(world := SetStatus(s.world, id, Person(name), status))
    case PersonUndoes(id, name, status) =>
      if id !in s.world.issues then s else s.(world := UndoMove(s.world, id, name, status))
    case PersonEdits(f, issue, status) =>
      if f !in s.world.findings then s
      else s.(world := s.world.(findings :=
        s.world.findings[f := s.world.findings[f].(issue := issue, status := status)]))
  }

  ghost predicate Regresses(fs: map<FindingId, Finding>, touched: set<FindingId>, f: FindingId, id: IssueId)
  {
    f in touched && f in fs && fs[f].issue == Some(id) && fs[f].status in {Fixed, UnseenInLatest}
  }

  /** What an ingest makes of each finding, which issues it is going to reopen, and which it is going to close. */
  lemma IngestMeans(s: Sys, t: Tid, touched: set<FindingId>, swept: set<FindingId>)
    ensures var fs, s' := s.world.findings, IngestStep(s, t, touched, swept);
      var fs' := s'.world.findings;
      && s'.world == s.world.(findings := fs') && fs'.Keys == fs.Keys + touched
      && (forall f | f in touched && f !in fs :: fs'[f] == Finding(None, Open, true))
      && (forall f | f in fs && f in touched ::
            fs'[f] == if fs[f].status in {Fixed, UnseenInLatest} then fs[f].(status := Open) else fs[f])
      && (forall f | f in fs && f !in touched ::
            fs'[f] == if f in swept && fs[f].defect && fs[f].status in {Open, Acknowledged, UnseenInLatest}
                      then fs[f].(status := UnseenInLatest) else fs[f])
      && (forall id :: id in TodoOf(s', t).reopens <==> exists f :: Regresses(fs, touched, f, id))
      && (forall c :: c in TodoOf(s', t).closes <==>
            && c.finding in swept && c.finding !in touched && c.finding in fs && fs[c.finding].issue == Some(c.issue)
            && fs[c.finding].defect && fs[c.finding].status in {Open, Acknowledged}
            && c.issue !in TodoOf(s', t).reopens)
      && TodoOf(s', t).sawDone.None? && TodoOf(s', t).checked.None?
      && forall u: Tid | u != t :: TodoOf(s', u) == TodoOf(s, u)
  {
    var fs := s.world.findings;
    var regressed := RegressedIssues(fs, touched);
    forall id ensures id in regressed <==> exists f :: Regresses(fs, touched, f, id) {
      if f: FindingId :| Regresses(fs, touched, f, id) {
        assert fs[f].issue.value in regressed;
      }
      if id in regressed {
        var f :| f in touched && f in fs && fs[f].issue.Some? && IsResolved(fs[f].status) && fs[f].issue.value == id;
        assert Regresses(fs, touched, f, id);
      }
    }
    forall c
      ensures c in ResolvedPairs(fs, touched, swept) <==>
        && c.finding in swept && c.finding !in touched && c.finding in fs && fs[c.finding].issue == Some(c.issue)
        && fs[c.finding].defect && fs[c.finding].status in {Open, Acknowledged}
    {
      assert c == Candidate(c.finding, c.issue);
    }
    hide RegressedIssues, ResolvedPairs;
  }

  /** A stale sweep fixes exactly the aged unseen defects and is going to close the issues they are linked to. */
  lemma StaleSweepMeans(s: Sys, t: Tid, aged: set<FindingId>)
    ensures var fs, s' := s.world.findings, StaleStep(s, t, aged);
      var fs' := s'.world.findings;
      && s'.world == s.world.(findings := fs') && fs'.Keys == fs.Keys
      && (forall f | f in fs ::
            fs'[f] == if f in aged && fs[f].defect && fs[f].status == UnseenInLatest then fs[f].(status := Fixed)
              else fs[f])
      && (forall c :: c in TodoOf(s', t).closes <==>
            && c.finding in fs && fs[c.finding].issue == Some(c.issue)
            && c.finding in aged && fs[c.finding].defect && fs[c.finding].status == UnseenInLatest)
      && TodoOf(s', t) == Todo({}, None, None, TodoOf(s', t).closes)
      && forall u: Tid | u != t :: TodoOf(s', u) == TodoOf(s, u)
  {
    var fs, s' := s.world.findings, StaleStep(s, t, aged);
    forall c ensures c in TodoOf(s', t).closes <==>
      && c.finding in fs && fs[c.finding].issue == Some(c.issue)
      && c.finding in aged && fs[c.finding].defect && fs[c.finding].status == UnseenInLatest
    {
      assert c == Candidate(c.finding, c.issue);
    }
  }

  /** An issue that goes into done has no debt of a failed reopen any more. */
  lemma IntoDoneClearsDebts(s: Sys, a: Action, id: IssueId)
    requires id in s.world.issues && !IsDone(s.world, s.world.issues[id])
    requires id in Apply(s, a).world.issues && IsDone(Apply(s, a).world, Apply(s, a).world.issues[id])
    ensures id !in Apply(s, a).world.reopenDebts
  {
    hide IngestFindings, RegressedIssues, ResolvedPairs, OtherActive;
  }

  function Init(done: set<string>): Sys
  {
    Sys(World(map[], map[], done, {}, {}), map[])
  }

  function ApplyAll(s: Sys, actions: seq<Action>): Sys
  {
    if actions == [] then s else Apply(ApplyAll(s, actions[..|actions| - 1]), actions[|actions| - 1])
  }

  lemma Extend(s0: Sys, actions: seq<Action>, s: Sys, a: Action) returns (actions': seq<Action>, s': Sys)
    requires s == ApplyAll(s0, actions)
    ensures actions' == actions + [a] && s' == ApplyAll(s0, actions') && s' == Apply(s, a)
  {
    actions' := actions + [a];
    s' := Apply(s, a);
    assert actions'[..|actions'| - 1] == actions;
  }

  // -- What the cascade closes --

  /** The step writes entry `n` of the issue's log by closing it, allowed to and with no linked finding active. */
  ghost predicate ClosesAt(s: Sys, a: Action, id: IssueId, n: nat)
  {
    && a.Close? && a.c.issue == id && a.decision.allowed && a.c in TodoOf(s, a.t).closes
    && id in s.world.issues && |s.world.issues[id].log| == n && !IsDone(s.world, s.world.issues[id])
    && a.c.finding in s.world.findings && s.world.findings[a.c.finding].issue == Some(id)
    && AllResolved(s.world, id)
  }

  ghost predicate LogOf(s: Sys, id: IssueId, log: seq<Change>)
  {
    if id in s.world.issues then s.world.issues[id].log == log else log == []
  }

  lemma StepLogs(s: Sys, a: Action, id: IssueId, log: seq<Change>, log': seq<Change>)
    requires LogOf(s, id, log) && LogOf(Apply(s, a), id, log')
    ensures Apply(s, a).world.done == s.world.done
    ensures log' == log || exists c :: log' == log + [c]
    ensures |log'| > |log| && log'[|log|].actor == CascadeActor && log'[|log|].status in s.world.done
      ==> ClosesAt(s, a, id, |log|)
  {
    if a.Close? {
      ClosesOnlyResolved(s.world, a.c.finding, a.c.issue, a.decision, a.lane, a.recorded);
    }
  }

  ghost predicate Closed(done: set<string>, actions: seq<Action>, k: nat, id: IssueId, n: nat)
    requires k < |actions|
  {
    ClosesAt(ApplyAll(Init(done), actions[..k]), actions[k], id, n)
  }

  /** In every interleaving each change into done that the cascade logged was made by a close step that was allowed
      and that met the issue not done and every finding linked to it fixed, a false positive or unseen. */
  lemma {:induction false} CascadeCloses(done: set<string>, actions: seq<Action>, id: IssueId, n: nat)
    requires var w := ApplyAll(Init(done), actions).world;
      id in w.issues && n < |w.issues[id].log| && w.issues[id].log[n].actor == CascadeActor
        && w.issues[id].log[n].status in done
    ensures ApplyAll(Init(done), actions).world.done == done
    ensures exists k: nat :: k < |actions| && Closed(done, actions, k, id, n)
  {
    var init, a := actions[..|actions| - 1], actions[|actions| - 1];
    var s := ApplyAll(Init(done), init);
    DoneIsFixed(done, init);
    var log := if id in s.world.issues then s.world.issues[id].log else [];
    StepLogs(s, a, id, log, Apply(s, a).world.issues[id].log);
    if n < |log| {
      CascadeCloses(done, init, id, n);
      var k: nat :| k < |init| && Closed(done, init, k, id, n);
      assert actions[..k] == init[..k];
      assert Closed(done, actions, k, id, n);
    } else {
      assert Closed(done, actions, |init|, id, n);
    }
  }

  lemma {:induction false} DoneIsFixed(done: set<string>, actions: seq<Action>)
    ensures ApplyAll(Init(done), actions).world.done == done
  {
    if actions != [] {
      DoneIsFixed(done, actions[..|actions| - 1]);
      hide CloseOne, ReopenTx, IngestStep, StaleStep;
      ApplyKeepsDoneSet(ApplyAll(Init(done), actions[..|actions| - 1]), actions[|actions| - 1]);
    }
  }

  lemma ApplyKeepsDoneSet(s: Sys, a: Action)
    ensures Apply(s, a).world.done == s.world.done
  {
  }

  // -- Whose decision a reopen overturns --

  predicate ByPerson(d: IntoDone)
  {
    d.Undone? || d.actor.Person?
  }

  /** The last way into done that left a status change behind. */
  function LastMoved(dones: seq<IntoDone>): Option<Actor>
  {
    if dones == [] then None
    else if dones[|dones| - 1].Moved? then Some(dones[|dones| - 1].actor)
    else LastMoved(dones[..|dones| - 1])
  }

  ghost predicate Logged(w: World, i: Issue)
  {
    LastIntoDone(w.done, i.log) == LastMoved(i.dones) && (IsDone(w, i) ==> i.dones != [])
  }

  ghost predicate CheckHeld(s: Sys, c: Checked)
  {
    && c.id in s.world.issues && 1 <= c.mark <= |s.world.issues[c.id].dones|
    && LastMoved(s.world.issues[c.id].dones[..c.mark]) == Some(CascadeActor)
  }

  ghost predicate HistoryInv(s: Sys)
  {
    && (forall id | id in s.world.issues :: Logged(s.world, s.world.issues[id]))
    && forall t: Tid :: TodoOf(s, t).checked.Some? ==> CheckHeld(s, TodoOf(s, t).checked.value)
  }

  ghost predicate Grows(i: Issue, i': Issue)
  {
    i'.dones == i.dones || exists d :: i'.dones == i.dones + [d]
  }

  lemma SetStatusKeepsLogged(w: World, id: IssueId, actor: Actor, status: string)
    requires id in w.issues && Logged(w, w.issues[id])
    ensures var w' := SetStatus(w, id, actor, status); Logged(w', w'.issues[id]) && Grows(w.issues[id], w'.issues[id])
  {
    var i, i' := w.issues[id], SetStatus(w, id, actor, status).issues[id];
    assert i'.log[..|i'.log| - 1] == i.log;
    if status in w.done {
      assert i'.dones == i.dones + [Moved(actor)] && i'.dones[..|i'.dones| - 1] == i.dones;
    }
  }

  lemma UndoKeepsLogged(w: World, id: IssueId, name: string, status: string)
    requires id in w.issues && Logged(w, w.issues[id])
    ensures var w' := UndoMove(w, id, name, status); Logged(w', w'.issues[id]) && Grows(w.issues[id], w'.issues[id])
  {
    var i, i' := w.issues[id], UndoMove(w, id, name, status).issues[id];
    if status in w.done {
      assert i'.dones == i.dones + [Undone(name)] && i'.dones[..|i'.dones| - 1] == i.dones;
    }
  }

  /** What a step does to an issue: nothing, a change of status, or an undo. */
  ghost predicate Touches(w: World, w': World, id: IssueId)
    requires id in w.issues
  {
    && w'.done == w.done && id in w'.issues
    && (|| w'.issues[id] == w.issues[id]
        || (exists actor, status :: w'.issues[id] == SetStatus(w, id, actor, status).issues[id])
        || (exists name, status :: w'.issues[id] == UndoMove(w, id, name, status).issues[id]))
  }

  lemma StepTouches(s: Sys, a: Action, id: IssueId)
    requires id in s.world.issues
    ensures Touches(s.world, Apply(s, a).world, id)
  {
    var w, w' := s.world, Apply(s, a).world;
    hide SetStatus, UndoMove, OtherActive, IngestFindings;
    match a
    case DoReopen(t, lane, recorded) => SetOnly(w, id);
    case Close(t, c, d, lane, recorded) => SetOnly(w, id);
    case PersonMoves(j, name, status) => SetOnly(w, id);
    case PersonUndoes(j, name, status) => SetOnly(w, id);
    case _ =>
  }

  lemma SetOnly(w: World, id: IssueId)
    requires id in w.issues
    ensures forall j, actor, status | j in w.issues :: var w' := SetStatus(w, j, actor, status);
      w'.done == w.done && w'.findings == w.findings && id in w'.issues && (j != id ==> w'.issues[id] == w.issues[id])
    ensures forall j, name, status | j in w.issues :: var w' := UndoMove(w, j, name, status);
      w'.done == w.done && w'.findings == w.findings && id in w'.issues && (j != id ==> w'.issues[id] == w.issues[id])
  {
  }

  /** Every step leaves each issue's history consistent with its log and only adds to it. */
  lemma StepKeepsLogged(s: Sys, a: Action, id: IssueId)
    requires HistoryInv(s) && id in Apply(s, a).world.issues
    ensures Logged(Apply(s, a).world, Apply(s, a).world.issues[id])
    ensures id in s.world.issues ==> Grows(s.world.issues[id], Apply(s, a).world.issues[id])
  {
    if id in s.world.issues {
      var w, w' := s.world, Apply(s, a).world;
      assert Logged(w, w.issues[id]);
      StepTouches(s, a, id);
      hide Apply;
      if actor, status :| w'.issues[id] == SetStatus(w, id, actor, status).issues[id] {
        SetStatusKeepsLogged(w, id, actor, status);
      } else if name, status :| w'.issues[id] == UndoMove(w, id, name, status).issues[id] {
        UndoKeepsLogged(w, id, name, status);
      }
    }
  }

  lemma StepKeepsHistory(s: Sys, a: Action)
    requires HistoryInv(s)
    ensures HistoryInv(Apply(s, a))
  {
    var s' := Apply(s, a);
    forall id | id in s'.world.issues ensures Logged(s'.world, s'.world.issues[id]) {
      StepKeepsLogged(s, a, id);
    }
    forall t: Tid | TodoOf(s', t).checked.Some? ensures CheckHeld(s', TodoOf(s', t).checked.value) {
      var c := TodoOf(s', t).checked.value;
      if TodoOf(s, t).checked == Some(c) {
        assert CheckHeld(s, c);
        StepTouches(s, a, c.id);
        StepKeepsLogged(s, a, c.id);
        assert s'.world.issues[c.id].dones[..c.mark] == s.world.issues[c.id].dones[..c.mark];
      } else {
        var dones := s.world.issues[c.id].dones;
        assert dones[..|dones|] == dones && Logged(s.world, s.world.issues[c.id]);
      }
    }
  }

  lemma {:induction false} RunsKeepHistory(done: set<string>, actions: seq<Action>)
    ensures HistoryInv(ApplyAll(Init(done), actions))
  {
    if actions != [] {
      RunsKeepHistory(done, actions[..|actions| - 1]);
      StepKeepsHistory(ApplyAll(Init(done), actions[..|actions| - 1]), actions[|actions| - 1]);
    }
  }

  /** The issue is done, a person put it there last, and then it is not done any more. */
  ghost predicate Overturned(w: World, w': World, id: IssueId)
  {
    && id in w.issues && IsDone(w, w.issues[id]) && w.issues[id].dones != []
    && ByPerson(w.issues[id].dones[|w.issues[id].dones| - 1])
    && id in w'.issues && !IsDone(w', w'.issues[id])
  }

  /** The reopen step can reopen, and either the last way into done since its check was a person's, or there was
      none since and the check itself had passed over a person's undo. */
  ghost predicate OverturnDue(s: Sys, c: Checked, lane: Lane)
  {
    && CanReopen(s.world, c.id, lane)
    && var dones := s.world.issues[c.id].dones;
      1 <= c.mark <= |dones| &&
      if |dones| > c.mark then ByPerson(dones[|dones| - 1]) else dones[c.mark - 1].Undone?
  }

  lemma ReopenStepIff(s: Sys, t: Tid, lane: Lane, recorded: bool)
    requires TodoOf(s, t).checked.Some? && CheckHeld(s, TodoOf(s, t).checked.value)
    ensures var c := TodoOf(s, t).checked.value;
      Overturned(s.world, Apply(s, DoReopen(t, lane, recorded)).world, c.id) <==> OverturnDue(s, c, lane)
  {
    var c := TodoOf(s, t).checked.value;
    var dones := s.world.issues[c.id].dones;
    assert Apply(s, DoReopen(t, lane, recorded)).world == ReopenTx(s.world, c.id, lane, recorded);
    if |dones| == c.mark {
      assert dones[..c.mark] == dones;
    }
    hide Apply;
  }

  /** In every interleaving the reopen step overturns a person exactly when that is due: a call whose check was
      followed by no person's way into done overturns nobody, unless the check passed over an undo. */
  lemma ReopenOverturnsIff(done: set<string>, actions: seq<Action>, t: Tid, lane: Lane, recorded: bool)
    requires TodoOf(ApplyAll(Init(done), actions), t).checked.Some?
    ensures var s := ApplyAll(Init(done), actions);
      var c := TodoOf(s, t).checked.value;
      && c.id in s.world.issues && 1 <= c.mark <= |s.world.issues[c.id].dones|
      && (Overturned(s.world, Apply(s, DoReopen(t, lane, recorded)).world, c.id) <==> OverturnDue(s, c, lane))
  {
    RunsKeepHistory(done, actions);
    var s := ApplyAll(Init(done), actions);
    assert CheckHeld(s, TodoOf(s, t).checked.value);
    ReopenStepIff(s, t, lane, recorded);
    hide Apply, ApplyAll, HistoryInv, Overturned, OverturnDue;
  }

  function Uninterrupted(s: Sys, t: Tid, id: IssueId, lane: Lane, recorded: bool): Sys
  {
    Apply(Apply(Apply(s, CheckStatus(t, id)), CheckLog(t)), DoReopen(t, lane, recorded))
  }

  // A call works on one issue of its list at a time.
  ghost predicate InOrder(todo: Todo)
  {
    && (todo.sawDone.Some? ==> todo.sawDone.value in todo.reopens && todo.checked.None?)
    && (todo.checked.Some? ==> todo.checked.value.id in todo.reopens)
  }

  lemma StepKeepsOrder(s: Sys, a: Action, t: Tid)
    requires InOrder(TodoOf(s, t))
    ensures InOrder(TodoOf(Apply(s, a), t))
  {
    hide SetStatus, CloseOne, ReopenTx, IngestFindings, RegressedIssues, ResolvedPairs, MayReopen, LastIntoDone;
  }

  /** In every interleaving a call checks and reopens only issues it owes a reopen, one after the other. */
  lemma {:induction false} CallsAreInOrder(done: set<string>, actions: seq<Action>, t: Tid)
    ensures InOrder(TodoOf(ApplyAll(Init(done), actions), t))
  {
    if actions != [] {
      CallsAreInOrder(done, actions[..|actions| - 1], t);
      StepKeepsOrder(ApplyAll(Init(done), actions[..|actions| - 1]), actions[|actions| - 1], t);
    }
  }

  /** With nothing between the check and the reopen, a call reopens exactly the issues that are done and whose last
      logged change into done was the cascade's, workflow permitting; and it overturns a person exactly when one
      has put the issue back into done by an undo since then. */
  lemma UninterruptedReopenIff(done: set<string>, actions: seq<Action>, t: Tid, id: IssueId, lane: Lane, recorded: bool)
    requires var todo := TodoOf(ApplyAll(Init(done), actions), t);
      id in todo.reopens && todo.sawDone.None? && todo.checked.None?
    ensures var s := ApplyAll(Init(done), actions);
      var s' := Uninterrupted(s, t, id, lane, recorded);
      var w, w' := s.world, s'.world;
      && w' == ReopenOne(w, id, lane, recorded)
      && TodoOf(s', t) == TodoOf(s, t).(reopens := TodoOf(s, t).reopens - {id})
      && (CanReopen(w, id, lane) ==>
            && (!IsDone(w', w'.issues[id]) <==> LastMoved(w.issues[id].dones) == Some(CascadeActor))
            && w.issues[id].dones != []
            && (Overturned(w, w', id) <==>
                  LastMoved(w.issues[id].dones) == Some(CascadeActor)
                    && w.issues[id].dones[|w.issues[id].dones| - 1].Undone?))
  {
    RunsKeepHistory(done, actions);
    var s := ApplyAll(Init(done), actions);
    if id in s.world.issues {
      assert Logged(s.world, s.world.issues[id]);
    }
  }

  /** A person puts an issue into done while a call that has checked it has not reopened it yet, or undoes into done
      at any time. */
  ghost predicate Raced(s: Sys, a: Action)
  {
    || (a.PersonMoves? && a.status in s.world.done && exists t: Tid :: ChecksNow(s, t, a.id))
    || (a.PersonUndoes? && a.status in s.world.done)
  }

  ghost predicate ChecksNow(s: Sys, t: Tid, id: IssueId)
  {
    TodoOf(s, t).checked.Some? && TodoOf(s, t).checked.value.id == id
  }

  ghost predicate Unraced(s: Sys, actions: seq<Action>)
  {
    actions != [] ==>
      && Unraced(s, actions[..|actions| - 1])
      && !Raced(ApplyAll(s, actions[..|actions| - 1]), actions[|actions| - 1])
  }

  /** No issue went into done by an undo, and none that a call has checked by a person since. */
  ghost predicate NobodySince(s: Sys)
  {
    && (forall id | id in s.world.issues :: NoUndo(s.world.issues[id].dones))
    && forall t: Tid :: TodoOf(s, t).checked.Some? ==> NoPersonSince(s, TodoOf(s, t).checked.value)
  }

  ghost predicate NoUndo(dones: seq<IntoDone>)
  {
    forall d | d in dones :: d.Moved?
  }

  ghost predicate NoPersonSince(s: Sys, c: Checked)
  {
    c.id in s.world.issues && forall k | c.mark <= k < |s.world.issues[c.id].dones| ::
      !ByPerson(s.world.issues[c.id].dones[k])
  }

  /** Which way into done a step adds: a person's only by the person's own step. */
  lemma StepAdds(s: Sys, a: Action, id: IssueId)
    requires id in Apply(s, a).world.issues
    ensures var dones' := Apply(s, a).world.issues[id].dones;
      if id !in s.world.issues then dones' == []
      else
        || dones' == s.world.issues[id].dones
        || dones' == s.world.issues[id].dones + [Moved(CascadeActor)]
        || (a.PersonMoves? && a.id == id && a.status in s.world.done
          && dones' == s.world.issues[id].dones + [Moved(Person(a.name))])
        || (a.PersonUndoes? && a.id == id && a.status in s.world.done
          && dones' == s.world.issues[id].dones + [Undone(a.name)])
  {
    hide OtherActive;
  }

  lemma UnracedStep(s: Sys, a: Action)
    requires NobodySince(s) && HistoryInv(s) && !Raced(s, a)
    ensures NobodySince(Apply(s, a))
  {
    var s' := Apply(s, a);
    forall id | id in s'.world.issues ensures NoUndo(s'.world.issues[id].dones) {
      StepAdds(s, a, id);
      assert id in s.world.issues ==> NoUndo(s.world.issues[id].dones);
    }
    forall t: Tid | TodoOf(s', t).checked.Some? ensures NoPersonSince(s', TodoOf(s', t).checked.value) {
      var c := TodoOf(s', t).checked.value;
      if TodoOf(s, t).checked == Some(c) {
        assert NoPersonSince(s, c) && ChecksNow(s, t, c.id);
        StepTouches(s, a, c.id);
        StepAdds(s, a, c.id);
      }
    }
  }

  lemma {:induction false} UnracedRun(done: set<string>, actions: seq<Action>)
    requires Unraced(Init(done), actions)
    ensures NobodySince(ApplyAll(Init(done), actions))
  {
    if actions != [] {
      UnracedRun(done, actions[..|actions| - 1]);
      RunsKeepHistory(done, actions[..|actions| - 1]);
      UnracedStep(ApplyAll(Init(done), actions[..|actions| - 1]), actions[|actions| - 1]);
    }
  }

  lemma NobodyDue(s: Sys, c: Checked, lane: Lane)
    requires NoPersonSince(s, c) && NoUndo(s.world.issues[c.id].dones)
    ensures !OverturnDue(s, c, lane)
  {
    var dones := s.world.issues[c.id].dones;
    if 1 <= c.mark <= |dones| {
      assert dones[c.mark - 1] in dones;
    }
  }

  lemma OverturnIsReopen(s: Sys, a: Action, id: IssueId)
    requires Overturned(s.world, Apply(s, a).world, id) && !a.PersonMoves? && !a.PersonUndoes?
    ensures a.DoReopen? && ChecksNow(s, a.t, id)
  {
    hide OtherActive, IngestFindings, RegressedIssues, ResolvedPairs, Ages, ByPerson;
  }

  /** While people undo nothing into done, and put into done nothing that a call has checked and not reopened yet,
      only people overturn people. */
  lemma OnlyPeopleOverturnPeople(done: set<string>, actions: seq<Action>, a: Action, id: IssueId)
    requires Unraced(Init(done), actions)
    ensures var s := ApplyAll(Init(done), actions);
      Overturned(s.world, Apply(s, a).world, id) ==> a.PersonMoves? || a.PersonUndoes?
  {
    hide Apply, ApplyAll, Overturned, OverturnDue;
    var s := ApplyAll(Init(done), actions);
    if Overturned(s.world, Apply(s, a).world, id) && !a.PersonMoves? && !a.PersonUndoes? {
      UnracedRun(done, actions);
      OverturnIsReopen(s, a, id);
      ReopenOverturnsIff(done, actions, a.t, a.lane, a.recorded);
      NobodyDue(s, TodoOf(s, a.t).checked.value, a.lane);
    }
  }

  /** One finding, one issue, and callers 0 and 1 with this much to do. */
  ghost predicate Looks(s: Sys, status: Status, i: Issue, todo0: Todo, todo1: Todo)
  {
    && s.world == World(map[0 := Finding(Some("i"), status, true)], map["i" := i], {"closed"}, {}, {})
    && TodoOf(s, 0) == todo0 && TodoOf(s, 1) == todo1 && s.todos.Keys <= {0, 1}
  }

  const START := Init({"closed"})
  const PAIR := Candidate(0, "i")
  const CLOSED := Issue("closed", [Change(CascadeActor, "closed")], [Moved(CascadeActor)])

  lemma Created() returns (actions: seq<Action>, s: Sys)
    ensures s == ApplyAll(START, actions) && actions == [Create("i", "open"), Ingest(0, {0}, {})]
    ensures s.world == World(map[0 := Finding(None, Open, true)], map["i" := Issue("open", [], [])], {"closed"}, {}, {})
    ensures TodoOf(s, 0) == NOTHING && s.todos.Keys == {0}
  {
    actions, s := Extend(START, [], START, Create("i", "open"));
    assert s.todos == map[] && s.world.findings == map[];
    actions, s := Extend(START, actions, s, Ingest(0, {0}, {}));
    assert RegressedIssues(map[], {0}) == {} && ResolvedPairs(map[], {0}, {}) == {};
    assert TodoOf(s, 0).closes == {};
    assert s.world.findings == map[0 := Finding(None, Open, true)];
  }

  lemma Linked() returns (actions: seq<Action>, s: Sys)
    ensures s == ApplyAll(START, actions) && Looks(s, Open, Issue("open", [], []), NOTHING, NOTHING)
    ensures forall a | a in actions :: !a.PersonUndoes?
  {
    actions, s := Created();
    actions, s := Extend(START, actions, s, PersonEdits(0, Some("i"), Open));
    assert s.world.findings == map[0 := Finding(Some("i"), Open, true)];
  }

  lemma Sweep(actions: seq<Action>, s: Sys, i: Issue) returns (actions': seq<Action>, s': Sys)
    requires s == ApplyAll(START, actions) && Looks(s, Open, i, NOTHING, NOTHING)
    ensures actions' == actions + [Ingest(0, {}, {0})] && s' == ApplyAll(START, actions')
    ensures Looks(s', UnseenInLatest, i, Todo({}, None, None, {PAIR}), NOTHING)
  {
    var fs := s.world.findings;
    actions', s' := Extend(START, actions, s, Ingest(0, {}, {0}));
    assert RegressedIssues(fs, {}) == {} && ResolvedPairs(fs, {}, {0}) == {PAIR};
    assert TodoOf(s', 0).closes == {PAIR};
    assert s'.world.findings == map[0 := Finding(Some("i"), UnseenInLatest, true)];
  }

  lemma Report(actions: seq<Action>, s: Sys, i: Issue) returns (actions': seq<Action>, s': Sys)
    requires s == ApplyAll(START, actions) && Looks(s, UnseenInLatest, i, NOTHING, NOTHING)
    ensures actions' == actions + [Ingest(1, {0}, {})] && s' == ApplyAll(START, actions')
    ensures Looks(s', Open, i, NOTHING, Todo({"i"}, None, None, {}))
  {
    var fs := s.world.findings;
    actions', s' := Extend(START, actions, s, Ingest(1, {0}, {}));
    assert RegressedIssues(fs, {0}) == {"i"} && ResolvedPairs(fs, {0}, {}) == {};
    assert TodoOf(s', 1).closes == {};
    assert s'.world.findings == map[0 := Finding(Some("i"), Open, true)];
  }

  lemma CloseStep(actions: seq<Action>, s: Sys, i: Issue) returns (actions': seq<Action>, s': Sys)
    requires s == ApplyAll(START, actions) && Looks(s, UnseenInLatest, i, Todo({}, None, None, {PAIR}), NOTHING)
    ensures actions' == actions + [Close(0, PAIR, Decision(true, false), Lane("closed"), true)]
      && s' == ApplyAll(START, actions')
    ensures Looks(s', UnseenInLatest, if i.status == "closed" then i
      else Issue("closed", i.log + [Change(CascadeActor, "closed")], i.dones + [Moved(CascadeActor)]), NOTHING, NOTHING)
  {
    actions', s' := Extend(START, actions, s, Close(0, PAIR, Decision(true, false), Lane("closed"), true));
    assert MayClose(s.world, 0, "i") <==> i.status != "closed";
    assert TodoOf(s', 0).closes == {};
  }

  lemma Swept() returns (actions: seq<Action>, s: Sys)
    ensures s == ApplyAll(START, actions) && Looks(s, UnseenInLatest, CLOSED, NOTHING, NOTHING)
    ensures forall a | a in actions :: !a.PersonUndoes?
  {
    actions, s := Linked();
    actions, s := Sweep(actions, s, Issue("open", [], []));
    actions, s := CloseStep(actions, s, Issue("open", [], []));
    assert [] + [Change(CascadeActor, "closed")] == CLOSED.log && [] + [Moved(CascadeActor)] == CLOSED.dones;
    assert "open" != "closed" by { assert "open"[0] != "closed"[0]; }
  }

  /** A cascade-closed issue whose finding was seen again: caller 1 is about to reopen it. */
  lemma AwaitingReopen() returns (actions: seq<Action>, s: Sys)
    ensures s == ApplyAll(START, actions) && Looks(s, Open, CLOSED, NOTHING, Todo({"i"}, None, None, {}))
    ensures forall a | a in actions :: !a.PersonUndoes?
  {
    actions, s := Swept();
    actions, s := Report(actions, s, CLOSED);
  }

  /** A run in which a person reopens and closes the issue between the check and the reopen, and is overturned. */
  lemma SplitReopenOverturnsPerson() returns (actions: seq<Action>, s: Sys)
    ensures s == ApplyAll(START, actions) && TodoOf(s, 1).checked.Some?
    ensures Overturned(s.world, Apply(s, DoReopen(1, Lane("open"), true)).world, "i")
    ensures forall a | a in actions :: !a.PersonUndoes?
  {
    actions, s := AwaitingReopen();
    actions, s := Extend(START, actions, s, CheckStatus(1, "i"));
    actions, s := Extend(START, actions, s, CheckLog(1));
    actions, s := Extend(START, actions, s, PersonMoves("i", "ann", "open"));
    actions, s := Extend(START, actions, s, PersonMoves("i", "ann", "closed"));
  }

  /** A run in which a person undoes the cascade's reopen, and the next regress overturns that although nothing
      comes between its check and its reopen. */
  lemma ReopenCanOverturnUndo() returns (actions: seq<Action>, s: Sys)
    ensures s == ApplyAll(START, actions) && "i" in TodoOf(s, 1).reopens && TodoOf(s, 1).checked.None?
    ensures var checked := Apply(Apply(s, CheckStatus(1, "i")), CheckLog(1));
      Overturned(s.world, Apply(checked, DoReopen(1, Lane("open"), true)).world, "i")
  {
    actions, s := AwaitingReopen();
    actions, s := Extend(START, actions, s, CheckStatus(1, "i"));
    actions, s := Extend(START, actions, s, CheckLog(1));
    actions, s := Extend(START, actions, s, DoReopen(1, Lane("open"), true));
    assert TodoOf(s, 1).reopens == {};
    actions, s := Extend(START, actions, s, PersonUndoes("i", "ann", "closed"));
    var i := Issue("closed", CLOSED.log + [Change(CascadeActor, "open")], CLOSED.dones + [Undone("ann")]);
    actions, s := Sweep(actions, s, i);
    actions, s := CloseStep(actions, s, i);
    actions, s := Report(actions, s, i);
    assert i.log[..1] == CLOSED.log && LastIntoDone({"closed"}, CLOSED.log) == Some(CascadeActor);
    assert MayReopen(s.world, "i");
  }

  // -- Which regresses are forgotten --

  /** A cascade-closed issue with an active linked finding. */
  ghost predicate Regressed(w: World, id: IssueId)
  {
    MayReopen(w, id) && !AllResolved(w, id)
  }

  ghost predicate Owes(s: Sys, t: Tid, id: IssueId)
  {
    id in TodoOf(s, t).reopens
  }

  /** Some call is going to reopen the issue, or a reopen failed since it last went into done and a debt says so. */
  ghost predicate Owed(s: Sys, id: IssueId)
  {
    id in s.world.reopenDebts || exists t: Tid :: Owes(s, t, id)
  }

  ghost predicate Forgotten(s: Sys, id: IssueId)
  {
    Regressed(s.world, id) && !Owed(s, id)
  }

  ghost predicate OnlyOwes(s: Sys, t: Tid, id: IssueId)
  {
    Owes(s, t, id) && forall u: Tid | u != t :: !Owes(s, u, id)
  }

  /** The four ways to forget: the only call that owes the reopen crashes, or its reopen fails and the debt cannot be
      recorded either; a person makes a finding of the issue active while nobody owes a reopen; or a person undoes
      the issue back into a close of the cascade while no call owes one. */
  ghost predicate Forgets(s: Sys, a: Action, id: IssueId)
  {
    match a
    case Crash(t) => Regressed(s.world, id) && id !in s.world.reopenDebts && OnlyOwes(s, t, id)
    case DoReopen(t, lane, recorded) =>
      && Regressed(s.world, id) && id !in s.world.reopenDebts && OnlyOwes(s, t, id)
      && ChecksNow(s, t, id) && !CanReopen(s.world, id, lane) && !recorded
    case PersonEdits(f, issue, status) =>
      && MayReopen(s.world, id) && AllResolved(s.world, id) && !Owed(s, id)
      && f in s.world.findings && issue == Some(id) && Active(status)
    case PersonUndoes(j, name, status) =>
      && j == id && id in s.world.issues && status in s.world.done && !IsDone(s.world, s.world.issues[id])
      && LastIntoDone(s.world.done, s.world.issues[id].log) == Some(CascadeActor)
      && !AllResolved(s.world, id) && forall t: Tid :: !Owes(s, t, id)
    case _ => false
  }

  lemma StillOwed(s: Sys, s': Sys, t: Tid, id: IssueId)
    requires forall u: Tid | u != t :: TodoOf(s', u) == TodoOf(s, u)
    requires id in s.world.reopenDebts ==> id in s'.world.reopenDebts
    requires Owes(s, t, id) ==> Owes(s', t, id) || id in s'.world.reopenDebts
    ensures Owed(s, id) ==> Owed(s', id)
  {
    if Owed(s, id) && id !in s.world.reopenDebts {
      var u: Tid :| Owes(s, u, id);
      assert Owes(s', u, id) || id in s'.world.reopenDebts;
    }
  }

  /** What an ingest makes active it also reopens. */
  lemma IngestOwes(s: Sys, t: Tid, touched: set<FindingId>, swept: set<FindingId>, f: FindingId, id: IssueId)
    requires var fs' := IngestStep(s, t, touched, swept).world.findings;
      f in fs' && fs'[f].issue == Some(id) && Active(fs'[f].status)
    ensures f in s.world.findings && s.world.findings[f].issue == Some(id)
    ensures Active(s.world.findings[f].status) || Owes(IngestStep(s, t, touched, swept), t, id)
  {
  }

  lemma IngestForgetsNothing(s: Sys, t: Tid, touched: set<FindingId>, swept: set<FindingId>, id: IssueId)
    requires TodoOf(s, t) == NOTHING && Forgotten(IngestStep(s, t, touched, swept), id)
    ensures Forgotten(s, id)
  {
    var s' := IngestStep(s, t, touched, swept);
    var f := ActiveFinding(s'.world, id);
    IngestOwes(s, t, touched, swept, f, id);
    StillOwed(s, s', t, id);
  }

  lemma StaleForgetsNothing(s: Sys, t: Tid, aged: set<FindingId>, id: IssueId)
    requires TodoOf(s, t) == NOTHING && Forgotten(StaleStep(s, t, aged), id)
    ensures Forgotten(s, id)
  {
    var s' := StaleStep(s, t, aged);
    var f := ActiveFinding(s'.world, id);
    assert Active(s.world.findings[f].status);
    StillOwed(s, s', t, id);
  }

  /** A change of one issue after which it is not regressed forgets nothing. */
  lemma MoveForgetsNothing(s: Sys, s': Sys, t: Tid, id: IssueId, j: IssueId)
    requires s'.world.findings == s.world.findings && s'.world.done == s.world.done
    requires forall k | k != id && k in s.world.reopenDebts :: k in s'.world.reopenDebts
    requires forall u: Tid | u != t :: TodoOf(s', u) == TodoOf(s, u)
    requires forall k | k != id && Owes(s, t, k) :: Owes(s', t, k)
    requires forall k | k in s'.world.issues && k != id ::
      k in s.world.issues && s'.world.issues[k] == s.world.issues[k]
    requires Regressed(s'.world, id) ==> id in s'.world.reopenDebts
    requires Forgotten(s', j)
    ensures Forgotten(s, j)
  {
    assert MayReopen(s.world, j) && !AllResolved(s.world, j);
    StillOwed(s, s', t, j);
  }

  lemma CloseForgetsNothing(s: Sys, t: Tid, c: Candidate, d: Decision, lane: Lane, recorded: bool, id: IssueId)
    requires Forgotten(Apply(s, Close(t, c, d, lane, recorded)), id)
    ensures Forgotten(s, id)
  {
    var s' := Apply(s, Close(t, c, d, lane, recorded));
    var todo := TodoOf(s, t);
    if todo.reopens == {} && c in todo.closes {
      ClosesOnlyResolved(s.world, c.finding, c.issue, d, lane, recorded);
      if CloseOne(s.world, c.finding, c.issue, d, lane, recorded).1.closed {
        MoveForgetsNothing(s, s', t, c.issue, id);
      } else {
        StillOwed(s, s', t, id);
      }
    }
  }

  lemma StatusForgetsNothing(s: Sys, t: Tid, j: IssueId, id: IssueId)
    requires Forgotten(Apply(s, CheckStatus(t, j)), id)
    ensures Forgotten(s, id)
  {
    var s' := Apply(s, CheckStatus(t, j));
    if s' != s && !MayReopen(s.world, j) {
      MoveForgetsNothing(s, s', t, j, id);
    } else {
      StillOwed(s, s', t, id);
    }
  }

  lemma LogForgetsNothing(s: Sys, t: Tid, id: IssueId)
    requires Forgotten(Apply(s, CheckLog(t)), id)
    ensures Forgotten(s, id)
  {
    var s' := Apply(s, CheckLog(t));
    if TodoOf(s, t).sawDone.Some? && !MayReopen(s.world, TodoOf(s, t).sawDone.value) {
      MoveForgetsNothing(s, s', t, TodoOf(s, t).sawDone.value, id);
    } else {
      StillOwed(s, s', t, id);
    }
  }

  /** A failed reopen forgets the issue it was about exactly when nothing else remembers it. */
  lemma FailureForgets(s: Sys, t: Tid, lane: Lane, recorded: bool, id: IssueId)
    requires ChecksNow(s, t, id) && !CanReopen(s.world, id, lane)
    ensures var a := DoReopen(t, lane, recorded);
      !Forgotten(s, id) && Forgotten(Apply(s, a), id) <==> Forgets(s, a, id)
  {
    var s' := Apply(s, DoReopen(t, lane, recorded));
    assert Regressed(s'.world, id) <==> Regressed(s.world, id);
    assert !Owes(s', t, id) && forall u: Tid | u != t :: TodoOf(s', u) == TodoOf(s, u);
    assert forall u: Tid | u != t :: Owes(s', u, id) <==> Owes(s, u, id);
    assert recorded ==> Owed(s', id);
    hide Regressed, Apply, CanReopen;
  }

  lemma ReopenForgets(s: Sys, t: Tid, lane: Lane, recorded: bool, id: IssueId)
    ensures var a := DoReopen(t, lane, recorded);
      !Forgotten(s, id) && Forgotten(Apply(s, a), id) <==> Forgets(s, a, id)
  {
    var s' := Apply(s, DoReopen(t, lane, recorded));
    if TodoOf(s, t).checked.Some? {
      var j := TodoOf(s, t).checked.value.id;
      if j == id && !CanReopen(s.world, j, lane) {
        FailureForgets(s, t, lane, recorded, id);
      } else if Forgotten(s', id) {
        if CanReopen(s.world, j, lane) {
          MoveForgetsNothing(s, s', t, j, id);
        } else {
          StillOwed(s, s', t, id);
        }
      }
    }
  }

  lemma CrashForgets(s: Sys, t: Tid, id: IssueId)
    ensures !Forgotten(s, id) && Forgotten(Apply(s, Crash(t)), id) <==> Forgets(s, Crash(t), id)
  {
    var s' := Apply(s, Crash(t));
    assert s'.world == s.world;
    assert forall u: Tid :: Owes(s', u, id) <==> u != t && Owes(s, u, id);
  }

  lemma EditForgets(s: Sys, f: FindingId, issue: Option<IssueId>, status: Status, id: IssueId)
    ensures var a := PersonEdits(f, issue, status);
      !Forgotten(s, id) && Forgotten(Apply(s, a), id) <==> Forgets(s, a, id)
  {
    var s' := Apply(s, PersonEdits(f, issue, status));
    StillOwed(s, s', 0, id);
    StillOwed(s', s, 0, id);
    assert MayReopen(s'.world, id) <==> MayReopen(s.world, id);
    if f in s.world.findings {
      assert s'.world.findings[f].issue == issue && s'.world.findings[f].status == status;
      assert forall g | g in s.world.findings && g != f :: s'.world.findings[g] == s.world.findings[g];
    }
  }

  lemma PersonForgets(s: Sys, a: Action, id: IssueId)
    requires a.PersonMoves? || a.PersonUndoes? || a.Create?
    ensures !Forgotten(s, id) && Forgotten(Apply(s, a), id) <==> Forgets(s, a, id)
  {
    var s' := Apply(s, a);
    assert s'.world.findings == s.world.findings;
    assert AllResolved(s'.world, id) <==> AllResolved(s.world, id);
    assert forall u: Tid :: Owes(s', u, id) <==> Owes(s, u, id);
    if a.PersonMoves? && a.id == id && id in s.world.issues {
      assert !MayReopen(s'.world, id);
    } else if !(a.PersonUndoes? && a.id == id) {
      assert id in s'.world.reopenDebts <==> id in s.world.reopenDebts;
    }
  }

  /** A step takes an issue into being forgotten exactly when it is one of the four ways to forget it. */
  lemma ForgetsIff(s: Sys, a: Action, id: IssueId)
    ensures !Forgotten(s, id) && Forgotten(Apply(s, a), id) <==> Forgets(s, a, id)
  {
    hide Forgotten;
    match a
    case Ingest(t, touched, swept) =>
      if TodoOf(s, t) == NOTHING && Forgotten(Apply(s, a), id) { IngestForgetsNothing(s, t, touched, swept, id); }
    case StaleSweep(t, aged) =>
      if TodoOf(s, t) == NOTHING && Forgotten(Apply(s, a), id) { StaleForgetsNothing(s, t, aged, id); }
    case CheckStatus(t, j) => if Forgotten(Apply(s, a), id) { StatusForgetsNothing(s, t, j, id); }
    case CheckLog(t) => if Forgotten(Apply(s, a), id) { LogForgetsNothing(s, t, id); }
    case DoReopen(t, lane, recorded) => ReopenForgets(s, t, lane, recorded, id);
    case Close(t, c, d, lane, recorded) =>
      if Forgotten(Apply(s, a), id) { CloseForgetsNothing(s, t, c, d, lane, recorded, id); }
    case Crash(t) => CrashForgets(s, t, id);
    case PersonEdits(f, issue, status) => EditForgets(s, f, issue, status, id);
    case _ => PersonForgets(s, a, id);
  }

  ghost predicate ForgottenAfter(done: set<string>, actions: seq<Action>, k: nat, id: IssueId)
    requires k <= |actions|
  {
    Forgotten(ApplyAll(Init(done), actions[..k]), id)
  }

  ghost predicate ForgetsAt(done: set<string>, actions: seq<Action>, k: nat, id: IssueId)
    requires k < |actions|
  {
    Forgets(ApplyAll(Init(done), actions[..k]), actions[k], id)
  }

  lemma StepForgetsAt(done: set<string>, actions: seq<Action>, k: nat, id: IssueId)
    requires k < |actions|
    ensures !ForgottenAfter(done, actions, k, id) && ForgottenAfter(done, actions, k + 1, id)
      <==> ForgetsAt(done, actions, k, id)
  {
    assert actions[..k + 1][..k] == actions[..k];
    ForgetsIff(ApplyAll(Init(done), actions[..k]), actions[k], id);
    assert ApplyAll(Init(done), actions[..k + 1]) == Apply(ApplyAll(Init(done), actions[..k]), actions[k]);
    hide Forgotten, Forgets, Apply;
  }

  lemma {:induction false} ForgottenSince(done: set<string>, actions: seq<Action>, k: nat, id: IssueId) returns (j: nat)
    requires k <= |actions| && ForgottenAfter(done, actions, k, id)
    ensures j < k && ForgetsAt(done, actions, j, id)
  {
    assert actions[..0] == [] && !MayReopen(Init(done).world, id);
    assert !Forgotten(Init(done), id);
    hide Forgotten, Forgets, Apply;
    if k == 0 {
      assert false;
    } else {
      StepForgetsAt(done, actions, k - 1, id);
      if ForgottenAfter(done, actions, k - 1, id) {
        j := ForgottenSince(done, actions, k - 1, id);
      } else {
        j := k - 1;
      }
    }
  }

  /** In every interleaving an issue is forgotten at some time exactly when some step forgets it; so without such a
      step, once all callers are done a cascade-closed issue has no active finding, or its reopen has failed since it
      was closed and a debt says so. */
  lemma RegressesAreNotForgotten(done: set<string>, actions: seq<Action>, id: IssueId)
    ensures (exists k: nat :: k <= |actions| && ForgottenAfter(done, actions, k, id))
       <==> (exists k: nat :: k < |actions| && ForgetsAt(done, actions, k, id))
    ensures var s := ApplyAll(Init(done), actions);
      && (forall k: nat | k < |actions| :: !ForgetsAt(done, actions, k, id))
      && (forall t: Tid :: TodoOf(s, t) == NOTHING) && MayReopen(s.world, id) && id !in s.world.reopenDebts
      ==> AllResolved(s.world, id)
  {
    forall k: nat | k < |actions| && ForgetsAt(done, actions, k, id) ensures ForgottenAfter(done, actions, k + 1, id) {
      StepForgetsAt(done, actions, k, id);
    }
    if k: nat :| k <= |actions| && ForgottenAfter(done, actions, k, id) {
      var j := ForgottenSince(done, actions, k, id);
    }
    assert actions[..|actions|] == actions;
    var s := ApplyAll(Init(done), actions);
    if (forall t: Tid :: TodoOf(s, t) == NOTHING) && MayReopen(s.world, id) && id !in s.world.reopenDebts
      && !AllResolved(s.world, id) {
      assert ForgottenAfter(done, actions, |actions|, id);
    }
  }

  /** A run in which a crash between an ingest's commit and its reopens forgets the regress. */
  lemma CrashForgetsARegress() returns (actions: seq<Action>, s: Sys)
    ensures s == ApplyAll(START, actions) && Forgets(s, Crash(1), "i") && Forgotten(Apply(s, Crash(1)), "i")
  {
    actions, s := AwaitingReopen();
    assert Active(s.world.findings[0].status);
    forall u: Tid | u != 1 ensures !Owes(s, u, "i") {
    }
    CrashForgets(s, 1, "i");
  }

  /** A run in which the reopen fails, and the comment that would say so fails as well. */
  lemma FailedReopenForgetsARegress() returns (actions: seq<Action>, s: Sys)
    ensures s == ApplyAll(START, actions)
    ensures Forgotten(Apply(s, DoReopen(1, Forbidden, false)), "i")
  {
    actions, s := AwaitingReopen();
    actions, s := Extend(START, actions, s, CheckStatus(1, "i"));
    actions, s := Extend(START, actions, s, CheckLog(1));
    assert Active(s.world.findings[0].status);
    forall u: Tid | u != 1 ensures !Owes(s, u, "i") {
    }
    FailureForgets(s, 1, Forbidden, false, "i");
  }

  /** A run in which a person links an active finding to an issue the cascade closed: no call reopens it. */
  lemma EditForgetsARegress() returns (actions: seq<Action>, s: Sys)
    ensures s == ApplyAll(START, actions) && Forgotten(Apply(s, PersonEdits(0, Some("i"), Open)), "i")
  {
    actions, s := Swept();
    EditForgets(s, 0, Some("i"), Open, "i");
  }

  /** A run in which a person undoes their own reopening of such an issue, after a finding of it became active. */
  lemma UndoForgetsARegress() returns (actions: seq<Action>, s: Sys)
    ensures s == ApplyAll(START, actions) && Forgotten(Apply(s, PersonUndoes("i", "ann", "closed")), "i")
  {
    actions, s := Swept();
    actions, s := Extend(START, actions, s, PersonMoves("i", "ann", "open"));
    var log := s.world.issues["i"].log;
    assert log[..1] == CLOSED.log && LastIntoDone({"closed"}, CLOSED.log) == Some(CascadeActor);
    assert LastIntoDone({"closed"}, log) == Some(CascadeActor);
    actions, s := Extend(START, actions, s, PersonEdits(0, Some("i"), Open));
    assert Active(s.world.findings[0].status);
    PersonForgets(s, PersonUndoes("i", "ann", "closed"), "i");
  }

  // -- Issues left open --

  ghost predicate DueForClose(s: Sys, id: IssueId)
  {
    exists t: Tid, f: FindingId :: Candidate(f, id) in TodoOf(s, t).closes
  }

  ghost predicate AgesOneOf(s: Sys, aged: set<FindingId>, id: IssueId)
  {
    exists f :: f in s.world.findings && s.world.findings[f].issue == Some(id) && Ages(s.world.findings, f, aged)
  }

  lemma IngestMakesNoneDue(s: Sys, t: Tid, touched: set<FindingId>, swept: set<FindingId>, id: IssueId)
    requires TodoOf(s, t) == NOTHING && AllResolved(s.world, id)
    ensures DueForClose(IngestStep(s, t, touched, swept), id) ==> DueForClose(s, id)
  {
    var s' := IngestStep(s, t, touched, swept);
    if u: Tid, f: FindingId :| Candidate(f, id) in TodoOf(s', u).closes {
      if u != t {
        assert Candidate(f, id) in TodoOf(s, u).closes;
      }
    }
  }

  lemma StaleSweepMakesDueIff(s: Sys, t: Tid, aged: set<FindingId>, id: IssueId)
    requires TodoOf(s, t) == NOTHING
    ensures DueForClose(StaleStep(s, t, aged), id) <==> DueForClose(s, id) || AgesOneOf(s, aged, id)
  {
    var s' := StaleStep(s, t, aged);
    if f :| f in s.world.findings && s.world.findings[f].issue == Some(id) && Ages(s.world.findings, f, aged) {
      assert Candidate(f, id) in TodoOf(s', t).closes;
    }
    if u: Tid, f: FindingId :| Candidate(f, id) in TodoOf(s, u).closes {
      assert Candidate(f, id) in TodoOf(s', u).closes;
    }
    if u: Tid, f: FindingId :| Candidate(f, id) in TodoOf(s', u).closes {
      if u != t {
        assert Candidate(f, id) in TodoOf(s, u).closes;
      }
    }
  }

  /** An issue whose findings are all resolved and that no call is going to close becomes due again exactly when a
      stale sweep ages one of its findings to fixed: an ingest collects only findings that were active. */
  lemma DueAgainIff(s: Sys, a: Action, id: IssueId)
    requires AllResolved(s.world, id) && !DueForClose(s, id)
    ensures DueForClose(Apply(s, a), id) <==> a.StaleSweep? && TodoOf(s, a.t) == NOTHING && AgesOneOf(s, a.aged, id)
  {
    var s' := Apply(s, a);
    match a
    case Ingest(t, touched, swept) =>
      if TodoOf(s, t) == NOTHING { IngestMakesNoneDue(s, t, touched, swept, id); }
    case StaleSweep(t, aged) =>
      if TodoOf(s, t) == NOTHING { StaleSweepMakesDueIff(s, t, aged, id); }
    case _ =>
      forall t: Tid, f: FindingId ensures Candidate(f, id) !in TodoOf(s', t).closes {
        assert Candidate(f, id) !in TodoOf(s, t).closes;
        TodosShrink(s, a, t);
      }
  }

  lemma TodosShrink(s: Sys, a: Action, t: Tid)
    requires !a.Ingest? && !a.StaleSweep?
    ensures TodoOf(Apply(s, a), t).closes <= TodoOf(s, t).closes
  {
    hide CloseOne, ReopenTx;
  }

  /** A run in which a crash between an ingest's commit and its closes leaves an issue open with every finding
      resolved and nobody to close it. */
  lemma CrashLeavesAnIssueOpen() returns (actions: seq<Action>, s: Sys)
    ensures s == ApplyAll(START, actions)
    ensures "i" in s.world.issues && !IsDone(s.world, s.world.issues["i"])
    ensures AllResolved(s.world, "i") && !DueForClose(s, "i")
  {
    actions, s := Linked();
    actions, s := Sweep(actions, s, Issue("open", [], []));
    actions, s := Extend(START, actions, s, Crash(0));
    assert "open" != "closed" by { assert "open"[0] != "closed"[0]; }
    forall t: Tid ensures TodoOf(s, t).closes == {} {
    }
  }
}
