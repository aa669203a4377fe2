/**
 The append-only event log of an issue tracker: recording, compare-and-swap undo, and compaction.

 An event is live when it is reversible and no `undone` marker names it.  With timestamps that do not
 step back, the live events of an issue are a stack: edits push, undo pops.
 */
module EventLog {
  import opened Wrappers
  import opened DependencyGraph

  type Stamp = int
  type Fields = map<string, string>

  datatype Kind =
    | StatusChanged
    | TitleChanged
    | PriorityChanged
    | AssigneeChanged
    | Claimed
    | DependencyAdded
    | DependencyRemoved
    | DescriptionChanged
    | NotesChanged
    | FieldsChanged
    | ParentChanged
    | Undone
    | Irreversible(name: string)

  // `old` and `new_` are the event's old_value and new_value columns.
  datatype Event = Event(
    id: nat,
    issueId: Id,
    kind: Kind,
    old_: Option<string>,
    new_: Option<string>,
    createdAt: Stamp,
    seqNo: int)

  datatype Issue = Issue(
    issueType: string,
    title: string,
    status: string,
    priority: nat,
    assignee: string,
    description: string,
    notes: string,
    fields: Fields,
    closedAt: Option<Stamp>,
    closeCommit: Option<string>,
    claimedAt: Option<Stamp>,
    claimCommit: Option<string>)

  datatype Db = Db(issues: map<Id, Issue>, graph: State, events: seq<Event>, nextId: nat)

  datatype Json = Corrupt | NotAnObject | Object(fields: Fields)

  // Which (type, status) pairs are done, and the JSON codec of the fields column.
  datatype Env = Env(done: set<(string, string)>, encode: Fields -> string, decode: string -> Json)

  ghost predicate Faithful(env: Env)
  {
    forall f: Fields :: env.decode(env.encode(f)) == Object(f)
  }

  predicate IsDone(env: Env, issueType: string, status: string)
  {
    (issueType, status) in env.done
  }

  // The fields that undo and reopen strip when an issue leaves a done state.
  const CLOSE_REASON := "close_reason"

  // ---------------------------------------------------------------------------------------
  // Decimal text
  // ---------------------------------------------------------------------------------------

  const DIGITS := "0123456789"

  /** `str(n)` and `CAST(n AS TEXT)`. */
  function Decimal(n: nat): (s: string)
    ensures s != "" && ParseDecimal(s) == Some(n)
  {
    if n < 10 then [DIGITS[n]] else Decimal(n / 10) + [DIGITS[n % 10]]
  }

  function DigitOf(c: char): Option<nat>
  {
    if '0' <= c <= '9' then Some((c - '0') as nat) else None
  }

  /** `int(text)` on plain decimal digits. */
  function ParseDecimal(s: string): Option<nat>
  {
    if s == "" then None
    else
      var d := DigitOf(s[|s| - 1]);
      if d.None? then None
      else if |s| == 1 then d
      else
        match ParseDecimal(s[..|s| - 1])
        case None => None
        case Some(n) => Some(10 * n + d.value)
  }

  lemma DecimalIsInjective(m: nat, n: nat)
    requires Decimal(m) == Decimal(n)
    ensures m == n
  {
    assert ParseDecimal(Decimal(m)) == Some(m) && ParseDecimal(Decimal(n)) == Some(n);
  }

  // ---------------------------------------------------------------------------------------
  // Recording and the undo candidate
  // ---------------------------------------------------------------------------------------

  /** `COALESCE(MAX(event_seq), -1)` over the issue's events. */
  function MaxSeq(events: seq<Event>, issue: Id): int
  {
    if events == [] then -1
    else
      var last, rest := events[|events| - 1], MaxSeq(events[..|events| - 1], issue);
      if last.issueId == issue && last.seqNo > rest then last.seqNo else rest
  }

  lemma {:induction false} MaxSeqIsMax(events: seq<Event>, issue: Id)
    ensures forall e | e in events && e.issueId == issue :: e.seqNo <= MaxSeq(events, issue)
    ensures MaxSeq(events, issue) == -1 || exists e ::
      e in events && e.issueId == issue && e.seqNo == MaxSeq(events, issue)
  {
    if events != [] {
      MaxSeqIsMax(events[..|events| - 1], issue);
      assert forall e :: e in events <==> e in events[..|events| - 1] || e == events[|events| - 1];
    }
  }

  function NextEvent(events: seq<Event>, nextId: nat, issue: Id, kind: Kind, old_: Option<string>,
      new_: Option<string>, now: Stamp): Event
  {
    Event(nextId, issue, kind, old_, new_, now, MaxSeq(events, issue) + 1)
  }

  function Record(db: Db, issue: Id, kind: Kind, old_: Option<string>, new_: Option<string>, now: Stamp): Db
  {
    db.(events := db.events + [NextEvent(db.events, db.nextId, issue, kind, old_, new_, now)], nextId := db.nextId + 1)
  }

  predicate Reversible(k: Kind)
  {
    !k.Undone? && !k.Irreversible?
  }

  predicate IsMarker(u: Event, issue: Id, id: nat)
  {
    u.issueId == issue && u.kind.Undone? && u.new_ == Some(Decimal(id))
  }

  predicate IsLive(events: seq<Event>, issue: Id, e: Event)
  {
    e.issueId == issue && Reversible(e.kind) && !exists u | u in events :: IsMarker(u, issue, e.id)
  }

  /** The live events of an issue among `part`, oldest insertion first. */
  function LiveAmong(part: seq<Event>, events: seq<Event>, issue: Id): (r: seq<Event>)
    ensures forall e :: e in r <==> e in part && IsLive(events, issue, e)
  {
    if part == [] then []
    else
      var rest, last := LiveAmong(part[..|part| - 1], events, issue), part[|part| - 1];
      if IsLive(events, issue, last) then rest + [last] else rest
  }

  function Live(events: seq<Event>, issue: Id): seq<Event>
  {
    LiveAmong(events, events, issue)
  }

  predicate Later(a: Event, b: Event)
  {
    a.createdAt > b.createdAt || (a.createdAt == b.createdAt && a.id > b.id)
  }

  /** `ORDER BY created_at DESC, id DESC LIMIT 1`. */
  function Newest(s: seq<Event>): (r: Option<Event>)
    ensures r.None? <==> s == []
    ensures r.Some? ==> r.value in s && forall e | e in s :: !Later(e, r.value)
  {
    if s == [] then None
    else
      var last, best := s[|s| - 1], Newest(s[..|s| - 1]);
      assert forall e :: e in s ==> e in s[..|s| - 1] || e == last;
      if best.Some? && !Later(last, best.value) then best else Some(last)
  }

  function Candidate(events: seq<Event>, issue: Id): Option<Event>
  {
    Newest(Live(events, issue))
  }

  // ---------------------------------------------------------------------------------------
  // Undo
  // ---------------------------------------------------------------------------------------

  datatype Reason = NoValue | BadPriority | BadFields | WouldCycle | ParentGone | ParentWouldCycle | Constraint

  datatype UndoReply =
    | NoSuchIssue
    | NoOp
    | StaleEvent(latest: nat)
    | HeldByOther(holder: string)
    | CannotUndo(reason: Reason)
    | Reversed(kind: Kind, id: nat)

  function StripCloseReason(fields: Fields): Fields
  {
    fields - {CLOSE_REASON}
  }

  function RestoreStatus(env: Env, i: Issue, status: string, now: Stamp): Issue
  {
    if IsDone(env, i.issueType, status) then i.(status := status, closedAt := Some(now), closeCommit := None)
    else i.(status := status, closedAt := None, closeCommit := None, fields := StripCloseReason(i.fields))
  }

  function RestoreAssignee(i: Issue, assignee: string, now: Stamp): Issue
  {
    i.(assignee := assignee, claimedAt := if assignee != "" then Some(now) else None, claimCommit := None)
  }

  function OrEmpty(v: Option<string>): string
  {
    if v.Some? then v.value else ""
  }

  function RestoreIssue(env: Env, i: Issue, e: Event, now: Stamp): Result<Issue, Reason>
  {
    match e.kind
    case StatusChanged => if e.old_.None? then Err(NoValue) else Ok(RestoreStatus(env, i, e.old_.value, now))
    case TitleChanged => if e.old_.None? then Err(NoValue) else Ok(i.(title := e.old_.value))
    case PriorityChanged =>
      if e.old_.None? then Err(NoValue)
      else
        var p := ParseDecimal(e.old_.value);
        if p.None? then Err(BadPriority) else Ok(i.(priority := p.value))
    case AssigneeChanged => Ok(RestoreAssignee(i, OrEmpty(e.old_), now))
    case Claimed => Ok(RestoreAssignee(i, OrEmpty(e.old_), now))
    case DescriptionChanged => Ok(i.(description := OrEmpty(e.old_)))
    case NotesChanged => Ok(i.(notes := OrEmpty(e.old_)))
    case FieldsChanged =>
      if e.old_.None? then Err(NoValue)
      else
        var j := env.decode(e.old_.value);
        if j.Object? then Ok(i.(fields := j.fields)) else Err(BadFields)
    case _ => Ok(i)
  }

  ghost function RestoreGraph(g: State, e: Event): Result<State, Reason>
  {
    match e.kind
    case DependencyAdded =>
      if e.new_.None? then Err(NoValue) else Ok(UndoAdded(g, e.issueId, e.new_.value).0)
    case DependencyRemoved =>
      if e.old_.None? then Err(NoValue)
      else
        var (g', r) := UndoRemoved(g, e.issueId, e.old_.value);
        if r.Ok? then Ok(g') else if r.error.Cycle? then Err(WouldCycle) else Err(Constraint)
    case ParentChanged =>
      var (g', r) := UndoParent(g, e.issueId, e.old_);
      if r.Ok? then Ok(g') else if r.error.NoSuchParent? then Err(ParentGone) else Err(ParentWouldCycle)
    case _ => Ok(g)
  }

  predicate Blocked(env: Env, i: Issue, actor: string, override: bool)
  {
    i.assignee != "" && i.assignee != actor && !IsDone(env, i.issueType, i.status) && !override
  }

  function KindName(k: Kind): string
  {
    match k
    case StatusChanged => "status_changed"
    case TitleChanged => "title_changed"
    case PriorityChanged => "priority_changed"
    case AssigneeChanged => "assignee_changed"
    case Claimed => "claimed"
    case DependencyAdded => "dependency_added"
    case DependencyRemoved => "dependency_removed"
    case DescriptionChanged => "description_changed"
    case NotesChanged => "notes_changed"
    case FieldsChanged => "fields_changed"
    case ParentChanged => "parent_changed"
    case Undone => "undone"
    case Irreversible(name) => name
  }

  /** `undo_last`: a refusal of any kind leaves the database as it was. */
  ghost function Undo(db: Db, env: Env, issue: Id, actor: string, expected: nat, override: bool,
      now: Stamp): (Db, UndoReply)
  {
    if issue !in db.issues then (db, NoSuchIssue)
    else
      match Candidate(db.events, issue)
      case None => (db, NoOp)
      case Some(e) =>
        if e.id != expected then (db, StaleEvent(e.id))
        else if Blocked(env, db.issues[issue], actor, override) then (db, HeldByOther(db.issues[issue].assignee))
        else
          var i, g := RestoreIssue(env, db.issues[issue], e, now), RestoreGraph(db.graph, e);
          if i.Err? then (db, CannotUndo(i.error))
          else if g.Err? then (db, CannotUndo(g.error))
          else
            var db' := db.(issues := db.issues[issue := i.value], graph := g.value);
            (Record(db', issue, Undone, Some(KindName(e.kind)), Some(Decimal(e.id)), now), Reversed(e.kind, e.id))
  }

  // ---------------------------------------------------------------------------------------
  // Compaction
  // ---------------------------------------------------------------------------------------

  function CountOf(events: seq<Event>, issue: Id): nat
  {
    if events == [] then 0
    else CountOf(events[..|events| - 1], issue) + if events[|events| - 1].issueId == issue then 1 else 0
  }

  /** How many of the issue's events sort before `e` by (created_at, id). */
  function Rank(events: seq<Event>, issue: Id, e: Event): nat
  {
    if events == [] then 0
    else
      var last := events[|events| - 1];
      Rank(events[..|events| - 1], issue, e) + if last.issueId == issue && Later(e, last) then 1 else 0
  }

  /** `DELETE ... WHERE id IN (SELECT id ... ORDER BY created_at ASC, id ASC LIMIT n)`. */
  function DeleteOldest(part: seq<Event>, events: seq<Event>, issue: Id, n: nat): seq<Event>
  {
    if part == [] then []
    else
      var rest, last := DeleteOldest(part[..|part| - 1], events, issue, n), part[|part| - 1];
      if last.issueId == issue && Rank(events, issue, last) < n then rest else rest + [last]
  }

  function CompactOne(events: seq<Event>, issue: Id, keep: nat): seq<Event>
  {
    var n := CountOf(events, issue);
    if n <= keep then events else DeleteOldest(events, events, issue, n - keep)
  }

  function Compact(events: seq<Event>, archived: seq<Id>, keep: nat): seq<Event>
  {
    if archived == [] then events
    else CompactOne(Compact(events, archived[..|archived| - 1], keep), archived[|archived| - 1], keep)
  }

  // ---------------------------------------------------------------------------------------
  // The object
  // ---------------------------------------------------------------------------------------

  class EventStore {
    const env: Env
    var issues: map<Id, Issue>
    var deps: seq<Dep>
    var parents: Parents
    var events: seq<Event>
    var nextId: nat

    ghost function View(): Db
      reads this
    {
      Db(issues, State(issues.Keys, deps, parents), events, nextId)
    }

    constructor (env: Env)
      ensures this.env == env && View() == Db(map[], State({}, [], map[]), [], 0)
    {
      this.env := env;
      issues, deps, parents, events, nextId := map[], [], map[], [], 0;
    }

    method RecordEvent(issue: Id, kind: Kind, oldValue: Option<string>, newValue: Option<string>, now: Stamp)
      modifies this`events, this`nextId
      ensures View() == Record(old(View()), issue, kind, oldValue, newValue, now)
    {
      events := events + [NextEvent(events, nextId, issue, kind, oldValue, newValue, now)];
      nextId := nextId + 1;
    }

    /** The reversal of one graph event, with the searches run on the rows. */
    method ReverseGraph(e: Event) returns (failure: Option<Reason>)
      requires e.issueId in issues
      modifies this`deps, this`parents
      ensures var spec := RestoreGraph(old(View()).graph, e);
        if failure.Some? then spec == Err(failure.value) && View() == old(View())
        else spec == Ok(View().graph)
    {
      match e.kind {
        case DependencyAdded =>
          if e.new_.None? {
            return Some(NoValue);
          }
          deps := WithoutEdge(deps, Edge(e.issueId, ParseDepValue(e.new_.value).1));
        case DependencyRemoved =>
          if e.old_.None? {
            return Some(NoValue);
          }
          var (kind, target) := ParseDepValue(e.old_.value);
          var wouldCycle := StackSearch(deps, target, e.issueId);
          if wouldCycle {
            return Some(WouldCycle);
          }
          var edge := Edge(e.issueId, target);
          if !exists i | 0 <= i < |deps| :: deps[i].edge == edge {
            if target !in issues {
              return Some(Constraint);
            }
            deps := deps + [Dep(edge, kind)];
          }
        case ParentChanged =>
          if e.old_.None? || e.old_.value == "" {
            parents := parents[e.issueId := None];
          } else {
            if e.old_.value !in issues {
              return Some(ParentGone);
            }
            var wouldCycle := WouldCreateParentCycle(parents, e.issueId, e.old_.value);
            if wouldCycle {
              return Some(ParentWouldCycle);
            }
            parents := parents[e.issueId := e.old_];
          }
        case _ =>
      }
      return None;
    }

    method UndoLast(issue: Id, actor: string, expected: nat, override: bool, now: Stamp) returns (reply: UndoReply)
      modifies this`issues, this`deps, this`parents, this`events, this`nextId
      ensures (View(), reply) == Undo(old(View()), env, issue, actor, expected, override, now)
    {
      if issue !in issues {
        return NoSuchIssue;
      }
      var row := Candidate(events, issue);
      if row.None? {
        return NoOp;
      }
      var e := row.value;
      if e.id != expected {
        return StaleEvent(e.id);
      }
      if Blocked(env, issues[issue], actor, override) {
        return HeldByOther(issues[issue].assignee);
      }
      var restored := RestoreIssue(env, issues[issue], e, now);
      if restored.Err? {
        return CannotUndo(restored.error);
      }
      assert e.issueId == issue;
      var failure := ReverseGraph(e);
      if failure.Some? {
        return CannotUndo(failure.value);
      }
      issues := issues[issue := restored.value];
      assert issues.Keys == old(issues).Keys;
      RecordEvent(issue, Undone, Some(KindName(e.kind)), Some(Decimal(e.id)), now);
      return Reversed(e.kind, e.id);
    }

    method CompactIssue(issue: Id, keepRecent: nat) returns (deleted: nat)
      modifies this`events
      ensures events == CompactOne(old(events), issue, keepRecent)
      ensures deleted == old(|events|) - |events|
    {
      var eventCount := CountOf(events, issue);
      if eventCount <= keepRecent {
        return 0;
      }
      var kept := DeleteOldest(events, events, issue, eventCount - keepRecent);
      DeleteOldestShrinks(events, events, issue, eventCount - keepRecent);
      deleted := |events| - |kept|;
      events := kept;
    }

    method CompactEvents(archived: seq<Id>, keepRecent: nat) returns (deleted: nat)
      modifies this`events
      ensures View() == old(View()).(events := Compact(old(events), archived, keepRecent))
      ensures deleted == old(|events|) - |events|
    {
      deleted := 0;
      for i := 0 to |archived|
        invariant events == Compact(old(events), archived[..i], keepRecent)
        invariant deleted == old(|events|) - |events|
      {
        CompactNext(old(events), archived, i, keepRecent);
        var fromIssue := CompactIssue(archived[i], keepRecent);
        deleted := deleted + fromIssue;
      }
      assert archived[..|archived|] == archived;
    }
  }

  lemma CompactNext(events: seq<Event>, archived: seq<Id>, i: nat, keep: nat)
    requires i < |archived|
    ensures Compact(events, archived[..i + 1], keep) ==
      CompactOne(Compact(events, archived[..i], keep), archived[i], keep)
  {
    assert archived[..i + 1][..i] == archived[..i];
  }

  lemma {:induction false} DeleteOldestShrinks(part: seq<Event>, events: seq<Event>, issue: Id, n: nat)
    ensures |DeleteOldest(part, events, issue, n)| <= |part|
    ensures forall e ::
      e in DeleteOldest(part, events, issue, n) <==> e in part && (e.issueId == issue ==> Rank(events, issue, e) >= n)
  {
    if part != [] {
      DeleteOldestShrinks(part[..|part| - 1], events, issue, n);
    }
  }

  // ---------------------------------------------------------------------------------------
  // The log's invariant
  // ---------------------------------------------------------------------------------------

  ghost predicate MarksThePast(u: Event)
  {
    u.kind.Undone? ==> exists id: nat :: id < u.id && u.new_ == Some(Decimal(id))
  }

  ghost predicate Increasing(events: seq<Event>)
  {
    forall i, j | 0 <= i < j < |events| :: events[i].id < events[j].id
  }

  ghost predicate LogInv(events: seq<Event>, nextId: nat)
  {
    && Increasing(events)
    && (forall i | 0 <= i < |events| :: events[i].id < nextId && MarksThePast(events[i]))
    && (forall u, v | u in events && v in events && SameMark(u, v) :: u == v)
  }

  /** Two markers that name the same event. */
  ghost predicate SameMark(u: Event, v: Event)
  {
    u.kind.Undone? && v.kind.Undone? && u.issueId == v.issueId && u.new_ == v.new_
  }

  /** Timestamps do not step back in insertion order. */
  ghost predicate Ordered(events: seq<Event>)
  {
    forall i, j | 0 <= i < j < |events| :: events[i].createdAt <= events[j].createdAt
  }

  ghost predicate NotAfter(events: seq<Event>, now: Stamp)
  {
    forall e | e in events :: e.createdAt <= now
  }

  function Without(s: seq<Event>, id: nat): seq<Event>
  {
    if s == [] then []
    else
      var rest, last := Without(s[..|s| - 1], id), s[|s| - 1];
      if last.id == id then rest else rest + [last]
  }

  lemma {:induction false} LiveSame(part: seq<Event>, events: seq<Event>, events': seq<Event>, issue: Id)
    requires forall e | e in part :: IsLive(events, issue, e) <==> IsLive(events', issue, e)
    ensures LiveAmong(part, events, issue) == LiveAmong(part, events', issue)
  {
    if part != [] {
      assert part[|part| - 1] in part;
      LiveSame(part[..|part| - 1], events, events', issue);
    }
  }

  lemma LiveAppend(events: seq<Event>, e: Event, issue: Id)
    requires !e.kind.Undone?
    ensures Live(events + [e], issue) == Live(events, issue) + if IsLive(events, issue, e) then [e] else []
  {
    var events' := events + [e];
    assert events'[..|events|] == events;
    forall x ensures IsLive(events, issue, x) <==> IsLive(events', issue, x) {
      SameMarkers(events, e, issue, x);
    }
    LiveSame(events, events, events', issue);
  }

  lemma SameMarkers(events: seq<Event>, e: Event, issue: Id, x: Event)
    requires !IsMarker(e, issue, x.id)
    ensures IsLive(events, issue, x) <==> IsLive(events + [e], issue, x)
  {
    assert forall u :: u in events + [e] <==> u in events || u == e;
  }

  lemma RecordKeepsLog(events: seq<Event>, nextId: nat, e: Event)
    requires LogInv(events, nextId) && e.id == nextId && !e.kind.Undone?
    ensures LogInv(events + [e], nextId + 1)
  {
    forall u | u in events + [e] ensures u in events || u == e {
    }
  }

  /** Recording a reversible event pushes it on its issue's stack; recording any other event that is not a
      marker changes no stack. */
  lemma RecordPushes(db: Db, issue: Id, kind: Kind, old_: Option<string>, new_: Option<string>, now: Stamp, any: Id)
    requires LogInv(db.events, db.nextId) && !kind.Undone?
    ensures var db' := Record(db, issue, kind, old_, new_, now);
      && Live(db'.events, any) == Live(db.events, any)
           + (if any == issue && Reversible(kind) then [NextEvent(db.events, db.nextId, issue, kind, old_, new_, now)]
             else [])
      && LogInv(db'.events, db'.nextId)
  {
    var e := NextEvent(db.events, db.nextId, issue, kind, old_, new_, now);
    hide MaxSeq;
    RecordKeepsLog(db.events, db.nextId, e);
    forall u | u in db.events ensures !IsMarker(u, issue, e.id) {
      FreshIdIsUnmarked(db, u, issue);
    }
    hide LogInv, Live;
    LiveAppend(db.events, e, any);
  }

  lemma FreshIdIsUnmarked(db: Db, u: Event, issue: Id)
    requires LogInv(db.events, db.nextId) && u in db.events
    ensures !IsMarker(u, issue, db.nextId)
  {
    if u.kind.Undone? {
      assert MarksThePast(u);
      var id: nat :| id < u.id && u.new_ == Some(Decimal(id));
      if Decimal(id) == Decimal(db.nextId) {
        DecimalIsInjective(id, db.nextId);
      }
    }
  }

  lemma {:induction false} MarkRemoves(part: seq<Event>, events: seq<Event>, m: Event, issue: Id, id: nat)
    requires IsMarker(m, issue, id)
    ensures LiveAmong(part, events + [m], issue) == Without(LiveAmong(part, events, issue), id)
  {
    if part != [] {
      MarkRemoves(part[..|part| - 1], events, m, issue, id);
      var last := part[|part| - 1];
      assert forall u :: u in events + [m] <==> u in events || u == m;
      if last.id != id {
        if Decimal(last.id) == Decimal(id) {
          DecimalIsInjective(last.id, id);
        }
        SameMarkers(events, m, issue, last);
      } else {
        assert !IsLive(events + [m], issue, last);
      }
      if IsLive(events, issue, last) {
        var rest := LiveAmong(part[..|part| - 1], events, issue);
        assert (rest + [last])[..|rest|] == rest;
      }
    }
  }

  lemma {:induction false} WithoutSplits(s: seq<Event>, k: nat)
    requires k < |s| && Increasing(s)
    ensures Without(s, s[k].id) == s[..k] + s[k + 1..]
  {
    var init, last := s[..|s| - 1], s[|s| - 1];
    if k == |s| - 1 {
      WithoutNothing(init, last.id);
    } else {
      WithoutSplits(init, k);
      assert s[k + 1..] == init[k + 1..] + [last];
    }
  }

  lemma {:induction false} WithoutNothing(s: seq<Event>, id: nat)
    requires forall e | e in s :: e.id != id
    ensures Without(s, id) == s
  {
    if s != [] {
      assert s[|s| - 1] in s;
      WithoutNothing(s[..|s| - 1], id);
      assert s == s[..|s| - 1] + [s[|s| - 1]];
    }
  }

  lemma {:induction false} LiveIncreases(part: seq<Event>, events: seq<Event>, issue: Id)
    requires Increasing(part)
    ensures Increasing(LiveAmong(part, events, issue))
  {
    if part != [] {
      var init, last := part[..|part| - 1], part[|part| - 1];
      LiveIncreases(init, events, issue);
      var rest := LiveAmong(init, events, issue);
      forall i | 0 <= i < |rest| ensures rest[i].id < last.id {
        assert rest[i] in rest;
        var k :| 0 <= k < |init| && init[k] == rest[i];
      }
    }
  }

  lemma {:induction false} LiveOrdered(part: seq<Event>, events: seq<Event>, issue: Id)
    requires Ordered(part)
    ensures Ordered(LiveAmong(part, events, issue))
  {
    if part != [] {
      var init, last := part[..|part| - 1], part[|part| - 1];
      LiveOrdered(init, events, issue);
      var rest := LiveAmong(init, events, issue);
      forall e | e in rest ensures e.createdAt <= last.createdAt {
        assert e in init;
      }
    }
  }

  // ---------------------------------------------------------------------------------------
  // When undo is refused
  // ---------------------------------------------------------------------------------------

  /** Nobody holds the issue, the actor does, or it is done. */
  predicate MayUndo(env: Env, i: Issue, actor: string)
  {
    i.assignee == "" || i.assignee == actor || (i.issueType, i.status) in env.done
  }

  /** The reply in full: no such issue, nothing live, another candidate than the named one, somebody else holding the
      open issue without an override, an event that cannot be reversed, or the reversal. */
  lemma UndoReplies(db: Db, env: Env, issue: Id, actor: string, expected: nat, override: bool, now: Stamp)
    ensures var reply := Undo(db, env, issue, actor, expected, override, now).1;
      var live := Live(db.events, issue);
      && (reply == NoSuchIssue <==> issue !in db.issues)
      && (reply == NoOp <==> issue in db.issues && live == [])
      && (reply.StaleEvent? <==> issue in db.issues && live != [] && Newest(live).value.id != expected)
      && (reply.StaleEvent? ==> reply.latest == Newest(live).value.id)
      && (issue in db.issues && live != [] && Newest(live).value.id == expected ==>
            var i := db.issues[issue];
            && (reply == HeldByOther(i.assignee) <==>
                  i.assignee != "" && i.assignee != actor && (i.issueType, i.status) !in env.done && !override)
            && (reply.HeldByOther? ==> reply.holder == i.assignee)
            && (reply.Reversed? || reply.CannotUndo? <==> override || MayUndo(env, i, actor))
            && (reply.Reversed? <==>
                  && (override || MayUndo(env, i, actor))
                  && RestoreIssue(env, i, Newest(live).value, now).Ok?
                  && RestoreGraph(db.graph, Newest(live).value).Ok?))
  {
    hide RestoreIssue, RestoreGraph, Live, MaxSeq, KindName;
  }

  // ---------------------------------------------------------------------------------------
  // What undo takes and what it writes
  // ---------------------------------------------------------------------------------------

  /** An event of the issue that records a reversible change and that no marker names. */
  ghost predicate Undoable(events: seq<Event>, issue: Id, e: Event)
  {
    && e in events && e.issueId == issue && !e.kind.Undone? && !e.kind.Irreversible?
    && forall u | u in events && u.issueId == issue && u.kind.Undone? :: u.new_ != Some(Decimal(e.id))
  }

  /** The candidate is the undoable event with the latest time and, among those, the highest id. */
  lemma CandidateMeans(events: seq<Event>, issue: Id)
    ensures Candidate(events, issue).None? <==> forall e :: !Undoable(events, issue, e)
    ensures Candidate(events, issue).Some? ==>
      var c := Candidate(events, issue).value;
      && Undoable(events, issue, c)
      && forall e | Undoable(events, issue, e) ::
           e.createdAt < c.createdAt || (e.createdAt == c.createdAt && e.id <= c.id)
  {
    var live := Live(events, issue);
    forall e ensures e in live <==> Undoable(events, issue, e) {
      if e in live {
        forall u | u in events && u.issueId == issue && u.kind.Undone? ensures u.new_ != Some(Decimal(e.id)) {
          assert !IsMarker(u, issue, e.id);
        }
      }
    }
    assert live != [] ==> live[0] in live;
  }

  /** Decimal text is a nonempty run of digits. */
  lemma {:induction false} ParseDecimalIff(s: string)
    ensures ParseDecimal(s).Some? <==> s != "" && forall c | c in s :: '0' <= c <= '9'
  {
    if s != "" {
      var init, last := s[..|s| - 1], s[|s| - 1];
      assert s == init + [last];
      assert last in s && forall c | c in init :: c in s;
      ParseDecimalIff(init);
    }
  }

  /** The value an event holds and its undo needs; the kinds left out make do without one. */
  predicate LacksValue(e: Event)
  {
    match e.kind
    case StatusChanged => e.old_ == None
    case TitleChanged => e.old_ == None
    case PriorityChanged => e.old_ == None
    case FieldsChanged => e.old_ == None
    case DependencyRemoved => e.old_ == None
    case DependencyAdded => e.new_ == None
    case _ => false
  }

  /** The columns an undo writes: the old value of the changed one, the times that go with it, and no other.  A done
      status closes now, without an anchor; any other drops the close reason. */
  lemma RestoreMeans(env: Env, i: Issue, e: Event, now: Stamp)
    ensures var r := RestoreIssue(env, i, e, now);
      && (r == Err(NoValue) <==> LacksValue(e) && !e.kind.DependencyAdded? && !e.kind.DependencyRemoved?)
      && (r == Err(BadPriority) <==>
            && e.kind.PriorityChanged? && e.old_.Some?
            && (e.old_.value == "" || exists c | c in e.old_.value :: !('0' <= c <= '9')))
      && (r == Err(BadFields) <==>
            && e.kind.FieldsChanged? && e.old_.Some?
            && (env.decode(e.old_.value).Corrupt? || env.decode(e.old_.value).NotAnObject?))
      && (r.Err? ==> r.error.NoValue? || r.error.BadPriority? || r.error.BadFields?)
      && (r.Ok? ==>
            var i' := r.value;
            && i'.issueType == i.issueType
            && i'.title == (if e.kind.TitleChanged? then e.old_.value else i.title)
            && i'.status == (if e.kind.StatusChanged? then e.old_.value else i.status)
            && (if e.kind.PriorityChanged? then Some(i'.priority) == ParseDecimal(e.old_.value)
                else i'.priority == i.priority)
            && i'.description == (if !e.kind.DescriptionChanged? then i.description
                                  else if e.old_.Some? then e.old_.value else "")
            && i'.notes == (if !e.kind.NotesChanged? then i.notes else if e.old_.Some? then e.old_.value else "")
            && (e.kind.FieldsChanged? ==> env.decode(e.old_.value) == Object(i'.fields))
            && (!e.kind.FieldsChanged? ==> forall k :: k in i'.fields <==>
                  && k in i.fields
                  && !(k == "close_reason" && e.kind.StatusChanged? && (i.issueType, e.old_.value) !in env.done))
            && (!e.kind.FieldsChanged? ==> forall k | k in i'.fields :: i'.fields[k] == i.fields[k])
            && i'.closedAt == (if !e.kind.StatusChanged? then i.closedAt
                               else if (i.issueType, e.old_.value) in env.done then Some(now) else None)
            && i'.closeCommit == (if e.kind.StatusChanged? then None else i.closeCommit)
            && (if e.kind.AssigneeChanged? || e.kind.Claimed? then
                  && i'.assignee == (if e.old_.Some? then e.old_.value else "")
                  && i'.claimedAt == (if i'.assignee == "" then None else Some(now)) && i'.claimCommit == None
                else i'.assignee == i.assignee && i'.claimedAt == i.claimedAt && i'.claimCommit == i.claimCommit))
  {
    if e.kind.PriorityChanged? && e.old_.Some? {
      ParseDecimalIff(e.old_.value);
    }
  }

  /** When a graph event cannot be reversed, and the rows its reversal leaves. */
  lemma RestoreGraphMeans(g: State, e: Event, kind: string, target: Id)
    requires e.kind.DependencyAdded? && e.new_.Some? ==> Targets(e.new_.value, kind, target)
    requires e.kind.DependencyRemoved? && e.old_.Some? ==> Targets(e.old_.value, kind, target)
    ensures var r := RestoreGraph(g, e);
      var edge := Edge(e.issueId, target);
      && (r == Err(NoValue) <==> LacksValue(e) && (e.kind.DependencyAdded? || e.kind.DependencyRemoved?))
      && (e.kind.DependencyAdded? && e.new_.Some? ==>
            && r.Ok? && r.value.issues == g.issues && r.value.parents == g.parents
            && forall d :: d in r.value.deps <==> d in g.deps && d.edge != edge)
      && (e.kind.DependencyRemoved? && e.old_.Some? ==>
            && (r == Err(WouldCycle) <==> Reaches(EdgesOf(g.deps), target, e.issueId))
            && (r == Err(Constraint) <==>
                  && !Reaches(EdgesOf(g.deps), target, e.issueId)
                  && (forall d | d in g.deps :: d.edge != edge) && (e.issueId !in g.issues || target !in g.issues))
            && (r.Err? ==> r.error.WouldCycle? || r.error.Constraint?)
            && (r.Ok? ==>
                  r.value == if exists d | d in g.deps :: d.edge == edge then g
                             else g.(deps := g.deps + [Dep(edge, kind)])))
      && (e.kind.ParentChanged? && e.issueId in g.issues ==>
            if e.old_ == None || e.old_ == Some("") then r == Ok(g.(parents := g.parents[e.issueId := None]))
            else
              var p := e.old_.value;
              if p !in g.issues then r == Err(ParentGone)
              else if Reaches(ParentGraph(g.parents), p, e.issueId) || Loops(ParentGraph(g.parents), p) then
                r == Err(ParentWouldCycle)
              else r == Ok(g.(parents := g.parents[e.issueId := Some(p)])))
      && (!e.kind.DependencyAdded? && !e.kind.DependencyRemoved? && !e.kind.ParentChanged? ==> r == Ok(g))
  {
    hide Reaches, Loops, ParentGraph;
    if e.kind.DependencyAdded? && e.new_.Some? {
      TargetIsRead(e.new_.value, kind, target);
    } else if e.kind.DependencyRemoved? && e.old_.Some? {
      TargetIsRead(e.old_.value, kind, target);
    }
  }

  // ---------------------------------------------------------------------------------------
  // Undo pops
  // ---------------------------------------------------------------------------------------

  /** The candidate is the most recently inserted live event exactly when no live event carries a later timestamp. */
  lemma CandidateIsTopIff(events: seq<Event>, nextId: nat, issue: Id)
    requires LogInv(events, nextId) && Live(events, issue) != []
    ensures var live := Live(events, issue);
      var top := live[|live| - 1];
      Candidate(events, issue) == Some(top) <==> forall e | e in live :: e.createdAt <= top.createdAt
  {
    var live := Live(events, issue);
    var top := live[|live| - 1];
    LiveIncreases(events, events, issue);
    var best := Newest(live).value;
    assert top in live && !Later(top, best);
    if forall e | e in live :: e.createdAt <= top.createdAt {
      var k :| 0 <= k < |live| && live[k] == best;
      assert best in live && best.createdAt == top.createdAt && top.id <= best.id;
    }
  }

  lemma CandidateIsTop(events: seq<Event>, nextId: nat, issue: Id)
    requires LogInv(events, nextId) && Ordered(events) && Live(events, issue) != []
    ensures var live := Live(events, issue); Candidate(events, issue) == Some(live[|live| - 1])
  {
    LiveOrdered(events, events, issue);
    CandidateIsTopIff(events, nextId, issue);
  }

  /** What a successful undo appends: one marker, naming the candidate. */
  lemma UndoAppendsAMarker(db: Db, env: Env, issue: Id, actor: string, expected: nat, override: bool, now: Stamp)
    returns (m: Event)
    requires Undo(db, env, issue, actor, expected, override, now).1.Reversed?
    ensures var (db', reply) := Undo(db, env, issue, actor, expected, override, now);
      var c := Candidate(db.events, issue);
      && c.Some? && c.value.id == expected && reply == Reversed(c.value.kind, expected)
      && c.value in Live(db.events, issue)
      && db'.events == db.events + [m] && db'.nextId == db.nextId + 1
      && IsMarker(m, issue, expected) && m.id == db.nextId && m.createdAt == now
      && m.seqNo == MaxSeq(db.events, issue) + 1
  {
    hide RestoreIssue, RestoreGraph;
    m := Undo(db, env, issue, actor, expected, override, now).0.events[|db.events|];
  }

  lemma MarkShrinks(events: seq<Event>, nextId: nat, e: Event, m: Event, issue: Id)
    requires LogInv(events, nextId) && e in Live(events, issue) && IsMarker(m, issue, e.id)
    ensures Live(events + [m], issue) == Without(Live(events, issue), e.id)
    ensures |Live(events + [m], issue)| == |Live(events, issue)| - 1
  {
    var live := Live(events, issue);
    var k :| 0 <= k < |live| && live[k] == e;
    LiveIncreases(events, events, issue);
    WithoutSplits(live, k);
    MarkAppended(events, m, issue, e.id);
  }

  /** A successful undo takes exactly the event its caller named off its issue's stack and leaves every other
      stack alone; an unsuccessful one changes nothing. */
  lemma UndoTakesTheNamedEvent(db: Db, env: Env, issue: Id, actor: string, expected: nat, override: bool, now: Stamp,
      other: Id)
    requires LogInv(db.events, db.nextId)
    ensures var (db', reply) := Undo(db, env, issue, actor, expected, override, now);
      && LogInv(db'.events, db'.nextId)
      && (!reply.Reversed? ==> db' == db)
      && (reply.Reversed? ==>
            && reply.id == expected
            && Live(db'.events, issue) == Without(Live(db.events, issue), expected)
            && |Live(db'.events, issue)| == |Live(db.events, issue)| - 1
            && (other != issue ==> Live(db'.events, other) == Live(db.events, other)))
  {
    var (db', reply) := Undo(db, env, issue, actor, expected, override, now);
    if reply.Reversed? {
      var m := UndoAppendsAMarker(db, env, issue, actor, expected, override, now);
      hide Undo, LogInv, Live, Candidate;
      var e := Candidate(db.events, issue).value;
      MarkerIsNew(db, issue, e, m);
      MarkShrinks(db.events, db.nextId, e, m, issue);
      if other != issue {
        MarkElsewhere(db.events, m, issue, expected, other);
      }
    }
  }

  lemma MarkAppended(events: seq<Event>, m: Event, issue: Id, id: nat)
    requires IsMarker(m, issue, id)
    ensures Live(events + [m], issue) == Without(Live(events, issue), id)
  {
    assert (events + [m])[..|events|] == events;
    MarkRemoves(events, events, m, issue, id);
  }

  lemma MarkElsewhere(events: seq<Event>, m: Event, issue: Id, id: nat, other: Id)
    requires IsMarker(m, issue, id) && other != issue
    ensures Live(events + [m], other) == Live(events, other)
  {
    assert (events + [m])[..|events|] == events;
    forall e ensures IsLive(events, other, e) <==> IsLive(events + [m], other, e) {
      SameMarkers(events, m, other, e);
    }
    LiveSame(events, events, events + [m], other);
  }

  /** The marker an undo appends names an event of the past that no marker named before. */
  lemma MarkerIsNew(db: Db, issue: Id, e: Event, m: Event)
    requires LogInv(db.events, db.nextId) && e in Live(db.events, issue)
    requires IsMarker(m, issue, e.id) && m.id == db.nextId
    ensures LogInv(db.events + [m], db.nextId + 1)
  {
    var events' := db.events + [m];
    assert e.id < m.id && MarksThePast(m);
    assert IsLive(db.events, issue, e);
    forall u | u in db.events ensures !SameMark(u, m) {
      assert !IsMarker(u, issue, e.id);
    }
  }

  /** While timestamps do not step back, undo pops the top of the stack. */
  lemma UndoPops(db: Db, env: Env, issue: Id, actor: string, expected: nat, override: bool, now: Stamp)
    requires LogInv(db.events, db.nextId) && Ordered(db.events)
    requires Undo(db, env, issue, actor, expected, override, now).1.Reversed?
    ensures var (db', reply) := Undo(db, env, issue, actor, expected, override, now);
      var live := Live(db.events, issue);
      && live != [] && live[|live| - 1].id == expected && reply.kind == live[|live| - 1].kind
      && Live(db'.events, issue) == live[..|live| - 1]
  {
    var m := UndoAppendsAMarker(db, env, issue, actor, expected, override, now);
    UndoTakesTheNamedEvent(db, env, issue, actor, expected, override, now, issue);
    hide Undo;
    var live := Live(db.events, issue);
    CandidateIsTop(db.events, db.nextId, issue);
    LiveIncreases(db.events, db.events, issue);
    hide Live, LogInv, Candidate;
    WithoutSplits(live, |live| - 1);
  }

  /** When the clock steps back, undo can reverse an older edit than the newest one. */
  lemma ClockStepBackUndoesTheOlderEdit(issue: Id)
    ensures var first := Event(0, issue, TitleChanged, Some("a"), Some("b"), 5, 0);
      var second := Event(1, issue, TitleChanged, Some("b"), Some("c"), 3, 1);
      LogInv([first, second], 2) && Live([first, second], issue) == [first, second]
      && Candidate([first, second], issue) == Some(first)
  {
    var first := Event(0, issue, TitleChanged, Some("a"), Some("b"), 5, 0);
    var second := Event(1, issue, TitleChanged, Some("b"), Some("c"), 3, 1);
    var log := [first, second];
    assert log[..1] == [first] && [first][..0] == [];
    assert LiveAmong([first], log, issue) == [first];
    assert Live(log, issue) == [first, second];
    assert Newest([first]) == Some(first);
  }

  // ---------------------------------------------------------------------------------------
  // Compaction
  // ---------------------------------------------------------------------------------------

  lemma {:induction false} RankGrows(events: seq<Event>, issue: Id, e: Event, u: Event)
    requires Later(u, e)
    ensures Rank(events, issue, e) <= Rank(events, issue, u)
  {
    if events != [] {
      RankGrows(events[..|events| - 1], issue, e, u);
    }
  }

  lemma {:induction false} DeletedComesFrom(part: seq<Event>, events: seq<Event>, issue: Id, n: nat, i: nat)
    returns (k: nat)
    requires i < |DeleteOldest(part, events, issue, n)|
    ensures k < |part| && part[k] == DeleteOldest(part, events, issue, n)[i]
  {
    var init := part[..|part| - 1];
    if i < |DeleteOldest(init, events, issue, n)| {
      k := DeletedComesFrom(init, events, issue, n, i);
    } else {
      k := |part| - 1;
    }
  }

  lemma {:induction false} DeleteOldestIncreases(part: seq<Event>, events: seq<Event>, issue: Id, n: nat)
    requires Increasing(part)
    ensures Increasing(DeleteOldest(part, events, issue, n))
  {
    if part != [] {
      var init, last := part[..|part| - 1], part[|part| - 1];
      DeleteOldestIncreases(init, events, issue, n);
      var rest := DeleteOldest(init, events, issue, n);
      forall i | 0 <= i < |rest| ensures rest[i].id < last.id {
        var k := DeletedComesFrom(init, events, issue, n, i);
      }
    }
  }

  lemma {:induction false} DeleteOldestOrders(part: seq<Event>, events: seq<Event>, issue: Id, n: nat)
    requires Ordered(part)
    ensures Ordered(DeleteOldest(part, events, issue, n))
  {
    if part != [] {
      var init, last := part[..|part| - 1], part[|part| - 1];
      DeleteOldestOrders(init, events, issue, n);
      var rest := DeleteOldest(init, events, issue, n);
      forall i | 0 <= i < |rest| ensures rest[i].createdAt <= last.createdAt {
        var k := DeletedComesFrom(init, events, issue, n, i);
      }
    }
  }

  ghost predicate WellLogged(events: seq<Event>, nextId: nat)
  {
    LogInv(events, nextId) && Ordered(events)
  }

  lemma FewerEventsKeepLog(events: seq<Event>, kept: seq<Event>, nextId: nat)
    requires LogInv(events, nextId) && Increasing(kept) && forall e | e in kept :: e in events
    ensures LogInv(kept, nextId)
  {
    forall i | 0 <= i < |kept| ensures kept[i].id < nextId && MarksThePast(kept[i]) {
      assert kept[i] in kept;
      var k :| 0 <= k < |events| && events[k] == kept[i];
    }
  }

  lemma DeletedKeepsLog(events: seq<Event>, nextId: nat, issue: Id, n: nat)
    requires WellLogged(events, nextId)
    ensures WellLogged(DeleteOldest(events, events, issue, n), nextId)
  {
    DeleteOldestShrinks(events, events, issue, n);
    LogIncreases(events, nextId);
    DeleteOldestIncreases(events, events, issue, n);
    DeleteOldestOrders(events, events, issue, n);
    hide LogInv, Ordered, Increasing, Rank, DeleteOldest;
    FewerEventsKeepLog(events, DeleteOldest(events, events, issue, n), nextId);
  }

  lemma CompactOneKeepsLog(events: seq<Event>, nextId: nat, issue: Id, keep: nat)
    requires WellLogged(events, nextId)
    ensures WellLogged(CompactOne(events, issue, keep), nextId)
    ensures forall e | e in CompactOne(events, issue, keep) :: e in events
    ensures forall e | e in events && e.issueId != issue :: e in CompactOne(events, issue, keep)
  {
    var n := CountOf(events, issue);
    if n > keep {
      hide WellLogged, Rank, DeleteOldest, CountOf;
      DeletedKeepsLog(events, nextId, issue, n - keep);
      DeleteOldestShrinks(events, events, issue, n - keep);
    }
  }

  lemma LogIncreases(events: seq<Event>, nextId: nat)
    requires LogInv(events, nextId)
    ensures Increasing(events)
  {
  }

  lemma IdsFollowPositions(events: seq<Event>, i: nat, j: nat)
    requires Increasing(events) && i < |events| && j < |events|
    ensures events[i].id < events[j].id ==> i < j
  {
    assert j < i ==> events[j].id < events[i].id;
  }

  lemma MarkerIsLater(events: seq<Event>, nextId: nat, issue: Id, e: Event, u: Event)
    requires WellLogged(events, nextId) && e in events && u in events && IsMarker(u, issue, e.id)
    ensures Later(u, e)
  {
    assert MarksThePast(u);
    var id: nat :| id < u.id && u.new_ == Some(Decimal(id));
    DecimalIsInjective(id, e.id);
    var i :| 0 <= i < |events| && events[i] == e;
    var j :| 0 <= j < |events| && events[j] == u;
    IdsFollowPositions(events, i, j);
  }

  /** Among the issue's events a later one has a higher rank. */
  lemma {:induction false} RankRises(events: seq<Event>, issue: Id, e: Event, u: Event)
    requires Later(e, u) && u in events && u.issueId == issue
    ensures Rank(events, issue, u) < Rank(events, issue, e)
  {
    var init, last := events[..|events| - 1], events[|events| - 1];
    RankGrows(init, issue, u, e);
    if last != u {
      assert u in init;
      RankRises(init, issue, e, u);
    }
  }

  ghost predicate Marked(events: seq<Event>, issue: Id, e: Event)
  {
    e in events && e.issueId == issue && Reversible(e.kind) && !IsLive(events, issue, e)
  }

  ghost predicate HasLaterMarker(events: seq<Event>, issue: Id, e: Event)
  {
    exists u | u in events :: IsMarker(u, issue, e.id) && Later(u, e)
  }

  /** Keeping `keep` events of the issue leaves some event live that was undone. */
  ghost predicate Revives(events: seq<Event>, issue: Id, keep: nat, e: Event)
  {
    e in CompactOne(events, issue, keep) && Marked(events, issue, e)
      && IsLive(CompactOne(events, issue, keep), issue, e)
  }

  lemma LaterMarkerIsKept(events: seq<Event>, issue: Id, keep: nat, e: Event)
    requires e in CompactOne(events, issue, keep) && e.issueId == issue && HasLaterMarker(events, issue, e)
    ensures !IsLive(CompactOne(events, issue, keep), issue, e)
  {
    var u :| u in events && IsMarker(u, issue, e.id) && Later(u, e);
    var n := CountOf(events, issue);
    if n > keep {
      DeleteOldestShrinks(events, events, issue, n - keep);
      RankGrows(events, issue, e, u);
    }
    assert u in CompactOne(events, issue, keep);
  }

  /** Without a later marker, keeping the event and what sorts after it drops every marker it has. */
  lemma NoLaterMarkerRevives(events: seq<Event>, issue: Id, e: Event) returns (keep: nat)
    requires Increasing(events) && Marked(events, issue, e) && !HasLaterMarker(events, issue, e)
    ensures Revives(events, issue, keep, e)
  {
    RankBelowAll(events, issue, e);
    var n := Rank(events, issue, e);
    keep := CountOf(events, issue) - n;
    forall u | u in events && IsMarker(u, issue, e.id) ensures Rank(events, issue, u) < n {
      var i :| 0 <= i < |events| && events[i] == e;
      var j :| 0 <= j < |events| && events[j] == u;
      assert i != j && u.id != e.id;
      RankRises(events, issue, e, u);
    }
    DeleteOldestShrinks(events, events, issue, n);
    var v :| v in events && IsMarker(v, issue, e.id);
    assert n > 0;
  }

  /** No compaction of the issue, whatever it keeps, revives an undone change exactly when every undone event has a
      marker that sorts after it by (created_at, id). */
  lemma CompactionRevivesNothingIff(events: seq<Event>, issue: Id)
    requires Increasing(events)
    ensures (forall keep: nat, e :: !Revives(events, issue, keep, e)) <==>
      (forall e | Marked(events, issue, e) :: HasLaterMarker(events, issue, e))
  {
    if forall e | Marked(events, issue, e) :: HasLaterMarker(events, issue, e) {
      forall keep: nat, e ensures !Revives(events, issue, keep, e) {
        if e in CompactOne(events, issue, keep) && Marked(events, issue, e) {
          LaterMarkerIsKept(events, issue, keep, e);
        }
      }
    } else {
      var e :| Marked(events, issue, e) && !HasLaterMarker(events, issue, e);
      var keep := NoLaterMarkerRevives(events, issue, e);
    }
  }

  /** While timestamps do not step back that is so: a kept event is live afterwards exactly when it was before. */
  lemma CompactionRevivesNothing(events: seq<Event>, nextId: nat, issue: Id, keep: nat, any: Id, e: Event)
    requires WellLogged(events, nextId) && e in CompactOne(events, issue, keep)
    ensures IsLive(CompactOne(events, issue, keep), any, e) <==> IsLive(events, any, e)
  {
    CompactOneKeepsLog(events, nextId, issue, keep);
    var kept := CompactOne(events, issue, keep);
    if any == issue && e.issueId == issue && Reversible(e.kind) && !IsLive(events, issue, e) {
      var u :| u in events && IsMarker(u, issue, e.id);
      MarkerIsLater(events, nextId, issue, e, u);
      LaterMarkerIsKept(events, issue, keep, e);
    }
  }

  lemma {:induction false} LiveOfDeleted(part: seq<Event>, events: seq<Event>, issue: Id, n: nat) returns (k: nat)
    requires Increasing(part) && Ordered(part)
    ensures var live := LiveAmong(part, events, issue);
      k <= |live| && LiveAmong(DeleteOldest(part, events, issue, n), events, issue) == live[k..]
  {
    k := 0;
    if part != [] {
      var init, last := part[..|part| - 1], part[|part| - 1];
      var rest, kept := LiveAmong(init, events, issue), DeleteOldest(init, events, issue, n);
      k := LiveOfDeleted(init, events, issue, n);
      assert (kept + [last])[..|kept|] == kept;
      if last.issueId == issue && Rank(events, issue, last) < n {
        forall i | 0 <= i < |init| && init[i].issueId == issue ensures Rank(events, issue, init[i]) < n {
          assert Later(last, part[i]);
          RankGrows(events, issue, init[i], last);
        }
        DeleteOldestShrinks(init, events, issue, n);
        assert forall e | e in kept :: e.issueId != issue;
        NoneLive(kept, events, issue);
        k := |LiveAmong(part, events, issue)|;
      }
    }
  }

  lemma {:induction false} NoneLive(part: seq<Event>, events: seq<Event>, issue: Id)
    requires forall e | e in part :: e.issueId != issue
    ensures LiveAmong(part, events, issue) == []
  {
    if part != [] {
      assert part[|part| - 1] in part;
      NoneLive(part[..|part| - 1], events, issue);
    }
  }

  /** After compaction the undo stack of every issue is the newest part of what it was. */
  lemma CompactedStackIsNewestPart(events: seq<Event>, nextId: nat, issue: Id, keep: nat, any: Id) returns (k: nat)
    requires WellLogged(events, nextId)
    ensures k <= |Live(events, any)| && Live(CompactOne(events, issue, keep), any) == Live(events, any)[k..]
    ensures any != issue ==> k == 0
  {
    var kept := CompactOne(events, issue, keep);
    forall e | e in kept ensures IsLive(kept, any, e) <==> IsLive(events, any, e) {
      CompactionRevivesNothing(events, nextId, issue, keep, any, e);
    }
    LiveSame(kept, kept, events, any);
    k := 0;
    var n := CountOf(events, issue);
    if n > keep {
      if any == issue {
        k := LiveOfDeleted(events, events, issue, n - keep);
      } else {
        LiveElsewhere(events, events, issue, n - keep, any);
      }
    }
  }

  lemma {:induction false} LiveElsewhere(part: seq<Event>, events: seq<Event>, issue: Id, n: nat, any: Id)
    requires any != issue
    ensures LiveAmong(DeleteOldest(part, events, issue, n), events, any) == LiveAmong(part, events, any)
  {
    if part != [] {
      var kept := DeleteOldest(part[..|part| - 1], events, issue, n);
      LiveElsewhere(part[..|part| - 1], events, issue, n, any);
      assert (kept + [part[|part| - 1]])[..|kept|] == kept;
    }
  }

  lemma {:induction false} CompactKeepsStacks(events: seq<Event>, nextId: nat, archived: seq<Id>, keep: nat, any: Id)
    returns (k: nat)
    requires WellLogged(events, nextId)
    ensures WellLogged(Compact(events, archived, keep), nextId)
    ensures k <= |Live(events, any)| && Live(Compact(events, archived, keep), any) == Live(events, any)[k..]
  {
    k := 0;
    if archived != [] {
      var init, last := archived[..|archived| - 1], archived[|archived| - 1];
      k := CompactKeepsStacks(events, nextId, init, keep, any);
      var before := Compact(events, init, keep);
      CompactOneKeepsLog(before, nextId, last, keep);
      var k' := CompactedStackIsNewestPart(before, nextId, last, keep, any);
      k := k + k';
    }
  }

  /** When the clock stepped back between an edit and its undo, compaction can drop the marker and keep the
      event: the undone change is live again. */
  lemma ClockStepBackRevives(issue: Id)
    ensures var e := Event(0, issue, TitleChanged, Some("a"), Some("b"), 5, 0);
      var u := Event(1, issue, Undone, Some("title_changed"), Some(Decimal(0)), 3, 1);
      LogInv([e, u], 2) && !IsLive([e, u], issue, e) && CompactOne([e, u], issue, 1) == [e] && IsLive([e], issue, e)
  {
    var e := Event(0, issue, TitleChanged, Some("a"), Some("b"), 5, 0);
    var u := Event(1, issue, Undone, Some("title_changed"), Some(Decimal(0)), 3, 1);
    var log := [e, u];
    assert LogInv(log, 2) by {
      assert MarksThePast(u) by {
        var id: nat := 0;
        assert id < u.id && u.new_ == Some(Decimal(id));
      }
    }
    assert IsMarker(u, issue, e.id) && u in log;
    CompactPair(issue, e, u);
  }

  lemma CompactPair(issue: Id, e: Event, u: Event)
    requires e.issueId == issue && u.issueId == issue && Later(e, u)
    ensures CompactOne([e, u], issue, 1) == [e]
  {
    var log := [e, u];
    assert log[..1] == [e] && [e][..0] == [];
    assert CountOf([e], issue) == 1;
    assert Rank([e], issue, e) == 0 && Rank([e], issue, u) == 0;
    assert DeleteOldest([e], log, issue, 1) == [e];
  }

  // -- How much is kept --

  ghost function Own(events: seq<Event>, issue: Id): set<Event>
  {
    set e | e in events && e.issueId == issue
  }

  /** Different events of the set sort one after the other. */
  ghost predicate Comparable(s: set<Event>)
  {
    forall a, b | a in s && b in s && a != b :: Later(a, b) || Later(b, a)
  }

  ghost function Before(s: set<Event>, e: Event): set<Event>
  {
    set x | x in s && Later(e, x)
  }

  lemma {:induction false} LatestOf(s: set<Event>) returns (top: Event)
    requires s != {} && Comparable(s)
    ensures top in s && forall e | e in s && e != top :: Later(top, e)
    decreases |s|
  {
    var a :| a in s;
    var rest := s - {a};
    assert s == rest + {a};
    top := a;
    if rest != {} {
      var best := LatestOf(rest);
      assert Later(a, best) || Later(best, a);
      if !Later(a, best) {
        top := best;
      }
    }
  }

  ghost function Few(s: set<Event>, m: nat): set<Event>
  {
    set e | e in s && |Before(s, e)| < m
  }

  lemma BeforeWithout(s: set<Event>, top: Event, e: Event)
    requires top in s && (e != top ==> Later(top, e)) && e in s
    requires forall x | x in s && x != top :: Later(top, x)
    ensures Before(s, e) == if e == top then s - {top} else Before(s - {top}, e)
  {
  }

  /** In a set of n comparable events, for every m up to n exactly m have fewer than m before them. */
  lemma {:induction false} FewBefore(s: set<Event>, m: nat)
    requires Comparable(s)
    ensures |Few(s, m)| == if m <= |s| then m else |s|
    decreases |s|
  {
    if s != {} {
      var top := LatestOf(s);
      var rest := s - {top};
      FewBefore(rest, m);
      hide Later, Comparable;
      forall e | e in s ensures Before(s, e) == if e == top then rest else Before(rest, e) {
        BeforeWithout(s, top, e);
      }
      hide Before;
      assert Few(s, m) == Few(rest, m) + if |rest| < m then {top} else {};
    }
  }

  lemma OwnGrows(init: seq<Event>, last: Event, issue: Id, e: Event)
    ensures Own(init + [last], issue) == Own(init, issue) + if last.issueId == issue then {last} else {}
    ensures Before(Own(init + [last], issue), e) ==
      Before(Own(init, issue), e) + if last.issueId == issue && Later(e, last) then {last} else {}
  {
    hide Later;
    assert forall x :: x in init + [last] <==> x in init || x == last;
  }

  lemma {:induction false} RankCounts(part: seq<Event>, issue: Id, e: Event)
    requires Increasing(part)
    ensures Rank(part, issue, e) == |Before(Own(part, issue), e)|
    ensures CountOf(part, issue) == |Own(part, issue)|
  {
    if part != [] {
      var init, last := part[..|part| - 1], part[|part| - 1];
      RankCounts(init, issue, e);
      assert last !in init && part == init + [last];
      hide Later, Increasing;
      OwnGrows(init, last, issue, e);
    }
  }

  lemma OwnIsComparable(events: seq<Event>, issue: Id)
    requires Increasing(events)
    ensures Comparable(Own(events, issue))
  {
    forall a, b | a in events && b in events && a != b ensures a.id != b.id {
      if a.id == b.id {
        IdIsKey(events, a, b);
      }
    }
  }

  /** `kept` holds the `keep` newest events of the issue by (created_at, id), or all of them when there are no more. */
  ghost predicate KeepsNewest(events: seq<Event>, kept: seq<Event>, issue: Id, keep: nat)
  {
    && (forall e | e in Own(kept, issue) :: e in events)
    && |Own(kept, issue)| == (if |Own(events, issue)| <= keep then |Own(events, issue)| else keep)
    && (forall e, x | e in Own(kept, issue) && x in Own(events, issue) && Later(x, e) :: x in kept)
  }

  lemma KeptAreLast(events: seq<Event>, kept: seq<Event>, issue: Id, n: nat)
    requires Increasing(events) && n <= CountOf(events, issue)
    requires forall e :: e in kept <==> e in events && (e.issueId == issue ==> Rank(events, issue, e) >= n)
    ensures KeepsNewest(events, kept, issue, CountOf(events, issue) - n)
  {
    var all := Own(events, issue);
    OwnIsComparable(events, issue);
    forall e ensures Rank(events, issue, e) == |Before(all, e)| && CountOf(events, issue) == |all| {
      RankCounts(events, issue, e);
    }
    FewBefore(all, n);
    forall e, x | e in all && x in all && Later(x, e) ensures Rank(events, issue, e) <= Rank(events, issue, x) {
      RankGrows(events, issue, e, x);
    }
    hide Later, Increasing, Rank, CountOf, Before, Comparable;
    assert Own(kept, issue) == all - Few(all, n) && Few(all, n) <= all;
  }

  lemma CompactOneKeepsTheNewest(events: seq<Event>, issue: Id, keep: nat)
    requires Increasing(events)
    ensures var kept := CompactOne(events, issue, keep);
      && Increasing(kept) && (forall e | e in kept :: e in events)
      && KeepsNewest(events, kept, issue, keep)
      && (forall e | e in events && e.issueId != issue :: e in kept)
  {
    var n := CountOf(events, issue);
    hide Later, Rank, DeleteOldest, CountOf, KeepsNewest;
    if n > keep {
      DeleteOldestShrinks(events, events, issue, n - keep);
      DeleteOldestIncreases(events, events, issue, n - keep);
      KeptAreLast(events, CompactOne(events, issue, keep), issue, n - keep);
    } else {
      KeepsAll(events, issue, keep);
    }
  }

  lemma KeepsAll(events: seq<Event>, issue: Id, keep: nat)
    requires Increasing(events) && CountOf(events, issue) <= keep
    ensures KeepsNewest(events, events, issue, keep)
  {
    if events != [] {
      RankCounts(events, issue, events[0]);
    }
  }

  /** Compaction leaves every archived issue its newest events and touches no event of any other issue. */
  lemma {:induction false} CompactionKeepsTheNewest(events: seq<Event>, archived: seq<Id>, keep: nat, any: Id)
    requires Increasing(events)
    ensures var kept := Compact(events, archived, keep);
      && Increasing(kept) && (forall e | e in kept :: e in events)
      && (any in archived ==> KeepsNewest(events, kept, any, keep))
      && (any !in archived ==> forall e | e in events && e.issueId == any :: e in kept)
  {
    if archived != [] {
      var init, last := archived[..|archived| - 1], archived[|archived| - 1];
      CompactionKeepsTheNewest(events, init, keep, any);
      var before := Compact(events, init, keep);
      CompactOneKeepsTheNewest(before, last, keep);
      var kept := CompactOne(before, last, keep);
      assert any in archived <==> any in init || any == last;
      hide Later, Increasing, CompactOne;
      if any != last {
        assert Own(kept, any) == Own(before, any);
      } else if any !in init {
        assert Own(before, any) == Own(events, any);
      }
    }
  }

  // -- event_seq --

  // Within an issue, sequence numbers grow in insertion order.
  ghost predicate Numbered(events: seq<Event>)
  {
    forall i, j | 0 <= i < j < |events| && events[i].issueId == events[j].issueId :: events[i].seqNo < events[j].seqNo
  }

  lemma {:induction false} RankBelowAll(part: seq<Event>, issue: Id, e: Event)
    ensures Rank(part, issue, e) <= CountOf(part, issue)
    ensures (forall x | x in part && x.issueId == issue :: Later(e, x)) ==> Rank(part, issue, e) == CountOf(part, issue)
    ensures e in part && e.issueId == issue ==> Rank(part, issue, e) < CountOf(part, issue)
  {
    if part != [] {
      RankBelowAll(part[..|part| - 1], issue, e);
      assert forall x :: x in part <==> x in part[..|part| - 1] || x == part[|part| - 1];
    }
  }

  /** An issue's latest event has the highest rank and the highest sequence number. */
  lemma {:induction false} LatestEvent(events: seq<Event>, issue: Id) returns (e: Event)
    requires Increasing(events) && Ordered(events) && Numbered(events) && CountOf(events, issue) > 0
    ensures e in events && e.issueId == issue
    ensures Rank(events, issue, e) == CountOf(events, issue) - 1
    ensures forall x | x in events && x.issueId == issue :: x.seqNo <= e.seqNo
  {
    var init, last := events[..|events| - 1], events[|events| - 1];
    if last.issueId == issue {
      e := last;
      forall x | x in init && x.issueId == issue ensures Later(last, x) && x.seqNo < last.seqNo {
        var k :| 0 <= k < |init| && init[k] == x;
        assert events[k] == x;
      }
      RankBelowAll(init, issue, last);
    } else {
      e := LatestEvent(init, issue);
    }
    assert forall x :: x in events <==> x in init || x == last;
  }

  lemma {:induction false} DeleteOldestKeepsNumbers(part: seq<Event>, events: seq<Event>, issue: Id, n: nat)
    requires Numbered(part)
    ensures Numbered(DeleteOldest(part, events, issue, n))
  {
    if part != [] {
      var init, last := part[..|part| - 1], part[|part| - 1];
      DeleteOldestKeepsNumbers(init, events, issue, n);
      var rest := DeleteOldest(init, events, issue, n);
      forall i | 0 <= i < |rest| && rest[i].issueId == last.issueId ensures rest[i].seqNo < last.seqNo {
        var k := DeletedComesFrom(init, events, issue, n, i);
      }
    }
  }

  lemma MaxSeqIs(events: seq<Event>, issue: Id, e: Event)
    requires e in events && e.issueId == issue && forall x | x in events && x.issueId == issue :: x.seqNo <= e.seqNo
    requires e.seqNo >= 0
    ensures MaxSeq(events, issue) == e.seqNo
  {
    MaxSeqIsMax(events, issue);
  }

  lemma KeptLatest(events: seq<Event>, nextId: nat, issue: Id, keep: nat)
    requires WellLogged(events, nextId) && Numbered(events) && forall e | e in events :: e.seqNo >= 0
    requires keep >= 1
    ensures MaxSeq(CompactOne(events, issue, keep), issue) == MaxSeq(events, issue)
  {
    if CountOf(events, issue) > keep {
      var e := LatestEvent(events, issue);
      assert e in CompactOne(events, issue, keep) by {
        DeleteOldestShrinks(events, events, issue, CountOf(events, issue) - keep);
      }
      CompactOneKeepsLog(events, nextId, issue, keep);
      hide CompactOne, WellLogged, Numbered, CountOf;
      MaxSeqIs(events, issue, e);
      MaxSeqIs(CompactOne(events, issue, keep), issue, e);
    }
  }

  lemma KeptNothing(events: seq<Event>, issue: Id)
    requires CountOf(events, issue) > 0
    ensures MaxSeq(CompactOne(events, issue, 0), issue) == -1
  {
    DeleteOldestShrinks(events, events, issue, CountOf(events, issue));
    forall e | e in events && e.issueId == issue ensures Rank(events, issue, e) < CountOf(events, issue) {
      RankBelowAll(events, issue, e);
    }
    MaxSeqIsMax(CompactOne(events, issue, 0), issue);
  }

  lemma {:induction false} CountedHasSeq(events: seq<Event>, issue: Id)
    requires CountOf(events, issue) > 0 && forall e | e in events :: e.seqNo >= 0
    ensures MaxSeq(events, issue) >= 0
  {
    if events[|events| - 1].issueId != issue {
      CountedHasSeq(events[..|events| - 1], issue);
    }
  }

  /** Compacting an issue leaves its next sequence number alone exactly when at least one event is kept, or
      there was none. */
  lemma CompactionKeepsNextSeqIff(events: seq<Event>, nextId: nat, issue: Id, keep: nat)
    requires WellLogged(events, nextId) && Numbered(events) && forall e | e in events :: e.seqNo >= 0
    ensures MaxSeq(CompactOne(events, issue, keep), issue) == MaxSeq(events, issue)
      <==> keep >= 1 || CountOf(events, issue) == 0
  {
    if keep >= 1 {
      KeptLatest(events, nextId, issue, keep);
    } else if CountOf(events, issue) > 0 {
      KeptNothing(events, issue);
      CountedHasSeq(events, issue);
    } else {
      assert CompactOne(events, issue, keep) == events;
    }
  }

  // ---------------------------------------------------------------------------------------
  // Whole runs: writes, undos and compactions under a clock that does not step back
  // ---------------------------------------------------------------------------------------

  // `used` holds the (issue, event_seq) pairs ever assigned, `undone` the ids ever undone.
  datatype Run = Run(db: Db, now: Stamp, used: set<(Id, int)>, undone: set<nat>)

  datatype Action =
    | Tick(d: nat)
    | Write(id: Id, kind: Kind, old_: Option<string>, new_: Option<string>, issue: Issue, graph: State)
    | CallUndo(id: Id, actor: string, expected: nat, override: bool)
    | CallCompact(archived: seq<Id>, keep: nat)

  ghost function Append(r: Run, id: Id, db': Db): Run
  {
    r.(db := db', used := r.used + {(id, MaxSeq(r.db.events, id) + 1)})
  }

  /** A write is any mutation that records an event; it never records a marker. */
  ghost function Apply(r: Run, env: Env, a: Action): Run
  {
    match a
    case Tick(d) => r.(now := r.now + d)
    case Write(id, kind, old_, new_, issue, graph) =>
      if kind.Undone? then r
      else Append(r, id, Record(r.db.(issues := r.db.issues[id := issue], graph := graph), id, kind, old_, new_, r.now))
    case CallUndo(id, actor, expected, override) =>
      var (db', reply) := Undo(r.db, env, id, actor, expected, override, r.now);
      if reply.Reversed? then Append(r, id, db').(undone := r.undone + {expected}) else r
    case CallCompact(archived, keep) => r.(db := r.db.(events := Compact(r.db.events, archived, keep)))
  }

  ghost function ApplyAll(env: Env, actions: seq<Action>): Run
  {
    if actions == [] then Run(Db(map[], State({}, [], map[]), [], 0), 0, {}, {})
    else Apply(ApplyAll(env, actions[..|actions| - 1]), env, actions[|actions| - 1])
  }

  ghost predicate SeqInv(events: seq<Event>, used: set<(Id, int)>)
  {
    && Numbered(events)
    && (forall e | e in events :: e.seqNo >= 0)
    && (forall p | p in used :: p.1 <= MaxSeq(events, p.0))
  }

  ghost predicate UndoneInv(db: Db, undone: set<nat>)
  {
    && (forall id | id in undone :: id < db.nextId)
    && (forall e | e in db.events && e.id in undone :: !IsLive(db.events, e.issueId, e))
  }

  ghost predicate RunInv(r: Run)
  {
    && WellLogged(r.db.events, r.db.nextId) && NotAfter(r.db.events, r.now)
    && UndoneInv(r.db, r.undone)
  }

  lemma AppendKeepsOrder(events: seq<Event>, e: Event, now: Stamp)
    requires Ordered(events) && NotAfter(events, now) && e.createdAt == now
    ensures Ordered(events + [e]) && NotAfter(events + [e], now)
  {
    forall i | 0 <= i < |events| ensures events[i].createdAt <= now {
      assert events[i] in events;
    }
  }

  lemma AppendKeepsSeq(events: seq<Event>, used: set<(Id, int)>, e: Event)
    requires SeqInv(events, used) && e.seqNo == MaxSeq(events, e.issueId) + 1
    ensures (e.issueId, e.seqNo) !in used
    ensures SeqInv(events + [e], used + {(e.issueId, e.seqNo)})
  {
    var events' := events + [e];
    assert events'[..|events|] == events;
    MaxSeqIsMax(events, e.issueId);
    forall i | 0 <= i < |events| && events[i].issueId == e.issueId ensures events[i].seqNo < e.seqNo {
      assert events[i] in events;
    }
  }

  lemma {:induction false} CompactKeepsSeq(events: seq<Event>, nextId: nat, used: set<(Id, int)>, archived: seq<Id>,
      keep: nat)
    requires WellLogged(events, nextId) && SeqInv(events, used) && keep >= 1
    ensures SeqInv(Compact(events, archived, keep), used)
  {
    if archived != [] {
      var init, last := archived[..|archived| - 1], archived[|archived| - 1];
      CompactKeepsSeq(events, nextId, used, init, keep);
      var k := CompactKeepsStacks(events, nextId, init, keep, last);
      CompactOneKeepsSeq(Compact(events, init, keep), nextId, used, last, keep);
    }
  }

  lemma CompactOneKeepsSeq(events: seq<Event>, nextId: nat, used: set<(Id, int)>, issue: Id, keep: nat)
    requires WellLogged(events, nextId) && SeqInv(events, used) && keep >= 1
    ensures SeqInv(CompactOne(events, issue, keep), used)
  {
    var kept := CompactOne(events, issue, keep);
    CompactOneKeepsLog(events, nextId, issue, keep);
    assert Numbered(kept) by {
      if CountOf(events, issue) > keep {
        DeleteOldestKeepsNumbers(events, events, issue, CountOf(events, issue) - keep);
      }
    }
    KeptLatest(events, nextId, issue, keep);
    forall p | p in used ensures p.1 <= MaxSeq(kept, p.0) {
      if p.0 != issue {
        MaxSeqElsewhere(events, issue, keep, p.0);
      }
    }
  }

  lemma MaxSeqElsewhere(events: seq<Event>, issue: Id, keep: nat, other: Id)
    requires other != issue
    ensures MaxSeq(CompactOne(events, issue, keep), other) == MaxSeq(events, other)
  {
    if CountOf(events, issue) > keep {
      DeletedElsewhere(events, events, issue, CountOf(events, issue) - keep, other);
    }
  }

  lemma {:induction false} DeletedElsewhere(part: seq<Event>, events: seq<Event>, issue: Id, n: nat, other: Id)
    requires other != issue
    ensures MaxSeq(DeleteOldest(part, events, issue, n), other) == MaxSeq(part, other)
  {
    if part != [] {
      var kept := DeleteOldest(part[..|part| - 1], events, issue, n);
      DeletedElsewhere(part[..|part| - 1], events, issue, n, other);
      assert (kept + [part[|part| - 1]])[..|kept|] == kept;
    }
  }

  lemma {:induction false} CompactKeepsUndone(events: seq<Event>, nextId: nat, archived: seq<Id>, keep: nat, e: Event)
    requires WellLogged(events, nextId) && e in Compact(events, archived, keep)
    ensures e in events && (IsLive(Compact(events, archived, keep), e.issueId, e) <==> IsLive(events, e.issueId, e))
  {
    if archived != [] {
      var init, last := archived[..|archived| - 1], archived[|archived| - 1];
      var k := CompactKeepsStacks(events, nextId, init, keep, e.issueId);
      var before := Compact(events, init, keep);
      CompactOneKeepsLog(before, nextId, last, keep);
      CompactionRevivesNothing(before, nextId, last, keep, e.issueId, e);
      CompactKeepsUndone(events, nextId, init, keep, e);
    }
  }

  lemma CompactKeepsRun(r: Run, archived: seq<Id>, keep: nat)
    requires RunInv(r)
    ensures RunInv(r.(db := r.db.(events := Compact(r.db.events, archived, keep))))
  {
    var k := CompactKeepsStacks(r.db.events, r.db.nextId, archived, keep, "");
    forall e | e in Compact(r.db.events, archived, keep)
      ensures e in r.db.events && (IsLive(Compact(r.db.events, archived, keep), e.issueId, e)
        <==> IsLive(r.db.events, e.issueId, e))
    {
      CompactKeepsUndone(r.db.events, r.db.nextId, archived, keep, e);
    }
  }

  lemma WriteKeepsUndone(db: Db, e: Event, undone: set<nat>, now: Stamp)
    requires LogInv(db.events, db.nextId) && UndoneInv(db, undone) && e.id == db.nextId && !e.kind.Undone?
    ensures UndoneInv(db.(events := db.events + [e], nextId := db.nextId + 1), undone)
  {
    forall x | x in db.events && x.id in undone ensures !IsLive(db.events + [e], x.issueId, x) {
      SameMarkers(db.events, e, x.issueId, x);
    }
  }

  lemma WriteKeepsRun(r: Run, env: Env, a: Action)
    requires RunInv(r) && a.Write?
    ensures RunInv(Apply(r, env, a))
  {
    if !a.kind.Undone? {
      var e := NextEvent(r.db.events, r.db.nextId, a.id, a.kind, a.old_, a.new_, r.now);
      RecordKeepsLog(r.db.events, r.db.nextId, e);
      AppendKeepsOrder(r.db.events, e, r.now);
      WriteKeepsUndone(r.db, e, r.undone, r.now);
      hide LogInv, Ordered, NotAfter, MaxSeq, IsLive;
    }
  }

  /** The named event was live, so it had never been undone. */
  lemma UndoKeepsRun(r: Run, env: Env, a: Action)
    requires RunInv(r) && a.CallUndo?
    ensures RunInv(Apply(r, env, a))
    ensures Undo(r.db, env, a.id, a.actor, a.expected, a.override, r.now).1.Reversed? ==> a.expected !in r.undone
  {
    var (db', reply) := Undo(r.db, env, a.id, a.actor, a.expected, a.override, r.now);
    if reply.Reversed? {
      var m := UndoAppendsAMarker(r.db, env, a.id, a.actor, a.expected, a.override, r.now);
      var e := Candidate(r.db.events, a.id).value;
      hide Undo, Candidate;
      MarkerIsNew(r.db, a.id, e, m);
      AppendKeepsOrder(r.db.events, m, r.now);
      MarkKeepsUndone(r.db, db', r.undone, e, m);
      hide LogInv, Ordered, NotAfter, UndoneInv;
    }
  }

  lemma MarkKeepsUndone(db: Db, db': Db, undone: set<nat>, e: Event, m: Event)
    requires LogInv(db.events, db.nextId) && UndoneInv(db, undone) && e in Live(db.events, e.issueId)
      && IsMarker(m, e.issueId, e.id)
    requires db'.events == db.events + [m] && db'.nextId == db.nextId + 1
    ensures e.id !in undone && UndoneInv(db', undone + {e.id})
  {
    assert forall u :: u in db'.events <==> u in db.events || u == m;
    forall x | x in db'.events && x.id in undone + {e.id} ensures !IsLive(db'.events, x.issueId, x) {
      if x != m && x.id == e.id {
        IdIsKey(db.events, x, e);
      } else if x in db.events {
        var u :| x in db.events && (!Reversible(x.kind) || (u in db.events && IsMarker(u, x.issueId, x.id)));
      }
    }
  }

  lemma PositionsGiveIds(events: seq<Event>, i: nat, j: nat)
    requires Increasing(events) && i < |events| && j < |events|
    ensures i < j ==> events[i].id < events[j].id
  {
  }

  lemma IdIsKey(events: seq<Event>, x: Event, y: Event)
    requires Increasing(events) && x in events && y in events && x.id == y.id
    ensures x == y
  {
    var i :| 0 <= i < |events| && events[i] == x;
    var j :| 0 <= j < |events| && events[j] == y;
    PositionsGiveIds(events, i, j);
    PositionsGiveIds(events, j, i);
  }

  lemma {:induction false} RunsKeepInv(env: Env, actions: seq<Action>)
    ensures RunInv(ApplyAll(env, actions))
  {
    if actions != [] {
      var init, a := actions[..|actions| - 1], actions[|actions| - 1];
      RunsKeepInv(env, init);
      var r := ApplyAll(env, init);
      match a
      case Tick(_) =>
      case Write(_, _, _, _, _, _) => WriteKeepsRun(r, env, a);
      case CallUndo(_, _, _, _) => UndoKeepsRun(r, env, a);
      case CallCompact(archived, keep) => CompactKeepsRun(r, archived, keep);
    }
  }

  /** Over every run an event is undone at most once, whatever was written or compacted in between. */
  lemma NothingIsUndoneTwice(env: Env, actions: seq<Action>, id: Id, actor: string, expected: nat, override: bool)
    ensures var r := ApplyAll(env, actions);
      Undo(r.db, env, id, actor, expected, override, r.now).1.Reversed? ==> expected !in r.undone
  {
    RunsKeepInv(env, actions);
    UndoKeepsRun(ApplyAll(env, actions), env, CallUndo(id, actor, expected, override));
  }

  lemma UndoKeepsSeq(r: Run, env: Env, a: Action)
    requires SeqInv(r.db.events, r.used) && a.CallUndo?
    requires Undo(r.db, env, a.id, a.actor, a.expected, a.override, r.now).1.Reversed?
    ensures SeqInv(Apply(r, env, a).db.events, Apply(r, env, a).used)
  {
    var m := UndoAppendsAMarker(r.db, env, a.id, a.actor, a.expected, a.override, r.now);
    hide SeqInv, Undo, MaxSeq;
    AppendKeepsSeq(r.db.events, r.used, m);
  }

  lemma ApplyKeepsSeq(r: Run, env: Env, a: Action)
    requires RunInv(r) && SeqInv(r.db.events, r.used) && (a.CallCompact? ==> a.keep >= 1)
    ensures SeqInv(Apply(r, env, a).db.events, Apply(r, env, a).used)
  {
    hide SeqInv, Undo, MaxSeq, Compact;
    match a
    case Tick(_) =>
    case Write(id, kind, old_, new_, _, _) =>
      if !kind.Undone? {
        AppendKeepsSeq(r.db.events, r.used, NextEvent(r.db.events, r.db.nextId, id, kind, old_, new_, r.now));
      }
    case CallUndo(id, actor, expected, override) =>
      if Undo(r.db, env, id, actor, expected, override, r.now).1.Reversed? {
        UndoKeepsSeq(r, env, a);
      }
    case CallCompact(archived, keep) =>
      CompactKeepsSeq(r.db.events, r.db.nextId, r.used, archived, keep);
  }

  lemma {:induction false} RunsKeepSeq(env: Env, actions: seq<Action>)
    requires forall a | a in actions :: a.CallCompact? ==> a.keep >= 1
    ensures SeqInv(ApplyAll(env, actions).db.events, ApplyAll(env, actions).used)
  {
    if actions != [] {
      var init, a := actions[..|actions| - 1], actions[|actions| - 1];
      assert a in actions && forall x | x in init :: x in actions;
      RunsKeepSeq(env, init);
      RunsKeepInv(env, init);
      ApplyKeepsSeq(ApplyAll(env, init), env, a);
    }
  }

  /** While every compaction keeps at least one event, no per-issue sequence number is assigned twice. */
  lemma SeqIsNeverReused(env: Env, actions: seq<Action>, id: Id)
    requires forall a | a in actions :: a.CallCompact? ==> a.keep >= 1
    ensures var r := ApplyAll(env, actions); (id, MaxSeq(r.db.events, id) + 1) !in r.used
  {
    RunsKeepSeq(env, actions);
  }

  /** A compaction that keeps nothing lets the next event reuse the first sequence number. */
  lemma KeepingNothingReusesSeq(env: Env, id: Id, kind: Kind, issue: Issue, graph: State)
    requires !kind.Undone?
    ensures var r := ApplyAll(env, [Write(id, kind, None, None, issue, graph), CallCompact([id], 0)]);
      (id, MaxSeq(r.db.events, id) + 1) in r.used
  {
    var w, c := Write(id, kind, None, None, issue, graph), CallCompact([id], 0);
    assert [w, c][..1] == [w];
    FirstWrite(env, w);
    assert ApplyAll(env, [w, c]) == Apply(ApplyAll(env, [w]), env, c);
    hide ApplyAll, Apply, MaxSeq, Compact, NextEvent;
    ReusedAfter(ApplyAll(env, [w]), env, NextEvent([], 0, id, kind, None, None, 0));
  }

  lemma ReusedAfter(r: Run, env: Env, e: Event)
    requires r.db.events == [e] && (e.issueId, 0) in r.used
    ensures var r' := Apply(r, env, CallCompact([e.issueId], 0));
      (e.issueId, MaxSeq(r'.db.events, e.issueId) + 1) in r'.used
  {
    CompactSingle(e);
    assert MaxSeq([], e.issueId) == -1;
    hide Undo, Compact, Record, LogInv;
  }

  lemma FirstWrite(env: Env, w: Action)
    requires w.Write? && !w.kind.Undone?
    ensures var r := ApplyAll(env, [w]);
      && r.db.events == [NextEvent([], 0, w.id, w.kind, w.old_, w.new_, 0)] && r.used == {(w.id, 0)}
      && NextEvent([], 0, w.id, w.kind, w.old_, w.new_, 0).issueId == w.id
  {
    assert [w][..0] == [];
    assert ApplyAll(env, []) == Run(Db(map[], State({}, [], map[]), [], 0), 0, {}, {});
    assert ApplyAll(env, [w]) == Apply(ApplyAll(env, []), env, w);
    assert MaxSeq([], w.id) == -1;
  }

  lemma CompactSingle(e: Event)
    ensures Compact([e], [e.issueId], 0) == []
  {
    assert [e.issueId][..0] == [] && [e][..0] == [];
    assert CountOf([e], e.issueId) == 1 && Rank([e], e.issueId, e) == 0;
    assert DeleteOldest([e], [e], e.issueId, 1) == [];
    assert Compact([e], [e.issueId], 0) == CompactOne([e], e.issueId, 0);
  }

  // ---------------------------------------------------------------------------------------
  // Undo restores what the edit changed
  // ---------------------------------------------------------------------------------------

  datatype Edit =
    | Retitle(title: string)
    | SetStatus(status: string, commit: Option<string>)
    | Close(status: string, reason: string, commit: Option<string>)
    | Prioritize(priority: nat)
    | Assign(assignee: string, commit: Option<string>)
    | Claim(assignee: string, commit: Option<string>)
    | Describe(text: string)
    | TakeNotes(text: string)
    | MergeFields(fields: Fields)
    | MoveUnder(parent: Id)
    | DependOn(target: Id, depKind: string)
    | Undepend(target: Id)

  // What an accepted edit records and leaves.
  datatype Change = Change(kind: Kind, old_: Option<string>, new_: Option<string>, issue: Issue, graph: State)

  function EnterStatus(env: Env, i: Issue, status: string, commit: Option<string>, now: Stamp): Issue
  {
    if IsDone(env, i.issueType, status) then i.(status := status, closedAt := Some(now), closeCommit := commit)
    else if IsDone(env, i.issueType, i.status) then i.(status := status, closedAt := None, closeCommit := None)
    else i.(status := status)
  }

  function TakeAssignee(i: Issue, assignee: string, commit: Option<string>, now: Stamp): Issue
  {
    if assignee != "" then i.(assignee := assignee, claimedAt := Some(now), claimCommit := commit)
    else i.(assignee := assignee, claimedAt := None, claimCommit := None)
  }

  /** A claim keeps the time and the anchor that are stored already. */
  function TakeClaim(i: Issue, assignee: string, commit: Option<string>, now: Stamp): Issue
  {
    i.(assignee := assignee,
       claimedAt := if i.claimedAt.Some? then i.claimedAt else Some(now),
       claimCommit := if i.claimCommit.Some? then i.claimCommit else commit)
  }

  function KindBetween(deps: seq<Dep>, e: Edge): Option<string>
  {
    if deps == [] then None
    else if deps[0].edge == e then Some(deps[0].kind)
    else KindBetween(deps[1..], e)
  }

  /** The event an accepted edit records and the issue and graph it leaves; None when it changes nothing or is
      refused. */
  ghost function EditOf(db: Db, env: Env, id: Id, edit: Edit, now: Stamp): Option<Change>
    requires id in db.issues
  {
    var i, g := db.issues[id], db.graph;
    match edit
    case Retitle(t) =>
      if t == i.title then None else Some(Change(TitleChanged, Some(i.title), Some(t), i.(title := t), g))
    case SetStatus(s, commit) =>
      if s == i.status then None
      else Some(Change(StatusChanged, Some(i.status), Some(s), EnterStatus(env, i, s, commit, now), g))
    case Close(s, reason, commit) =>
      // A close whose only field change is its reason is one event.
      if s == i.status || !IsDone(env, i.issueType, s)
        || (CLOSE_REASON in i.fields && i.fields[CLOSE_REASON] == reason) then None
      else
        var i' := EnterStatus(env, i, s, commit, now);
        Some(Change(StatusChanged, Some(i.status), Some(s), i'.(fields := i.fields[CLOSE_REASON := reason]), g))
    case Prioritize(p) =>
      if p == i.priority then None
      else Some(Change(PriorityChanged, Some(Decimal(i.priority)), Some(Decimal(p)), i.(priority := p), g))
    case Assign(a, commit) =>
      if a == i.assignee then None
      else Some(Change(AssigneeChanged, Some(i.assignee), Some(a), TakeAssignee(i, a, commit, now), g))
    case Claim(a, commit) =>
      if a == "" || (i.assignee != "" && i.assignee != a) then None
      else Some(Change(Claimed, Some(i.assignee), Some(a), TakeClaim(i, a, commit, now), g))
    case Describe(t) =>
      if t == i.description then None
      else Some(Change(DescriptionChanged, Some(i.description), Some(t), i.(description := t), g))
    case TakeNotes(t) =>
      if t == i.notes then None else Some(Change(NotesChanged, Some(i.notes), Some(t), i.(notes := t), g))
    case MergeFields(f) =>
      if i.fields + f == i.fields then None
      else Some(Change(FieldsChanged, Some(env.encode(i.fields)), Some(env.encode(i.fields + f)),
        i.(fields := i.fields + f), g))
    case MoveUnder(p) =>
      var (g', r) := SetParent(g, id, p);
      if r.Err? || g'.parents == g.parents then None
      else Some(Change(ParentChanged, Some(OrEmpty(ParentOf(g.parents, id))), Some(p), i, g'))
    case DependOn(target, kind) =>
      var (g', r) := AddDep(g, Dep(Edge(id, target), kind));
      if r != Ok(true) then None
      else Some(Change(DependencyAdded, None, Some(DepValue(kind, target)), i, g'))
    case Undepend(target) =>
      var (g', r) := RemoveDep(g, Edge(id, target));
      var kind := KindBetween(g.deps, Edge(id, target));
      if r != Ok(true) || kind.None? then None
      else Some(Change(DependencyRemoved, Some(DepValue(if kind.value == "" then "blocks" else kind.value, target)),
        None, i, g'))
  }

  // What undo is there to restore: closing and claiming times are not part of it.
  datatype Core = Core(
    issueType: string,
    title: string,
    status: string,
    priority: nat,
    assignee: string,
    description: string,
    notes: string,
    fields: Fields)

  function CoreOf(i: Issue): Core
  {
    Core(i.issueType, i.title, i.status, i.priority, i.assignee, i.description, i.notes, i.fields)
  }

  ghost predicate SameGraph(g: State, h: State)
  {
    g.issues == h.issues && g.parents == h.parents && forall d :: d in g.deps <==> d in h.deps
  }

  /** The edits that one undo restores exactly: a status left for another must not have been done with a new
      reason stored, nor open with a close reason already stored, which undo would strip. */
  predicate Restorable(env: Env, i: Issue, edit: Edit)
  {
    if IsDone(env, i.issueType, i.status) then !edit.Close?
    else edit.SetStatus? || edit.Close? ==> CLOSE_REASON !in i.fields
  }

  /** The edits that are accepted and change something; a close with the reason that is stored is a change of status
      only. */
  lemma EditRecordsIff(db: Db, env: Env, id: Id, edit: Edit, now: Stamp)
    requires id in db.issues
    ensures var i, g := db.issues[id], db.graph;
      EditOf(db, env, id, edit, now).Some? <==>
        match edit {
          case Retitle(t) => t != i.title
          case SetStatus(s, _) => s != i.status
          case Close(s, reason, _) =>
            s != i.status && (i.issueType, s) in env.done
              && ("close_reason" in i.fields ==> i.fields["close_reason"] != reason)
          case Prioritize(p) => p != i.priority
          case Assign(a, _) => a != i.assignee
          case Claim(a, _) => a != "" && (i.assignee == "" || i.assignee == a)
          case Describe(t) => t != i.description
          case TakeNotes(t) => t != i.notes
          case MergeFields(f) => exists k | k in f :: k in i.fields ==> i.fields[k] != f[k]
          case MoveUnder(p) =>
            id in g.issues && (
              if p == "" then g.parents[id := None] != g.parents
              else
                && p != id && p in g.issues && g.parents[id := Some(p)] != g.parents
                && !Reaches(ParentGraph(g.parents), p, id) && !Loops(ParentGraph(g.parents), p))
          case DependOn(target, _) =>
            && id in g.issues && target in g.issues && id != target
            && !Reaches(EdgesOf(g.deps), target, id) && forall d | d in g.deps :: d.edge != Edge(id, target)
          case Undepend(target) =>
            id in g.issues && target in g.issues && exists d | d in g.deps :: d.edge == Edge(id, target)
        }
  {
    hide Reaches, Loops, ParentGraph, EnterStatus, TakeAssignee, TakeClaim, Decimal, DepValue, WithoutEdge;
    var i, g := db.issues[id], db.graph;
    match edit
    case MergeFields(f) =>
      if k :| k in f && (k in i.fields ==> i.fields[k] != f[k]) {
        assert k in i.fields + f && (i.fields + f)[k] == f[k];
      } else {
        assert i.fields + f == i.fields;
      }
    case Undepend(target) => KindBetweenIff(g.deps, Edge(id, target));
    case _ =>
  }

  lemma {:induction false} KindBetweenIff(deps: seq<Dep>, e: Edge)
    ensures KindBetween(deps, e).Some? <==> exists d | d in deps :: d.edge == e
  {
    if deps != [] {
      KindBetweenIff(deps[1..], e);
      assert deps == [deps[0]] + deps[1..];
    }
  }

  /** What an accepted edit leaves: the column it names, the times that go with it, the rows it names, and nothing
      else. */
  lemma EditLeaves(db: Db, env: Env, id: Id, edit: Edit, now: Stamp)
    requires id in db.issues && EditOf(db, env, id, edit, now).Some?
    ensures var i, g, c := db.issues[id], db.graph, EditOf(db, env, id, edit, now).value;
      && (!edit.MoveUnder? && !edit.DependOn? && !edit.Undepend? ==> c.graph == g)
      && match edit {
        case Retitle(t) => c.issue == i.(title := t)
        case SetStatus(s, commit) =>
          && c.issue.(status := i.status, closedAt := i.closedAt, closeCommit := i.closeCommit) == i
          && c.issue.status == s
          && if (i.issueType, s) in env.done then c.issue.closedAt == Some(now) && c.issue.closeCommit == commit
             else if (i.issueType, i.status) in env.done then c.issue.closedAt == None && c.issue.closeCommit == None
             else c.issue.closedAt == i.closedAt && c.issue.closeCommit == i.closeCommit
        case Close(s, reason, commit) =>
          c.issue == i.(status := s, closedAt := Some(now), closeCommit := commit,
                        fields := i.fields["close_reason" := reason])
        case Prioritize(p) => c.issue == i.(priority := p)
        case Assign(a, commit) =>
          c.issue == i.(assignee := a, claimedAt := if a == "" then None else Some(now),
                        claimCommit := if a == "" then None else commit)
        case Claim(a, commit) =>
          c.issue.assignee == a && c.issue.(assignee := i.assignee, claimedAt := i.claimedAt,
                                            claimCommit := i.claimCommit) == i
            && c.issue.claimedAt == (if i.claimedAt == None then Some(now) else i.claimedAt)
            && c.issue.claimCommit == (if i.claimCommit == None then commit else i.claimCommit)
        case Describe(t) => c.issue == i.(description := t)
        case TakeNotes(t) => c.issue == i.(notes := t)
        case MergeFields(f) => c.issue == i.(fields := i.fields + f)
        case MoveUnder(p) =>
          c.issue == i && c.graph == g.(parents := g.parents[id := if p == "" then None else Some(p)])
        case DependOn(target, kind) => c.issue == i && c.graph == g.(deps := g.deps + [Dep(Edge(id, target), kind)])
        case Undepend(target) =>
          c.issue == i && c.graph.issues == g.issues && c.graph.parents == g.parents
            && forall d :: d in c.graph.deps <==> d in g.deps && d.edge != Edge(id, target)
      }
  {
    hide Reaches, Loops, ParentGraph, Decimal, DepValue, KindBetween;
  }

  /** The event an accepted edit records: what stood there, and what stands there now. */
  lemma EditRecords(db: Db, env: Env, id: Id, edit: Edit, now: Stamp)
    requires id in db.issues && EditOf(db, env, id, edit, now).Some?
    ensures var i, g, c := db.issues[id], db.graph, EditOf(db, env, id, edit, now).value;
      match edit {
        case Retitle(t) => c.kind == TitleChanged && c.old_ == Some(i.title) && c.new_ == Some(t)
        case SetStatus(s, _) => c.kind == StatusChanged && c.old_ == Some(i.status) && c.new_ == Some(s)
        case Close(s, _, _) => c.kind == StatusChanged && c.old_ == Some(i.status) && c.new_ == Some(s)
        case Prioritize(p) =>
          && c.kind == PriorityChanged && c.old_.Some? && c.new_.Some?
          && ParseDecimal(c.old_.value) == Some(i.priority) && ParseDecimal(c.new_.value) == Some(p)
        case Assign(a, _) => c.kind == AssigneeChanged && c.old_ == Some(i.assignee) && c.new_ == Some(a)
        case Claim(a, _) => c.kind == Claimed && c.old_ == Some(i.assignee) && c.new_ == Some(a)
        case Describe(t) => c.kind == DescriptionChanged && c.old_ == Some(i.description) && c.new_ == Some(t)
        case TakeNotes(t) => c.kind == NotesChanged && c.old_ == Some(i.notes) && c.new_ == Some(t)
        case MergeFields(f) =>
          && c.kind == FieldsChanged && c.old_.Some? && c.new_.Some?
          && (Faithful(env) ==>
                && env.decode(c.old_.value) == Object(i.fields)
                && env.decode(c.new_.value) == Object(i.fields + f))
        case MoveUnder(p) =>
          && c.kind == ParentChanged && c.new_ == Some(p)
          && c.old_ == Some(if id in g.parents && g.parents[id].Some? then g.parents[id].value else "")
        case DependOn(target, kind) =>
          c.kind == DependencyAdded && c.old_ == None && c.new_ == Some(kind + ":" + target)
        case Undepend(target) =>
          && c.kind == DependencyRemoved && c.new_ == None
          && exists d | d in g.deps :: d.edge == Edge(id, target)
               && c.old_ == Some((if d.kind == "" then "blocks" else d.kind) + ":" + target)
      }
  {
    hide SetParent, AddDep, RemoveDep, EnterStatus, TakeAssignee, TakeClaim;
    if edit.Undepend? {
      KindBetweenFinds(db.graph.deps, Edge(id, edit.target));
    }
  }

  // What undo gets to see of an edit: the issue it left, perhaps with other times, and the event it recorded.
  ghost predicate Follows(db: Db, env: Env, id: Id, edit: Edit, now: Stamp, i: Issue, e: Event)
  {
    && id in db.issues && EditOf(db, env, id, edit, now).Some?
    && var c := EditOf(db, env, id, edit, now).value;
      CoreOf(i) == CoreOf(c.issue) && e.issueId == id && e.kind == c.kind && e.old_ == c.old_ && e.new_ == c.new_
  }

  lemma UndoRestoresStatusIff(db: Db, env: Env, id: Id, edit: Edit, now: Stamp, i: Issue, e: Event, later: Stamp)
    requires Follows(db, env, id, edit, now, i, e) && (edit.SetStatus? || edit.Close?)
    ensures RestoreIssue(env, i, e, later).Ok?
    ensures CoreOf(RestoreIssue(env, i, e, later).value) == CoreOf(db.issues[id])
      <==> Restorable(env, db.issues[id], edit)
  {
    var before := db.issues[id];
    StripNothingIff(before.fields);
    if edit.Close? {
      assert StripCloseReason(before.fields[CLOSE_REASON := edit.reason]) == StripCloseReason(before.fields);
    }
  }

  lemma UndoRestoresColumn(db: Db, env: Env, id: Id, edit: Edit, now: Stamp, i: Issue, e: Event, later: Stamp)
    requires Faithful(env) && Follows(db, env, id, edit, now, i, e) && !edit.SetStatus? && !edit.Close?
    ensures RestoreIssue(env, i, e, later).Ok?
    ensures CoreOf(RestoreIssue(env, i, e, later).value) == CoreOf(db.issues[id])
  {
    hide SetParent, AddDep, RemoveDep, DepValue, KindBetween, EnterStatus, RestoreStatus;
  }

  /** Undoing an edit of the issue's own columns restores them exactly when the edit is restorable. */
  lemma UndoRestoresIssueIff(db: Db, env: Env, id: Id, edit: Edit, now: Stamp, i: Issue, e: Event, later: Stamp)
    requires Faithful(env) && Follows(db, env, id, edit, now, i, e)
    ensures RestoreIssue(env, i, e, later).Ok?
    ensures CoreOf(RestoreIssue(env, i, e, later).value) == CoreOf(db.issues[id])
      <==> Restorable(env, db.issues[id], edit)
  {
    hide Faithful, Follows, RestoreIssue, CoreOf;
    if edit.SetStatus? || edit.Close? {
      UndoRestoresStatusIff(db, env, id, edit, now, i, e, later);
    } else {
      UndoRestoresColumn(db, env, id, edit, now, i, e, later);
    }
  }

  lemma StripNothingIff(fields: Fields)
    ensures StripCloseReason(fields) == fields <==> CLOSE_REASON !in fields
  {
    if CLOSE_REASON in fields {
      assert CLOSE_REASON !in StripCloseReason(fields);
    }
  }

  lemma {:induction false} KindBetweenIs(deps: seq<Dep>, d: Dep)
    requires d in deps && forall i, j | 0 <= i < j < |deps| :: deps[i].edge != deps[j].edge
    ensures KindBetween(deps, d.edge) == Some(d.kind)
  {
    if deps[0].edge == d.edge {
      var k :| 0 <= k < |deps| && deps[k] == d;
    } else {
      KindBetweenIs(deps[1..], d);
    }
  }

  lemma {:induction false} KindBetweenFinds(deps: seq<Dep>, e: Edge)
    ensures KindBetween(deps, e).Some? ==> Dep(e, KindBetween(deps, e).value) in deps
  {
    if deps != [] && deps[0].edge != e {
      KindBetweenFinds(deps[1..], e);
    }
  }

  // Issue ids are not empty and contain no colon.
  ghost predicate PlainIds(g: State)
  {
    forall id | id in g.issues :: id != "" && ':' !in id
  }

  /** The edits whose undo restores the graph: a removed dependency must not have been stored with a blank kind. */
  ghost predicate GraphRestorable(db: Db, id: Id, edit: Edit)
  {
    edit.Undepend? ==> KindBetween(db.graph.deps, Edge(id, edit.target)) != Some("")
  }

  lemma EditIsSound(db: Db, env: Env, id: Id, edit: Edit, now: Stamp)
    requires Sound(db.graph) && id in db.issues && EditOf(db, env, id, edit, now).Some?
    ensures Sound(EditOf(db, env, id, edit, now).value.graph)
  {
    hide Sound, SetParent, AddDep, RemoveDep, EnterStatus, TakeAssignee, TakeClaim, Decimal;
    match edit
    case MoveUnder(p) => DependencyGraph.ApplyIsSound(db.graph, Reparent(id, p));
    case DependOn(target, kind) => DependencyGraph.ApplyIsSound(db.graph, Add(Dep(Edge(id, target), kind)));
    case Undepend(target) => DependencyGraph.ApplyIsSound(db.graph, Remove(Edge(id, target)));
    case _ =>
  }

  lemma EditKeepsIssues(db: Db, env: Env, id: Id, edit: Edit, now: Stamp)
    requires id in db.issues && EditOf(db, env, id, edit, now).Some?
    ensures var c := EditOf(db, env, id, edit, now).value; c.graph.issues == db.graph.issues && Reversible(c.kind)
  {
    hide EnterStatus, TakeAssignee, TakeClaim, Decimal, Reaches, Loops;
  }

  lemma UndoRestoresParent(g: State, id: Id, parent: Id, h: State)
    requires Sound(g) && PlainIds(g) && Sound(h) && id in g.issues
    requires var (g', r) := SetParent(g, id, parent); r.Ok? && SameGraph(g', h)
    ensures var (h', r) := UndoParent(h, id, Some(OrEmpty(ParentOf(g.parents, id)))); r.Ok? && SameGraph(h', g)
  {
    var was := ParentOf(g.parents, id);
    if was.Some? {
      assert was.value in g.issues;
      assert h.parents[id := was] == g.parents;
      assert Sound(h.(parents := h.parents[id := was]));
      LinkParentIsSound(h, id, was.value);
    } else {
      assert h.parents[id := None] == g.parents;
    }
  }

  lemma UndoRestoresAdded(g: State, d: Dep, h: State)
    requires Sound(g) && PlainIds(g)
    requires var (g', r) := AddDep(g, d); r == Ok(true) && SameGraph(g', h)
    ensures SameGraph(UndoAdded(h, d.edge.src, DepValue(d.kind, d.edge.dst)).0, g)
  {
    DepValueRoundTrips(d.kind, d.edge.dst);
  }

  /** A removed dependency comes back with the kind in the event, so as it was exactly when that was its kind. */
  lemma UndoRestoresRemovedIff(g: State, d: Dep, kind: string, h: State)
    requires Sound(g) && PlainIds(g) && d in g.deps && Sound(h)
    requires SameGraph(RemoveDep(g, d.edge).0, h)
    ensures var (h', r) := UndoRemoved(h, d.edge.src, DepValue(kind, d.edge.dst));
      r.Ok? && (SameGraph(h', g) <==> kind == d.kind)
  {
    DepValueRoundTrips(kind, d.edge.dst);
    assert EdgesOf(h.deps) <= EdgesOf(g.deps);
    if Reaches(EdgesOf(h.deps), d.edge.dst, d.edge.src) {
      ReachesMore(EdgesOf(h.deps), EdgesOf(g.deps), d.edge.dst, d.edge.src);
    }
    forall x | x in g.deps && x.edge == d.edge ensures x == d {
      KindBetweenIs(g.deps, d);
      KindBetweenIs(g.deps, x);
    }
    var back := Dep(d.edge, kind);
    assert back in UndoRemoved(h, d.edge.src, DepValue(kind, d.edge.dst)).0.deps;
  }

  /** Undoing an edit is never refused for the graph, and restores the dependencies and parents exactly when the
      edit did not remove a dependency stored with a blank kind, which comes back as `blocks`. */
  lemma UndoRestoresGraphIff(db: Db, env: Env, id: Id, edit: Edit, now: Stamp, i: Issue, e: Event, h: State)
    requires Follows(db, env, id, edit, now, i, e)
    requires Sound(db.graph) && PlainIds(db.graph) && id in db.graph.issues && Sound(h)
    requires SameGraph(EditOf(db, env, id, edit, now).value.graph, h)
    ensures RestoreGraph(h, e).Ok?
    ensures SameGraph(RestoreGraph(h, e).value, db.graph) <==> GraphRestorable(db, id, edit)
  {
    hide Sound, PlainIds, AddDep, UndoAdded, UndoRemoved, UndoParent, CoreOf, EnterStatus, TakeAssignee, TakeClaim,
      DepValue;
    match edit
    case MoveUnder(p) => UndoRestoresParent(db.graph, id, p, h);
    case DependOn(target, kind) => UndoRestoresAdded(db.graph, Dep(Edge(id, target), kind), h);
    case Undepend(target) =>
      KindBetweenFinds(db.graph.deps, Edge(id, target));
      var kind := KindBetween(db.graph.deps, Edge(id, target)).value;
      UndoRestoresRemovedIff(db.graph, Dep(Edge(id, target), kind), if kind == "" then "blocks" else kind, h);
    case _ => hide SameGraph; SameGraphIsSymmetric(EditOf(db, env, id, edit, now).value.graph, h);
  }

  lemma SameGraphIsSymmetric(g: State, h: State)
    requires SameGraph(g, h)
    ensures SameGraph(h, g)
  {
  }

  // -- Closing and claiming times --

  /** An issue has a closing time exactly while it is done and a claiming time exactly while it is assigned, and a
      commit anchor only beside the time it belongs to. */
  ghost predicate Stamped(env: Env, i: Issue)
  {
    && (IsDone(env, i.issueType, i.status) <==> i.closedAt.Some?) && (i.closeCommit.Some? ==> i.closedAt.Some?)
    && (i.assignee != "" <==> i.claimedAt.Some?) && (i.claimCommit.Some? ==> i.claimedAt.Some?)
  }

  lemma EditKeepsStamps(db: Db, env: Env, id: Id, edit: Edit, now: Stamp)
    requires id in db.issues && Stamped(env, db.issues[id]) && EditOf(db, env, id, edit, now).Some?
    ensures Stamped(env, EditOf(db, env, id, edit, now).value.issue)
  {
    hide SetParent, AddDep, RemoveDep, Decimal, DepValue, KindBetween;
  }

  lemma RestoreKeepsStamps(env: Env, i: Issue, e: Event, now: Stamp)
    requires Stamped(env, i) && RestoreIssue(env, i, e, now).Ok?
    ensures Stamped(env, RestoreIssue(env, i, e, now).value)
  {
    hide ParseDecimal;
  }

  /** Undo keeps the times consistent with the state it restores, whatever the event. */
  lemma UndoKeepsStamps(db: Db, env: Env, id: Id, actor: string, expected: nat, override: bool, now: Stamp)
    requires id in db.issues && Stamped(env, db.issues[id])
    ensures var db' := Undo(db, env, id, actor, expected, override, now).0;
      id in db'.issues && Stamped(env, db'.issues[id])
  {
    hide RestoreGraph, RestoreIssue, Candidate, Stamped, Blocked;
    var c := Candidate(db.events, id);
    if c.Some? && RestoreIssue(env, db.issues[id], c.value, now).Ok? {
      RestoreKeepsStamps(env, db.issues[id], c.value, now);
    }
  }

  // -- Any number of edits --

  ghost function Perform(db: Db, env: Env, id: Id, edit: Edit, now: Stamp): Db
    requires id in db.issues
    ensures id in Perform(db, env, id, edit, now).issues
  {
    match EditOf(db, env, id, edit, now)
    case None => db
    case Some(c) => Record(db.(issues := db.issues[id := c.issue], graph := c.graph), id, c.kind, c.old_, c.new_, now)
  }

  ghost function PerformAll(db: Db, env: Env, id: Id, edits: seq<(Edit, Stamp)>): Db
    requires id in db.issues
    ensures id in PerformAll(db, env, id, edits).issues
  {
    if edits == [] then db
    else Perform(PerformAll(db, env, id, edits[..|edits| - 1]), env, id, edits[|edits| - 1].0, edits[|edits| - 1].1)
  }

  /** `n` undos by a coordinator, each naming the candidate it read. */
  ghost function UndoTimes(db: Db, env: Env, id: Id, actor: string, n: nat, now: Stamp): Db
    decreases n
  {
    if n == 0 || Candidate(db.events, id).None? then db
    else UndoTimes(Undo(db, env, id, actor, Candidate(db.events, id).value.id, true, now).0, env, id, actor, n - 1, now)
  }

  ghost predicate DbInv(db: Db, id: Id, now: Stamp)
  {
    && WellLogged(db.events, db.nextId) && NotAfter(db.events, now)
    && id in db.issues && id in db.graph.issues && Sound(db.graph) && PlainIds(db.graph)
  }

  ghost predicate SameContent(a: Db, b: Db, id: Id)
  {
    && id in a.issues && id in b.issues && CoreOf(a.issues[id]) == CoreOf(b.issues[id])
    && SameGraph(a.graph, b.graph)
  }

  lemma PerformPushes(db: Db, env: Env, id: Id, edit: Edit, now: Stamp)
    requires DbInv(db, id, now)
    ensures var db' := Perform(db, env, id, edit, now);
      match EditOf(db, env, id, edit, now) {
        case None => db' == db
        case Some(c) =>
          && Live(db'.events, id) ==
            Live(db.events, id) + [NextEvent(db.events, db.nextId, id, c.kind, c.old_, c.new_, now)]
          && db'.issues[id] == c.issue && db'.graph == c.graph && LogInv(db'.events, db'.nextId)
      }
  {
    var change := EditOf(db, env, id, edit, now);
    if change.Some? {
      var c := change.value;
      EditKeepsIssues(db, env, id, edit, now);
      var mid := db.(issues := db.issues[id := c.issue], graph := c.graph);
      hide EditOf, Sound, Live, LogInv, MaxSeq, Ordered, NotAfter, PlainIds;
      RecordPushes(mid, id, c.kind, c.old_, c.new_, now, id);
    }
  }

  lemma PerformKeepsDb(db: Db, env: Env, id: Id, edit: Edit, now: Stamp)
    requires DbInv(db, id, now)
    ensures DbInv(Perform(db, env, id, edit, now), id, now)
  {
    PerformPushes(db, env, id, edit, now);
    var change := EditOf(db, env, id, edit, now);
    if change.Some? {
      var c := change.value;
      EditIsSound(db, env, id, edit, now);
      EditKeepsIssues(db, env, id, edit, now);
      hide EditOf, Sound, Live, LogInv, MaxSeq;
      AppendKeepsOrder(db.events, NextEvent(db.events, db.nextId, id, c.kind, c.old_, c.new_, now), now);
      hide Ordered, NotAfter;
    }
  }

  /** One undo by anyone who may, from any database that has the content and the stack the edit left: it is never
      refused, gives back the stack before the edit, and the content before the edit exactly when the edit is
      restorable. */
  lemma UndoOneIff(db: Db, env: Env, id: Id, edit: Edit, at: Stamp, later: Db, actor: string,
      override: bool, now: Stamp)
    requires Faithful(env) && DbInv(db, id, at) && DbInv(later, id, now)
    requires EditOf(db, env, id, edit, at).Some?
    requires override || MayUndo(env, later.issues[id], actor)
    requires SameContent(later, Perform(db, env, id, edit, at), id)
    requires Live(later.events, id) == Live(Perform(db, env, id, edit, at).events, id)
    ensures Candidate(later.events, id).Some?
    ensures var (after, reply) := Undo(later, env, id, actor, Candidate(later.events, id).value.id, override, now);
      && reply.Reversed? && DbInv(after, id, now) && Live(after.events, id) == Live(db.events, id)
      && (SameContent(after, db, id) <==> Restorable(env, db.issues[id], edit) && GraphRestorable(db, id, edit))
  {
    hide EditOf, Perform, Restorable, GraphRestorable, RestoreIssue, RestoreGraph, MayUndo, Faithful, Sound, Undo,
      MaxSeq,
      SameContent, LogInv, Ordered, Live, Candidate;
    PerformPushes(db, env, id, edit, at);
    var c := EditOf(db, env, id, edit, at).value;
    var e := NextEvent(db.events, db.nextId, id, c.kind, c.old_, c.new_, at);
    var live := Live(later.events, id);
    assert live[|live| - 1] == e && live[..|live| - 1] == Live(db.events, id);
    CandidateIsTop(later.events, later.nextId, id);
    UndoReversesIff(db, env, id, edit, at, later, actor, override, now, e);
    var (after, reply) := Undo(later, env, id, actor, e.id, override, now);
    UndoPops(later, env, id, actor, e.id, override, now);
    UndoTakesTheNamedEvent(later, env, id, actor, e.id, override, now, id);
    var m := UndoAppendsAMarker(later, env, id, actor, e.id, override, now);
    AppendKeepsOrder(later.events, m, now);
  }

  lemma UndoReversesIff(db: Db, env: Env, id: Id, edit: Edit, at: Stamp, later: Db, actor: string,
      override: bool, now: Stamp, e: Event)
    requires Faithful(env) && DbInv(db, id, at) && DbInv(later, id, now)
    requires EditOf(db, env, id, edit, at).Some?
    requires override || MayUndo(env, later.issues[id], actor)
    requires SameContent(later, Perform(db, env, id, edit, at), id)
    requires var c := EditOf(db, env, id, edit, at).value;
      e.issueId == id && e.kind == c.kind && e.old_ == c.old_ && e.new_ == c.new_
    requires Candidate(later.events, id) == Some(e)
    ensures var (after, reply) := Undo(later, env, id, actor, e.id, override, now);
      && reply.Reversed? && id in after.issues && Sound(after.graph) && after.graph.issues == later.graph.issues
      && (SameContent(after, db, id) <==> Restorable(env, db.issues[id], edit) && GraphRestorable(db, id, edit))
  {
    UndoRestoresIssueIff(db, env, id, edit, at, later.issues[id], e, now);
    UndoRestoresGraphIff(db, env, id, edit, at, later.issues[id], e, later.graph);
    RestoreGraphIsSound(later.graph, e);
    hide Restorable, GraphRestorable, EditOf, RestoreIssue, RestoreGraph, CoreOf, SameGraph;
  }

  lemma RestoreGraphKeepsIssues(g: State, e: Event)
    requires RestoreGraph(g, e).Ok?
    ensures RestoreGraph(g, e).value.issues == g.issues
  {
    hide Reaches, ParentLoops, Loops, WithoutEdge, ParseDepValue;
  }

  lemma RestoreGraphIsSound(g: State, e: Event)
    requires Sound(g) && RestoreGraph(g, e).Ok?
    ensures Sound(RestoreGraph(g, e).value) && RestoreGraph(g, e).value.issues == g.issues
  {
    RestoreGraphKeepsIssues(g, e);
    hide Sound, UndoAdded, UndoRemoved, UndoParent;
    match e.kind
    case DependencyAdded => DependencyGraph.ApplyIsSound(g, UndoAdd(e.issueId, e.new_.value));
    case DependencyRemoved => DependencyGraph.ApplyIsSound(g, UndoRemove(e.issueId, e.old_.value));
    case ParentChanged => DependencyGraph.ApplyIsSound(g, UndoReparent(e.issueId, e.old_));
    case _ =>
  }

  ghost predicate AllRestorable(db: Db, env: Env, id: Id, edits: seq<(Edit, Stamp)>)
    requires id in db.issues
  {
    edits != [] ==>
      var init := edits[..|edits| - 1];
      var before := PerformAll(db, env, id, init);
      && AllRestorable(db, env, id, init)
      && Restorable(env, before.issues[id], edits[|edits| - 1].0) && GraphRestorable(before, id, edits[|edits| - 1].0)
  }

  function TimeAfter(start: Stamp, edits: seq<(Edit, Stamp)>): Stamp
  {
    if edits == [] then start else edits[|edits| - 1].1
  }

  /** The edits are made at times that do not step back. */
  ghost predicate Rising(start: Stamp, edits: seq<(Edit, Stamp)>)
  {
    edits != [] ==>
      var init := edits[..|edits| - 1];
      Rising(start, init) && TimeAfter(start, init) <= edits[|edits| - 1].1
  }

  lemma {:induction false} PerformAllKeepsDb(db: Db, env: Env, id: Id, edits: seq<(Edit, Stamp)>, start: Stamp)
    requires DbInv(db, id, start) && Rising(start, edits)
    ensures DbInv(PerformAll(db, env, id, edits), id, TimeAfter(start, edits))
  {
    hide WellLogged, Sound, PlainIds, Perform;
    if edits != [] {
      var init := edits[..|edits| - 1];
      PerformAllKeepsDb(db, env, id, init, start);
      LaterKeepsDb(PerformAll(db, env, id, init), id, TimeAfter(start, init), edits[|edits| - 1].1);
      PerformKeepsDb(PerformAll(db, env, id, init), env, id, edits[|edits| - 1].0, edits[|edits| - 1].1);
    }
  }

  lemma LaterKeepsDb(db: Db, id: Id, now: Stamp, later: Stamp)
    requires DbInv(db, id, now) && now <= later
    ensures DbInv(db, id, later)
  {
  }

  /** Any number of restorable edits followed by as many undos as events they pushed leaves the issue's
      columns, dependencies and parent as they were, and its undo stack too. */
  lemma {:induction false} UndoAll(db: Db, env: Env, id: Id, edits: seq<(Edit, Stamp)>, start: Stamp, later: Db,
      actor: string, now: Stamp)
    requires Faithful(env) && id in db.issues && DbInv(db, id, start)
    requires Rising(start, edits) && AllRestorable(db, env, id, edits)
    requires DbInv(later, id, now) && SameContent(later, PerformAll(db, env, id, edits), id)
    requires Live(later.events, id) == Live(PerformAll(db, env, id, edits).events, id)
    ensures |Live(later.events, id)| >= |Live(db.events, id)|
    ensures var after := UndoTimes(later, env, id, actor, |Live(later.events, id)| - |Live(db.events, id)|, now);
      SameContent(after, db, id) && Live(after.events, id) == Live(db.events, id)
  {
    hide DbInv, SameContent, Live, Undo, Perform, EditOf, Candidate, Faithful, Restorable, GraphRestorable, CoreOf,
      SameGraph;
    if edits != [] {
      var init := edits[..|edits| - 1];
      var (edit, at) := edits[|edits| - 1];
      var before := PerformAll(db, env, id, init);
      PerformAllKeepsDb(db, env, id, init, start);
      LaterKeepsDb(before, id, TimeAfter(start, init), at);
      PerformPushes(before, env, id, edit, at);
      if EditOf(before, env, id, edit, at).None? {
        UndoAll(db, env, id, init, start, later, actor, now);
      } else {
        UndoOneIff(before, env, id, edit, at, later, actor, true, now);
        var after := Undo(later, env, id, actor, Candidate(later.events, id).value.id, true, now).0;
        UndoAll(db, env, id, init, start, after, actor, now);
        var n := |Live(later.events, id)| - |Live(db.events, id)|;
        assert UndoTimes(later, env, id, actor, n, now) == UndoTimes(after, env, id, actor, n - 1, now);
        hide UndoTimes;
      }
    }
  }

  // -- What undo does not restore --

  const PLAIN := Issue("task", "t", "open", 2, "", "", "", map[], None, None, None, None)

  // Two open issues and an empty log.
  const FRESH := Db(map["i" := PLAIN, "j" := PLAIN], State({"i", "j"}, [], map["i" := None, "j" := None]), [], 0)

  lemma FreshHolds()
    ensures DbInv(FRESH, "i", 0)
  {
    var g := FRESH.graph;
    assert EdgesOf(g.deps) == {};
  }

  /** Storing a close reason by a field edit and then moving from one open status to another: undoing the move
      strips the reason. */
  lemma UndoStripsACloseReason(env: Env, actor: string) returns (before: Db, after: Db)
    requires Faithful(env) && ("task", "open") !in env.done
    ensures before == Perform(FRESH, env, "i", MergeFields(map[CLOSE_REASON := "dup"]), 0)
    ensures var moved := Perform(before, env, "i", SetStatus("doing", None), 0);
      && Candidate(moved.events, "i").Some?
      && after == Undo(moved, env, "i", actor, Candidate(moved.events, "i").value.id, true, 0).0
      && !SameContent(after, before, "i")
  {
    var store, move := MergeFields(map[CLOSE_REASON := "dup"]), SetStatus("doing", None);
    FreshHolds();
    before := Perform(FRESH, env, "i", store, 0);
    ReasonStored(env);
    PerformKeepsDb(FRESH, env, "i", store, 0);
    PerformKeepsDb(before, env, "i", move, 0);
    PerformPushes(before, env, "i", move, 0);
    var moved := Perform(before, env, "i", move, 0);
    SameContentOfItself(moved);
    hide EditOf, DbInv, Undo, Live, SameContent, Perform, Restorable, Faithful, Candidate;
    UndoOneIff(before, env, "i", move, 0, moved, actor, true, 0);
    after := Undo(moved, env, "i", actor, Candidate(moved.events, "i").value.id, true, 0).0;
  }

  lemma ReasonStored(env: Env)
    requires ("task", "open") !in env.done
    ensures var db := Perform(FRESH, env, "i", MergeFields(map[CLOSE_REASON := "dup"]), 0);
      EditOf(db, env, "i", SetStatus("doing", None), 0).Some?
        && !Restorable(env, db.issues["i"], SetStatus("doing", None))
  {
    assert CLOSE_REASON in map[] + map[CLOSE_REASON := "dup"];
    assert "doing"[0] != "open"[0];
    hide Record, EnterStatus;
  }

  lemma BlankKindAdded(env: Env)
    ensures var db := Perform(FRESH, env, "i", DependOn("j", ""), 0);
      DbInv(db, "i", 0) && db.graph == FRESH.graph.(deps := [Dep(Edge("i", "j"), "")])
  {
    FreshHolds();
    NothingReaches(EdgesOf(FRESH.graph.deps), "j", "i");
    var d := Dep(Edge("i", "j"), "");
    assert "i"[0] != "j"[0] && [] + [d] == [d] && EdgesOf(FRESH.graph.deps) == {};
    assert AddDep(FRESH.graph, d) == (FRESH.graph.(deps := [d]), Ok(true));
    PerformKeepsDb(FRESH, env, "i", DependOn("j", ""), 0);
    hide DbInv, AddDep, DepValue, Record;
  }

  lemma BlankKindRemovable(db: Db, env: Env)
    requires "i" in db.issues && db.graph == FRESH.graph.(deps := [Dep(Edge("i", "j"), "")])
    ensures EditOf(db, env, "i", Undepend("j"), 0).Some? && !GraphRestorable(db, "i", Undepend("j"))
  {
    assert Dep(Edge("i", "j"), "") in db.graph.deps;
    assert Edge("i", "j") in EdgesOf(db.graph.deps);
  }

  /** Adding a dependency with a blank kind, which nothing refuses, and removing it: undoing the removal brings it
      back as a `blocks` dependency. */
  lemma BlankKindComesBackAsBlocks(env: Env, actor: string) returns (before: Db, after: Db)
    requires Faithful(env)
    ensures before == Perform(FRESH, env, "i", DependOn("j", ""), 0)
    ensures var removed := Perform(before, env, "i", Undepend("j"), 0);
      && Candidate(removed.events, "i").Some?
      && after == Undo(removed, env, "i", actor, Candidate(removed.events, "i").value.id, true, 0).0
      && !SameContent(after, before, "i")
  {
    before := Perform(FRESH, env, "i", DependOn("j", ""), 0);
    BlankKindAdded(env);
    BlankKindRemovable(before, env);
    PerformKeepsDb(before, env, "i", Undepend("j"), 0);
    PerformPushes(before, env, "i", Undepend("j"), 0);
    var removed := Perform(before, env, "i", Undepend("j"), 0);
    SameContentOfItself(removed);
    hide EditOf, DbInv, Undo, Live, SameContent, Perform, GraphRestorable, Faithful, Candidate;
    UndoOneIff(before, env, "i", Undepend("j"), 0, removed, actor, true, 0);
    after := Undo(removed, env, "i", actor, Candidate(removed.events, "i").value.id, true, 0).0;
  }

  lemma SameContentOfItself(db: Db)
    requires "i" in db.issues
    ensures SameContent(db, db, "i")
  {
  }

  lemma NothingReaches(g: Graph, a: Id, b: Id)
    requires g == {} && a != b
    ensures !Reaches(g, a, b)
  {
    forall p ensures !WalkFromTo(g, p, a, b) {
      if |p| > 1 {
        assert Edge(p[0], p[1]) !in g;
      }
    }
  }
}
