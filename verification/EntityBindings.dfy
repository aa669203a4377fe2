/**
 Bindings between issues and code entities, with the opaque sign-off columns of a governed binding.

 A row is what its writes made it; only a signed write moves the sign-off columns, and a signed row cannot be
 removed.
 */
module EntityBindings {
  import opened Wrappers

  type IssueId = string
  type EntityId = string
  type Stamp = int

  datatype Key = Key(issue: IssueId, entity: EntityId)

  datatype Row = Row(
    contentHash: string,
    attachedAt: Stamp,
    attachedBy: string,
    entityKind: string,
    signature: Option<string>,
    signoffSeq: Option<int>,
    signedHash: Option<string>)

  datatype Event =
    | Added(key: Key, actor: string, hash: string)
    | Refreshed(key: Key, actor: string, oldHash: string, hash: string)
    | Removed(key: Key, actor: string)

  datatype Table = Table(issues: set<IssueId>, rows: map<Key, Row>, events: seq<Event>)

  datatype Write = Write(
    actor: string,
    hash: string,
    entityKind: Option<string>,
    signature: Option<string>,
    signoffSeq: Option<int>,
    now: Stamp)

  datatype Error = BadHash | IssueNotFound | GovernedRemoval

  // ---------------------------------------------------------------------------------------
  // Normalisation
  // ---------------------------------------------------------------------------------------

  /** The characters `str.strip` removes. */
  predicate IsSpace(c: char)
  {
    var n := c as int;
    9 <= n <= 13 || 28 <= n <= 32 || 0x2000 <= n <= 0x200A
    || n in {0x85, 0xA0, 0x1680, 0x2028, 0x2029, 0x202F, 0x205F, 0x3000}
  }

  function StripLeft(s: string): (r: string)
    ensures r == "" || !IsSpace(r[0])
    ensures |r| <= |s| && r == s[|s| - |r|..] && forall i | 0 <= i < |s| - |r| :: IsSpace(s[i])
  {
    if s != "" && IsSpace(s[0]) then StripLeft(s[1..]) else s
  }

  function StripRight(s: string): (r: string)
    ensures r == "" || !IsSpace(r[|r| - 1])
    ensures r <= s && forall i | |r| <= i < |s| :: IsSpace(s[i])
  {
    if s != "" && IsSpace(s[|s| - 1]) then StripRight(s[..|s| - 1]) else s
  }

  function Strip(s: string): string
  {
    StripRight(StripLeft(s))
  }

  /** A blank signature counts as none; a real one is kept verbatim. */
  function NormaliseSignature(signature: Option<string>): (r: Option<string>)
    ensures r.Some? ==> signature == r && exists i :: 0 <= i < |r.value| && !IsSpace(r.value[i])
    ensures r.None? && signature.Some? ==> forall i | 0 <= i < |signature.value| :: IsSpace(signature.value[i])
  {
    if signature.Some? && Strip(signature.value) != "" then
      (var left := StripLeft(signature.value);
       assert !IsSpace(left[0]) && left[0] == signature.value[|signature.value| - |left|];
       signature)
    else None
  }

  function NormaliseKind(kind: Option<string>): string
  {
    if kind.Some? then Strip(kind.value) else ""
  }

  // ---------------------------------------------------------------------------------------
  // The two operations as functions
  // ---------------------------------------------------------------------------------------

  function Upsert(existing: Option<Row>, w: Write): Row
  {
    var signature := NormaliseSignature(w.signature);
    var signedHash := if signature.Some? then Some(w.hash) else None;
    match existing
    case None => Row(w.hash, w.now, w.actor, NormaliseKind(w.entityKind), signature, w.signoffSeq, signedHash)
    case Some(row) =>
      Row(w.hash, w.now, row.attachedBy,
          if NormaliseKind(w.entityKind) != "" then NormaliseKind(w.entityKind) else row.entityKind,
          if signature.Some? then signature else row.signature,
          if signature.Some? then w.signoffSeq else row.signoffSeq,
          if signature.Some? then signedHash else row.signedHash)
  }

  function Add(t: Table, k: Key, w: Write): (Table, Result<Row, Error>)
  {
    if Strip(w.hash) == "" || Strip(w.hash) != w.hash then (t, Err(BadHash))
    else if k.issue !in t.issues then (t, Err(IssueNotFound))
    else
      var existing := if k in t.rows then Some(t.rows[k]) else None;
      var row := Upsert(existing, w);
      var event := if existing.Some? then Refreshed(k, w.actor, existing.value.contentHash, w.hash)
        else Added(k, w.actor, w.hash);
      (t.(rows := t.rows[k := row], events := t.events + [event]), Ok(row))
  }

  function Remove(t: Table, k: Key, actor: string): (Table, Result<bool, Error>)
  {
    if k !in t.rows then (t, Ok(false))
    else if t.rows[k].signature.Some? then (t, Err(GovernedRemoval))
    else (t.(rows := t.rows - {k}, events := t.events + [Removed(k, actor)]), Ok(true))
  }

  /** The closure gate's local check: the sign-off vouches for content that has since moved on. */
  predicate SignedRowIsStale(row: Row)
  {
    row.signedHash.Some? && row.signedHash.value != row.contentHash
  }

  datatype Freshness = Unknown | Fresh | Stale

  function FreshnessOf(row: Row, current: Option<string>): Freshness
  {
    if current.None? then Unknown else if current.value == row.contentHash then Fresh else Stale
  }

  // ---------------------------------------------------------------------------------------
  // The object
  // ---------------------------------------------------------------------------------------

  class BindingStore {
    var issues: set<IssueId>
    var rows: map<Key, Row>
    var events: seq<Event>

    function View(): Table
      reads this
    {
      Table(issues, rows, events)
    }

    constructor (issues: set<IssueId>)
      ensures View() == Table(issues, map[], [])
    {
      this.issues, rows, events := issues, map[], [];
    }

    method AddEntityAssociation(k: Key, w: Write) returns (r: Result<Row, Error>)
      modifies this`rows, this`events
      ensures (View(), r) == Add(old(View()), k, w)
    {
      if Strip(w.hash) == "" || Strip(w.hash) != w.hash {
        return Err(BadHash);
      }
      if k.issue !in issues {
        return Err(IssueNotFound);
      }
      if k in rows {
        var existing := rows[k];
        rows := rows[k := Upsert(Some(existing), w)];
        events := events + [Refreshed(k, w.actor, existing.contentHash, w.hash)];
      } else {
        rows := rows[k := Upsert(None, w)];
        events := events + [Added(k, w.actor, w.hash)];
      }
      return Ok(rows[k]);
    }

    method RemoveEntityAssociation(k: Key, actor: string) returns (r: Result<bool, Error>)
      modifies this`rows, this`events
      ensures (View(), r) == Remove(old(View()), k, actor)
    {
      if k in rows && rows[k].signature.Some? {
        return Err(GovernedRemoval);
      }
      if k !in rows {
        return Ok(false);
      }
      rows := rows - {k};
      events := events + [Removed(k, actor)];
      return Ok(true);
    }
  }

  // ---------------------------------------------------------------------------------------
  // When the operations succeed
  // ---------------------------------------------------------------------------------------

  predicate IsBlank(s: string)
  {
    forall i | 0 <= i < |s| :: IsSpace(s[i])
  }

  lemma StripKeepsIff(s: string)
    ensures Strip(s) == "" <==> IsBlank(s)
    ensures s != "" && Strip(s) == s <==> s != "" && !IsSpace(s[0]) && !IsSpace(s[|s| - 1])
  {
    hide IsSpace, StripLeft, StripRight;
    var left := StripLeft(s);
    if !IsBlank(s) {
      var i :| 0 <= i < |s| && !IsSpace(s[i]);
      assert left[i - (|s| - |left|)] == s[i];
    }
    if s != "" && !IsSpace(s[0]) {
      assert left == s;
    }
  }

  /** Stripping takes off the blanks at both ends and nothing else. */
  lemma StripMeans(s: string) returns (a: nat, b: nat)
    ensures a <= b <= |s| && Strip(s) == s[a..b] && IsBlank(s[..a]) && IsBlank(s[b..])
    ensures a < b ==> !IsSpace(s[a]) && !IsSpace(s[b - 1])
  {
    hide IsSpace, StripLeft, StripRight;
    var left := StripLeft(s);
    a := |s| - |left|;
    b := a + |StripRight(left)|;
    assert left == s[a..] && StripRight(left) == left[..b - a] == s[a..b];
    forall i | b <= i < |s| ensures IsSpace(s[i]) {
      assert left[i - a] == s[i];
    }
    if a < b {
      assert left[0] == s[a] && left[b - a - 1] == s[b - 1];
    }
  }

  /** The kind of an entity is the text given without the blanks around it, and empty where none was given. */
  lemma KindMeans(kind: Option<string>) returns (a: nat, b: nat)
    ensures kind.None? ==> NormaliseKind(kind) == ""
    ensures kind.Some? ==>
      && a <= b <= |kind.value| && NormaliseKind(kind) == kind.value[a..b]
      && IsBlank(kind.value[..a]) && IsBlank(kind.value[b..])
      && (a < b ==> !IsSpace(kind.value[a]) && !IsSpace(kind.value[b - 1]))
  {
    a, b := 0, 0;
    if kind.Some? {
      a, b := StripMeans(kind.value);
    }
  }

  /** An attachment is accepted exactly for an issue that is there and a hash that is not empty and neither starts nor
      ends with a blank; a removal exactly of a row that is there and not signed.  Both answer with the reason
      otherwise, and change nothing then. */
  lemma AcceptedIff(t: Table, k: Key, w: Write, actor: string)
    ensures var (added, r) := Add(t, k, w);
      var goodHash := w.hash != "" && !IsSpace(w.hash[0]) && !IsSpace(w.hash[|w.hash| - 1]);
      && (r.Ok? <==> goodHash && k.issue in t.issues)
      && (r == Err(BadHash) <==> !goodHash)
      && (r.Ok? ==> added.rows.Keys == t.rows.Keys + {k} && added.rows[k] == r.value)
      && (r.Err? ==> added == t)
      && (r.Ok? ==> added.events == t.events + [if k in t.rows then Refreshed(k, w.actor, t.rows[k].contentHash, w.hash)
                                                else Added(k, w.actor, w.hash)])
    ensures var (removed, r) := Remove(t, k, actor);
      && (r == Ok(true) <==> k in t.rows && t.rows[k].signature.None?)
      && (r == Ok(false) <==> k !in t.rows)
      && (r.Ok? ==> removed.rows == t.rows - {k})
      && (r == Ok(true) ==> removed.events == t.events + [Removed(k, actor)])
      && (r != Ok(true) ==> removed == t)
  {
    StripKeepsIff(w.hash);
    hide Strip, Upsert;
  }

  // ---------------------------------------------------------------------------------------
  // A row is the fold of its writes
  // ---------------------------------------------------------------------------------------

  function IsSigned(w: Write): bool
  {
    NormaliseSignature(w.signature).Some?
  }

  /** The most recent signed write. */
  function LastSigned(ws: seq<Write>): Option<Write>
  {
    if ws == [] then None
    else if IsSigned(ws[|ws| - 1]) then Some(ws[|ws| - 1])
    else LastSigned(ws[..|ws| - 1])
  }

  /** The most recent kind that was not blank. */
  function LastKind(ws: seq<Write>): string
  {
    if ws == [] then ""
    else if NormaliseKind(ws[|ws| - 1].entityKind) != "" then NormaliseKind(ws[|ws| - 1].entityKind)
    else LastKind(ws[..|ws| - 1])
  }

  /** The row holds its first attacher, its last hash and time, its last named kind, and the last signed write's
      signature, sequence and hash; without a signed write, neither signature nor signed hash, and the sequence of
      the first write. */
  ghost predicate FoldOf(row: Row, ws: seq<Write>)
  {
    && ws != []
    && row.attachedBy == ws[0].actor
    && row.contentHash == ws[|ws| - 1].hash && row.attachedAt == ws[|ws| - 1].now
    && row.entityKind == LastKind(ws)
    && match LastSigned(ws) {
         case None => row.signature.None? && row.signedHash.None? && row.signoffSeq == ws[0].signoffSeq
         case Some(w) => row.signature == w.signature && row.signoffSeq == w.signoffSeq
           && row.signedHash == Some(w.hash)
       }
  }

  // Each binding's writes since it was last created.
  datatype Run = Run(table: Table, writes: map<Key, seq<Write>>)

  datatype Action = CallAdd(key: Key, write: Write) | CallRemove(key: Key, actor: string)

  function Apply(r: Run, a: Action): Run
  {
    match a
    case CallAdd(k, w) =>
      var (t, reply) := Add(r.table, k, w);
      if reply.Ok? then Run(t, r.writes[k := (if k in r.writes then r.writes[k] else []) + [w]]) else Run(t, r.writes)
    case CallRemove(k, actor) =>
      var (t, reply) := Remove(r.table, k, actor);
      if reply == Ok(true) then Run(t, r.writes - {k}) else Run(t, r.writes)
  }

  function ApplyAll(r: Run, actions: seq<Action>): Run
  {
    if actions == [] then r else Apply(ApplyAll(r, actions[..|actions| - 1]), actions[|actions| - 1])
  }

  ghost predicate RunInv(r: Run)
  {
    r.table.rows.Keys == r.writes.Keys && forall k | k in r.writes :: FoldOf(r.table.rows[k], r.writes[k])
  }

  lemma UpsertFolds(row: Option<Row>, ws: seq<Write>, w: Write)
    requires if row.None? then ws == [] else FoldOf(row.value, ws)
    ensures FoldOf(Upsert(row, w), ws + [w])
  {
    assert (ws + [w])[..|ws + [w]| - 1] == ws;
    assert (ws + [w])[0] == if ws == [] then w else ws[0];
  }

  lemma ApplyKeepsInv(r: Run, a: Action)
    requires RunInv(r)
    ensures RunInv(Apply(r, a))
  {
    hide FoldOf, Upsert, Strip;
    match a
    case CallAdd(k, w) =>
      if k in r.writes {
        UpsertFolds(Some(r.table.rows[k]), r.writes[k], w);
      } else {
        UpsertFolds(None, [], w);
      }
    case CallRemove(k, actor) =>
  }

  /** After every run each binding is the fold of its writes, its signature is null exactly when its signed hash is,
      and its local sign-off is stale exactly when its last write's hash is not the last signed one's. */
  lemma {:induction false} BindingsAreFolds(issues: set<IssueId>, actions: seq<Action>)
    ensures var r := ApplyAll(Run(Table(issues, map[], []), map[]), actions);
      && RunInv(r)
      && forall k | k in r.table.rows ::
           && (r.table.rows[k].signature.None? <==> r.table.rows[k].signedHash.None?)
           && (SignedRowIsStale(r.table.rows[k]) <==>
                 LastSigned(r.writes[k]).Some?
                   && LastSigned(r.writes[k]).value.hash != r.writes[k][|r.writes[k]| - 1].hash)
  {
    if actions != [] {
      BindingsAreFolds(issues, actions[..|actions| - 1]);
      ApplyKeepsInv(ApplyAll(Run(Table(issues, map[], []), map[]), actions[..|actions| - 1]), actions[|actions| - 1]);
    }
    var r := ApplyAll(Run(Table(issues, map[], []), map[]), actions);
    forall k | k in r.table.rows
      ensures r.table.rows[k].signature.None? <==> r.table.rows[k].signedHash.None?
    {
      LastSignedIsSigned(r.writes[k]);
    }
  }

  /** A binding reads as fresh exactly against the hash of its last write, and as unknown only without a current one. */
  lemma FreshMeansLastWrite(issues: set<IssueId>, actions: seq<Action>, k: Key, current: Option<string>)
    requires k in ApplyAll(Run(Table(issues, map[], []), map[]), actions).table.rows
    ensures var r := ApplyAll(Run(Table(issues, map[], []), map[]), actions);
      && k in r.writes && r.writes[k] != []
      && (FreshnessOf(r.table.rows[k], current).Fresh? <==> current == Some(r.writes[k][|r.writes[k]| - 1].hash))
      && (FreshnessOf(r.table.rows[k], current).Unknown? <==> current.None?)
  {
    BindingsAreFolds(issues, actions);
  }

  lemma {:induction false} LastSignedIsSigned(ws: seq<Write>)
    ensures LastSigned(ws).Some?
      ==> LastSigned(ws).value in ws && LastSigned(ws).value.signature.Some? && IsSigned(LastSigned(ws).value)
    ensures LastSigned(ws).None? ==> forall w | w in ws :: !IsSigned(w)
  {
    if ws != [] {
      LastSignedIsSigned(ws[..|ws| - 1]);
      assert forall w :: w in ws <==> w in ws[..|ws| - 1] || w == ws[|ws| - 1];
    }
  }

  ghost predicate Governed(t: Table, k: Key)
  {
    k in t.rows && t.rows[k].signature.Some?
  }

  lemma ApplyKeepsSigned(r: Run, a: Action, k: Key)
    requires Governed(r.table, k)
    ensures Governed(Apply(r, a).table, k)
    ensures !(a.CallAdd? && a.key == k && IsSigned(a.write)) ==>
      var before, after := r.table.rows[k], Apply(r, a).table.rows[k];
      after.signature == before.signature && after.signoffSeq == before.signoffSeq
        && after.signedHash == before.signedHash
  {
    hide Strip, NormaliseSignature, NormaliseKind;
  }

  /** Once signed, no sequence of add and remove calls makes a binding unsigned or absent, and its sign-off columns
      change only with a signed write. */
  lemma {:induction false} SignedStaysSigned(r: Run, actions: seq<Action>, k: Key)
    requires Governed(r.table, k)
    ensures Governed(ApplyAll(r, actions).table, k)
    ensures (forall a | a in actions && a.CallAdd? && a.key == k :: !IsSigned(a.write)) ==>
      var before, after := r.table.rows[k], ApplyAll(r, actions).table.rows[k];
      after.signature == before.signature && after.signoffSeq == before.signoffSeq
        && after.signedHash == before.signedHash
  {
    hide Apply, IsSigned;
    if actions != [] {
      var init, last := actions[..|actions| - 1], actions[|actions| - 1];
      SignedStaysSigned(r, init, k);
      ApplyKeepsSigned(ApplyAll(r, init), last, k);
      assert forall a :: a in actions <==> a in init || a == last;
    }
  }

  // ---------------------------------------------------------------------------------------
  // The audit trail agrees with the table
  // ---------------------------------------------------------------------------------------

  /** The hash the events say a binding has; None when they say it is gone. */
  function AuditedHash(events: seq<Event>, k: Key): Option<string>
  {
    if events == [] then None
    else
      var e := events[|events| - 1];
      if e.key != k then AuditedHash(events[..|events| - 1], k)
      else if e.Removed? then None
      else Some(e.hash)
  }

  ghost predicate Audited(t: Table)
  {
    forall k :: AuditedHash(t.events, k) == if k in t.rows then Some(t.rows[k].contentHash) else None
  }

  lemma ApplyKeepsAudited(r: Run, a: Action)
    requires Audited(r.table)
    ensures Audited(Apply(r, a).table)
  {
    hide Strip, NormaliseSignature, NormaliseKind;
    var t' := Apply(r, a).table;
    if t'.events != r.table.events {
      assert t'.events[..|t'.events| - 1] == r.table.events;
    }
  }

  lemma {:induction false} EventsAgreeWithTable(issues: set<IssueId>, actions: seq<Action>)
    ensures Audited(ApplyAll(Run(Table(issues, map[], []), map[]), actions).table)
  {
    hide Apply;
    if actions != [] {
      EventsAgreeWithTable(issues, actions[..|actions| - 1]);
      ApplyKeepsAudited(ApplyAll(Run(Table(issues, map[], []), map[]), actions[..|actions| - 1]),
        actions[|actions| - 1]);
    }
  }
}
