/**
 The paged change feed: events of live issues and tombstones of hard-deleted issues, merged behind
 one (timestamp, id) cursor.

 Timestamps are canonical UTC texts in the program; module Timestamps shows that comparing such
 texts compares instants, so a stamp is an integer here.
 */
module ChangeFeed {
  import opened Wrappers

  type IssueId = string
  type Stamp = int

  // Tombstones get ids from here on, above every real event id.
  const BASE: int := 0x4000_0000_0000_0000

  datatype Event = Event(id: int, issueId: IssueId, kind: string, actor: string, at: Stamp)
  datatype Tombstone = Tombstone(seqNo: int, issueId: IssueId, title: string, deletedBy: Option<string>, at: Stamp)

  datatype Db = Db(
    events: seq<Event>,
    tombstones: seq<Tombstone>,
    titles: map<IssueId, string>,
    labels: set<(IssueId, string)>)

  datatype Filter = Filter(
    actor: Option<string>,
    issueId: Option<IssueId>,
    labelled: Option<string>,
    kind: Option<string>,
    excluded: set<string>)

  // `after` is None on a first request, which starts strictly after the timestamp.
  datatype Cursor = Cursor(since: Stamp, after: Option<int>)

  datatype Row = Row(at: Stamp, id: int, issueId: IssueId, kind: string, actor: string, title: string)

  // ---------------------------------------------------------------------------------------
  // Queries
  // ---------------------------------------------------------------------------------------

  predicate Le(a: Row, b: Row)
  {
    a.at < b.at || (a.at == b.at && a.id <= b.id)
  }

  predicate Less(a: Row, b: Row)
  {
    a.at < b.at || (a.at == b.at && a.id < b.id)
  }

  predicate Past(at: Stamp, id: int, since: Stamp, after: Option<int>)
  {
    at > since || (at == since && after.Some? && id > after.value)
  }

  predicate Allows<T(==)>(wanted: Option<T>, x: T)
  {
    wanted.None? || wanted.value == x
  }

  /** The WHERE clause of the event query; without a cursor it selects the whole history. */
  predicate SelectsEvent(db: Db, c: Option<Cursor>, f: Filter, e: Event)
  {
    && e.issueId in db.titles
    && (c.None? || Past(e.at, e.id, c.value.since, c.value.after))
    && Allows(f.actor, e.actor) && Allows(f.issueId, e.issueId)
    && (f.labelled.None? || (e.issueId, f.labelled.value) in db.labels)
    && Allows(f.kind, e.kind) && e.kind !in f.excluded
  }

  /** The cursor of the tombstone query lives in the space of sequence numbers. */
  predicate SelectsTombstone(c: Option<Cursor>, f: Filter, d: Tombstone)
  {
    && (c.None? || Past(d.at, d.seqNo, c.value.since, if c.value.after.Some? then Some(c.value.after.value - BASE)
      else None))
    && (f.actor.None? || d.deletedBy == f.actor) && Allows(f.issueId, d.issueId)
  }

  predicate WantsTombstones(f: Filter)
  {
    f.labelled.None? && Allows(f.kind, "issue_deleted") && "issue_deleted" !in f.excluded
  }

  function EventRow(db: Db, e: Event): Row
    requires e.issueId in db.titles
  {
    Row(e.at, e.id, e.issueId, e.kind, e.actor, db.titles[e.issueId])
  }

  function TombstoneRow(d: Tombstone): Row
  {
    Row(d.at, d.seqNo, d.issueId, "issue_deleted", if d.deletedBy.Some? then d.deletedBy.value else "", d.title)
  }

  function SelectEvents(db: Db, c: Option<Cursor>, f: Filter, events: seq<Event>): seq<Row>
  {
    if events == [] then []
    else
      var rest := SelectEvents(db, c, f, events[1..]);
      if SelectsEvent(db, c, f, events[0]) then [EventRow(db, events[0])] + rest else rest
  }

  function SelectTombstones(c: Option<Cursor>, f: Filter, tombstones: seq<Tombstone>): seq<Row>
  {
    if tombstones == [] then []
    else
      var rest := SelectTombstones(c, f, tombstones[1..]);
      if SelectsTombstone(c, f, tombstones[0]) then [TombstoneRow(tombstones[0])] + rest else rest
  }

  function Insert(r: Row, s: seq<Row>): seq<Row>
  {
    if s == [] || Le(r, s[0]) then [r] + s else [s[0]] + Insert(r, s[1..])
  }

  /** A stable sort by (at, id). */
  function Sort(s: seq<Row>): seq<Row>
  {
    if s == [] then [] else Insert(s[0], Sort(s[1..]))
  }

  function Take(s: seq<Row>, n: nat): seq<Row>
  {
    if n <= |s| then s[..n] else s
  }

  /** The records of tombstone rows: ids move above every real event id. */
  function Synthesize(rows: seq<Row>): seq<Row>
  {
    if rows == [] then [] else [rows[0].(id := BASE + rows[0].id)] + Synthesize(rows[1..])
  }

  function DeletedIssueChanges(db: Db, c: Cursor, f: Filter, limit: nat): seq<Row>
  {
    if !WantsTombstones(f) then []
    else Synthesize(Take(Sort(SelectTombstones(Some(c), f, db.tombstones)), limit))
  }

  function GetEventsSince(db: Db, c: Cursor, f: Filter, limit: nat): seq<Row>
  {
    var events := Take(Sort(SelectEvents(db, Some(c), f, db.events)), limit);
    var tombstones := DeletedIssueChanges(db, c, f, limit);
    if tombstones == [] then events else Take(Sort(events + tombstones), limit)
  }

  datatype Page = Page(items: seq<Row>, hasMore: bool, next: Cursor)

  /** The `/changes` route: it asks for one row more than it returns. */
  function Changes(db: Db, c: Cursor, f: Filter, limit: nat): Page
  {
    var rows := GetEventsSince(db, c, f, limit + 1);
    var items := Take(rows, limit);
    Page(items, |rows| > limit,
         if items == [] then c else Cursor(items[|items| - 1].at, Some(items[|items| - 1].id)))
  }

  // ---------------------------------------------------------------------------------------
  // The whole feed
  // ---------------------------------------------------------------------------------------

  function Feed(db: Db, f: Filter): seq<Row>
  {
    Sort(SelectEvents(db, None, f, db.events)
         + if WantsTombstones(f) then Synthesize(SelectTombstones(None, f, db.tombstones)) else [])
  }

  function AfterCursor(s: seq<Row>, c: Cursor): seq<Row>
  {
    if s == [] then []
    else if s[0].at > c.since || (s[0].at == c.since && c.after.Some? && s[0].id > c.after.value) then
      [s[0]] + AfterCursor(s[1..], c)
    else AfterCursor(s[1..], c)
  }

  // Autoincrement keys are positive and unique; no event id reaches the tombstones' range.
  ghost predicate WellKeyed(db: Db)
  {
    && (forall i | 0 <= i < |db.events| :: 0 < db.events[i].id < BASE)
    && (forall i, j | 0 <= i < j < |db.events| :: db.events[i].id != db.events[j].id)
    && (forall i | 0 <= i < |db.tombstones| :: 0 < db.tombstones[i].seqNo)
    && (forall i, j | 0 <= i < j < |db.tombstones| :: db.tombstones[i].seqNo != db.tombstones[j].seqNo)
  }

  // ---------------------------------------------------------------------------------------
  // Sorting and merging
  // ---------------------------------------------------------------------------------------

  function Merge(a: seq<Row>, b: seq<Row>): seq<Row>
    decreases |a| + |b|
  {
    if a == [] then b
    else if b == [] then a
    else if Le(a[0], b[0]) then [a[0]] + Merge(a[1..], b)
    else [b[0]] + Merge(a, b[1..])
  }

  ghost predicate Sorted(s: seq<Row>)
  {
    forall i | 0 <= i < |s| - 1 :: Le(s[i], s[i + 1])
  }

  lemma {:induction false} InsertMerge(r: Row, a: seq<Row>, b: seq<Row>)
    ensures Insert(r, Merge(a, b)) == Merge(Insert(r, a), b)
    decreases |a| + |b|
  {
    if a == [] {
      assert Insert(r, a) == [r];
      if b != [] && !Le(r, b[0]) {
        InsertMerge(r, a, b[1..]);
        assert Insert(r, b) == [b[0]] + Insert(r, b[1..]);
        assert Merge(a, b[1..]) == b[1..];
      }
    } else if b != [] {
      if Le(a[0], b[0]) {
        InsertMerge(r, a[1..], b);
        var m := Merge(a[1..], b);
        assert ([a[0]] + m)[1..] == m;
        if !Le(r, a[0]) {
          assert Insert(r, a) == [a[0]] + Insert(r, a[1..]);
          assert Insert(r, a)[1..] == Insert(r, a[1..]);
        } else {
          assert ([r] + a)[1..] == a;
        }
      } else {
        InsertMerge(r, a, b[1..]);
        var m := Merge(a, b[1..]);
        assert ([b[0]] + m)[1..] == m;
        if Le(r, b[0]) {
          assert ([r] + a)[1..] == a;
        } else {
          assert !Le(Insert(r, a)[0], b[0]);
        }
      }
    }
  }

  lemma {:induction false} SortMerges(a: seq<Row>, b: seq<Row>)
    ensures Sort(a + b) == Merge(Sort(a), Sort(b))
  {
    if a == [] {
      assert a + b == b;
    } else {
      SortMerges(a[1..], b);
      assert (a + b)[1..] == a[1..] + b;
      InsertMerge(a[0], Sort(a[1..]), Sort(b));
    }
  }

  lemma {:induction false} InsertSorts(r: Row, s: seq<Row>)
    requires Sorted(s)
    ensures Sorted(Insert(r, s))
    ensures |Insert(r, s)| == |s| + 1 && Insert(r, s)[0] == if s == [] || Le(r, s[0]) then r else s[0]
  {
    if s != [] && !Le(r, s[0]) {
      InsertSorts(r, s[1..]);
      var t := Insert(r, s[1..]);
      forall i | 0 <= i < |t| ensures Le(([s[0]] + t)[i], ([s[0]] + t)[i + 1]) {
        assert i == 0 || Le(t[i - 1], t[i]);
        assert |s| > 1 ==> Le(s[0], s[1]);
      }
    } else {
      var t := [r] + s;
      forall i | 0 <= i < |t| - 1 ensures Le(t[i], t[i + 1]) {
        assert i == 0 || Le(s[i - 1], s[i]);
      }
    }
  }

  lemma {:induction false} SortSorts(s: seq<Row>)
    ensures Sorted(Sort(s)) && |Sort(s)| == |s|
  {
    if s != [] {
      SortSorts(s[1..]);
      InsertSorts(s[0], Sort(s[1..]));
    }
  }

  lemma {:induction false} SortedIsFixed(s: seq<Row>)
    requires Sorted(s)
    ensures Sort(s) == s
  {
    if s != [] {
      SortedIsFixed(s[1..]);
      assert |s| > 1 ==> Le(s[0], s[1]);
    }
  }

  /** The first `n` of a merge need only the first `n` of each side. */
  lemma {:induction false} TakeOfMerge(a: seq<Row>, b: seq<Row>, i: nat, j: nat, n: nat)
    requires n <= i && n <= j
    ensures Take(Merge(Take(a, i), Take(b, j)), n) == Take(Merge(a, b), n)
    decreases |a| + |b|
  {
    var a', b' := Take(a, i), Take(b, j);
    if n > 0 && a != [] && b != [] {
      assert a'[1..] == Take(a[1..], i - 1) && b'[1..] == Take(b[1..], j - 1);
      if Le(a[0], b[0]) {
        TakeOfMerge(a[1..], b, i - 1, j, n - 1);
        TakeCons(a[0], Merge(a[1..], b), n);
        TakeCons(a[0], Merge(a'[1..], b'), n);
      } else {
        TakeOfMerge(a, b[1..], i, j - 1, n - 1);
        TakeCons(b[0], Merge(a, b[1..]), n);
        TakeCons(b[0], Merge(a', b'[1..]), n);
      }
    }
  }

  lemma TakeCons(r: Row, s: seq<Row>, n: nat)
    requires n > 0
    ensures Take([r] + s, n) == [r] + Take(s, n - 1)
  {
  }

  lemma TakeSorted(s: seq<Row>, n: nat)
    requires Sorted(s)
    ensures Sorted(Take(s, n))
  {
  }

  lemma {:induction false} SynthesizeInsert(r: Row, s: seq<Row>)
    ensures Synthesize(Insert(r, s)) == Insert(r.(id := BASE + r.id), Synthesize(s))
  {
    if s != [] && !Le(r, s[0]) {
      SynthesizeInsert(r, s[1..]);
      assert Insert(r, s)[1..] == Insert(r, s[1..]);
      assert Synthesize(s)[1..] == Synthesize(s[1..]);
    } else {
      assert ([r] + s)[1..] == s;
    }
  }

  lemma {:induction false} SynthesizeSort(s: seq<Row>)
    ensures Synthesize(Sort(s)) == Sort(Synthesize(s))
  {
    if s != [] {
      SynthesizeSort(s[1..]);
      SynthesizeInsert(s[0], Sort(s[1..]));
      assert Synthesize(s)[1..] == Synthesize(s[1..]);
    }
  }

  lemma {:induction false} SynthesizeAt(s: seq<Row>)
    ensures |Synthesize(s)| == |s| && forall i | 0 <= i < |s| :: Synthesize(s)[i] == s[i].(id := BASE + s[i].id)
  {
    if s != [] {
      SynthesizeAt(s[1..]);
    }
  }

  lemma SynthesizeTake(s: seq<Row>, n: nat)
    ensures Synthesize(Take(s, n)) == Take(Synthesize(s), n)
  {
    SynthesizeAt(s);
    SynthesizeAt(Take(s, n));
  }

  // ---------------------------------------------------------------------------------------
  // A page is the first part of what the feed has after the cursor
  // ---------------------------------------------------------------------------------------

  lemma {:induction false} AfterInsert(r: Row, s: seq<Row>, c: Cursor)
    ensures AfterCursor(Insert(r, s), c)
      == if Past(r.at, r.id, c.since, c.after) then Insert(r, AfterCursor(s, c)) else AfterCursor(s, c)
  {
    if s != [] && !Le(r, s[0]) {
      AfterInsert(r, s[1..], c);
      assert Insert(r, s)[1..] == Insert(r, s[1..]);
      assert Past(s[0].at, s[0].id, c.since, c.after) ==> AfterCursor(s, c)[1..] == AfterCursor(s[1..], c);
    } else {
      assert ([r] + s)[1..] == s;
    }
  }

  lemma {:induction false} AfterSort(s: seq<Row>, c: Cursor)
    ensures AfterCursor(Sort(s), c) == Sort(AfterCursor(s, c))
  {
    if s != [] {
      AfterSort(s[1..], c);
      AfterInsert(s[0], Sort(s[1..]), c);
    }
  }

  lemma {:induction false} AfterConcat(a: seq<Row>, b: seq<Row>, c: Cursor)
    ensures AfterCursor(a + b, c) == AfterCursor(a, c) + AfterCursor(b, c)
  {
    if a == [] {
      assert a + b == b;
    } else {
      assert (a + b)[1..] == a[1..] + b;
      AfterConcat(a[1..], b, c);
    }
  }

  lemma {:induction false} AfterEvents(db: Db, c: Cursor, f: Filter, events: seq<Event>)
    ensures AfterCursor(SelectEvents(db, None, f, events), c) == SelectEvents(db, Some(c), f, events)
  {
    if events != [] {
      AfterEvents(db, c, f, events[1..]);
      var rest := SelectEvents(db, None, f, events[1..]);
      if SelectsEvent(db, None, f, events[0]) {
        assert ([EventRow(db, events[0])] + rest)[1..] == rest;
      }
    }
  }

  lemma {:induction false} AfterTombstones(c: Cursor, f: Filter, tombstones: seq<Tombstone>)
    ensures AfterCursor(Synthesize(SelectTombstones(None, f, tombstones)), c)
      == Synthesize(SelectTombstones(Some(c), f, tombstones))
  {
    if tombstones != [] {
      AfterTombstones(c, f, tombstones[1..]);
      var d := tombstones[0];
      var all, some := SelectTombstones(None, f, tombstones[1..]), SelectTombstones(Some(c), f, tombstones[1..]);
      assert ([TombstoneRow(d)] + all)[1..] == all && ([TombstoneRow(d)] + some)[1..] == some;
      var r := TombstoneRow(d).(id := BASE + d.seqNo);
      assert ([r] + Synthesize(all))[1..] == Synthesize(all);
    }
  }

  /** Merging the first `limit` rows of both tables gives the first `limit` rows of the whole feed after the cursor. */
  lemma PageIsFeedAfterCursor(db: Db, c: Cursor, f: Filter, limit: nat)
    ensures var rest := AfterCursor(Feed(db, f), c);
      GetEventsSince(db, c, f, limit) == if |rest| <= limit then rest else rest[..limit]
  {
    var xs := SelectEvents(db, Some(c), f, db.events);
    var raw := SelectTombstones(Some(c), f, db.tombstones);
    var ys := if WantsTombstones(f) then Synthesize(raw) else [];
    FeedAfterCursor(db, c, f);
    SortMerges(xs, ys);
    TakeOfMerge(Sort(xs), Sort(ys), limit, limit, limit);
    SynthesizeSort(raw);
    SynthesizeTake(Sort(raw), limit);
    SortSorts(xs);
    SortSorts(ys);
    var a, b := Take(Sort(xs), limit), Take(Sort(ys), limit);
    assert b == DeletedIssueChanges(db, c, f, limit);
    if b == [] {
      assert Merge(a, b) == a;
    } else {
      TakeSorted(Sort(xs), limit);
      TakeSorted(Sort(ys), limit);
      SortMerges(a, b);
      SortedIsFixed(a);
      SortedIsFixed(b);
    }
  }

  lemma FeedAfterCursor(db: Db, c: Cursor, f: Filter)
    ensures AfterCursor(Feed(db, f), c) == Sort(SelectEvents(db, Some(c), f, db.events)
              + if WantsTombstones(f) then Synthesize(SelectTombstones(Some(c), f, db.tombstones)) else [])
  {
    var xs := SelectEvents(db, None, f, db.events);
    var ys := if WantsTombstones(f) then Synthesize(SelectTombstones(None, f, db.tombstones)) else [];
    AfterSort(xs + ys, c);
    AfterConcat(xs, ys, c);
    AfterEvents(db, c, f, db.events);
    AfterTombstones(c, f, db.tombstones);
  }

  // ---------------------------------------------------------------------------------------
  // Following the cursor
  // ---------------------------------------------------------------------------------------

  ghost predicate StrictlySorted(s: seq<Row>)
  {
    forall i, j | 0 <= i < j < |s| :: Less(s[i], s[j])
  }

  ghost predicate Apart(r: Row, s: seq<Row>)
  {
    forall x | x in s :: x.at != r.at || x.id != r.id
  }

  lemma {:induction false} InsertApart(r: Row, s: seq<Row>)
    requires StrictlySorted(s) && Apart(r, s)
    ensures StrictlySorted(Insert(r, s)) && forall x :: x in Insert(r, s) <==> x == r || x in s
  {
    if s != [] && !Le(r, s[0]) {
      InsertApart(r, s[1..]);
      var t := Insert(r, s[1..]);
      assert forall x :: x in s <==> x == s[0] || x in s[1..];
      forall x | x in t ensures Less(s[0], x) {
        if x != r {
          var i :| 0 <= i < |s[1..]| && s[1..][i] == x;
          assert x == s[i + 1];
        } else {
          assert s[0] in s;
        }
      }
      forall i, j | 0 <= i < j < |t| + 1 ensures Less(([s[0]] + t)[i], ([s[0]] + t)[j]) {
        assert t[j - 1] in t;
      }
    } else if s != [] {
      assert s[0] in s;
    }
  }

  // No two rows share their key.
  ghost predicate AllApart(s: seq<Row>)
  {
    forall i, j | 0 <= i < j < |s| :: s[i].at != s[j].at || s[i].id != s[j].id
  }

  lemma {:induction false} SortApart(s: seq<Row>)
    requires AllApart(s)
    ensures StrictlySorted(Sort(s)) && forall x :: x in Sort(s) <==> x in s
  {
    if s != [] {
      SortApart(s[1..]);
      assert forall x :: x in s <==> x == s[0] || x in s[1..];
      assert Apart(s[0], s[1..]);
      InsertApart(s[0], Sort(s[1..]));
    }
  }

  lemma {:induction false} EventsSelected(db: Db, f: Filter, events: seq<Event>, r: Row)
    ensures r in SelectEvents(db, None, f, events)
      <==> exists e :: e in events && SelectsEvent(db, None, f, e) && r == EventRow(db, e)
  {
    if events != [] {
      EventsSelected(db, f, events[1..], r);
      assert forall e :: e in events <==> e == events[0] || e in events[1..];
    }
  }

  lemma {:induction false} EventsApart(db: Db, f: Filter, events: seq<Event>)
    requires forall i | 0 <= i < |events| :: 0 < events[i].id < BASE
    requires forall i, j | 0 <= i < j < |events| :: events[i].id != events[j].id
    ensures AllApart(SelectEvents(db, None, f, events))
    ensures forall r | r in SelectEvents(db, None, f, events) :: r.id < BASE
  {
    if events != [] {
      EventsApart(db, f, events[1..]);
      var rest := SelectEvents(db, None, f, events[1..]);
      forall r | r in rest ensures r.id != events[0].id {
        EventsSelected(db, f, events[1..], r);
      }
    }
  }

  lemma {:induction false} TombstonesSelected(f: Filter, tombstones: seq<Tombstone>, r: Row)
    ensures r in SelectTombstones(None, f, tombstones)
      <==> exists d :: d in tombstones && SelectsTombstone(None, f, d) && r == TombstoneRow(d)
  {
    if tombstones != [] {
      TombstonesSelected(f, tombstones[1..], r);
      assert forall d :: d in tombstones <==> d == tombstones[0] || d in tombstones[1..];
    }
  }

  lemma {:induction false} TombstonesApart(f: Filter, tombstones: seq<Tombstone>)
    requires forall i | 0 <= i < |tombstones| :: 0 < tombstones[i].seqNo
    requires forall i, j | 0 <= i < j < |tombstones| :: tombstones[i].seqNo != tombstones[j].seqNo
    ensures AllApart(SelectTombstones(None, f, tombstones))
    ensures forall r | r in SelectTombstones(None, f, tombstones) :: 0 < r.id
  {
    if tombstones != [] {
      TombstonesApart(f, tombstones[1..]);
      var rest := SelectTombstones(None, f, tombstones[1..]);
      forall r | r in rest ensures r.id != tombstones[0].seqNo {
        TombstonesSelected(f, tombstones[1..], r);
      }
    }
  }

  lemma SourcesApart(db: Db, f: Filter)
    requires WellKeyed(db)
    ensures AllApart(SelectEvents(db, None, f, db.events)
                     + if WantsTombstones(f) then Synthesize(SelectTombstones(None, f, db.tombstones)) else [])
  {
    var xs := SelectEvents(db, None, f, db.events);
    var raw := SelectTombstones(None, f, db.tombstones);
    EventsApart(db, f, db.events);
    TombstonesApart(f, db.tombstones);
    SynthesizeAt(raw);
    var ys := Synthesize(raw);
    forall i | 0 <= i < |xs| ensures xs[i].id < BASE {
      assert xs[i] in xs;
    }
    forall i | 0 <= i < |ys| ensures ys[i].id > BASE {
      assert raw[i] in raw;
    }
  }

  lemma FeedIsStrict(db: Db, f: Filter)
    requires WellKeyed(db)
    ensures StrictlySorted(Feed(db, f))
  {
    SourcesApart(db, f);
    SortApart(SelectEvents(db, None, f, db.events)
              + if WantsTombstones(f) then Synthesize(SelectTombstones(None, f, db.tombstones)) else []);
  }

  /** The feed holds every matching event and tombstone exactly once, in strict key order. */
  lemma FeedHoldsEachRowOnce(db: Db, f: Filter)
    requires WellKeyed(db)
    ensures StrictlySorted(Feed(db, f))
    ensures forall r :: r in Feed(db, f) <==>
      || (exists e :: e in db.events && Matches(db, f, e)
                      && r == Row(e.at, e.id, e.issueId, e.kind, e.actor, db.titles[e.issueId]))
      || (exists d :: d in db.tombstones && MatchesDeletion(f, d)
                      && r == Row(d.at, BASE + d.seqNo, d.issueId, "issue_deleted",
                                  if d.deletedBy.None? then "" else d.deletedBy.value, d.title))
  {
    SelectedRows(db, f);
    forall e ensures Matches(db, f, e) <==> SelectsEvent(db, None, f, e) {
    }
    forall d ensures MatchesDeletion(f, d) <==> WantsTombstones(f) && SelectsTombstone(None, f, d) {
    }
    hide SelectsEvent, SelectsTombstone, WantsTombstones, Feed, StrictlySorted, Matches, MatchesDeletion;
  }

  /** An event of an issue that is there, within every part of the filter that is given. */
  ghost predicate Matches(db: Db, f: Filter, e: Event)
  {
    && e.issueId in db.titles
    && (f.actor.Some? ==> e.actor == f.actor.value)
    && (f.issueId.Some? ==> e.issueId == f.issueId.value)
    && (f.labelled.Some? ==> (e.issueId, f.labelled.value) in db.labels)
    && (f.kind.Some? ==> e.kind == f.kind.value)
    && e.kind !in f.excluded
  }

  /** A deletion within the filter, where the filter lets deletions through at all; deleted issues have no labels. */
  ghost predicate MatchesDeletion(f: Filter, d: Tombstone)
  {
    && (f.actor.Some? ==> d.deletedBy == Some(f.actor.value))
    && (f.issueId.Some? ==> d.issueId == f.issueId.value)
    && f.labelled.None?
    && (f.kind.Some? ==> f.kind.value == "issue_deleted")
    && "issue_deleted" !in f.excluded
  }

  lemma SelectedRows(db: Db, f: Filter)
    requires WellKeyed(db)
    ensures StrictlySorted(Feed(db, f))
    ensures forall r :: r in Feed(db, f) <==>
      || (exists e :: e in db.events && SelectsEvent(db, None, f, e) && r == EventRow(db, e))
      || (WantsTombstones(f) && exists d :: d in db.tombstones && SelectsTombstone(None, f, d)
                                    && r == TombstoneRow(d).(id := BASE + d.seqNo))
  {
    var xs := SelectEvents(db, None, f, db.events);
    var raw := SelectTombstones(None, f, db.tombstones);
    var ys := if WantsTombstones(f) then Synthesize(raw) else [];
    SourcesApart(db, f);
    SortApart(xs + ys);
    hide StrictlySorted, AllApart, Sort;
    forall r ensures r in xs <==> exists e :: e in db.events && SelectsEvent(db, None, f, e) && r == EventRow(db, e) {
      EventsSelected(db, f, db.events, r);
    }
    forall r
      ensures r in ys <==> && WantsTombstones(f)
                           && exists d :: && d in db.tombstones && SelectsTombstone(None, f, d)
                                          && r == TombstoneRow(d).(id := BASE + d.seqNo)
    {
      if WantsTombstones(f) {
        SynthesizedFrom(raw, r);
        forall x ensures x in raw
          <==> exists d :: d in db.tombstones && SelectsTombstone(None, f, d) && x == TombstoneRow(d) {
          TombstonesSelected(f, db.tombstones, x);
        }
      }
    }
    assert forall r :: r in xs + ys <==> r in xs || r in ys;
  }

  lemma SynthesizedFrom(raw: seq<Row>, r: Row)
    ensures r in Synthesize(raw) <==> exists x :: x in raw && r == x.(id := BASE + x.id)
  {
    SynthesizeAt(raw);
    if r in Synthesize(raw) {
      var i :| 0 <= i < |raw| && Synthesize(raw)[i] == r;
      assert raw[i] in raw;
    }
    if x :| x in raw && r == x.(id := BASE + x.id) {
      var i :| 0 <= i < |raw| && raw[i] == x;
      assert Synthesize(raw)[i] == r;
    }
  }

  /** In a strictly sorted feed the rows after a cursor are a suffix. */
  lemma {:induction false} AfterIsSuffix(s: seq<Row>, c: Cursor) returns (k: nat)
    requires StrictlySorted(s)
    ensures k <= |s| && AfterCursor(s, c) == s[k..]
    ensures forall i | 0 <= i < |s| :: Past(s[i].at, s[i].id, c.since, c.after) <==> k <= i
  {
    k := 0;
    if s != [] {
      if Past(s[0].at, s[0].id, c.since, c.after) {
        var k' := AfterIsSuffix(s[1..], c);
        if |s| > 1 {
          assert Less(s[0], s[1]) && s[1..][0] == s[1];
        }
        forall i | 0 <= i < |s| ensures Past(s[i].at, s[i].id, c.since, c.after) {
          assert i > 0 ==> s[1..][i - 1] == s[i];
        }
      } else {
        var k' := AfterIsSuffix(s[1..], c);
        k := k' + 1;
        forall i | 0 <= i < |s| ensures Past(s[i].at, s[i].id, c.since, c.after) <==> k <= i {
          assert i > 0 ==> s[1..][i - 1] == s[i];
        }
      }
    }
  }

  /** The cursor at the last row of a page continues right behind it. */
  lemma CursorContinues(s: seq<Row>, c: Cursor, n: nat)
    requires StrictlySorted(s) && 0 < n <= |AfterCursor(s, c)|
    ensures var last := AfterCursor(s, c)[n - 1];
      AfterCursor(s, Cursor(last.at, Some(last.id))) == AfterCursor(s, c)[n..]
  {
    var k := AfterIsSuffix(s, c);
    var last := s[k + n - 1];
    var k' := AfterIsSuffix(s, Cursor(last.at, Some(last.id)));
    forall i | 0 <= i < |s| ensures Less(last, s[i]) <==> k + n <= i {
      if i < k + n - 1 {
        assert Less(s[i], last);
      }
    }
    assert k' < |s| ==> Less(last, s[k']);
    assert k + n < |s| ==> Less(last, s[k + n]);
  }

  lemma PageShape(db: Db, c: Cursor, f: Filter, limit: nat)
    requires limit >= 1
    ensures var rest, page := AfterCursor(Feed(db, f), c), Changes(db, c, f, limit);
      && page.items == Take(rest, limit) && (page.hasMore <==> |rest| > limit)
      && page.next == if rest == [] then c else
           var last := rest[|page.items| - 1];
           Cursor(last.at, Some(last.id))
  {
    PageIsFeedAfterCursor(db, c, f, limit + 1);
    hide Feed, AfterCursor, GetEventsSince;
    var rest := AfterCursor(Feed(db, f), c);
    assert Take(Take(rest, limit + 1), limit) == Take(rest, limit);
  }

  /** One page of the route: its rows, whether more follow, and where the next request continues. */
  lemma PageIsExact(db: Db, c: Cursor, f: Filter, limit: nat)
    requires WellKeyed(db) && limit >= 1
    ensures var rest, page := AfterCursor(Feed(db, f), c), Changes(db, c, f, limit);
      && page.items == (if |rest| <= limit then rest else rest[..limit])
      && (page.hasMore <==> |rest| > limit)
      && AfterCursor(Feed(db, f), page.next) == rest[|page.items|..]
  {
    PageShape(db, c, f, limit);
    FeedIsStrict(db, f);
    hide Feed, StrictlySorted, AfterCursor, Changes, WellKeyed;
    var rest := AfterCursor(Feed(db, f), c);
    if rest != [] {
      CursorContinues(Feed(db, f), c, |Take(rest, limit)|);
    }
  }

  /** What a consumer collects who asks again while `has_more` holds. */
  ghost function ReadAll(db: Db, c: Cursor, f: Filter, limit: nat): seq<Row>
    requires WellKeyed(db) && limit >= 1
    decreases |AfterCursor(Feed(db, f), c)|
  {
    PageIsExact(db, c, f, limit);
    var page := Changes(db, c, f, limit);
    if page.hasMore then page.items + ReadAll(db, page.next, f, limit) else page.items
  }

  /** Paging completeness: for any page size the pages together are the feed after the first cursor,
      every matching change exactly once and in order. */
  lemma {:induction false} PagesCoverTheFeed(db: Db, c: Cursor, f: Filter, limit: nat)
    requires WellKeyed(db) && limit >= 1
    ensures ReadAll(db, c, f, limit) == AfterCursor(Feed(db, f), c)
    ensures StrictlySorted(ReadAll(db, c, f, limit))
    decreases |AfterCursor(Feed(db, f), c)|
  {
    PageIsExact(db, c, f, limit);
    FeedIsStrict(db, f);
    var k := AfterIsSuffix(Feed(db, f), c);
    var page := Changes(db, c, f, limit);
    if page.hasMore {
      PagesCoverTheFeed(db, page.next, f, limit);
    }
  }

  // ---------------------------------------------------------------------------------------
  // Appends behind a consumer's back
  // ---------------------------------------------------------------------------------------

  lemma {:induction false} InsertKeeps(r: Row, s: seq<Row>)
    ensures multiset(Insert(r, s)) == multiset(s) + multiset{r}
  {
    if s == [] || Le(r, s[0]) {
      assert multiset([r] + s) == multiset{r} + multiset(s);
    } else {
      InsertKeeps(r, s[1..]);
      assert s == [s[0]] + s[1..];
      assert multiset([s[0]] + Insert(r, s[1..])) == multiset{s[0]} + multiset(Insert(r, s[1..]));
    }
  }

  lemma {:induction false} SortKeeps(s: seq<Row>)
    ensures multiset(Sort(s)) == multiset(s)
  {
    if s != [] {
      SortKeeps(s[1..]);
      InsertKeeps(s[0], Sort(s[1..]));
      assert s == [s[0]] + s[1..];
    }
  }

  lemma {:induction false} SelectAppended(db: Db, c: Option<Cursor>, f: Filter, events: seq<Event>, e: Event)
    ensures SelectEvents(db, c, f, events + [e])
      == SelectEvents(db, c, f, events) + if SelectsEvent(db, c, f, e) then [EventRow(db, e)] else []
  {
    if events == [] {
      assert [e][1..] == [];
    } else {
      assert (events + [e])[1..] == events[1..] + [e];
      SelectAppended(db, c, f, events[1..], e);
    }
  }

  /** A matching event appended while a consumer stands at `c` is delivered later exactly when its key is
      past the cursor; otherwise what remains to be read does not change and the event is never seen. */
  lemma AppendedEventIsDelivered(db: Db, e: Event, c: Cursor, f: Filter)
    requires SelectsEvent(db, None, f, e)
    ensures var before, after := AfterCursor(Feed(db, f), c), AfterCursor(Feed(db.(events := db.events + [e]), f), c);
      multiset(after) == multiset(before)
        + if e.at > c.since || (e.at == c.since && c.after.Some? && e.id > c.after.value)
          then multiset{Row(e.at, e.id, e.issueId, e.kind, e.actor, db.titles[e.issueId])} else multiset{}
  {
    var db' := db.(events := db.events + [e]);
    SelectSame(db, db', Some(c), f, db.events + [e]);
    SelectAppended(db, Some(c), f, db.events, e);
    FeedAfterCursor(db, c, f);
    FeedAfterCursor(db', c, f);
    var xs := SelectEvents(db, Some(c), f, db.events);
    var ys := if WantsTombstones(f) then Synthesize(SelectTombstones(Some(c), f, db.tombstones)) else [];
    SortKeeps(xs + ys);
    var new_ := if SelectsEvent(db, Some(c), f, e) then [EventRow(db, e)] else [];
    SortKeeps(xs + new_ + ys);
    assert multiset(xs + new_ + ys) == multiset(xs) + multiset(new_) + multiset(ys);
    assert multiset(xs + ys) == multiset(xs) + multiset(ys);
  }

  lemma {:induction false} SelectSame(db: Db, db': Db, c: Option<Cursor>, f: Filter, events: seq<Event>)
    requires db'.titles == db.titles && db'.labels == db.labels
    ensures SelectEvents(db', c, f, events) == SelectEvents(db, c, f, events)
  {
    if events != [] {
      SelectSame(db, db', c, f, events[1..]);
    }
  }

  /** An event that carries the timestamp of a tombstone already delivered is never delivered. */
  lemma EventAtADeliveredTombstoneIsLost(db: Db, d: Tombstone, e: Event, f: Filter)
    requires WellKeyed(db.(events := db.events + [e])) && d in db.tombstones && e.at == d.at
      && SelectsEvent(db, None, f, e)
    ensures var c := Cursor(d.at, Some(BASE + d.seqNo));
      multiset(AfterCursor(Feed(db.(events := db.events + [e]), f), c)) == multiset(AfterCursor(Feed(db, f), c))
  {
    var db' := db.(events := db.events + [e]);
    assert db'.events[|db.events|] == e;
    AppendedEventIsDelivered(db, e, Cursor(d.at, Some(BASE + d.seqNo)), f);
  }
}
