/**
 The dashboard's cache of open project databases.

 `ProjectStore` holds the maps the lock protects; each of its methods is one critical section and
 is proved equal to a function on `Store`.  `Apply` interleaves threads that run `get_db`, `reload`,
 `list_projects` and `close_all`: a step of a thread is one critical section, one acquisition of a
 per-key open lock, one slow open outside the global lock, or one close of a handle.
 */
module ProjectCache {
  import opened Wrappers

  type Key = string
  type Path = string
  type Handle = nat
  type Tid = nat
  type Time = real

  const GRACE: Time := 60.0

  datatype Store = Store(
    projects: map<Key, Path>,
    dbs: map<Key, Handle>,
    evicted: seq<Handle>,
    evictedAt: map<Handle, Time>,
    openLocks: set<Key>)

  ghost predicate NoDup<T>(s: seq<T>)
  {
    forall i, j | 0 <= i < j < |s| :: s[i] != s[j]
  }

  // ---------------------------------------------------------------------------------------
  // Spelling of paths: str(Path(raw)) on POSIX
  // ---------------------------------------------------------------------------------------

  function Root(raw: string): string
  {
    if raw == "" || raw[0] != '/' then ""
    else if |raw| >= 2 && raw[1] == '/' && (|raw| == 2 || raw[2] != '/') then "//"
    else "/"
  }

  function Part(word: string): seq<string>
  {
    if word == "" || word == "." then [] else [word]
  }

  /** The components of a path, the first of which continues `word`. */
  function Parts(raw: string, word: string): seq<string>
    decreases raw
  {
    if raw == "" then Part(word)
    else if raw[0] == '/' then Part(word) + Parts(raw[1..], "")
    else Parts(raw[1..], word + [raw[0]])
  }

  function Slashed(parts: seq<string>): string
  {
    if parts == [] then "" else if |parts| == 1 then parts[0] else parts[0] + "/" + Slashed(parts[1..])
  }

  function Normal(raw: Path): Path
  {
    var text := Root(raw) + Slashed(Parts(raw, ""));
    if text == "" then "." else text
  }

  ghost predicate Plain(parts: seq<string>)
  {
    forall p | p in parts :: p != "" && p != "." && '/' !in p
  }

  lemma PlainAppend(word: string, parts: seq<string>)
    requires '/' !in word && Plain(parts)
    ensures Plain(Part(word) + parts)
  {
    forall p | p in Part(word) + parts ensures p != "" && p != "." && '/' !in p {
      assert p == word || p in parts;
    }
  }

  lemma {:induction false} PartsArePlain(raw: string, word: string)
    requires '/' !in word
    ensures Plain(Parts(raw, word))
    decreases raw
  {
    if raw == "" {
      PlainAppend(word, []);
      assert Part(word) + [] == Part(word);
    } else if raw[0] == '/' {
      PartsArePlain(raw[1..], "");
      PlainAppend(word, Parts(raw[1..], ""));
      hide Plain;
    } else {
      PartsArePlain(raw[1..], word + [raw[0]]);
      hide Plain;
    }
  }

  lemma {:induction false} PartsOfWord(w: string, rest: string, word: string)
    requires '/' !in w
    ensures Parts(w + rest, word) == Parts(rest, word + w)
    decreases w
  {
    if w == "" {
      assert w + rest == rest && word + w == word;
    } else {
      assert (w + rest)[1..] == w[1..] + rest && (word + [w[0]]) + w[1..] == word + w;
      PartsOfWord(w[1..], rest, word + [w[0]]);
    }
  }

  lemma {:induction false} PartsOfSlashed(parts: seq<string>)
    requires Plain(parts)
    ensures Parts(Slashed(parts), "") == parts
    ensures parts != [] ==> Slashed(parts) != "" && Slashed(parts)[0] != '/'
  {
    if parts != [] {
      var first := parts[0];
      assert first in parts && first[0] in first && "" + first == first;
      if |parts| == 1 {
        PartsOfWord(first, "", "");
        assert first + "" == first;
      } else {
        var rest := "/" + Slashed(parts[1..]);
        PartsOfWord(first, rest, "");
        assert forall p | p in parts[1..] :: p in parts;
        PartsOfSlashed(parts[1..]);
        assert first + "/" + Slashed(parts[1..]) == first + rest && rest[1..] == Slashed(parts[1..]);
      }
    }
  }

  /** Spelling a path again changes nothing. */
  lemma NormalIsIdempotent(raw: Path)
    ensures Normal(Normal(raw)) == Normal(raw)
  {
    var root, parts := Root(raw), Parts(raw, "");
    PartsArePlain(raw, "");
    PartsOfSlashed(parts);
    var text := root + Slashed(parts);
    if text == "" {
      assert Parts(".", "") == Parts("", ".") == [];
    } else {
      assert Root(text) == root;
      assert Parts(text, "") == parts by {
        if root == "/" {
          assert text[1..] == Slashed(parts);
        } else if root == "//" {
          assert text[1..][1..] == Slashed(parts) && text[1..][0] == '/';
        } else {
          assert text == Slashed(parts);
        }
      }
    }
  }

  predicate TwoSlashes(raw: string)
  {
    |raw| >= 2 && raw[0] == '/' && raw[1] == '/' && (|raw| == 2 || raw[2] != '/')
  }

  /** A spelling keeps a leading slash, and exactly two of them as two; without slash or component it is a dot. */
  lemma NormalMeans(raw: Path)
    ensures Normal(raw) != "" && (Normal(raw)[0] == '/' <==> raw != "" && raw[0] == '/')
    ensures TwoSlashes(Normal(raw)) <==> TwoSlashes(raw)
    ensures Normal(raw) == "." <==> (raw == "" || raw[0] != '/') && Parts(raw, "") == []
  {
    var parts := Parts(raw, "");
    PartsArePlain(raw, "");
    PartsOfSlashed(parts);
    if |parts| == 1 {
      assert parts[0] in parts && Slashed(parts) == parts[0];
    }
    hide Parts, Slashed;
    if parts == [] {
      assert Slashed(parts) == "" && Normal(raw) == if Root(raw) == "" then "." else Root(raw);
    }
  }

  /** It has the same components, of which none is empty or a dot. */
  lemma NormalKeepsParts(raw: Path)
    ensures Parts(Normal(raw), "") == Parts(raw, "")
    ensures forall p | p in Parts(raw, "") :: p != "" && p != "." && '/' !in p
  {
    var root, parts := Root(raw), Parts(raw, "");
    PartsArePlain(raw, "");
    PartsOfSlashed(parts);
    var text := root + Slashed(parts);
    if text == "" {
      assert Parts(".", "") == Parts("", ".") == [];
    } else if root == "/" {
      assert text[1..] == Slashed(parts);
    } else if root == "//" {
      assert text[1..][1..] == Slashed(parts) && text[1..][0] == '/';
    } else {
      assert text == Slashed(parts);
    }
  }

  // ---------------------------------------------------------------------------------------
  // Critical sections as functions
  // ---------------------------------------------------------------------------------------

  predicate Drains(at: map<Handle, Time>, h: Handle, now: Time, force: bool)
  {
    force || now - (if h in at then at[h] else now) >= GRACE
  }

  /** The evicted handles that are (`want`) or are not (`!want`) due for closing, in list order. */
  function Sift(hs: seq<Handle>, at: map<Handle, Time>, now: Time, force: bool, want: bool): (r: seq<Handle>)
    ensures forall h :: h in r <==> h in hs && Drains(at, h, now, force) == want
    ensures NoDup(hs) ==> NoDup(r)
    ensures force && !want ==> r == []
  {
    if hs == [] then []
    else
      var rest := Sift(hs[..|hs| - 1], at, now, force, want);
      var h := hs[|hs| - 1];
      if Drains(at, h, now, force) == want then rest + [h] else rest
  }

  lemma SiftNext(hs: seq<Handle>, i: nat, at: map<Handle, Time>, now: Time, force: bool)
    requires NoDup(hs) && i < |hs|
    ensures forall want :: (
      var next := if Drains(at, hs[i], now, force) == want then [hs[i]] else [];
      Sift(hs[..i + 1], at, now, force, want) == Sift(hs[..i], at, now, force, want) + next)
    ensures hs[i] !in Sift(hs[..i], at, now, force, true)
  {
    assert hs[..i + 1][..i] == hs[..i];
    assert hs[i] !in hs[..i];
  }

  function PopDrainable(st: Store, now: Time, force: bool): (Store, seq<Handle>)
  {
    var drainable := Sift(st.evicted, st.evictedAt, now, force, true);
    (st.(evicted := Sift(st.evicted, st.evictedAt, now, force, false),
         evictedAt := st.evictedAt - (set h | h in drainable)), drainable)
  }

  datatype Found = NoProject | Hit(h: Handle) | Miss(path: Path)

  function Find(st: Store, key: Key): Found
  {
    if key !in st.projects then NoProject
    else if key in st.dbs then Hit(st.dbs[key])
    else Miss(Normal(st.projects[key]))
  }

  datatype Verdict = Published | Missing | Stale | Beaten(h: Handle)

  function Publish(st: Store, key: Key, path: Path, h: Handle): (Store, Verdict)
  {
    if key !in st.projects then (st, Missing)
    else if st.projects[key] != path then (st, Stale)
    else if key in st.dbs then (st, Beaten(st.dbs[key]))
    else (st.(dbs := st.dbs[key := h]), Published)
  }

  /** The keys whose project a new map drops or relocates. */
  function StaleKeys(old_: map<Key, Path>, new_: map<Key, Path>): set<Key>
  {
    set k | k in old_ && (k !in new_ || old_[k] != new_[k])
  }

  function EvictOne(st: Store, key: Key, now: Time): Store
  {
    if key in st.dbs then
      var h := st.dbs[key];
      st.(dbs := st.dbs - {key}, evicted := st.evicted + [h], evictedAt := st.evictedAt[h := now])
    else st
  }

  function EvictKeys(st: Store, keys: seq<Key>, now: Time): Store
  {
    if keys == [] then st else EvictOne(EvictKeys(st, keys[..|keys| - 1], now), keys[|keys| - 1], now)
  }

  ghost predicate Lists(keys: seq<Key>, s: set<Key>)
  {
    NoDup(keys) && forall k :: k in keys <==> k in s
  }

  /** `order` is the order in which the stale keys are visited. */
  function Reload(st: Store, projects: map<Key, Path>, order: seq<Key>, now: Time): (Store, seq<Handle>)
  {
    var (st1, drainable) := PopDrainable(st, now, false);
    (EvictKeys(st1.(projects := projects), order, now), drainable)
  }

  function HandlesOf(dbs: map<Key, Handle>, keys: seq<Key>): seq<Handle>
    requires forall k | k in keys :: k in dbs
  {
    seq(|keys|, i requires 0 <= i < |keys| => dbs[keys[i]])
  }

  function TakeAll(st: Store, order: seq<Key>, now: Time): (Store, seq<Handle>)
    requires forall k | k in order :: k in st.dbs
  {
    var (st1, evicted) := PopDrainable(st, now, true);
    (st1.(dbs := map[], evictedAt := map[]), HandlesOf(st.dbs, order) + evicted)
  }

  // ---------------------------------------------------------------------------------------
  // The object
  // ---------------------------------------------------------------------------------------

  class ProjectStore {
    var projects: map<Key, Path>
    var dbs: map<Key, Handle>
    var evicted: seq<Handle>
    var evictedAt: map<Handle, Time>
    var openLocks: set<Key>

    function View(): Store
      reads this
    {
      Store(projects, dbs, evicted, evictedAt, openLocks)
    }

    constructor (loaded: map<Key, Path>)
      ensures View() == Store(loaded, map[], [], map[], {})
    {
      projects, dbs, evicted, evictedAt, openLocks := loaded, map[], [], map[], {};
    }

    method PopDrainableEvictedLocked(now: Time, force: bool) returns (drainable: seq<Handle>)
      requires NoDup(evicted)
      modifies this`evicted, this`evictedAt
      ensures (View(), drainable) == PopDrainable(old(View()), now, force)
    {
      ghost var at := evictedAt;
      drainable := [];
      var retained := [];
      for i := 0 to |evicted|
        invariant evicted == old(evicted)
        invariant drainable == Sift(evicted[..i], at, now, force, true)
        invariant retained == Sift(evicted[..i], at, now, force, false)
        invariant forall h :: h in evictedAt <==> h in at && h !in drainable
        invariant forall h | h in evictedAt :: evictedAt[h] == at[h]
      {
        var db := evicted[i];
        SiftNext(evicted, i, at, now, force);
        hide Sift, NoDup;
        if Drains(evictedAt, db, now, force) {
          drainable := drainable + [db];
          evictedAt := evictedAt - {db};
        } else {
          retained := retained + [db];
        }
      }
      assert evicted[..|evicted|] == evicted;
      assert evictedAt == at - (set h | h in drainable);
      evicted := retained;
    }

    /** The first look under the lock: a miss leaves an open lock for the key behind. */
    method LookUp(key: Key) returns (r: Found)
      modifies this`openLocks
      ensures r == Find(old(View()), key)
      ensures View() == old(View()).(openLocks := old(openLocks) + if r.Miss? then {key} else {})
    {
      r := Find(View(), key);
      if r.Miss? {
        openLocks := openLocks + {key};
      }
    }

    method PublishOpened(key: Key, path: Path, h: Handle) returns (v: Verdict)
      modifies this`dbs
      ensures (View(), v) == Publish(old(View()), key, path, h)
    {
      if key !in projects {
        return Missing;
      } else if projects[key] != path {
        return Stale;
      } else if key in dbs {
        return Beaten(dbs[key]);
      }
      dbs := dbs[key := h];
      return Published;
    }

    method SwapProjects(newProjects: map<Key, Path>, order: seq<Key>, now: Time) returns (drainable: seq<Handle>)
      requires NoDup(evicted) && Lists(order, StaleKeys(projects, newProjects))
      modifies this
      ensures (View(), drainable) == Reload(old(View()), newProjects, order, now)
    {
      drainable := PopDrainableEvictedLocked(now, false);
      projects := newProjects;
      ghost var swapped := View();
      for i := 0 to |order|
        invariant View() == EvictKeys(swapped, order[..i], now)
      {
        var key := order[i];
        assert order[..i + 1][..i] == order[..i];
        if key in dbs {
          var handle := dbs[key];
          dbs := dbs - {key};
          evicted := evicted + [handle];
          evictedAt := evictedAt[handle := now];
        }
      }
      assert order[..|order|] == order;
    }

    method TakeAllForShutdown(order: seq<Key>, now: Time) returns (handles: seq<Handle>)
      requires NoDup(evicted) && Lists(order, dbs.Keys)
      modifies this
      ensures (View(), handles) == TakeAll(old(View()), order, now)
    {
      var cached := HandlesOf(dbs, order);
      var drained := PopDrainableEvictedLocked(now, true);
      dbs := map[];
      evictedAt := map[];
      handles := cached + drained;
    }
  }

  // ---------------------------------------------------------------------------------------
  // Threads
  // ---------------------------------------------------------------------------------------

  // Where a thread stands inside the block that holds a key's open lock.
  datatype Phase =
    | Rechecking
    | Opening(path: Path)
    | Publishing(path: Path, h: Handle)
    | Discarding(h: Handle, verdict: Verdict)

  // `get_db` is Drain(Some(key)), Closing, Lookup, Await and Inside; `list_projects` is Drain(None)
  // and Closing; `reload` is ReloadSwap and Closing; `close_all` is ShutDown and Closing.
  datatype Pc =
    | Idle
    | Drain(next: Option<Key>)
    | Lookup(key: Key)
    | Await(key: Key)
    | Inside(key: Key, phase: Phase)
    | ReloadSwap(projects: map<Key, Path>)
    | ShutDown
    | Closing(todo: seq<Handle>, shutdown: bool, next: Option<Key>)

  // Where a handle is: with the thread that opened it, cached, evicted, taken by a thread that is
  // about to close it, or closed.
  datatype Place = Held(t: Tid) | Cached(key: Key) | Evicted | Taken(t: Tid) | Closed

  datatype Close = Close(at: Time, shutdown: bool)

  datatype Sys = Sys(
    store: Store,
    now: Time,
    threads: map<Tid, Pc>,
    owner: map<Key, Tid>,
    next: Handle,
    origin: map<Handle, (Key, Path)>,
    place: map<Handle, Place>,
    selected: map<Handle, Time>,
    closes: map<Handle, Close>,
    reclosed: set<Handle>)

  datatype Action =
    | Begin(t: Tid, pc: Pc)
    | Step(t: Tid, success: bool, order: seq<Key>)
    | Wait(d: Time)

  function PcOf(s: Sys, t: Tid): Pc
  {
    if t in s.threads then s.threads[t] else Idle
  }

  function Goto(s: Sys, t: Tid, pc: Pc): Sys
  {
    s.(threads := s.threads[t := pc])
  }

  /** Leave the `with open_lock` block. */
  function Release(s: Sys, key: Key): Sys
  {
    s.(owner := s.owner - {key})
  }

  function Select(s: Sys, h: Handle): Sys
  {
    s.(selected := s.selected[h := s.now])
  }

  function Place1(s: Sys, h: Handle, p: Place): Sys
  {
    s.(place := s.place[h := p])
  }

  function PlaceAll(s: Sys, hs: seq<Handle>, p: Place): Sys
  {
    s.(place := map h | h in s.place.Keys + (set x | x in hs) :: if h in hs then p else s.place[h])
  }

  function CloseHandle(s: Sys, h: Handle, shutdown: bool): Sys
  {
    Place1(s.(closes := s.closes[h := Close(s.now, shutdown)],
              reclosed := s.reclosed + if h in s.closes then {h} else {}), h, Closed)
  }

  // Each step gives the state it leaves and the point its thread moves to.

  function DrainStep(s: Sys, t: Tid, next: Option<Key>): (Sys, Pc)
  {
    var (st, hs) := PopDrainable(s.store, s.now, false);
    (PlaceAll(s.(store := st), hs, Taken(t)), Closing(hs, false, next))
  }

  function CloseStep(s: Sys, todo: seq<Handle>, shutdown: bool, next: Option<Key>): (Sys, Pc)
  {
    if todo == [] then (s, if next.Some? then Lookup(next.value) else Idle)
    else (CloseHandle(s, todo[0], shutdown), Closing(todo[1..], shutdown, next))
  }

  function LookupStep(s: Sys, key: Key): (Sys, Pc)
  {
    match Find(s.store, key)
    case NoProject => (s, Idle)
    case Hit(h) => (Select(s, h), Idle)
    case Miss(_) => (s.(store := s.store.(openLocks := s.store.openLocks + {key})), Await(key))
  }

  function AcquireStep(s: Sys, t: Tid, key: Key): (Sys, Pc)
  {
    (s.(owner := s.owner[key := t]), Inside(key, Rechecking))
  }

  function RecheckStep(s: Sys, key: Key): (Sys, Pc)
  {
    match Find(s.store, key)
    case NoProject => (Release(s, key), Idle)
    case Hit(h) => (Release(Select(s, h), key), Idle)
    case Miss(path) => (s, Inside(key, Opening(path)))
  }

  function OpenStep(s: Sys, t: Tid, key: Key, path: Path, success: bool): (Sys, Pc)
  {
    if !success then (Release(s, key), Idle)
    else
      (Place1(s.(next := s.next + 1, origin := s.origin[s.next := (key, path)]), s.next, Held(t)),
       Inside(key, Publishing(path, s.next)))
  }

  function PublishStep(s: Sys, key: Key, path: Path, h: Handle): (Sys, Pc)
  {
    var (st, v) := Publish(s.store, key, path, h);
    match v
    case Published => (Release(Select(Place1(s.(store := st), h, Cached(key)), h), key), Idle)
    case Beaten(h') => (Select(s, h'), Inside(key, Discarding(h, v)))
    case _ => (s, Inside(key, Discarding(h, v)))
  }

  /** The opener closes its own handle; a stale open retries from the top. */
  function DiscardStep(s: Sys, key: Key, h: Handle, v: Verdict): (Sys, Pc)
  {
    (Release(CloseHandle(s, h, false), key), if v.Stale? then Drain(Some(key)) else Idle)
  }

  /** The handles `reload` moves to the eviction list. */
  function EvictedBy(st: Store, order: seq<Key>): set<Handle>
  {
    set k | k in order && k in st.dbs :: st.dbs[k]
  }

  function ReloadStep(s: Sys, t: Tid, projects: map<Key, Path>, order: seq<Key>): (Sys, Pc)
  {
    var (st, hs) := Reload(s.store, projects, order, s.now);
    var moved := EvictedBy(s.store, order);
    var s1 := PlaceAll(s.(store := st), hs, Taken(t));
    (s1.(place := map h | h in s1.place :: if h in moved then Evicted else s1.place[h]), Closing(hs, false, None))
  }

  function ShutDownStep(s: Sys, t: Tid, order: seq<Key>): (Sys, Pc)
    requires forall k | k in order :: k in s.store.dbs
  {
    var (st, hs) := TakeAll(s.store, order, s.now);
    (PlaceAll(s.(store := st), hs, Taken(t)), Closing(hs, true, None))
  }

  ghost predicate Enabled(s: Sys, t: Tid, order: seq<Key>)
  {
    match PcOf(s, t)
    case Idle => false
    case Await(key) => key !in s.owner
    case ReloadSwap(projects) => Lists(order, StaleKeys(s.store.projects, projects))
    case ShutDown => Lists(order, s.store.dbs.Keys)
    case _ => true
  }

  ghost function StepOf(s: Sys, t: Tid, success: bool, order: seq<Key>): (Sys, Pc)
    requires Enabled(s, t, order)
  {
    match PcOf(s, t)
    case Drain(next) => DrainStep(s, t, next)
    case Closing(todo, shutdown, next) => CloseStep(s, todo, shutdown, next)
    case Lookup(key) => LookupStep(s, key)
    case Await(key) => AcquireStep(s, t, key)
    case Inside(key, phase) =>
      match phase {
        case Rechecking => RecheckStep(s, key)
        case Opening(path) => OpenStep(s, t, key, path, success)
        case Publishing(path, h) => PublishStep(s, key, path, h)
        case Discarding(h, v) => DiscardStep(s, key, h, v)
      }
    case ReloadSwap(projects) => ReloadStep(s, t, projects, order)
    case ShutDown => ShutDownStep(s, t, order)
  }

  predicate IsCall(pc: Pc)
  {
    pc.Drain? || pc.ReloadSwap? || pc.ShutDown?
  }

  ghost function Apply(s: Sys, a: Action): Sys
  {
    match a
    case Begin(t, pc) => if PcOf(s, t).Idle? && IsCall(pc) then Goto(s, t, pc) else s
    case Step(t, success, order) =>
      if Enabled(s, t, order) then var (s1, pc) := StepOf(s, t, success, order); Goto(s1, t, pc) else s
    case Wait(d) => if d >= 0.0 then s.(now := s.now + d) else s
  }

  ghost function ApplyAll(s: Sys, actions: seq<Action>): Sys
  {
    if actions == [] then s else Apply(ApplyAll(s, actions[..|actions| - 1]), actions[|actions| - 1])
  }

  function Init(projects: map<Key, Path>, now: Time): Sys
  {
    Sys(Store(projects, map[], [], map[], {}), now, map[], map[], 0, map[], map[], map[], map[], {})
  }

  // ---------------------------------------------------------------------------------------
  // The invariant
  // ---------------------------------------------------------------------------------------

  function Todo(pc: Pc): seq<Handle>
  {
    if pc.Closing? then pc.todo else []
  }

  function HeldBy(pc: Pc): Option<Handle>
  {
    if pc.Inside? && pc.phase.Publishing? then Some(pc.phase.h)
    else if pc.Inside? && pc.phase.Discarding? then Some(pc.phase.h)
    else None
  }

  /** The key a thread is opening a database for. */
  function OpeningKey(pc: Pc): Option<Key>
  {
    if pc.Inside? && (pc.phase.Opening? || pc.phase.Publishing?) then Some(pc.key) else None
  }

  /** A cached handle's key is a project and the handle was opened from that project's path. */
  ghost predicate PathInv(s: Sys)
  {
    forall k | k in s.store.dbs ::
      k in s.store.projects && s.store.dbs[k] in s.origin && s.origin[s.store.dbs[k]] == (k, s.store.projects[k])
  }

  /** The open locks a thread's program counter says it holds or awaits are the ones it does. */
  ghost predicate ThreadLocks(s: Sys, t: Tid)
  {
    var pc := PcOf(s, t);
    && (pc.Await? ==> pc.key in s.store.openLocks)
    && (pc.Inside? ==>
          && pc.key in s.owner && s.owner[pc.key] == t
          && (OpeningKey(pc).Some? ==> pc.key !in s.store.dbs)
          && (pc.phase.Discarding? ==> pc.phase.verdict.Missing? || pc.phase.verdict.Stale?)
          && (pc.phase.Publishing? ==> pc.phase.h in s.origin && s.origin[pc.phase.h] == (pc.key, pc.phase.path)))
  }

  ghost predicate LockInv(s: Sys)
  {
    && (forall k | k in s.owner :: PcOf(s, s.owner[k]).Inside? && PcOf(s, s.owner[k]).key == k)
    && (forall t: Tid :: ThreadLocks(s, t))
    && s.owner.Keys <= s.store.openLocks
  }

  /** A thread's handles are placed with that thread. */
  ghost predicate ThreadHandles(s: Sys, t: Tid)
  {
    var pc := PcOf(s, t);
    && NoDup(Todo(pc))
    && (forall h | h in Todo(pc) :: h in s.place && s.place[h] == Taken(t))
    && (HeldBy(pc).Some? ==> HeldBy(pc).value in s.place && s.place[HeldBy(pc).value] == Held(t))
  }

  /** The place recorded for a handle is where it is found. */
  ghost predicate HandleFound(s: Sys, h: Handle)
    requires h in s.place
  {
    match s.place[h]
    case Held(t) => HeldBy(PcOf(s, t)) == Some(h)
    case Cached(k) => k in s.store.dbs && s.store.dbs[k] == h
    case Evicted => h in s.store.evicted
    case Taken(t) => h in Todo(PcOf(s, t))
    case Closed => h in s.closes
  }

  ghost predicate StoreHandles(s: Sys)
  {
    && (forall k | k in s.store.dbs :: s.store.dbs[k] in s.place && s.place[s.store.dbs[k]] == Cached(k))
    && (forall h | h in s.store.evicted :: h in s.place && s.place[h] == Evicted)
    && NoDup(s.store.evicted)
    && (forall h :: h in s.store.evictedAt <==> h in s.store.evicted)
  }

  ghost predicate ClosesOnce(s: Sys)
  {
    && (forall h | h in s.closes :: h in s.place && s.place[h] == Closed)
    && s.reclosed == {}
  }

  /** Handles are numbered in the order of their opening, and each has an origin and a place. */
  ghost predicate Numbered(s: Sys)
  {
    && (forall h: Handle :: h in s.place <==> h < s.next)
    && (forall h: Handle :: h in s.origin <==> h < s.next)
  }

  ghost predicate PlacesFound(s: Sys)
  {
    forall h | h in s.place :: HandleFound(s, h)
  }

  ghost predicate ThreadsPlaced(s: Sys)
  {
    forall t: Tid :: ThreadHandles(s, t)
  }

  /** The structures and `place` agree, so every opened handle is in exactly one place. */
  ghost predicate PlaceInv(s: Sys)
  {
    Numbered(s) && PlacesFound(s) && ThreadsPlaced(s) && StoreHandles(s) && ClosesOnce(s)
  }

  ghost predicate Graceful(s: Sys, h: Handle, at: Time)
  {
    h in s.selected ==> s.selected[h] + GRACE <= at
  }

  ghost predicate ThreadTimes(s: Sys, t: Tid)
  {
    var pc := PcOf(s, t);
    pc.Closing? && !pc.shutdown ==> forall h | h in pc.todo :: Graceful(s, h, s.now)
  }

  ghost predicate TimeInv(s: Sys)
  {
    && (forall h | h in s.selected :: s.selected[h] <= s.now && h in s.place && !s.place[h].Held?)
    && (forall h | h in s.store.evictedAt ::
          s.store.evictedAt[h] <= s.now && (h in s.selected ==> s.selected[h] <= s.store.evictedAt[h]))
    && (forall t: Tid :: ThreadTimes(s, t))
    && (forall h | h in s.closes :: s.closes[h].at <= s.now && (s.closes[h].shutdown || Graceful(s, h, s.closes[h].at)))
  }

  ghost predicate Inv(s: Sys)
  {
    PathInv(s) && LockInv(s) && PlaceInv(s) && TimeInv(s)
  }

  // ---------------------------------------------------------------------------------------
  // Main results: what the invariant says of every reachable state
  // ---------------------------------------------------------------------------------------

  ghost predicate Reachable(s: Sys)
  {
    exists projects, now, actions :: s == ApplyAll(Init(projects, now), actions)
  }

  lemma ReachableHasInv(s: Sys)
    requires Reachable(s)
    ensures Inv(s)
  {
    var projects, now, actions :| s == ApplyAll(Init(projects, now), actions);
    ReachableInv(projects, now, actions);
  }

  /** In every interleaving a cached handle belongs to a registered project and was opened from its current path. */
  lemma CacheIsCurrent(s: Sys, key: Key)
    requires Reachable(s) && key in s.store.dbs
    ensures key in s.store.projects
    ensures s.store.dbs[key] in s.origin && s.origin[s.store.dbs[key]] == (key, s.store.projects[key])
  {
    ReachableHasInv(s);
  }

  /** At most one open per key is in progress, and publishing never finds the key already cached. */
  lemma OneOpenPerKey(s: Sys, t1: Tid, t2: Tid)
    requires Reachable(s)
    ensures OpeningKey(PcOf(s, t1)).Some? && OpeningKey(PcOf(s, t2)) == OpeningKey(PcOf(s, t1)) ==> t1 == t2
    ensures PcOf(s, t1).Inside? && PcOf(s, t1).phase.Publishing? ==>
      !Publish(s.store, PcOf(s, t1).key, PcOf(s, t1).phase.path, PcOf(s, t1).phase.h).1.Beaten?
  {
    ReachableHasInv(s);
    assert ThreadLocks(s, t1) && ThreadLocks(s, t2);
  }

  /** Every path a database is opened from is spelled as `Path` spells it. */
  ghost predicate Spelled(s: Sys)
  {
    && (forall h | h in s.origin :: Normal(s.origin[h].1) == s.origin[h].1)
    && forall t: Tid :: PhaseSpelled(PcOf(s, t))
  }

  ghost predicate PhaseSpelled(pc: Pc)
  {
    && (pc.Inside? && pc.phase.Opening? ==> Normal(pc.phase.path) == pc.phase.path)
    && (pc.Inside? && pc.phase.Publishing? ==> Normal(pc.phase.path) == pc.phase.path)
  }

  ghost predicate OriginsSpelled(s: Sys, s': Sys)
  {
    && s'.threads == s.threads
    && forall h | h in s'.origin ::
      (h in s.origin && s'.origin[h] == s.origin[h]) || Normal(s'.origin[h].1) == s'.origin[h].1
  }

  lemma RecheckSpelled(s: Sys, key: Key)
    ensures PhaseSpelled(RecheckStep(s, key).1) && OriginsSpelled(s, RecheckStep(s, key).0)
  {
    if key in s.store.projects {
      NormalIsIdempotent(s.store.projects[key]);
    }
    hide Normal;
  }

  lemma OpenSpelled(s: Sys, t: Tid, key: Key, path: Path, success: bool)
    requires Normal(path) == path
    ensures PhaseSpelled(OpenStep(s, t, key, path, success).1)
      && OriginsSpelled(s, OpenStep(s, t, key, path, success).0)
  {
    hide Normal;
  }

  // A step that opens nothing.
  ghost predicate OpensNothing(s: Sys, s': Sys, pc: Pc)
  {
    s'.threads == s.threads && s'.origin == s.origin && !(pc.Inside? && (pc.phase.Opening? || pc.phase.Publishing?))
  }

  lemma SwapsSpelled(s: Sys, t: Tid, projects: map<Key, Path>, order: seq<Key>)
    ensures OpensNothing(s, ReloadStep(s, t, projects, order).0, ReloadStep(s, t, projects, order).1)
    ensures (forall k | k in order :: k in s.store.dbs) ==>
      OpensNothing(s, ShutDownStep(s, t, order).0, ShutDownStep(s, t, order).1)
  {
    hide Reload, TakeAll, EvictedBy;
  }

  lemma HandlesSpelled(s: Sys, t: Tid, key: Key, path: Path, h: Handle, v: Verdict)
    ensures OpensNothing(s, PublishStep(s, key, path, h).0, PublishStep(s, key, path, h).1)
    ensures OpensNothing(s, DiscardStep(s, key, h, v).0, DiscardStep(s, key, h, v).1)
  {
  }

  lemma DrainSpelled(s: Sys, t: Tid, next: Option<Key>)
    ensures OpensNothing(s, DrainStep(s, t, next).0, DrainStep(s, t, next).1)
  {
    hide PopDrainable;
  }

  lemma CloseSpelled(s: Sys, todo: seq<Handle>, shutdown: bool, next: Option<Key>)
    ensures OpensNothing(s, CloseStep(s, todo, shutdown, next).0, CloseStep(s, todo, shutdown, next).1)
  {
  }

  lemma LookupSpelled(s: Sys, key: Key)
    ensures OpensNothing(s, LookupStep(s, key).0, LookupStep(s, key).1)
  {
    hide Normal;
  }

  lemma RestSpelled(s: Sys, t: Tid, success: bool, order: seq<Key>)
    requires Enabled(s, t, order)
    requires PcOf(s, t).Inside? ==> PcOf(s, t).phase.Publishing? || PcOf(s, t).phase.Discarding?
    ensures var (s', pc) := StepOf(s, t, success, order);
      OpensNothing(s, s', pc) || (PcOf(s, t).Await? && s'.threads == s.threads && s'.origin == s.origin
        && PhaseSpelled(pc))
  {
    hide ReloadStep, ShutDownStep, PublishStep, DiscardStep, DrainStep, CloseStep, LookupStep, OpensNothing;
    match PcOf(s, t)
    case ReloadSwap(projects) =>
      SwapsSpelled(s, t, projects, order);
    case ShutDown =>
      SwapsSpelled(s, t, map[], order);
    case Inside(key, Publishing(path, h)) =>
      HandlesSpelled(s, t, key, path, h, Missing);
    case Inside(key, Discarding(h, v)) =>
      HandlesSpelled(s, t, key, "", h, v);
    case Drain(next) =>
      DrainSpelled(s, t, next);
    case Closing(todo, shutdown, next) =>
      CloseSpelled(s, todo, shutdown, next);
    case Lookup(key) =>
      LookupSpelled(s, key);
    case Await(key) =>
  }

  lemma StepOfSpelled(s: Sys, t: Tid, success: bool, order: seq<Key>)
    requires Enabled(s, t, order) && PhaseSpelled(PcOf(s, t))
    ensures var (s', pc) := StepOf(s, t, success, order); PhaseSpelled(pc) && OriginsSpelled(s, s')
  {
    hide Normal, Enabled, RecheckStep, OpenStep;
    var pc := PcOf(s, t);
    if pc.Inside? && pc.phase.Rechecking? {
      RecheckSpelled(s, pc.key);
    } else if pc.Inside? && pc.phase.Opening? {
      OpenSpelled(s, t, pc.key, pc.phase.path, success);
    } else {
      RestSpelled(s, t, success, order);
      hide StepOf;
    }
  }

  lemma StepKeepsSpelled(s: Sys, a: Action)
    requires Spelled(s)
    ensures Spelled(Apply(s, a))
  {
    var s' := Apply(s, a);
    if a.Step? && Enabled(s, a.t, a.order) {
      assert PhaseSpelled(PcOf(s, a.t));
      StepOfSpelled(s, a.t, a.success, a.order);
    }
    hide StepOf, Normal, Enabled;
    forall t: Tid ensures PhaseSpelled(PcOf(s', t)) {
      assert PhaseSpelled(PcOf(s, t));
    }
  }

  lemma {:induction false} ReachableSpelled(projects: map<Key, Path>, now: Time, actions: seq<Action>)
    ensures Spelled(ApplyAll(Init(projects, now), actions))
  {
    if actions != [] {
      ReachableSpelled(projects, now, actions[..|actions| - 1]);
      StepKeepsSpelled(ApplyAll(Init(projects, now), actions[..|actions| - 1]), actions[|actions| - 1]);
    }
  }

  /** A project registered under a path that `Path` spells differently is never cached: whoever opens it finds its
      handle stale, closes it and starts again. */
  lemma RespelledProjectIsNeverServed(s: Sys, key: Key, t: Tid)
    requires Reachable(s) && key in s.store.projects && Normal(s.store.projects[key]) != s.store.projects[key]
    ensures key !in s.store.dbs
    ensures PcOf(s, t).Inside? && PcOf(s, t).key == key && PcOf(s, t).phase.Publishing? ==>
      Publish(s.store, key, PcOf(s, t).phase.path, PcOf(s, t).phase.h).1.Stale?
  {
    ReachableHasInv(s);
    var projects, now, actions :| s == ApplyAll(Init(projects, now), actions);
    ReachableSpelled(projects, now, actions);
    assert PhaseSpelled(PcOf(s, t));
  }

  /** A call that has found a registered project uncached under its open lock and goes on without interruption,
      with an open that succeeds, leaves it cached exactly when `Path` spells the registered path the same way. */
  lemma ServedIff(s: Sys, t: Tid, key: Key)
    requires PcOf(s, t) == Inside(key, Rechecking) && key in s.store.projects && key !in s.store.dbs
    ensures var s3 := Apply(Apply(Apply(s, Step(t, true, [])), Step(t, true, [])), Step(t, true, []));
      && (key in s3.store.dbs <==> Normal(s.store.projects[key]) == s.store.projects[key])
      && (key in s3.store.dbs ==> s3.store.dbs[key] == s.next && PcOf(s3, t).Idle?)
      && (key !in s3.store.dbs ==> PcOf(s3, t) == Inside(key, Discarding(s.next, Stale)))
  {
    var path := Normal(s.store.projects[key]);
    hide Normal;
    var s1 := Apply(s, Step(t, true, []));
    assert PcOf(s1, t) == Inside(key, Opening(path)) && s1.store == s.store && s1.next == s.next;
    var s2 := Apply(s1, Step(t, true, []));
    assert PcOf(s2, t) == Inside(key, Publishing(path, s.next)) && s2.store == s.store;
  }

  lemma Extend(s0: Sys, actions: seq<Action>, s: Sys, a: Action) returns (actions': seq<Action>, s': Sys)
    requires s == ApplyAll(s0, actions)
    ensures actions' == actions + [a] && s' == ApplyAll(s0, actions') && s' == Apply(s, a)
  {
    actions' := actions + [a];
    s' := Apply(s, a);
    assert actions'[..|actions'| - 1] == actions;
  }

  /** A first call for a project, up to the look under the open lock. */
  lemma FirstCall(key: Key, path: Path) returns (actions: seq<Action>, s: Sys)
    ensures s == ApplyAll(Init(map[key := path], 0.0), actions)
    ensures PcOf(s, 0) == Inside(key, Rechecking) && s.store.projects == map[key := path] && s.store.dbs == map[]
  {
    var s0, step := Init(map[key := path], 0.0), Step(0, true, []);
    hide Normal, Sift;
    actions, s := Extend(s0, [], s0, Begin(0, Drain(Some(key))));
    assert Sift([], map[], 0.0, false, true) == [];
    actions, s := Extend(s0, actions, s, step);
    assert PcOf(s, 0) == Closing([], false, Some(key));
    actions, s := Extend(s0, actions, s, step);
    assert PcOf(s, 0) == Lookup(key);
    actions, s := Extend(s0, actions, s, step);
    assert PcOf(s, 0) == Await(key) && s.owner == map[];
    actions, s := Extend(s0, actions, s, step);
  }

  lemma TrailingSlashIsRespelled()
    ensures Normal("/srv/p/") == "/srv/p" && "/srv/p" != "/srv/p/"
  {
    assert "/srv/p/" == "/" + ("srv" + ("/" + ("p" + "/")));
    PartsOfWord("srv", "/p/", "");
    PartsOfWord("p", "/", "");
    assert "srv/p/" == "srv" + "/p/" && "p/" == "p" + "/" && "" + "srv" == "srv" && "" + "p" == "p";
    assert "/srv/p/"[1..] == "srv/p/" && "/p/"[1..] == "p/" && "/"[1..] == "";
    assert Parts("/srv/p/", "") == ["srv", "p"];
    assert ["srv", "p"][1..] == ["p"];
    assert "/" + ("srv" + "/" + "p") == "/srv/p";
  }

  /** A run in which a project registered with a slash at its end is opened and found stale. */
  lemma TrailingSlashIsStale(key: Key) returns (actions: seq<Action>, s: Sys)
    ensures s == ApplyAll(Init(map[key := "/srv/p/"], 0.0), actions)
    ensures PcOf(s, 0).Inside? && PcOf(s, 0).key == key && PcOf(s, 0).phase.Discarding?
      && PcOf(s, 0).phase.verdict.Stale?
  {
    var s0, step := Init(map[key := "/srv/p/"], 0.0), Step(0, true, []);
    actions, s := FirstCall(key, "/srv/p/");
    TrailingSlashIsRespelled();
    ServedIff(s, 0, key);
    hide Apply, PcOf, Normal;
    actions, s := Extend(s0, actions, s, step);
    actions, s := Extend(s0, actions, s, step);
    actions, s := Extend(s0, actions, s, step);
  }

  ghost predicate IsAt(s: Sys, h: Handle, p: Place)
  {
    match p
    case Held(t) => HeldBy(PcOf(s, t)) == Some(h)
    case Cached(k) => k in s.store.dbs && s.store.dbs[k] == h
    case Evicted => h in s.store.evicted
    case Taken(t) => h in Todo(PcOf(s, t))
    case Closed => h in s.closes
  }

  /** Every opened handle is in exactly one place, once, and it is closed at most once. */
  lemma HandlesAreInOnePlace(s: Sys, h: Handle)
    requires Reachable(s)
    ensures h < s.next <==> exists p :: IsAt(s, h, p)
    ensures forall p, q :: IsAt(s, h, p) && IsAt(s, h, q) ==> p == q
    ensures s.reclosed == {}
    ensures NoDup(s.store.evicted) && forall t: Tid :: NoDup(Todo(PcOf(s, t)))
  {
    ReachableHasInv(s);
    forall p | IsAt(s, h, p) ensures h in s.place && s.place[h] == p {
      match p
      case Held(t) => assert ThreadHandles(s, t);
      case Taken(t) => assert ThreadHandles(s, t);
      case _ =>
    }
    if h < s.next {
      assert HandleFound(s, h);
      assert IsAt(s, h, s.place[h]);
    }
    forall t: Tid ensures NoDup(Todo(PcOf(s, t))) {
      assert ThreadHandles(s, t);
    }
  }

  /** A handle `get_db` selected is closed no earlier than the grace period later, unless by `close_all`. */
  lemma GraceIsKept(s: Sys, h: Handle)
    requires Reachable(s) && h in s.closes && !s.closes[h].shutdown && h in s.selected
    ensures s.selected[h] + GRACE <= s.closes[h].at <= s.now
  {
    ReachableHasInv(s);
  }

  /** No thread is ever about to close a handle that is closed. */
  lemma NothingIsClosedTwice(s: Sys, t: Tid)
    requires Reachable(s)
    ensures PcOf(s, t).Closing? ==> forall h | h in PcOf(s, t).todo :: h !in s.closes
    ensures PcOf(s, t).Inside? && PcOf(s, t).phase.Discarding? ==> PcOf(s, t).phase.h !in s.closes
  {
    ReachableHasInv(s);
    assert ThreadHandles(s, t);
  }

  /** A freshly opened handle is cached, and answered, exactly when its key is still registered under the path it was
      opened from and nothing is cached for it; a handle that is cached already is answered instead. */
  lemma PublishingEnds(s: Sys, t: Tid, key: Key, path: Path, h: Handle, s': Sys, pc: Pc)
    requires PcOf(s, t) == Inside(key, Publishing(path, h)) && s' == Apply(s, Step(t, true, [])) && pc == PcOf(s', t)
    ensures s'.closes == s.closes
    ensures var current := key in s.store.projects && s.store.projects[key] == path;
      if current && key !in s.store.dbs then
        && s'.store == s.store.(dbs := s.store.dbs[key := h]) && s'.selected == s.selected[h := s.now]
        && pc == Idle && s'.owner == s.owner - {key}
      else
        && s'.store == s.store && s'.owner == s.owner
        && (pc == Inside(key, Discarding(h, Stale)) <==> key in s.store.projects && !current)
        && (pc == Inside(key, Discarding(h, Missing)) <==> key !in s.store.projects)
        && (current ==> pc == Inside(key, Discarding(h, Beaten(s.store.dbs[key]))))
        && s'.selected == if current then s.selected[s.store.dbs[key] := s.now] else s.selected
  {
    var (s1, pc1) := PublishStep(s, key, path, h);
    assert s' == Goto(s1, t, pc1) && pc == pc1 by {
      hide PublishStep;
    }
    hide Apply, StepOf, Enabled;
  }

  /** A handle that was not published is closed; one opened from a path that is no longer the key's is tried again
      from the top, any other is not. */
  lemma DiscardingEnds(s: Sys, t: Tid, key: Key, h: Handle, v: Verdict)
    requires PcOf(s, t) == Inside(key, Discarding(h, v))
    ensures var s' := Apply(s, Step(t, true, []));
      && s'.store == s.store && s'.closes == s.closes[h := Close(s.now, false)] && s'.owner == s.owner - {key}
      && PcOf(s', t) == if v == Stale then Drain(Some(key)) else Idle
  {
  }

  /** An idle thread can make any of the calls, and the clock can go on. */
  lemma EveryCallCanBegin(s: Sys, t: Tid, key: Key, projects: map<Key, Path>, d: Time)
    requires PcOf(s, t) == Idle
    ensures forall pc | pc in {Drain(None), Drain(Some(key)), ReloadSwap(projects), ShutDown} ::
      Apply(s, Begin(t, pc)) == s.(threads := s.threads[t := pc])
    ensures d >= 0.0 ==> Apply(s, Wait(d)) == s.(now := s.now + d)
  {
  }

  // -- What is drained, and when --

  lemma {:induction false} SiftedMeans(hs: seq<Handle>, at: map<Handle, Time>, now: Time, force: bool, want: bool)
    requires forall h | h in hs :: h in at
    ensures forall h :: h in Sift(hs, at, now, force, want) <==> h in hs && want == (force || now - at[h] >= GRACE)
  {
    if hs != [] {
      var init, last := hs[..|hs| - 1], hs[|hs| - 1];
      assert forall h :: h in hs <==> h in init || h == last;
      SiftedMeans(init, at, now, force, want);
    }
  }

  /** A drain at the start of a call, or in a reload, puts exactly the handles evicted at least the grace period ago
      on its list for closing and keeps exactly the younger ones. */
  lemma DrainTakesTheDue(s: Sys, t: Tid)
    requires Reachable(s) && PcOf(s, t).Drain?
    ensures forall h | h in s.store.evicted :: h in s.store.evictedAt
    ensures var s' := Apply(s, Step(t, true, []));
      && (forall h :: h in Todo(PcOf(s', t)) <==> h in s.store.evicted && s.now - s.store.evictedAt[h] >= GRACE)
      && (forall h :: h in s'.store.evicted <==> h in s.store.evicted && s.now - s.store.evictedAt[h] < GRACE)
      && (forall h :: h in s'.store.evictedAt <==> h in s'.store.evicted)
      && (forall h | h in s'.store.evicted :: s'.store.evictedAt[h] == s.store.evictedAt[h])
      && PcOf(s', t) == Closing(Todo(PcOf(s', t)), false, PcOf(s, t).next)
  {
    ReachableHasInv(s);
    SiftedMeans(s.store.evicted, s.store.evictedAt, s.now, false, true);
    SiftedMeans(s.store.evicted, s.store.evictedAt, s.now, false, false);
    hide Sift;
  }

  /** A reload drains the same way.  It keeps cached just the handles whose project keeps its path, and evicts, now,
      those whose project is dropped or relocated. */
  lemma ReloadEvictsTheStale(s: Sys, t: Tid, projects: map<Key, Path>, order: seq<Key>)
    requires Reachable(s) && PcOf(s, t) == ReloadSwap(projects) && NoDup(order)
    requires forall k :: k in order <==>
      k in s.store.projects && (k !in projects || s.store.projects[k] != projects[k])
    ensures Enabled(s, t, order)
    ensures forall h | h in s.store.evicted :: h in s.store.evictedAt
    ensures forall k | k in s.store.dbs :: k in s.store.projects
    ensures var s' := Apply(s, Step(t, true, order));
      && s'.store.projects == projects
      && (forall k :: k in s'.store.dbs <==>
            k in s.store.dbs && k in projects && projects[k] == s.store.projects[k])
      && (forall k | k in s'.store.dbs :: s'.store.dbs[k] == s.store.dbs[k])
      && (forall h :: h in Todo(PcOf(s', t)) <==> h in s.store.evicted && s.now - s.store.evictedAt[h] >= GRACE)
      && PcOf(s', t) == Closing(Todo(PcOf(s', t)), false, None)
      && (forall h :: h in s'.store.evicted <==>
            || (h in s.store.evicted && s.now - s.store.evictedAt[h] < GRACE)
            || (exists k | k in s.store.dbs && k !in s'.store.dbs :: s.store.dbs[k] == h))
      && (forall k | k in s.store.dbs && k !in s'.store.dbs ::
            s.store.dbs[k] in s'.store.evictedAt && s'.store.evictedAt[s.store.dbs[k]] == s.now)
  {
    ReachableHasInv(s);
    SiftedMeans(s.store.evicted, s.store.evictedAt, s.now, false, true);
    SiftedMeans(s.store.evicted, s.store.evictedAt, s.now, false, false);
    assert Lists(order, StaleKeys(s.store.projects, projects));
    var st1 := PopDrainable(s.store, s.now, false).0;
    EvictKeysMeans(st1.(projects := projects), order, s.now);
    hide Sift, EvictKeys;
  }

  ghost function StepTimes(s: Sys, t: Tid, n: nat): Sys
    decreases n
  {
    if n == 0 then s else StepTimes(Apply(s, Step(t, true, [])), t, n - 1)
  }

  /** A thread that closes handles one by one has closed them all after as many steps. */
  lemma {:induction false} ClosesItsList(s: Sys, t: Tid)
    requires PcOf(s, t).Closing?
    ensures var pc := PcOf(s, t);
      var s' := StepTimes(s, t, |pc.todo|);
      && PcOf(s', t) == Closing([], pc.shutdown, pc.next) && s'.now == s.now && s'.store == s.store
      && (forall h | h in pc.todo :: h in s'.closes)
      && (forall h | h in s.closes :: h in s'.closes)
    decreases |PcOf(s, t).todo|
  {
    var pc := PcOf(s, t);
    if pc.todo != [] {
      var s1 := Apply(s, Step(t, true, []));
      assert PcOf(s1, t) == Closing(pc.todo[1..], pc.shutdown, pc.next) && pc.todo[0] in s1.closes;
      assert s1.now == s.now && s1.store == s.store && forall h | h in s.closes :: h in s1.closes;
      ClosesItsList(s1, t);
      assert forall h | h in pc.todo :: h == pc.todo[0] || h in pc.todo[1..];
      hide Apply;
    }
  }

  /** A `list_projects` or `get_db` that nothing interrupts closes every handle evicted at least the grace period
      before it, and then is done or looks its project up. */
  lemma CallClosesTheDue(s: Sys, t: Tid) returns (n: nat)
    requires Reachable(s) && PcOf(s, t).Drain?
    ensures forall h | h in s.store.evicted :: h in s.store.evictedAt
    ensures var s' := StepTimes(s, t, n);
      && PcOf(s', t) == (if PcOf(s, t).next.Some? then Lookup(PcOf(s, t).next.value) else Idle)
      && forall h | h in s.store.evicted && s.now - s.store.evictedAt[h] >= GRACE :: h in s'.closes
  {
    hide Apply, Sift, PopDrainable, Reachable;
    DrainTakesTheDue(s, t);
    var s1 := Apply(s, Step(t, true, []));
    ClosesItsList(s1, t);
    var k := |PcOf(s1, t).todo|;
    n := 1 + (k + 1);
    StepsSplit(s1, t, k, 1);
    LastClose(StepTimes(s1, t, k), t);
    assert StepTimes(s, t, n) == StepTimes(s1, t, k + 1);
  }

  lemma LastClose(s: Sys, t: Tid)
    requires PcOf(s, t).Closing? && PcOf(s, t).todo == []
    ensures var s' := StepTimes(s, t, 1);
      && PcOf(s', t) == (if PcOf(s, t).next.Some? then Lookup(PcOf(s, t).next.value) else Idle)
      && s'.closes == s.closes
  {
    assert StepTimes(s, t, 1) == StepTimes(Apply(s, Step(t, true, [])), t, 0);
  }

  lemma {:induction false} StepsSplit(s: Sys, t: Tid, m: nat, n: nat)
    ensures StepTimes(s, t, m + n) == StepTimes(StepTimes(s, t, m), t, n)
    decreases m
  {
    if m > 0 {
      StepsSplit(Apply(s, Step(t, true, [])), t, m - 1, n);
    }
  }

  /** A shutdown takes every cached and every evicted handle, whatever its age, and leaves neither. */
  lemma ShutDownTakesAll(s: Sys, t: Tid, order: seq<Key>)
    requires Reachable(s) && PcOf(s, t).ShutDown? && Lists(order, s.store.dbs.Keys)
    ensures var s' := Apply(s, Step(t, true, order));
      && PcOf(s', t).Closing? && PcOf(s', t).shutdown
      && s'.store.dbs == map[] && s'.store.evicted == [] && s'.store.evictedAt == map[]
      && forall h :: h in Todo(PcOf(s', t)) <==> h in s.store.dbs.Values || h in s.store.evicted
  {
    ReachableHasInv(s);
    SiftedMeans(s.store.evicted, s.store.evictedAt, s.now, true, true);
    SiftedMeans(s.store.evicted, s.store.evictedAt, s.now, true, false);
    var cached := HandlesOf(s.store.dbs, order);
    forall h ensures h in cached <==> h in s.store.dbs.Values {
      if h in s.store.dbs.Values {
        var k :| k in s.store.dbs && s.store.dbs[k] == h;
        var i :| 0 <= i < |order| && order[i] == k;
        assert cached[i] == h;
      }
    }
    hide Sift;
  }

  lemma {:induction false} KeysCanBeListed(keys: set<Key>) returns (order: seq<Key>)
    ensures Lists(order, keys)
  {
    if keys == {} {
      order := [];
    } else {
      var k :| k in keys;
      var rest := KeysCanBeListed(keys - {k});
      order := rest + [k];
    }
  }

  /** No deadlock: whenever a thread is inside a call, some thread can step; and one that waits for an
      open lock holds none, so the lock it waits for is held by a thread that can step. */
  lemma SomeThreadCanStep(s: Sys, t: Tid) returns (runner: Tid, order: seq<Key>)
    requires Reachable(s) && !PcOf(s, t).Idle?
    ensures Enabled(s, runner, order)
    ensures runner != t ==> PcOf(s, t).Await? && PcOf(s, runner).Inside? && PcOf(s, runner).key == PcOf(s, t).key
  {
    ReachableHasInv(s);
    runner, order := t, [];
    match PcOf(s, t)
    case Await(key) =>
      if key in s.owner {
        runner := s.owner[key];
      }
    case ReloadSwap(projects) => order := KeysCanBeListed(StaleKeys(s.store.projects, projects));
    case ShutDown => order := KeysCanBeListed(s.store.dbs.Keys);
    case _ =>
  }

  // ---------------------------------------------------------------------------------------
  // Every step keeps the invariant
  // ---------------------------------------------------------------------------------------

  ghost predicate OriginGrows(s: Sys, s': Sys)
  {
    forall h | h in s.origin :: h in s'.origin && s'.origin[h] == s.origin[h]
  }

  // -- Paths --

  lemma PathFrame(s: Sys, s': Sys)
    requires PathInv(s) && s'.store.projects == s.store.projects && OriginGrows(s, s')
    requires forall k | k in s'.store.dbs :: k in s.store.dbs && s'.store.dbs[k] == s.store.dbs[k]
    ensures PathInv(s')
  {
  }

  lemma {:induction false} EvictKeysMeans(st: Store, keys: seq<Key>, now: Time)
    requires NoDup(keys)
    requires forall k1, k2 | k1 in st.dbs && k2 in st.dbs && k1 != k2 :: st.dbs[k1] != st.dbs[k2]
    requires forall k | k in st.dbs :: st.dbs[k] !in st.evicted
    requires NoDup(st.evicted)
    ensures var st' := EvictKeys(st, keys, now);
      && st'.projects == st.projects && st'.openLocks == st.openLocks
      && (forall k :: k in st'.dbs <==> k in st.dbs && k !in keys)
      && (forall k | k in st'.dbs :: st'.dbs[k] == st.dbs[k])
      && (forall h :: h in st'.evicted <==> h in st.evicted || h in EvictedBy(st, keys))
      && NoDup(st'.evicted)
      && (forall h :: h in st'.evictedAt <==> h in st.evictedAt || h in EvictedBy(st, keys))
      && (forall h | h in st'.evictedAt ::
        st'.evictedAt[h] == if h in EvictedBy(st, keys) then now else st.evictedAt[h])
  {
    if keys != [] {
      var init, k := keys[..|keys| - 1], keys[|keys| - 1];
      EvictKeysMeans(st, init, now);
      assert k !in init;
      assert forall x :: x in keys <==> x in init || x == k;
      if k in st.dbs {
        assert EvictedBy(st, keys) == EvictedBy(st, init) + {st.dbs[k]};
      } else {
        assert EvictedBy(st, keys) == EvictedBy(st, init);
      }
    }
  }

  lemma CachedApart(s: Sys)
    requires StoreHandles(s)
    ensures forall k1, k2 | k1 in s.store.dbs && k2 in s.store.dbs && k1 != k2 :: s.store.dbs[k1] != s.store.dbs[k2]
    ensures forall k | k in s.store.dbs :: s.store.dbs[k] !in s.store.evicted
  {
  }

  /** The store a `reload` leaves, in terms of the store it found. */
  lemma ReloadedStore(s: Sys, projects: map<Key, Path>, order: seq<Key>)
    requires StoreHandles(s) && NoDup(order)
    ensures var (st, hs) := Reload(s.store, projects, order, s.now);
      && st.projects == projects && st.openLocks == s.store.openLocks
      && (forall k :: k in st.dbs <==> k in s.store.dbs && k !in order)
      && (forall k | k in st.dbs :: st.dbs[k] == s.store.dbs[k])
      && NoDup(st.evicted) && NoDup(hs)
      && (forall h :: h in hs <==> h in s.store.evicted && Drains(s.store.evictedAt, h, s.now, false))
      && (forall h :: h in st.evicted <==> (h in s.store.evicted && h !in hs) || h in EvictedBy(s.store, order))
      && (forall h :: h in st.evictedAt <==> h in st.evicted)
      && (forall h | h in st.evictedAt ::
        st.evictedAt[h] == if h in EvictedBy(s.store, order) then s.now else s.store.evictedAt[h])
  {
    CachedApart(s);
    var st1 := PopDrainable(s.store, s.now, false).0.(projects := projects);
    assert EvictedBy(st1, order) == EvictedBy(s.store, order);
    EvictKeysMeans(st1, order, s.now);
  }

  lemma ReloadKeepsPaths(s: Sys, t: Tid, projects: map<Key, Path>, order: seq<Key>)
    requires PathInv(s) && StoreHandles(s) && Lists(order, StaleKeys(s.store.projects, projects))
    ensures PathInv(ReloadStep(s, t, projects, order).0)
  {
    ReloadedStore(s, projects, order);
  }

  lemma PublishKeepsPaths(s: Sys, t: Tid, key: Key, path: Path, h: Handle)
    requires PathInv(s) && ThreadLocks(s, t) && PcOf(s, t) == Inside(key, Publishing(path, h))
    ensures PathInv(PublishStep(s, key, path, h).0)
  {
  }

  // -- Locks --

  lemma LockFrame(s: Sys, s1: Sys, t: Tid, pc: Pc)
    requires LockInv(s) && s1.threads == s.threads && OriginGrows(s, s1)
    requires s1.owner == s.owner && s.store.openLocks <= s1.store.openLocks && s1.store.dbs.Keys <= s.store.dbs.Keys
    requires !PcOf(s, t).Inside? && !pc.Inside? && (pc.Await? ==> pc.key in s1.store.openLocks)
    ensures LockInv(Goto(s1, t, pc))
  {
    forall t1: Tid ensures ThreadLocks(Goto(s1, t, pc), t1) {
      assert ThreadLocks(s, t1);
    }
  }

  lemma AcquireKeepsThread(s: Sys, t: Tid, key: Key, t1: Tid)
    requires ThreadLocks(s, t) && ThreadLocks(s, t1) && PcOf(s, t) == Await(key) && key !in s.owner
    ensures var (s1, pc) := AcquireStep(s, t, key); ThreadLocks(Goto(s1, t, pc), t1)
  {
  }

  lemma AcquireKeepsLocks(s: Sys, t: Tid, key: Key)
    requires LockInv(s) && PcOf(s, t) == Await(key) && key !in s.owner
    ensures var (s1, pc) := AcquireStep(s, t, key); LockInv(Goto(s1, t, pc))
  {
    var (s1, pc) := AcquireStep(s, t, key);
    assert ThreadLocks(s, t);
    hide ThreadLocks;
    forall t1: Tid ensures ThreadLocks(Goto(s1, t, pc), t1) {
      AcquireKeepsThread(s, t, key, t1);
    }
  }

  /** The holder of an open lock moves on inside the locked block. */
  lemma HolderMoves(s: Sys, s1: Sys, t: Tid, key: Key, phase: Phase)
    requires LockInv(s) && s1.threads == s.threads && OriginGrows(s, s1) && s1.owner == s.owner && s1.store == s.store
    requires PcOf(s, t).Inside? && PcOf(s, t).key == key
    requires phase.Opening? || phase.Publishing? ==> key !in s.store.dbs
    requires phase.Discarding? ==> phase.verdict.Missing? || phase.verdict.Stale?
    requires phase.Publishing? ==> phase.h in s1.origin && s1.origin[phase.h] == (key, phase.path)
    ensures LockInv(Goto(s1, t, Inside(key, phase)))
  {
    assert ThreadLocks(s, t);
    forall t1: Tid ensures ThreadLocks(Goto(s1, t, Inside(key, phase)), t1) {
      assert ThreadLocks(s, t1);
    }
  }

  /** The holder leaves the locked block, having cached a handle for its own key at most. */
  ghost predicate Releases(s: Sys, s1: Sys, t: Tid, pc: Pc, key: Key)
  {
    && s1.threads == s.threads && s1.origin == s.origin
    && s1.owner == s.owner - {key} && s1.store.openLocks == s.store.openLocks
    && s1.store.dbs.Keys <= s.store.dbs.Keys + {key}
    && PcOf(s, t).Inside? && PcOf(s, t).key == key && !pc.Inside? && !pc.Await?
  }

  lemma ReleaseKeepsThread(s: Sys, s1: Sys, t: Tid, pc: Pc, key: Key, t1: Tid)
    requires ThreadLocks(s, t) && ThreadLocks(s, t1) && Releases(s, s1, t, pc, key)
    ensures ThreadLocks(Goto(s1, t, pc), t1)
  {
  }

  lemma HolderReleases(s: Sys, s1: Sys, t: Tid, pc: Pc, key: Key)
    requires LockInv(s) && Releases(s, s1, t, pc, key)
    ensures LockInv(Goto(s1, t, pc))
  {
    assert key in s.owner && s.owner[key] == t by {
      assert ThreadLocks(s, t);
    }
    hide ThreadLocks;
    forall t1: Tid ensures ThreadLocks(Goto(s1, t, pc), t1) {
      ReleaseKeepsThread(s, s1, t, pc, key, t1);
    }
  }

  // -- Places --

  ghost predicate SamePlaces(s: Sys, s1: Sys)
  {
    && s1.threads == s.threads && s1.place == s.place && s1.next == s.next && s1.origin == s.origin
    && s1.closes == s.closes && s1.reclosed == s.reclosed
    && s1.store.dbs == s.store.dbs && s1.store.evicted == s.store.evicted && s1.store.evictedAt == s.store.evictedAt
  }

  lemma SamePlacesKeepsRest(s: Sys, s': Sys)
    requires SamePlaces(s, s'.(threads := s.threads)) && Numbered(s) && StoreHandles(s) && ClosesOnce(s)
    ensures Numbered(s') && StoreHandles(s') && ClosesOnce(s')
  {
  }

  lemma SamePlacesKeepsThreads(s: Sys, s1: Sys, t: Tid, pc: Pc, t1: Tid)
    requires SamePlaces(s, s1) && Todo(pc) == Todo(PcOf(s, t)) && HeldBy(pc) == HeldBy(PcOf(s, t))
      && ThreadHandles(s, t1)
    ensures ThreadHandles(Goto(s1, t, pc), t1)
  {
  }

  lemma SamePlacesKeepsFound(s: Sys, s1: Sys, t: Tid, pc: Pc, h: Handle)
    requires SamePlaces(s, s1) && Todo(pc) == Todo(PcOf(s, t)) && HeldBy(pc) == HeldBy(PcOf(s, t))
    requires h in s.place && HandleFound(s, h)
    ensures HandleFound(Goto(s1, t, pc), h)
  {
  }

  lemma PlaceFrame(s: Sys, s1: Sys, t: Tid, pc: Pc)
    requires PlaceInv(s) && SamePlaces(s, s1)
    requires Todo(pc) == Todo(PcOf(s, t)) && HeldBy(pc) == HeldBy(PcOf(s, t))
    ensures PlaceInv(Goto(s1, t, pc))
  {
    hide ThreadHandles, HandleFound, StoreHandles, ClosesOnce, Numbered;
    var s' := Goto(s1, t, pc);
    SamePlacesKeepsRest(s, s');
    assert ThreadsPlaced(s') by {
      forall t1: Tid ensures ThreadHandles(s', t1) {
        SamePlacesKeepsThreads(s, s1, t, pc, t1);
      }
    }
    assert PlacesFound(s') by {
      forall h | h in s'.place ensures HandleFound(s', h) {
        SamePlacesKeepsFound(s, s1, t, pc, h);
      }
    }
  }

  /** `hs` go from the store to the closing list of thread `t`, `moved` to the eviction list. */
  ghost predicate Takes(s: Sys, s1: Sys, t: Tid, hs: seq<Handle>, moved: set<Handle>)
  {
    && s1.threads == s.threads && s1.next == s.next && s1.origin == s.origin && s1.closes == s.closes
    && s1.reclosed == s.reclosed
    && s1.place.Keys == s.place.Keys && NoDup(hs)
    && Todo(PcOf(s, t)) == [] && HeldBy(PcOf(s, t)).None?
    && (forall h | h in hs || h in moved :: h in s.place && (s.place[h].Cached? || s.place[h].Evicted?))
    && (forall h | h in moved :: h !in hs)
    && (forall h | h in s.place ::
          s1.place[h] == if h in moved then Evicted else if h in hs then Taken(t) else s.place[h])
  }

  lemma TakenKeepsThreads(s: Sys, s1: Sys, t: Tid, hs: seq<Handle>, moved: set<Handle>, pc: Pc)
    requires ThreadsPlaced(s) && Takes(s, s1, t, hs, moved)
    requires pc.Closing? && pc.todo == hs
    ensures ThreadsPlaced(Goto(s1, t, pc))
  {
    forall t1: Tid ensures ThreadHandles(Goto(s1, t, pc), t1) {
      assert ThreadHandles(s, t1);
    }
  }

  /** `hs` left the store, `moved` went from the cache to the eviction list, the rest stayed. */
  ghost predicate Leaves(st: Store, st1: Store, hs: seq<Handle>, moved: set<Handle>)
  {
    && (forall k | k in st.dbs :: st.dbs[k] in hs || st.dbs[k] in moved || k in st1.dbs)
    && (forall k | k in st1.dbs :: k in st.dbs && st1.dbs[k] == st.dbs[k] && st.dbs[k] !in hs && st.dbs[k] !in moved)
    && (forall h :: h in st1.evicted <==> (h in st.evicted && h !in hs) || h in moved)
    && (forall h :: h in st1.evictedAt <==> h in st1.evicted)
    && NoDup(st1.evicted)
  }

  lemma TakenKeepsStoreHandles(s: Sys, s1: Sys, t: Tid, hs: seq<Handle>, moved: set<Handle>)
    requires StoreHandles(s) && Takes(s, s1, t, hs, moved) && Leaves(s.store, s1.store, hs, moved)
    ensures StoreHandles(s1)
  {
    hide NoDup;
  }

  lemma TakenKeepsFound(s: Sys, s1: Sys, t: Tid, hs: seq<Handle>, moved: set<Handle>, pc: Pc, h: Handle)
    requires h in s.place && HandleFound(s, h) && Takes(s, s1, t, hs, moved) && Leaves(s.store, s1.store, hs, moved)
    requires pc.Closing? && pc.todo == hs
    ensures HandleFound(Goto(s1, t, pc), h)
  {
    hide NoDup;
  }

  lemma TakenKeepsPlaces(s: Sys, s1: Sys, t: Tid, hs: seq<Handle>, moved: set<Handle>, pc: Pc)
    requires PlaceInv(s) && Takes(s, s1, t, hs, moved) && Leaves(s.store, s1.store, hs, moved)
    requires pc.Closing? && pc.todo == hs
    ensures PlaceInv(Goto(s1, t, pc))
  {
    hide StoreHandles, NoDup, Leaves, HandleFound, ThreadHandles;
    var s' := Goto(s1, t, pc);
    TakenKeepsThreads(s, s1, t, hs, moved, pc);
    TakenKeepsStoreHandles(s, s1, t, hs, moved);
    assert Numbered(s1) && ClosesOnce(s1);
    SamePlacesKeepsRest(s1, s');
    assert PlacesFound(s') by {
      hide ClosesOnce, ThreadsPlaced;
      forall h | h in s'.place ensures HandleFound(s', h) {
        TakenKeepsFound(s, s1, t, hs, moved, pc, h);
      }
    }
    hide Takes, Numbered, ClosesOnce;
  }

  lemma DrainTakes(s: Sys, t: Tid, next: Option<Key>)
    requires StoreHandles(s) && PcOf(s, t) == Drain(next)
    ensures var (s1, pc) := DrainStep(s, t, next);
      Takes(s, s1, t, pc.todo, {}) && Leaves(s.store, s1.store, pc.todo, {})
  {
    var (s1, pc) := DrainStep(s, t, next);
    assert s1.place.Keys == s.place.Keys;
  }

  lemma DrainKeepsPlaces(s: Sys, t: Tid, next: Option<Key>)
    requires PlaceInv(s) && PcOf(s, t) == Drain(next)
    ensures var (s1, pc) := DrainStep(s, t, next); PlaceInv(Goto(s1, t, pc))
  {
    hide PlacesFound, ThreadsPlaced, StoreHandles, ClosesOnce, Numbered, Takes, Leaves;
    var (s1, pc) := DrainStep(s, t, next);
    DrainTakes(s, t, next);
    TakenKeepsPlaces(s, s1, t, pc.todo, {}, pc);
  }

  lemma ReloadLeaves(s: Sys, projects: map<Key, Path>, order: seq<Key>)
    requires StoreHandles(s) && NoDup(order)
    ensures var (st, hs) := Reload(s.store, projects, order, s.now); Leaves(s.store, st, hs, EvictedBy(s.store, order))
  {
    ReloadedStore(s, projects, order);
    hide Reload, Sift;
  }

  lemma ReloadKeepsKeys(s: Sys, t: Tid, projects: map<Key, Path>, order: seq<Key>)
    requires StoreHandles(s)
    ensures ReloadStep(s, t, projects, order).0.place.Keys == s.place.Keys
  {
    hide EvictKeys, EvictedBy;
  }

  lemma ReloadTakes(s: Sys, t: Tid, projects: map<Key, Path>, order: seq<Key>)
    requires StoreHandles(s) && PcOf(s, t).ReloadSwap? && NoDup(order)
    ensures var (s1, pc) := ReloadStep(s, t, projects, order); Takes(s, s1, t, pc.todo, EvictedBy(s.store, order))
  {
    ReloadKeepsKeys(s, t, projects, order);
    ReloadedStore(s, projects, order);
    CachedApart(s);
    hide Reload, Sift;
  }

  lemma ReloadKeepsPlaces(s: Sys, t: Tid, projects: map<Key, Path>, order: seq<Key>)
    requires PlaceInv(s) && PcOf(s, t).ReloadSwap? && NoDup(order)
    ensures var (s1, pc) := ReloadStep(s, t, projects, order); PlaceInv(Goto(s1, t, pc))
  {
    hide PlacesFound, ThreadsPlaced, StoreHandles, ClosesOnce, Numbered, Takes, Leaves, EvictedBy, Reload;
    var (s1, pc) := ReloadStep(s, t, projects, order);
    ReloadLeaves(s, projects, order);
    ReloadTakes(s, t, projects, order);
    TakenKeepsPlaces(s, s1, t, pc.todo, EvictedBy(s.store, order), pc);
  }

  /** The handles `close_all` takes: every cached one and every evicted one. */
  lemma TakenByShutDown(s: Sys, order: seq<Key>)
    requires StoreHandles(s) && Lists(order, s.store.dbs.Keys)
    ensures var (st, hs) := TakeAll(s.store, order, s.now);
      && NoDup(hs) && st == s.store.(dbs := map[], evicted := [], evictedAt := map[])
      && (forall h :: h in hs <==> h in s.store.evicted || exists k :: k in s.store.dbs && s.store.dbs[k] == h)
  {
    var (st, hs) := TakeAll(s.store, order, s.now);
    var cached := HandlesOf(s.store.dbs, order);
    CachedApart(s);
    forall k | k in s.store.dbs ensures s.store.dbs[k] in cached {
      var i :| 0 <= i < |order| && order[i] == k;
      assert cached[i] == s.store.dbs[k];
    }
  }

  lemma ShutDownLeaves(s: Sys, order: seq<Key>)
    requires StoreHandles(s) && Lists(order, s.store.dbs.Keys)
    ensures var (st, hs) := TakeAll(s.store, order, s.now); Leaves(s.store, st, hs, {})
  {
    TakenByShutDown(s, order);
    hide TakeAll;
  }

  lemma ShutDownTakes(s: Sys, t: Tid, order: seq<Key>)
    requires StoreHandles(s) && PcOf(s, t).ShutDown? && Lists(order, s.store.dbs.Keys)
    ensures var (s1, pc) := ShutDownStep(s, t, order); Takes(s, s1, t, pc.todo, {})
  {
    TakenByShutDown(s, order);
    hide TakeAll, Lists;
    assert ShutDownStep(s, t, order).0.place.Keys == s.place.Keys;
  }

  lemma ShutDownKeepsPlaces(s: Sys, t: Tid, order: seq<Key>)
    requires PlaceInv(s) && PcOf(s, t).ShutDown? && Lists(order, s.store.dbs.Keys)
    ensures var (s1, pc) := ShutDownStep(s, t, order); PlaceInv(Goto(s1, t, pc))
  {
    hide PlacesFound, ThreadsPlaced, StoreHandles, ClosesOnce, Numbered, Takes, Leaves, TakeAll;
    var (s1, pc) := ShutDownStep(s, t, order);
    ShutDownLeaves(s, order);
    ShutDownTakes(s, t, order);
    TakenKeepsPlaces(s, s1, t, pc.todo, {}, pc);
  }

  /** Thread `t` closes one of its handles. */
  ghost predicate Closes(s: Sys, s1: Sys, t: Tid, h: Handle, pc: Pc)
  {
    && s1.threads == s.threads && s1.next == s.next && s1.origin == s.origin && s1.store == s.store
    && h in s.place && (s.place[h] == Taken(t) || s.place[h] == Held(t)) && s1.place == s.place[h := Closed]
    && (forall x :: x in s1.closes <==> x in s.closes || x == h) && (h !in s.closes ==> s1.reclosed == s.reclosed)
    && NoDup(Todo(pc)) && (forall x :: x in Todo(pc) <==> x in Todo(PcOf(s, t)) && x != h)
    && HeldBy(pc).None? && (HeldBy(PcOf(s, t)).Some? ==> HeldBy(PcOf(s, t)).value == h)
  }

  lemma ClosedKeepsThreads(s: Sys, s1: Sys, t: Tid, h: Handle, pc: Pc, t1: Tid)
    requires ThreadHandles(s, t1) && Closes(s, s1, t, h, pc)
    ensures ThreadHandles(Goto(s1, t, pc), t1)
  {
  }

  lemma ClosedKeepsFound(s: Sys, s1: Sys, t: Tid, h: Handle, pc: Pc, x: Handle)
    requires x in s.place && HandleFound(s, x) && Closes(s, s1, t, h, pc)
    ensures HandleFound(Goto(s1, t, pc), x)
  {
    hide NoDup;
  }

  lemma ClosedKeepsRest(s: Sys, s1: Sys, t: Tid, h: Handle, pc: Pc)
    requires Numbered(s) && StoreHandles(s) && ClosesOnce(s) && Closes(s, s1, t, h, pc)
    ensures Numbered(s1) && StoreHandles(s1) && ClosesOnce(s1)
  {
  }

  lemma ClosedKeepsPlaces(s: Sys, s1: Sys, t: Tid, h: Handle, pc: Pc)
    requires PlaceInv(s) && Closes(s, s1, t, h, pc)
    ensures PlaceInv(Goto(s1, t, pc))
  {
    hide ThreadHandles, HandleFound, StoreHandles, ClosesOnce, Numbered, NoDup;
    assert ThreadsPlaced(Goto(s1, t, pc)) by {
      forall t1: Tid ensures ThreadHandles(Goto(s1, t, pc), t1) {
        ClosedKeepsThreads(s, s1, t, h, pc, t1);
      }
    }
    assert PlacesFound(Goto(s1, t, pc)) by {
      forall x | x in s1.place ensures HandleFound(Goto(s1, t, pc), x) {
        ClosedKeepsFound(s, s1, t, h, pc, x);
      }
    }
    ClosedKeepsRest(s, s1, t, h, pc);
    SamePlacesKeepsRest(s1, Goto(s1, t, pc));
  }

  ghost predicate Caches(s: Sys, s1: Sys, t: Tid, key: Key, h: Handle)
  {
    && s1.threads == s.threads && s1.next == s.next && s1.origin == s.origin && s1.closes == s.closes
    && s1.reclosed == s.reclosed
    && HeldBy(PcOf(s, t)) == Some(h) && key !in s.store.dbs
    && s1.store == s.store.(dbs := s.store.dbs[key := h]) && s1.place == s.place[h := Cached(key)]
  }

  lemma PublishedKeepsThreads(s: Sys, s1: Sys, t: Tid, key: Key, h: Handle, t1: Tid)
    requires ThreadHandles(s, t) && ThreadHandles(s, t1) && Caches(s, s1, t, key, h)
    ensures ThreadHandles(Goto(s1, t, Idle), t1)
  {
  }

  lemma PublishedKeepsFound(s: Sys, s1: Sys, t: Tid, key: Key, h: Handle, x: Handle)
    requires x in s.place && HandleFound(s, x) && Caches(s, s1, t, key, h)
    ensures HandleFound(Goto(s1, t, Idle), x)
  {
  }

  lemma PublishedKeepsRest(s: Sys, s1: Sys, t: Tid, key: Key, h: Handle)
    requires Numbered(s) && StoreHandles(s) && ClosesOnce(s) && Caches(s, s1, t, key, h)
    requires h in s.place && s.place[h] == Held(t)
    ensures Numbered(s1) && StoreHandles(s1) && ClosesOnce(s1)
  {
  }

  lemma PublishedKeepsPlaces(s: Sys, s1: Sys, t: Tid, key: Key, h: Handle)
    requires PlaceInv(s) && Caches(s, s1, t, key, h)
    ensures PlaceInv(Goto(s1, t, Idle))
  {
    hide HandleFound, StoreHandles, ClosesOnce, Numbered, NoDup;
    assert ThreadHandles(s, t);
    PublishedKeepsRest(s, s1, t, key, h);
    SamePlacesKeepsRest(s1, Goto(s1, t, Idle));
    hide ThreadHandles;
    assert ThreadsPlaced(Goto(s1, t, Idle)) by {
      forall t1: Tid ensures ThreadHandles(Goto(s1, t, Idle), t1) {
        PublishedKeepsThreads(s, s1, t, key, h, t1);
      }
    }
    assert PlacesFound(Goto(s1, t, Idle)) by {
      forall x | x in s1.place ensures HandleFound(Goto(s1, t, Idle), x) {
        PublishedKeepsFound(s, s1, t, key, h, x);
      }
    }
  }

  lemma OpenKeepsThreads(s: Sys, t: Tid, key: Key, path: Path, t1: Tid)
    requires ThreadHandles(s, t1) && Numbered(s) && PcOf(s, t) == Inside(key, Opening(path))
    ensures var (s1, pc) := OpenStep(s, t, key, path, true); ThreadHandles(Goto(s1, t, pc), t1)
  {
  }

  lemma OpenKeepsFound(s: Sys, t: Tid, key: Key, path: Path, h: Handle)
    requires h in s.place && HandleFound(s, h) && PcOf(s, t) == Inside(key, Opening(path))
    ensures var (s1, pc) := OpenStep(s, t, key, path, true); h == s.next || HandleFound(Goto(s1, t, pc), h)
  {
  }

  lemma OpenKeepsRest(s: Sys, t: Tid, key: Key, path: Path)
    requires Numbered(s) && StoreHandles(s) && ClosesOnce(s)
    ensures var s1 := OpenStep(s, t, key, path, true).0; Numbered(s1) && StoreHandles(s1) && ClosesOnce(s1)
  {
  }

  lemma OpenKeepsPlaces(s: Sys, t: Tid, key: Key, path: Path)
    requires PlaceInv(s) && PcOf(s, t) == Inside(key, Opening(path))
    ensures var (s1, pc) := OpenStep(s, t, key, path, true); PlaceInv(Goto(s1, t, pc))
  {
    hide ThreadHandles, StoreHandles, ClosesOnce, NoDup;
    var (s1, pc) := OpenStep(s, t, key, path, true);
    var s' := Goto(s1, t, pc);
    assert HandleFound(s', s.next);
    OpenKeepsRest(s, t, key, path);
    SamePlacesKeepsRest(s1, s');
    hide HandleFound;
    assert ThreadsPlaced(s') by {
      forall t1: Tid ensures ThreadHandles(s', t1) {
        OpenKeepsThreads(s, t, key, path, t1);
      }
    }
    assert PlacesFound(s') by {
      forall h | h in s'.place ensures HandleFound(s', h) {
        if h != s.next {
          OpenKeepsFound(s, t, key, path, h);
        }
      }
    }
  }

  // -- Times --

  lemma TimeFrame(s: Sys, s1: Sys, t: Tid, pc: Pc)
    requires TimeInv(s) && s1.threads == s.threads
    requires s1.selected == s.selected && s1.closes == s.closes && s1.store.evictedAt == s.store.evictedAt
      && s.now == s1.now
    requires !pc.Closing?
    requires forall h | h in s.selected :: h in s1.place && s1.place[h] == s.place[h]
    ensures TimeInv(Goto(s1, t, pc))
  {
    forall t1: Tid ensures ThreadTimes(Goto(s1, t, pc), t1) {
      assert ThreadTimes(s, t1);
    }
  }

  /** Selecting a handle disturbs no deadline: nothing that is cached or just opened awaits closing. */
  lemma SelectKeepsTimes(s: Sys, s1: Sys, t: Tid, pc: Pc, h: Handle)
    requires TimeInv(s) && StoreHandles(s) && ClosesOnce(s) && ThreadsPlaced(s)
    requires s1.threads == s.threads && !pc.Closing?
    requires h in s.place && (s.place[h].Cached? || s.place[h].Held?) && h in s1.place && !s1.place[h].Held?
    requires s1.selected == s.selected[h := s.now] && s1.closes == s.closes && s1.store.evictedAt == s.store.evictedAt
      && s1.now == s.now
    requires s1.place == s.place[h := s1.place[h]]
    ensures TimeInv(Goto(s1, t, pc))
  {
    forall t1: Tid ensures ThreadTimes(Goto(s1, t, pc), t1) {
      assert ThreadTimes(s, t1) && ThreadHandles(s, t1);
    }
  }

  /** A thread takes handles that were evicted long enough ago, or takes them for a shutdown. */
  lemma TakenKeepsTimes(s: Sys, s1: Sys, t: Tid, hs: seq<Handle>, moved: set<Handle>, pc: Pc)
    requires TimeInv(s) && Takes(s, s1, t, hs, moved) && pc.Closing? && pc.todo == hs
    requires s1.selected == s.selected && s1.now == s.now
    requires pc.shutdown || forall h | h in hs :: h in s.store.evictedAt && s.now - s.store.evictedAt[h] >= GRACE
    requires forall h | h in s1.store.evictedAt ::
      if h in moved then s1.store.evictedAt[h] == s.now
      else h in s.store.evictedAt && s1.store.evictedAt[h] == s.store.evictedAt[h]
    ensures TimeInv(Goto(s1, t, pc))
  {
    var s' := Goto(s1, t, pc);
    forall t1: Tid ensures ThreadTimes(s', t1) {
      assert ThreadTimes(s, t1);
    }
  }

  lemma ReloadKeepsTimes(s: Sys, t: Tid, projects: map<Key, Path>, order: seq<Key>)
    requires PlaceInv(s) && TimeInv(s) && PcOf(s, t).ReloadSwap? && NoDup(order)
    ensures var (s1, pc) := ReloadStep(s, t, projects, order); TimeInv(Goto(s1, t, pc))
  {
    hide HandleFound, ThreadHandles, ClosesOnce;
    ReloadedStore(s, projects, order);
    hide Reload, Sift;
    var (s1, pc) := ReloadStep(s, t, projects, order);
    assert s1.place.Keys == s.place.Keys;
    TakenKeepsTimes(s, s1, t, pc.todo, EvictedBy(s.store, order), pc);
  }

  /** A handle is closed by a thread that took it in time, by a shutdown, or before it was ever selected. */
  lemma ClosedKeepsThreadTimes(s: Sys, s1: Sys, t: Tid, pc: Pc, t1: Tid)
    requires ThreadTimes(s, t) && ThreadTimes(s, t1) && s1.threads == s.threads && s1.selected == s.selected
      && s1.now == s.now
    requires pc.Closing? && !pc.shutdown ==>
      var pc0 := PcOf(s, t); pc0.Closing? && !pc0.shutdown && forall x | x in pc.todo :: x in pc0.todo
    ensures ThreadTimes(Goto(s1, t, pc), t1)
  {
    if t1 == t && pc.Closing? {
      forall x | x in pc.todo && !pc.shutdown ensures Graceful(s, x, s.now) {
        assert x in PcOf(s, t).todo;
      }
    }
  }

  lemma ClosedKeepsTimes(s: Sys, s1: Sys, t: Tid, h: Handle, shutdown: bool, pc: Pc)
    requires TimeInv(s) && s1.threads == s.threads && (shutdown || Graceful(s, h, s.now))
    requires s1.closes == s.closes[h := Close(s.now, shutdown)] && s1.place == s.place[h := Closed]
    requires s1.selected == s.selected && s1.store == s.store && s1.now == s.now
    requires pc.Closing? && !pc.shutdown ==>
      var pc0 := PcOf(s, t); pc0.Closing? && !pc0.shutdown && forall x | x in pc.todo :: x in pc0.todo
    ensures TimeInv(Goto(s1, t, pc))
  {
    hide ThreadTimes;
    forall t1: Tid ensures ThreadTimes(Goto(s1, t, pc), t1) {
      ClosedKeepsThreadTimes(s, s1, t, pc, t1);
    }
  }

  // -- One step --

  lemma TakenIsOpen(s: Sys, t: Tid, h: Handle)
    requires ClosesOnce(s) && h in s.place && s.place[h] == Taken(t)
    ensures h !in s.closes
  {
  }

  lemma CloseOneKeepsInv(s: Sys, t: Tid, todo: seq<Handle>, shutdown: bool, next: Option<Key>)
    requires Inv(s) && PcOf(s, t) == Closing(todo, shutdown, next) && todo != []
    ensures Inv(Goto(CloseHandle(s, todo[0], shutdown), t, Closing(todo[1..], shutdown, next)))
  {
    hide PathInv, LockInv, PlacesFound, Numbered, ClosesOnce, StoreHandles, HandleFound;
    var s1, pc := CloseHandle(s, todo[0], shutdown), Closing(todo[1..], shutdown, next);
    assert ThreadHandles(s, t);
    TakenIsOpen(s, t, todo[0]);
    assert Graceful(s, todo[0], s.now) || shutdown by {
      assert ThreadTimes(s, t);
    }
    hide TimeInv, ThreadTimes, Graceful;
    PathFrame(s, Goto(s1, t, pc));
    LockFrame(s, s1, t, pc);
    ClosedKeepsPlaces(s, s1, t, todo[0], pc);
    ClosedKeepsTimes(s, s1, t, todo[0], shutdown, pc);
  }

  lemma CloseKeepsInv(s: Sys, t: Tid, todo: seq<Handle>, shutdown: bool, next: Option<Key>)
    requires Inv(s) && PcOf(s, t) == Closing(todo, shutdown, next)
    ensures var (s1, pc) := CloseStep(s, todo, shutdown, next); Inv(Goto(s1, t, pc))
  {
    hide Inv;
    if todo == [] {
      MoveKeepsInv(s, s, t, if next.Some? then Lookup(next.value) else Idle);
    } else {
      CloseOneKeepsInv(s, t, todo, shutdown, next);
    }
  }

  lemma DrainKeepsInv(s: Sys, t: Tid, next: Option<Key>)
    requires Inv(s) && PcOf(s, t) == Drain(next)
    ensures var (s1, pc) := DrainStep(s, t, next); Inv(Goto(s1, t, pc))
  {
    hide PathInv, LockInv, HandleFound, ThreadHandles;
    var (s1, pc) := DrainStep(s, t, next);
    PathFrame(s, Goto(s1, t, pc));
    LockFrame(s, s1, t, pc);
    DrainKeepsPlaces(s, t, next);
    TakenKeepsTimes(s, s1, t, pc.todo, {}, pc);
  }

  /** A thread outside the open locks moves on, leaving at most a new open lock behind. */
  lemma MoveKeepsInv(s: Sys, s1: Sys, t: Tid, pc: Pc)
    requires Inv(s) && s.store.openLocks <= s1.store.openLocks
    requires s1 == s.(store := s.store.(openLocks := s1.store.openLocks))
    requires !PcOf(s, t).Inside? && Todo(PcOf(s, t)) == []
    requires !pc.Inside? && !pc.Closing? && (pc.Await? ==> pc.key in s1.store.openLocks)
    ensures Inv(Goto(s1, t, pc))
  {
    hide PathInv, LockInv, HandleFound, ThreadHandles;
    PathFrame(s, Goto(s1, t, pc));
    LockFrame(s, s1, t, pc);
    PlaceFrame(s, s1, t, pc);
    TimeFrame(s, s1, t, pc);
  }

  lemma HitKeepsInv(s: Sys, t: Tid, key: Key)
    requires Inv(s) && PcOf(s, t) == Lookup(key) && key in s.store.dbs
    ensures Inv(Goto(Select(s, s.store.dbs[key]), t, Idle))
  {
    hide PathInv, LockInv, HandleFound, ThreadHandles;
    var h := s.store.dbs[key];
    var s1 := Select(s, h);
    PathFrame(s, Goto(s1, t, Idle));
    LockFrame(s, s1, t, Idle);
    PlaceFrame(s, s1, t, Idle);
    SelectKeepsTimes(s, s1, t, Idle, h);
  }

  lemma LookupKeepsInv(s: Sys, t: Tid, key: Key)
    requires Inv(s) && PcOf(s, t) == Lookup(key)
    ensures var (s1, pc) := LookupStep(s, key); Inv(Goto(s1, t, pc))
  {
    hide Inv;
    match Find(s.store, key)
    case Hit(h) => HitKeepsInv(s, t, key);
    case NoProject => MoveKeepsInv(s, s, t, Idle);
    case Miss(_) => MoveKeepsInv(s, LookupStep(s, key).0, t, Await(key));
  }

  lemma AcquireKeepsInv(s: Sys, t: Tid, key: Key)
    requires Inv(s) && PcOf(s, t) == Await(key) && key !in s.owner
    ensures var (s1, pc) := AcquireStep(s, t, key); Inv(Goto(s1, t, pc))
  {
    hide PathInv, LockInv, PlaceInv, ThreadHandles, HandleFound, StoreHandles, ClosesOnce, ThreadTimes;
    var (s1, pc) := AcquireStep(s, t, key);
    PathFrame(s, Goto(s1, t, pc));
    AcquireKeepsLocks(s, t, key);
    PlaceFrame(s, s1, t, pc);
    TimeFrame(s, s1, t, pc);
  }

  lemma RecheckedHitKeepsInv(s: Sys, t: Tid, key: Key)
    requires Inv(s) && PcOf(s, t) == Inside(key, Rechecking) && key in s.store.dbs
    ensures Inv(Goto(Release(Select(s, s.store.dbs[key]), key), t, Idle))
  {
    hide PathInv, LockInv, HandleFound, ThreadHandles;
    var h := s.store.dbs[key];
    var s1 := Release(Select(s, h), key);
    PathFrame(s, Goto(s1, t, Idle));
    HolderReleases(s, s1, t, Idle, key);
    PlaceFrame(s, s1, t, Idle);
    SelectKeepsTimes(s, s1, t, Idle, h);
  }

  /** A holder leaves the locked block empty-handed: an unknown project, or a failed open. */
  lemma LeaveKeepsInv(s: Sys, t: Tid, key: Key)
    requires Inv(s) && PcOf(s, t).Inside? && PcOf(s, t).key == key && HeldBy(PcOf(s, t)).None?
    ensures Inv(Goto(Release(s, key), t, Idle))
  {
    hide PathInv, LockInv, HandleFound, ThreadHandles;
    var s1 := Release(s, key);
    PathFrame(s, Goto(s1, t, Idle));
    HolderReleases(s, s1, t, Idle, key);
    PlaceFrame(s, s1, t, Idle);
    TimeFrame(s, s1, t, Idle);
  }

  lemma MissKeepsInv(s: Sys, t: Tid, key: Key, path: Path)
    requires Inv(s) && PcOf(s, t) == Inside(key, Rechecking) && key !in s.store.dbs
    ensures Inv(Goto(s, t, Inside(key, Opening(path))))
  {
    hide PathInv, LockInv, HandleFound, ThreadHandles;
    var pc := Inside(key, Opening(path));
    PathFrame(s, Goto(s, t, pc));
    HolderMoves(s, s, t, key, pc.phase);
    PlaceFrame(s, s, t, pc);
    TimeFrame(s, s, t, pc);
  }

  lemma RecheckKeepsInv(s: Sys, t: Tid, key: Key)
    requires Inv(s) && PcOf(s, t) == Inside(key, Rechecking)
    ensures var (s1, pc) := RecheckStep(s, key); Inv(Goto(s1, t, pc))
  {
    hide Inv;
    match Find(s.store, key)
    case NoProject => LeaveKeepsInv(s, t, key);
    case Hit(_) => RecheckedHitKeepsInv(s, t, key);
    case Miss(path) => MissKeepsInv(s, t, key, path);
  }

  lemma OpenKeepsInv(s: Sys, t: Tid, key: Key, path: Path, success: bool)
    requires Inv(s) && PcOf(s, t) == Inside(key, Opening(path))
    ensures var (s1, pc) := OpenStep(s, t, key, path, success); Inv(Goto(s1, t, pc))
  {
    if !success {
      LeaveKeepsInv(s, t, key);
    } else {
      hide PathInv, ThreadHandles, HandleFound, ClosesOnce, StoreHandles;
      var (s1, pc) := OpenStep(s, t, key, path, true);
      assert ThreadLocks(s, t);
      PathFrame(s, Goto(s1, t, pc));
      HolderMoves(s, s1, t, key, pc.phase);
      OpenKeepsPlaces(s, t, key, path);
      TimeFrame(s, s1, t, pc);
    }
  }

  lemma PublishedKeepsInv(s: Sys, t: Tid, key: Key, path: Path, h: Handle)
    requires Inv(s) && PcOf(s, t) == Inside(key, Publishing(path, h)) && Publish(s.store, key, path, h).1.Published?
    ensures Inv(Goto(PublishStep(s, key, path, h).0, t, Idle))
  {
    hide HandleFound, ClosesOnce, Numbered, PlacesFound;
    var s1 := PublishStep(s, key, path, h).0;
    assert ThreadLocks(s, t) && ThreadHandles(s, t);
    PublishKeepsPaths(s, t, key, path, h);
    hide PathInv, LockInv, ThreadLocks, ThreadHandles;
    HolderReleases(s, s1, t, Idle, key);
    PublishedKeepsPlaces(s, s1, t, key, h);
    SelectKeepsTimes(s, s1, t, Idle, h);
  }

  lemma RejectedKeepsInv(s: Sys, t: Tid, key: Key, path: Path, h: Handle)
    requires Inv(s) && PcOf(s, t) == Inside(key, Publishing(path, h)) && !Publish(s.store, key, path, h).1.Published?
    ensures var (s1, pc) := PublishStep(s, key, path, h); Inv(Goto(s1, t, pc))
  {
    hide PlaceInv;
    var (s1, pc) := PublishStep(s, key, path, h);
    assert ThreadLocks(s, t);
    PublishKeepsPaths(s, t, key, path, h);
    hide PathInv;
    HolderMoves(s, s1, t, key, pc.phase);
    PlaceFrame(s, s1, t, pc);
    TimeFrame(s, s1, t, pc);
  }

  lemma PublishKeepsInv(s: Sys, t: Tid, key: Key, path: Path, h: Handle)
    requires Inv(s) && PcOf(s, t) == Inside(key, Publishing(path, h))
    ensures var (s1, pc) := PublishStep(s, key, path, h); Inv(Goto(s1, t, pc))
  {
    hide Inv;
    if Publish(s.store, key, path, h).1.Published? {
      PublishedKeepsInv(s, t, key, path, h);
    } else {
      RejectedKeepsInv(s, t, key, path, h);
    }
  }

  lemma DiscardKeepsInv(s: Sys, t: Tid, key: Key, h: Handle, v: Verdict)
    requires Inv(s) && PcOf(s, t) == Inside(key, Discarding(h, v))
    ensures var (s1, pc) := DiscardStep(s, key, h, v); Inv(Goto(s1, t, pc))
  {
    hide PathInv, LockInv, HandleFound, ClosesOnce, StoreHandles;
    var (s1, pc) := DiscardStep(s, key, h, v);
    assert ThreadHandles(s, t);
    PathFrame(s, Goto(s1, t, pc));
    HolderReleases(s, s1, t, pc, key);
    ClosedKeepsPlaces(s, s1, t, h, pc);
    ClosedKeepsTimes(s, s1, t, h, false, pc);
  }

  lemma ReloadKeepsInv(s: Sys, t: Tid, projects: map<Key, Path>, order: seq<Key>)
    requires Inv(s) && PcOf(s, t) == ReloadSwap(projects) && Lists(order, StaleKeys(s.store.projects, projects))
    ensures var (s1, pc) := ReloadStep(s, t, projects, order); Inv(Goto(s1, t, pc))
  {
    hide HandleFound, ThreadHandles, ClosesOnce, ThreadLocks, Reload, Sift, EvictedBy;
    var (s1, pc) := ReloadStep(s, t, projects, order);
    ReloadKeepsPaths(s, t, projects, order);
    ReloadedStore(s, projects, order);
    LockFrame(s, s1, t, pc);
    ReloadKeepsPlaces(s, t, projects, order);
    ReloadKeepsTimes(s, t, projects, order);
  }

  lemma ShutDownKeepsInv(s: Sys, t: Tid, order: seq<Key>)
    requires Inv(s) && PcOf(s, t).ShutDown? && Lists(order, s.store.dbs.Keys)
    ensures var (s1, pc) := ShutDownStep(s, t, order); Inv(Goto(s1, t, pc))
  {
    hide PathInv, LockInv, PlacesFound, ThreadsPlaced, ClosesOnce, Takes;
    var (s1, pc) := ShutDownStep(s, t, order);
    ShutDownTakes(s, t, order);
    TakenByShutDown(s, order);
    hide TakeAll, StoreHandles, Lists;
    PathFrame(s, Goto(s1, t, pc));
    LockFrame(s, s1, t, pc);
    ShutDownKeepsPlaces(s, t, order);
    TakenKeepsTimes(s, s1, t, pc.todo, {}, pc);
  }

  lemma StepKeepsInv(s: Sys, t: Tid, success: bool, order: seq<Key>)
    requires Inv(s) && Enabled(s, t, order)
    ensures var (s1, pc) := StepOf(s, t, success, order); Inv(Goto(s1, t, pc))
  {
    hide Inv, PathInv, LockInv, PlaceInv, TimeInv, DrainStep, CloseStep, LookupStep, AcquireStep, RecheckStep,
      OpenStep, PublishStep, DiscardStep, ReloadStep, ShutDownStep;
    match PcOf(s, t)
    case Drain(next) => DrainKeepsInv(s, t, next);
    case Closing(todo, shutdown, next) => CloseKeepsInv(s, t, todo, shutdown, next);
    case Lookup(key) => LookupKeepsInv(s, t, key);
    case Await(key) => AcquireKeepsInv(s, t, key);
    case Inside(key, phase) =>
      match phase {
        case Rechecking => RecheckKeepsInv(s, t, key);
        case Opening(path) => OpenKeepsInv(s, t, key, path, success);
        case Publishing(path, h) => PublishKeepsInv(s, t, key, path, h);
        case Discarding(h, v) => DiscardKeepsInv(s, t, key, h, v);
      }
    case ReloadSwap(projects) => ReloadKeepsInv(s, t, projects, order);
    case ShutDown => ShutDownKeepsInv(s, t, order);
  }

  lemma ApplyKeepsInv(s: Sys, a: Action)
    requires Inv(s)
    ensures Inv(Apply(s, a))
  {
    hide Inv, StepOf;
    match a
    case Begin(t, pc) =>
      if PcOf(s, t).Idle? && IsCall(pc) {
        MoveKeepsInv(s, s, t, pc);
      }
    case Step(t, success, order) =>
      if Enabled(s, t, order) {
        StepKeepsInv(s, t, success, order);
      }
    case Wait(d) =>
      if Apply(s, a) != s {
        WaitKeepsInv(s, Apply(s, a));
      }
  }

  lemma WaitKeepsTimes(s: Sys, s': Sys)
    requires TimeInv(s) && s.now <= s'.now && s' == s.(now := s'.now)
    ensures TimeInv(s')
  {
    forall t1: Tid ensures ThreadTimes(s', t1) {
      assert ThreadTimes(s, t1);
    }
  }

  lemma WaitKeepsLocks(s: Sys, s': Sys)
    requires LockInv(s) && s' == s.(now := s'.now)
    ensures LockInv(s')
  {
    forall t1: Tid ensures ThreadLocks(s', t1) {
      assert ThreadLocks(s, t1);
    }
  }

  lemma WaitKeepsPlaces(s: Sys, s': Sys)
    requires PlaceInv(s) && s' == s.(now := s'.now)
    ensures PlaceInv(s')
  {
    SamePlacesKeepsRest(s, s');
    hide StoreHandles, ClosesOnce, Numbered, NoDup;
    forall t1: Tid ensures ThreadHandles(s', t1) {
      assert ThreadHandles(s, t1);
    }
    forall h | h in s'.place ensures HandleFound(s', h) {
      assert HandleFound(s, h);
    }
  }

  lemma WaitKeepsInv(s: Sys, s': Sys)
    requires Inv(s) && s.now <= s'.now && s' == s.(now := s'.now)
    ensures Inv(s')
  {
    hide LockInv, PlaceInv, TimeInv;
    WaitKeepsTimes(s, s');
    WaitKeepsLocks(s, s');
    WaitKeepsPlaces(s, s');
  }

  lemma {:induction false} ReachableInv(projects: map<Key, Path>, now: Time, actions: seq<Action>)
    ensures Inv(ApplyAll(Init(projects, now), actions))
  {
    if actions == [] {
      var s := Init(projects, now);
      forall t1: Tid ensures ThreadTimes(s, t1) && ThreadLocks(s, t1) && ThreadHandles(s, t1) {
      }
    } else {
      ReachableInv(projects, now, actions[..|actions| - 1]);
      ApplyKeepsInv(ApplyAll(Init(projects, now), actions[..|actions| - 1]), actions[|actions| - 1]);
    }
  }
}
