/**
 Dependencies and parent links between issues, and the searches that keep both acyclic.

 `Tracker` holds the two tables; its methods are the write paths (add, remove, bulk insert, undo,
 reparent, and the two graph stages of import), each proved equal to a function on `State`.
 */
module DependencyGraph {
  import opened Wrappers

  type Id = string

  datatype Edge = Edge(src: Id, dst: Id)
  datatype Dep = Dep(edge: Edge, kind: string)

  type Graph = set<Edge>

  // ---------------------------------------------------------------------------------------
  // Reachability
  // ---------------------------------------------------------------------------------------

  ghost predicate Walk(g: Graph, p: seq<Id>)
  {
    p != [] && forall i | 0 <= i < |p| - 1 :: Edge(p[i], p[i + 1]) in g
  }

  ghost predicate WalkFromTo(g: Graph, p: seq<Id>, a: Id, b: Id)
  {
    Walk(g, p) && p[0] == a && p[|p| - 1] == b
  }

  ghost predicate Reaches(g: Graph, a: Id, b: Id)
  {
    exists p :: WalkFromTo(g, p, a, b)
  }

  /** No issue depends on itself through any chain. */
  ghost predicate Acyclic(g: Graph)
  {
    forall e | e in g :: !Reaches(g, e.dst, e.src)
  }

  lemma ReachesSelf(g: Graph, a: Id)
    ensures Reaches(g, a, a)
  {
    assert WalkFromTo(g, [a], a, a);
  }

  lemma ReachesStep(g: Graph, a: Id, b: Id, c: Id)
    requires Edge(a, b) in g && Reaches(g, b, c)
    ensures Reaches(g, a, c)
  {
    var p :| WalkFromTo(g, p, b, c);
    assert WalkFromTo(g, [a] + p, a, c);
  }

  lemma ReachesThrough(g: Graph, a: Id, b: Id, c: Id)
    requires Reaches(g, a, b) && Reaches(g, b, c)
    ensures Reaches(g, a, c)
  {
    var p :| WalkFromTo(g, p, a, b);
    var q :| WalkFromTo(g, q, b, c);
    var r := p[..|p| - 1] + q;
    forall i | 0 <= i < |r| - 1 ensures Edge(r[i], r[i + 1]) in g {
      assert i < |p| - 1 ==> r[i] == p[i] && r[i + 1] == p[i + 1];
      assert i >= |p| - 1 ==> r[i] == q[i - (|p| - 1)] && r[i + 1] == q[i - (|p| - 1) + 1];
    }
    assert WalkFromTo(g, r, a, c);
  }

  lemma ReachesMore(g: Graph, g': Graph, a: Id, b: Id)
    requires g <= g' && Reaches(g, a, b)
    ensures Reaches(g', a, b)
  {
    var p :| WalkFromTo(g, p, a, b);
    assert WalkFromTo(g', p, a, b);
  }

  lemma FewerEdgesStayAcyclic(g: Graph, g': Graph)
    requires Acyclic(g) && g' <= g
    ensures Acyclic(g')
  {
    forall e | e in g' ensures !Reaches(g', e.dst, e.src) {
      if Reaches(g', e.dst, e.src) {
        ReachesMore(g', g, e.dst, e.src);
      }
    }
  }

  /** A walk that may use the edge a -> b either avoids it, or reaches a before it and leaves b after it. */
  lemma {:induction false} WalkAround(g: Graph, a: Id, b: Id, p: seq<Id>)
    requires Walk(g + {Edge(a, b)}, p)
    ensures Reaches(g, p[0], p[|p| - 1]) || (Reaches(g, p[0], a) && Reaches(g, b, p[|p| - 1]))
    decreases |p|
  {
    if |p| == 1 {
      ReachesSelf(g, p[0]);
    } else {
      var q := p[1..];
      WalkAround(g, a, b, q);
      assert Edge(p[0], p[1]) in g + {Edge(a, b)};
      if Edge(p[0], p[1]) in g {
        if Reaches(g, q[0], p[|p| - 1]) {
          ReachesStep(g, p[0], q[0], p[|p| - 1]);
        } else {
          ReachesStep(g, p[0], q[0], a);
        }
      } else {
        ReachesSelf(g, a);
      }
    }
  }

  /** Adding an edge keeps a graph acyclic exactly when its target does not already reach its source. */
  lemma InsertKeepsAcyclicIff(g: Graph, a: Id, b: Id)
    requires Acyclic(g)
    ensures Acyclic(g + {Edge(a, b)}) <==> !Reaches(g, b, a)
  {
    var g' := g + {Edge(a, b)};
    if Reaches(g, b, a) {
      ReachesMore(g, g', b, a);
      assert Edge(a, b) in g';
    } else {
      forall e | e in g' ensures !Reaches(g', e.dst, e.src) {
        if p :| WalkFromTo(g', p, e.dst, e.src) {
          WalkAround(g, a, b, p);
          if e in g {
            ReachesStep(g, e.src, e.dst, a);
            ReachesThrough(g, b, e.src, a);
          }
        }
      }
    }
  }

  /** A set closed under edges traps every walk that starts in it. */
  lemma {:induction false} ClosedTraps(g: Graph, s: set<Id>, p: seq<Id>)
    requires Walk(g, p) && p[0] in s
    requires forall e | e in g && e.src in s :: e.dst in s
    ensures p[|p| - 1] in s
    decreases |p|
  {
    if |p| > 1 {
      assert Edge(p[0], p[1]) in g;
      ClosedTraps(g, s, p[1..]);
    }
  }

  // ---------------------------------------------------------------------------------------
  // The searches over dependency rows
  // ---------------------------------------------------------------------------------------

  function EdgesOf(rows: seq<Dep>): Graph
  {
    set d | d in rows :: d.edge
  }

  type Adjacency = map<Id, seq<Id>>

  function Neighbors(adj: Adjacency, x: Id): seq<Id>
  {
    if x in adj then adj[x] else []
  }

  ghost predicate Adjoins(adj: Adjacency, g: Graph)
  {
    forall x, y :: y in Neighbors(adj, x) <==> Edge(x, y) in g
  }

  method BuildAdjacency(rows: seq<Dep>) returns (adj: Adjacency)
    ensures Adjoins(adj, EdgesOf(rows))
  {
    adj := map[];
    for i := 0 to |rows|
      invariant Adjoins(adj, EdgesOf(rows[..i]))
    {
      var e := rows[i].edge;
      ghost var before := adj;
      adj := adj[e.src := Neighbors(adj, e.src) + [e.dst]];
      assert EdgesOf(rows[..i + 1]) == EdgesOf(rows[..i]) + {e};
      forall x, y ensures y in Neighbors(adj, x) <==> Edge(x, y) in EdgesOf(rows[..i + 1]) {
        assert y in Neighbors(before, x) <==> Edge(x, y) in EdgesOf(rows[..i]);
      }
    }
    assert rows[..|rows|] == rows;
  }

  /** The issues a search can meet. */
  ghost function Universe(g: Graph, start: Id): set<Id>
  {
    {start} + set e | e in g :: e.dst
  }

  /** What a search has established when it has visited `visited` and still has `todo` to look at. */
  ghost predicate Searching(g: Graph, start: Id, target: Id, visited: set<Id>, todo: seq<Id>)
  {
    && target !in visited
    && (start in visited || start in todo)
    && (forall x | x in visited || x in todo :: Reaches(g, start, x))
    && (forall e | e in g && e.src in visited :: e.dst in visited || e.dst in todo)
    && (forall x | x in visited || x in todo :: x in Universe(g, start))
  }

  lemma SearchEnds(g: Graph, start: Id, target: Id, visited: set<Id>)
    requires Searching(g, start, target, visited, [])
    ensures !Reaches(g, start, target)
  {
    if p :| WalkFromTo(g, p, start, target) {
      ClosedTraps(g, visited, p);
    }
  }

  lemma SearchHits(g: Graph, start: Id, target: Id, visited: set<Id>, todo: seq<Id>, x: Id)
    requires Searching(g, start, target, visited, todo) && x in todo
    ensures Reaches(g, start, x)
  {
  }

  /** One round: `x` was taken out of `todo`, leaving `rest`. */
  lemma SearchVisits(g: Graph, start: Id, target: Id, visited: set<Id>, todo: seq<Id>, x: Id, rest: seq<Id>,
      next: seq<Id>)
    requires Searching(g, start, target, visited, todo) && x != target
    requires todo == rest + [x] || todo == [x] + rest
    requires forall y :: y in next <==> Edge(x, y) in g
    ensures x in visited ==> Searching(g, start, target, visited, rest)
    ensures x !in visited ==> Searching(g, start, target, visited + {x}, rest + next)
    ensures x !in visited ==> |Universe(g, start) - (visited + {x})| < |Universe(g, start) - visited|
  {
    assert forall y :: y in todo <==> y == x || y in rest;
    forall y | y in next ensures Reaches(g, start, y) {
      ReachesSelf(g, y);
      ReachesStep(g, x, y, y);
      ReachesThrough(g, start, x, y);
    }
    if x !in visited {
      Shrinks(Universe(g, start), visited, x);
    }
  }

  /** The inline search of `undo_last`: a stack, and `break` on the first hit. */
  method StackSearch(rows: seq<Dep>, start: Id, target: Id) returns (found: bool)
    ensures found <==> Reaches(EdgesOf(rows), start, target)
  {
    ghost var g := EdgesOf(rows);
    var adj := BuildAdjacency(rows);
    var visited: set<Id> := {};
    var queue := [start];
    found := false;
    ReachesSelf(g, start);
    assert Searching(g, start, target, {}, [start]);
    while queue != []
      invariant Searching(g, start, target, visited, queue)
      decreases |Universe(g, start) - visited|, |queue|
    {
      var cur := queue[|queue| - 1];
      var rest := queue[..|queue| - 1];
      assert queue == rest + [cur];
      if cur == target {
        SearchHits(g, start, target, visited, queue, cur);
        return true;
      }
      SearchVisits(g, start, target, visited, queue, cur, rest, Neighbors(adj, cur));
      if cur in visited {
        queue := rest;
      } else {
        visited := visited + {cur};
        queue := rest + Neighbors(adj, cur);
      }
    }
    SearchEnds(g, start, target, visited);
  }

  /** `_would_create_cycle`: a first-in first-out queue from `dependsOn`, looking for `issue`. */
  method WouldCreateCycle(rows: seq<Dep>, issue: Id, dependsOn: Id) returns (found: bool)
    ensures found <==> Reaches(EdgesOf(rows), dependsOn, issue)
  {
    ghost var g := EdgesOf(rows);
    var adj := BuildAdjacency(rows);
    var visited: set<Id> := {};
    var queue := [dependsOn];
    ReachesSelf(g, dependsOn);
    assert Searching(g, dependsOn, issue, {}, [dependsOn]);
    while queue != []
      invariant Searching(g, dependsOn, issue, visited, queue)
      decreases |Universe(g, dependsOn) - visited|, |queue|
    {
      var current := queue[0];
      var rest := queue[1..];
      assert queue == [current] + rest;
      if current == issue {
        SearchHits(g, dependsOn, issue, visited, queue, current);
        return true;
      }
      SearchVisits(g, dependsOn, issue, visited, queue, current, rest, Neighbors(adj, current));
      if current in visited {
        queue := rest;
      } else {
        visited := visited + {current};
        queue := rest + Neighbors(adj, current);
      }
    }
    SearchEnds(g, dependsOn, issue, visited);
    return false;
  }

  lemma Shrinks(u: set<Id>, visited: set<Id>, x: Id)
    requires x in u && x !in visited
    ensures |u - (visited + {x})| < |u - visited|
  {
    assert u - visited == (u - (visited + {x})) + {x};
  }

  // ---------------------------------------------------------------------------------------
  // Parent chains
  // ---------------------------------------------------------------------------------------

  type Parents = map<Id, Option<Id>>

  function ParentOf(parents: Parents, x: Id): Option<Id>
  {
    if x in parents then parents[x] else None
  }

  function ParentGraph(parents: Parents): Graph
  {
    set x | x in parents && parents[x].Some? :: Edge(x, parents[x].value)
  }

  /** The links above `a` run into a loop. */
  ghost predicate Loops(g: Graph, a: Id)
  {
    exists x, y :: Reaches(g, a, x) && Edge(x, y) in g && Reaches(g, y, x)
  }

  /** `chain` is the walk up from `start` so far, without repetition, and `next` the parent of its last issue. */
  ghost predicate Chain(parents: Parents, start: Id, chain: seq<Id>, next: Option<Id>)
  {
    && (forall i, j | 0 <= i < j < |chain| :: chain[i] != chain[j])
    && (forall i | 0 <= i < |chain| - 1 :: ParentOf(parents, chain[i]) == Some(chain[i + 1]))
    && if chain == [] then next == Some(start)
       else chain[0] == start && ParentOf(parents, chain[|chain| - 1]) == next
  }

  lemma ChainReaches(parents: Parents, start: Id, chain: seq<Id>, next: Option<Id>, i: nat, j: nat)
    requires Chain(parents, start, chain, next) && i <= j < |chain|
    ensures Reaches(ParentGraph(parents), chain[i], chain[j])
  {
    var p := chain[i..j + 1];
    forall k | 0 <= k < |p| - 1 ensures Edge(p[k], p[k + 1]) in ParentGraph(parents) {
      assert p[k] == chain[i + k] && p[k + 1] == chain[i + k + 1];
    }
    assert WalkFromTo(ParentGraph(parents), p, chain[i], chain[j]);
  }

  /** From a chain that ended, only its later part can be reached. */
  lemma ChainTraps(parents: Parents, start: Id, chain: seq<Id>, i: nat, x: Id)
    requires Chain(parents, start, chain, None) && i < |chain| && Reaches(ParentGraph(parents), chain[i], x)
    ensures exists j :: i <= j < |chain| && chain[j] == x
  {
    var g := ParentGraph(parents);
    var p :| WalkFromTo(g, p, chain[i], x);
    var later := set k | i <= k < |chain| :: chain[k];
    forall e | e in g && e.src in later ensures e.dst in later {
      var k :| i <= k < |chain| && chain[k] == e.src;
      assert k < |chain| - 1 && chain[k + 1] == e.dst;
    }
    ClosedTraps(g, later, p);
  }

  lemma ChainEnds(parents: Parents, start: Id, chain: seq<Id>, child: Id)
    requires Chain(parents, start, chain, None) && child !in chain
    ensures !Reaches(ParentGraph(parents), start, child) && !Loops(ParentGraph(parents), start)
  {
    var g := ParentGraph(parents);
    if Reaches(g, start, child) {
      ChainTraps(parents, start, chain, 0, child);
    }
    if x, y :| Reaches(g, start, x) && Edge(x, y) in g && Reaches(g, y, x) {
      ChainTraps(parents, start, chain, 0, x);
      var i :| 0 <= i < |chain| && chain[i] == x;
      assert i < |chain| - 1 && chain[i + 1] == y;
      ChainTraps(parents, start, chain, i + 1, x);
    }
  }

  lemma ChainRepeats(parents: Parents, start: Id, chain: seq<Id>, a: Id)
    requires Chain(parents, start, chain, Some(a)) && a in chain
    ensures Loops(ParentGraph(parents), start)
  {
    var j :| 0 <= j < |chain| && chain[j] == a;
    ChainReaches(parents, start, chain, Some(a), 0, |chain| - 1);
    ChainReaches(parents, start, chain, Some(a), j, |chain| - 1);
    assert Edge(chain[|chain| - 1], a) in ParentGraph(parents);
  }

  lemma ChainHits(parents: Parents, start: Id, chain: seq<Id>, child: Id)
    requires Chain(parents, start, chain, Some(child)) && chain != []
    ensures Reaches(ParentGraph(parents), start, child)
  {
    var last := chain[|chain| - 1];
    ChainReaches(parents, start, chain, Some(child), 0, |chain| - 1);
    ReachesSelf(ParentGraph(parents), child);
    ReachesStep(ParentGraph(parents), last, child, child);
    ReachesThrough(ParentGraph(parents), start, last, child);
  }

  lemma ChainGrows(parents: Parents, start: Id, chain: seq<Id>, a: Id)
    requires Chain(parents, start, chain, Some(a)) && a !in chain
    ensures Chain(parents, start, chain + [a], ParentOf(parents, a))
  {
  }

  /** The walk up from `proposed` finds the child, or runs into a loop that is already there. */
  method WouldCreateParentCycle(parents: Parents, child: Id, proposed: Id) returns (r: bool)
    ensures proposed == "" ==> (r <==> child == "")
    ensures proposed != "" ==>
      (r <==> Reaches(ParentGraph(parents), proposed, child) || Loops(ParentGraph(parents), proposed))
  {
    ReachesSelf(ParentGraph(parents), proposed);
    if proposed == "" || proposed == child {
      return proposed == child;
    }
    assert Chain(parents, proposed, [], Some(proposed));
    hide Chain, Reaches, Loops, ParentGraph;
    var ancestor := Some(proposed);
    var seen: set<Id> := {};
    ghost var chain := [];
    while ancestor.Some?
      invariant Chain(parents, proposed, chain, ancestor)
      invariant forall x :: x in seen <==> x in chain
      invariant child !in chain && ancestor != Some(child)
      decreases ancestor.Some?, |parents.Keys - seen|
    {
      var a := ancestor.value;
      if a in seen {
        ChainRepeats(parents, proposed, chain, a);
        return true;
      }
      ChainGrows(parents, proposed, chain, a);
      Shrinks(parents.Keys + {a}, seen, a);
      seen := seen + {a};
      chain := chain + [a];
      if a !in parents {
        ChainEnds(parents, proposed, chain, child);
        return false;
      }
      ancestor := parents[a];
      if ancestor == Some(child) {
        ChainHits(parents, proposed, chain, child);
        return true;
      }
      assert parents.Keys + {a} == parents.Keys;
    }
    ChainEnds(parents, proposed, chain, child);
    return false;
  }

  /** A walk to `child` need not use the link above `child`. */
  lemma {:induction false} WalkStopsAt(g: Graph, base: Graph, p: seq<Id>, child: Id)
    requires Walk(g, p) && p[|p| - 1] == child
    requires forall e | e in g && e.src != child :: e in base
    ensures Reaches(base, p[0], child)
    decreases |p|
  {
    if p[0] == child {
      ReachesSelf(base, child);
    } else {
      WalkStopsAt(g, base, p[1..], child);
      ReachesStep(base, p[0], p[1], child);
    }
  }

  /** Replacing a parent link keeps the hierarchy acyclic exactly when the child is not above its new parent. */
  lemma SetParentKeepsAcyclicIff(parents: Parents, child: Id, parent: Id)
    requires Acyclic(ParentGraph(parents))
    ensures Acyclic(ParentGraph(parents[child := Some(parent)])) <==> !Reaches(ParentGraph(parents), parent, child)
  {
    var g := ParentGraph(parents);
    var base := set e | e in g && e.src != child;
    var after := parents[child := Some(parent)];
    forall e ensures e in ParentGraph(after) <==> e in base + {Edge(child, parent)} {
      assert e in ParentGraph(after) <==> e.src in after && after[e.src] == Some(e.dst);
      assert e in g <==> e.src in parents && parents[e.src] == Some(e.dst);
    }
    assert ParentGraph(after) == base + {Edge(child, parent)};
    FewerEdgesStayAcyclic(g, base);
    InsertKeepsAcyclicIff(base, child, parent);
    if Reaches(base, parent, child) {
      ReachesMore(base, g, parent, child);
    }
    if p :| WalkFromTo(g, p, parent, child) {
      WalkStopsAt(g, base, p, child);
    }
  }

  // ---------------------------------------------------------------------------------------
  // The text of a dependency event
  // ---------------------------------------------------------------------------------------

  /** `value.rsplit(":", 1)`: what stands before and after the last colon; None when there is none. */
  function RSplit(value: string): (r: Option<(string, string)>)
    ensures r.None? <==> ':' !in value
    ensures r.Some? ==> value == r.value.0 + ":" + r.value.1 && ':' !in r.value.1
  {
    if value == "" then None
    else
      var last, init := value[|value| - 1], value[..|value| - 1];
      if last == ':' then Some((init, ""))
      else
        match RSplit(init)
        case None => None
        case Some((before, after)) => Some((before, after + [last]))
  }

  function DepValue(kind: string, target: Id): string
  {
    kind + ":" + target
  }

  /** What undo reads back from an event's value; a bare target is a legacy `blocks` edge. */
  function ParseDepValue(value: string): (string, Id)
  {
    match RSplit(value)
    case None => ("blocks", value)
    case Some(parts) => parts
  }

  lemma {:induction false} SplitsAtLastColon(v: string, k: nat)
    requires k < |v| && v[k] == ':' && ':' !in v[k + 1..]
    ensures RSplit(v) == Some((v[..k], v[k + 1..]))
  {
    if k < |v| - 1 {
      var init := v[..|v| - 1];
      assert v[|v| - 1] in v[k + 1..];
      assert v[k + 1..] == init[k + 1..] + [v[|v| - 1]];
      assert init[..k] == v[..k];
      SplitsAtLastColon(init, k);
    }
  }

  /** An event's value reads back as the edge it was written for exactly when the target has no colon. */
  lemma DepValueRoundTrips(kind: string, target: Id)
    ensures ParseDepValue(DepValue(kind, target)) == (kind, target) <==> ':' !in target
  {
    var v := DepValue(kind, target);
    assert v[|kind|] == ':' && v[|kind| + 1..] == target && v[..|kind|] == kind;
    if ':' !in target {
      SplitsAtLastColon(v, |kind|);
    }
  }

  /** The value of a dependency event names a kind and a target: the target is what follows the last colon, and a bare
      one stands for a `blocks` edge. */
  ghost predicate Targets(value: string, kind: string, target: Id)
  {
    ':' !in target && (value == kind + ":" + target || (value == target && kind == "blocks"))
  }

  lemma TargetIsRead(value: string, kind: string, target: Id)
    requires Targets(value, kind, target)
    ensures ParseDepValue(value) == (kind, target)
  {
    if value == kind + ":" + target {
      DepValueRoundTrips(kind, target);
    }
  }

  // ---------------------------------------------------------------------------------------
  // Write paths as functions
  // ---------------------------------------------------------------------------------------

  datatype Refusal =
    | NotFound
    | SelfDependency
    | Cycle
    | Duplicate
    | ForeignKey
    | SelfParent
    | NoSuchParent
    | ParentCycle

  datatype State = State(issues: set<Id>, deps: seq<Dep>, parents: Parents)

  type Reply = Result<bool, Refusal>

  // What the schema's keys guarantee.
  ghost predicate Valid(st: State)
  {
    && st.parents.Keys == st.issues
    && (forall x | x in st.parents && st.parents[x].Some? :: st.parents[x].value in st.issues)
    && (forall d | d in st.deps :: d.edge.src in st.issues && d.edge.dst in st.issues)
    && (forall i, j | 0 <= i < j < |st.deps| :: st.deps[i].edge != st.deps[j].edge)
  }

  ghost predicate Sound(st: State)
  {
    Valid(st) && Acyclic(EdgesOf(st.deps)) && Acyclic(ParentGraph(st.parents))
  }

  function WithoutEdge(deps: seq<Dep>, e: Edge): (r: seq<Dep>)
    ensures forall d :: d in r <==> d in deps && d.edge != e
    ensures (forall i, j | 0 <= i < j < |deps| :: deps[i].edge != deps[j].edge)
      ==> forall i, j | 0 <= i < j < |r| :: r[i].edge != r[j].edge
  {
    if deps == [] then []
    else
      var rest := WithoutEdge(deps[..|deps| - 1], e);
      if deps[|deps| - 1].edge == e then rest else rest + [deps[|deps| - 1]]
  }

  /** `INSERT OR IGNORE`, or `OR ABORT` when duplicates are errors. */
  ghost function Put(st: State, d: Dep, ignore: bool): (State, Reply)
  {
    if d.edge in EdgesOf(st.deps) then (st, if ignore then Ok(false) else Err(Duplicate))
    else if d.edge.src !in st.issues || d.edge.dst !in st.issues then (st, Err(ForeignKey))
    else (st.(deps := st.deps + [d]), Ok(true))
  }

  /** `_validate_dependency_edge`. */
  ghost function EdgeRefusal(st: State, e: Edge, existence: bool): Option<Refusal>
  {
    if existence && (e.src !in st.issues || e.dst !in st.issues) then Some(NotFound)
    else if e.src == e.dst then Some(SelfDependency)
    else if Reaches(EdgesOf(st.deps), e.dst, e.src) then Some(Cycle)
    else None
  }

  /** `add_dependency` and validated `bulk_insert_dependency`. */
  ghost function AddDep(st: State, d: Dep): (State, Reply)
  {
    var refusal := EdgeRefusal(st, d.edge, true);
    if refusal.Some? then (st, Err(refusal.value)) else Put(st, d, true)
  }

  ghost function RemoveDep(st: State, e: Edge): (State, Reply)
  {
    if e.src !in st.issues || e.dst !in st.issues then (st, Err(NotFound))
    else if e !in EdgesOf(st.deps) then (st, Ok(false))
    else (st.(deps := WithoutEdge(st.deps, e)), Ok(true))
  }

  /** Undo of `dependency_added` deletes the edge its value names. */
  ghost function UndoAdded(st: State, issue: Id, value: string): (State, Reply)
  {
    (st.(deps := WithoutEdge(st.deps, Edge(issue, ParseDepValue(value).1))), Ok(true))
  }

  /** Undo of `dependency_removed` puts the edge back unless that closes a cycle. */
  ghost function UndoRemoved(st: State, issue: Id, value: string): (State, Reply)
  {
    var (kind, target) := ParseDepValue(value);
    if Reaches(EdgesOf(st.deps), target, issue) then (st, Err(Cycle))
    else
      var (st', r) := Put(st, Dep(Edge(issue, target), kind), true);
      (st', if r.Err? then r else Ok(true))
  }

  ghost predicate ParentLoops(parents: Parents, child: Id, parent: Id)
  {
    Reaches(ParentGraph(parents), parent, child) || Loops(ParentGraph(parents), parent)
  }

  /** `update_issue`'s parent argument: "" clears it. */
  ghost function SetParent(st: State, child: Id, parent: Id): (State, Reply)
  {
    if child !in st.issues then (st, Err(NotFound))
    else if parent == "" then (st.(parents := st.parents[child := None]), Ok(true))
    else if parent == child then (st, Err(SelfParent))
    else if parent !in st.issues then (st, Err(NoSuchParent))
    else if ParentLoops(st.parents, child, parent) then (st, Err(ParentCycle))
    else (st.(parents := st.parents[child := Some(parent)]), Ok(true))
  }

  ghost function UndoParent(st: State, child: Id, old_: Option<Id>): (State, Reply)
  {
    if child !in st.issues then (st, Err(NotFound))
    else if old_.None? || old_.value == "" then (st.(parents := st.parents[child := None]), Ok(true))
    else if old_.value !in st.issues then (st, Err(NoSuchParent))
    else if ParentLoops(st.parents, child, old_.value) then (st, Err(ParentCycle))
    else (st.(parents := st.parents[child := old_]), Ok(true))
  }

  datatype IssueRecord = IssueRecord(id: Id, parent: Id)
  datatype Stage = Stage(st: State, links: seq<IssueRecord>)

  /** Import first inserts every issue without a parent and remembers the parents of those it inserted. */
  ghost function InsertIssues(g: Stage, records: seq<IssueRecord>, merge: bool): Result<Stage, Refusal>
    decreases records
  {
    if records == [] then Ok(g)
    else
      var r := records[0];
      if r.id in g.st.issues then
        if merge then InsertIssues(g, records[1..], merge) else Err(Duplicate)
      else
        var st' := g.st.(issues := g.st.issues + {r.id}, parents := g.st.parents[r.id := None]);
        InsertIssues(Stage(st', if r.parent != "" then g.links + [r] else g.links), records[1..], merge)
  }

  /** Then it links the issues it inserted to their parents. */
  ghost function LinkParents(st: State, links: seq<IssueRecord>): Result<State, Refusal>
    decreases links
  {
    if links == [] then Ok(st)
    else
      var (id, parent) := (links[0].id, links[0].parent);
      if parent !in st.issues then Err(NoSuchParent)
      else if parent == id then Err(SelfParent)
      else if ParentLoops(st.parents, id, parent) then Err(ParentCycle)
      else LinkParents(st.(parents := st.parents[id := Some(parent)]), links[1..])
  }

  /** And then it inserts the dependencies, checking each against those before it. */
  ghost function InsertDeps(st: State, deps: seq<Dep>, merge: bool): Result<State, Refusal>
    decreases deps
  {
    if deps == [] then Ok(st)
    else
      var refusal := EdgeRefusal(st, deps[0].edge, false);
      if refusal.Some? then Err(refusal.value)
      else
        var (st', r) := Put(st, deps[0], merge);
        if r.Err? then Err(r.error) else InsertDeps(st', deps[1..], merge)
  }

  /** The graph stages of `import_jsonl`: one transaction, so any refusal leaves the store as it was. */
  ghost function Import(st: State, issues: seq<IssueRecord>, deps: seq<Dep>, merge: bool): (State, Reply)
  {
    match InsertIssues(Stage(st, []), issues, merge)
    case Err(e) => (st, Err(e))
    case Ok(g) =>
      match LinkParents(g.st, g.links)
      case Err(e) => (st, Err(e))
      case Ok(st1) =>
        match InsertDeps(st1, deps, merge)
        case Err(e) => (st, Err(e))
        case Ok(st2) => (st2, Ok(true))
  }

  // ---------------------------------------------------------------------------------------
  // The object
  // ---------------------------------------------------------------------------------------

  class Tracker {
    var issues: set<Id>
    var deps: seq<Dep>
    var parents: Parents

    ghost function View(): State
      reads this
    {
      State(issues, deps, parents)
    }

    constructor ()
      ensures View() == State({}, [], map[])
    {
      issues, deps, parents := {}, [], map[];
    }

    predicate HasEdge(e: Edge)
      reads this
      ensures HasEdge(e) <==> e in EdgesOf(deps)
    {
      exists i | 0 <= i < |deps| :: deps[i].edge == e
    }

    method PutDependency(d: Dep, ignore: bool) returns (r: Reply)
      modifies this`deps
      ensures (View(), r) == Put(old(View()), d, ignore)
    {
      if HasEdge(d.edge) {
        return if ignore then Ok(false) else Err(Duplicate);
      }
      if d.edge.src !in issues || d.edge.dst !in issues {
        return Err(ForeignKey);
      }
      deps := deps + [d];
      return Ok(true);
    }

    method ValidateDependencyEdge(e: Edge, existence: bool) returns (refusal: Option<Refusal>)
      ensures refusal == EdgeRefusal(View(), e, existence)
    {
      if existence && (e.src !in issues || e.dst !in issues) {
        return Some(NotFound);
      }
      if e.src == e.dst {
        return Some(SelfDependency);
      }
      var cycle := WouldCreateCycle(deps, e.src, e.dst);
      return if cycle then Some(Cycle) else None;
    }

    method AddDependency(d: Dep) returns (r: Reply)
      modifies this`deps
      ensures (View(), r) == AddDep(old(View()), d)
    {
      var refusal := ValidateDependencyEdge(d.edge, true);
      if refusal.Some? {
        return Err(refusal.value);
      }
      r := PutDependency(d, true);
    }

    /** With `validate` off only the foreign keys stand in the way. */
    method BulkInsertDependency(d: Dep, validate: bool) returns (r: Reply)
      modifies this`deps
      ensures (View(), r) == if validate then AddDep(old(View()), d) else Put(old(View()), d, true)
    {
      if validate {
        var refusal := ValidateDependencyEdge(d.edge, true);
        if refusal.Some? {
          return Err(refusal.value);
        }
      }
      r := PutDependency(d, true);
    }

    method RemoveDependency(e: Edge) returns (r: Reply)
      modifies this`deps
      ensures (View(), r) == RemoveDep(old(View()), e)
    {
      if e.src !in issues || e.dst !in issues {
        return Err(NotFound);
      }
      if !HasEdge(e) {
        return Ok(false);
      }
      deps := WithoutEdge(deps, e);
      return Ok(true);
    }

    method UndoDependencyAdded(issue: Id, value: string) returns (r: Reply)
      modifies this`deps
      ensures (View(), r) == UndoAdded(old(View()), issue, value)
    {
      var (_, target) := ParseDepValue(value);
      deps := WithoutEdge(deps, Edge(issue, target));
      return Ok(true);
    }

    method UndoDependencyRemoved(issue: Id, value: string) returns (r: Reply)
      modifies this`deps
      ensures (View(), r) == UndoRemoved(old(View()), issue, value)
    {
      var (kind, target) := ParseDepValue(value);
      var wouldCycle := StackSearch(deps, target, issue);
      if wouldCycle {
        return Err(Cycle);
      }
      r := PutDependency(Dep(Edge(issue, target), kind), true);
      if r.Ok? {
        r := Ok(true);
      }
    }

    method UpdateParent(child: Id, parent: Id) returns (r: Reply)
      modifies this`parents
      ensures (View(), r) == SetParent(old(View()), child, parent)
    {
      if child !in issues {
        return Err(NotFound);
      }
      if parent == "" {
        parents := parents[child := None];
        return Ok(true);
      }
      if parent == child {
        return Err(SelfParent);
      }
      if parent !in issues {
        return Err(NoSuchParent);
      }
      var cycle := WouldCreateParentCycle(parents, child, parent);
      if cycle {
        return Err(ParentCycle);
      }
      parents := parents[child := Some(parent)];
      return Ok(true);
    }

    method UndoParentChanged(child: Id, oldParent: Option<Id>) returns (r: Reply)
      modifies this`parents
      ensures (View(), r) == UndoParent(old(View()), child, oldParent)
    {
      if child !in issues {
        return Err(NotFound);
      }
      if oldParent.None? || oldParent.value == "" {
        parents := parents[child := None];
        return Ok(true);
      }
      if oldParent.value !in issues {
        return Err(NoSuchParent);
      }
      var cycle := WouldCreateParentCycle(parents, child, oldParent.value);
      if cycle {
        return Err(ParentCycle);
      }
      parents := parents[child := oldParent];
      return Ok(true);
    }

    method ImportIssueStage(records: seq<IssueRecord>, merge: bool) returns (r: Result<seq<IssueRecord>, Refusal>)
      modifies this`issues, this`parents
      ensures var spec := InsertIssues(Stage(old(View()), []), records, merge);
        if r.Err? then spec == Err(r.error) else spec == Ok(Stage(View(), r.value))
    {
      var links: seq<IssueRecord> := [];
      for i := 0 to |records|
        invariant InsertIssues(Stage(old(View()), []), records, merge) ==
          InsertIssues(Stage(View(), links), records[i..], merge)
        invariant deps == old(deps)
      {
        var record := records[i];
        assert records[i..][1..] == records[i + 1..];
        if record.id in issues {
          if !merge {
            return Err(Duplicate);
          }
        } else {
          issues := issues + {record.id};
          parents := parents[record.id := None];
          if record.parent != "" {
            links := links + [record];
          }
        }
      }
      return Ok(links);
    }

    method ImportParentStage(links: seq<IssueRecord>) returns (r: Reply)
      requires forall l | l in links :: l.parent != ""
      modifies this`parents
      ensures var spec := LinkParents(old(View()), links);
        if r.Err? then spec == Err(r.error) else spec == Ok(View())
      ensures r.Ok? ==> r == Ok(true)
    {
      for i := 0 to |links|
        invariant LinkParents(old(View()), links) == LinkParents(View(), links[i..])
        invariant issues == old(issues) && deps == old(deps)
      {
        var link := links[i];
        assert links[i..][1..] == links[i + 1..];
        if link.parent !in issues {
          return Err(NoSuchParent);
        }
        if link.parent == link.id {
          return Err(SelfParent);
        }
        var cycle := WouldCreateParentCycle(parents, link.id, link.parent);
        if cycle {
          return Err(ParentCycle);
        }
        parents := parents[link.id := Some(link.parent)];
      }
      return Ok(true);
    }

    method ImportDependencyStage(records: seq<Dep>, merge: bool) returns (r: Reply)
      modifies this`deps
      ensures var spec := InsertDeps(old(View()), records, merge);
        if r.Err? then spec == Err(r.error) else spec == Ok(View())
      ensures r.Ok? ==> r == Ok(true)
    {
      for i := 0 to |records|
        invariant InsertDeps(old(View()), records, merge) == InsertDeps(View(), records[i..], merge)
        invariant issues == old(issues) && parents == old(parents)
      {
        assert records[i..][1..] == records[i + 1..];
        var refusal := ValidateDependencyEdge(records[i].edge, false);
        if refusal.Some? {
          return Err(refusal.value);
        }
        var put := PutDependency(records[i], merge);
        if put.Err? {
          return put;
        }
      }
      return Ok(true);
    }

    method ImportGraph(records: seq<IssueRecord>, edges: seq<Dep>, merge: bool) returns (r: Reply)
      modifies this
      ensures (View(), r) == Import(old(View()), records, edges, merge)
    {
      var issues0, deps0, parents0 := issues, deps, parents;
      ghost var st := View();
      var links := ImportIssueStage(records, merge);
      if links.Err? {
        r := Err(links.error);
      } else {
        InsertedLinks(Stage(st, []), records, merge);
        ghost var st1 := View();
        r := ImportParentStage(links.value);
        assert r.Ok? ==> LinkParents(st1, links.value) == Ok(View());
        if r.Ok? {
          r := ImportDependencyStage(edges, merge);
        }
      }
      if r.Err? {
        issues, deps, parents := issues0, deps0, parents0;
        assert View() == st;
      }
    }
  }

  lemma {:induction false} InsertedLinks(g: Stage, records: seq<IssueRecord>, merge: bool)
    requires forall l | l in g.links :: l.parent != ""
    ensures var r := InsertIssues(g, records, merge); r.Ok? ==> forall l | l in r.value.links :: l.parent != ""
    decreases records
  {
    if records != [] {
      var x := records[0];
      if x.id in g.st.issues {
        InsertedLinks(g, records[1..], merge);
      } else {
        var st' := g.st.(issues := g.st.issues + {x.id}, parents := g.st.parents[x.id := None]);
        InsertedLinks(Stage(st', if x.parent != "" then g.links + [x] else g.links), records[1..], merge);
      }
    }
  }

  // ---------------------------------------------------------------------------------------
  // Every write path keeps both graphs acyclic
  // ---------------------------------------------------------------------------------------

  datatype Action =
    | Create(id: Id, under: Option<Id>)
    | Add(dep: Dep)
    | Remove(edge: Edge)
    | UndoAdd(issue: Id, value: string)
    | UndoRemove(issue: Id, value: string)
    | Reparent(child: Id, parent: Id)
    | UndoReparent(child: Id, oldParent: Option<Id>)
    | ImportAll(records: seq<IssueRecord>, deps: seq<Dep>, merge: bool)

  /** `create_issue`, as far as the graphs see it. */
  ghost function CreateIssue(st: State, id: Id, parent: Option<Id>): (State, Reply)
  {
    if id in st.issues then (st, Err(Duplicate))
    else if parent.Some? && parent.value !in st.issues then (st, Err(NoSuchParent))
    else (st.(issues := st.issues + {id}, parents := st.parents[id := parent]), Ok(true))
  }

  ghost function Apply(st: State, a: Action): (State, Reply)
  {
    match a
    case Create(id, parent) => CreateIssue(st, id, parent)
    case Add(dep) => AddDep(st, dep)
    case Remove(edge) => RemoveDep(st, edge)
    case UndoAdd(issue, value) => UndoAdded(st, issue, value)
    case UndoRemove(issue, value) => UndoRemoved(st, issue, value)
    case Reparent(child, parent) => SetParent(st, child, parent)
    case UndoReparent(child, oldParent) => UndoParent(st, child, oldParent)
    case ImportAll(records, deps, merge) => Import(st, records, deps, merge)
  }

  ghost function ApplyAll(st: State, actions: seq<Action>): State
  {
    if actions == [] then st else Apply(ApplyAll(st, actions[..|actions| - 1]), actions[|actions| - 1]).0
  }

  // ---------------------------------------------------------------------------------------
  // Every answer, and what it leaves
  // ---------------------------------------------------------------------------------------

  ghost predicate HasRow(deps: seq<Dep>, e: Edge)
  {
    exists d | d in deps :: d.edge == e
  }

  /** Of an unvalidated insert: a row that is there, a missing end, or the new row. */
  lemma PutReplies(st: State, d: Dep, ignore: bool)
    ensures var (st', r) := Put(st, d, ignore);
      && (r == Ok(false) <==> HasRow(st.deps, d.edge) && ignore)
      && (r == Err(Duplicate) <==> HasRow(st.deps, d.edge) && !ignore)
      && (r == Err(ForeignKey) <==> !HasRow(st.deps, d.edge) && (d.edge.src !in st.issues || d.edge.dst !in st.issues))
      && (r == Ok(true) <==> !HasRow(st.deps, d.edge) && d.edge.src in st.issues && d.edge.dst in st.issues)
      && st' == if r == Ok(true) then st.(deps := st.deps + [d]) else st
  {
  }

  /** Of a validated insert: a missing end comes first, then a dependency on itself, then a cycle. */
  lemma AddDepReplies(st: State, d: Dep)
    requires Valid(st)
    ensures var (st', r) := AddDep(st, d);
      var (a, b) := (d.edge.src, d.edge.dst);
      && (r == Err(NotFound) <==> a !in st.issues || b !in st.issues)
      && (r == Err(SelfDependency) <==> a in st.issues && a == b)
      && (r == Err(Cycle) <==>
            a in st.issues && b in st.issues && a != b && Reaches(EdgesOf(st.deps), b, a))
      && (r.Err? ==> r.error.NotFound? || r.error.SelfDependency? || r.error.Cycle?)
      && (r.Ok? ==> r.value == !HasRow(st.deps, d.edge))
      && st' == if r == Ok(true) then st.(deps := st.deps + [d]) else st
  {
    PutReplies(st, d, true);
    hide Put, Reaches, HasRow;
  }

  /** Of a removal: it is a no-op without the row, and takes that row only. */
  lemma RemoveDepReplies(st: State, e: Edge)
    ensures var (st', r) := RemoveDep(st, e);
      && (r == Err(NotFound) <==> e.src !in st.issues || e.dst !in st.issues)
      && (r.Err? ==> r.error.NotFound?)
      && (r.Ok? ==> r.value == HasRow(st.deps, e))
      && (r != Ok(true) ==> st' == st)
      && (r == Ok(true) ==>
            && st'.issues == st.issues && st'.parents == st.parents
            && forall d :: d in st'.deps <==> d in st.deps && d.edge != e)
  {
  }

  /** Undo of an addition always succeeds and takes the row its event's value names, if it is there. */
  lemma UndoAddedTakes(st: State, issue: Id, kind: string, target: Id, value: string)
    requires Targets(value, kind, target)
    ensures var (st', r) := UndoAdded(st, issue, value);
      && r == Ok(true) && st'.issues == st.issues && st'.parents == st.parents
      && forall d :: d in st'.deps <==> d in st.deps && d.edge != Edge(issue, target)
  {
    TargetIsRead(value, kind, target);
  }

  /** Of restoring a removed dependency, whose text names the kind, or else stands for `blocks`. */
  lemma UndoRemovedReplies(st: State, issue: Id, kind: string, target: Id, value: string)
    requires Targets(value, kind, target)
    ensures var (st', r) := UndoRemoved(st, issue, value);
      var e := Edge(issue, target);
      && (r == Err(Cycle) <==> Reaches(EdgesOf(st.deps), target, issue))
      && (r == Err(ForeignKey) <==>
            && !Reaches(EdgesOf(st.deps), target, issue) && !HasRow(st.deps, e)
            && (issue !in st.issues || target !in st.issues))
      && (r.Err? ==> r.error.Cycle? || r.error.ForeignKey?)
      && (r.Ok? ==> r.value && st' == if HasRow(st.deps, e) then st else st.(deps := st.deps + [Dep(e, kind)]))
      && (r.Err? ==> st' == st)
  {
    TargetIsRead(value, kind, target);
    PutReplies(st, Dep(Edge(issue, target), kind), true);
    hide Put, Reaches, HasRow, RSplit;
  }

  /** Of a new parent: an empty one clears the link, and a link that would close a loop is refused. */
  lemma SetParentReplies(st: State, child: Id, parent: Id)
    requires child in st.issues
    ensures var (st', r) := SetParent(st, child, parent);
      var g := ParentGraph(st.parents);
      && (r == Err(SelfParent) <==> parent != "" && parent == child)
      && (r == Err(NoSuchParent) <==> parent != "" && parent !in st.issues)
      && (r == Err(ParentCycle) <==>
            && parent != "" && parent != child && parent in st.issues
            && (Reaches(g, parent, child) || Loops(g, parent)))
      && (r.Err? ==> st' == st && (r.error.SelfParent? || r.error.NoSuchParent? || r.error.ParentCycle?))
      && (r.Ok? ==>
            && r.value
            && st' == st.(parents := st.parents[child := if parent == "" then None else Some(parent)]))
  {
    hide Reaches, Loops, ParentGraph;
  }

  /** Undo puts a parent back under the same conditions, and reads an absent one as none. */
  lemma UndoParentReplies(st: State, child: Id, was: Option<Id>)
    requires child in st.issues
    ensures var (st', r) := UndoParent(st, child, was);
      var g := ParentGraph(st.parents);
      && (was == None || was == Some("") ==> (st', r) == (st.(parents := st.parents[child := None]), Ok(true)))
      && (was.Some? && was.value != "" ==>
            && (r == Err(NoSuchParent) <==> was.value !in st.issues)
            && (r == Err(ParentCycle) <==>
                  was.value in st.issues && (Reaches(g, was.value, child) || Loops(g, was.value)))
            && (r.Err? ==> st' == st && (r.error.NoSuchParent? || r.error.ParentCycle?))
            && (r.Ok? ==> r.value && st' == st.(parents := st.parents[child := was])))
  {
    hide Reaches, Loops, ParentGraph;
  }

  lemma CreateReplies(st: State, id: Id, parent: Option<Id>)
    ensures var (st', r) := CreateIssue(st, id, parent);
      && (r == Err(Duplicate) <==> id in st.issues)
      && (r == Err(NoSuchParent) <==> id !in st.issues && parent.Some? && parent.value !in st.issues)
      && (r.Err? ==> st' == st && (r.error.Duplicate? || r.error.NoSuchParent?))
      && (r.Ok? ==> r.value && st' == State(st.issues + {id}, st.deps, st.parents[id := parent]))
  {
  }

  /** An edge goes in exactly when it closes no cycle: an accepted one keeps the graph acyclic, and one
      refused for a cycle would have closed it. */
  lemma CheckedPutIsSound(st: State, d: Dep, ignore: bool)
    requires Sound(st)
    ensures d.edge !in EdgesOf(st.deps) && d.edge.src in st.issues && d.edge.dst in st.issues ==>
      (Sound(Put(st, d, ignore).0) <==> !Reaches(EdgesOf(st.deps), d.edge.dst, d.edge.src))
    ensures !Reaches(EdgesOf(st.deps), d.edge.dst, d.edge.src) ==> Sound(Put(st, d, ignore).0)
  {
    assert EdgesOf(st.deps + [d]) == EdgesOf(st.deps) + {d.edge};
    InsertKeepsAcyclicIff(EdgesOf(st.deps), d.edge.src, d.edge.dst);
  }

  /** What `add_dependency` answers on an acyclic graph, and what that means for the graph. */
  lemma AddDepIsExact(st: State, d: Dep)
    requires Sound(st) && d.edge.src in st.issues && d.edge.dst in st.issues
    ensures var (st', r) := AddDep(st, d);
      && Sound(st')
      && (r.Err? <==> !Acyclic(EdgesOf(st.deps) + {d.edge}))
      && (r.Ok? ==> EdgesOf(st'.deps) == EdgesOf(st.deps) + {d.edge})
  {
    InsertKeepsAcyclicIff(EdgesOf(st.deps), d.edge.src, d.edge.dst);
    ReachesSelf(EdgesOf(st.deps), d.edge.src);
    CheckedPutIsSound(st, d, true);
    assert EdgesOf(st.deps + [d]) == EdgesOf(st.deps) + {d.edge};
    assert d.edge in EdgesOf(st.deps) ==> EdgesOf(st.deps) + {d.edge} == EdgesOf(st.deps);
  }

  /** Restoring a removed edge never closes a cycle, and is refused only when it would. */
  lemma UndoRemovedIsExact(st: State, issue: Id, value: string)
    requires Sound(st)
    ensures var (st', r) := UndoRemoved(st, issue, value);
      var e := Edge(issue, ParseDepValue(value).1);
      Sound(st') && (r == Err(Cycle) <==> !Acyclic(EdgesOf(st.deps) + {e}))
  {
    var (kind, target) := ParseDepValue(value);
    InsertKeepsAcyclicIff(EdgesOf(st.deps), issue, target);
    CheckedPutIsSound(st, Dep(Edge(issue, target), kind), true);
  }

  /** Removing an edge and undoing the removal restores the edge and its kind, at any later point where it
      closes no cycle. */
  lemma RemoveThenUndo(st: State, d: Dep)
    requires Sound(st) && d in st.deps && ':' !in d.edge.dst
    ensures var st1 := RemoveDep(st, d.edge).0;
      var (st2, r) := UndoRemoved(st1, d.edge.src, DepValue(d.kind, d.edge.dst));
      && r == Ok(true) && d !in st1.deps && d in st2.deps && (forall x :: x in st2.deps <==> x in st.deps)
  {
    DepValueRoundTrips(d.kind, d.edge.dst);
    var st1 := RemoveDep(st, d.edge).0;
    assert EdgesOf(st1.deps) <= EdgesOf(st.deps);
    if Reaches(EdgesOf(st1.deps), d.edge.dst, d.edge.src) {
      ReachesMore(EdgesOf(st1.deps), EdgesOf(st.deps), d.edge.dst, d.edge.src);
    }
  }

  lemma RemoveIsSound(st: State, e: Edge)
    requires Sound(st)
    ensures Sound(st.(deps := WithoutEdge(st.deps, e)))
  {
    FewerEdgesStayAcyclic(EdgesOf(st.deps), EdgesOf(WithoutEdge(st.deps, e)));
  }

  lemma ClearParentIsSound(st: State, child: Id)
    requires Sound(st) && child in st.issues
    ensures Sound(st.(parents := st.parents[child := None]))
  {
    FewerEdgesStayAcyclic(ParentGraph(st.parents), ParentGraph(st.parents[child := None]));
  }

  lemma LinkParentIsSound(st: State, child: Id, parent: Id)
    requires Sound(st) && child in st.issues && parent in st.issues
    ensures Sound(st.(parents := st.parents[child := Some(parent)])) <==> !ParentLoops(st.parents, child, parent)
  {
    SetParentKeepsAcyclicIff(st.parents, child, parent);
    AcyclicHasNoLoops(ParentGraph(st.parents), parent);
  }

  lemma AcyclicHasNoLoops(g: Graph, a: Id)
    requires Acyclic(g)
    ensures !Loops(g, a)
  {
    forall x, y | Edge(x, y) in g ensures !Reaches(g, y, x) {
      assert !Reaches(g, Edge(x, y).dst, Edge(x, y).src);
    }
  }

  lemma NeverEntered(g: Graph, a: Id, b: Id)
    requires a != b && forall e | e in g :: e.dst != b
    ensures !Reaches(g, a, b)
  {
    forall p | Walk(g, p) && p[0] == a ensures p[|p| - 1] != b {
      if |p| > 1 {
        assert Edge(p[|p| - 2], p[|p| - 2 + 1]) in g;
      }
    }
  }

  lemma CreateIsSound(st: State, id: Id, parent: Option<Id>)
    requires Sound(st) && id !in st.issues && (parent.Some? ==> parent.value in st.issues)
    ensures Sound(CreateIssue(st, id, parent).0)
  {
    var g, bare := ParentGraph(st.parents), st.parents[id := None];
    forall e ensures e in ParentGraph(bare) <==> e in g {
      assert e in ParentGraph(bare) <==> e.src in bare && bare[e.src] == Some(e.dst);
      assert e in g <==> e.src in st.parents && st.parents[e.src] == Some(e.dst);
    }
    assert ParentGraph(bare) == g;
    if parent.Some? {
      var p := parent.value;
      NeverEntered(g, p, id);
      SetParentKeepsAcyclicIff(bare, id, p);
      assert bare[id := parent] == st.parents[id := parent];
    }
  }

  lemma {:induction false} InsertIssuesIsSound(g: Stage, records: seq<IssueRecord>, merge: bool)
    requires Sound(g.st) && forall l | l in g.links :: l.id in g.st.issues
    ensures var r := InsertIssues(g, records, merge);
      r.Ok? ==> Sound(r.value.st) && forall l | l in r.value.links :: l.id in r.value.st.issues
    decreases records
  {
    if records != [] {
      var x := records[0];
      if x.id in g.st.issues {
        InsertIssuesIsSound(g, records[1..], merge);
      } else {
        CreateIsSound(g.st, x.id, None);
        var st' := g.st.(issues := g.st.issues + {x.id}, parents := g.st.parents[x.id := None]);
        InsertIssuesIsSound(Stage(st', if x.parent != "" then g.links + [x] else g.links), records[1..], merge);
      }
    }
  }

  lemma {:induction false} LinkParentsIsSound(st: State, links: seq<IssueRecord>)
    requires Sound(st) && forall l | l in links :: l.id in st.issues
    ensures var r := LinkParents(st, links); r.Ok? ==> Sound(r.value)
    decreases links
  {
    if links != [] && links[0].parent in st.issues && !ParentLoops(st.parents, links[0].id, links[0].parent) {
      assert links[0] in links;
      LinkParentIsSound(st, links[0].id, links[0].parent);
      LinkParentsIsSound(st.(parents := st.parents[links[0].id := Some(links[0].parent)]), links[1..]);
    }
  }

  lemma {:induction false} InsertDepsIsSound(st: State, deps: seq<Dep>, merge: bool)
    requires Sound(st)
    ensures var r := InsertDeps(st, deps, merge); r.Ok? ==> Sound(r.value)
    decreases deps
  {
    if deps != [] && EdgeRefusal(st, deps[0].edge, false).None? {
      CheckedPutIsSound(st, deps[0], merge);
      InsertDepsIsSound(Put(st, deps[0], merge).0, deps[1..], merge);
    }
  }

  lemma ImportIsSound(st: State, records: seq<IssueRecord>, deps: seq<Dep>, merge: bool)
    requires Sound(st)
    ensures Sound(Import(st, records, deps, merge).0)
  {
    hide Sound;
    InsertIssuesIsSound(Stage(st, []), records, merge);
    var g := InsertIssues(Stage(st, []), records, merge);
    if g.Ok? {
      LinkParentsIsSound(g.value.st, g.value.links);
      var st1 := LinkParents(g.value.st, g.value.links);
      if st1.Ok? {
        InsertDepsIsSound(st1.value, deps, merge);
      }
    }
  }

  lemma ApplyIsSound(st: State, a: Action)
    requires Sound(st)
    ensures Sound(Apply(st, a).0)
  {
    match a
    case Create(id, parent) =>
      if id !in st.issues && (parent.Some? ==> parent.value in st.issues) {
        CreateIsSound(st, id, parent);
      }
    case Add(dep) => CheckedPutIsSound(st, dep, true);
    case Remove(edge) => RemoveIsSound(st, edge);
    case UndoAdd(issue, value) => RemoveIsSound(st, Edge(issue, ParseDepValue(value).1));
    case UndoRemove(issue, value) => UndoRemovedIsExact(st, issue, value);
    case Reparent(child, parent) =>
      if child in st.issues {
        ClearParentIsSound(st, child);
        if parent in st.issues {
          LinkParentIsSound(st, child, parent);
        }
      }
    case UndoReparent(child, oldParent) =>
      if child in st.issues {
        ClearParentIsSound(st, child);
        if oldParent.Some? && oldParent.value in st.issues {
          LinkParentIsSound(st, child, oldParent.value);
        }
      }
    case ImportAll(records, deps, merge) => ImportIsSound(st, records, deps, merge);
  }

  /** Every run of creations, validated inserts, imports, removals, reparents and undos keeps both graphs acyclic. */
  lemma {:induction false} RunsStayAcyclic(actions: seq<Action>)
    ensures Sound(ApplyAll(State({}, [], map[]), actions))
  {
    if actions != [] {
      RunsStayAcyclic(actions[..|actions| - 1]);
      ApplyIsSound(ApplyAll(State({}, [], map[]), actions[..|actions| - 1]), actions[|actions| - 1]);
    }
  }

  // ---------------------------------------------------------------------------------------
  // When an import succeeds, and what it leaves
  // ---------------------------------------------------------------------------------------

  ghost function Ids(records: seq<IssueRecord>): set<Id>
  {
    set r | r in records :: r.id
  }

  /** No record names an issue that is there, or one of an earlier record. */
  ghost predicate NewIds(issues: set<Id>, records: seq<IssueRecord>)
  {
    forall i | 0 <= i < |records| ::
      records[i].id !in issues && forall j | 0 <= j < i :: records[j].id != records[i].id
  }

  /** The same of dependency rows. */
  ghost predicate NewEdges(g: Graph, deps: seq<Dep>)
  {
    forall i | 0 <= i < |deps| :: deps[i].edge !in g && forall j | 0 <= j < i :: deps[j].edge != deps[i].edge
  }

  /** The parent the issue's first record gives it. */
  ghost function GivenParent(records: seq<IssueRecord>, id: Id): Option<Id>
  {
    if records == [] then None
    else if records[0].id != id then GivenParent(records[1..], id)
    else if records[0].parent == "" then None else Some(records[0].parent)
  }

  /** Issues that are there keep their parents; new ones get the one given. */
  ghost function ImportedParents(st: State, records: seq<IssueRecord>): Parents
    requires st.parents.Keys == st.issues
  {
    map id | id in st.issues + Ids(records) :: if id in st.issues then st.parents[id] else GivenParent(records, id)
  }

  ghost predicate ParentsPresent(parents: Parents, issues: set<Id>)
  {
    forall id | id in parents && parents[id].Some? :: parents[id].value in issues
  }

  /** The records whose parent links are to be set, in order. */
  ghost function Links(issues: set<Id>, records: seq<IssueRecord>): seq<IssueRecord>
    decreases records
  {
    if records == [] then []
    else
      var r := records[0];
      if r.id in issues then Links(issues, records[1..])
      else (if r.parent != "" then [r] else []) + Links(issues + {r.id}, records[1..])
  }

  ghost function Linked(parents: Parents, links: seq<IssueRecord>): Parents
    decreases links
  {
    if links == [] then parents else Linked(parents[links[0].id := Some(links[0].parent)], links[1..])
  }

  /** The records set links that are not there, no two of them the same. */
  ghost predicate Unlinked(parents: Parents, links: seq<IssueRecord>)
  {
    forall i | 0 <= i < |links| ::
      && links[i].id in parents && parents[links[i].id] == None
      && forall j | 0 <= j < i :: links[j].id != links[i].id
  }

  /** `st1` is the store behind the issue stage. */
  ghost predicate IssuesInserted(st: State, st1: State, records: seq<IssueRecord>)
  {
    && Valid(st) && st1.issues == st.issues + Ids(records) && st1.parents.Keys == st1.issues
    && forall id | id in st1.issues :: st1.parents[id] == if id in st.issues then st.parents[id] else None
  }

  lemma IdsSplit(records: seq<IssueRecord>)
    requires records != []
    ensures Ids(records) == {records[0].id} + Ids(records[1..])
  {
    assert records == [records[0]] + records[1..];
  }

  lemma NewIdsSplit(issues: set<Id>, records: seq<IssueRecord>)
    requires records != []
    ensures NewIds(issues, records) <==> records[0].id !in issues && NewIds(issues + {records[0].id}, records[1..])
  {
    var rest := records[1..];
    if records[0].id !in issues && NewIds(issues + {records[0].id}, rest) {
      forall i | 0 <= i < |records|
        ensures records[i].id !in issues && forall j | 0 <= j < i :: records[j].id != records[i].id
      {
        if i > 0 {
          assert rest[i - 1] == records[i] && forall j | 0 < j < i :: records[j] == rest[j - 1];
        }
      }
    }
  }

  lemma {:induction false} InsertIssuesIff(g: Stage, records: seq<IssueRecord>, merge: bool)
    ensures var r := InsertIssues(g, records, merge);
      (r.Ok? <==> merge || NewIds(g.st.issues, records)) && (r.Err? ==> r.error.Duplicate?)
    decreases records
  {
    if records != [] {
      var x := records[0];
      NewIdsSplit(g.st.issues, records);
      hide NewIds;
      if x.id in g.st.issues {
        if merge {
          InsertIssuesIff(g, records[1..], merge);
        }
      } else {
        var st' := g.st.(issues := g.st.issues + {x.id}, parents := g.st.parents[x.id := None]);
        InsertIssuesIff(Stage(st', if x.parent != "" then g.links + [x] else g.links), records[1..], merge);
      }
    }
  }

  /** What one record does to the stage. */
  ghost function Inserted(g: Stage, x: IssueRecord): Stage
  {
    if x.id in g.st.issues then g
    else
      var st' := g.st.(issues := g.st.issues + {x.id}, parents := g.st.parents[x.id := None]);
      Stage(st', if x.parent != "" then g.links + [x] else g.links)
  }

  lemma InsertNext(g: Stage, records: seq<IssueRecord>, merge: bool)
    requires records != [] && InsertIssues(g, records, merge).Ok?
    ensures InsertIssues(g, records, merge) == InsertIssues(Inserted(g, records[0]), records[1..], merge)
  {
  }

  lemma LinksNext(g: Stage, records: seq<IssueRecord>)
    requires records != []
    ensures var g' := Inserted(g, records[0]);
      g.links + Links(g.st.issues, records) == g'.links + Links(g'.st.issues, records[1..])
  {
    var x := records[0];
    if x.id !in g.st.issues {
      var more := Links(g.st.issues + {x.id}, records[1..]);
      if x.parent != "" {
        assert Links(g.st.issues, records) == [x] + more;
        hide Links;
        assert g.links + ([x] + more) == g.links + [x] + more;
      } else {
        assert Links(g.st.issues, records) == [] + more;
        hide Links;
        assert [] + more == more;
      }
    }
  }

  lemma {:induction false} InsertIssuesLinks(g: Stage, records: seq<IssueRecord>, merge: bool)
    requires InsertIssues(g, records, merge).Ok?
    ensures InsertIssues(g, records, merge).value.links == g.links + Links(g.st.issues, records)
    decreases records
  {
    if records != [] {
      InsertNext(g, records, merge);
      LinksNext(g, records);
      hide InsertIssues, Links, Inserted;
      InsertIssuesLinks(Inserted(g, records[0]), records[1..], merge);
    }
  }

  lemma {:induction false} InsertIssuesLeaves(g: Stage, records: seq<IssueRecord>, merge: bool)
    requires Valid(g.st) && InsertIssues(g, records, merge).Ok?
    ensures var st' := InsertIssues(g, records, merge).value.st;
      IssuesInserted(g.st, st', records) && st'.deps == g.st.deps
    decreases records
  {
    if records != [] {
      var g' := Inserted(g, records[0]);
      InsertNext(g, records, merge);
      IdsSplit(records);
      assert Valid(g'.st) && g'.st.deps == g.st.deps;
      hide Valid, InsertIssues, Ids;
      InsertIssuesLeaves(g', records[1..], merge);
    }
  }

  /** The links give each new issue the parent of its first record, and no issue two. */
  lemma {:induction false} LinksGive(issues: set<Id>, records: seq<IssueRecord>)
    ensures forall l | l in Links(issues, records) ::
      l.id !in issues && l.id in Ids(records) && GivenParent(records, l.id) == Some(l.parent)
    ensures forall i, j | 0 <= i < j < |Links(issues, records)| ::
      Links(issues, records)[i].id != Links(issues, records)[j].id
    decreases records
  {
    if records != [] {
      var x, rest := records[0], records[1..];
      IdsSplit(records);
      hide Ids;
      if x.id in issues {
        LinksGive(issues, rest);
      } else {
        LinksGive(issues + {x.id}, rest);
        var links, more := Links(issues, records), Links(issues + {x.id}, rest);
        assert links == (if x.parent != "" then [x] else []) + more;
        forall i, j | 0 <= i < j < |links| ensures links[i].id != links[j].id {
          assert x.parent != "" ==> links[0] == x && links[j] in more;
        }
      }
    }
  }

  lemma {:induction false} LinksMeet(issues: set<Id>, records: seq<IssueRecord>, id: Id)
    requires id !in issues && GivenParent(records, id).Some?
    ensures exists l | l in Links(issues, records) :: l.id == id
    decreases records
  {
    var x, rest := records[0], records[1..];
    if x.id == id {
      assert x in Links(issues, records);
    } else {
      var issues' := if x.id in issues then issues else issues + {x.id};
      LinksMeet(issues', rest, id);
      assert forall l | l in Links(issues', rest) :: l in Links(issues, records);
    }
  }

  lemma {:induction false} LinkedAt(parents: Parents, links: seq<IssueRecord>, id: Id)
    requires Unlinked(parents, links)
    ensures Linked(parents, links).Keys == parents.Keys
    ensures id in parents && (forall l | l in links :: l.id != id) ==> Linked(parents, links)[id] == parents[id]
    ensures forall l | l in links && l.id == id :: Linked(parents, links)[id] == Some(l.parent)
    decreases links
  {
    if links != [] {
      var x, rest := links[0], links[1..];
      assert forall i | 0 <= i < |rest| :: rest[i] == links[i + 1];
      assert forall l | l in links :: l == x || l in rest;
      LinkedAt(parents[x.id := Some(x.parent)], rest, id);
    }
  }

  lemma LinkedGrows(parents: Parents, links: seq<IssueRecord>)
    requires Unlinked(parents, links)
    ensures ParentGraph(parents) <= ParentGraph(Linked(parents, links))
  {
    forall e | e in ParentGraph(parents) ensures e in ParentGraph(Linked(parents, links)) {
      LinkedAt(parents, links, e.src);
      assert parents[e.src] == Some(e.dst);
    }
  }

  lemma StillUnlinked(parents: Parents, links: seq<IssueRecord>)
    requires links != [] && Unlinked(parents, links)
    ensures Unlinked(parents[links[0].id := Some(links[0].parent)], links[1..])
  {
    assert forall i | 0 <= i < |links[1..]| :: links[1..][i] == links[i + 1];
  }

  /** The links are all set exactly when every parent is there and the links together close no loop. */
  lemma {:induction false} LinkParentsIff(st: State, links: seq<IssueRecord>)
    requires Sound(st) && Unlinked(st.parents, links)
    ensures var r := LinkParents(st, links);
      && (r.Ok? <==>
            (forall l | l in links :: l.parent in st.issues) && Acyclic(ParentGraph(Linked(st.parents, links))))
      && (r.Ok? ==> r.value == st.(parents := Linked(st.parents, links)))
    decreases links
  {
    if links != [] {
      var x, rest := links[0], links[1..];
      assert links == [x] + rest;
      if x.parent in st.issues {
        var st1 := st.(parents := st.parents[x.id := Some(x.parent)]);
        LinkParentIsSound(st, x.id, x.parent);
        ReachesSelf(ParentGraph(st.parents), x.id);
        StillUnlinked(st.parents, links);
        if ParentLoops(st.parents, x.id, x.parent) {
          hide Unlinked;
          LinkedGrows(st1.parents, rest);
          hide ParentGraph;
          if Acyclic(ParentGraph(Linked(st1.parents, rest))) {
            FewerEdgesStayAcyclic(ParentGraph(Linked(st1.parents, rest)), ParentGraph(st1.parents));
          }
        } else {
          hide Unlinked, Sound, ParentGraph, ParentLoops;
          LinkParentsIff(st1, rest);
        }
      }
    }
  }

  lemma NewEdgesSplit(g: Graph, deps: seq<Dep>)
    requires deps != []
    ensures NewEdges(g, deps) <==> deps[0].edge !in g && NewEdges(g + {deps[0].edge}, deps[1..])
  {
    var rest := deps[1..];
    if deps[0].edge !in g && NewEdges(g + {deps[0].edge}, rest) {
      forall i | 0 <= i < |deps|
        ensures deps[i].edge !in g && forall j | 0 <= j < i :: deps[j].edge != deps[i].edge
      {
        if i > 0 {
          assert rest[i - 1] == deps[i] && forall j | 0 < j < i :: deps[j] == rest[j - 1];
        }
      }
    }
  }

  lemma EdgesSplit(g: Graph, deps: seq<Dep>)
    requires deps != []
    ensures g + EdgesOf(deps) == g + {deps[0].edge} + EdgesOf(deps[1..])
  {
    assert deps == [deps[0]] + deps[1..];
  }

  lemma CycleStays(g: Graph, e: Edge, more: Graph)
    requires Acyclic(g) && Reaches(g, e.dst, e.src)
    ensures !Acyclic(g + {e} + more)
  {
    InsertKeepsAcyclicIff(g, e.src, e.dst);
    if Acyclic(g + {e} + more) {
      FewerEdgesStayAcyclic(g + {e} + more, g + {e});
    }
  }

  ghost predicate Insertable(st: State, d: Dep, merge: bool)
  {
    EdgeRefusal(st, d.edge, false).None? && Put(st, d, merge).1.Ok?
  }

  lemma InsertableIff(st: State, d: Dep, merge: bool)
    requires Sound(st)
    ensures Insertable(st, d, merge) <==>
      && (merge || d.edge !in EdgesOf(st.deps)) && d.edge.src in st.issues && d.edge.dst in st.issues
      && !Reaches(EdgesOf(st.deps), d.edge.dst, d.edge.src)
    ensures Insertable(st, d, merge) ==>
      var st' := Put(st, d, merge).0;
      Sound(st') && st'.issues == st.issues && EdgesOf(st'.deps) == EdgesOf(st.deps) + {d.edge}
  {
    ReachesSelf(EdgesOf(st.deps), d.edge.src);
    CheckedPutIsSound(st, d, merge);
    PutReplies(st, d, merge);
    RowHasEdge(st.deps, d.edge);
    if Insertable(st, d, merge) {
      PutAdds(st, d, merge);
    }
    hide Reaches, EdgesOf, Acyclic;
  }

  /** The rows are all inserted exactly when both ends of each are there, no row is one already there unless that is
      ignored, and together they close no cycle. */
  lemma {:induction false} InsertDepsIff(st: State, deps: seq<Dep>, merge: bool)
    requires Sound(st)
    ensures InsertDeps(st, deps, merge).Ok? <==>
      && (merge || NewEdges(EdgesOf(st.deps), deps))
      && (forall d | d in deps :: d.edge.src in st.issues && d.edge.dst in st.issues)
      && Acyclic(EdgesOf(st.deps) + EdgesOf(deps))
    decreases deps
  {
    if deps == [] {
      assert EdgesOf(st.deps) + EdgesOf(deps) == EdgesOf(st.deps);
    } else {
      var d, rest := deps[0], deps[1..];
      assert deps == [d] + rest;
      NewEdgesSplit(EdgesOf(st.deps), deps);
      EdgesSplit(EdgesOf(st.deps), deps);
      InsertableIff(st, d, merge);
      if Reaches(EdgesOf(st.deps), d.edge.dst, d.edge.src) {
        CycleStays(EdgesOf(st.deps), d.edge, EdgesOf(rest));
      }
      hide Reaches, Acyclic, NewEdges, EdgesOf, Sound;
      if Insertable(st, d, merge) {
        hide Put;
        InsertDepsIff(Put(st, d, merge).0, rest, merge);
      }
    }
  }

  lemma {:induction false} InsertDepsLeaves(st: State, deps: seq<Dep>, merge: bool)
    requires InsertDeps(st, deps, merge).Ok?
    ensures var st' := InsertDeps(st, deps, merge).value;
      && st'.issues == st.issues && st'.parents == st.parents && st.deps <= st'.deps
      && EdgesOf(st'.deps) == EdgesOf(st.deps) + EdgesOf(deps)
      && forall d | d in st'.deps :: d in st.deps || d in deps
    decreases deps
  {
    if deps == [] {
      assert EdgesOf(st.deps) + EdgesOf(deps) == EdgesOf(st.deps);
    } else {
      EdgesSplit(EdgesOf(st.deps), deps);
      PutAdds(st, deps[0], merge);
      assert deps == [deps[0]] + deps[1..];
      hide Reaches, EdgesOf, Put;
      InsertDepsLeaves(Put(st, deps[0], merge).0, deps[1..], merge);
    }
  }

  lemma RowHasEdge(deps: seq<Dep>, e: Edge)
    ensures HasRow(deps, e) <==> e in EdgesOf(deps)
  {
  }

  lemma PutAdds(st: State, d: Dep, ignore: bool)
    requires Put(st, d, ignore).1.Ok?
    ensures var st' := Put(st, d, ignore).0;
      && st'.issues == st.issues && st'.parents == st.parents && st.deps <= st'.deps
      && EdgesOf(st'.deps) == EdgesOf(st.deps) + {d.edge}
      && (Valid(st) ==> d.edge.src in st.issues && d.edge.dst in st.issues)
      && forall x | x in st'.deps :: x in st.deps || x == d
  {
    assert EdgesOf(st.deps + [d]) == EdgesOf(st.deps) + {d.edge};
    assert d.edge in EdgesOf(st.deps) ==> EdgesOf(st.deps) + {d.edge} == EdgesOf(st.deps);
  }

  /** An import succeeds exactly when, looked at as a whole, nothing is there twice or that is to be merged, every
      parent and both ends of every dependency are there, and neither the parents nor the dependencies close a loop.
      It then leaves just that; otherwise it leaves the store as it was. */
  lemma ImportSucceedsIff(st: State, records: seq<IssueRecord>, deps: seq<Dep>, merge: bool)
    requires Sound(st)
    ensures var (st', r) := Import(st, records, deps, merge);
      var (issues, parents) := (st.issues + Ids(records), ImportedParents(st, records));
      && (r.Ok? <==>
            && (merge || (NewIds(st.issues, records) && NewEdges(EdgesOf(st.deps), deps)))
            && ParentsPresent(parents, issues)
            && (forall d | d in deps :: d.edge.src in issues && d.edge.dst in issues)
            && Acyclic(ParentGraph(parents)) && Acyclic(EdgesOf(st.deps) + EdgesOf(deps)))
      && (r.Err? ==> st' == st)
      && (r.Ok? ==>
            && r.value && st'.issues == issues && st'.parents == parents && st.deps <= st'.deps
            && EdgesOf(st'.deps) == EdgesOf(st.deps) + EdgesOf(deps)
            && forall d | d in st'.deps :: d in st.deps || d in deps)
  {
    InsertIssuesIff(Stage(st, []), records, merge);
    var g := InsertIssues(Stage(st, []), records, merge);
    if g.Ok? {
      InsertIssuesLinks(Stage(st, []), records, merge);
      InsertIssuesLeaves(Stage(st, []), records, merge);
      InsertIssuesIsSound(Stage(st, []), records, merge);
      assert g.value.links == Links(st.issues, records);
      LinksAreUnset(st, g.value.st, records);
      LinkedIsImported(st, g.value.st, records);
      ParentsArePresent(st, g.value.st, records);
      hide Acyclic, ParentGraph, Sound, Valid, EdgesOf, ImportedParents, NewIds, NewEdges, Ids, InsertIssues,
        LinkParents, InsertDeps, Links, Linked, Unlinked, IssuesInserted, ParentsPresent;
      LinkAndInsertIff(g.value.st, g.value.links, deps, merge);
    }
  }

  /** The two stages behind the issues. */
  lemma LinkAndInsertIff(st: State, links: seq<IssueRecord>, deps: seq<Dep>, merge: bool)
    requires Sound(st) && Unlinked(st.parents, links)
    ensures var st1 := LinkParents(st, links);
      var st2 := if st1.Err? then st1 else InsertDeps(st1.value, deps, merge);
      && (st2.Ok? <==>
            && (merge || NewEdges(EdgesOf(st.deps), deps))
            && (forall l | l in links :: l.parent in st.issues)
            && (forall d | d in deps :: d.edge.src in st.issues && d.edge.dst in st.issues)
            && Acyclic(ParentGraph(Linked(st.parents, links))) && Acyclic(EdgesOf(st.deps) + EdgesOf(deps)))
      && (st2.Ok? ==>
            && st2.value.issues == st.issues && st2.value.parents == Linked(st.parents, links)
            && st.deps <= st2.value.deps && EdgesOf(st2.value.deps) == EdgesOf(st.deps) + EdgesOf(deps)
            && forall d | d in st2.value.deps :: d in st.deps || d in deps)
  {
    LinkParentsIff(st, links);
    assert forall l | l in links :: l.id in st.issues;
    LinkParentsIsSound(st, links);
    hide Acyclic, ParentGraph, Sound, EdgesOf, NewEdges, LinkParents, InsertDeps, Linked, Unlinked;
    if LinkParents(st, links).Ok? {
      InsertDepsIff(LinkParents(st, links).value, deps, merge);
      if InsertDeps(LinkParents(st, links).value, deps, merge).Ok? {
        InsertDepsLeaves(LinkParents(st, links).value, deps, merge);
      }
    }
  }

  lemma LinksAreUnset(st: State, st1: State, records: seq<IssueRecord>)
    requires IssuesInserted(st, st1, records)
    ensures Unlinked(st1.parents, Links(st.issues, records))
  {
    var links := Links(st.issues, records);
    LinksGive(st.issues, records);
    hide Links, Ids, GivenParent, Valid;
    forall i | 0 <= i < |links|
      ensures links[i].id in st1.parents && st1.parents[links[i].id] == None
    {
      assert links[i] in links;
    }
  }

  lemma ImportedAt(st: State, st1: State, records: seq<IssueRecord>, id: Id)
    requires IssuesInserted(st, st1, records) && id in st1.issues
    ensures var linked := Linked(st1.parents, Links(st.issues, records));
      id in linked && linked[id] == if id in st.issues then st.parents[id] else GivenParent(records, id)
  {
    LinksAreUnset(st, st1, records);
    LinksGive(st.issues, records);
    LinkedAt(st1.parents, Links(st.issues, records), id);
    hide Links, Linked, Ids, Unlinked, GivenParent;
    if id !in st.issues && GivenParent(records, id).Some? {
      LinksMeet(st.issues, records, id);
    }
  }

  lemma LinkedIsImported(st: State, st1: State, records: seq<IssueRecord>)
    requires IssuesInserted(st, st1, records)
    ensures Linked(st1.parents, Links(st.issues, records)) == ImportedParents(st, records)
  {
    LinksAreUnset(st, st1, records);
    LinkedAt(st1.parents, Links(st.issues, records), "");
    forall id | id in st1.issues
      ensures var linked := Linked(st1.parents, Links(st.issues, records));
        id in linked && linked[id] == ImportedParents(st, records)[id]
    {
      ImportedAt(st, st1, records, id);
    }
    hide Links, Linked, Ids, Unlinked, GivenParent;
  }

  lemma ParentsArePresent(st: State, st1: State, records: seq<IssueRecord>)
    requires IssuesInserted(st, st1, records)
    ensures ParentsPresent(ImportedParents(st, records), st1.issues) <==>
      forall l | l in Links(st.issues, records) :: l.parent in st1.issues
  {
    var links, parents := Links(st.issues, records), ImportedParents(st, records);
    LinksGive(st.issues, records);
    hide Links, Ids, GivenParent;
    forall l | l in links ensures l.id in parents && parents[l.id] == Some(l.parent) {
    }
    if forall l | l in links :: l.parent in st1.issues {
      forall id | id in parents && parents[id].Some? ensures parents[id].value in st1.issues {
        if id !in st.issues {
          LinksMeet(st.issues, records, id);
        }
      }
    }
  }

  /** A refused parent link is the first one that is refused, for what it finds after those before it. */
  lemma {:induction false} LinkRefusal(st: State, links: seq<IssueRecord>) returns (k: nat)
    requires LinkParents(st, links).Err?
    ensures k < |links| && LinkParents(st, links[..k]).Ok?
    ensures var (st1, x) := (LinkParents(st, links[..k]).value, links[k]);
      var error := LinkParents(st, links).error;
      if x.parent !in st1.issues then error == NoSuchParent
      else if x.parent == x.id then error == SelfParent
      else error == ParentCycle && ParentLoops(st1.parents, x.id, x.parent)
    decreases links
  {
    hide ParentLoops;
    var x := links[0];
    if x.parent !in st.issues || x.parent == x.id || ParentLoops(st.parents, x.id, x.parent) {
      k := 0;
      assert links[..0] == [];
    } else {
      var rest := LinkRefusal(st.(parents := st.parents[x.id := Some(x.parent)]), links[1..]);
      k := rest + 1;
      assert links[..k][0] == x && links[..k][1..] == links[1..][..rest];
    }
  }

  /** So is a refused dependency: on itself, closing a cycle, there already, or without one of its ends. */
  lemma {:induction false} DependencyRefusal(st: State, deps: seq<Dep>, merge: bool) returns (k: nat)
    requires InsertDeps(st, deps, merge).Err?
    ensures k < |deps| && InsertDeps(st, deps[..k], merge).Ok?
    ensures var (st1, e) := (InsertDeps(st, deps[..k], merge).value, deps[k].edge);
      var error := InsertDeps(st, deps, merge).error;
      if e.src == e.dst then error == SelfDependency
      else if Reaches(EdgesOf(st1.deps), e.dst, e.src) then error == Cycle
      else if HasRow(st1.deps, e) then error == Duplicate && !merge
      else error == ForeignKey && (e.src !in st1.issues || e.dst !in st1.issues)
    decreases deps
  {
    hide Reaches, HasRow;
    PutReplies(st, deps[0], merge);
    hide Put;
    if EdgeRefusal(st, deps[0].edge, false).Some? || Put(st, deps[0], merge).1.Err? {
      k := 0;
      assert deps[..0] == [];
    } else {
      var rest := DependencyRefusal(Put(st, deps[0], merge).0, deps[1..], merge);
      k := rest + 1;
      assert deps[..k][0] == deps[0] && deps[..k][1..] == deps[1..][..rest];
    }
  }

  /** An unvalidated bulk insert keeps the graph acyclic exactly when validation would have let it through. */
  lemma UnvalidatedInsertIsSoundIff(st: State, d: Dep)
    requires Sound(st) && d.edge.src in st.issues && d.edge.dst in st.issues
    ensures Sound(Put(st, d, true).0) <==> EdgeRefusal(st, d.edge, true).None?
  {
    CheckedPutIsSound(st, d, true);
    ReachesSelf(EdgesOf(st.deps), d.edge.src);
    if d.edge in EdgesOf(st.deps) {
      assert !Reaches(EdgesOf(st.deps), d.edge.dst, d.edge.src);
    }
  }

  /** Without validation two inserts suffice for a cycle. */
  lemma UnvalidatedInsertCanCycle(a: Id, b: Id)
    requires a != b
    ensures var st0 := State({a, b}, [], map[a := None, b := None]);
      var st1 := Put(st0, Dep(Edge(a, b), "blocks"), true).0;
      Sound(st0) && Sound(st1) && !Sound(Put(st1, Dep(Edge(b, a), "blocks"), true).0)
  {
    var st0 := State({a, b}, [], map[a := None, b := None]);
    var d := Dep(Edge(a, b), "blocks");
    var st1 := Put(st0, d, true).0;
    NeverEntered({}, b, a);
    assert EdgesOf(st0.deps) == {} && ParentGraph(st0.parents) == {};
    CheckedPutIsSound(st0, d, true);
    assert EdgesOf(st1.deps) == {Edge(a, b)};
    assert WalkFromTo({Edge(a, b)}, [a, b], a, b);
    CheckedPutIsSound(st1, Dep(Edge(b, a), "blocks"), true);
  }
}
