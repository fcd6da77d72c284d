/**
 * The three collections the card keeps together: the arena of State
 * records, the canonical registry and the dirty worklist, as one value. Each
 * operation of the card that changes them is a function here, and the
 * lemmas here show that each keeps the graph invariant.
 */
module StateGraphs {
  import opened Wrappers
  import opened Arrangement
  import opened Distance
  import opened InsertionSet
  import opened Graph

  // ---------------------------------------------------------------------
  // The creation of a State as a function of the graph

  /** The arena with the registry and the worklist, as the card holds them. */
  datatype StateGraph = StateGraph(states: seq<Node>, canonical: map<seq<nat>, nat>, dirty: seq<nat>)

  /** The invariant of the card's graph between operations. */
  ghost predicate Consistent(g: Grid, sg: StateGraph)
  {
    match sg
    case StateGraph(st, canon, dirty) => GraphInv(g, st, canon, dirty)
  }

  /** The States are well formed and registered: what State creation and lookup rely on. */
  ghost predicate Indexed(g: Grid, sg: StateGraph)
  {
    match sg
    case StateGraph(st, canon, _) => NodesOk(g, st) && Registry(st, canon)
  }

  /** The invariant while the newest State `n` is back-linked, directions `done` handled. */
  ghost predicate Linking(g: Grid, sg: StateGraph, n: nat, done: set<Dir>)
  {
    match sg
    case StateGraph(st, canon, dirty) => Building(g, st, canon, dirty, n, done)
  }

  /**
   * `_getOrCreateState` is only ever asked for the solved arrangement of an
   * empty registry, or for a neighbour arrangement of a registered State.
   */
  ghost predicate Demanded(g: Grid, st: seq<Node>, arr: seq<nat>)
    requires NodesOk(g, st)
  {
    |st| == 0 || exists p, e :: 0 <= p < |st| && Successor(g, st[p].loc2tile, e) == arr
  }

  /**
   * `new State(...)` followed by `_canonicalStates.set`: a State holding
   * `arr` appended with id `|states|`, registered, and put on the worklist.
   */
  function WithNewState(g: Grid, sg: StateGraph, arr: seq<nat>): (r: StateGraph)
    requires IsArrangement(g, arr)
    ensures |r.states| == |sg.states| + 1 && sg.states <= r.states && Grows(sg.states, r.states)
    ensures r.states[|sg.states|].loc2tile == arr && r.states[|sg.states|].isSolved == (arr == Identity(g.Size()))
    ensures r.states[|sg.states|].dist == Inf && r.states[|sg.states|].known == []
  {
    StateGraph(sg.states + [NewNode(arr, Inverse(arr), arr == Identity(g.Size()))],
               sg.canonical[arr := |sg.states|], Add(sg.dirty, |sg.states|))
  }

  /** Appending and registering a State for a new arrangement keeps the records and the registry well formed. */
  lemma WithNewStateOk(g: Grid, sg: StateGraph, arr: seq<nat>)
    requires NodesOk(g, sg.states) && Registry(sg.states, sg.canonical)
    requires IsArrangement(g, arr) && arr !in sg.canonical
    ensures NodesOk(g, WithNewState(g, sg, arr).states)
    ensures Registry(WithNewState(g, sg, arr).states, WithNewState(g, sg, arr).canonical)
  {
    CreateStartNodes(g, sg.states, sg.canonical, arr);
  }

  /**
   * One block of `_linkExistingSuccessors`: link the new State `n` to its
   * registered neighbour in direction `d`; when that is another State, link
   * it back and put it on the worklist.
   */
  function LinkStep(g: Grid, sg: StateGraph, n: nat, d: Dir): (r: StateGraph)
    requires NodesOk(g, sg.states) && Registry(sg.states, sg.canonical) && n < |sg.states|
    ensures NodesOk(g, r.states) && Registry(r.states, r.canonical)
    ensures r.canonical == sg.canonical && |r.states| == |sg.states| && Grows(sg.states, r.states)
  {
    assert NodeOk(g, sg.states[n]);
    match Lookup(sg.canonical, Successor(g, sg.states[n].loc2tile, d))
    case None => sg
    case Some(j) =>
      if j == n then
        AttachKeepsNodes(g, sg.states, n, d, n);
        AttachKeepsRegistry(sg.states, sg.canonical, n, d, n);
        AttachGrows(sg.states, n, d, n);
        sg.(states := sg.states[n := Attach(sg.states[n], d, n)])
      else
        var st1 := sg.states[n := Attach(sg.states[n], d, j)][j := Attach(sg.states[j], Opposite(d), n)];
        OtherStepNodes(g, sg.states, sg.canonical, n, d, j);
        AttachGrows(sg.states, n, d, j);
        AttachGrows(sg.states[n := Attach(sg.states[n], d, j)], j, Opposite(d), n);
        GrowsTransitive(sg.states, sg.states[n := Attach(sg.states[n], d, j)], st1);
        sg.(states := st1, dirty := Add(sg.dirty, j))
  }

  /** The blocks of back-linking for the directions `ds`, in order. */
  function LinkDirs(g: Grid, sg: StateGraph, n: nat, ds: seq<Dir>): (r: StateGraph)
    requires NodesOk(g, sg.states) && Registry(sg.states, sg.canonical) && n < |sg.states|
    ensures NodesOk(g, r.states) && Registry(r.states, r.canonical)
    ensures r.canonical == sg.canonical && |r.states| == |sg.states| && Grows(sg.states, r.states)
    decreases |ds|
  {
    if ds == [] then sg
    else
      var s1 := LinkStep(g, sg, n, ds[0]);
      var r := LinkDirs(g, s1, n, ds[1..]);
      GrowsTransitive(sg.states, s1.states, r.states);
      r
  }

  /** `_linkExistingSuccessors`: the four blocks, north, east, south, west. */
  function LinkAll(g: Grid, sg: StateGraph, n: nat): (r: StateGraph)
    requires NodesOk(g, sg.states) && Registry(sg.states, sg.canonical) && n < |sg.states|
    ensures r.canonical == sg.canonical && |r.states| == |sg.states| && Grows(sg.states, r.states)
  {
    LinkDirs(g, sg, n, [North, East, South, West])
  }

  /** The first block of a list of blocks. */
  lemma LinkDirsFirst(g: Grid, sg: StateGraph, n: nat, d: Dir, ds: seq<Dir>)
    requires NodesOk(g, sg.states) && Registry(sg.states, sg.canonical) && n < |sg.states|
    ensures LinkDirs(g, sg, n, [d] + ds) == LinkDirs(g, LinkStep(g, sg, n, d), n, ds)
  {
    assert ([d] + ds)[0] == d && ([d] + ds)[1..] == ds;
  }

  lemma DirLists()
    ensures [North] + [East, South, West] == [North, East, South, West]
    ensures [East] + [South, West] == [East, South, West]
    ensures [South] + [West] == [South, West] && [West] + [] == [West]
  {
  }

  /** `LinkAll` is the four blocks one after the other. */
  lemma LinkAllUnfold(g: Grid, sg: StateGraph, n: nat, s1: StateGraph, s2: StateGraph, s3: StateGraph, s4: StateGraph)
    requires NodesOk(g, sg.states) && Registry(sg.states, sg.canonical) && n < |sg.states|
    requires s1 == LinkStep(g, sg, n, North) && s2 == LinkStep(g, s1, n, East)
    requires s3 == LinkStep(g, s2, n, South) && s4 == LinkStep(g, s3, n, West)
    ensures s4 == LinkAll(g, sg, n)
  {
    DirLists();
    LinkDirsFirst(g, sg, n, North, [East, South, West]);
    LinkDirsFirst(g, s1, n, East, [South, West]);
    LinkDirsFirst(g, s2, n, South, [West]);
    LinkDirsFirst(g, s3, n, West, []);
  }

  lemma LinkStepBuilds(g: Grid, sg: StateGraph, n: nat, done: set<Dir>, d: Dir) returns (r: StateGraph)
    requires Linking(g, sg, n, done) && d !in done
    ensures r == LinkStep(g, sg, n, d) && Linking(g, r, n, done + {d})
  {
    r := LinkStep(g, sg, n, d);
    assert NodeOk(g, sg.states[n]);
    match Lookup(sg.canonical, Successor(g, sg.states[n].loc2tile, d))
    case None =>
      LinkStepAbsent(g, sg.states, sg.canonical, sg.dirty, n, done, d);
    case Some(j) =>
      if j == n {
        LinkStepSelf(g, sg.states, sg.canonical, sg.dirty, n, done, d);
      } else {
        LinkStepOther(g, sg.states, sg.canonical, sg.dirty, n, done, d, j);
      }
  }

  /** The directions of a list, as a set. */
  ghost function DirSet(ds: seq<Dir>): (r: set<Dir>)
    ensures forall d :: d in r <==> d in ds
  {
    set d | d in ds
  }

  lemma DirSetCons(done: set<Dir>, ds: seq<Dir>)
    requires ds != []
    ensures done + DirSet(ds) == done + {ds[0]} + DirSet(ds[1..])
  {
    assert forall d :: d in ds <==> d == ds[0] || d in ds[1..] by {
      assert ds == [ds[0]] + ds[1..];
    }
  }

  /** Blocks for distinct, not yet handled directions handle each of them. */
  lemma {:induction false} LinkDirsBuild(g: Grid, sg: StateGraph, n: nat, done: set<Dir>, ds: seq<Dir>)
    requires Linking(g, sg, n, done)
    requires Distinct(ds) && forall d :: d in ds ==> d !in done
    ensures Linking(g, LinkDirs(g, sg, n, ds), n, done + DirSet(ds))
    decreases |ds|
  {
    if ds == [] {
      assert done + DirSet(ds) == done;
    } else {
      var s1 := LinkStepBuilds(g, sg, n, done, ds[0]);
      DistinctTail(ds);
      LinkDirsBuild(g, s1, n, done + {ds[0]}, ds[1..]);
      DirSetCons(done, ds);
    }
  }

  lemma FourDirs()
    ensures Distinct([North, East, South, West])
    ensures {} + DirSet([North, East, South, West]) == AllDirs
  {
  }

  /** The new State for the unregistered arrangement `arr`, created, registered and back-linked. */
  ghost function Created(g: Grid, sg: StateGraph, arr: seq<nat>): (r: StateGraph)
    requires NodesOk(g, sg.states) && Registry(sg.states, sg.canonical)
    requires IsArrangement(g, arr) && arr !in sg.canonical
    ensures arr in r.canonical && r.canonical[arr] == |sg.states|
  {
    WithNewStateOk(g, sg, arr);
    LinkAll(g, WithNewState(g, sg, arr), |sg.states|)
  }

  /** A new State for an unregistered arrangement is ready to be back-linked. */
  lemma StartLinking(g: Grid, sg: StateGraph, arr: seq<nat>)
    requires Consistent(g, sg) && IsArrangement(g, arr) && arr !in sg.canonical
    ensures Linking(g, WithNewState(g, sg, arr), |sg.states|, {})
  {
    CreateStart(g, sg.states, sg.canonical, sg.dirty, arr);
  }

  /** Creating, registering and back-linking a State for an unregistered arrangement. */
  lemma CreateLinks(g: Grid, sg: StateGraph, arr: seq<nat>)
    requires Consistent(g, sg) && IsArrangement(g, arr) && arr !in sg.canonical
    ensures var r := Created(g, sg, arr);
            Linking(g, r, |sg.states|, AllDirs) && Grows(sg.states, r.states)
  {
    var s0 := WithNewState(g, sg, arr);
    WithNewStateOk(g, sg, arr);
    StartLinking(g, sg, arr);
    FourDirs();
    LinkDirsBuild(g, s0, |sg.states|, {}, [North, East, South, West]);
    GrowsTransitive(sg.states, s0.states, LinkAll(g, s0, |sg.states|).states);
  }

  /**
   * `_getOrCreateState` for an arrangement not yet registered: after
   * creating, registering and back-linking the new State the invariant
   * holds again, and nothing known before is lost.
   */
  lemma CreatePreserves(g: Grid, sg: StateGraph, arr: seq<nat>)
    requires Consistent(g, sg) && IsArrangement(g, arr) && arr !in sg.canonical
    requires Demanded(g, sg.states, arr)
    ensures var r := Created(g, sg, arr);
            Consistent(g, r) && Grows(sg.states, r.states) && |sg.states| in r.dirty
  {
    CreateLinks(g, sg, arr);
    FinishAt(g, sg, Created(g, sg, arr), arr);
  }

  /** The last step of `CreatePreserves`, on any back-linked graph that extends `sg`. */
  lemma FinishAt(g: Grid, sg: StateGraph, r: StateGraph, arr: seq<nat>)
    requires Consistent(g, sg) && Demanded(g, sg.states, arr)
    requires Linking(g, r, |sg.states|, AllDirs) && Grows(sg.states, r.states)
    requires r.states[|sg.states|].loc2tile == arr
    ensures Consistent(g, r)
  {
    var n := |sg.states|;
    if n > 0 {
      var p, e :| 0 <= p < n && Successor(g, sg.states[p].loc2tile, e) == arr;
      assert r.states[p].loc2tile == sg.states[p].loc2tile;
    }
    CreateFinish(g, r.states, r.canonical, r.dirty, n);
  }

  /**
   * `_getOrCreateState` on the graph: unchanged when `arr` is registered,
   * otherwise a new State for it created, registered and back-linked.
   * Either way `arr` is registered afterwards.
   */
  ghost function GetOrCreate(g: Grid, sg: StateGraph, arr: seq<nat>): (r: StateGraph)
    requires NodesOk(g, sg.states) && Registry(sg.states, sg.canonical) && IsArrangement(g, arr)
    ensures arr in r.canonical && |sg.states| <= |r.states|
  {
    if arr in sg.canonical then sg
    else Created(g, sg, arr)
  }

  /**
   * `_getOrCreateState` keeps the invariant, loses nothing, and yields the
   * State holding `arr`: the registered one, or a new one with the next id
   * that waits on the worklist.
   */
  lemma GetOrCreatePreserves(g: Grid, sg: StateGraph, arr: seq<nat>)
    requires Consistent(g, sg) && IsArrangement(g, arr) && Demanded(g, sg.states, arr)
    ensures var r := GetOrCreate(g, sg, arr);
            Consistent(g, r) && Grows(sg.states, r.states) &&
            r.canonical[arr] < |r.states| && r.states[r.canonical[arr]].loc2tile == arr
    ensures arr in sg.canonical ==> GetOrCreate(g, sg, arr) == sg
    ensures arr !in sg.canonical ==>
              var r := GetOrCreate(g, sg, arr);
              r.canonical[arr] == |sg.states| && |sg.states| in r.dirty
  {
    if arr !in sg.canonical {
      CreatePreserves(g, sg, arr);
    }
  }

  /**
   * The getter for direction `d` of State `id` (`northSuccessor` and the
   * others): a missing link is filled by `_getOrCreateState` for the
   * neighbour arrangement, and the State obtained is stored in the link.
   */
  ghost function Follow(g: Grid, sg: StateGraph, id: nat, d: Dir): (r: StateGraph)
    requires NodesOk(g, sg.states) && Registry(sg.states, sg.canonical) && id < |sg.states|
    ensures id < |r.states| && r.states[id].Link(d).Some?
  {
    if sg.states[id].Link(d).Some? then sg
    else
      assert NodeOk(g, sg.states[id]);
      var arr := Successor(g, sg.states[id].loc2tile, d);
      var r0 := GetOrCreate(g, sg, arr);
      r0.(states := r0.states[id := r0.states[id].WithLink(d, r0.canonical[arr])])
  }

  /**
   * Following a direction keeps the invariant and loses nothing; it leads
   * to the State holding the neighbour arrangement; and storing the State
   * obtained into the link changes nothing, since back-linking the new
   * State already stored it.
   */
  lemma FollowPreserves(g: Grid, sg: StateGraph, id: nat, d: Dir)
    requires Consistent(g, sg) && id < |sg.states|
    ensures var r := Follow(g, sg, id, d);
            Consistent(g, r) && Grows(sg.states, r.states) &&
            r.states[id].Link(d).value < |r.states|
    ensures var r := Follow(g, sg, id, d);
            r.states[r.states[id].Link(d).value].loc2tile == Successor(g, sg.states[id].loc2tile, d)
    ensures sg.states[id].Link(d).Some? ==> Follow(g, sg, id, d) == sg
  {
    assert NodeOk(g, sg.states[id]);
    var arr := Successor(g, sg.states[id].loc2tile, d);
    if sg.states[id].Link(d).None? {
      GetOrCreatePreserves(g, sg, arr);
      FollowCreated(g, sg, id, d, arr, GetOrCreate(g, sg, arr));
    } else {
      assert LinkExact(g, sg.states, sg.canonical, id, d);
    }
  }

  /** Where the link is missing, `Follow` is `GetOrCreate`, whose back-linking already set the link. */
  lemma FollowCreated(g: Grid, sg: StateGraph, id: nat, d: Dir, arr: seq<nat>, r0: StateGraph)
    requires Consistent(g, sg) && id < |sg.states| && sg.states[id].Link(d).None?
    requires NodeOk(g, sg.states[id]) && arr == Successor(g, sg.states[id].loc2tile, d)
    requires r0 == GetOrCreate(g, sg, arr) && Consistent(g, r0) && Grows(sg.states, r0.states)
    ensures Follow(g, sg, id, d) == r0 && r0.states[id].Link(d) == Some(r0.canonical[arr])
  {
    assert LinkExact(g, r0.states, r0.canonical, id, d);
    RelinkSame(r0.states, id, d, r0.canonical[arr]);
  }

  // ---------------------------------------------------------------------
  // The solve-distance dataflow analysis as a function of the graph

  /**
   * `potentialMaximalSolveDistance(x)` of State `id`: adopt `x` only if it is
   * strictly below the current distance, and then put every known successor
   * of `id` on the worklist.
   */
  function Lower(sg: StateGraph, id: nat, x: Dist): (r: StateGraph)
    requires id < |sg.states|
    ensures r.canonical == sg.canonical && SameShapes(sg.states, r.states)
    ensures r.states[id].dist == (if Lt(x, sg.states[id].dist) then x else sg.states[id].dist)
    ensures forall i :: 0 <= i < |sg.states| ==> Le(r.states[i].dist, sg.states[i].dist)
    ensures forall i :: 0 <= i < |sg.states| && i != id ==> r.states[i] == sg.states[i]
    ensures r.dirty == if Lt(x, sg.states[id].dist) then AddAll(sg.dirty, sg.states[id].known) else sg.dirty
  {
    if Lt(x, sg.states[id].dist) then
      StateGraph(Lowered(sg.states, id, x), sg.canonical, AddAll(sg.dirty, sg.states[id].known))
    else sg
  }

  /** `b` differs from `a` only in its worklist and in distances, none of which went up. */
  ghost predicate Relaxes(a: StateGraph, b: StateGraph)
  {
    b.canonical == a.canonical && SameShapes(a.states, b.states) &&
    forall i :: 0 <= i < |a.states| ==> Le(b.states[i].dist, a.states[i].dist)
  }

  lemma RelaxesTransitive(a: StateGraph, b: StateGraph, c: StateGraph)
    requires Relaxes(a, b) && Relaxes(b, c)
    ensures Relaxes(a, c)
  {
  }

  /**
   * `performSolveDistanceDataflowStep` of the card: the oldest State on the
   * worklist is taken off it and proposes a distance to itself; an empty
   * worklist leaves the graph as it is.
   */
  function AnalysisStep(sg: StateGraph): (r: StateGraph)
    requires Closed(sg.states) && forall k :: 0 <= k < |sg.dirty| ==> sg.dirty[k] < |sg.states|
    ensures Relaxes(sg, r)
    ensures sg.dirty == [] <==> r == sg
  {
    match PickAndRemoveFrom(sg.dirty)
    case (None, _) => sg
    case (Some(id), rest) =>
      var r := Lower(sg.(dirty := rest), id, Proposal(sg.states, id));
      assert r != sg by {
        if Lt(Proposal(sg.states, id), sg.states[id].dist) {
          assert r.states[id] != sg.states[id];
        } else {
          assert |r.dirty| < |sg.dirty|;
        }
      }
      r
  }

  /** A dataflow step keeps the graph invariant. */
  lemma AnalysisStepPreserves(g: Grid, sg: StateGraph)
    requires Consistent(g, sg)
    ensures Consistent(g, AnalysisStep(sg))
  {
    if sg.dirty != [] {
      var id, rest := sg.dirty[0], sg.dirty[1..];
      TakeFirst(g, sg.states, sg.canonical, sg.dirty);
      if Lt(Proposal(sg.states, id), sg.states[id].dist) {
        RelaxLowers(g, sg.states, sg.canonical, rest, id);
      } else {
        RelaxKeeps(g, sg.states, sg.canonical, rest, id);
      }
    }
  }

  /**
   * A dataflow step on a non-empty worklist makes progress: either the sum
   * of distances drops, or it stays and the worklist shrinks.
   */
  lemma AnalysisStepProgress(g: Grid, sg: StateGraph)
    requires Consistent(g, sg) && sg.dirty != []
    ensures var r := AnalysisStep(sg);
            var before, after := Potential(Dists(sg.states), |sg.states|), Potential(Dists(r.states), |r.states|);
            after < before || (after == before && |r.dirty| < |sg.dirty|)
  {
    var id := sg.dirty[0];
    var x := Proposal(sg.states, id);
    if Lt(x, sg.states[id].dist) {
      LowerDropsPotential(sg.states, id, x);
    }
  }

  /**
   * `performSolveDistanceDataflowAnalysis`: dataflow steps until the worklist
   * is empty. The steps terminate, the invariant holds throughout, and only
   * distances change, never upwards.
   */
  ghost function Closure(g: Grid, sg: StateGraph): (r: StateGraph)
    requires Consistent(g, sg)
    ensures Consistent(g, r) && r.dirty == [] && Relaxes(sg, r)
    decreases Potential(Dists(sg.states), |sg.states|), |sg.dirty|
  {
    if sg.dirty == [] then sg
    else
      var next := AnalysisStep(sg);
      AnalysisStepPreserves(g, sg);
      AnalysisStepProgress(g, sg);
      var r := Closure(g, next);
      RelaxesTransitive(sg, next, r);
      r
  }

  /**
   * After the analysis every State is settled: the solved State has
   * distance 0 and every other one is at most one more than each known
   * successor; and a State at distance 0 is the solved one.
   */
  lemma ClosureSettles(g: Grid, sg: StateGraph, i: nat)
    requires Consistent(g, sg) && i < |sg.states|
    ensures var r := Closure(g, sg); Settled(r.states, i) && (r.states[i].dist == Fin(0) ==> r.states[i].isSolved)
  {
    var r := Closure(g, sg);
    assert DistanceOk(r.states, i);
  }

  /** The analysis keeps every State's arrangement, and a distance of 0. */
  lemma ClosureKeeps(g: Grid, sg: StateGraph, i: nat)
    requires Consistent(g, sg) && i < |sg.states|
    ensures var r := Closure(g, sg); i < |r.states| && r.states[i].loc2tile == sg.states[i].loc2tile
    ensures sg.states[i].dist == Fin(0) ==> Closure(g, sg).states[i].dist == Fin(0)
  {
    var r := Closure(g, sg);
    assert SameShape(sg.states[i], r.states[i]);
  }

  /** Lowering the distance of a State that is still on the worklist keeps the invariant. */
  lemma LowerDirtyPreserves(g: Grid, sg: StateGraph, id: nat, x: Dist)
    requires Consistent(g, sg) && id in sg.dirty && id < |sg.states| && Justified(sg.states, id, x)
    ensures Consistent(g, Lower(sg, id, x))
  {
    if Lt(x, sg.states[id].dist) {
      LowerInWorklist(g, sg.states, sg.canonical, sg.dirty, id, x);
    }
  }

  /**
   * The graph after the player moves the hole of State `id` in direction
   * `d` (`click`): the neighbour is followed, created if need be, and the
   * analysis is run to closure. The invariant holds, no State is lost or
   * changes arrangement, no distance goes up, and the link taken leads to
   * the State holding the neighbour arrangement.
   */
  ghost function Moved(g: Grid, sg: StateGraph, id: nat, d: Dir): (r: StateGraph)
    requires Consistent(g, sg) && id < |sg.states|
    ensures Consistent(g, r) && r.dirty == [] && |sg.states| <= |r.states|
    ensures forall i :: 0 <= i < |sg.states| ==>
              r.states[i].loc2tile == sg.states[i].loc2tile && Le(r.states[i].dist, sg.states[i].dist)
    ensures r.states[id].Link(d) == Follow(g, sg, id, d).states[id].Link(d)
    ensures r.states[id].Link(d).value < |r.states| &&
            r.states[r.states[id].Link(d).value].loc2tile == Successor(g, sg.states[id].loc2tile, d)
  {
    FollowPreserves(g, sg, id, d);
    var f := Follow(g, sg, id, d);
    var r := Closure(g, f);
    ShapeLinks(f.states[id], r.states[id]);
    assert SameShape(f.states[f.states[id].Link(d).value], r.states[f.states[id].Link(d).value]);
    assert forall i :: 0 <= i < |sg.states| ==> SameShape(f.states[i], r.states[i]);
    r
  }

  /**
   * The steps of a move, as the card takes them: follow the link to `next`,
   * then run the analysis. The result is `Moved`, the link still leads to
   * `next`, and the card is valid with `next` current and `cur` previous.
   */
  lemma MovedCard(g: Grid, sg: StateGraph, cur: nat, prev: nat, route: Option<seq<nat>>, d: Dir,
                  f: StateGraph, next: nat, c: StateGraph)
    requires CardOk(g, sg, cur, prev, route)
    requires f == Follow(g, sg, cur, d) && f.states[cur].Link(d) == Some(next) && Consistent(g, f)
    requires c == Closure(g, f)
    ensures c == Moved(g, sg, cur, d) && c.states[cur].Link(d) == Some(next)
    ensures CardOk(g, c, next, cur, None) && c.states[next].loc2tile == Successor(g, sg.states[cur].loc2tile, d)
  {
    MovedCardOk(g, sg, cur, prev, route, d);
  }

  /**
   * A move keeps the card valid: the State moved to is the one the link
   * leads to, it holds the neighbour arrangement, the State moved from
   * becomes the previous one, and the cached route is dropped.
   */
  lemma MovedCardOk(g: Grid, sg: StateGraph, cur: nat, prev: nat, route: Option<seq<nat>>, d: Dir)
    requires CardOk(g, sg, cur, prev, route)
    ensures var r := Moved(g, sg, cur, d);
            var next := r.states[cur].Link(d).value;
            CardOk(g, r, next, cur, None) && r.states[next].loc2tile == Successor(g, sg.states[cur].loc2tile, d)
  {
    var r := Moved(g, sg, cur, d);
    assert Le(r.states[0].dist, sg.states[0].dist);
  }

  /**
   * The graph the constructor starts from: the solved State created first
   * (so with id 0) and given distance 0.
   */
  ghost function Started(g: Grid): (r: StateGraph)
    requires g.Valid()
  {
    StartCreated(g);
    Lower(GetOrCreate(g, StateGraph([], map[], []), Identity(g.Size())), 0, Fin(0))
  }

  /** The started graph holds the solved State alone, at distance 0, and is a valid card. */
  lemma StartedConsistent(g: Grid)
    requires g.Valid()
    ensures |Started(g).states| == 1 && Consistent(g, Started(g)) && CardOk(g, Started(g), 0, 0, None)
  {
    StartCreated(g);
    LowerDirtyPreserves(g, GetOrCreate(g, StateGraph([], map[], []), Identity(g.Size())), 0, Fin(0));
  }

  /** Creating the solved State in the empty graph gives it id 0. */
  lemma StartCreated(g: Grid)
    requires g.Valid()
    ensures Indexed(g, StateGraph([], map[], []))
    ensures var c := GetOrCreate(g, StateGraph([], map[], []), Identity(g.Size()));
            Consistent(g, c) && 0 < |c.states| && c.canonical[Identity(g.Size())] == 0 &&
            c.states[0].loc2tile == Identity(g.Size()) && 0 in c.dirty && Justified(c.states, 0, Fin(0))
  {
    var e := StateGraph([], map[], []);
    EmptyConsistent(g);
    GetOrCreatePreserves(g, e, Identity(g.Size()));
    var c := GetOrCreate(g, e, Identity(g.Size()));
    assert NodeOk(g, c.states[0]);
  }

  /**
   * The constructor's scramble: from State `cur`, follow the directions
   * `moves` one after the other, creating States as needed. The result is
   * the graph and the State reached, which holds the arrangement the moves
   * lead to.
   */
  ghost function Walk(g: Grid, sg: StateGraph, cur: nat, moves: seq<Dir>): (r: (StateGraph, nat))
    requires Consistent(g, sg) && cur < |sg.states|
    ensures Consistent(g, r.0) && Grows(sg.states, r.0.states) && r.1 < |r.0.states|
    ensures NodeOk(g, sg.states[cur]) &&
            r.0.states[r.1].loc2tile == Scrambled(g, sg.states[cur].loc2tile, moves)
    decreases |moves|
  {
    assert NodeOk(g, sg.states[cur]);
    if moves == [] then (sg, cur)
    else
      var w := Walk(g, sg, cur, moves[..|moves| - 1]);
      var d := moves[|moves| - 1];
      FollowPreserves(g, w.0, w.1, d);
      var f := Follow(g, w.0, w.1, d);
      GrowsTransitive(sg.states, w.0.states, f.states);
      (f, f.states[w.1].Link(d).value)
  }

  /** A walk ends in a well-formed graph, at one of its States. */
  lemma WalkReady(g: Grid, sg: StateGraph, cur: nat, moves: seq<Dir>, w: StateGraph, c: nat)
    requires Consistent(g, sg) && cur < |sg.states| && (w, c) == Walk(g, sg, cur, moves)
    ensures Indexed(g, w) && c < |w.states|
  {
  }

  /** Following move `k` from the end of the walk along the first `k` moves is the walk along `k + 1`. */
  lemma WalkStep(g: Grid, sg: StateGraph, cur: nat, moves: seq<Dir>, k: nat, w: StateGraph, c: nat, f: StateGraph, r: nat)
    requires Consistent(g, sg) && cur < |sg.states| && k < |moves|
    requires (w, c) == Walk(g, sg, cur, moves[..k]) && Indexed(g, w) && c < |w.states|
    requires f == Follow(g, w, c, moves[k]) && f.states[c].Link(moves[k]) == Some(r)
    ensures (f, r) == Walk(g, sg, cur, moves[..k + 1])
  {
    MovesPrefix(moves, k);
  }

  /** The empty scramble leaves the graph and the State as they are. */
  lemma WalkNone(g: Grid, sg: StateGraph, cur: nat)
    requires Consistent(g, sg) && cur < |sg.states|
    ensures Walk(g, sg, cur, []) == (sg, cur)
  {
  }

  /**
   * The invariant of a card over its graph: the graph invariant, the solved
   * State first with distance 0, the current and previous States in the
   * graph, and a cached route that leads from the current State to the
   * solved one once the analysis has settled.
   */
  ghost predicate CardOk(g: Grid, sg: StateGraph, current: nat, previous: nat, route: Option<seq<nat>>)
  {
    match sg
    case StateGraph(states, _, dirty) =>
      Consistent(g, sg) && 0 < |states| &&
      states[0].loc2tile == Identity(g.Size()) && states[0].dist == Fin(0) &&
      current < |states| && previous < |states| &&
      (route.Some? ==> dirty == [] && IsRoute(states, route.value, current, 0))
  }

  /**
   * A new card: from a card holding only its solved State, the scramble
   * walk along `moves` and then the analysis. The result is a valid card
   * whose current (and previous) State holds the scrambled arrangement.
   */
  ghost function ScrambledCard(g: Grid, sg: StateGraph, cur: nat, moves: seq<Dir>): (r: (StateGraph, nat))
    requires Consistent(g, sg) && cur < |sg.states|
    ensures Consistent(g, r.0) && r.0.dirty == [] && r.1 < |r.0.states|
    ensures r.0.states[r.1].loc2tile == Scrambled(g, sg.states[cur].loc2tile, moves)
    ensures CardOk(g, sg, cur, cur, None) ==> CardOk(g, r.0, r.1, r.1, None)
  {
    var (w, next) := Walk(g, sg, cur, moves);
    ClosureKeeps(g, w, 0);
    ClosureKeeps(g, w, next);
    (Closure(g, w), next)
  }

  /**
   * The card the constructor builds: the started graph scrambled along
   * `moves` and analysed. It is valid and settled, and its current State
   * holds the arrangement the moves lead to from the solved one.
   */
  ghost function NewCard(g: Grid, moves: seq<Dir>): (r: (StateGraph, nat))
    requires g.Valid()
    ensures CardOk(g, r.0, r.1, r.1, None) && r.0.dirty == []
    ensures r.0.states[r.1].loc2tile == Scrambled(g, Identity(g.Size()), moves)
  {
    StartedConsistent(g);
    assert Started(g).states[0].loc2tile == Identity(g.Size());
    ScrambledCard(g, Started(g), 0, moves)
  }

  /** Scrambling the started graph from State 0 builds the new card. */
  lemma NewCardIs(g: Grid, moves: seq<Dir>, g0: StateGraph, sg: StateGraph, cur: nat)
    requires g.Valid() && g0 == Started(g) && Consistent(g, g0) && 0 < |g0.states|
    requires (sg, cur) == ScrambledCard(g, g0, 0, moves)
    ensures (sg, cur) == NewCard(g, moves)
  {
  }

  lemma ScrambledCardIs(g: Grid, sg: StateGraph, cur: nat, moves: seq<Dir>, w: StateGraph, next: nat, c: StateGraph)
    requires Consistent(g, sg) && cur < |sg.states| && (w, next) == Walk(g, sg, cur, moves) && c == Closure(g, w)
    ensures (c, next) == ScrambledCard(g, sg, cur, moves)
  {
  }

  /**
   * The analysis keeps a card without a cached route valid, settles it, and
   * leaves the solved State solved.
   */
  lemma ClosureCardOk(g: Grid, sg: StateGraph, cur: nat, prev: nat, c: StateGraph)
    requires CardOk(g, sg, cur, prev, None) && c == Closure(g, sg)
    ensures CardOk(g, c, cur, prev, None) && c.dirty == [] && c.states[0].isSolved
  {
    ClosureKeeps(g, sg, 0);
    assert NodeOk(g, c.states[0]);
  }

  /** In a valid card the solved State is State 0. */
  lemma CardSolved(g: Grid, sg: StateGraph, cur: nat, prev: nat, route: Option<seq<nat>>)
    requires CardOk(g, sg, cur, prev, route)
    ensures 0 < |sg.states| && sg.states[0].isSolved && cur < |sg.states|
  {
    assert NodeOk(g, sg.states[0]);
  }

  /** A route from the current State, found once the analysis settled, may be cached. */
  lemma RoutedCardOk(g: Grid, sg: StateGraph, cur: nat, prev: nat, r: seq<nat>)
    requires CardOk(g, sg, cur, prev, None) && sg.dirty == [] && IsRoute(sg.states, r, cur, 0)
    ensures CardOk(g, sg, cur, prev, Some(r))
  {
  }

  /**
   * After the analysis every State has a finite distance, and the solved
   * State has distance 0.
   */
  lemma RouteStart(g: Grid, sg: StateGraph, i: nat)
    requires Consistent(g, sg) && sg.dirty == [] && 0 < |sg.states| && sg.states[0].isSolved && i < |sg.states|
    ensures sg.states[i].dist.Fin? && sg.states[0].dist == Fin(0)
  {
    FiniteAfterClosure(g, sg.states, sg.canonical, i);
    assert Settled(sg.states, 0);
  }

  /**
   * After the analysis a State other than the solved one is unsolved, at a
   * positive distance, and has known successors, all of them States.
   */
  lemma RouteStep(g: Grid, sg: StateGraph, i: nat)
    requires Consistent(g, sg) && sg.dirty == [] && 0 < |sg.states| && sg.states[0].isSolved
    requires 0 < i < |sg.states|
    ensures !sg.states[i].isSolved && sg.states[i].dist.Fin? && sg.states[i].dist.n > 0
    ensures |sg.states[i].known| > 0 && forall k :: 0 <= k < |sg.states[i].known| ==> sg.states[i].known[k] < |sg.states|
  {
    var st := sg.states;
    if st[i].isSolved {
      SolvedUnique(g, st, sg.canonical, i, 0);
    }
    FiniteAfterClosure(g, st, sg.canonical, i);
    assert DistanceOk(st, i) && Settled(st, i);
  }

  /**
   * After the analysis the first known successor of least distance of an
   * unsolved State is one move closer to the solved State.
   */
  lemma RouteNext(g: Grid, sg: StateGraph, i: nat, p: nat)
    requires Consistent(g, sg) && sg.dirty == [] && 0 < |sg.states| && sg.states[0].isSolved
    requires 0 < i < |sg.states|
    requires (forall k :: 0 <= k < |sg.states[i].known| ==> sg.states[i].known[k] < |sg.states|)
    requires IsFirstMinimal(sg.states, sg.states[i].known, p)
    ensures sg.states[i].dist.Fin? && sg.states[i].dist.n > 0
    ensures sg.states[sg.states[i].known[p]].dist == Fin(sg.states[i].dist.n - 1)
  {
    RouteStep(g, sg, i);
    ClosedStep(g, sg.states, sg.canonical, i, p);
  }

  /**
   * One round of the route loop: the first least known successor of the
   * last State of a countdown walk extends the walk, one move closer.
   */
  lemma RouteAdvance(g: Grid, sg: StateGraph, r: seq<nat>, i: nat, p: nat)
    requires Consistent(g, sg) && sg.dirty == [] && 0 < |sg.states| && sg.states[0].isSolved
    requires Countdown(sg.states, r) && i == r[|r| - 1] && 0 < i < |sg.states|
    requires forall k :: 0 <= k < |sg.states[i].known| ==> sg.states[i].known[k] < |sg.states|
    requires IsFirstMinimal(sg.states, sg.states[i].known, p)
    ensures var next := sg.states[i].known[p];
            Countdown(sg.states, r + [next]) && (r + [next])[0] == r[0] &&
            sg.states[next].dist.n < sg.states[i].dist.n
  {
    var st := sg.states;
    RouteNext(g, sg, i, p);
    assert st[i].known[p] in st[i].known;
    CountdownExtend(st, r, st[i].known[p]);
  }

  /**
   * After the analysis a route from `from` is a shortest walk through known
   * successors from `from` to the solved State.
   */
  lemma RouteShortest(g: Grid, sg: StateGraph, from: nat, r: seq<nat>)
    requires Consistent(g, sg) && sg.dirty == [] && 0 < |sg.states| && sg.states[0].isSolved
    requires IsRoute(sg.states, r, from, 0)
    ensures forall p :: IsPath(sg.states, p) && p[0] == from && p[|p| - 1] == 0 ==> |r| <= |p|
  {
    forall p | IsPath(sg.states, p) && p[0] == from && p[|p| - 1] == 0
      ensures |r| <= |p|
    {
      DistanceIsShortest(g, sg.states, sg.canonical, p);
    }
  }

  /** The graph of a card before any State exists. */
  lemma EmptyConsistent(g: Grid)
    requires g.Valid()
    ensures Consistent(g, StateGraph([], map[], []))
  {
  }

  // ---------------------------------------------------------------------
  // Hints

  /** What the hint tile shows: stay put, or move the hole in a direction. */
  datatype Hint = Stay | Toward(dir: Dir)

  /**
   * What `minMaxHint` promises for State `id`: stay exactly when no known
   * successor is strictly closer; otherwise the first direction, in the
   * order north, east, south, west, whose link is a strictly closer State,
   * namely the first known successor of least distance, and that State
   * holds the neighbour arrangement in that direction.
   */
  ghost predicate HintOk(g: Grid, sg: StateGraph, id: nat, h: Hint)
    requires NodesOk(g, sg.states) && id < |sg.states|
  {
    match sg
    case StateGraph(st, _, _) =>
      (h == Stay <==> !CloserKnown(st, id)) &&
      (h.Toward? ==>
         var m := st[id].Link(h.dir);
         m.Some? && m.value != id && m.value < |st| && Lt(st[m.value].dist, st[id].dist) &&
         st[m.value].loc2tile == Successor(g, st[id].loc2tile, h.dir) &&
         (forall e :: DirRank(e) < DirRank(h.dir) ==> st[id].Link(e) != m) &&
         exists p: nat :: IsFirstMinimal(st, st[id].known, p) && st[id].known[p] == m.value)
  }

  /** The `minMaxSuccessor`, when it is not the State itself, is linked from it. */
  lemma MinMaxLinked(g: Grid, sg: StateGraph, id: nat, m: nat)
    requires Consistent(g, sg) && id < |sg.states|
    requires exists p: nat :: IsFirstMinimal(sg.states, sg.states[id].known, p) && sg.states[id].known[p] == m
    ensures sg.states[id].Linked(m)
  {
    var p: nat :| IsFirstMinimal(sg.states, sg.states[id].known, p) && sg.states[id].known[p] == m;
    assert KnownAreLinks(sg.states);
  }

  /**
   * The choice of `minMaxHint`: `Stay` for the State itself, and otherwise
   * the first direction linking to the `minMaxSuccessor` `m`, meets
   * `HintOk`.
   */
  lemma HintChosen(g: Grid, sg: StateGraph, id: nat, m: nat, h: Hint)
    requires Consistent(g, sg) && id < |sg.states| && m < |sg.states|
    requires m == id <==> !CloserKnown(sg.states, id)
    requires m != id ==>
               Lt(sg.states[m].dist, sg.states[id].dist) &&
               exists p: nat :: IsFirstMinimal(sg.states, sg.states[id].known, p) && sg.states[id].known[p] == m
    requires h == Stay <==> m == id
    requires h.Toward? ==>
               sg.states[id].Link(h.dir) == Some(m) &&
               forall e :: DirRank(e) < DirRank(h.dir) ==> sg.states[id].Link(e) != Some(m)
    ensures HintOk(g, sg, id, h)
  {
    if h.Toward? {
      assert NodeOk(g, sg.states[id]);
      assert LinkExact(g, sg.states, sg.canonical, id, h.dir);
    }
  }

  /**
   * After the analysis, a hint that is `HintOk` says stay exactly on the
   * solved State, and otherwise points at a State one move closer to it.
   */
  lemma HintAfterClosure(g: Grid, sg: StateGraph, id: nat, h: Hint)
    requires Consistent(g, sg) && sg.dirty == [] && 0 < |sg.states| && sg.states[0].isSolved
    requires id < |sg.states| && HintOk(g, sg, id, h)
    ensures h == Stay <==> sg.states[id].isSolved
    ensures h.Toward? ==>
              sg.states[id].dist.Fin? && sg.states[id].dist.n > 0 &&
              sg.states[sg.states[id].Link(h.dir).value].dist == Fin(sg.states[id].dist.n - 1)
  {
    var st := sg.states;
    FiniteAfterClosure(g, st, sg.canonical, id);
    assert Settled(st, id) && DistanceOk(st, id);
    if h.Toward? {
      var m := st[id].Link(h.dir).value;
      var p: nat :| IsFirstMinimal(st, st[id].known, p) && st[id].known[p] == m;
      if st[id].isSolved {
        assert false;
      }
      ClosedStep(g, st, sg.canonical, id, p);
    } else if !st[id].isSolved {
      assert false;
    }
  }
}
