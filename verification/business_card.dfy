/**
 * The `BusinessCard` puzzle: the registry of canonical States, the lazily
 * explored state graph, the solve-distance dataflow analysis over it, and
 * the operations a player's moves and the route/hint queries run.
 *
 * A State object is modelled as its id into the arena `graph.states`; its
 * mutable fields (direction links, known successors, solve distance) are
 * the fields of the `Node` record stored there. Every method that changes
 * the graph is proved to compute the function of `StateGraphs` that
 * describes it, and the lemmas there carry the invariant.
 */
module Puzzle {
  import opened Wrappers
  import opened Arrangement
  import opened Distance
  import opened InsertionSet
  import opened Graph
  import opened StateGraphs

  class BusinessCard {
    const grid: Grid
    /** Id of the solved State; it is created first. */
    const solved: nat
    /** `_canonicalStates`, the State objects and `_dirtySolveDistanceStates`. */
    var graph: StateGraph
    var current: nat
    var previous: nat
    /** The cached route, dropped whenever the graph grows or the current State changes. */
    var route: Option<seq<nat>>

    /**
     * The class invariant: the graph keeps its invariant, the solved State
     * has id 0 and distance 0, the current and previous States exist, and a
     * cached route leads from the current State to the solved one.
     */
    ghost predicate Valid()
      reads this
    {
      solved == 0 && CardOk(grid, graph, current, previous, route)
    }

    /**
     * The constructor: a `horTiles` × `verTiles` card with the hole at
     * `(holeHor, holeVer)`; the solved State is created and given distance
     * 0, the hole is moved along `moves` (the random scramble), and the
     * analysis is run.
     */
    constructor (horTiles: nat, verTiles: nat, holeHor: nat, holeVer: nat, moves: seq<Dir>)
      requires horTiles >= 1 && verTiles >= 1 && holeHor < horTiles && holeVer < verTiles
      ensures grid == MakeGrid(horTiles, verTiles, holeHor, holeVer)
      ensures Valid() && graph.dirty == [] && previous == current && route == None
      ensures graph.states[current].loc2tile == Scrambled(grid, Identity(grid.Size()), moves)
      ensures (graph, current) == NewCard(grid, moves)
    {
      grid := MakeGrid(horTiles, verTiles, holeHor, holeVer);
      solved := 0;
      graph := StateGraph([], map[], []);
      current, previous, route := 0, 0, None;
      new;
      CreateSolvedState();
      ghost var g0 := graph;
      Scramble(moves);
      NewCardIs(grid, moves, g0, graph, current);
    }

    /**
     * The rest of the constructor: the scramble loop, then the current State
     * becomes the previous one too, and the analysis runs.
     */
    method Scramble(moves: seq<Dir>)
      requires Consistent(grid, graph) && current < |graph.states| && route == None
      modifies this`graph, this`route, this`current, this`previous
      ensures (graph, current) == ScrambledCard(grid, old(graph), old(current), moves)
      ensures previous == current && route == None
    {
      ghost var g0, c0 := graph, current;
      ScrambleMoves(moves);
      ghost var w := graph;
      previous := current;
      RunAnalysis();
      ScrambledCardIs(grid, g0, c0, moves, w, current, graph);
    }

    /**
     * The constructor's scramble loop: move the current State along `moves`,
     * one `successorInDirection` after the other.
     */
    method ScrambleMoves(moves: seq<Dir>)
      requires Consistent(grid, graph) && current < |graph.states| && route == None
      modifies this`graph, this`route, this`current
      ensures (graph, current) == Walk(grid, old(graph), old(current), moves) && route == None
    {
      ghost var start, cur0 := graph, current;
      MovesWhole(moves);
      WalkNone(grid, start, cur0);
      var k := 0;
      while k < |moves|
        invariant k <= |moves| && route == None
        invariant (graph, current) == Walk(grid, start, cur0, moves[..k])
      {
        WalkReady(grid, start, cur0, moves[..k], graph, current);
        ghost var w, c := graph, current;
        ScrambleStep(moves[k]);
        WalkStep(grid, start, cur0, moves, k, w, c, graph, current);
        k := k + 1;
      }
    }

    /**
     * `performSolveDistanceDataflowAnalysis` as the constructor and `click`
     * call it: only the graph changes.
     */
    method RunAnalysis()
      requires Consistent(grid, graph)
      modifies this`graph
      ensures graph == Closure(grid, old(graph))
      ensures route == old(route) && current == old(current) && previous == old(previous)
    {
      PerformSolveDistanceDataflowAnalysis();
    }

    /** One round of the scramble loop: move the current State in direction `d`. */
    method ScrambleStep(d: Dir)
      requires Indexed(grid, graph) && current < |graph.states| && route == None
      modifies this`graph, this`route, this`current
      ensures graph == Follow(grid, old(graph), old(current), d) && graph.states[old(current)].Link(d) == Some(current)
      ensures route == None
    {
      var next := SuccessorInDirection(current, d);
      current := next;
    }

    /**
     * The constructor's first step: create the State of the solved
     * arrangement, which gets id 0, give it solve distance 0, and make it
     * the current State (the setter only drops the route, which is unset
     * here). The graph is then `Started`: that State alone.
     */
    method CreateSolvedState()
      requires grid.Valid() && graph == StateGraph([], map[], [])
      modifies this`graph, this`route, this`current
      ensures current == 0 && route == None && graph == Started(grid)
      ensures |graph.states| == 1 && CardOk(grid, graph, 0, 0, None)
    {
      var s := CreateSolved();
      PotentialMaximalSolveDistance(s, Fin(0));
      SetCurrentState(s);
      StartedConsistent(grid);
    }

    /** `_getOrCreateState` of the solved arrangement in the empty registry. */
    method CreateSolved() returns (s: nat)
      requires grid.Valid() && graph == StateGraph([], map[], [])
      modifies this`graph, this`route
      ensures graph == GetOrCreate(grid, StateGraph([], map[], []), Identity(grid.Size()))
      ensures s == 0 && s < |graph.states| && route == None
    {
      StartCreated(grid);
      s := GetOrCreateState(Identity(grid.Size()));
    }

    /** `_dirtySolveDistance`: put a State on the worklist. */
    method DirtySolveDistance(id: nat)
      modifies this`graph
      ensures graph == old(graph).(dirty := Add(old(graph).dirty, id))
    {
      graph := graph.(dirty := Add(graph.dirty, id));
    }

    /**
     * `new State(this, id, loc2tile)`: a State holding `arr`, with its
     * inverse and solved flag computed, no links, distance +∞, appended to
     * the arena and put on the worklist.
     */
    method NewState(id: nat, arr: seq<nat>)
      requires IsArrangement(grid, arr) && id == |graph.states|
      modifies this`graph
      ensures graph == old(graph).(states := old(graph).states + [NewNode(arr, Inverse(arr), arr == Identity(grid.Size()))],
                                   dirty := Add(old(graph).dirty, id))
    {
      var tile2loc := Invert(arr);
      var isSolved := IsSolved(arr);
      graph := graph.(states := graph.states + [NewNode(arr, tile2loc, isSolved)]);
      DirtySolveDistance(id);
    }

    /** `_getStateIfExists`: the registered State holding `arr`, if any; nothing is created. */
    method GetStateIfExists(arr: seq<nat>) returns (r: Option<nat>)
      requires Registry(graph.states, graph.canonical)
      ensures r.Some? <==> exists i :: 0 <= i < |graph.states| && graph.states[i].loc2tile == arr
      ensures r.Some? ==> r.value < |graph.states| && graph.states[r.value].loc2tile == arr
    {
      if arr in graph.canonical {
        r := Some(graph.canonical[arr]);
      } else {
        r := None;
      }
    }

    /**
     * One block of `_linkExistingSuccessors`: link State `n` to its
     * registered neighbour in direction `d` and, when that is another State,
     * back, dirtying the neighbour.
     */
    method LinkDirection(n: nat, d: Dir)
      requires NodesOk(grid, graph.states) && Registry(graph.states, graph.canonical) && n < |graph.states|
      modifies this`graph
      ensures graph == LinkStep(grid, old(graph), n, d)
    {
      assert NodeOk(grid, graph.states[n]);
      var found := GetStateIfExists(Successor(grid, graph.states[n].loc2tile, d));
      assert found == Lookup(graph.canonical, Successor(grid, graph.states[n].loc2tile, d));
      match found
      case None =>
      case Some(j) =>
        graph := graph.(states := graph.states[n := Attach(graph.states[n], d, j)]);
        if j != n {
          graph := graph.(states := graph.states[j := Attach(graph.states[j], Opposite(d), n)]);
          DirtySolveDistance(j);
        }
    }

    /** `_linkExistingSuccessors`: the blocks for north, east, south and west, in that order. */
    method LinkExistingSuccessors(n: nat)
      requires NodesOk(grid, graph.states) && Registry(graph.states, graph.canonical) && n < |graph.states|
      modifies this`graph
      ensures graph == LinkAll(grid, old(graph), n)
    {
      ghost var g0 := graph;
      LinkDirection(n, North);
      ghost var g1 := graph;
      LinkDirection(n, East);
      ghost var g2 := graph;
      LinkDirection(n, South);
      ghost var g3 := graph;
      LinkDirection(n, West);
      LinkAllUnfold(grid, g0, n, g1, g2, g3, graph);
    }

    /**
     * `_getOrCreateState`: the registered State holding `arr`; when there is
     * none, a new State is created with the next id, registered, linked to
     * its registered neighbours, and the cached route is dropped.
     */
    method GetOrCreateState(arr: seq<nat>) returns (id: nat)
      requires Indexed(grid, graph) && IsArrangement(grid, arr)
      modifies this`graph, this`route
      ensures graph == GetOrCreate(grid, old(graph), arr) && id == graph.canonical[arr]
      ensures arr in old(graph).canonical ==> route == old(route)
      ensures arr !in old(graph).canonical ==> route == None
    {
      if arr !in graph.canonical {
        route := None;
        ghost var g0 := graph;
        var n := |graph.canonical|;
        assert n == |graph.states|;
        NewState(n, arr);
        graph := graph.(canonical := graph.canonical[arr := n]);
        ghost var g1 := graph;
        assert g1 == WithNewState(grid, g0, arr);
        WithNewStateOk(grid, g0, arr);
        LinkExistingSuccessors(n);
      }
      id := graph.canonical[arr];
    }

    /**
     * `potentialMaximalSolveDistance(x)`: adopt `x` when it is below the
     * current distance, and then dirty every known successor.
     */
    method PotentialMaximalSolveDistance(id: nat, x: Dist)
      requires id < |graph.states|
      modifies this`graph
      ensures graph == Lower(old(graph), id, x) && route == old(route)
    {
      if Lt(x, graph.states[id].dist) {
        graph := graph.(states := Lowered(graph.states, id, x));
        ghost var g1 := graph;
        var known := graph.states[id].known;
        for k := 0 to |known|
          invariant graph == g1.(dirty := AddAll(g1.dirty, known[..k]))
        {
          DirtySolveDistance(known[k]);
          assert known[..k + 1][..k] == known[..k];
        }
        assert known[..|known|] == known;
      }
    }

    /**
     * `State.performSolveDistanceDataflowStep`: the solved State proposes 0;
     * another State with some link proposes one more than the least distance
     * of its known successors; a State without links proposes nothing.
     */
    method RelaxState(id: nat)
      requires Closed(graph.states) && KnownAreLinks(graph.states) && id < |graph.states|
      modifies this`graph
      ensures graph == Lower(old(graph), id, Proposal(old(graph).states, id))
    {
      if graph.states[id].isSolved {
        PotentialMaximalSolveDistance(id, Fin(0));
        return;
      }
      SomeKnown(graph.states, id);
      if graph.states[id].HasSomeSuccessorKnown() {
        var known := graph.states[id].known;
        var minMax := Inf;
        for k := 0 to |known|
          invariant minMax == MinOver(graph.states, known[..k])
        {
          minMax := Min(graph.states[known[k]].dist, minMax);
          assert known[..k + 1][..k] == known[..k];
        }
        assert known[..|known|] == known;
        PotentialMaximalSolveDistance(id, Plus1(minMax));
      }
    }

    /**
     * `BusinessCard.performSolveDistanceDataflowStep`: take the oldest State
     * off the worklist and relax it; report closure when the worklist was
     * empty.
     */
    method PerformSolveDistanceDataflowStep() returns (closure: bool)
      requires Consistent(grid, graph)
      modifies this`graph
      ensures graph == AnalysisStep(old(graph))
      ensures closure <==> old(graph).dirty == []
    {
      var (picked, rest) := PickAndRemoveFrom(graph.dirty);
      if picked.None? {
        return true;
      }
      graph := graph.(dirty := rest);
      RelaxState(picked.value);
      return false;
    }

    /** `performSolveDistanceDataflowAnalysis`: dataflow steps until closure. */
    method PerformSolveDistanceDataflowAnalysis()
      requires Consistent(grid, graph)
      modifies this`graph
      ensures graph == Closure(grid, old(graph))
    {
      var closure := false;
      while !closure
        invariant Consistent(grid, graph) && Closure(grid, graph) == Closure(grid, old(graph))
        invariant closure ==> graph.dirty == []
        decreases !closure, Potential(Dists(graph.states), |graph.states|), |graph.dirty|
      {
        ghost var before := graph;
        closure := PerformSolveDistanceDataflowStep();
        AnalysisStepPreserves(grid, before);
        if !closure {
          AnalysisStepProgress(grid, before);
        }
      }
    }

    /**
     * `successorInDirection(d)` and the four getters: the linked neighbour in
     * direction `d`, created on first use.
     */
    method SuccessorInDirection(id: nat, d: Dir) returns (r: nat)
      requires Indexed(grid, graph) && id < |graph.states|
      modifies this`graph, this`route
      ensures route == old(route) || route == None
      ensures old(graph).states[id].Link(d).Some? ==> route == old(route)
      ensures graph == Follow(grid, old(graph), id, d) && graph.states[id].Link(d) == Some(r)
    {
      if graph.states[id].Link(d).None? {
        assert NodeOk(grid, graph.states[id]);
        var s := GetOrCreateState(Successor(grid, graph.states[id].loc2tile, d));
        SetLink(id, d, s);
      }
      r := graph.states[id].Link(d).value;
    }


    /** The assignment to `_<d>Successor` in the getters. */
    method SetLink(id: nat, d: Dir, s: nat)
      requires id < |graph.states|
      modifies this`graph
      ensures graph == old(graph).(states := old(graph).states[id := old(graph).states[id].WithLink(d, s)])
      ensures route == old(route)
    {
      graph := graph.(states := graph.states[id := graph.states[id].WithLink(d, s)]);
    }

    /** The `currentState` setter: it also drops the cached route. */
    method SetCurrentState(to: nat)
      modifies this`current, this`route
      ensures current == to && route == None
      ensures graph == old(graph) && previous == old(previous)
    {
      current := to;
      route := None;
    }

    /**
     * The part of `click` after the click is turned into a direction: move
     * the hole in direction `d`, remember the State moved from, and rerun
     * the analysis.
     */
    method Move(d: Dir)
      requires Valid()
      modifies this`graph, this`route, this`current, this`previous
      ensures graph == Moved(grid, old(graph), old(current), d)
      ensures current == graph.states[old(current)].Link(d).value && previous == old(current) && route == None
      ensures Valid() && graph.states[current].loc2tile == Successor(grid, old(graph).states[old(current)].loc2tile, d)
    {
      ghost var g0, p0, r0 := graph, previous, route;
      var next := SuccessorInDirection(current, d);
      ghost var f := graph;
      previous := current;
      SetCurrentState(next);
      assert graph == f;
      FollowPreserves(grid, g0, previous, d);
      RunAnalysis();
      MovedCard(grid, g0, previous, p0, r0, d, f, next, graph);
    }

    /**
     * `route()`: the cached route, or else, after the analysis, the walk of
     * `RouteWalk` from the current State, which is then cached.
     */
    method Route() returns (r: seq<nat>)
      requires Valid()
      modifies this`graph, this`route
      ensures Valid() && graph.dirty == [] && route == Some(r)
      ensures IsRoute(graph.states, r, current, solved)
      ensures forall p :: IsPath(graph.states, p) && p[0] == current && p[|p| - 1] == solved ==> |r| <= |p|
      ensures old(route).Some? ==> r == old(route).value && graph == old(graph)
      ensures old(route).None? ==> graph == Closure(grid, old(graph))
    {
      if route.None? {
        Settle();
        r := RouteWalk(grid, graph, current);
        route := Some(r);
        RoutedCardOk(grid, graph, current, previous, r);
        RouteShortest(grid, graph, current, r);
      } else {
        r := route.value;
        CardSolved(grid, graph, current, previous, route);
        RouteShortest(grid, graph, current, r);
      }
    }

    /** The analysis as `route()` runs it: it leaves a settled, valid card. */
    method Settle()
      requires CardOk(grid, graph, current, previous, None)
      modifies this`graph
      ensures graph == Closure(grid, old(graph))
      ensures CardOk(grid, graph, current, previous, None) && graph.dirty == [] && graph.states[0].isSolved
      ensures route == old(route)
    {
      ghost var g0 := graph;
      PerformSolveDistanceDataflowAnalysis();
      ClosureCardOk(grid, g0, current, previous, graph);
    }

    /**
     * `minMaxSuccessor`: the first known successor strictly closer than
     * every one before it and than the State itself, or the State itself
     * when no known successor is strictly closer.
     */
    method MinMaxSuccessor(id: nat) returns (r: nat)
      requires Closed(graph.states) && id < |graph.states|
      ensures r < |graph.states|
      ensures r == id <==> !CloserKnown(graph.states, id)
      ensures r != id ==>
                Lt(graph.states[r].dist, graph.states[id].dist) &&
                exists p: nat :: IsFirstMinimal(graph.states, graph.states[id].known, p) && graph.states[id].known[p] == r
    {
      var known := graph.states[id].known;
      r := id;
      ghost var pos := 0;
      for k := 0 to |known|
        invariant r < |graph.states|
        invariant r == id ==> forall q :: 0 <= q < k ==> !Lt(graph.states[known[q]].dist, graph.states[id].dist)
        invariant r != id ==>
                    pos < k && known[pos] == r && Lt(graph.states[r].dist, graph.states[id].dist) &&
                    IsFirstMinimal(graph.states, known[..k], pos)
      {
        if Lt(graph.states[known[k]].dist, graph.states[r].dist) {
          r := known[k];
          pos := k;
        }
      }
      assert known[..|known|] == known;
    }

    /**
     * `minMaxHint`: stay when no known successor is strictly closer, and
     * otherwise the first of north, east, south, west whose link is the
     * `minMaxSuccessor`. `HintAfterClosure` shows what this means once the
     * analysis has settled.
     */
    method MinMaxHint(id: nat) returns (h: Hint)
      requires Consistent(grid, graph) && id < |graph.states|
      ensures HintOk(grid, graph, id, h)
    {
      var m := MinMaxSuccessor(id);
      if m == id {
        h := Stay;
      } else {
        MinMaxLinked(grid, graph, id, m);
        h := Toward(graph.states[id].LinkTo(m));
      }
      HintChosen(grid, graph, id, m, h);
    }
  }

  /**
   * The loop of `route()` over a settled graph: from `from`, step to the
   * first known successor of least distance until the solved State 0 is
   * reached. Each step lowers the distance by one, so the walk is a route,
   * and no walk to the solved State is shorter.
   */
  method RouteWalk(ghost g: Grid, sg: StateGraph, from: nat) returns (r: seq<nat>)
    requires Consistent(g, sg) && sg.dirty == [] && 0 < |sg.states| && sg.states[0].isSolved
    requires from < |sg.states|
    ensures IsRoute(sg.states, r, from, 0)
  {
    var st := sg.states;
    var state: nat := from;
    RouteStart(g, sg, from);
    RouteStart(g, sg, 0);
    r := [state];
    while state != 0
      invariant state < |st| && Countdown(st, r) && r[0] == from && r[|r| - 1] == state
      decreases st[state].dist.n
    {
      RouteStep(g, sg, state);
      var best, pos := BestSuccessor(st, st[state].known);
      if best.None? {
        assert false;
        break;
      }
      RouteAdvance(g, sg, r, state, pos);
      r := r + [best.value];
      state := best.value;
    }
    CountdownRoute(st, r);
  }

  /**
   * The inner loop of `route()`: the first of the known successors `known`
   * whose distance is strictly below that of every one before it and no
   * larger than any after it, or None when there are none.
   */
  method BestSuccessor(st: seq<Node>, known: seq<nat>) returns (best: Option<nat>, ghost pos: nat)
    requires forall k :: 0 <= k < |known| ==> known[k] < |st|
    ensures best.None? <==> known == []
    ensures best.Some? ==> pos < |known| && best.value == known[pos] && IsFirstMinimal(st, known, pos)
  {
    best := None;
    pos := 0;
    for k := 0 to |known|
      invariant best.None? <==> k == 0
      invariant best.Some? ==> pos < k && best.value == known[pos] && IsFirstMinimal(st, known[..k], pos)
    {
      if best.None? || Lt(st[known[k]].dist, st[best.value].dist) {
        best := Some(known[k]);
        pos := k;
      }
    }
    assert known[..|known|] == known;
  }
}
