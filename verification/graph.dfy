/**
 * The puzzle-state graph as plain values: the arena of State records
 * (indexed by State id), the canonical registry from arrangement to id, the
 * dirty worklist, and the invariants that tie them together. The
 * `BusinessCard` class keeps these values in its fields and preserves the
 * invariants; the lemmas here are what the invariants buy.
 */
module Graph {
  import opened Wrappers
  import opened Arrangement
  import opened Distance
  import opened InsertionSet

  /** The order north, east, south, west in which links are searched. */
  function DirRank(d: Dir): nat
  {
    match d
    case North => 0
    case East => 1
    case South => 2
    case West => 3
  }

  /**
   * One State: its arrangement and inverse, the solved flag, the four lazily
   * filled direction links (None = not yet explored), the set of known
   * successors and the current best solve distance.
   */
  datatype Node = Node(
    loc2tile: seq<nat>,
    tile2loc: seq<nat>,
    isSolved: bool,
    north: Option<nat>,
    east: Option<nat>,
    south: Option<nat>,
    west: Option<nat>,
    known: seq<nat>,
    dist: Dist)
  {
    function Link(d: Dir): Option<nat>
    {
      match d
      case North => north
      case East => east
      case South => south
      case West => west
    }

    /** The same State with the link in direction `d` set to `j`. */
    function WithLink(d: Dir, j: nat): (n: Node)
      ensures n.Link(d) == Some(j)
      ensures forall e :: e != d ==> n.Link(e) == Link(e)
      ensures n.loc2tile == loc2tile && n.tile2loc == tile2loc && n.isSolved == isSolved
      ensures n.known == known && n.dist == dist
    {
      match d
      case North => this.(north := Some(j))
      case East => this.(east := Some(j))
      case South => this.(south := Some(j))
      case West => this.(west := Some(j))
    }

    /** Some direction link points at `j`. */
    predicate Linked(j: nat)
    {
      north == Some(j) || east == Some(j) || south == Some(j) || west == Some(j)
    }

    /** The first direction, in the order north, east, south, west, whose link points at `j`. */
    function LinkTo(j: nat): (d: Dir)
      requires Linked(j)
      ensures Link(d) == Some(j)
      ensures forall e :: DirRank(e) < DirRank(d) ==> Link(e) != Some(j)
    {
      if north == Some(j) then North else if east == Some(j) then East
      else if south == Some(j) then South else West
    }

    predicate HasSomeSuccessorKnown()
    {
      north.Some? || east.Some? || south.Some? || west.Some?
    }
  }

  /** A freshly constructed State: no links, no known successors, distance +∞. */
  function NewNode(loc2tile: seq<nat>, tile2loc: seq<nat>, isSolved: bool): Node
  {
    Node(loc2tile, tile2loc, isSolved, None, None, None, None, [], Inf)
  }

  /** Two records that differ at most in their distance. */
  predicate SameShape(a: Node, b: Node)
  {
    a.loc2tile == b.loc2tile && a.tile2loc == b.tile2loc && a.isSolved == b.isSolved &&
    a.north == b.north && a.east == b.east && a.south == b.south && a.west == b.west &&
    a.known == b.known
  }

  predicate SameShapes(st0: seq<Node>, st1: seq<Node>)
  {
    |st0| == |st1| && forall i :: 0 <= i < |st0| ==> SameShape(st0[i], st1[i])
  }

  /** `Map.get`: the id registered for an arrangement, if any. */
  function Lookup(canon: map<seq<nat>, nat>, key: seq<nat>): (r: Option<nat>)
    ensures r.Some? <==> key in canon
    ensures r.Some? ==> r.value == canon[key]
  {
    if key in canon then Some(canon[key]) else None
  }

  /** Over a registry, `Map.get` finds a State exactly when one holds `key`, and it finds that State. */
  lemma LookupRegistered(st: seq<Node>, canon: map<seq<nat>, nat>, key: seq<nat>)
    requires Registry(st, canon)
    ensures Lookup(canon, key).Some? <==> exists i :: 0 <= i < |st| && st[i].loc2tile == key
    ensures Lookup(canon, key).Some? ==> Lookup(canon, key).value < |st| && st[Lookup(canon, key).value].loc2tile == key
  {
    if key in canon {
      assert st[canon[key]].loc2tile == key;
    }
  }

  // ---------------------------------------------------------------------
  // Structural invariants

  /** Every id stored in a State refers to a State of the arena. */
  ghost predicate Closed(st: seq<Node>)
  {
    (forall i, d :: 0 <= i < |st| && st[i].Link(d).Some? ==> st[i].Link(d).value < |st|) &&
    (forall i, k :: 0 <= i < |st| && 0 <= k < |st[i].known| ==> st[i].known[k] < |st|)
  }

  /** A State's derived fields agree with its arrangement; its known set has no duplicates. */
  ghost predicate NodeOk(g: Grid, n: Node)
  {
    IsArrangement(g, n.loc2tile) && n.tile2loc == Inverse(n.loc2tile) &&
    n.isSolved == (n.loc2tile == Identity(g.Size())) &&
    Distinct(n.known)
  }

  ghost predicate NodesOk(g: Grid, st: seq<Node>)
  {
    g.Valid() && Closed(st) && forall i :: 0 <= i < |st| ==> NodeOk(g, st[i])
  }

  /** The registry maps each arrangement to the one State holding it, ids are 0 .. size-1. */
  ghost predicate Registry(st: seq<Node>, canon: map<seq<nat>, nat>)
  {
    |canon| == |st| &&
    (forall key :: key in canon ==> canon[key] < |st| && st[canon[key]].loc2tile == key) &&
    (forall i :: 0 <= i < |st| ==> st[i].loc2tile in canon && canon[st[i].loc2tile] == i)
  }

  /** The link of State `i` in direction `d` is the registered State of the neighbour arrangement, if it exists. */
  ghost predicate LinkExact(g: Grid, st: seq<Node>, canon: map<seq<nat>, nat>, i: nat, d: Dir)
    requires NodesOk(g, st) && i < |st|
  {
    st[i].Link(d) == Lookup(canon, Successor(g, st[i].loc2tile, d))
  }

  ghost predicate LinksExact(g: Grid, st: seq<Node>, canon: map<seq<nat>, nat>)
    requires NodesOk(g, st)
  {
    forall i, d :: 0 <= i < |st| ==> LinkExact(g, st, canon, i, d)
  }

  /** The known successors are exactly the targets of the direction links. */
  ghost predicate KnownAreLinks(st: seq<Node>)
  {
    (forall i, k :: 0 <= i < |st| && 0 <= k < |st[i].known| ==> st[i].Linked(st[i].known[k])) &&
    (forall i, d :: 0 <= i < |st| && st[i].Link(d).Some? ==> st[i].Link(d).value in st[i].known)
  }

  /** If `j` is a known successor of `i`, then `i` is a known successor of `j`. */
  ghost predicate KnownSymmetric(st: seq<Node>)
    requires Closed(st)
  {
    forall i, k :: 0 <= i < |st| && 0 <= k < |st[i].known| ==> i in st[st[i].known[k]].known
  }

  ghost predicate HasOlderKnown(st: seq<Node>, i: nat)
    requires i < |st|
  {
    exists k :: 0 <= k < |st[i].known| && st[i].known[k] < i
  }

  /** Every State but the first was discovered next to an older one. */
  ghost predicate Rooted(st: seq<Node>, upto: nat)
    requires upto <= |st|
  {
    forall i :: 0 < i < upto ==> HasOlderKnown(st, i)
  }

  ghost predicate Structure(g: Grid, st: seq<Node>, canon: map<seq<nat>, nat>)
  {
    NodesOk(g, st) && Registry(st, canon) && LinksExact(g, st, canon) &&
    KnownAreLinks(st) && KnownSymmetric(st) && Rooted(st, |st|)
  }

  // ---------------------------------------------------------------------
  // Distance invariants

  function Dists(st: seq<Node>): (ds: seq<Dist>)
    ensures |ds| == |st| && forall i :: 0 <= i < |st| ==> ds[i] == st[i].dist
  {
    seq(|st|, i requires 0 <= i < |st| => st[i].dist)
  }

  /** How many distances are finite. */
  function CountFinite(ds: seq<Dist>): (c: nat)
    ensures c <= |ds|
  {
    if ds == [] then 0
    else CountFinite(ds[..|ds| - 1]) + (if ds[|ds| - 1].Fin? then 1 else 0)
  }

  /** The sum of the distances, each +∞ counted as `bound`. */
  function Potential(ds: seq<Dist>, bound: nat): nat
  {
    if ds == [] then 0
    else Potential(ds[..|ds| - 1], bound) + (if ds[|ds| - 1].Fin? then ds[|ds| - 1].n else bound)
  }

  ghost predicate CloserKnown(st: seq<Node>, i: nat)
    requires Closed(st) && i < |st|
  {
    exists k :: 0 <= k < |st[i].known| && Lt(st[st[i].known[k]].dist, st[i].dist)
  }

  /**
   * Only solved States have distance 0; a positive finite distance is backed
   * by a known successor that is strictly closer; and every finite distance
   * is smaller than the number of States with a finite distance.
   */
  ghost predicate DistanceOk(st: seq<Node>, i: nat)
    requires Closed(st) && i < |st|
  {
    (st[i].dist == Fin(0) ==> st[i].isSolved) &&
    (st[i].dist.Fin? && st[i].dist.n > 0 ==> CloserKnown(st, i)) &&
    (st[i].dist.Fin? ==> st[i].dist.n < CountFinite(Dists(st)))
  }

  ghost predicate DistancesOk(st: seq<Node>)
    requires Closed(st)
  {
    forall i :: 0 <= i < |st| ==> DistanceOk(st, i)
  }

  /**
   * A State that needs no relaxation: a solved one has distance 0, any other
   * is within one move of each known successor's distance, i.e. at most
   * `1 + min` of them.
   */
  ghost predicate Settled(st: seq<Node>, i: nat)
    requires Closed(st) && i < |st|
  {
    if st[i].isSolved then st[i].dist == Fin(0)
    else forall k :: 0 <= k < |st[i].known| ==> Le(st[i].dist, Plus1(st[st[i].known[k]].dist))
  }

  /** Every State outside the worklist `pending` is settled. */
  ghost predicate SettledOutside(st: seq<Node>, pending: seq<nat>)
    requires Closed(st)
  {
    forall i :: 0 <= i < |st| && i !in pending ==> Settled(st, i)
  }

  ghost predicate DirtyOk(st: seq<Node>, dirty: seq<nat>)
  {
    (forall k :: 0 <= k < |dirty| ==> dirty[k] < |st|) && Distinct(dirty)
  }

  /** Everything except the settledness of the States in the worklist. */
  ghost predicate GraphCore(g: Grid, st: seq<Node>, canon: map<seq<nat>, nat>, dirty: seq<nat>)
  {
    Structure(g, st, canon) && DirtyOk(st, dirty) && DistancesOk(st)
  }

  ghost predicate GraphInv(g: Grid, st: seq<Node>, canon: map<seq<nat>, nat>, dirty: seq<nat>)
  {
    GraphCore(g, st, canon, dirty) && SettledOutside(st, dirty)
  }

  // ---------------------------------------------------------------------
  // What the structural invariants promise

  /** Deduplication: two States never hold the same arrangement. */
  lemma Dedup(st: seq<Node>, canon: map<seq<nat>, nat>, i: nat, j: nat)
    requires Registry(st, canon) && i < |st| && j < |st|
    ensures st[i].loc2tile == st[j].loc2tile <==> i == j
  {
  }

  /** Only one State is solved. */
  lemma SolvedUnique(g: Grid, st: seq<Node>, canon: map<seq<nat>, nat>, i: nat, j: nat)
    requires Structure(g, st, canon) && i < |st| && j < |st|
    requires st[i].isSolved && st[j].isSolved
    ensures i == j
  {
    assert NodeOk(g, st[i]) && NodeOk(g, st[j]);
  }

  /**
   * Symmetric adjacency: if the link of `i` in direction `d` is another
   * State `j`, then the link of `j` in the opposite direction is `i`, and
   * each is a known successor of the other.
   */
  lemma LinksSymmetric(g: Grid, st: seq<Node>, canon: map<seq<nat>, nat>, i: nat, d: Dir)
    requires Structure(g, st, canon) && i < |st|
    requires st[i].Link(d).Some? && st[i].Link(d).value != i
    ensures st[st[i].Link(d).value].Link(Opposite(d)) == Some(i)
    ensures st[i].Link(d).value in st[i].known && i in st[st[i].Link(d).value].known
  {
    var j := st[i].Link(d).value;
    var s := st[i].loc2tile;
    assert LinkExact(g, st, canon, i, d);
    assert st[j].loc2tile == Successor(g, s, d);
    RoundTrip(g, s, d);
    assert LinkExact(g, st, canon, j, Opposite(d));
  }

  /**
   * Boundary self-loop: a State links to itself in direction `d` exactly
   * when the hole lies on that edge of the grid.
   */
  lemma SelfLoopAtEdge(g: Grid, st: seq<Node>, canon: map<seq<nat>, nat>, i: nat, d: Dir)
    requires Structure(g, st, canon) && i < |st|
    ensures st[i].Link(d) == Some(i) <==> !InGrid(g, Step(HolePos(g, st[i].loc2tile), d))
  {
    assert LinkExact(g, st, canon, i, d);
    SwapLocGeometry(g, st[i].loc2tile, d);
  }

  /** Some direction link is filled exactly when the known set is non-empty. */
  lemma SomeKnown(st: seq<Node>, i: nat)
    requires KnownAreLinks(st) && i < |st|
    ensures st[i].HasSomeSuccessorKnown() <==> |st[i].known| > 0
  {
    if |st[i].known| > 0 {
      assert st[i].Linked(st[i].known[0]);
    }
    if st[i].HasSomeSuccessorKnown() {
      var d :| st[i].Link(d).Some?;
    }
  }

  /**
   * Once the worklist is empty, every State has a finite distance: each one
   * is reached from the solved State through older known successors.
   */
  lemma {:induction false} FiniteAfterClosure(g: Grid, st: seq<Node>, canon: map<seq<nat>, nat>, i: nat)
    requires GraphInv(g, st, canon, []) && i < |st| && st[0].isSolved
    ensures st[i].dist.Fin?
    decreases i
  {
    assert Settled(st, i);
    if !st[i].isSolved {
      assert HasOlderKnown(st, i);
      var k :| 0 <= k < |st[i].known| && st[i].known[k] < i;
      FiniteAfterClosure(g, st, canon, st[i].known[k]);
    }
  }

  /** Position `p` of `ks` holds the first State of least distance. */
  ghost predicate IsFirstMinimal(st: seq<Node>, ks: seq<nat>, p: nat)
    requires forall k :: 0 <= k < |ks| ==> ks[k] < |st|
  {
    p < |ks| &&
    (forall q :: 0 <= q < |ks| ==> Le(st[ks[p]].dist, st[ks[q]].dist)) &&
    (forall q :: 0 <= q < p ==> Lt(st[ks[p]].dist, st[ks[q]].dist))
  }

  /**
   * After closure, an unsolved State at finite distance `n` has `n > 0`, and
   * its nearest known successor is at distance exactly `n - 1`.
   */
  lemma ClosedStep(g: Grid, st: seq<Node>, canon: map<seq<nat>, nat>, i: nat, p: nat)
    requires GraphInv(g, st, canon, []) && i < |st|
    requires !st[i].isSolved && st[i].dist.Fin?
    requires IsFirstMinimal(st, st[i].known, p)
    ensures st[i].dist.n > 0 && st[st[i].known[p]].dist == Fin(st[i].dist.n - 1)
  {
    assert DistanceOk(st, i) && Settled(st, i);
    NearestOneCloser(st, i, p);
  }

  /** `ClosedStep` for one State, from its own distance facts alone. */
  lemma NearestOneCloser(st: seq<Node>, i: nat, p: nat)
    requires Closed(st) && i < |st| && DistanceOk(st, i) && Settled(st, i)
    requires !st[i].isSolved && st[i].dist.Fin?
    requires IsFirstMinimal(st, st[i].known, p)
    ensures st[i].dist.n > 0 && st[st[i].known[p]].dist == Fin(st[i].dist.n - 1)
  {
    var k :| 0 <= k < |st[i].known| && Lt(st[st[i].known[k]].dist, st[i].dist);
    assert Le(st[st[i].known[p]].dist, st[st[i].known[k]].dist);
    assert Le(st[i].dist, Plus1(st[st[i].known[p]].dist));
  }

  // ---------------------------------------------------------------------
  // Counting finite distances

  lemma {:induction false} CountFiniteUpdate(ds: seq<Dist>, i: nat, x: Dist)
    requires i < |ds|
    ensures CountFinite(ds[i := x]) + (if ds[i].Fin? then 1 else 0) ==
            CountFinite(ds) + (if x.Fin? then 1 else 0)
    decreases |ds|
  {
    var ds' := ds[i := x];
    if i < |ds| - 1 {
      assert ds'[..|ds| - 1] == ds[..|ds| - 1][i := x];
      CountFiniteUpdate(ds[..|ds| - 1], i, x);
    } else {
      assert ds'[..|ds| - 1] == ds[..|ds| - 1];
    }
  }

  lemma {:induction false} PotentialUpdate(ds: seq<Dist>, i: nat, x: Dist, bound: nat)
    requires i < |ds|
    ensures Potential(ds[i := x], bound) + (if ds[i].Fin? then ds[i].n else bound) ==
            Potential(ds, bound) + (if x.Fin? then x.n else bound)
    decreases |ds|
  {
    var ds' := ds[i := x];
    if i < |ds| - 1 {
      assert ds'[..|ds| - 1] == ds[..|ds| - 1][i := x];
      PotentialUpdate(ds[..|ds| - 1], i, x, bound);
    } else {
      assert ds'[..|ds| - 1] == ds[..|ds| - 1];
    }
  }

  /** Lowering one distance to a finite value below `bound` lowers the potential. */
  lemma PotentialDrops(ds: seq<Dist>, i: nat, x: Dist, bound: nat)
    requires i < |ds| && Lt(x, ds[i]) && x.n < bound
    ensures Potential(ds[i := x], bound) < Potential(ds, bound)
  {
    PotentialUpdate(ds, i, x, bound);
  }

  // ---------------------------------------------------------------------
  // Creating a State and back-linking it

  /** Nothing known is forgotten: arrangements and distances stay, known sets only grow at the end. */
  ghost predicate Grows(st0: seq<Node>, st1: seq<Node>)
  {
    |st0| <= |st1| &&
    forall i :: 0 <= i < |st0| ==>
      st1[i].loc2tile == st0[i].loc2tile && st1[i].tile2loc == st0[i].tile2loc &&
      st1[i].isSolved == st0[i].isSolved && st1[i].dist == st0[i].dist &&
      st0[i].known <= st1[i].known
  }

  lemma GrowsTransitive(st0: seq<Node>, st1: seq<Node>, st2: seq<Node>)
    requires Grows(st0, st1) && Grows(st1, st2)
    ensures Grows(st0, st2)
  {
    forall i | 0 <= i < |st0| ensures st0[i].known <= st2[i].known {
      assert st0[i].known <= st1[i].known <= st2[i].known;
    }
  }

  lemma GrowsKeepsDistances(st0: seq<Node>, st1: seq<Node>)
    requires Closed(st0) && Closed(st1) && Grows(st0, st1) && DistancesOk(st0)
    requires forall i :: |st0| <= i < |st1| ==> st1[i].dist == Inf
    requires CountFinite(Dists(st1)) == CountFinite(Dists(st0))
    ensures DistancesOk(st1)
  {
    forall i | 0 <= i < |st1| ensures DistanceOk(st1, i) {
      if i < |st0| {
        assert DistanceOk(st0, i);
        if st1[i].dist.Fin? && st1[i].dist.n > 0 {
          var k :| 0 <= k < |st0[i].known| && Lt(st0[st0[i].known[k]].dist, st0[i].dist);
          assert st1[i].known[k] == st0[i].known[k];
        }
      }
    }
  }

  lemma GrowsKeepsRooted(st0: seq<Node>, st1: seq<Node>, upto: nat)
    requires Grows(st0, st1) && upto <= |st0| && Rooted(st0, upto)
    ensures Rooted(st1, upto)
  {
    forall i | 0 < i < upto ensures HasOlderKnown(st1, i) {
      assert HasOlderKnown(st0, i);
      var k :| 0 <= k < |st0[i].known| && st0[i].known[k] < i;
      assert st1[i].known[k] == st0[i].known[k];
    }
  }

  /** A State whose known set and whose successors' distances did not change stays settled. */
  lemma SettledKept(st0: seq<Node>, st1: seq<Node>, i: nat)
    requires Closed(st0) && Closed(st1) && i < |st0| <= |st1| && Settled(st0, i)
    requires st1[i].isSolved == st0[i].isSolved && st1[i].dist == st0[i].dist && st1[i].known == st0[i].known
    requires forall k :: 0 <= k < |st0[i].known| ==> st1[st0[i].known[k]].dist == st0[st0[i].known[k]].dist
    ensures Settled(st1, i)
  {
  }

  /**
   * The link a State holding `arr` has in direction `d` while the newest
   * State, holding `newArr`, is being back-linked, `done` holding the
   * directions of the newest State already handled: links of the newest
   * State, and links towards it, appear once their direction is handled.
   */
  ghost function ExpectedLink(g: Grid, canon: map<seq<nat>, nat>, newArr: seq<nat>, done: set<Dir>, arr: seq<nat>, d: Dir): Option<nat>
    requires g.Valid() && IsArrangement(g, newArr) && IsArrangement(g, arr)
  {
    if arr == newArr then
      (if d in done then Lookup(canon, Successor(g, newArr, d)) else None)
    else if Successor(g, arr, d) == newArr && Opposite(d) !in done then None
    else Lookup(canon, Successor(g, arr, d))
  }

  ghost predicate LinksExpected(g: Grid, st: seq<Node>, canon: map<seq<nat>, nat>, n: nat, done: set<Dir>)
    requires NodesOk(g, st) && n < |st|
  {
    forall i, d :: 0 <= i < |st| ==>
      st[i].Link(d) == ExpectedLink(g, canon, st[n].loc2tile, done, st[i].loc2tile, d)
  }

  /** The invariant while the newest State `n` is back-linked. */
  ghost predicate Building(g: Grid, st: seq<Node>, canon: map<seq<nat>, nat>, dirty: seq<nat>, n: nat, done: set<Dir>)
  {
    |st| == n + 1 && NodesOk(g, st) && Registry(st, canon) &&
    LinksExpected(g, st, canon, n, done) &&
    KnownAreLinks(st) && KnownSymmetric(st) && Rooted(st, n) &&
    DirtyOk(st, dirty) && n in dirty && DistancesOk(st) && SettledOutside(st, dirty)
  }

  lemma CreateStartNodes(g: Grid, st: seq<Node>, canon: map<seq<nat>, nat>, arr: seq<nat>)
    requires NodesOk(g, st) && Registry(st, canon) && IsArrangement(g, arr) && arr !in canon
    ensures NodesOk(g, st + [NewNode(arr, Inverse(arr), arr == Identity(g.Size()))])
    ensures Registry(st + [NewNode(arr, Inverse(arr), arr == Identity(g.Size()))], canon[arr := |st|])
  {
    AppendNodesOk(g, st, NewNode(arr, Inverse(arr), arr == Identity(g.Size())));
    AppendRegistry(st, canon, NewNode(arr, Inverse(arr), arr == Identity(g.Size())));
  }

  lemma AppendNodesOk(g: Grid, st: seq<Node>, n: Node)
    requires NodesOk(g, st) && NodeOk(g, n)
    requires n.known == [] && n.north.None? && n.east.None? && n.south.None? && n.west.None?
    ensures NodesOk(g, st + [n])
  {
    var st1 := st + [n];
    AppendClosed(st, n);
    forall i | 0 <= i < |st1| ensures NodeOk(g, st1[i]) {
      if i < |st| {
        assert st1[i] == st[i];
      }
    }
  }

  lemma AppendRegistry(st: seq<Node>, canon: map<seq<nat>, nat>, n: Node)
    requires Registry(st, canon) && n.loc2tile !in canon
    ensures Registry(st + [n], canon[n.loc2tile := |st|])
  {
    var st1, canon1 := st + [n], canon[n.loc2tile := |st|];
    assert |canon1| == |canon| + 1;
    forall i | 0 <= i < |st1| ensures st1[i].loc2tile in canon1 && canon1[st1[i].loc2tile] == i {
      if i < |st| {
        assert st1[i] == st[i];
      }
    }
  }


  /** Appending a record without links keeps the arena closed. */
  lemma AppendClosed(st: seq<Node>, n: Node)
    requires Closed(st) && n.known == [] && n.north.None? && n.east.None? && n.south.None? && n.west.None?
    ensures Closed(st + [n])
  {
    var st1 := st + [n];
    assert forall i :: 0 <= i < |st| ==> st1[i] == st[i];
  }

  lemma CreateStartLinks(g: Grid, st: seq<Node>, canon: map<seq<nat>, nat>, arr: seq<nat>)
    requires NodesOk(g, st) && Registry(st, canon) && LinksExact(g, st, canon)
    requires IsArrangement(g, arr) && arr !in canon
    requires NodesOk(g, st + [NewNode(arr, Inverse(arr), arr == Identity(g.Size()))])
    ensures LinksExpected(g, st + [NewNode(arr, Inverse(arr), arr == Identity(g.Size()))], canon[arr := |st|], |st|, {})
  {
    var n := |st|;
    var st1 := st + [NewNode(arr, Inverse(arr), arr == Identity(g.Size()))];
    var canon1 := canon[arr := n];
    forall i, d | 0 <= i < |st1| ensures st1[i].Link(d) == ExpectedLink(g, canon1, arr, {}, st1[i].loc2tile, d) {
      if i < n {
        assert st1[i] == st[i];
        assert NodeOk(g, st[i]) && LinkExact(g, st, canon, i, d);
        StartLink(g, st, canon, arr, i, d);
      }
    }
  }

  /** Before any direction is handled, an older State's link is its exact link. */
  lemma StartLink(g: Grid, st: seq<Node>, canon: map<seq<nat>, nat>, arr: seq<nat>, i: nat, d: Dir)
    requires g.Valid() && IsArrangement(g, arr) && arr !in canon && i < |st|
    requires NodeOk(g, st[i]) && st[i].loc2tile in canon
    requires st[i].Link(d) == Lookup(canon, Successor(g, st[i].loc2tile, d))
    ensures st[i].Link(d) == ExpectedLink(g, canon[arr := |st|], arr, {}, st[i].loc2tile, d)
  {
    var s := Successor(g, st[i].loc2tile, d);
    if s == arr {
      assert Lookup(canon, s) == None;
    } else {
      assert Lookup(canon[arr := |st|], s) == Lookup(canon, s);
    }
  }

  lemma CreateStartDistances(st: seq<Node>, dirty: seq<nat>, n1: Node)
    requires Closed(st) && DistancesOk(st) && Rooted(st, |st|) && SettledOutside(st, dirty)
    requires n1.known == [] && n1.dist == Inf && n1.north.None? && n1.east.None? && n1.south.None? && n1.west.None?
    ensures Closed(st + [n1]) && DistancesOk(st + [n1]) && Rooted(st + [n1], |st|)
    ensures SettledOutside(st + [n1], Add(dirty, |st|))
  {
    var st1 := st + [n1];
    assert forall i :: 0 <= i < |st| ==> st1[i] == st[i];
    assert Closed(st1) && Grows(st, st1);
    AppendKeepsDistances(st, n1);
    GrowsKeepsRooted(st, st1, |st|);
    forall i | 0 <= i < |st1| && i !in Add(dirty, |st|) ensures Settled(st1, i) {
      SettledAppended(st, n1, i);
    }
  }

  /** Appending a State with no distance keeps every distance justified. */
  lemma AppendKeepsDistances(st: seq<Node>, n1: Node)
    requires Closed(st) && Closed(st + [n1]) && DistancesOk(st) && n1.dist == Inf
    ensures DistancesOk(st + [n1])
  {
    var st1 := st + [n1];
    assert forall i :: 0 <= i < |st| ==> st1[i] == st[i];
    assert Grows(st, st1);
    assert Dists(st1) == Dists(st) + [Inf];
    assert Dists(st1)[..|st|] == Dists(st);
    GrowsKeepsDistances(st, st1);
  }

  /** Appending a State leaves a settled State settled. */
  lemma SettledAppended(st: seq<Node>, n1: Node, i: nat)
    requires Closed(st) && Closed(st + [n1]) && i < |st| && Settled(st, i)
    ensures Settled(st + [n1], i)
  {
    var st1 := st + [n1];
    assert st1[i] == st[i];
    assert forall k :: 0 <= k < |st[i].known| ==> st1[st[i].known[k]] == st[st[i].known[k]];
    SettledKept(st, st1, i);
  }

  lemma CreateStartKnown(st: seq<Node>, dirty: seq<nat>, n1: Node)
    requires Closed(st) && KnownAreLinks(st) && KnownSymmetric(st) && DirtyOk(st, dirty)
    requires n1.known == [] && n1.north.None? && n1.east.None? && n1.south.None? && n1.west.None?
    ensures Closed(st + [n1]) && KnownAreLinks(st + [n1]) && KnownSymmetric(st + [n1])
    ensures DirtyOk(st + [n1], Add(dirty, |st|)) && |st| in Add(dirty, |st|)
  {
    var st1 := st + [n1];
    assert forall i :: 0 <= i < |st| ==> st1[i] == st[i];
    assert n1.Link(North).None? && n1.Link(East).None? && n1.Link(South).None? && n1.Link(West).None?;
    assert Closed(st1);
  }

  /** A new State for an unregistered arrangement, registered and dirtied, starts the back-linking. */
  lemma CreateStart(g: Grid, st: seq<Node>, canon: map<seq<nat>, nat>, dirty: seq<nat>, arr: seq<nat>)
    requires GraphInv(g, st, canon, dirty) && IsArrangement(g, arr) && arr !in canon
    ensures Building(g, st + [NewNode(arr, Inverse(arr), arr == Identity(g.Size()))],
                     canon[arr := |st|], Add(dirty, |st|), |st|, {})
  {
    var st1 := st + [NewNode(arr, Inverse(arr), arr == Identity(g.Size()))];
    CreateStartNodes(g, st, canon, arr);
    CreateStartLinks(g, st, canon, arr);
    CreateStartKnown(st, dirty, NewNode(arr, Inverse(arr), arr == Identity(g.Size())));
    CreateStartDistances(st, dirty, NewNode(arr, Inverse(arr), arr == Identity(g.Size())));
  }

  /** If one arrangement moves to a different one in direction `e`, the other moves back in the opposite direction. */
  lemma BackLink(g: Grid, arr: seq<nat>, other: seq<nat>, e: Dir)
    requires g.Valid() && IsArrangement(g, arr) && arr != other
    requires Successor(g, arr, e) == other
    ensures Successor(g, other, Opposite(e)) == arr
  {
    RoundTrip(g, arr, e);
  }

  /**
   * Handling direction `d` of the newest State changes the expected link of
   * no other arrangement than its `d` neighbour's, in direction `Opposite(d)`.
   */
  lemma ExpectedStable(g: Grid, canon: map<seq<nat>, nat>, newArr: seq<nat>, done: set<Dir>, d: Dir, arr: seq<nat>, e: Dir)
    requires g.Valid() && IsArrangement(g, newArr) && IsArrangement(g, arr) && arr != newArr
    requires !(Successor(g, newArr, d) == arr && e == Opposite(d))
    ensures ExpectedLink(g, canon, newArr, done + {d}, arr, e) == ExpectedLink(g, canon, newArr, done, arr, e)
  {
    var s := Successor(g, arr, e);
    if s == newArr {
      if Opposite(e) == d {
        BackLinkOpposite(g, arr, newArr, e, d);
        assert false;
      }
      assert (Opposite(e) in done + {d}) == (Opposite(e) in done);
      assert ExpectedLink(g, canon, newArr, done + {d}, arr, e) == (if Opposite(e) in done then Lookup(canon, s) else None);
    } else {
      assert ExpectedLink(g, canon, newArr, done + {d}, arr, e) == Lookup(canon, s);
    }
  }

  /** The back link of `BackLink`, stated from the other end. */
  lemma BackLinkOpposite(g: Grid, arr: seq<nat>, other: seq<nat>, e: Dir, d: Dir)
    requires g.Valid() && IsArrangement(g, arr) && arr != other
    requires Successor(g, arr, e) == other && Opposite(e) == d
    ensures Successor(g, other, d) == arr && e == Opposite(d)
  {
    BackLink(g, arr, other, e);
    OppositeOpposite(e);
  }

  /**
   * Handling direction `d` of the newest State `n` keeps the expected links
   * of every other State `i` that is not the neighbour found in direction `d`.
   */
  lemma ExpectedElsewhere(g: Grid, st: seq<Node>, canon: map<seq<nat>, nat>, n: nat, done: set<Dir>, d: Dir, i: nat, e: Dir)
    requires NodesOk(g, st) && Registry(st, canon) && n < |st| && i < |st| && i != n
    requires Lookup(canon, Successor(g, st[n].loc2tile, d)) != Some(i)
    ensures ExpectedLink(g, canon, st[n].loc2tile, done + {d}, st[i].loc2tile, e) ==
            ExpectedLink(g, canon, st[n].loc2tile, done, st[i].loc2tile, e)
  {
    assert NodeOk(g, st[i]) && NodeOk(g, st[n]);
    Dedup(st, canon, i, n);
    assert Successor(g, st[n].loc2tile, d) != st[i].loc2tile;
    ExpectedStable(g, canon, st[n].loc2tile, done, d, st[i].loc2tile, e);
  }

  /** A link of State `nd` in direction `d` to `j`, with `j` added to its known set. */
  function Attach(nd: Node, d: Dir, j: nat): (r: Node)
    ensures r.Link(d) == Some(j) && forall e :: e != d ==> r.Link(e) == nd.Link(e)
    ensures r.known == Add(nd.known, j)
    ensures r.loc2tile == nd.loc2tile && r.tile2loc == nd.tile2loc && r.isSolved == nd.isSolved && r.dist == nd.dist
  {
    nd.WithLink(d, j).(known := Add(nd.known, j))
  }

  /** A step that touches only links and known sets keeps the distance part of the invariant. */
  lemma StepKeepsDistances(st0: seq<Node>, st1: seq<Node>, dirty0: seq<nat>, dirty1: seq<nat>, n: nat)
    requires Closed(st0) && Closed(st1) && |st0| == |st1| && Grows(st0, st1) && n <= |st0|
    requires DistancesOk(st0) && SettledOutside(st0, dirty0) && Rooted(st0, n)
    requires forall x :: x in dirty0 ==> x in dirty1
    requires forall i :: 0 <= i < |st0| && i !in dirty1 ==> st1[i] == st0[i]
    ensures DistancesOk(st1) && SettledOutside(st1, dirty1) && Rooted(st1, n)
  {
    assert Dists(st1) == Dists(st0);
    GrowsKeepsDistances(st0, st1);
    GrowsKeepsRooted(st0, st1, n);
    forall i | 0 <= i < |st1| && i !in dirty1 ensures Settled(st1, i) {
      SettledKept(st0, st1, i);
    }
  }

  /** Storing again the link a State already has changes nothing. */
  lemma RelinkSame(st: seq<Node>, i: nat, d: Dir, j: nat)
    requires i < |st| && st[i].Link(d) == Some(j)
    ensures st[i := st[i].WithLink(d, j)] == st
  {
    assert st[i].WithLink(d, j) == st[i];
  }

  lemma AttachGrows(st: seq<Node>, i: nat, d: Dir, j: nat)
    requires i < |st|
    ensures Grows(st, st[i := Attach(st[i], d, j)])
  {
  }

  /** Direction `d` of State `n` has no registered neighbour: nothing changes but `done`. */
  lemma LinkStepAbsent(g: Grid, st: seq<Node>, canon: map<seq<nat>, nat>, dirty: seq<nat>, n: nat, done: set<Dir>, d: Dir)
    requires Building(g, st, canon, dirty, n, done) && d !in done
    requires Successor(g, st[n].loc2tile, d) !in canon
    ensures Building(g, st, canon, dirty, n, done + {d})
  {
    AbsentLinks(g, st, canon, n, done, d);
  }

  lemma AbsentLinks(g: Grid, st: seq<Node>, canon: map<seq<nat>, nat>, n: nat, done: set<Dir>, d: Dir)
    requires NodesOk(g, st) && Registry(st, canon) && n < |st| && LinksExpected(g, st, canon, n, done) && d !in done
    requires Successor(g, st[n].loc2tile, d) !in canon
    ensures LinksExpected(g, st, canon, n, done + {d})
  {
    forall i, e | 0 <= i < |st|
      ensures st[i].Link(e) == ExpectedLink(g, canon, st[n].loc2tile, done + {d}, st[i].loc2tile, e)
    {
      AbsentLink(g, st, canon, n, done, d, i, e);
    }
  }

  lemma AbsentLink(g: Grid, st: seq<Node>, canon: map<seq<nat>, nat>, n: nat, done: set<Dir>, d: Dir, i: nat, e: Dir)
    requires NodesOk(g, st) && Registry(st, canon) && n < |st| && i < |st| && d !in done
    requires Successor(g, st[n].loc2tile, d) !in canon
    requires st[i].Link(e) == ExpectedLink(g, canon, st[n].loc2tile, done, st[i].loc2tile, e)
    ensures st[i].Link(e) == ExpectedLink(g, canon, st[n].loc2tile, done + {d}, st[i].loc2tile, e)
  {
    if i != n {
      ExpectedElsewhere(g, st, canon, n, done, d, i, e);
    }
  }

  lemma AttachKeepsNodes(g: Grid, st: seq<Node>, i: nat, d: Dir, j: nat)
    requires NodesOk(g, st) && i < |st| && j < |st|
    ensures NodesOk(g, st[i := Attach(st[i], d, j)])
  {
    var st1 := st[i := Attach(st[i], d, j)];
    assert NodeOk(g, st[i]);
    assert NodeOk(g, st1[i]);
  }

  lemma AttachKeepsKnownAreLinks(st: seq<Node>, i: nat, d: Dir, j: nat)
    requires KnownAreLinks(st) && i < |st| && st[i].Link(d).None?
    ensures KnownAreLinks(st[i := Attach(st[i], d, j)])
  {
    var st1 := st[i := Attach(st[i], d, j)];
    forall x, k | 0 <= x < |st1| && 0 <= k < |st1[x].known| ensures st1[x].Linked(st1[x].known[k]) {
      if x == i && st1[x].known[k] != j {
        assert st1[x].known[k] in st[i].known;
        var k0 :| 0 <= k0 < |st[i].known| && st[i].known[k0] == st1[x].known[k];
        assert st[i].Linked(st[i].known[k0]);
      }
    }
  }

  lemma SelfLinks(g: Grid, st: seq<Node>, canon: map<seq<nat>, nat>, n: nat, done: set<Dir>, d: Dir)
    requires NodesOk(g, st) && Registry(st, canon) && n < |st| && LinksExpected(g, st, canon, n, done) && d !in done
    requires Lookup(canon, Successor(g, st[n].loc2tile, d)) == Some(n)
    requires NodesOk(g, st[n := Attach(st[n], d, n)])
    ensures LinksExpected(g, st[n := Attach(st[n], d, n)], canon, n, done + {d})
  {
    var st1 := st[n := Attach(st[n], d, n)];
    forall i, e | 0 <= i < |st1|
      ensures st1[i].Link(e) == ExpectedLink(g, canon, st1[n].loc2tile, done + {d}, st1[i].loc2tile, e)
    {
      SelfLink(g, st, canon, n, done, d, i, e);
    }
  }

  lemma SelfLink(g: Grid, st: seq<Node>, canon: map<seq<nat>, nat>, n: nat, done: set<Dir>, d: Dir, i: nat, e: Dir)
    requires NodesOk(g, st) && Registry(st, canon) && n < |st| && i < |st|
    requires Lookup(canon, Successor(g, st[n].loc2tile, d)) == Some(n)
    requires st[i].Link(e) == ExpectedLink(g, canon, st[n].loc2tile, done, st[i].loc2tile, e)
    ensures (if i == n then Attach(st[n], d, n) else st[i]).Link(e) ==
            ExpectedLink(g, canon, st[n].loc2tile, done + {d}, st[i].loc2tile, e)
  {
    if i != n {
      ExpectedElsewhere(g, st, canon, n, done, d, i, e);
    }
  }

  lemma SelfKnown(st: seq<Node>, n: nat, d: Dir)
    requires Closed(st) && KnownAreLinks(st) && KnownSymmetric(st) && n < |st| && st[n].Link(d).None?
    ensures KnownAreLinks(st[n := Attach(st[n], d, n)]) && KnownSymmetric(st[n := Attach(st[n], d, n)])
  {
    var st1 := st[n := Attach(st[n], d, n)];
    AttachKeepsKnownAreLinks(st, n, d, n);
    forall i, k | 0 <= i < |st1| && 0 <= k < |st1[i].known| ensures i in st1[st1[i].known[k]].known {
      var x := st1[i].known[k];
      if !(i == n && x == n) {
        assert x in st[i].known;
        var k0 :| 0 <= k0 < |st[i].known| && st[i].known[k0] == x;
        assert i in st[x].known;
      }
    }
  }

  /** Adding links and known successors to some States keeps the distance part of the invariant. */
  lemma AttachKeepsDistances(st: seq<Node>, st1: seq<Node>, dirty: seq<nat>, dirty1: seq<nat>, n: nat, j: nat)
    requires Closed(st) && Closed(st1) && |st1| == |st| && n < |st| && j < |st| && n in dirty1 && j in dirty1
    requires DistancesOk(st) && SettledOutside(st, dirty) && Rooted(st, n)
    requires forall x :: x in dirty ==> x in dirty1
    requires forall i :: 0 <= i < |st| && i != n && i != j ==> st1[i] == st[i]
    requires SameShapeButKnown(st[n], st1[n]) && SameShapeButKnown(st[j], st1[j])
    ensures DistancesOk(st1) && SettledOutside(st1, dirty1) && Rooted(st1, n)
  {
    assert Grows(st, st1);
    StepKeepsDistances(st, st1, dirty, dirty1, n);
  }

  /** `b` has `a`'s arrangement and distance, and a known set extending `a`'s. */
  predicate SameShapeButKnown(a: Node, b: Node)
  {
    b.loc2tile == a.loc2tile && b.tile2loc == a.tile2loc && b.isSolved == a.isSolved &&
    b.dist == a.dist && a.known <= b.known
  }

  lemma SelfStepKnown(g: Grid, st: seq<Node>, canon: map<seq<nat>, nat>, dirty: seq<nat>, n: nat, done: set<Dir>, d: Dir)
    requires Building(g, st, canon, dirty, n, done) && d !in done
    ensures KnownAreLinks(st[n := Attach(st[n], d, n)]) && KnownSymmetric(st[n := Attach(st[n], d, n)])
  {
    assert st[n].Link(d) == ExpectedLink(g, canon, st[n].loc2tile, done, st[n].loc2tile, d);
    SelfKnown(st, n, d);
  }

  lemma SelfStepDistances(g: Grid, st: seq<Node>, canon: map<seq<nat>, nat>, dirty: seq<nat>, n: nat, done: set<Dir>, d: Dir)
    requires Building(g, st, canon, dirty, n, done)
    ensures DistancesOk(st[n := Attach(st[n], d, n)]) && Rooted(st[n := Attach(st[n], d, n)], n)
    ensures SettledOutside(st[n := Attach(st[n], d, n)], dirty) && DirtyOk(st[n := Attach(st[n], d, n)], dirty)
  {
    AttachKeepsNodes(g, st, n, d, n);
    AttachKeepsDistances(st, st[n := Attach(st[n], d, n)], dirty, dirty, n, n);
  }

  /** Direction `d` of State `n` leads back to `n` itself: a self-loop is recorded. */
  lemma LinkStepSelf(g: Grid, st: seq<Node>, canon: map<seq<nat>, nat>, dirty: seq<nat>, n: nat, done: set<Dir>, d: Dir)
    requires Building(g, st, canon, dirty, n, done) && d !in done
    requires Lookup(canon, Successor(g, st[n].loc2tile, d)) == Some(n)
    ensures Building(g, st[n := Attach(st[n], d, n)], canon, dirty, n, done + {d})
    ensures Grows(st, st[n := Attach(st[n], d, n)])
  {
    AttachGrows(st, n, d, n);
    AttachKeepsNodes(g, st, n, d, n);
    SelfLinks(g, st, canon, n, done, d);
    SelfStepKnown(g, st, canon, dirty, n, done, d);
    SelfStepDistances(g, st, canon, dirty, n, done, d);
  }

  lemma OtherLinkCell(g: Grid, canon: map<seq<nat>, nat>, done: set<Dir>, d: Dir, nn: Node, nj: Node, ni: Node, isN: bool, isJ: bool, n: nat, j: nat, e: Dir)
    requires g.Valid() && IsArrangement(g, nn.loc2tile) && IsArrangement(g, ni.loc2tile) && d !in done
    requires Lookup(canon, Successor(g, nn.loc2tile, d)) == Some(j) && Lookup(canon, nn.loc2tile) == Some(n)
    requires nj.loc2tile == Successor(g, nn.loc2tile, d) && nj.loc2tile != nn.loc2tile
    requires (ni.loc2tile == nn.loc2tile <==> isN) && (ni.loc2tile == nj.loc2tile <==> isJ)
    requires isN ==> ni == nn
    requires isJ ==> ni == nj
    requires ni.Link(e) == ExpectedLink(g, canon, nn.loc2tile, done, ni.loc2tile, e)
    ensures (if isN then Attach(nn, d, j) else if isJ then Attach(nj, Opposite(d), n) else ni).Link(e) ==
            ExpectedLink(g, canon, nn.loc2tile, done + {d}, ni.loc2tile, e)
  {
    if isN {
      AttachedNewLink(g, canon, done, d, nn, j, e);
    } else if isJ && e == Opposite(d) {
      BackLink(g, nn.loc2tile, nj.loc2tile, d);
      OppositeOpposite(d);
    } else {
      ExpectedStable(g, canon, nn.loc2tile, done, d, ni.loc2tile, e);
    }
  }

  lemma AttachedNewLink(g: Grid, canon: map<seq<nat>, nat>, done: set<Dir>, d: Dir, nn: Node, j: nat, e: Dir)
    requires g.Valid() && IsArrangement(g, nn.loc2tile)
    requires Lookup(canon, Successor(g, nn.loc2tile, d)) == Some(j)
    requires nn.Link(e) == ExpectedLink(g, canon, nn.loc2tile, done, nn.loc2tile, e)
    ensures Attach(nn, d, j).Link(e) == ExpectedLink(g, canon, nn.loc2tile, done + {d}, nn.loc2tile, e)
  {
    if e == d {
      assert d in done + {d};
    } else {
      assert (e in done + {d}) == (e in done);
    }
  }

  lemma OtherLinks(g: Grid, st: seq<Node>, canon: map<seq<nat>, nat>, n: nat, done: set<Dir>, d: Dir, j: nat)
    requires NodesOk(g, st) && Registry(st, canon) && n < |st| && LinksExpected(g, st, canon, n, done) && d !in done
    requires Lookup(canon, Successor(g, st[n].loc2tile, d)) == Some(j) && j != n
    requires NodesOk(g, st[n := Attach(st[n], d, j)][j := Attach(st[j], Opposite(d), n)])
    ensures LinksExpected(g, st[n := Attach(st[n], d, j)][j := Attach(st[j], Opposite(d), n)], canon, n, done + {d})
  {
    var st1 := st[n := Attach(st[n], d, j)][j := Attach(st[j], Opposite(d), n)];
    forall i, e | 0 <= i < |st1|
      ensures st1[i].Link(e) == ExpectedLink(g, canon, st1[n].loc2tile, done + {d}, st1[i].loc2tile, e)
    {
      assert NodeOk(g, st[n]) && NodeOk(g, st[i]);
      assert st[i].Link(e) == ExpectedLink(g, canon, st[n].loc2tile, done, st[i].loc2tile, e);
      Dedup(st, canon, i, n);
      Dedup(st, canon, i, j);
      Dedup(st, canon, n, j);
      OtherLinkCell(g, canon, done, d, st[n], st[j], st[i], i == n, i == j, n, j, e);
    }
  }

  lemma OtherKnown(st: seq<Node>, n: nat, d: Dir, j: nat)
    requires Closed(st) && KnownAreLinks(st) && KnownSymmetric(st) && n < |st| && j < |st| && j != n
    requires st[n].Link(d).None? && st[j].Link(Opposite(d)).None?
    requires Closed(st[n := Attach(st[n], d, j)][j := Attach(st[j], Opposite(d), n)])
    ensures KnownAreLinks(st[n := Attach(st[n], d, j)][j := Attach(st[j], Opposite(d), n)])
    ensures KnownSymmetric(st[n := Attach(st[n], d, j)][j := Attach(st[j], Opposite(d), n)])
  {
    var mid := st[n := Attach(st[n], d, j)];
    var st1 := mid[j := Attach(st[j], Opposite(d), n)];
    AttachKeepsKnownAreLinks(st, n, d, j);
    assert mid[j] == st[j];
    AttachKeepsKnownAreLinks(mid, j, Opposite(d), n);
    forall i, k | 0 <= i < |st1| && 0 <= k < |st1[i].known| ensures i in st1[st1[i].known[k]].known {
      var x := st1[i].known[k];
      if !((i == n && x == j) || (i == j && x == n)) {
        assert x in st[i].known;
        var k0 :| 0 <= k0 < |st[i].known| && st[i].known[k0] == x;
        assert i in st[x].known;
      }
    }
  }

  lemma OtherStepNodes(g: Grid, st: seq<Node>, canon: map<seq<nat>, nat>, n: nat, d: Dir, j: nat)
    requires NodesOk(g, st) && Registry(st, canon) && n < |st| && j < |st| && j != n
    ensures NodesOk(g, st[n := Attach(st[n], d, j)][j := Attach(st[j], Opposite(d), n)])
    ensures Registry(st[n := Attach(st[n], d, j)][j := Attach(st[j], Opposite(d), n)], canon)
  {
    var mid := st[n := Attach(st[n], d, j)];
    assert mid[j] == st[j];
    AttachKeepsNodes(g, st, n, d, j);
    AttachKeepsNodes(g, mid, j, Opposite(d), n);
    AttachKeepsRegistry(st, canon, n, d, j);
    AttachKeepsRegistry(mid, canon, j, Opposite(d), n);
  }

  /** The registry only depends on the arrangements of the States. */
  lemma AttachKeepsRegistry(st: seq<Node>, canon: map<seq<nat>, nat>, i: nat, d: Dir, j: nat)
    requires Registry(st, canon) && i < |st|
    ensures Registry(st[i := Attach(st[i], d, j)], canon)
  {
  }

  lemma OtherStepKnown(g: Grid, st: seq<Node>, canon: map<seq<nat>, nat>, dirty: seq<nat>, n: nat, done: set<Dir>, d: Dir, j: nat)
    requires Building(g, st, canon, dirty, n, done) && d !in done
    requires Lookup(canon, Successor(g, st[n].loc2tile, d)) == Some(j) && j != n
    requires NodesOk(g, st[n := Attach(st[n], d, j)][j := Attach(st[j], Opposite(d), n)])
    ensures KnownAreLinks(st[n := Attach(st[n], d, j)][j := Attach(st[j], Opposite(d), n)])
    ensures KnownSymmetric(st[n := Attach(st[n], d, j)][j := Attach(st[j], Opposite(d), n)])
  {
    assert st[n].Link(d) == ExpectedLink(g, canon, st[n].loc2tile, done, st[n].loc2tile, d);
    assert NodeOk(g, st[n]);
    Dedup(st, canon, n, j);
    BackLink(g, st[n].loc2tile, st[j].loc2tile, d);
    OppositeOpposite(d);
    assert st[j].Link(Opposite(d)) == ExpectedLink(g, canon, st[n].loc2tile, done, st[j].loc2tile, Opposite(d));
    OtherKnown(st, n, d, j);
  }

  lemma OtherStepDistances(g: Grid, st: seq<Node>, canon: map<seq<nat>, nat>, dirty: seq<nat>, n: nat, done: set<Dir>, d: Dir, j: nat)
    requires Building(g, st, canon, dirty, n, done) && j < |st|
    requires NodesOk(g, st[n := Attach(st[n], d, j)][j := Attach(st[j], Opposite(d), n)])
    ensures DistancesOk(st[n := Attach(st[n], d, j)][j := Attach(st[j], Opposite(d), n)])
    ensures Rooted(st[n := Attach(st[n], d, j)][j := Attach(st[j], Opposite(d), n)], n)
    ensures SettledOutside(st[n := Attach(st[n], d, j)][j := Attach(st[j], Opposite(d), n)], Add(dirty, j))
    ensures DirtyOk(st[n := Attach(st[n], d, j)][j := Attach(st[j], Opposite(d), n)], Add(dirty, j))
  {
    AttachKeepsDistances(st, st[n := Attach(st[n], d, j)][j := Attach(st[j], Opposite(d), n)], dirty, Add(dirty, j), n, j);
  }

  /** Direction `d` of State `n` leads to another State `j`: both are linked and `j` is dirtied. */
  lemma LinkStepOther(g: Grid, st: seq<Node>, canon: map<seq<nat>, nat>, dirty: seq<nat>, n: nat, done: set<Dir>, d: Dir, j: nat)
    requires Building(g, st, canon, dirty, n, done) && d !in done
    requires Lookup(canon, Successor(g, st[n].loc2tile, d)) == Some(j) && j != n
    ensures Building(g, st[n := Attach(st[n], d, j)][j := Attach(st[j], Opposite(d), n)],
                     canon, Add(dirty, j), n, done + {d})
    ensures Grows(st, st[n := Attach(st[n], d, j)][j := Attach(st[j], Opposite(d), n)])
  {
    AttachGrows(st, n, d, j);
    AttachGrows(st[n := Attach(st[n], d, j)], j, Opposite(d), n);
    GrowsTransitive(st, st[n := Attach(st[n], d, j)], st[n := Attach(st[n], d, j)][j := Attach(st[j], Opposite(d), n)]);
    OtherStepNodes(g, st, canon, n, d, j);
    OtherLinks(g, st, canon, n, done, d, j);
    OtherStepKnown(g, st, canon, dirty, n, done, d, j);
    OtherStepDistances(g, st, canon, dirty, n, done, d, j);
  }

  const AllDirs: set<Dir> := {North, East, South, West}

  /** Once every direction is handled, the expected link is the exact one. */
  lemma ExpectedAllDone(g: Grid, canon: map<seq<nat>, nat>, newArr: seq<nat>, arr: seq<nat>, d: Dir)
    requires g.Valid() && IsArrangement(g, newArr) && IsArrangement(g, arr)
    ensures ExpectedLink(g, canon, newArr, AllDirs, arr, d) == Lookup(canon, Successor(g, arr, d))
  {
    assert d in AllDirs && Opposite(d) in AllDirs;
  }

  lemma FinishLinks(g: Grid, st: seq<Node>, canon: map<seq<nat>, nat>, n: nat)
    requires NodesOk(g, st) && n < |st| && LinksExpected(g, st, canon, n, AllDirs)
    ensures LinksExact(g, st, canon)
  {
    forall i, d | 0 <= i < |st| ensures LinkExact(g, st, canon, i, d) {
      assert NodeOk(g, st[i]) && NodeOk(g, st[n]);
      ExpectedAllDone(g, canon, st[n].loc2tile, st[i].loc2tile, d);
    }
  }

  /** The newest State, demanded as a neighbour of an older one, knows that older one. */
  lemma FinishRooted(g: Grid, st: seq<Node>, canon: map<seq<nat>, nat>, n: nat, p: nat, e: Dir)
    requires NodesOk(g, st) && Registry(st, canon) && LinksExact(g, st, canon) && KnownAreLinks(st)
    requires n < |st| && p < n && Successor(g, st[p].loc2tile, e) == st[n].loc2tile
    ensures HasOlderKnown(st, n)
  {
    assert NodeOk(g, st[p]);
    Dedup(st, canon, p, n);
    BackLink(g, st[p].loc2tile, st[n].loc2tile, e);
    assert LinkExact(g, st, canon, n, Opposite(e));
    assert p in st[n].known;
    var k :| 0 <= k < |st[n].known| && st[n].known[k] == p;
  }

  /**
   * Back-linking done: with all four directions handled, and the new State
   * either the first one or demanded as the neighbour of an older State, the
   * full invariant holds again.
   */
  lemma CreateFinish(g: Grid, st: seq<Node>, canon: map<seq<nat>, nat>, dirty: seq<nat>, n: nat)
    requires Building(g, st, canon, dirty, n, AllDirs)
    requires n == 0 || exists p, e :: 0 <= p < n && Successor(g, st[p].loc2tile, e) == st[n].loc2tile
    ensures GraphInv(g, st, canon, dirty)
  {
    FinishLinks(g, st, canon, n);
    if n > 0 {
      var p, e :| 0 <= p < n && Successor(g, st[p].loc2tile, e) == st[n].loc2tile;
      FinishRooted(g, st, canon, n, p, e);
    }
    RootedExtend(st, n);
  }

  lemma RootedExtend(st: seq<Node>, n: nat)
    requires n < |st| && Rooted(st, n) && (n > 0 ==> HasOlderKnown(st, n))
    ensures Rooted(st, n + 1)
  {
  }

  // ---------------------------------------------------------------------
  // Relaxing a distance

  /** The arena with the distance of State `id` replaced by `x`. */
  function Lowered(st: seq<Node>, id: nat, x: Dist): (st1: seq<Node>)
    requires id < |st|
    ensures |st1| == |st| && st1[id].dist == x && SameShapes(st, st1)
    ensures forall i :: 0 <= i < |st| && i != id ==> st1[i] == st[i]
    ensures Closed(st) ==> Closed(st1)
  {
    var n := st[id].(dist := x);
    assert n.Link(North) == st[id].Link(North) && n.Link(East) == st[id].Link(East);
    assert n.Link(South) == st[id].Link(South) && n.Link(West) == st[id].Link(West);
    st[id := n]
  }

  /**
   * A proposed distance the source ever makes for State `id`: 0 only for the
   * solved State, and a positive finite value only one more than the
   * distance of some known successor.
   */
  ghost predicate Justified(st: seq<Node>, id: nat, x: Dist)
    requires Closed(st) && id < |st|
  {
    (x == Fin(0) ==> st[id].isSolved) &&
    (x.Fin? && x.n > 0 ==> exists k :: 0 <= k < |st[id].known| && st[st[id].known[k]].dist == Fin(x.n - 1))
  }

  /** The least distance among the States `ks`, +∞ when there are none (the `Math.min` fold). */
  function MinOver(st: seq<Node>, ks: seq<nat>): (m: Dist)
    requires forall k :: 0 <= k < |ks| ==> ks[k] < |st|
    ensures forall q :: 0 <= q < |ks| ==> Le(m, st[ks[q]].dist)
    ensures ks == [] ==> m == Inf
    ensures ks != [] ==> exists q :: 0 <= q < |ks| && st[ks[q]].dist == m
  {
    if ks == [] then Inf
    else Min(st[ks[|ks| - 1]].dist, MinOver(st, ks[..|ks| - 1]))
  }

  /** Links are part of a record's shape. */
  lemma ShapeLinks(a: Node, b: Node)
    requires SameShape(a, b)
    ensures forall d :: b.Link(d) == a.Link(d)
  {
  }

  lemma ShapeKeepsNodes(g: Grid, st: seq<Node>, st1: seq<Node>, canon: map<seq<nat>, nat>)
    requires NodesOk(g, st) && Registry(st, canon) && SameShapes(st, st1)
    ensures NodesOk(g, st1) && Registry(st1, canon)
  {
    forall i | 0 <= i < |st| { ShapeLinks(st[i], st1[i]); }
    assert Closed(st1);
    assert forall i :: 0 <= i < |st| ==> NodeOk(g, st[i]);
  }

  lemma ShapeKeepsLinks(g: Grid, st: seq<Node>, st1: seq<Node>, canon: map<seq<nat>, nat>)
    requires NodesOk(g, st) && NodesOk(g, st1) && LinksExact(g, st, canon) && SameShapes(st, st1)
    requires KnownAreLinks(st) && KnownSymmetric(st)
    ensures LinksExact(g, st1, canon) && KnownAreLinks(st1) && KnownSymmetric(st1)
  {
    forall i | 0 <= i < |st| { ShapeLinks(st[i], st1[i]); }
    forall i, d | 0 <= i < |st1| ensures LinkExact(g, st1, canon, i, d) {
      assert LinkExact(g, st, canon, i, d);
    }
  }

  lemma ShapeKeepsRooted(st: seq<Node>, st1: seq<Node>)
    requires Rooted(st, |st|) && SameShapes(st, st1)
    ensures Rooted(st1, |st1|)
  {
    forall i | 0 < i < |st1| ensures HasOlderKnown(st1, i) {
      assert HasOlderKnown(st, i);
    }
  }

  lemma ShapeKeepsStructure(g: Grid, st: seq<Node>, st1: seq<Node>, canon: map<seq<nat>, nat>)
    requires Structure(g, st, canon) && SameShapes(st, st1)
    ensures Structure(g, st1, canon)
  {
    ShapeKeepsNodes(g, st, st1, canon);
    ShapeKeepsLinks(g, st, st1, canon);
    ShapeKeepsRooted(st, st1);
  }

  lemma LowerKeepsDistances(st: seq<Node>, id: nat, x: Dist)
    requires Closed(st) && DistancesOk(st) && id < |st| && Justified(st, id, x) && Lt(x, st[id].dist)
    ensures Closed(Lowered(st, id, x)) && DistancesOk(Lowered(st, id, x))
    ensures CountFinite(Dists(Lowered(st, id, x))) >= CountFinite(Dists(st))
  {
    var st1 := Lowered(st, id, x);
    assert Closed(st1);
    DistsLowered(st, id, x);
    CountFiniteUpdate(Dists(st), id, x);
    var c1 := CountFinite(Dists(st1));
    forall i | 0 <= i < |st1| ensures DistanceOk(st1, i) {
      assert DistanceOk(st, i);
      if i == id {
        if x.Fin? && x.n > 0 {
          var k :| 0 <= k < |st[id].known| && st[st[id].known[k]].dist == Fin(x.n - 1);
          assert st[id].known[k] != id;
          assert DistanceOk(st, st[id].known[k]);
          assert Lt(st1[st1[id].known[k]].dist, st1[id].dist);
        }
      } else if st1[i].dist.Fin? && st1[i].dist.n > 0 {
        var k :| 0 <= k < |st[i].known| && Lt(st[st[i].known[k]].dist, st[i].dist);
        assert Lt(st1[st1[i].known[k]].dist, st1[i].dist);
      }
    }
  }

  /** Lowering the distance of `id` leaves settled every State that does not know `id`. */
  lemma LowerKeepsSettled(st: seq<Node>, id: nat, x: Dist, i: nat)
    requires Closed(st) && KnownSymmetric(st) && id < |st| && i < |st| && i != id && i !in st[id].known
    requires Settled(st, i)
    ensures Settled(Lowered(st, id, x), i)
  {
    var st1 := Lowered(st, id, x);
    assert forall k :: 0 <= k < |st[i].known| ==> st[i].known[k] != id;
    SettledKept(st, st1, i);
  }

  /**
   * A justified lower distance for `id`, with the known successors of `id`
   * dirtied, keeps the invariant: only `id` itself may be left unsettled.
   * The potential drops.
   */
  lemma LowerPreserves(g: Grid, st: seq<Node>, canon: map<seq<nat>, nat>, dirty: seq<nat>, id: nat, x: Dist)
    requires GraphCore(g, st, canon, dirty) && id < |st|
    requires forall i :: 0 <= i < |st| && i != id && i !in dirty ==> Settled(st, i)
    requires Justified(st, id, x) && Lt(x, st[id].dist)
    ensures GraphCore(g, Lowered(st, id, x), canon, AddAll(dirty, st[id].known))
    ensures forall i :: 0 <= i < |st| && i != id && i !in AddAll(dirty, st[id].known) ==> Settled(Lowered(st, id, x), i)
    ensures Potential(Dists(Lowered(st, id, x)), |st|) < Potential(Dists(st), |st|)
  {
    var st1 := Lowered(st, id, x);
    ShapeKeepsStructure(g, st, st1, canon);
    DirtyAddAll(st1, dirty, st[id].known);
    LowerKeepsDistances(st, id, x);
    LowerDropsPotential(st, id, x);
    LowerSettledAll(st, dirty, id, x);
  }

  /** With the oldest State taken off the worklist, the worklist is still well formed. */
  lemma TakeFirst(g: Grid, st: seq<Node>, canon: map<seq<nat>, nat>, dirty: seq<nat>)
    requires Closed(st) && DirtyOk(st, dirty) && SettledOutside(st, dirty) && dirty != []
    ensures dirty[0] < |st| && DirtyOk(st, dirty[1..])
    ensures forall i :: 0 <= i < |st| && i != dirty[0] && i !in dirty[1..] ==> Settled(st, i)
  {
    var rest := dirty[1..];
    assert forall i :: i in dirty <==> i == dirty[0] || i in rest by {
      assert dirty == [dirty[0]] + rest;
    }
    assert Distinct(rest) by {
      assert forall i :: 0 <= i < |rest| ==> rest[i] == dirty[i + 1];
    }
  }

  /** Lowering the distance of a State that is itself on the worklist keeps the invariant. */
  lemma LowerInWorklist(g: Grid, st: seq<Node>, canon: map<seq<nat>, nat>, dirty: seq<nat>, id: nat, x: Dist)
    requires GraphInv(g, st, canon, dirty) && id < |st| && id in dirty
    requires Justified(st, id, x) && Lt(x, st[id].dist)
    ensures GraphInv(g, Lowered(st, id, x), canon, AddAll(dirty, st[id].known))
  {
    LowerPreserves(g, st, canon, dirty, id, x);
    SettledOutsideFrom(Lowered(st, id, x), AddAll(dirty, st[id].known), id);
  }

  /** The States outside the worklist are settled when all but `id` are, and `id` is settled or pending. */
  lemma SettledOutsideFrom(st: seq<Node>, pending: seq<nat>, id: nat)
    requires Closed(st) && id < |st| && (id in pending || Settled(st, id))
    requires forall i :: 0 <= i < |st| && i != id && i !in pending ==> Settled(st, i)
    ensures SettledOutside(st, pending)
  {
  }

  lemma LowerDropsPotential(st: seq<Node>, id: nat, x: Dist)
    requires Closed(st) && DistancesOk(st) && id < |st| && Justified(st, id, x) && Lt(x, st[id].dist)
    ensures Potential(Dists(Lowered(st, id, x)), |st|) < Potential(Dists(st), |st|)
  {
    var st1 := Lowered(st, id, x);
    LowerKeepsDistances(st, id, x);
    assert DistanceOk(st1, id);
    DistsLowered(st, id, x);
    PotentialDrops(Dists(st), id, x, |st|);
  }

  lemma DistsLowered(st: seq<Node>, id: nat, x: Dist)
    requires id < |st|
    ensures Dists(Lowered(st, id, x)) == Dists(st)[id := x]
  {
    var st1 := Lowered(st, id, x);
    assert forall i :: 0 <= i < |st| ==> Dists(st1)[i] == Dists(st)[id := x][i];
  }

  lemma LowerSettledAll(st: seq<Node>, dirty: seq<nat>, id: nat, x: Dist)
    requires Closed(st) && KnownSymmetric(st) && id < |st|
    requires forall i :: 0 <= i < |st| && i != id && i !in dirty ==> Settled(st, i)
    ensures forall i :: 0 <= i < |st| && i != id && i !in AddAll(dirty, st[id].known) ==> Settled(Lowered(st, id, x), i)
  {
    forall i | 0 <= i < |st| && i != id && i !in AddAll(dirty, st[id].known) ensures Settled(Lowered(st, id, x), i) {
      LowerKeepsSettled(st, id, x, i);
    }
  }

  /**
   * After the relaxation step of State `id` (distance 0 if solved, else
   * `1 + min` over its known successors, applied only if lower), `id` is
   * settled.
   */
  lemma RelaxSettles(st: seq<Node>, id: nat, x: Dist)
    requires Closed(st) && id < |st|
    requires st[id].isSolved ==> x == Fin(0)
    requires !st[id].isSolved ==> x == Plus1(MinOver(st, st[id].known))
    ensures Settled(if Lt(x, st[id].dist) then Lowered(st, id, x) else st, id)
  {
    var st1 := if Lt(x, st[id].dist) then Lowered(st, id, x) else st;
    LtIsNotLe(x, st[id].dist);
    if !st[id].isSolved {
      forall k | 0 <= k < |st[id].known| ensures Le(st1[id].dist, Plus1(st1[st[id].known[k]].dist)) {
        var j := st[id].known[k];
        assert Le(MinOver(st, st[id].known), st[j].dist);
      }
    }
  }

  /**
   * The distance the relaxation step of State `id` proposes: 0 for the
   * solved State, otherwise one more than the least distance among its known
   * successors (+∞ when it knows none).
   */
  function Proposal(st: seq<Node>, id: nat): (x: Dist)
    requires Closed(st) && id < |st|
    ensures Justified(st, id, x)
    ensures x.Fin? && !st[id].isSolved ==> x.n > 0
  {
    if st[id].isSolved then Fin(0) else Plus1(MinOver(st, st[id].known))
  }

  /**
   * A relaxation step that is no improvement: with `id` taken off the
   * worklist `rest` and every other State off the worklist settled, the
   * invariant holds for `rest` as it is.
   */
  lemma RelaxKeeps(g: Grid, st: seq<Node>, canon: map<seq<nat>, nat>, rest: seq<nat>, id: nat)
    requires GraphCore(g, st, canon, rest) && id < |st|
    requires forall i :: 0 <= i < |st| && i != id && i !in rest ==> Settled(st, i)
    requires !Lt(Proposal(st, id), st[id].dist)
    ensures GraphInv(g, st, canon, rest)
  {
    RelaxSettles(st, id, Proposal(st, id));
  }

  /**
   * A relaxation step that lowers the distance of `id`: with its known
   * successors added to the worklist the invariant holds again.
   */
  lemma RelaxLowers(g: Grid, st: seq<Node>, canon: map<seq<nat>, nat>, rest: seq<nat>, id: nat)
    requires GraphCore(g, st, canon, rest) && id < |st|
    requires forall i :: 0 <= i < |st| && i != id && i !in rest ==> Settled(st, i)
    requires Lt(Proposal(st, id), st[id].dist)
    ensures GraphInv(g, Lowered(st, id, Proposal(st, id)), canon, AddAll(rest, st[id].known))
  {
    var x := Proposal(st, id);
    RelaxSettles(st, id, x);
    LowerPreserves(g, st, canon, rest, id, x);
    SettledOutsideFrom(Lowered(st, id, x), AddAll(rest, st[id].known), id);
  }

  /** Dirtying States of the arena keeps the worklist well formed. */
  lemma DirtyAddAll(st: seq<Node>, dirty: seq<nat>, ks: seq<nat>)
    requires DirtyOk(st, dirty) && forall k :: 0 <= k < |ks| ==> ks[k] < |st|
    ensures DirtyOk(st, AddAll(dirty, ks))
  {
    var r := AddAll(dirty, ks);
    forall k | 0 <= k < |r| ensures r[k] < |st| {
      assert r[k] in dirty || r[k] in ks;
    }
  }

  // ---------------------------------------------------------------------
  // Routes

  /** A walk through known successors. */
  ghost predicate IsPath(st: seq<Node>, p: seq<nat>)
  {
    |p| > 0 && (forall k :: 0 <= k < |p| ==> p[k] < |st|) &&
    (forall k :: 0 <= k < |p| - 1 ==> p[k + 1] in st[p[k]].known)
  }

  /** A walk from `from` to `to` along which the distance drops by one per move, down to 0. */
  ghost predicate IsRoute(st: seq<Node>, r: seq<nat>, from: nat, to: nat)
  {
    IsPath(st, r) && r[0] == from && r[|r| - 1] == to &&
    forall k :: 0 <= k < |r| ==> st[r[k]].dist == Fin(|r| - 1 - k)
  }

  /** A walk along which the distance drops by one per move (the route built so far). */
  ghost predicate Countdown(st: seq<Node>, r: seq<nat>)
  {
    IsPath(st, r) && st[r[|r| - 1]].dist.Fin? &&
    forall k :: 0 <= k < |r| ==> st[r[k]].dist == Fin(st[r[|r| - 1]].dist.n + |r| - 1 - k)
  }

  /** A known successor one move closer extends a countdown walk. */
  lemma CountdownExtend(st: seq<Node>, r: seq<nat>, next: nat)
    requires Countdown(st, r) && next < |st| && next in st[r[|r| - 1]].known
    requires st[r[|r| - 1]].dist.n > 0 && st[next].dist == Fin(st[r[|r| - 1]].dist.n - 1)
    ensures Countdown(st, r + [next]) && (r + [next])[0] == r[0]
  {
    var r' := r + [next];
    assert forall k :: 0 <= k < |r| ==> r'[k] == r[k];
    assert IsPath(st, r');
  }

  /** A countdown walk that ends at distance 0 is a route. */
  lemma CountdownRoute(st: seq<Node>, r: seq<nat>)
    requires Countdown(st, r) && st[r[|r| - 1]].dist == Fin(0)
    ensures IsRoute(st, r, r[0], r[|r| - 1])
  {
  }

  /**
   * Once the worklist is empty, no walk through known successors from `p[0]`
   * to the solved State is shorter than the distance of `p[0]`: a route
   * whose length is that distance is a shortest one.
   */
  lemma {:induction false} DistanceIsShortest(g: Grid, st: seq<Node>, canon: map<seq<nat>, nat>, p: seq<nat>)
    requires GraphInv(g, st, canon, []) && IsPath(st, p) && st[p[|p| - 1]].isSolved
    ensures Le(st[p[0]].dist, Fin(|p| - 1))
    decreases |p|
  {
    assert Settled(st, p[0]);
    if |p| > 1 {
      var tail := p[1..];
      assert IsPath(st, tail);
      DistanceIsShortest(g, st, canon, tail);
      if !st[p[0]].isSolved {
        var k :| 0 <= k < |st[p[0]].known| && st[p[0]].known[k] == p[1];
      }
    }
  }

  /** Consecutive States of a walk are one move of the hole apart. */
  lemma PathStepIsMove(g: Grid, st: seq<Node>, canon: map<seq<nat>, nat>, p: seq<nat>, k: nat)
    requires Structure(g, st, canon) && IsPath(st, p) && k + 1 < |p|
    ensures exists d :: st[p[k + 1]].loc2tile == Successor(g, st[p[k]].loc2tile, d)
  {
    var i, j := p[k], p[k + 1];
    var q :| 0 <= q < |st[i].known| && st[i].known[q] == j;
    assert st[i].Linked(j);
    var d := st[i].LinkTo(j);
    assert NodeOk(g, st[i]);
    assert LinkExact(g, st, canon, i, d);
  }
}
