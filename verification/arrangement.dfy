/**
 * Tile arrangements of a `horTiles × verTiles` sliding-tile puzzle: the
 * permutation codec (location → tile and its inverse), the solved test and
 * the geometry of the hole (its position, and the arrangement reached by
 * sliding a tile into it from each compass direction).
 */
module Arrangement {
  import opened Wrappers

  /** The four compass directions a move can be requested in. */
  datatype Dir = North | East | South | West

  /**
   * The direction of the back link: a step in it is the mirror image of a
   * step in `d`, as seen from the cell (1, 1).
   */
  function Opposite(d: Dir): (r: Dir)
    ensures r != d
    ensures Step((1, 1), r) == (2 - Step((1, 1), d).0, 2 - Step((1, 1), d).1)
  {
    match d
    case North => South
    case East => West
    case South => North
    case West => East
  }

  lemma OppositeOpposite(d: Dir)
    ensures Opposite(Opposite(d)) == d
  {
  }

  /**
   * The board: `horTiles` columns, `verTiles` rows, and the id of the tile
   * that plays the hole. Locations are numbered row by row.
   */
  datatype Grid = Grid(horTiles: nat, verTiles: nat, holeIndex: nat)
  {
    predicate Valid()
    {
      horTiles >= 1 && verTiles >= 1 && holeIndex < horTiles * verTiles
    }

    function Size(): nat
    {
      horTiles * verTiles
    }
  }

  /** The grid of a new puzzle whose hole tile starts at column `holeHor`, row `holeVer`. */
  function MakeGrid(horTiles: nat, verTiles: nat, holeHor: nat, holeVer: nat): (g: Grid)
    requires horTiles >= 1 && verTiles >= 1 && holeHor < horTiles && holeVer < verTiles
    ensures g.Valid() && g.horTiles == horTiles && g.verTiles == verTiles
    ensures PosOf(g, g.holeIndex) == (holeHor, holeVer)
  {
    LocBound(holeHor, holeVer, horTiles, verTiles);
    DivModOf(holeHor, holeVer, horTiles);
    Grid(horTiles, verTiles, holeVer * horTiles + holeHor)
  }

  // ---------------------------------------------------------------------
  // Arithmetic on row-major locations

  lemma {:induction false} MulLe(a: nat, b: nat, n: nat)
    requires a <= b
    ensures a * n <= b * n
    decreases b - a
  {
    if a < b {
      MulLe(a + 1, b, n);
      assert (a + 1) * n == a * n + n;
    }
  }

  /** Division and remainder recover row and column of `v * n + h`. */
  lemma DivModOf(h: nat, v: nat, n: nat)
    requires 0 < n && h < n
    ensures (v * n + h) / n == v && (v * n + h) % n == h
  {
    var x := v * n + h;
    var q, r := x / n, x % n;
    assert x == q * n + r;
    if q > v {
      assert (v + 1) * n == v * n + n;
      MulLe(v + 1, q, n);
    } else if q < v {
      assert (q + 1) * n == q * n + n;
      MulLe(q + 1, v, n);
    }
  }

  /** A cell inside the grid has a location inside the board. */
  lemma LocBound(h: nat, v: nat, hor: nat, ver: nat)
    requires h < hor && v < ver
    ensures v * hor + h < hor * ver
  {
    MulLe(v + 1, ver, hor);
    assert (v + 1) * hor == v * hor + hor;
  }

  lemma DivBound(loc: nat, hor: nat, ver: nat)
    requires 0 < hor && loc < hor * ver
    ensures loc / hor < ver
  {
    var q, r := loc / hor, loc % hor;
    assert loc == q * hor + r;
    if q >= ver {
      MulLe(ver, q, hor);
    }
  }

  // ---------------------------------------------------------------------
  // Permutations and their inverse

  /** `s` assigns every location one of the tiles `0 .. |s|-1`, each exactly once. */
  predicate IsPermutation(s: seq<nat>)
  {
    (forall i :: 0 <= i < |s| ==> s[i] < |s|) &&
    (forall i, j :: 0 <= i < j < |s| ==> s[i] != s[j]) &&
    (forall t :: 0 <= t < |s| ==> t in s)
  }

  /** A location → tile assignment of the whole board. */
  predicate IsArrangement(g: Grid, s: seq<nat>)
  {
    |s| == g.Size() && IsPermutation(s)
  }

  /** The solved arrangement: tile `i` at location `i`. */
  function Identity(n: nat): (s: seq<nat>)
    ensures |s| == n && IsPermutation(s)
    ensures forall i :: 0 <= i < n ==> s[i] == i
  {
    var s := seq(n, i => i);
    assert forall t :: 0 <= t < n ==> t in s by {
      forall t | 0 <= t < n ensures t in s {
        assert s[t] == t;
      }
    }
    s
  }

  /** The first location that holds tile `x`. */
  function IndexOf(s: seq<nat>, x: nat): (r: nat)
    requires x in s
    ensures r < |s| && s[r] == x
    ensures forall k :: 0 <= k < r ==> s[k] != x
  {
    if s[0] == x then 0 else 1 + IndexOf(s[1..], x)
  }

  /** The tile → location assignment of a location → tile assignment. */
  function Inverse(s: seq<nat>): (r: seq<nat>)
    requires IsPermutation(s)
    ensures |r| == |s|
    ensures forall loc :: 0 <= loc < |s| ==> r[s[loc]] == loc
    ensures forall t :: 0 <= t < |s| ==> r[t] < |s| && s[r[t]] == t
  {
    seq(|s|, t requires 0 <= t < |s| => IndexOf(s, t))
  }

  /** The inverse of a permutation is again a permutation. */
  lemma InverseIsPermutation(s: seq<nat>)
    requires IsPermutation(s)
    ensures IsPermutation(Inverse(s))
  {
    var r := Inverse(s);
    forall loc | 0 <= loc < |s| ensures loc in r {
      assert r[s[loc]] == loc;
    }
  }

  /**
   * The State constructor's inversion loop: for each location, record the
   * location of the tile found there.
   */
  method Invert(loc2tile: seq<nat>) returns (tile2loc: seq<nat>)
    requires IsPermutation(loc2tile)
    ensures tile2loc == Inverse(loc2tile)
  {
    var a := new nat[|loc2tile|];
    for loc := 0 to |loc2tile|
      invariant forall l :: 0 <= l < loc ==> a[loc2tile[l]] == l
    {
      a[loc2tile[loc]] := loc;
    }
    tile2loc := a[..];
  }

  // ---------------------------------------------------------------------
  // The solved test

  /** JavaScript's `findIndex` for the first location not holding its own tile (-1 if none). */
  function FindMismatch(s: seq<nat>, from: nat): (r: int)
    requires from <= |s|
    ensures r == -1 <==> forall i :: from <= i < |s| ==> s[i] == i
    ensures r != -1 ==> from <= r < |s| && s[r] != r && forall i :: from <= i < r ==> s[i] == i
    decreases |s| - from
  {
    if from == |s| then -1
    else if s[from] != from then from
    else FindMismatch(s, from + 1)
  }

  function IsSolved(s: seq<nat>): (b: bool)
    ensures b <==> s == Identity(|s|)
  {
    FindMismatch(s, 0) == -1
  }

  // ---------------------------------------------------------------------
  // Hole geometry

  /** The location holding the hole tile. */
  function HoleLoc(g: Grid, s: seq<nat>): (loc: nat)
    requires g.Valid() && IsArrangement(g, s)
    ensures loc < g.Size() && s[loc] == g.holeIndex
  {
    Inverse(s)[g.holeIndex]
  }

  function Clamp(x: int, lo: int, hi: int): int
  {
    if x > hi then (if hi < lo then lo else hi) else (if x < lo then lo else x)
  }

  /** Column and row of a location, the row clamped to `[0, verTiles-1]`. */
  function PosOf(g: Grid, loc: nat): (p: (nat, nat))
    requires g.Valid()
    ensures loc < g.Size() ==> p.0 < g.horTiles && p.1 < g.verTiles && p.1 * g.horTiles + p.0 == loc
  {
    if loc < g.Size() then DivBound(loc, g.horTiles, g.verTiles); (loc % g.horTiles, Clamp(loc / g.horTiles, 0, g.verTiles - 1) as nat)
    else (loc % g.horTiles, Clamp(loc / g.horTiles, 0, g.verTiles - 1) as nat)
  }

  function HolePos(g: Grid, s: seq<nat>): (p: (nat, nat))
    requires g.Valid() && IsArrangement(g, s)
  {
    PosOf(g, HoleLoc(g, s))
  }

  /** The tile shown at column `h`, row `v`. */
  function TileIndexAtPos(g: Grid, s: seq<nat>, h: nat, v: nat): (t: nat)
    requires g.Valid() && IsArrangement(g, s) && h < g.horTiles && v < g.verTiles
    ensures t < g.Size()
  {
    LocBound(h, v, g.horTiles, g.verTiles);
    s[v * g.horTiles + h]
  }

  /** The hole tile is the one shown at the hole's position. */
  lemma HoleAtHolePos(g: Grid, s: seq<nat>)
    requires g.Valid() && IsArrangement(g, s)
    ensures TileIndexAtPos(g, s, HolePos(g, s).0, HolePos(g, s).1) == g.holeIndex
  {
  }

  /** Every cell of the grid has a location, and the location gives back the cell. */
  lemma PosOfCell(g: Grid, h: nat, v: nat)
    requires g.Valid() && h < g.horTiles && v < g.verTiles
    ensures v * g.horTiles + h < g.Size() && PosOf(g, v * g.horTiles + h) == (h, v)
  {
    LocBound(h, v, g.horTiles, g.verTiles);
    DivModOf(h, v, g.horTiles);
  }

  // ---------------------------------------------------------------------
  // Moves

  /** The cell next to `p` in direction `d` (possibly off the grid). */
  function Step(p: (nat, nat), d: Dir): (int, int)
  {
    match d
    case North => (p.0, p.1 - 1)
    case East => (p.0 + 1, p.1)
    case South => (p.0, p.1 + 1)
    case West => (p.0 - 1, p.1)
  }

  predicate InGrid(g: Grid, q: (int, int))
  {
    0 <= q.0 < g.horTiles && 0 <= q.1 < g.verTiles
  }

  /**
   * The location whose tile trades places with the hole when moving in
   * direction `d`, or None when the hole lies on that edge of the grid.
   */
  function SwapLoc(g: Grid, s: seq<nat>, d: Dir): (r: Option<nat>)
    requires g.Valid() && IsArrangement(g, s)
    ensures r.Some? ==> r.value < g.Size() && r.value != HoleLoc(g, s)
  {
    var loc := HoleLoc(g, s);
    var p := HolePos(g, s);
    var h, v := p.0, p.1;
    assert loc == v * g.horTiles + h;
    match d
    case North =>
      if v > 0 then CellStep(g, h, v - 1); Some(loc - g.horTiles) else None
    case East =>
      if h + 1 < g.horTiles then LocBound(h + 1, v, g.horTiles, g.verTiles); Some(loc + 1) else None
    case South =>
      if v + 1 < g.verTiles then CellStep(g, h, v); Some(loc + g.horTiles) else None
    case West =>
      if h > 0 then Some(loc - 1) else None
  }

  /** Moving one row down adds `horTiles` to the location. */
  lemma CellStep(g: Grid, h: nat, v: nat)
    requires g.Valid() && h < g.horTiles && v + 1 < g.verTiles
    ensures (v + 1) * g.horTiles + h == v * g.horTiles + h + g.horTiles
    ensures (v + 1) * g.horTiles + h < g.Size()
  {
    LocBound(h, v + 1, g.horTiles, g.verTiles);
  }

  /**
   * The tile that moves sits in the cell next to the hole in direction `d`;
   * there is none exactly when that cell lies off the grid.
   */
  lemma SwapLocGeometry(g: Grid, s: seq<nat>, d: Dir)
    requires g.Valid() && IsArrangement(g, s)
    ensures SwapLoc(g, s, d).None? <==> !InGrid(g, Step(HolePos(g, s), d))
    ensures SwapLoc(g, s, d).Some? ==>
              PosOf(g, SwapLoc(g, s, d).value).0 == Step(HolePos(g, s), d).0 &&
              PosOf(g, SwapLoc(g, s, d).value).1 == Step(HolePos(g, s), d).1
  {
    var (h, v) := HolePos(g, s);
    var q := Step((h, v), d);
    if InGrid(g, q) {
      PosOfCell(g, q.0 as nat, q.1 as nat);
      match d
      case North => CellStep(g, h, v - 1);
      case East =>
      case South => CellStep(g, h, v);
      case West =>
    }
  }

  /** The arrangement with the tiles at `swapLoc` and `holeLoc` exchanged. */
  function Swap(s: seq<nat>, swapLoc: nat, holeLoc: nat): (r: seq<nat>)
    requires swapLoc < |s| && holeLoc < |s|
    ensures |r| == |s| && r[swapLoc] == s[holeLoc] && r[holeLoc] == s[swapLoc]
    ensures forall i :: 0 <= i < |s| && i != swapLoc && i != holeLoc ==> r[i] == s[i]
  {
    seq(|s|, i requires 0 <= i < |s| => s[if i == swapLoc then holeLoc else if i == holeLoc then swapLoc else i])
  }

  lemma SwapIsPermutation(s: seq<nat>, a: nat, b: nat)
    requires IsPermutation(s) && a < |s| && b < |s|
    ensures IsPermutation(Swap(s, a, b))
  {
    var r := Swap(s, a, b);
    forall t | 0 <= t < |r| ensures t in r {
      var i := IndexOf(s, t);
      var j := if i == a then b else if i == b then a else i;
      assert r[j] == t;
    }
  }

  /**
   * The neighbouring arrangement in direction `d`: the hole trades places
   * with the adjacent tile, or nothing changes at the grid's edge.
   */
  function Successor(g: Grid, s: seq<nat>, d: Dir): (r: seq<nat>)
    requires g.Valid() && IsArrangement(g, s)
    ensures IsArrangement(g, r)
    ensures r == s <==> SwapLoc(g, s, d).None?
    ensures SwapLoc(g, s, d).Some? ==>
              var t := SwapLoc(g, s, d).value;
              HoleLoc(g, r) == t && r[HoleLoc(g, s)] == s[t] &&
              forall i :: 0 <= i < |s| && i != t && i != HoleLoc(g, s) ==> r[i] == s[i]
  {
    match SwapLoc(g, s, d)
    case None => s
    case Some(t) =>
      var loc := HoleLoc(g, s);
      SwapIsPermutation(s, t, loc);
      var r := Swap(s, t, loc);
      assert r[t] == g.holeIndex && r[t] != s[t];
      r
  }

  /** A move followed by the opposite move gives back the original arrangement. */
  lemma RoundTrip(g: Grid, s: seq<nat>, d: Dir)
    requires g.Valid() && IsArrangement(g, s) && SwapLoc(g, s, d).Some?
    ensures SwapLoc(g, Successor(g, s, d), Opposite(d)) == Some(HoleLoc(g, s))
    ensures Successor(g, Successor(g, s, d), Opposite(d)) == s
  {
    var r := Successor(g, s, d);
    var t := SwapLoc(g, s, d).value;
    var p := HolePos(g, s);
    assert HolePos(g, r) == PosOf(g, t);
    SwapLocGeometry(g, s, d);
    SwapLocGeometry(g, r, Opposite(d));
    var back := SwapLoc(g, r, Opposite(d));
    assert Step(HolePos(g, r), Opposite(d)) == (p.0 as int, p.1 as int);
    assert back.Some?;
    assert back.value == HoleLoc(g, s);
    var s' := Successor(g, r, Opposite(d));
    assert forall i :: 0 <= i < |s| ==> s'[i] == s[i];
  }

  /** The first `k + 1` moves are the first `k` and then move `k`. */
  lemma MovesPrefix(moves: seq<Dir>, k: nat)
    requires k < |moves|
    ensures var p := moves[..k + 1]; |p| == k + 1 && p[..k] == moves[..k] && p[k] == moves[k]
  {
  }

  lemma MovesWhole(moves: seq<Dir>)
    ensures moves[..0] == [] && moves[..|moves|] == moves
  {
  }

  /** The arrangement reached from `s` by the moves in order. */
  function Scrambled(g: Grid, s: seq<nat>, moves: seq<Dir>): (r: seq<nat>)
    requires g.Valid() && IsArrangement(g, s)
    ensures IsArrangement(g, r)
  {
    if moves == [] then s
    else Successor(g, Scrambled(g, s, moves[..|moves| - 1]), moves[|moves| - 1])
  }
}
