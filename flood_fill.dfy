/** What `Board.revealCell` (model/Board.java:151-168) reveals. The recursion stops at
    flagged and already revealed cells and spreads only from empty non-mine cells; the
    lemmas below show that it reveals exactly the cells reachable from the target along
    such steps, that every spreading cell it reveals has all its neighbours settled, and
    that a second call changes nothing. */
module FloodFill {
  import opened Cells
  import opened Minefield

  /** Every in-range neighbour of (x, y) is revealed or flagged. */
  predicate Settled(g: Grid, x: int, y: int)
    requires IsGrid(g)
  {
    forall p, q :: 0 <= p < |g| && 0 <= q < |g| && Near(x, y, p, q) ==> g[p][q].isRevealed || g[p][q].isFlagged
  }

  /** Each spreading cell revealed on the way from `g` to `r` has its neighbours settled in `r`. */
  predicate ClosedOver(g: Grid, r: Grid)
    requires IsGrid(g) && IsGrid(r) && |r| == |g|
  {
    forall i, j :: 0 <= i < |g| && 0 <= j < |g| && r[i][j].isRevealed && !g[i][j].isRevealed && Spreads(r[i][j]) ==>
      Settled(r, i, j)
  }

  /** One step of the flood fill in `g`: from a spreading cell to a hidden, unflagged neighbour. */
  predicate Step(g: Grid, u: Pos, v: Pos)
    requires IsGrid(g)
  {
    InRange(g, u.x, u.y) && InRange(g, v.x, v.y) && Spreads(g[u.x][u.y])
    && !g[v.x][v.y].isRevealed && !g[v.x][v.y].isFlagged && Near(u.x, u.y, v.x, v.y)
  }

  /** A path the flood fill can take in `g`, a chain of steps out of an in-range cell. */
  predicate FloodPath(g: Grid, s: seq<Pos>)
    requires IsGrid(g)
    ensures FloodPath(g, s) ==> |s| >= 1
    ensures FloodPath(g, s) ==> InRange(g, s[|s| - 1].x, s[|s| - 1].y)
    ensures FloodPath(g, s) && |s| >= 2 ==> Step(g, s[|s| - 2], s[|s| - 1])
    decreases |s|
  {
    |s| >= 1 && InRange(g, s[0].x, s[0].y) && (|s| >= 2 ==> Step(g, s[0], s[1]) && FloodPath(g, s[1..]))
  }

  /** `c` can be reached from `t` by the flood fill in `g`. */
  ghost predicate InFlood(g: Grid, t: Pos, c: Pos)
    requires IsGrid(g)
  {
    exists s :: FloodPath(g, s) && s[0] == t && s[|s| - 1] == c
  }

  /** Every cell revealed on the way from `g` to `r` is reachable from `t` in `g`. */
  ghost predicate Sound(g: Grid, r: Grid, t: Pos)
    requires IsGrid(g) && IsGrid(r) && |r| == |g|
  {
    forall i, j :: 0 <= i < |g| && 0 <= j < |g| && r[i][j].isRevealed && !g[i][j].isRevealed ==> InFlood(g, t, Pos(i, j))
  }

  // ---------------------------------------------------------------------------------------
  // Small facts about growing grids
  // ---------------------------------------------------------------------------------------

  lemma SettledKept(a: Grid, b: Grid, x: int, y: int)
    requires IsGrid(a) && IsGrid(b) && OnlyRevealed(a, b) && Settled(a, x, y)
    ensures Settled(b, x, y)
  {
    forall p, q | 0 <= p < |b| && 0 <= q < |b| && Near(x, y, p, q)
      ensures b[p][q].isRevealed || b[p][q].isFlagged
    {
      assert a[p][q].isRevealed || a[p][q].isFlagged;
    }
  }

  /** A path in a grid stays a path in any grid with fewer revealed cells. */
  lemma {:induction false} PathWeaken(a: Grid, b: Grid, s: seq<Pos>)
    requires IsGrid(a) && IsGrid(b) && OnlyRevealed(a, b) && FloodPath(b, s)
    ensures FloodPath(a, s)
    decreases |s|
  {
    if |s| >= 2 {
      PathWeaken(a, b, s[1..]);
      var u, v := s[0], s[1];
      assert MoreRevealed(a[v.x][v.y], b[v.x][v.y]);
      assert MoreRevealed(a[u.x][u.y], b[u.x][u.y]);
    }
  }

  /** A path that witnesses `InFlood(g, t, c)`. */
  lemma FloodPathOf(g: Grid, t: Pos, c: Pos) returns (s: seq<Pos>)
    requires IsGrid(g) && InFlood(g, t, c)
    ensures FloodPath(g, s) && s[0] == t && s[|s| - 1] == c
  {
    s :| FloodPath(g, s) && s[0] == t && s[|s| - 1] == c;
  }

  lemma InFloodWeaken(a: Grid, b: Grid, t: Pos, c: Pos)
    requires IsGrid(a) && IsGrid(b) && OnlyRevealed(a, b) && InFlood(b, t, c)
    ensures InFlood(a, t, c)
  {
    var s := FloodPathOf(b, t, c);
    PathWeaken(a, b, s);
  }

  /** A hidden, unflagged neighbour of a spreading cell `t` extends the paths out of it. */
  lemma InFloodPrepend(g: Grid, t: Pos, u: Pos, c: Pos)
    requires IsGrid(g) && InRange(g, t.x, t.y) && Spreads(g[t.x][t.y])
    requires InRange(g, u.x, u.y) && !g[u.x][u.y].isRevealed && !g[u.x][u.y].isFlagged && Near(t.x, t.y, u.x, u.y)
    requires InFlood(g, u, c)
    ensures InFlood(g, t, c)
  {
    var s := FloodPathOf(g, u, c);
    var s' := [t] + s;
    assert s'[1..] == s;
    assert FloodPath(g, s');
  }

  lemma InFloodStart(g: Grid, t: Pos)
    requires IsGrid(g) && InRange(g, t.x, t.y)
    ensures InFlood(g, t, t)
  {
    assert FloodPath(g, [t]);
  }

  // ---------------------------------------------------------------------------------------
  // Closure: the fill does not stop early
  // ---------------------------------------------------------------------------------------

  /** The round of the neighbour loops on (p, q) leaves that cell revealed or flagged. */
  lemma VisitSettles(g: Grid, p: int, q: int)
    requires IsGrid(g) && InRange(g, p, q)
    ensures Visit(g, p, q)[p][q].isRevealed || Visit(g, p, q)[p][q].isFlagged
  {
    if !g[p][q].isRevealed {
      RevealOnlyReveals(g, p, q);
    }
  }

  /** The neighbour loops, run from offset (i, j) on, leave every neighbour they still reach
      revealed or flagged. */
  lemma {:induction false} ExpandSettles(g: Grid, x: int, y: int, i: int, j: int, p: int, q: int)
    requires IsGrid(g) && -1 <= i <= 2 && -1 <= j <= 1
    requires InRange(g, p, q) && Near(x, y, p, q) && (p - x > i || (p - x == i && q - y >= j))
    ensures Expand(g, x, y, i, j)[p][q].isRevealed || Expand(g, x, y, i, j)[p][q].isFlagged
    decreases Hidden(g), 2, 2 - i, 1 - j
  {
    var g': Grid := Visit(g, x + i, y + j);
    var i', j' := NextRow(i, j), NextCol(j);
    var r: Grid := Expand(g', x, y, i', j');
    if p == x + i && q == y + j {
      VisitSettles(g, p, q);
      ExpandOnlyReveals(g', x, y, i', j');
      assert MoreRevealed(g'[p][q], r[p][q]);
    } else {
      ExpandSettles(g', x, y, i', j', p, q);
    }
  }

  /** Revealing an empty non-mine cell settles all its neighbours. */
  lemma RevealSettlesTarget(g: Grid, x: int, y: int)
    requires IsGrid(g) && InRange(g, x, y) && !g[x][y].isFlagged && Spreads(g[x][y])
    ensures Settled(Reveal(g, x, y), x, y)
  {
    var g1 := SetCell(g, x, y, g[x][y].SetRevealed(true));
    var r: Grid := Expand(g1, x, y, -1, -1);
    assert Reveal(g, x, y) == r;
    forall p, q | 0 <= p < |g| && 0 <= q < |g| && Near(x, y, p, q)
      ensures r[p][q].isRevealed || r[p][q].isFlagged
    {
      ExpandSettles(g1, x, y, -1, -1, p, q);
    }
  }

  /** A spreading cell the fill reveals ends with all its neighbours settled. */
  lemma {:induction false} RevealClosesAt(g: Grid, x: int, y: int, c: Pos)
    requires IsGrid(g) && InRange(g, c.x, c.y) && !g[c.x][c.y].isRevealed
    requires Reveal(g, x, y)[c.x][c.y].isRevealed && Spreads(Reveal(g, x, y)[c.x][c.y])
    ensures Settled(Reveal(g, x, y), c.x, c.y)
    decreases RevealRank(g, x, y), 1, 0, 0
  {
    var g1 := SetCell(g, x, y, g[x][y].SetRevealed(true));
    RevealOneHides(g, x, y);
    var r: Grid := Expand(g1, x, y, -1, -1);
    if c == Pos(x, y) {
      RevealSettlesTarget(g, x, y);
    } else {
      assert g1[c.x][c.y] == g[c.x][c.y];
      ExpandClosesAt(g1, x, y, -1, -1, c);
    }
  }

  lemma {:induction false} ExpandClosesAt(g: Grid, x: int, y: int, i: int, j: int, c: Pos)
    requires IsGrid(g) && -1 <= i <= 2 && -1 <= j <= 1
    requires InRange(g, c.x, c.y) && !g[c.x][c.y].isRevealed
    requires Expand(g, x, y, i, j)[c.x][c.y].isRevealed && Spreads(Expand(g, x, y, i, j)[c.x][c.y])
    ensures Settled(Expand(g, x, y, i, j), c.x, c.y)
    decreases Hidden(g), 2, 2 - i, 1 - j
  {
    var g': Grid := Visit(g, x + i, y + j);
    var i', j' := NextRow(i, j), NextCol(j);
    var r: Grid := Expand(g', x, y, i', j');
    ExpandOnlyReveals(g', x, y, i', j');
    assert MoreRevealed(g'[c.x][c.y], r[c.x][c.y]);
    if g'[c.x][c.y].isRevealed {
      RevealClosesAt(g, x + i, y + j, c);
      SettledKept(g', r, c.x, c.y);
    } else {
      ExpandClosesAt(g', x, y, i', j', c);
    }
  }

  // ---------------------------------------------------------------------------------------
  // Soundness: the fill follows flood paths only
  // ---------------------------------------------------------------------------------------

  /** A cell the fill reveals is reachable from the target. */
  lemma {:induction false} RevealSoundAt(g: Grid, x: int, y: int, c: Pos)
    requires IsGrid(g) && InRange(g, c.x, c.y) && !g[c.x][c.y].isRevealed
    requires Reveal(g, x, y)[c.x][c.y].isRevealed
    ensures InFlood(g, Pos(x, y), c)
    decreases RevealRank(g, x, y), 1, 0, 0
  {
    var g1 := SetCell(g, x, y, g[x][y].SetRevealed(true));
    RevealOneHides(g, x, y);
    if c == Pos(x, y) {
      InFloodStart(g, c);
    } else {
      assert g1[c.x][c.y] == g[c.x][c.y];
      ExpandSoundAt(g1, x, y, -1, -1, c);
      InFloodWeaken(g, g1, Pos(x, y), c);
    }
  }

  lemma {:induction false} ExpandSoundAt(g: Grid, x: int, y: int, i: int, j: int, c: Pos)
    requires IsGrid(g) && -1 <= i <= 2 && -1 <= j <= 1 && InRange(g, x, y) && Spreads(g[x][y])
    requires InRange(g, c.x, c.y) && !g[c.x][c.y].isRevealed
    requires Expand(g, x, y, i, j)[c.x][c.y].isRevealed
    ensures InFlood(g, Pos(x, y), c)
    decreases Hidden(g), 2, 2 - i, 1 - j
  {
    assert i < 2;
    var g': Grid := Visit(g, x + i, y + j);
    var i', j' := NextRow(i, j), NextCol(j);
    ExpandUnfold(g, x, y, i, j);
    if g'[c.x][c.y].isRevealed {
      VisitSoundAt(g, x, y, x + i, y + j, c);
    } else {
      VisitKeepsSpread(g, x, y, x + i, y + j);
      ExpandSoundAt(g', x, y, i', j', c);
      InFloodWeaken(g, g', Pos(x, y), c);
    }
  }

  lemma VisitKeepsSpread(g: Grid, x: int, y: int, p: int, q: int)
    requires IsGrid(g) && InRange(g, x, y) && Spreads(g[x][y])
    ensures OnlyRevealed(g, Visit(g, p, q)) && Spreads(Visit(g, p, q)[x][y])
  {
    VisitOnlyReveals(g, p, q);
    assert MoreRevealed(g[x][y], Visit(g, p, q)[x][y]);
  }

  /** A cell revealed by one round of the neighbour loops of the spreading cell (x, y) is
      reachable from (x, y). */
  lemma {:induction false} VisitSoundAt(g: Grid, x: int, y: int, p: int, q: int, c: Pos)
    requires IsGrid(g) && InRange(g, x, y) && Spreads(g[x][y]) && Near(x, y, p, q)
    requires InRange(g, c.x, c.y) && !g[c.x][c.y].isRevealed && Visit(g, p, q)[c.x][c.y].isRevealed
    ensures InFlood(g, Pos(x, y), c)
    decreases Hidden(g), 1, 1, 0
  {
    assert InRange(g, p, q) && !g[p][q].isRevealed && !g[p][q].isFlagged;
    RevealSoundAt(g, p, q, c);
    InFloodPrepend(g, Pos(x, y), Pos(p, q), c);
  }

  lemma RevealSound(g: Grid, x: int, y: int)
    requires IsGrid(g)
    ensures Sound(g, Reveal(g, x, y), Pos(x, y))
  {
    forall i: int, j: int | 0 <= i < |g| && 0 <= j < |g| && Reveal(g, x, y)[i][j].isRevealed && !g[i][j].isRevealed
      ensures InFlood(g, Pos(x, y), Pos(i, j))
    {
      RevealSoundAt(g, x, y, Pos(i, j));
    }
  }

  lemma RevealCloses(g: Grid, x: int, y: int)
    requires IsGrid(g)
    ensures ClosedOver(g, Reveal(g, x, y))
    ensures InRange(g, x, y) && !g[x][y].isFlagged && Spreads(g[x][y]) ==> Settled(Reveal(g, x, y), x, y)
  {
    if InRange(g, x, y) && !g[x][y].isFlagged && Spreads(g[x][y]) {
      RevealSettlesTarget(g, x, y);
    }
    var r: Grid := Reveal(g, x, y);
    forall i: int, j: int | 0 <= i < |g| && 0 <= j < |g| && r[i][j].isRevealed && !g[i][j].isRevealed && Spreads(r[i][j])
      ensures Settled(r, i, j)
    {
      RevealClosesAt(g, x, y, Pos(i, j));
    }
  }

  // ---------------------------------------------------------------------------------------
  // The theorems
  // ---------------------------------------------------------------------------------------

  /** In a grid `r` grown from `g` by revealing only, closed over its spreading cells and
      settled around a revealed target `t`, a flood path of `g` that starts at `t` or at a
      cell revealed on the way ends at a revealed cell. */
  lemma {:induction false} PathReached(g: Grid, r: Grid, t: Pos, s: seq<Pos>)
    requires IsGrid(g) && IsGrid(r) && OnlyRevealed(g, r) && ClosedOver(g, r)
    requires InRange(g, t.x, t.y) && (Spreads(g[t.x][t.y]) ==> Settled(r, t.x, t.y))
    requires FloodPath(g, s) && r[s[0].x][s[0].y].isRevealed && (s[0] == t || !g[s[0].x][s[0].y].isRevealed)
    ensures r[s[|s| - 1].x][s[|s| - 1].y].isRevealed
    decreases |s|
  {
    if |s| >= 2 {
      var u, v := s[0], s[1];
      assert Step(g, u, v);
      assert MoreRevealed(g[u.x][u.y], r[u.x][u.y]) && MoreRevealed(g[v.x][v.y], r[v.x][v.y]);
      if u == t {
        assert Settled(r, t.x, t.y);
      } else {
        assert Settled(r, u.x, u.y);
      }
      assert r[v.x][v.y].isRevealed;
      PathReached(g, r, t, s[1..]);
    }
  }

  /** The same, for a cell reachable from `t`. */
  lemma ClosedReachesFlood(g: Grid, r: Grid, t: Pos, c: Pos)
    requires IsGrid(g) && IsGrid(r) && OnlyRevealed(g, r) && ClosedOver(g, r)
    requires InRange(g, t.x, t.y) && r[t.x][t.y].isRevealed && (Spreads(g[t.x][t.y]) ==> Settled(r, t.x, t.y))
    requires c != t && InFlood(g, t, c)
    ensures InRange(g, c.x, c.y) && r[c.x][c.y].isRevealed && !g[c.x][c.y].isRevealed
  {
    var s := FloodPathOf(g, t, c);
    assert |s| >= 2;
    PathReached(g, r, t, s);
  }

  /** Under exact adjacency counts no cell after the first on a flood path is a mine. */
  lemma {:induction false} PathAvoidsMines(g: Grid, s: seq<Pos>)
    requires IsGrid(g) && AdjacencyCorrect(g) && FloodPath(g, s) && |s| >= 2
    ensures !g[s[|s| - 1].x][s[|s| - 1].y].isMine
    decreases |s|
  {
    if |s| == 2 {
      var u, v := s[0], s[1];
      if u != v {
        assert Pos(v.x, v.y) !in MinedAround(g, u.x, u.y);
      }
    } else {
      PathAvoidsMines(g, s[1..]);
    }
  }

  /** The flood fill reveals, besides its target, exactly the cells reachable from the target:
      not previously revealed, not flagged, and joined to it through empty non-mine cells. */
  lemma RevealExact(g: Grid, x: int, y: int)
    requires IsGrid(g) && InRange(g, x, y) && !g[x][y].isFlagged
    ensures Reveal(g, x, y)[x][y].isRevealed
    ensures forall i, j :: 0 <= i < |g| && 0 <= j < |g| && !(i == x && j == y) ==>
      (Reveal(g, x, y)[i][j].isRevealed && !g[i][j].isRevealed <==> InFlood(g, Pos(x, y), Pos(i, j)))
  {
    RevealSound(g, x, y);
    RevealOnlyReveals(g, x, y);
    forall i: int, j: int | 0 <= i < |g| && 0 <= j < |g| && !(i == x && j == y) && InFlood(g, Pos(x, y), Pos(i, j))
      ensures Reveal(g, x, y)[i][j].isRevealed && !g[i][j].isRevealed
    {
      FloodReachedCell(g, x, y, Pos(i, j));
    }
  }

  lemma FloodReachedCell(g: Grid, x: int, y: int, c: Pos)
    requires IsGrid(g) && InRange(g, x, y) && !g[x][y].isFlagged && c != Pos(x, y) && InFlood(g, Pos(x, y), c)
    ensures InRange(g, c.x, c.y) && Reveal(g, x, y)[c.x][c.y].isRevealed && !g[c.x][c.y].isRevealed
  {
    RevealCloses(g, x, y);
    RevealOnlyReveals(g, x, y);
    ClosedReachesFlood(g, Reveal(g, x, y), Pos(x, y), c);
  }

  /** Under exact adjacency counts the fill never reveals a mine other than its target. */
  lemma RevealAvoidsMines(g: Grid, x: int, y: int)
    requires IsGrid(g) && AdjacencyCorrect(g)
    ensures forall i, j ::
      (0 <= i < |g| && 0 <= j < |g| && !(i == x && j == y) && Reveal(g, x, y)[i][j].isRevealed && !g[i][j].isRevealed)
      ==> !g[i][j].isMine
  {
    RevealSound(g, x, y);
    forall i: int, j: int | 0 <= i < |g| && 0 <= j < |g| && !(i == x && j == y)
      && Reveal(g, x, y)[i][j].isRevealed && !g[i][j].isRevealed
      ensures !g[i][j].isMine
    {
      FloodAvoidsMines(g, Pos(x, y), Pos(i, j));
    }
  }

  lemma FloodAvoidsMines(g: Grid, t: Pos, c: Pos)
    requires IsGrid(g) && AdjacencyCorrect(g) && c != t && InFlood(g, t, c)
    ensures !g[c.x][c.y].isMine
  {
    var s := FloodPathOf(g, t, c);
    PathAvoidsMines(g, s);
  }

  /** Once the flood fill has run, it is a fixpoint: revealing the same cell again changes nothing. */
  lemma RevealIdempotent(g: Grid, x: int, y: int)
    requires IsGrid(g)
    ensures Reveal(Reveal(g, x, y), x, y) == Reveal(g, x, y)
  {
    var r: Grid := Reveal(g, x, y);
    if InRange(g, x, y) && !g[x][y].isFlagged {
      RevealCloses(g, x, y);
      RevealOnlyReveals(g, x, y);
      assert MoreRevealed(g[x][y], r[x][y]);
      RevealSettledNoop(r, x, y);
    }
  }

  /** Revealing a revealed cell whose neighbours are all settled (or that does not spread)
      changes nothing. */
  lemma RevealSettledNoop(g: Grid, x: int, y: int)
    requires IsGrid(g) && InRange(g, x, y) && g[x][y].isRevealed
    requires Spreads(g[x][y]) ==> Settled(g, x, y)
    ensures Reveal(g, x, y) == g
  {
    var g1 := SetCell(g, x, y, g[x][y].SetRevealed(true));
    assert g1 == g by {
      assert g[x][y].SetRevealed(true) == g[x][y];
      assert g[x][y := g[x][y]] == g[x];
    }
    if !g[x][y].isFlagged && Spreads(g[x][y]) {
      ExpandSettledNoop(g, x, y, -1, -1);
    }
  }

  lemma {:induction false} ExpandSettledNoop(g: Grid, x: int, y: int, i: int, j: int)
    requires IsGrid(g) && -1 <= i <= 2 && -1 <= j <= 1 && Settled(g, x, y)
    ensures Expand(g, x, y, i, j) == g
    decreases 2 - i, 1 - j
  {
    if i < 2 {
      var p, q := x + i, y + j;
      assert Visit(g, p, q) == g by {
        if InRange(g, p, q) && !g[p][q].isRevealed {
          assert g[p][q].isFlagged;
        }
      }
      var i', j' := NextRow(i, j), NextCol(j);
      ExpandSettledNoop(g, x, y, i', j');
    }
  }
}
