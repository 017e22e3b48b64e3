/**
 * The 4x4 board, its coordinates, the eight king moves and the word a path spells.
 * The board itself is an `array2<string>`; the specifications read it through
 * a value snapshot of type `Grid`.
 */
module Grid {
  import opened Seqs

  datatype Option<T> = None | Some(value: T)

  /** The board is always 4x4: every bound in the code is the literal range 0..3. */
  const Size: int := 4

  /** The number of cells on the board. */
  const Cells: int := 16

  /** A cell as (row, column). */
  type Coord = (int, int)

  type Path = seq<Coord>

  /** A snapshot of the board's contents, row by row. */
  type Grid = seq<seq<string>>

  /** The eight permitted steps between consecutive cells of a path, in the order the search tries them. */
  const LegalMoves: seq<Coord> := [(1, 0), (-1, 0), (0, 1), (0, -1), (1, 1), (1, -1), (-1, 1), (-1, -1)]

  predicate InBounds(c: Coord) {
    0 <= c.0 <= 3 && 0 <= c.1 <= 3
  }

  /** The cell reached from `c` by the step `m`. */
  function Step(c: Coord, m: Coord): Coord {
    (c.0 + m.0, c.1 + m.1)
  }

  /** `b` may follow `a` in a path: `a - b` is one of the legal moves. */
  predicate Adjacent(a: Coord, b: Coord) {
    (a.0 - b.0, a.1 - b.1) in LegalMoves
  }

  /** The legal moves are exactly the king moves. */
  lemma AdjacentIsKingMove(a: Coord, b: Coord)
    ensures Adjacent(a, b) <==> a != b && -1 <= a.0 - b.0 <= 1 && -1 <= a.1 - b.1 <= 1
  {
  }

  lemma AdjacentSymmetric(a: Coord, b: Coord)
    ensures Adjacent(a, b) <==> Adjacent(b, a)
  {
    AdjacentIsKingMove(a, b);
    AdjacentIsKingMove(b, a);
  }

  /** No two legal moves are the same, so different moves from one cell reach different cells. */
  lemma LegalMovesDistinct()
    ensures Distinct(LegalMoves)
  {
  }

  predicate AllInBounds(p: Path) {
    forall i :: 0 <= i < |p| ==> InBounds(p[i])
  }

  predicate Connected(p: Path) {
    forall i :: 0 <= i < |p| - 1 ==> Adjacent(p[i], p[i + 1])
  }

  /** A path the rules of the game allow: on the board, king-move connected, no cell twice. */
  predicate IsLegalPath(p: Path) {
    AllInBounds(p) && Connected(p) && Distinct(p)
  }

  predicate IsGrid(g: Grid) {
    |g| == Size && forall i :: 0 <= i < |g| ==> |g[i]| == Size
  }

  function Tile(g: Grid, c: Coord): string
    requires IsGrid(g) && InBounds(c)
  {
    g[c.0][c.1]
  }

  /** Every tile has at least one character (what the board supplier guarantees). */
  ghost predicate NonEmptyTiles(g: Grid)
    requires IsGrid(g)
  {
    forall c :: InBounds(c) ==> |Tile(g, c)| > 0
  }

  /** The board array holds the snapshot `g`. */
  ghost predicate BoardHolds(board: array2<string>, g: Grid)
    reads board
    requires board.Length0 == Size && board.Length1 == Size && IsGrid(g)
  {
    forall c :: InBounds(c) ==> board[c.0, c.1] == Tile(g, c)
  }

  ghost function Snapshot(board: array2<string>): (g: Grid)
    reads board
    requires board.Length0 == Size && board.Length1 == Size
    ensures IsGrid(g) && BoardHolds(board, g)
  {
    seq(Size, i requires 0 <= i < Size reads board =>
      seq(Size, j requires 0 <= j < Size reads board => board[i, j]))
  }

  /** A board holds exactly one snapshot. */
  lemma SnapshotOfHeld(board: array2<string>, g: Grid)
    requires board.Length0 == Size && board.Length1 == Size && IsGrid(g) && BoardHolds(board, g)
    ensures Snapshot(board) == g
  {
    var s := Snapshot(board);
    forall i | 0 <= i < Size ensures s[i] == g[i] {
      forall j | 0 <= j < Size ensures s[i][j] == g[i][j] {
        assert Tile(s, (i, j)) == Tile(g, (i, j));
      }
    }
  }

  /** The snapshot after one cell of the board is overwritten with `v`. */
  function Mark(g: Grid, c: Coord, v: string): (r: Grid)
    requires IsGrid(g) && InBounds(c)
    ensures IsGrid(r)
    ensures forall d :: InBounds(d) ==> Tile(r, d) == if d == c then v else Tile(g, d)
  {
    g[c.0 := g[c.0][c.1 := v]]
  }

  /** The word a path spells: its tiles concatenated in order. */
  function Spell(g: Grid, p: Path): string
    requires IsGrid(g) && AllInBounds(p)
  {
    if p == [] then "" else Spell(g, p[..|p| - 1]) + Tile(g, p[|p| - 1])
  }

  /** Appending a cell appends its tile. */
  lemma SpellSnoc(g: Grid, p: Path, c: Coord)
    requires IsGrid(g) && AllInBounds(p) && InBounds(c)
    ensures AllInBounds(p + [c]) && Spell(g, p + [c]) == Spell(g, p) + Tile(g, c)
  {
    assert (p + [c])[..|p|] == p;
  }

  /** Extending a path extends the word it spells. */
  lemma {:induction false} SpellPrefix(g: Grid, p: Path, q: Path)
    requires IsGrid(g) && AllInBounds(q) && p <= q
    ensures AllInBounds(p) && Spell(g, p) <= Spell(g, q)
    decreases |q|
  {
    if |p| < |q| {
      var q' := q[..|q| - 1];
      assert p <= q';
      SpellPrefix(g, p, q');
    } else {
      assert p == q;
    }
  }

  /** With non-empty tiles a path spells at least one character per cell. */
  lemma {:induction false} SpellLength(g: Grid, p: Path)
    requires IsGrid(g) && NonEmptyTiles(g) && AllInBounds(p)
    ensures |Spell(g, p)| >= |p|
  {
    if p != [] {
      SpellLength(g, p[..|p| - 1]);
    }
  }

  /** Appending a cell adjacent to the last one keeps a path connected. */
  lemma ConnectedSnoc(p: Path, c: Coord)
    requires Connected(p) && (p == [] || Adjacent(p[|p| - 1], c))
    ensures Connected(p + [c])
  {
    var q := p + [c];
    forall i | 0 <= i < |q| - 1 ensures Adjacent(q[i], q[i + 1]) {
      if i + 1 < |p| {
        assert q[i] == p[i] && q[i + 1] == p[i + 1];
      }
    }
  }

  /** A prefix of a legal path is legal. */
  lemma LegalPrefix(p: Path, q: Path)
    requires IsLegalPath(q) && p <= q
    ensures IsLegalPath(p)
  {
    assert forall i :: 0 <= i < |p| ==> p[i] == q[i];
  }

  /** A legal path stays legal when it is extended by an unvisited cell that is adjacent to its last cell. */
  lemma LegalExtend(p: Path, c: Coord)
    requires IsLegalPath(p) && p != [] && InBounds(c) && c !in p
    requires Adjacent(p[|p| - 1], c)
    ensures IsLegalPath(p + [c])
  {
    var q := p + [c];
    forall i, j | 0 <= i < j < |q| ensures q[i] != q[j] {
      if j < |p| {
        assert q[i] == p[i] && q[j] == p[j];
      } else {
        assert q[i] == p[i];
      }
    }
  }
}
