/** The index from each tile value to the cells that hold it (`create_letters_dict`). */
module LetterIndex {
  import opened Grid

  /** The position of a cell when the board is read row by row. */
  function Index(c: Coord): int {
    c.0 * 4 + c.1
  }

  /** The `k`-th cell in row-major order. */
  function RowMajor(k: int): (c: Coord)
    requires 0 <= k < Cells
    ensures InBounds(c) && Index(c) == k
  {
    if k < 4 then (0, k) else var above := RowMajor(k - 4); (above.0 + 1, above.1)
  }

  /** Row-major position and cell determine each other. */
  lemma {:induction false} RowMajorOfIndex(c: Coord)
    requires InBounds(c)
    ensures 0 <= Index(c) < Cells && RowMajor(Index(c)) == c
    decreases c.0
  {
    if c.0 > 0 {
      RowMajorOfIndex((c.0 - 1, c.1));
    }
  }

  /** Strictly increasing in row-major order (hence also free of duplicates). */
  predicate RowMajorOrdered(s: seq<Coord>) {
    forall a, b :: 0 <= a < b < |s| ==> Index(s[a]) < Index(s[b])
  }

  /** The cells among the first `k` in row-major order whose tile is `t`, in that order. */
  ghost function Occurrences(g: Grid, t: string, k: int): (r: seq<Coord>)
    requires IsGrid(g) && 0 <= k <= Cells
    ensures forall c :: c in r ==> InBounds(c) && Tile(g, c) == t
  {
    if k == 0 then []
    else Occurrences(g, t, k - 1) + (if Tile(g, RowMajor(k - 1)) == t then [RowMajor(k - 1)] else [])
  }

  /** A cell is listed under `t` exactly when it is one of the first `k` cells and holds `t`. */
  lemma {:induction false} OccurrencesMember(g: Grid, t: string, k: int, c: Coord)
    requires IsGrid(g) && 0 <= k <= Cells
    ensures c in Occurrences(g, t, k) <==> InBounds(c) && Index(c) < k && Tile(g, c) == t
  {
    if k > 0 {
      OccurrencesMember(g, t, k - 1, c);
      if InBounds(c) && Index(c) == k - 1 {
        RowMajorOfIndex(c);
      }
    }
  }

  /** The list under `t` is in row-major order and lies among the first `k` cells. */
  lemma {:induction false} OccurrencesOrdered(g: Grid, t: string, k: int)
    requires IsGrid(g) && 0 <= k <= Cells
    ensures RowMajorOrdered(Occurrences(g, t, k))
    ensures forall c :: c in Occurrences(g, t, k) ==> Index(c) < k
  {
    if k > 0 {
      OccurrencesOrdered(g, t, k - 1);
    }
  }

  /** `t` has a non-empty list exactly when some cell holds `t`. */
  lemma OccurrencesNonEmpty(g: Grid, t: string)
    requires IsGrid(g)
    ensures Occurrences(g, t, Cells) != [] <==> exists c :: InBounds(c) && Tile(g, c) == t
  {
    var occ := Occurrences(g, t, Cells);
    if c :| InBounds(c) && Tile(g, c) == t {
      OccurrencesMember(g, t, Cells, c);
      RowMajorOfIndex(c);
    } else if occ != [] {
      assert occ[0] in occ;
    }
  }

  /** The index after filing the first `k` cells in row-major order, as the loop builds it. */
  ghost function IndexUpTo(g: Grid, k: int): map<string, seq<Coord>>
    requires IsGrid(g) && 0 <= k <= Cells
  {
    if k == 0 then map[]
    else
      var letters := IndexUpTo(g, k - 1);
      var c := RowMajor(k - 1);
      var t := Tile(g, c);
      if t !in letters then letters[t := [c]] else letters[t := letters[t] + [c]]
  }

  /** Filing cell (i, j) extends the index of the cells before it by one entry. */
  lemma FileCell(g: Grid, i: int, j: int, letters: map<string, seq<Coord>>)
    requires IsGrid(g) && 0 <= i < 4 && 0 <= j < 4 && letters == IndexUpTo(g, i * 4 + j)
    ensures var t := Tile(g, (i, j));
      IndexUpTo(g, i * 4 + j + 1) == if t !in letters then letters[t := [(i, j)]] else letters[t := letters[t] + [(i, j)]]
  {
    RowMajorOfIndex((i, j));
  }

  /** After `k` cells, `t` is a key exactly when it occurs among them, and its list is their occurrences. */
  lemma {:induction false} IndexUpToOccurrences(g: Grid, k: int, t: string)
    requires IsGrid(g) && 0 <= k <= Cells
    ensures t in IndexUpTo(g, k) <==> Occurrences(g, t, k) != []
    ensures t in IndexUpTo(g, k) ==> IndexUpTo(g, k)[t] == Occurrences(g, t, k)
  {
    if k > 0 {
      IndexUpToOccurrences(g, k - 1, t);
    }
  }

  /** An index of all sixteen cells lists each cell under its tile, and only there, in row-major order. */
  lemma IndexDescribesBoard(board: array2<string>, g: Grid, letters: map<string, seq<Coord>>)
    requires board.Length0 == Size && board.Length1 == Size && IsGrid(g) && BoardHolds(board, g)
    requires letters == IndexUpTo(g, Cells)
    ensures forall t :: t in letters <==> exists c :: InBounds(c) && board[c.0, c.1] == t
    ensures forall t, c :: t in letters ==> (c in letters[t] <==> InBounds(c) && board[c.0, c.1] == t)
    ensures forall t :: t in letters ==> RowMajorOrdered(letters[t])
    ensures forall t :: t in letters <==> Occurrences(g, t, Cells) != []
    ensures forall t :: t in letters ==> letters[t] == Occurrences(g, t, Cells)
  {
    forall t
      ensures t in letters <==> exists c :: InBounds(c) && board[c.0, c.1] == t
      ensures t in letters <==> Occurrences(g, t, Cells) != []
      ensures t in letters ==> RowMajorOrdered(letters[t])
      ensures t in letters ==> letters[t] == Occurrences(g, t, Cells)
    {
      IndexUpToOccurrences(g, Cells, t);
      OccurrencesNonEmpty(g, t);
      OccurrencesOrdered(g, t, Cells);
    }
    forall t, c | t in letters
      ensures c in letters[t] <==> InBounds(c) && board[c.0, c.1] == t
    {
      IndexUpToOccurrences(g, Cells, t);
      OccurrencesMember(g, t, Cells, c);
    }
  }

  /**
   * Reads the board row by row and lists, under each tile value, the cells that
   * hold it. The keys are exactly the tiles on the board; each cell is listed
   * once, under its own tile; every list is in row-major order.
   */
  method CreateLettersDict(board: array2<string>) returns (letters: map<string, seq<Coord>>)
    requires board.Length0 == Size && board.Length1 == Size
    ensures forall t :: t in letters <==> exists c :: InBounds(c) && board[c.0, c.1] == t
    ensures forall t, c :: t in letters ==> (c in letters[t] <==> InBounds(c) && board[c.0, c.1] == t)
    ensures forall t :: t in letters ==> RowMajorOrdered(letters[t])
    ensures forall t :: t in letters <==> Occurrences(Snapshot(board), t, Cells) != []
    ensures forall t :: t in letters ==> letters[t] == Occurrences(Snapshot(board), t, Cells)
    ensures letters == IndexUpTo(Snapshot(board), Cells)
  {
    ghost var g := Snapshot(board);
    ghost var k := 0;
    letters := map[];
    for i := 0 to Size
      invariant k == i * 4 && letters == IndexUpTo(g, k)
    {
      for j := 0 to Size
        invariant k == i * 4 + j && letters == IndexUpTo(g, k)
      {
        var letter := board[i, j];
        FileCell(g, i, j, letters);
        if letter !in letters {
          letters := letters[letter := [(i, j)]];
        } else {
          letters := letters[letter := letters[letter] + [(i, j)]];
        }
        k := k + 1;
      }
    }
    IndexDescribesBoard(board, g, letters);
  }
}
