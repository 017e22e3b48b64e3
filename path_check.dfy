/** Checking a path the player built by hand (`is_valid_path`). */
module PathCheck {
  import opened Seqs
  import opened Grid

  /**
   * The first `j` cells of `path` are on the board, the pairs among the first
   * `j + 1` cells are adjacent, and `word` is what the first `j` cells spell.
   */
  ghost predicate Scanned(g: Grid, path: Path, j: int, word: string)
    requires IsGrid(g) && 0 <= j <= |path|
  {
    (forall i :: 0 <= i < j ==> InBounds(path[i])) &&
    (forall i :: 0 <= i < j && i + 1 < |path| ==> Adjacent(path[i], path[i + 1])) &&
    word == Spell(g, path[..j])
  }

  /** Accepting the `j`-th cell, once it is on the board and adjacent to the next one. */
  lemma ScanStep(g: Grid, path: Path, j: int, word: string)
    requires IsGrid(g) && 0 <= j < |path| && Scanned(g, path, j, word) && InBounds(path[j])
    requires j + 1 < |path| ==> Adjacent(path[j], path[j + 1])
    ensures Scanned(g, path, j + 1, word + Tile(g, path[j]))
  {
    assert path[..j + 1] == path[..j] + [path[j]];
    SpellSnoc(g, path[..j], path[j]);
  }

  lemma ScannedWhole(g: Grid, path: Path, word: string)
    requires IsGrid(g) && Scanned(g, path, |path|, word)
    ensures AllInBounds(path) && Connected(path) && word == Spell(g, path)
  {
    assert path[..|path|] == path;
  }

  /**
   * Returns the word `path` spells when the path is legal and the word is in
   * `words`, and None otherwise. One pass over the path with early returns;
   * neither the board nor the path is changed.
   */
  method IsValidPath(board: array2<string>, path: Path, words: set<string>) returns (r: Option<string>)
    requires board.Length0 == Size && board.Length1 == Size
    ensures !Distinct(path) ==> r == None
    ensures !AllInBounds(path) || !Connected(path) ==> r == None
    ensures IsLegalPath(path) ==>
      r == if Spell(Snapshot(board), path) in words then Some(Spell(Snapshot(board), path)) else None
    ensures r.Some? ==> IsLegalPath(path) && r.value == Spell(Snapshot(board), path) && r.value in words
  {
    if |path| != |Elements(path)| {
      DistinctIffSameSize(path);
      return None;
    }
    DistinctIffSameSize(path);
    ghost var g := Snapshot(board);
    var word := "";
    var j := 0;
    while j < |path|
      invariant 0 <= j <= |path|
      invariant j < |path| || path == []
      invariant Scanned(g, path, j, word)
    {
      var coordinate := path[j];
      if !(0 <= coordinate.0 <= 3) || !(0 <= coordinate.1 <= 3) {
        assert !InBounds(path[j]);
        return None;
      }
      var letter := board[coordinate.0, coordinate.1];
      if j == |path| - 1 {
        ScanStep(g, path, j, word);
        word := word + letter;
        break;
      }
      var difference := (coordinate.0 - path[j + 1].0, coordinate.1 - path[j + 1].1);
      if difference !in LegalMoves {
        assert !Adjacent(path[j], path[j + 1]);
        return None;
      }
      ScanStep(g, path, j, word);
      word := word + letter;
      j := j + 1;
    }
    ScannedWhole(g, path, word);
    if word in words {
      return Some(word);
    }
    return None;
  }
}
