/**
 * The search itself: `find_length_n_words`, `find_word_paths` and the
 * recursive backtracking helper, which marks the cells of the current path on
 * the board in place and restores them on the way back.
 */
module WordFinder {
  import opened Seqs
  import opened Grid
  import opened LetterIndex
  import opened WordBeginnings
  import opened SearchSpec

  /** A list the search's frames share by reference: the paths found so far, or the current path. */
  class MutableList<T> {
    var items: seq<T>

    constructor (init: seq<T>)
      ensures items == init
    {
      items := init;
    }

    method Append(x: T)
      modifies this
      ensures items == old(items) + [x]
    {
      items := items + [x];
    }

    method Pop() returns (x: T)
      requires items != []
      modifies this
      ensures old(items) == items + [x]
    {
      x := items[|items| - 1];
      items := items[..|items| - 1];
    }
  }

  /**
   * The backtracking step. Entered at `location` with the text `temp` read so
   * far along `currentPath`, it appends to `paths` every path of `n` cells
   * that completes the word from here, in the order of the moves, and leaves
   * the board and the current path as it found them.
   */
  method FindWordPathsHelper(n: int, board: array2<string>, word: string, location: Coord,
                             paths: MutableList<Path>, temp: string, currentPath: MutableList<Coord>, ghost g: Grid)
    requires board.Length0 == Size && board.Length1 == Size
    requires IsGrid(g) && NonEmptyTiles(g) && BoardHolds(board, g) && InBounds(location)
    modifies board, paths, currentPath
    ensures BoardHolds(board, g)
    ensures currentPath.items == old(currentPath.items)
    ensures paths.items == old(paths.items) + Dfs(g, n, word, location, temp, old(currentPath.items))
    decreases |word| - |temp|, 2
  {
    ghost var path := currentPath.items;
    if temp == word && |currentPath.items| == n {
      paths.Append(currentPath.items);
      return;
    }
    var tempWord := temp;
    ghost var acc := [];
    for k := 0 to |LegalMoves|
      invariant BoardHolds(board, g) && currentPath.items == path && tempWord == temp
      invariant paths.items == old(paths.items) + acc
      invariant acc + Moves(g, n, word, location, temp, path, k) == Moves(g, n, word, location, temp, path, 0)
    {
      ghost var here := Branch(g, n, word, location, temp, path, k);
      tempWord := TryMove(n, board, word, location, paths, tempWord, currentPath, g, k);
      ConcatAssoc(old(paths.items), acc, here);
      ConcatAssoc(acc, here, Moves(g, n, word, location, temp, path, k + 1));
      acc := acc + here;
    }
  }

  /**
   * One turn of the helper's loop: the `k`-th move from `location`. The search
   * goes deeper only when the neighbour is on the board and its tile continues
   * the word; either way the text comes back as it was entered.
   */
  method TryMove(n: int, board: array2<string>, word: string, location: Coord,
                 paths: MutableList<Path>, tempWord: string, currentPath: MutableList<Coord>, ghost g: Grid, k: nat)
    returns (restored: string)
    requires board.Length0 == Size && board.Length1 == Size
    requires IsGrid(g) && NonEmptyTiles(g) && BoardHolds(board, g) && InBounds(location) && k < |LegalMoves|
    modifies board, paths, currentPath
    ensures BoardHolds(board, g)
    ensures restored == tempWord
    ensures currentPath.items == old(currentPath.items)
    ensures paths.items == old(paths.items) + Branch(g, n, word, location, tempWord, old(currentPath.items), k)
    decreases |word| - |tempWord|, 1
  {
    restored := tempWord;
    var move := LegalMoves[k];
    var nextLocation := (location.0 + move.0, location.1 + move.1);
    assert nextLocation == Step(location, LegalMoves[k]);
    if !(0 <= nextLocation.0 <= 3) || !(0 <= nextLocation.1 <= 3) {
      BranchOff(g, n, word, location, tempWord, currentPath.items, k);
      return;
    }
    var nextLetter := board[nextLocation.0, nextLocation.1];
    assert nextLetter == Tile(g, nextLocation);
    var length := |restored| + |nextLetter|;
    BranchOn(g, n, word, location, tempWord, currentPath.items, k);
    if restored + nextLetter == Take(word, length) {
      restored := Descend(n, board, word, location, nextLocation, nextLetter, paths, restored, currentPath, g);
    }
  }

  /**
   * The move that continues the word: the current cell is overwritten by the
   * sentinel and the search goes one level deeper from `nextLocation`; then
   * the path, the text and the cell are put back. Cutting the tile off the end
   * of the text gives back exactly the text it was entered with.
   */
  method Descend(n: int, board: array2<string>, word: string, location: Coord, nextLocation: Coord, nextLetter: string,
                 paths: MutableList<Path>, tempWord: string, currentPath: MutableList<Coord>, ghost g: Grid)
    returns (restored: string)
    requires board.Length0 == Size && board.Length1 == Size
    requires IsGrid(g) && NonEmptyTiles(g) && BoardHolds(board, g) && InBounds(location) && InBounds(nextLocation)
    requires 0 < |nextLetter| && |tempWord| + |nextLetter| <= |word|
    modifies board, paths, currentPath
    ensures BoardHolds(board, g)
    ensures restored == tempWord
    ensures currentPath.items == old(currentPath.items)
    ensures paths.items == old(paths.items) +
      Dfs(Mark(g, location, Sentinel), n, word, nextLocation, tempWord + nextLetter, old(currentPath.items) + [nextLocation])
    decreases |word| - |tempWord|, 0
  {
    ghost var path := currentPath.items;
    ghost var marked := Mark(g, location, Sentinel);
    var currentLetter := board[location.0, location.1];
    board[location.0, location.1] := Sentinel;
    assert BoardHolds(board, marked);
    restored := tempWord + nextLetter;
    currentPath.Append(nextLocation);
    FindWordPathsHelper(n, board, word, nextLocation, paths, restored, currentPath, marked);
    var last := currentPath.Pop();
    SnocInjective(currentPath.items, last, path, nextLocation);
    restored := restored[..|restored| - |nextLetter|];
    assert restored == tempWord;
    board[location.0, location.1] := currentLetter;
    forall c | InBounds(c) ensures board[c.0, c.1] == Tile(g, c) {
      if c != location {
        assert Tile(marked, c) == Tile(g, c);
      }
    }
  }

  /**
   * Runs the search from each location in turn, entered with the beginning
   * alone, and collects every path found; the board is restored.
   */
  method FindWordPaths(n: int, board: array2<string>, word: string, beginning: string, locations: seq<Coord>)
    returns (found: seq<Path>)
    requires board.Length0 == Size && board.Length1 == Size
    requires forall c :: InBounds(c) ==> |board[c.0, c.1]| > 0
    requires AllInBounds(locations)
    modifies board
    ensures forall c :: InBounds(c) ==> board[c.0, c.1] == old(board[c.0, c.1])
    ensures found == SeedPaths(old(Snapshot(board)), n, word, beginning, locations)
  {
    ghost var g := Snapshot(board);
    var paths := new MutableList<Path>([]);
    for i := 0 to |locations|
      invariant BoardHolds(board, g)
      invariant paths.items == SeedPaths(g, n, word, beginning, locations[..i])
    {
      var location := locations[i];
      var tempWord := beginning;
      var currentPath := new MutableList<Coord>([location]);
      FindWordPathsHelper(n, board, word, location, paths, tempWord, currentPath, g);
      assert locations[..i + 1][..i] == locations[..i];
    }
    assert locations[..|locations|] == locations;
    found := paths.items;
  }

  lemma SnocInjective<T>(a: seq<T>, x: T, b: seq<T>, y: T)
    requires a + [x] == b + [y]
    ensures a == b
  {
    assert a == (a + [x])[..|a|];
  }

  lemma ConcatAssoc<T>(a: seq<T>, b: seq<T>, c: seq<T>)
    ensures a + b + c == a + (b + c)
  {
  }

  /** The pairs of `word` with each of `paths`, in order. */
  function Tagged(word: string, paths: seq<Path>): (r: seq<(string, Path)>)
    ensures |r| == |paths|
  {
    if paths == [] then [] else Tagged(word, paths[..|paths| - 1]) + [(word, paths[|paths| - 1])]
  }

  /** The `i`-th pair holds the `i`-th path. */
  lemma {:induction false} TaggedAt(word: string, paths: seq<Path>)
    ensures forall i :: 0 <= i < |paths| ==> Tagged(word, paths)[i] == (word, paths[i])
  {
    if paths != [] {
      TaggedAt(word, paths[..|paths| - 1]);
    }
  }

  lemma TaggedMember(word: string, paths: seq<Path>, pair: (string, Path))
    ensures pair in Tagged(word, paths) <==> pair.0 == word && pair.1 in paths
  {
    var r := Tagged(word, paths);
    TaggedAt(word, paths);
    if pair.0 == word && pair.1 in paths {
      var i :| 0 <= i < |paths| && paths[i] == pair.1;
      assert r[i] == pair;
    }
  }

  lemma TaggedSnoc(word: string, paths: seq<Path>, p: int)
    requires 0 <= p < |paths|
    ensures Tagged(word, paths[..p + 1]) == Tagged(word, paths[..p]) + [(word, paths[p])]
  {
    assert paths[..p + 1][..p] == paths[..p];
  }

  lemma {:induction false} TaggedConcat(word: string, a: seq<Path>, b: seq<Path>)
    ensures Tagged(word, a + b) == Tagged(word, a) + Tagged(word, b)
    decreases |b|
  {
    if b == [] {
      assert a + b == a;
    } else {
      var b' := b[..|b| - 1];
      assert (a + b)[..|a + b| - 1] == a + b';
      TaggedConcat(word, a, b');
      ConcatAssoc(Tagged(word, a), Tagged(word, b'), [(word, b[|b| - 1])]);
    }
  }

  /**
   * Pairs every word of the dictionary with every path of `n` cells the
   * search finds for it; the board is restored. Each pair occurs once; with no
   * sentinel character in the words, the pairs are exactly the legal `n`-cell
   * paths that spell a dictionary word from one of its beginnings.
   */
  method FindLengthNWords(n: int, board: array2<string>, words: set<string>) returns (nWords: seq<(string, Path)>)
    requires board.Length0 == Size && board.Length1 == Size
    requires forall c :: InBounds(c) ==> |board[c.0, c.1]| > 0
    modifies board
    ensures forall c :: InBounds(c) ==> board[c.0, c.1] == old(board[c.0, c.1])
    ensures Distinct(nWords)
    ensures forall pair :: pair in nWords <==> pair.0 in words && pair.1 in WordPaths(old(Snapshot(board)), n, pair.0)
    ensures (forall w :: w in words ==> NoSentinel(w)) ==>
      forall pair :: pair in nWords <==> pair.0 in words && IsFound(old(Snapshot(board)), n, pair.0, pair.1)
  {
    ghost var g := Snapshot(board);
    var letters := CreateLettersDict(board);
    nWords := [];
    var remaining := words;
    while remaining != {}
      invariant remaining <= words
      invariant BoardHolds(board, g)
      invariant Collected(g, n, words - remaining, nWords)
      decreases remaining
    {
      var word :| word in remaining;
      ghost var before := nWords;
      nWords := CollectWord(n, board, word, letters, nWords, g);
      WordAdded(g, n, words - remaining, word, before);
      assert words - remaining + {word} == words - (remaining - {word});
      remaining := remaining - {word};
    }
    assert words - remaining == words;
    forall pair | forall w :: w in words ==> NoSentinel(w)
      ensures pair in nWords <==> pair.0 in words && IsFound(g, n, pair.0, pair.1)
    {
      if pair.0 in words {
        WordPathsExact(g, n, pair.0, pair.1);
      }
    }
  }

  /**
   * The body of the loop over the dictionary: for each beginning of `word`
   * that is a tile on the board, runs the search from the cells holding it and
   * appends the pairs of `word` with the paths found.
   */
  method CollectWord(n: int, board: array2<string>, word: string, letters: map<string, seq<Coord>>,
                     nWords: seq<(string, Path)>, ghost g: Grid)
    returns (nWords': seq<(string, Path)>)
    requires board.Length0 == Size && board.Length1 == Size
    requires IsGrid(g) && NonEmptyTiles(g) && BoardHolds(board, g) && letters == IndexUpTo(g, Cells)
    modifies board
    ensures BoardHolds(board, g)
    ensures nWords' == nWords + Tagged(word, WordPaths(g, n, word))
  {
    nWords' := nWords;
    var beginnings := CreateWordBeginnings(word);
    for b := 0 to |beginnings|
      invariant BoardHolds(board, g)
      invariant nWords' == nWords + Tagged(word, BeginningPaths(g, n, word, beginnings[..b]))
    {
      nWords' := CollectBeginning(n, board, word, beginnings[b], letters, nWords', g);
      BeginningStep(g, n, word, beginnings, b);
      ConcatAssoc(nWords, Tagged(word, BeginningPaths(g, n, word, beginnings[..b])),
        Tagged(word, SeedPaths(g, n, word, beginnings[b], Occurrences(g, beginnings[b], Cells))));
    }
    assert beginnings[..|beginnings|] == beginnings;
  }

  /**
   * One beginning of `word`: when it is a tile on the board, searches from the
   * cells that hold it and appends the pairs of `word` with the paths found;
   * otherwise appends nothing.
   */
  method CollectBeginning(n: int, board: array2<string>, word: string, beginning: string,
                          letters: map<string, seq<Coord>>, nWords: seq<(string, Path)>, ghost g: Grid)
    returns (nWords': seq<(string, Path)>)
    requires board.Length0 == Size && board.Length1 == Size
    requires IsGrid(g) && NonEmptyTiles(g) && BoardHolds(board, g) && letters == IndexUpTo(g, Cells)
    modifies board
    ensures BoardHolds(board, g)
    ensures nWords' == nWords + Tagged(word, SeedPaths(g, n, word, beginning, Occurrences(g, beginning, Cells)))
  {
    IndexUpToOccurrences(g, Cells, beginning);
    if beginning in letters {
      var locations := letters[beginning];
      SnapshotOfHeld(board, g);
      var paths := FindWordPaths(n, board, word, beginning, locations);
      nWords' := AppendPairs(nWords, word, paths);
    } else {
      assert SeedPaths(g, n, word, beginning, Occurrences(g, beginning, Cells)) == [];
      nWords' := nWords;
    }
  }

  /** Appends the pair of `word` with each path, in order. */
  method AppendPairs(nWords: seq<(string, Path)>, word: string, paths: seq<Path>)
    returns (nWords': seq<(string, Path)>)
    ensures nWords' == nWords + Tagged(word, paths)
  {
    nWords' := nWords;
    for p := 0 to |paths|
      invariant nWords' == nWords + Tagged(word, paths[..p])
    {
      TaggedSnoc(word, paths, p);
      ConcatAssoc(nWords, Tagged(word, paths[..p]), [(word, paths[p])]);
      nWords' := nWords' + [(word, paths[p])];
    }
    assert paths[..|paths|] == paths;
  }

  /** `pairs` holds, once each, every word of `done` with every path reported for it, and nothing else. */
  ghost predicate Collected(g: Grid, n: int, done: set<string>, pairs: seq<(string, Path)>)
    requires IsGrid(g) && NonEmptyTiles(g)
  {
    Distinct(pairs) && forall pair :: pair in pairs <==> pair.0 in done && pair.1 in WordPaths(g, n, pair.0)
  }

  /** One more beginning's paths extend the pairs for a word. */
  lemma BeginningStep(g: Grid, n: int, word: string, beginnings: seq<string>, b: int)
    requires IsGrid(g) && NonEmptyTiles(g) && 0 <= b < |beginnings|
    ensures Tagged(word, BeginningPaths(g, n, word, beginnings[..b + 1])) ==
      Tagged(word, BeginningPaths(g, n, word, beginnings[..b])) +
      Tagged(word, SeedPaths(g, n, word, beginnings[b], Occurrences(g, beginnings[b], Cells)))
  {
    assert beginnings[..b + 1][..b] == beginnings[..b];
    TaggedConcat(word, BeginningPaths(g, n, word, beginnings[..b]),
      SeedPaths(g, n, word, beginnings[b], Occurrences(g, beginnings[b], Cells)));
  }

  /** Adding a word's pairs to the pairs of other words keeps every pair once. */
  lemma WordAdded(g: Grid, n: int, done: set<string>, word: string, pairs: seq<(string, Path)>)
    requires IsGrid(g) && NonEmptyTiles(g) && word !in done && Collected(g, n, done, pairs)
    ensures Collected(g, n, done + {word}, pairs + Tagged(word, WordPaths(g, n, word)))
  {
    var added := Tagged(word, WordPaths(g, n, word));
    WordPathsDistinct(g, n, word);
    TaggedDistinct(word, WordPaths(g, n, word));
    forall pair | pair in added ensures pair !in pairs {
      TaggedMember(word, WordPaths(g, n, word), pair);
    }
    DistinctConcat(pairs, added);
    forall pair ensures pair in pairs + added <==> pair.0 in done + {word} && pair.1 in WordPaths(g, n, pair.0) {
      TaggedMember(word, WordPaths(g, n, word), pair);
    }
  }

  lemma TaggedDistinct(word: string, paths: seq<Path>)
    requires Distinct(paths)
    ensures Distinct(Tagged(word, paths))
  {
    TaggedAt(word, paths);
  }
}
