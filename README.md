# Boggle word search and path validation, in Dafny

This project models the engine of a 4×4 Boggle game (`ex12_utils.py`). It
covers three jobs:

- **checking a path** the player traced on the board (`is_valid_path`);
- **finding every dictionary word** that can be spelled with exactly `n`
  cells (`find_length_n_words`). This uses the letter index
  (`create_letters_dict`), the word beginnings (`create_word_beginnings`) and
  the backtracking search (`find_word_paths`, `_find_word_paths_helper`);
- **turning the lines of a words file into the dictionary**
  (`load_words_dict`).

The board is an `array2<string>` of tiles; a tile may hold more than one
letter (for instance "QU"). The search works on the board in place, as the
source does. It overwrites the current cell with the sentinel `"*"` while it
explores beyond it, then writes the tile back. The dictionary is a
`set<string>`. The Python lists that the recursive helper shares with its
callers (`paths`, `current_path`) are objects of a small class
`MutableList<T>`. `temp_word` is a local string that the helper extends and
then cuts back.

Modules, each in its own file:

- `Seqs` (`seqs.dfy`): duplicate-free sequences and Python's `set(s)`.
- `Grid` (`grid.dfy`): coordinates, `LEGAL_MOVES`, adjacency, the board and
  its value snapshot, and the word a path spells.
- `PathCheck` (`path_check.dfy`): `is_valid_path`.
- `LetterIndex` (`letter_index.dfy`): `create_letters_dict`.
- `WordBeginnings` (`word_beginnings.dfy`): `create_word_beginnings`.
- `SearchSpec` (`search_spec.dfy`): the specification of the search. Ghost
  functions `Dfs`/`Moves`/`Branch` follow the helper step by step on the
  board as the search sees it, sentinels included. Lemmas then say what those
  records are.
- `WordFinder` (`word_finder.dfy`): the imperative search, `find_word_paths`
  and `find_length_n_words`. Each method is proved against the
  specification functions.
- `Dictionary` (`dictionary.dfy`): the line-trimming rule of
  `load_words_dict`.

The two main results are these:

- **Board restored.** The search leaves the board as it found it.
- **Exact results.** `find_length_n_words` reports each (word, path) pair at
  most once. Its pairs are exactly these:
  - the word is in the dictionary;
  - the path is legal (on the board, king-move connected, no cell twice)
    and has `n` cells;
  - the path spells the word;
  - the path starts on a tile that is one of the word's beginnings.

  The "exactly" holds for every dictionary without the character `*`. The
  "at most once" holds for every dictionary.

Where the code departs from how the game is usually described, it is the code that is modelled. In particular:

- An empty path spells `""`, so `is_valid_path` returns `""` when the
  dictionary holds the empty word. A blank line in the words file puts it
  there.
- A one-letter word has one beginning, itself: the loop's stop index
  `len - 2` is never reached. Words of length 0 or 2 have no beginnings, so
  the search never reports them.
- A beginning seeds the search only from cells whose whole tile equals it. A
  beginning of two or more letters therefore matches only a multi-letter
  tile.
- `line[:-1]` drops the last character of every line. A last line with no
  newline loses a letter of its word.

## Model

| member | source | states |
|---|---|---|
| Grid.AdjacentIsKingMove | ex12_utils.py:3 | two cells may be consecutive in a path exactly when they differ and each coordinate differs by at most one (the eight king moves) |
| Grid.AdjacentSymmetric | ex12_utils.py:3 | the legal moves are closed under reversal: `a` may follow `b` exactly when `b` may follow `a` |
| Grid.LegalMovesDistinct | ex12_utils.py:3 | no move is listed twice, so the eight moves from a cell reach eight different cells |
| Grid.Mark | ex12_utils.py:134-135 | overwriting one cell changes that cell's tile and no other |
| Seqs.DistinctIffSameSize | ex12_utils.py:38-39 | `len(path) == len(set(path))` holds exactly when no cell repeats, and the set is never larger than the path |
| PathCheck.IsValidPath | ex12_utils.py:26-61 | a repeated cell, a cell off the board or a non-adjacent step gives None; for a legal path the result is the word the path spells if it is in the dictionary, else None; any word returned comes from a legal path and is in the dictionary |
| PathCheck.ScanStep | ex12_utils.py:43-58 | accepting one more cell (on the board, adjacent to the next) extends the word read so far by that cell's tile |
| LetterIndex.CreateLettersDict | ex12_utils.py:146-165 | the keys are exactly the tiles on the board; each list holds exactly the cells with that tile, in row-major order; the index equals the one the row-by-row filing defines |
| LetterIndex.FileCell | ex12_utils.py:158-163 | filing cell (i, j) adds it at the end of its tile's list, or starts a new list for a tile not seen before |
| LetterIndex.RowMajorOfIndex | ex12_utils.py:158-159 | the row-by-row visit order meets every cell once: the position of a cell in that order leads back to the cell |
| LetterIndex.OccurrencesMember | ex12_utils.py:158-163 | after the first k cells, a cell is listed under a tile exactly when it is among them and holds that tile |
| LetterIndex.OccurrencesOrdered | ex12_utils.py:158-163 | each list is strictly increasing in row-major order and lies among the cells already visited |
| LetterIndex.IndexUpToOccurrences | ex12_utils.py:158-163 | after k cells, a tile is a key exactly when it has occurred, and its list is its occurrences so far |
| LetterIndex.IndexDescribesBoard | ex12_utils.py:146-165 | the completed index lists every cell under its own tile and nowhere else, has no other keys, and keeps each list ordered |
| WordBeginnings.CreateWordBeginnings | ex12_utils.py:168-185 | the beginnings are `word[:1]`, `word[:2]`, … up to length len − 2 for a word of three or more letters; none for lengths 0 and 2; the word itself for a one-letter word |
| WordBeginnings.BeginningsArePrefixes | ex12_utils.py:180-183 | a string is a beginning exactly when it is a non-empty prefix of the word no longer than the beginning count |
| SearchSpec.TakeTestIsPrefix | ex12_utils.py:133 | the test `temp + tile == word[:len(temp) + len(tile)]` holds exactly when `temp + tile` is a prefix of the word |
| SearchSpec.SentinelNeverMatches | ex12_utils.py:133-135 | a cell holding the sentinel never passes the prefix test for a word without `*` |
| SearchSpec.BranchOff | ex12_utils.py:126-128 | a move that leaves the board records nothing |
| SearchSpec.BranchOn | ex12_utils.py:130-139 | a move onto the board whose tile continues the word records what the search from the neighbour records, with the current cell marked; otherwise nothing |
| SearchSpec.CompletionPassesTest | ex12_utils.py:130-135 | the next cell of any legal completion of the path is none of the marked cells, and its tile passes the prefix test |
| SearchSpec.ExtendMarked | ex12_utils.py:134-137 | a neighbour whose tile passes the prefix test is off the path and unmarked; stepping to it keeps the path legal and the text equal to what the path spells, and marking the current cell marks exactly the earlier cells of the new path |
| SearchSpec.DfsMember | ex12_utils.py:116-143 | entered on a legal path whose earlier cells are marked, the search records exactly the legal `n`-cell completions of that path that spell the word (word without `*`) |
| SearchSpec.DfsDistinct | ex12_utils.py:116-143 | every path the search records extends the path it was entered with, and none is recorded twice |
| SearchSpec.SeedPathsMember | ex12_utils.py:108-111 | searching from the cells that hold the beginning finds exactly the legal `n`-cell paths that start on one of them and spell the word |
| SearchSpec.SeedPathsDistinct | ex12_utils.py:108-111 | the runs from different starting cells record different paths, each once |
| SearchSpec.BeginningPathsMember | ex12_utils.py:80-86 | over a list of beginnings, the paths found are exactly the legal `n`-cell paths that spell the word and start on a tile in the list |
| SearchSpec.BeginningPathsDistinct | ex12_utils.py:80-86 | different beginnings give disjoint results, so no path is found twice |
| SearchSpec.BeginningsDistinct | ex12_utils.py:180-183 | a word's beginnings are pairwise different |
| SearchSpec.WordPathsExact | ex12_utils.py:79-86 | the paths paired with a word are exactly the legal `n`-cell paths that spell it and start on one of its beginnings |
| SearchSpec.WordPathsDistinct | ex12_utils.py:79-86 | no path is paired with a word twice, whatever the word |
| WordFinder.MutableList.Append | ex12_utils.py:122 | `list.append`: the new element goes at the end and nothing else changes |
| WordFinder.MutableList.Pop | ex12_utils.py:141 | `list.pop()`: removes and returns the last element |
| WordFinder.FindWordPathsHelper | ex12_utils.py:116-143 | appends to `paths` exactly what the search specification records, in order; leaves the board and the current path as it found them |
| WordFinder.TryMove | ex12_utils.py:125-143 | one move of the helper's loop appends what that move records and gives back the text unchanged |
| WordFinder.Descend | ex12_utils.py:133-143 | marks the cell, searches from the neighbour with the extended text and path, and restores the path, the cell and the text (`temp_word[:-len(next_letter)]` is the text it was entered with) |
| WordFinder.FindWordPaths | ex12_utils.py:91-113 | collects the searches from each location in turn; restores every cell of the board |
| WordFinder.FindLengthNWords | ex12_utils.py:64-88 | restores the board; no pair occurs twice; the pairs are exactly the dictionary words with the paths found for them, and without `*` in the words, exactly the legal `n`-cell paths that spell a dictionary word from one of its beginnings |
| WordFinder.CollectWord | ex12_utils.py:79-86 | one word's turn appends that word paired with all of its paths, in order, and restores the board |
| WordFinder.CollectBeginning | ex12_utils.py:81-86 | a beginning that is a tile adds the paths from its cells, and one that is not a tile adds nothing |
| WordFinder.AppendPairs | ex12_utils.py:85-86 | appends the pair of the word with each path, in order |
| WordFinder.WordAdded | ex12_utils.py:79-86 | adding one more word's pairs keeps every pair once and the set of pairs exact |
| Dictionary.DropLast | ex12_utils.py:21 | `line[:-1]` is the line without its last character; an empty line stays empty |
| Dictionary.DropLastNewline | ex12_utils.py:21 | trimming a newline-terminated line gives back the word |
| Dictionary.KeysOfTerminatedLines | ex12_utils.py:19-21 | when every line ends with a newline, the keys are exactly the words the lines hold |
| Dictionary.LoadWordsDict | ex12_utils.py:7-23 | the keys are exactly the trimmed lines |

## Left out

- The game's other files (the window, the controller, the board model and the board randomiser) are not part of this model.
- LoadWordsDict: opening and reading the file is I/O; the method takes the file's lines, each with its line ending still attached.
- FindLengthNWords: the order in which Python walks the dictionary is not modelled. The method takes the words in an arbitrary order, so its result is stated as a set of pairs without duplicates, not as a sequence. Within one word the order is kept, as CollectWord states.
- FindLengthNWords: the exact description of the pairs is proved only for words without the sentinel character `*`. In such a word, a marked cell can pass the prefix test and be visited twice.
- FindWordPaths: requires non-empty tiles, as the board supplier guarantees. With an empty tile, Python's `temp_word[:-0]` would empty the text instead of restoring it.
- FindWordPaths: requires its locations to be on the board; they always come from the letter index. Python's wrap-around of negative list indices is not modelled.
- The board is a 4×4 array, as the code's literal bounds `0 <= … <= 3` assume. Boards of other shapes, and Python rows that alias each other, are not modelled.
- The helper's loop body is a separate method, TryMove, and so is its descending branch, Descend. The loop body of `find_length_n_words` is split the same way, into CollectWord, CollectBeginning and AppendPairs. Their statements are the source's, in the same order.
