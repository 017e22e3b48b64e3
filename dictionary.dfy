/**
 * The word list (`load_words_dict`): every line of the words file becomes a
 * key with its last character cut off. Reading the file is left to the
 * caller, which supplies the lines with their line endings still attached.
 */
module Dictionary {

  /** Python's `line[:-1]`: the line without its last character; an empty line stays empty. */
  function DropLast(line: string): (r: string)
    ensures |line| == 0 ==> r == ""
    ensures |line| > 0 ==> r + [line[|line| - 1]] == line
  {
    if line == "" then "" else line[..|line| - 1]
  }

  /** Cutting the newline off a terminated line gives back the word. */
  lemma DropLastNewline(w: string)
    ensures DropLast(w + "\n") == w
  {
    assert (w + "\n")[..|w|] == w;
  }

  /** The keys the loader makes from `lines`. */
  ghost function Keys(lines: seq<string>): set<string> {
    set i | 0 <= i < |lines| :: DropLast(lines[i])
  }

  /**
   * When every line ends with a newline, the keys are exactly the words the
   * lines hold. (A last line with no newline loses its last letter instead.)
   */
  lemma KeysOfTerminatedLines(lines: seq<string>, w: string)
    requires forall i :: 0 <= i < |lines| ==> |lines[i]| > 0 && lines[i][|lines[i]| - 1] == '\n'
    ensures w in Keys(lines) <==> exists i :: 0 <= i < |lines| && lines[i] == w + "\n"
  {
    if i :| 0 <= i < |lines| && lines[i] == w + "\n" {
      DropLastNewline(w);
    }
  }

  /** Builds the set of keys line by line; repeated lines give one key. */
  method LoadWordsDict(lines: seq<string>) returns (words: set<string>)
    ensures forall w :: w in words <==> exists i :: 0 <= i < |lines| && DropLast(lines[i]) == w
    ensures words == Keys(lines)
  {
    words := {};
    for i := 0 to |lines|
      invariant forall w :: w in words <==> exists j :: 0 <= j < i && DropLast(lines[j]) == w
    {
      words := words + {DropLast(lines[i])};
    }
  }
}
