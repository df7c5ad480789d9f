/** The string building of write_lines (easypath/main.py:122-131): every
    line is followed by the terminator and the pieces are concatenated. */
module Lines {

  datatype Option<T> = None | Some(value: T)

  /** Each line followed by the terminator `t`, all concatenated. */
  function JoinTerminated(lines: seq<string>, t: string): string
    decreases |lines|
  {
    if lines == [] then "" else lines[0] + t + JoinTerminated(lines[1..], t)
  }

  /** The terminator as the f-string `f"{line}{newline}"` spells it: a
      missing terminator (`None`) is formatted as the text "None". */
  function Terminator(newline: Option<string>): string {
    match newline
    case Some(t) => t
    case None => "None"
  }

  /** The text write_lines hands to write_text, as written. */
  function WriteLinesData(lines: seq<string>, newline: Option<string>): string {
    JoinTerminated(lines, Terminator(newline))
  }

  /** The text write_lines evidently means to write: a missing terminator
      stands for "\n", as `newline=None` does for text files. */
  function WriteLinesDataFixed(lines: seq<string>, newline: Option<string>): string {
    JoinTerminated(lines, match newline case Some(t) => t case None => "\n")
  }

  /** The first position of `c` in `s`, or `|s|` when there is none. */
  function IndexOf(s: string, c: char): (k: nat)
    ensures k <= |s|
    ensures k < |s| ==> s[k] == c
    ensures forall j :: 0 <= j < k ==> s[j] != c
    decreases |s|
  {
    if s == [] then 0 else if s[0] == c then 0 else 1 + IndexOf(s[1..], c)
  }

  /** A reader for the written text: the pieces of `s` each ended by `c`; a
      last piece without a terminator is kept as it is. It splits at `c`
      alone, unlike `str.splitlines()`, which read_lines uses and which also
      splits at "\r" and the other line breaks. */
  function SplitTerminated(s: string, c: char): seq<string>
    decreases |s|
  {
    if s == [] then []
    else
      var k := IndexOf(s, c);
      if k == |s| then [s] else [s[..k]] + SplitTerminated(s[k + 1..], c)
  }

  /** Writing a list of lines is compositional: the text of `a + b` is the
      text of `a` followed by the text of `b`. */
  lemma {:induction false} JoinTerminatedAppend(a: seq<string>, b: seq<string>, t: string)
    ensures JoinTerminated(a + b, t) == JoinTerminated(a, t) + JoinTerminated(b, t)
    decreases |a|
  {
    if a == [] {
      assert a + b == b;
    } else {
      assert (a + b)[1..] == a[1..] + b;
      JoinTerminatedAppend(a[1..], b, t);
    }
  }

  /** With a one-character terminator that no line contains, splitting the
      written text at that character gives the lines back. */
  lemma {:induction false} SplitJoinTerminated(lines: seq<string>, c: char)
    requires forall i :: 0 <= i < |lines| ==> c !in lines[i]
    ensures SplitTerminated(JoinTerminated(lines, [c]), c) == lines
    decreases |lines|
  {
    if lines != [] {
      var s := JoinTerminated(lines, [c]);
      var l := lines[0];
      var rest := JoinTerminated(lines[1..], [c]);
      assert s == l + ([c] + rest);
      assert s[|l|] == c;
      assert forall j :: 0 <= j < |l| ==> s[j] == l[j];
      assert IndexOf(s, c) == |l|;
      assert s[..|l|] == l;
      assert s[|l| + 1..] == rest;
      SplitJoinTerminated(lines[1..], c);
      assert lines == [l] + lines[1..];
    }
  }

  /** The corrected text, split at "\n", gives the lines back whenever it
      is written with the default terminator or with no terminator at all
      and no line holds a "\n". */
  lemma WriteLinesFixedReadBack(lines: seq<string>, newline: Option<string>)
    requires newline == None || newline == Some("\n")
    requires forall i :: 0 <= i < |lines| ==> '\n' !in lines[i]
    ensures SplitTerminated(WriteLinesDataFixed(lines, newline), '\n') == lines
  {
    SplitJoinTerminated(lines, '\n');
  }

  /** As written, `newline=None` writes the word "None" after every line,
      so the text no longer reads back as the lines. */
  lemma WriteLinesNone()
    ensures WriteLinesData(["a", "b"], None) == "aNonebNone"
    ensures SplitTerminated(WriteLinesData(["a", "b"], None), '\n') == ["aNonebNone"]
  {
    var s := WriteLinesData(["a", "b"], None);
    assert JoinTerminated(["b"], "None") == "bNone";
    assert s == "aNonebNone";
    assert forall j :: 0 <= j < |s| ==> s[j] != '\n';
    assert IndexOf(s, '\n') == |s|;
  }
}
