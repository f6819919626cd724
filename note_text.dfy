/**
 * How `addNote` builds the text of a new note from the lines it reads.
 * The lines are given as a sequence: each element is what one `fgets` call
 * returned, and the end of the sequence is the end of input.
 */
module NoteText {
  import opened NoteStore

  /** `strncmp(line, "EOF", 3) == 0`: the line begins with the three letters EOF. */
  predicate IsEofLine(line: string) {
    |line| >= 3 && line[..3] == "EOF"
  }

  /** The lines joined end to end. */
  function Concat(lines: seq<string>): (text: string)
    decreases |lines|
  {
    if lines == [] then "" else Concat(lines[..|lines| - 1]) + lines[|lines| - 1]
  }

  lemma ConcatSnoc(lines: seq<string>, k: nat)
    requires k < |lines|
    ensures Concat(lines[..k + 1]) == Concat(lines[..k]) + lines[k]
  {
    assert lines[..k + 1][..k] == lines[..k];
  }

  /**
   * Line k is kept: it does not begin with EOF, and adding it to the lines
   * before it keeps the total below MAX_NOTE_LENGTH.
   */
  predicate Accepts(lines: seq<string>, k: nat)
    requires k < |lines|
  {
    !IsEofLine(lines[k]) && |Concat(lines[..k])| + |lines[k]| < MAX_NOTE_LENGTH
  }

  function TakenFrom(lines: seq<string>, i: nat): (k: nat)
    requires i <= |lines|
    requires forall j :: 0 <= j < i ==> Accepts(lines, j)
    ensures i <= k <= |lines|
    ensures forall j :: 0 <= j < k ==> Accepts(lines, j)
    ensures k < |lines| ==> !Accepts(lines, k)
    decreases |lines| - i
  {
    if i == |lines| || !Accepts(lines, i) then i else TakenFrom(lines, i + 1)
  }

  /**
   * How many lines go into the note: every line before the first one that
   * is not kept (or all of them).
   */
  function LinesTaken(lines: seq<string>): (k: nat)
    ensures k <= |lines|
    ensures forall j :: 0 <= j < k ==> Accepts(lines, j)
    ensures k < |lines| ==> !Accepts(lines, k)
  {
    TakenFrom(lines, 0)
  }

  /** Exactly one count of leading lines stops where `LinesTaken` does. */
  lemma LinesTakenUnique(lines: seq<string>, k: nat)
    requires k <= |lines|
    requires forall j :: 0 <= j < k ==> Accepts(lines, j)
    requires k < |lines| ==> !Accepts(lines, k)
    ensures k == LinesTaken(lines)
  {
  }

  /** The lines taken always fit the buffer, terminator included. */
  lemma TakenTextFits(lines: seq<string>)
    ensures |Concat(lines[..LinesTaken(lines)])| < MAX_NOTE_LENGTH
  {
    var k := LinesTaken(lines);
    if k > 0 {
      ConcatSnoc(lines, k - 1);
      assert Accepts(lines, k - 1);
    }
  }

  /** The text of the new note: the lines taken, joined. */
  function NoteTextOf(lines: seq<string>): (text: string)
    ensures |text| < MAX_NOTE_LENGTH
  {
    TakenTextFits(lines);
    Concat(lines[..LinesTaken(lines)])
  }

  /** A first line beginning with EOF gives an empty note (still appended by `addNote`). */
  lemma ImmediateEofIsEmpty(lines: seq<string>)
    requires |lines| > 0 && IsEofLine(lines[0])
    ensures NoteTextOf(lines) == ""
  {
    assert !Accepts(lines, 0);
  }

  /** Lines that are all kept are joined whole. */
  lemma {:induction false} AllKeptIsConcat(lines: seq<string>)
    requires forall j :: 0 <= j < |lines| ==> !IsEofLine(lines[j])
    requires |Concat(lines)| < MAX_NOTE_LENGTH
    ensures NoteTextOf(lines) == Concat(lines)
  {
    forall j | 0 <= j < |lines| ensures Accepts(lines, j) {
      ConcatPrefixBound(lines, j + 1);
      ConcatSnoc(lines, j);
    }
    LinesTakenUnique(lines, |lines|);
    assert lines[..|lines|] == lines;
  }

  lemma {:induction false} ConcatPrefixBound(lines: seq<string>, k: nat)
    requires k <= |lines|
    ensures |Concat(lines[..k])| <= |Concat(lines)|
    decreases |lines| - k
  {
    if k < |lines| {
      ConcatPrefixBound(lines, k + 1);
      ConcatSnoc(lines, k);
    } else {
      assert lines[..k] == lines;
    }
  }

  /**
   * The accumulation loop of `addNote`: lines are appended to the buffer
   * until one begins with EOF, one would bring the length to
   * MAX_NOTE_LENGTH, or the input ends.
   */
  method ReadNoteText(lines: seq<string>) returns (buffer: string)
    ensures buffer == NoteTextOf(lines)
    ensures |buffer| < MAX_NOTE_LENGTH
  {
    buffer := "";
    var position := 0;
    var i := 0;
    while i < |lines|
      invariant 0 <= i <= |lines|
      invariant forall j :: 0 <= j < i ==> Accepts(lines, j)
      invariant buffer == Concat(lines[..i]) && position == |buffer|
    {
      var line := lines[i];
      if IsEofLine(line) {
        break;
      }
      var lineLen := |line|;
      if position + lineLen >= MAX_NOTE_LENGTH {
        break;
      }
      ConcatSnoc(lines, i);
      buffer := buffer + line;
      position := position + lineLen;
      i := i + 1;
    }
    LinesTakenUnique(lines, i);
  }
}
