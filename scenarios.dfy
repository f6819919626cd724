/**
 * Worked cases of the delete command on a four-note or three-note store,
 * from the line the user types (with the newline `fgets` keeps) to the
 * notes left. They show that walking the entries from last to first is
 * right for ascending input and removes other notes for unsorted or
 * repeated input.
 */
module Scenarios {
  import opened NoteStore
  import opened IndexParsing

  lemma ParseTwoFour()
    ensures ParsedIndices("2,4\n") == [1, 3]
  {
    assert JoinDecimals([2, 4]) + "\n" == "2,4\n";
    ParseJoined([2, 4], "\n");
  }

  lemma ParseFourTwo()
    ensures ParsedIndices("4,2\n") == [3, 1]
  {
    assert JoinDecimals([4, 2]) + "\n" == "4,2\n";
    ParseJoined([4, 2], "\n");
  }

  lemma ParseTwoTwo()
    ensures ParsedIndices("2,2\n") == [1, 1]
  {
    assert JoinDecimals([2, 2]) + "\n" == "2,2\n";
    ParseJoined([2, 2], "\n");
  }

  /** A token that is neither a number nor contains a comma, such as "abc". */
  predicate IsWord(w: string) {
    w != [] && forall i :: 0 <= i < |w| ==> w[i] != ',' && !IsDigit(w[i])
  }

  /** The line "m,w,n" followed by a newline, for numbers m and n and a word w. */
  function NumberWordNumber(m: nat, w: string, n: nat): (line: string) {
    Decimal(m) + [','] + w + [','] + (Decimal(n) + "\n")
  }

  /** Three comma-free pieces joined by commas split back into those three. */
  lemma TokensOfThree(x: string, y: string, z: string)
    requires IsToken(x) && IsToken(y) && IsToken(z)
    ensures Tokens(x + [','] + y + [','] + z) == [x, y, z]
  {
    assert x + [','] + y + [','] + z == x + [','] + (y + [','] + z);
    TokensCons(x, y + [','] + z);
    TokensCons(y, z);
    TokensOfToken(z);
  }

  lemma ParseThree(s: string, x: string, y: string, z: string, i: int, j: int, k: int)
    requires IsToken(x) && IsToken(y) && IsToken(z)
    requires s == x + [','] + y + [','] + z
    requires Atoi(x) == i + 1 && Atoi(y) == j + 1 && Atoi(z) == k + 1
    ensures ParsedIndices(s) == [i, j, k]
  {
    TokensOfThree(x, y, z);
    var r := ParsedIndices(s);
    assert |r| == 3 && r[0] == i && r[1] == j && r[2] == k;
    ListOfThree(r, i, j, k);
  }

  lemma ListOfThree(r: seq<int>, a: int, b: int, c: int)
    requires |r| == 3 && r[0] == a && r[1] == b && r[2] == c
    ensures r == [a, b, c]
  {
  }

  lemma NumberLineToken(n: nat)
    ensures IsToken(Decimal(n) + "\n") && Atoi(Decimal(n) + "\n") == n
  {
    var tail := "\n";
    assert |tail| == 1 && tail[0] == '\n';
    DecimalIsToken(n, tail);
    AtoiOfDecimal(n, tail);
  }

  lemma NumberToken(m: nat)
    ensures IsToken(Decimal(m)) && Atoi(Decimal(m)) == m
  {
    assert Decimal(m) + [] == Decimal(m);
    DecimalIsToken(m, []);
    AtoiOfDecimal(m, []);
  }

  /** "99,abc,2" and the like: a number, a word, a number; the word reads as -1. */
  lemma ParseWithWord(m: nat, w: string, n: nat)
    requires IsWord(w)
    ensures ParsedIndices(NumberWordNumber(m, w, n)) == [m as int - 1, -1, n as int - 1]
  {
    NumberToken(m);
    NumberLineToken(n);
    AtoiNoDigits(w);
    ParseThree(NumberWordNumber(m, w, n), Decimal(m), w, Decimal(n) + "\n", m as int - 1, -1, n as int - 1);
  }

  /** Two entries: the second is processed first. */
  lemma DeleteTwo(st: Store, i: int, j: int)
    requires InRange(st)
    ensures DeleteAll(st, [i, j]) == DeleteOne(DeleteOne(st, j), i)
  {
    assert [i, j][1..] == [j] && [j][1..] == [];
    assert DeleteAll(st, [j]) == DeleteOne(st, j);
  }

  /** [A,B,C,D] with the indices of "2,4" (ParseTwoFour): D goes first, then B, leaving [A,C]. */
  lemma DeleteTwoFour(a: Note, b: Note, c: Note, d: Note)
    ensures Live(DeleteAll(Store([a, b, c, d], 4), [1, 3])) == [a, c]
  {
    var st := Store([a, b, c, d], 4);
    DeleteTwo(st, 1, 3);
    var once := DeleteOne(st, 3);
    assert Live(once) == [a, b, c];
    assert Live(DeleteOne(once, 1)) == [a, c];
  }

  /** [A,B,C,D] with the indices of "4,2" (ParseFourTwo): B goes first, then 4 names no note, leaving [A,C,D]. */
  lemma DeleteFourTwo(a: Note, b: Note, c: Note, d: Note)
    ensures Live(DeleteAll(Store([a, b, c, d], 4), [3, 1])) == [a, c, d]
  {
    var st := Store([a, b, c, d], 4);
    DeleteTwo(st, 3, 1);
    var once := DeleteOne(st, 1);
    assert Live(once) == [a, c, d];
    assert DeleteOne(once, 3) == once;
  }

  /** [A,B,C,D] with the indices of "2,2" (ParseTwoTwo): B goes, then C, which has moved into slot 2, leaving [A,D]. */
  lemma DeleteTwoTwo(a: Note, b: Note, c: Note, d: Note)
    ensures Live(DeleteAll(Store([a, b, c, d], 4), [1, 1])) == [a, d]
  {
    var st := Store([a, b, c, d], 4);
    DeleteTwo(st, 1, 1);
    var once := DeleteOne(st, 1);
    assert Live(once) == [a, c, d];
    assert Live(DeleteOne(once, 1)) == [a, d];
  }

  /** [A,B,C] with the indices [i, -1, 1], i past the end: only B is removed. */
  lemma DeleteSkipsOutOfRange(a: Note, b: Note, c: Note, i: int, j: int)
    requires i >= 3 && j == 1
    ensures Live(DeleteAll(Store([a, b, c], 3), [i, -1, j])) == [a, c]
  {
    var st := Store([a, b, c], 3);
    var once := DeleteOne(st, 1);
    assert Live(once) == [a, c];
    assert [i, -1, j][1..] == [-1, j] && [-1, j][1..] == [j] && [j][1..] == [];
    assert DeleteAll(st, [j]) == once;
    assert DeleteAll(st, [-1, j]) == once;
    assert DeleteAll(st, [i, -1, j]) == once;
  }

  /**
   * [A,B,C] with "m,w,2" where m is past the end (99, say) and w is a word
   * (abc, say): only B is removed; the other two entries are skipped.
   */
  lemma DeleteSkipsInvalid(a: Note, b: Note, c: Note, m: nat, w: string, n: nat)
    requires m > 3 && IsWord(w) && n == 2
    ensures Live(DeleteAll(Store([a, b, c], 3), ParsedIndices(NumberWordNumber(m, w, n)))) == [a, c]
  {
    ParseWithWord(m, w, n);
    DeleteSkipsOutOfRange(a, b, c, m as int - 1, n as int - 1);
  }
}
