/**
 * The global `Database db` of main.c as an object: a fixed array of
 * MAX_NOTES slots updated in place and the live count `noteCount`. Each
 * operation is proved against the function of NoteStore that describes its
 * effect on the whole record, `Image()`.
 */
module NoteDatabase {
  import opened NoteStore
  import opened NoteText
  import opened IndexParsing

  /** A line of input, or None when `fgets` reports end of input or an error. */
  datatype Option<T> = None | Some(value: T)

  class Database {
    /** `db.notes`: every slot, live or stale. */
    const notes: array<Note>
    /** `db.noteCount`. */
    var noteCount: int
    /** Every record handed to `saveDb`, oldest first; whether the write reaches the disk is not modelled. */
    ghost var saveLog: seq<Store>

    /** The whole record as a value: what `saveDb` would write. */
    function Image(): (st: Store)
      reads this`noteCount, notes
    {
      Store(notes[..], noteCount)
    }

    ghost predicate Valid()
      reads this`noteCount, notes
    {
      notes.Length == MAX_NOTES && WellFormed(Image())
    }

    /** `Database db = {0}`: every slot an empty visible note, no live notes, nothing saved yet. */
    constructor ()
      ensures Valid() && fresh(notes)
      ensures noteCount == 0 && Live(Image()) == []
      ensures forall k :: 0 <= k < notes.Length ==> notes[k] == Note("", false)
      ensures saveLog == []
    {
      notes := new Note[MAX_NOTES](_ => Note("", false));
      noteCount := 0;
      saveLog := [];
    }

    /**
     * `addNote`, reading its lines from `lines`. A full store is left alone
     * and nothing is saved; otherwise the collected text becomes a visible
     * note in slot `noteCount`, the count goes up by one and the store is saved.
     * `added` is false exactly when the program prints "Db full!".
     */
    method AddNote(lines: seq<string>) returns (added: bool)
      requires Valid()
      modifies this, notes
      ensures Valid()
      ensures added == (old(noteCount) < MAX_NOTES)
      ensures Image() == Add(old(Image()), NoteTextOf(lines))
      ensures saveLog == if added then old(saveLog) + [Image()] else old(saveLog)
    {
      if noteCount >= MAX_NOTES {
        return false;
      }
      var buffer := ReadNoteText(lines);
      notes[noteCount] := Note(buffer, false);
      noteCount := noteCount + 1;
      AddKeepsWellFormed(old(Image()), buffer);
      saveLog := saveLog + [Image()];
      return true;
    }

    /**
     * The flag loop that `hideNotes` (flag true) and `unhideNotes` (flag
     * false) share: every entry naming a live slot sets that slot's flag;
     * other entries are skipped.
     */
    method MarkNotes(numbers: array<int>, count: int, flag: bool)
      requires Valid() && 0 <= count <= numbers.Length
      modifies notes
      ensures Valid()
      ensures Image() == FlagAll(old(Image()), numbers[..count], flag)
    {
      for i := 0 to count
        invariant Image() == FlagAll(old(Image()), numbers[..i], flag)
      {
        assert numbers[..i + 1][..i] == numbers[..i];
        if numbers[i] >= 0 && numbers[i] < noteCount {
          notes[numbers[i]] := notes[numbers[i]].(hidden := flag);
        }
      }
      FlagAllKeepsWellFormed(old(Image()), numbers[..count], flag);
    }

    /**
     * `hideNotes`: parse the typed numbers and hide each live note they
     * name, then save. When no line can be read nothing happens.
     */
    method HideNotes(input: Option<string>)
      requires Valid()
      modifies this, notes
      ensures Valid()
      ensures input.None? ==> Image() == old(Image()) && saveLog == old(saveLog)
      ensures input.Some? ==>
                Image() == FlagAll(old(Image()), ParsedIndices(input.value), true) &&
                saveLog == old(saveLog) + [Image()]
    {
      if input.None? {
        return;
      }
      var numbers := new int[MAX_NOTES];
      var count := ProcessNumbers(input.value, numbers);
      MarkNotes(numbers, count, true);
      saveLog := saveLog + [Image()];
    }

    /** `unhideNotes`: as `hideNotes`, clearing the flag instead. */
    method UnhideNotes(input: Option<string>)
      requires Valid()
      modifies this, notes
      ensures Valid()
      ensures input.None? ==> Image() == old(Image()) && saveLog == old(saveLog)
      ensures input.Some? ==>
                Image() == FlagAll(old(Image()), ParsedIndices(input.value), false) &&
                saveLog == old(saveLog) + [Image()]
    {
      if input.None? {
        return;
      }
      var numbers := new int[MAX_NOTES];
      var count := ProcessNumbers(input.value, numbers);
      MarkNotes(numbers, count, false);
      saveLog := saveLog + [Image()];
    }

    /**
     * The body of the `deleteNotes` loop for entry `n`: when it names a live
     * slot, slots n+1 .. noteCount-1 move one place left and the count drops
     * by one; any other entry is skipped.
     */
    method DeleteEntry(n: int)
      requires 0 <= noteCount <= notes.Length
      modifies this`noteCount, notes
      ensures Image() == DeleteOne(old(Image()), n)
    {
      if n >= 0 && n < noteCount {
        ghost var before := notes[..];
        var j := n;
        while j < noteCount - 1
          invariant n <= j <= noteCount - 1 && noteCount == old(noteCount)
          invariant forall k :: n <= k < j ==> notes[k] == before[k + 1]
          invariant forall k :: 0 <= k < notes.Length && !(n <= k < j) ==> notes[k] == before[k]
        {
          notes[j] := notes[j + 1];
          j := j + 1;
        }
        noteCount := noteCount - 1;
        assert notes[..] == ShiftDown(before, old(noteCount), n);
      }
    }

    /**
     * The loop of `deleteNotes`: the entries are walked from the last to the
     * first; each one naming a live slot at that moment is removed (DeleteEntry).
     */
    method RemoveEntries(numbers: array<int>, count: int)
      requires InRange(Image()) && 0 <= count <= numbers.Length
      modifies this`noteCount, notes
      ensures Image() == DeleteAll(old(Image()), numbers[..count])
    {
      ghost var start := Image();
      ghost var entries := numbers[..count];
      for i := count downto 0
        invariant InRange(Image()) && Image() == DeleteAll(start, entries[i..])
      {
        ghost var before := Image();
        DeleteEntry(numbers[i]);
        DeleteAllStep(start, entries, i, before, Image());
      }
      assert entries[0..] == entries;
    }

    /**
     * `deleteNotes`: parse the typed numbers, remove the notes they name
     * (see RemoveEntries), then save. When no line can be read nothing happens.
     */
    method DeleteNotes(input: Option<string>)
      requires Valid()
      modifies this, notes
      ensures Valid()
      ensures input.None? ==> Image() == old(Image()) && saveLog == old(saveLog)
      ensures input.Some? ==>
                Image() == DeleteAll(old(Image()), ParsedIndices(input.value)) &&
                saveLog == old(saveLog) + [Image()]
    {
      if input.None? {
        return;
      }
      var numbers := new int[MAX_NOTES];
      var count := ProcessNumbers(input.value, numbers);
      RemoveEntries(numbers, count);
      DeleteAllKeepsWellFormed(old(Image()), numbers[..count]);
      saveLog := saveLog + [Image()];
    }

    /**
     * `displayNotes(showHidden)` without the printing: the live notes whose
     * flag equals `showHidden`, in slot order, each with its 1-based slot number.
     */
    method DisplayNotes(showHidden: bool) returns (shown: seq<(int, Note)>)
      requires Valid()
      ensures shown == Listing(Live(Image()), showHidden)
    {
      shown := [];
      for index := 0 to noteCount
        invariant shown == Listing(notes[..index], showHidden)
      {
        assert notes[..index + 1][..index] == notes[..index];
        if showHidden && !notes[index].hidden {
          continue;
        }
        if !showHidden && notes[index].hidden {
          continue;
        }
        shown := shown + [(index + 1, notes[index])];
      }
      assert notes[..][..noteCount] == notes[..noteCount];
    }
  }
}
