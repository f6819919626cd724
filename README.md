# Suckless Notes: the note database, verified

This project models the core of `main.c`, a terminal note keeper. The core is its in-memory database: a fixed array of 1000 note slots and a live count. It covers the operations that read and change the database:

- adding a note from typed lines;
- parsing a comma-separated list of note numbers;
- hiding and unhiding notes;
- deleting notes by shifting later slots down;
- listing the visible or the hidden notes.

The project has five modules:

- `NoteStore` (note_store.dfy) holds the database as a value, `Store(slots, count)`. It defines one function per operation: `Add`, `FlagAll`, `DeleteOne`, `DeleteAll` and `Listing`. It also holds the lemmas that say what they achieve:
  - slot by slot, what hiding and unhiding change;
  - removing one note;
  - what the reverse walk of the delete loop gives for ascending input;
  - the partition between the two listings.
- `NoteText` (note_text.dfy) describes how `addNote` builds a note from its input lines. The lines arrive as a sequence, one element per `fgets` result; the end of the sequence is the end of input. It proves the text-collecting loop against that description.
- `IndexParsing` (index_parsing.dfy) covers `processNumbers`:
  - `strtok` splitting on commas, with empty tokens dropped;
  - the C `atoi`: leading white space, an optional sign, the longest digit prefix, and 0 when there are no digits;
  - the loop that fills the `numbers` array with `atoi(token) - 1`, capped at 1000 entries.
- `NoteDatabase` (database.dfy) is the global `db` as a class. It has an `array<Note>` of 1000 slots and the `noteCount` field. There is one public method per C function the class holds (`addNote`, `hideNotes`, `unhideNotes`, `deleteNotes`, `displayNotes`), plus the loop helpers named under "## Left out"; each is proved against the `NoteStore` function for the whole record (`Image()`). `processNumbers` is `IndexParsing.ProcessNumbers`. Each call of `saveDb` is recorded as a ghost snapshot in `saveLog`.
- `Scenarios` (scenarios.dfy) works through concrete input lines for the delete command.

The delete loop walks the parsed entries from the last one typed to the first. It does not sort them. For ascending input ("2,4" on [A,B,C,D]) this removes exactly the named notes, leaving [A,C]. For other input it removes different notes, and the model keeps that behaviour:

- "4,2" leaves [A,C,D]: B goes first, and 4 then names no note.
- "2,2" leaves [A,D]: the second 2 removes C, which has moved into slot 2.

Nothing sorts the entries: the loop at main.c:233 walks them from the last typed to the first, and the model does the same. The label of a listed note is `index + 1` (main.c:129), the note's 1-based position in the whole store, not its position among the notes listed.

## Model

| member | source | states |
|---|---|---|
| NoteStore.Add | main.c:79-111 | when the count is at least 1000 the store is returned unchanged; otherwise the count goes up by one, the live notes become the old ones plus the new visible note, and every other slot is unchanged |
| NoteStore.AddKeepsWellFormed | main.c:109-111 | appending a text shorter than 4096 characters keeps the count within 0..1000 and every live text within its buffer |
| NoteStore.FlagOne | main.c:175-178 | one pass of the loop body: for a live entry n, slot n takes the flag; the count, the slot count and every text are unchanged (the rest is FlagAllSpec) |
| NoteStore.FlagAll | main.c:172-180 | the whole flag loop, entries applied in typed order; it keeps the count and the slot count (what it does to each slot is FlagAllSpec) |
| NoteStore.FlagAllSpec | main.c:172-180 | after the flag loop, slot k has the requested flag exactly when k is both live and listed; the count, every text, every other flag and the slot count are unchanged, whatever the order or repetition of the entries |
| NoteStore.FlagAllIdempotent | main.c:172-180 | applying the same hide (or unhide) batch twice gives the same store as applying it once |
| NoteStore.FlagAllKeepsWellFormed | main.c:201-209 | hiding and unhiding keep the store well formed |
| NoteStore.ShiftDown | main.c:239-242 | the slot count is kept, and the first count-1 slots are the live notes with note n left out; the slots from count-1 on are not constrained by the contract (the body leaves them alone) |
| NoteStore.DeleteOne | main.c:236-245 | for a live entry n the count drops by one and the live notes are the old ones with note n removed, the others in their order; any other entry leaves the store unchanged |
| NoteStore.DeleteAll | main.c:233-246 | the whole delete loop keeps the count within range, keeps the slot count, and never raises the count |
| NoteStore.DeleteAllKeepsWellFormed | main.c:233-246 | deleting keeps the store well formed |
| NoteStore.DeleteAllAscending | main.c:232-246 | when the live entries are strictly increasing, the live notes after the loop are the original ones with exactly the listed live positions removed |
| NoteStore.Listing | main.c:120-131 | the notes the display loop prints, each with its label, in slot order; it has at most one entry per note (membership and order are ListingSpec) |
| NoteStore.ListingSpec | main.c:120-131 | a pair (i, note) is listed exactly when 1 <= i <= count, note is at position i-1 and its flag equals the filter; labels strictly increase and lie in 1..count |
| NoteStore.ListingsPartition | main.c:120-131 | the visible and the hidden listings together hold every position exactly once: their lengths sum to the count, and each note is in the listing of its own flag and not in the other |
| NoteText.IsEofLine | main.c:95 | defines the stop line: it begins with the three letters EOF (its use is LinesTaken and ImmediateEofIsEmpty) |
| NoteText.Accepts | main.c:95-101 | defines a kept line: not an EOF line, and the text so far plus the line stays under 4096 characters (LinesTaken and TakenTextFits state what follows) |
| NoteText.LinesTaken | main.c:92-106 | every line before the returned count is kept; the line at the count, if any, begins with EOF or would bring the text to 4096 characters |
| NoteText.LinesTakenUnique | main.c:92-106 | only one count of leading lines satisfies that stopping rule |
| NoteText.TakenTextFits | main.c:99-101 | the collected text is always shorter than 4096 characters |
| NoteText.NoteTextOf | main.c:87-106 | the note text is the kept lines joined, and it is shorter than 4096 characters |
| NoteText.ImmediateEofIsEmpty | main.c:95-96 | a first line beginning with EOF gives the empty text |
| NoteText.AllKeptIsConcat | main.c:92-106 | lines that contain no EOF line and whose total stays under 4096 characters are joined whole |
| NoteText.ReadNoteText | main.c:87-106 | the accumulation loop returns exactly the note text defined above, so its length stays below 4096 |
| IndexParsing.RunLength | main.c:140 | the token extends to the first comma or the end of the input |
| IndexParsing.Tokens | main.c:140-152 | defines the tokens the strtok calls yield: maximal comma-free runs, empty ones dropped (properties in TokensAreTokens, TokensOfToken, TokensJoin and Strtok) |
| IndexParsing.TokensAreTokens | main.c:140-152 | every token is non-empty and contains no comma |
| IndexParsing.TokensOfToken | main.c:140 | comma-free non-empty text is a single token |
| IndexParsing.TokensJoin | main.c:140-152 | a comma splits the input into two independent halves: the tokens of a,b are those of a followed by those of b |
| IndexParsing.SkipCommas | main.c:140 | skipping the commas before a token does not change the tokens that remain |
| IndexParsing.Strtok | main.c:152 | one strtok call yields the next token and the rest of the input, or reports that no token is left |
| IndexParsing.Atoi | main.c:148 | defines the atoi value: white space skipped, an optional sign, then the longest digit prefix (properties in AtoiOfDecimal, AtoiOfNegative, AtoiSkipsSpace, AtoiNoDigits and AtoiNoLeadingDigit) |
| IndexParsing.AtoiOfDecimal | main.c:148 | a decimal number followed by anything but a digit reads as that number |
| IndexParsing.AtoiOfNegative | main.c:148 | a minus sign followed by such a number reads as its negation |
| IndexParsing.AtoiSkipsSpace | main.c:148 | leading white space does not change the value read |
| IndexParsing.AtoiNoDigits | main.c:148 | a token without a single digit reads as 0 |
| IndexParsing.AtoiNoLeadingDigit | main.c:148 | a token starting with anything but white space, a sign or a digit reads as 0 |
| IndexParsing.ParsedIndices | main.c:137-154 | at most 1000 entries; one per token in token order up to that cap; entry i is atoi of token i, minus one |
| IndexParsing.TokensOfJoined | main.c:137-154 | numbers typed between single commas (and a trailing newline) give one token per number, each reading back as that number |
| IndexParsing.ParseJoined | main.c:137-154 | such a line parses to the numbers, each minus one |
| IndexParsing.ProcessNumbers | main.c:137-154 | the loop leaves ParsedIndices(input) in numbers[0..count-1] and leaves the other entries of numbers unchanged |
| NoteDatabase.Database.constructor | main.c:28 | the zero-initialised database: every slot an empty visible note, count 0, nothing saved |
| NoteDatabase.Database.AddNote | main.c:76-113 | refuses exactly when the database is full, with nothing saved; otherwise the record becomes Add(old record, note text of the lines) and one save is recorded |
| NoteDatabase.Database.MarkNotes | main.c:172-180 | the in-place flag loop leaves the record equal to FlagAll of the old record and the entries |
| NoteDatabase.Database.HideNotes | main.c:160-183 | with no line read nothing changes and nothing is saved; otherwise the record becomes FlagAll(old, parsed entries, hidden) and one save is recorded |
| NoteDatabase.Database.UnhideNotes | main.c:189-212 | as HideNotes, clearing the flag |
| NoteDatabase.Database.DeleteEntry | main.c:236-245 | one pass of the loop body, with the check and the in-place shift, leaves the record equal to DeleteOne of the old record and the entry |
| NoteDatabase.Database.RemoveEntries | main.c:233-246 | the reverse loop over the entries leaves the record equal to DeleteAll of the old record and the entries |
| NoteDatabase.Database.DeleteNotes | main.c:221-249 | with no line read nothing changes and nothing is saved; otherwise the record becomes DeleteAll(old, parsed entries), stays well formed, and one save is recorded |
| NoteDatabase.Database.DisplayNotes | main.c:117-133 | returns exactly Listing(live notes, filter): each selected note with its 1-based position |
| Scenarios.ParseTwoFour | main.c:137-154 | "2,4" with its newline parses to [1, 3] |
| Scenarios.ParseFourTwo | main.c:137-154 | "4,2" parses to [3, 1] |
| Scenarios.ParseTwoTwo | main.c:137-154 | "2,2" parses to [1, 1] |
| Scenarios.ParseWithWord | main.c:148 | "m,w,n" with a word w (no digit, no comma) parses to [m-1, -1, n-1] |
| Scenarios.DeleteTwoFour | main.c:233-246 | [A,B,C,D] with the entries of "2,4" leaves [A,C] |
| Scenarios.DeleteFourTwo | main.c:233-246 | [A,B,C,D] with the entries of "4,2" leaves [A,C,D] |
| Scenarios.DeleteTwoTwo | main.c:233-246 | [A,B,C,D] with the entries of "2,2" leaves [A,D] |
| Scenarios.DeleteSkipsOutOfRange | main.c:236 | [A,B,C] with the entries [i, -1, 1], i past the end, leaves [A,C] |
| Scenarios.DeleteSkipsInvalid | main.c:233-246 | [A,B,C] with "m,w,2" typed, m past the end and w a word, leaves [A,C] |

## Left out

- File persistence (`saveDb`, `loadDb`, the `$HOME/.notes_db` path) is file I/O. A save is recorded as a ghost snapshot of the record in `saveLog`. Whether `fopen` fails and the byte layout of the file are not modelled. Loading is not modelled, so the database starts as in `Database db = {0}`.
- `clearScreen`, every `printf`, the ANSI colours and the `[HIDDEN]` / `•` markers are console output. `DisplayNotes` returns the (label, note) pairs it would print.
- The `main` command loop, `getchar` and the draining of the input line are interactive glue. The operations are modelled one by one.
- `fgets` is not modelled. `AddNote` takes the lines as `fgets` would return them, and hide/unhide/delete take the line read, or `None` when `fgets` returns NULL. The 4096-byte line buffer that can split a long line, and the 100-byte buffer that truncates a long list of numbers, are therefore not modelled.
- Text is `seq<char>`, and each `char` stands for one byte (0..255): `strlen` at main.c:99 counts bytes, so non-ASCII text must be given as its bytes for the 4096 limit to agree. A NUL byte inside a typed line, which would end `strlen` and `strcat` early, is not modelled.
- IndexParsing.Atoi: uses unbounded integers; the overflow of a very long digit run, undefined in C, is not modelled.
- The `hidden` field is an `int` in C. The model uses a `bool`, because the program only ever stores 0 or 1 there.
- `strtok` writes NUL bytes into its input and keeps a hidden position. IndexParsing.Strtok is a pure function on the string and a resume position. It resumes on the delimiter rather than one past it; both give the same tokens, because leading commas are skipped.
- NoteDatabase.Database.AddNote: requires `Valid()`, like HideNotes, UnhideNotes, DeleteNotes, MarkNotes and DisplayNotes: exactly 1000 slots, a count in 0..1000 and live texts under 4096 characters. Every database the program builds without `loadDb` satisfies it. A file that `loadDb` reads with other values is not modelled.
- The hide and unhide loops are one method, `MarkNotes`, with the flag as a parameter. The delete loop is split into `RemoveEntries` (the outer walk) and `DeleteEntry` (the body: the check and the inner shift). `RemoveEntries` and `DeleteEntry` only need the count in range; `DeleteNotes` proves that the result is well formed.
