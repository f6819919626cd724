/**
 * The note store of main.c as values: the fixed slot array and live count of
 * `Database`, and one function per way the program changes or reads it.
 * The class in database.dfy keeps the same state in an array and proves each
 * of its methods against the functions here.
 */
module NoteStore {

  /** Capacity of the slot array (`MAX_NOTES`). */
  const MAX_NOTES := 1000
  /** Size of a note's character buffer, terminator included (`MAX_NOTE_LENGTH`). */
  const MAX_NOTE_LENGTH := 4096

  /** One slot of the array: the note text and its hidden flag. */
  datatype Note = Note(content: string, hidden: bool)

  /** The whole `Database` record: every slot, live or stale, and `noteCount`. */
  datatype Store = Store(slots: seq<Note>, count: int)

  /** The count lies within the slot array (true of every store the program builds). */
  predicate InRange(st: Store) {
    0 <= st.count <= |st.slots|
  }

  /** The shape of `Database`: exactly MAX_NOTES slots and a count in range. */
  predicate Bounded(st: Store) {
    |st.slots| == MAX_NOTES && 0 <= st.count <= MAX_NOTES
  }

  /** Bounded, and every live note fits its buffer with room for the terminator. */
  predicate WellFormed(st: Store) {
    Bounded(st) &&
    forall k :: 0 <= k < st.count ==> |st.slots[k].content| < MAX_NOTE_LENGTH
  }

  /** The notes the program treats as present: slots 0 .. count-1. */
  function Live(st: Store): (notes: seq<Note>)
    requires InRange(st)
    ensures |notes| == st.count
  {
    st.slots[..st.count]
  }

  // ---------------------------------------------------------------- add

  /** The store after `addNote` has collected `text`: refused when full, else appended as visible. */
  function Add(st: Store, text: string): (r: Store)
    requires Bounded(st)
    ensures Bounded(r)
    ensures st.count >= MAX_NOTES ==> r == st
    ensures st.count < MAX_NOTES ==>
              r.count == st.count + 1 &&
              Live(r) == Live(st) + [Note(text, false)] &&
              forall k :: 0 <= k < |st.slots| && k != st.count ==> r.slots[k] == st.slots[k]
  {
    if st.count >= MAX_NOTES then st
    else Store(st.slots[st.count := Note(text, false)], st.count + 1)
  }

  lemma AddKeepsWellFormed(st: Store, text: string)
    requires WellFormed(st) && |text| < MAX_NOTE_LENGTH
    ensures WellFormed(Add(st, text))
  {
  }

  // ---------------------------------------------------------- hide / unhide

  /** One pass of the hide/unhide loop body: set the flag of slot `n` when `n` is a live slot. */
  function FlagOne(st: Store, n: int, flag: bool): (r: Store)
    ensures r.count == st.count && |r.slots| == |st.slots|
    ensures forall k :: 0 <= k < |st.slots| ==> r.slots[k].content == st.slots[k].content
    ensures 0 <= n < st.count && n < |st.slots| ==> r.slots[n].hidden == flag
  {
    if 0 <= n < st.count && n < |st.slots| then
      Store(st.slots[n := st.slots[n].(hidden := flag)], st.count)
    else st
  }

  /** The hide/unhide loop: the entries of `idx` applied in order. */
  function FlagAll(st: Store, idx: seq<int>, flag: bool): (r: Store)
    ensures r.count == st.count && |r.slots| == |st.slots|
    decreases |idx|
  {
    if idx == [] then st
    else FlagOne(FlagAll(st, idx[..|idx| - 1], flag), idx[|idx| - 1], flag)
  }

  /**
   * What the loop achieves, whatever the order and repetition of the
   * entries: slot k gets the flag exactly when k is live and listed; the
   * count, every text and every other flag stay as they were.
   */
  lemma {:induction false} FlagAllSpec(st: Store, idx: seq<int>, flag: bool)
    requires InRange(st)
    ensures FlagAll(st, idx, flag).count == st.count
    ensures |FlagAll(st, idx, flag).slots| == |st.slots|
    ensures forall k :: 0 <= k < |st.slots| ==>
              FlagAll(st, idx, flag).slots[k] ==
                if k < st.count && k in idx then st.slots[k].(hidden := flag) else st.slots[k]
    decreases |idx|
  {
    if idx != [] {
      var front := idx[..|idx| - 1];
      FlagAllSpec(st, front, flag);
      forall k | 0 <= k < |st.slots|
        ensures (k in idx) == (k in front || k == idx[|idx| - 1])
      {
        assert idx == front + [idx[|idx| - 1]];
      }
    }
  }

  /** Hiding (or unhiding) the same batch twice is the same as doing it once. */
  lemma FlagAllIdempotent(st: Store, idx: seq<int>, flag: bool)
    requires InRange(st)
    ensures FlagAll(FlagAll(st, idx, flag), idx, flag) == FlagAll(st, idx, flag)
  {
    var once := FlagAll(st, idx, flag);
    FlagAllSpec(st, idx, flag);
    FlagAllSpec(once, idx, flag);
    assert FlagAll(once, idx, flag).slots == once.slots;
  }

  /** Hiding and unhiding touch flags only, so the store stays well formed. */
  lemma FlagAllKeepsWellFormed(st: Store, idx: seq<int>, flag: bool)
    requires WellFormed(st)
    ensures WellFormed(FlagAll(st, idx, flag))
  {
    FlagAllSpec(st, idx, flag);
  }

  // ---------------------------------------------------------------- delete

  /**
   * The array after the shift loop removes slot `n` of a store with `c`
   * live notes: slots n .. c-2 take their right neighbour, every other slot
   * (slot c-1 included, which keeps a stale copy) is left alone.
   */
  function ShiftDown(a: seq<Note>, c: int, n: int): (r: seq<Note>)
    requires 0 <= n < c <= |a|
    ensures |r| == |a|
    ensures r[..c - 1] == a[..c][..n] + a[..c][n + 1..]
  {
    var r := seq(|a|, j requires 0 <= j < |a| => if n <= j < c - 1 then a[j + 1] else a[j]);
    var kept := a[..c][..n] + a[..c][n + 1..];
    assert r[..c - 1] == kept by {
      forall j | 0 <= j < c - 1
        ensures r[j] == kept[j]
      {
        if j >= n {
          assert kept[j] == a[..c][n + 1..][j - n];
        }
      }
    }
    r
  }

  /** One valid entry of the delete loop: remove that live note and decrement the count; others do nothing. */
  function DeleteOne(st: Store, n: int): (r: Store)
    requires InRange(st)
    ensures InRange(r) && |r.slots| == |st.slots|
    ensures 0 <= n < st.count ==>
              r.count == st.count - 1 && Live(r) == Live(st)[..n] + Live(st)[n + 1..]
    ensures !(0 <= n < st.count) ==> r == st
  {
    if 0 <= n < st.count then Store(ShiftDown(st.slots, st.count, n), st.count - 1)
    else st
  }

  /**
   * The delete loop: `idx` is walked from its last entry to its first, each
   * entry checked against the count at that moment.
   */
  function DeleteAll(st: Store, idx: seq<int>): (r: Store)
    requires InRange(st)
    ensures InRange(r) && |r.slots| == |st.slots| && r.count <= st.count
    decreases |idx|
  {
    if idx == [] then st
    else DeleteOne(DeleteAll(st, idx[1..]), idx[0])
  }

  /** The delete loop's step: entry i is processed after every later one. */
  lemma DeleteAllStep(st: Store, idx: seq<int>, i: nat, before: Store, after: Store)
    requires InRange(st) && i < |idx|
    requires before == DeleteAll(st, idx[i + 1..]) && after == DeleteOne(before, idx[i])
    ensures after == DeleteAll(st, idx[i..])
  {
    assert idx[i..][1..] == idx[i + 1..];
  }

  /** Removing notes keeps every remaining note within its buffer. */
  lemma {:induction false} DeleteAllKeepsWellFormed(st: Store, idx: seq<int>)
    requires WellFormed(st)
    ensures WellFormed(DeleteAll(st, idx))
    decreases |idx|
  {
    if idx != [] {
      var mid := DeleteAll(st, idx[1..]);
      DeleteAllKeepsWellFormed(st, idx[1..]);
      var n := idx[0];
      if 0 <= n < mid.count {
        var r := DeleteOne(mid, n);
        forall k | 0 <= k < r.count
          ensures |r.slots[k].content| < MAX_NOTE_LENGTH
        {
          assert r.slots[k] == Live(r)[k];
          if k < n {
            assert Live(r)[k] == Live(mid)[k];
          } else {
            assert Live(r)[k] == Live(mid)[k + 1];
          }
        }
      }
    }
  }

  /** `s` with the positions in `gone` left out, the rest in their order. */
  function Without(s: seq<Note>, gone: set<int>): (r: seq<Note>)
    decreases |s|
  {
    if s == [] then []
    else Without(s[..|s| - 1], gone) + (if |s| - 1 in gone then [] else [s[|s| - 1]])
  }

  /** The entries of `idx` that are live positions of a store of `c` notes, in order. */
  function ValidEntries(idx: seq<int>, c: int): (v: seq<int>)
    ensures forall e :: e in v <==> e in idx && 0 <= e < c
    decreases |idx|
  {
    if idx == [] then []
    else (if 0 <= idx[0] < c then [idx[0]] else []) + ValidEntries(idx[1..], c)
  }

  predicate StrictlyIncreasing(s: seq<int>) {
    forall i, j :: 0 <= i < j < |s| ==> s[i] < s[j]
  }

  lemma {:induction false} WithoutNone(s: seq<Note>, gone: set<int>)
    requires forall e :: e in gone ==> e >= |s|
    ensures Without(s, gone) == s
    decreases |s|
  {
    if s != [] {
      WithoutNone(s[..|s| - 1], gone);
    }
  }

  /** Removing only positions above p leaves positions 0 .. p in place. */
  lemma {:induction false} WithoutKeepsPrefix(s: seq<Note>, gone: set<int>, p: int)
    requires 0 <= p < |s| && forall e :: e in gone ==> e > p
    ensures |Without(s, gone)| > p && Without(s, gone)[..p + 1] == s[..p + 1]
    decreases |s|
  {
    var front := s[..|s| - 1];
    if |s| - 1 > p {
      WithoutKeepsPrefix(front, gone, p);
      assert front[..p + 1] == s[..p + 1];
    } else {
      WithoutNone(front, gone);
    }
  }

  /** Removing position p as well, when every other removed position is above p. */
  lemma {:induction false} WithoutOneMore(s: seq<Note>, gone: set<int>, p: int)
    requires 0 <= p < |s| && forall e :: e in gone ==> e > p
    ensures |Without(s, gone)| > p
    ensures Without(s, gone + {p}) == Without(s, gone)[..p] + Without(s, gone)[p + 1..]
    decreases |s|
  {
    WithoutKeepsPrefix(s, gone, p);
    var front := s[..|s| - 1];
    var tail := if |s| - 1 in gone then [] else [s[|s| - 1]];
    if |s| - 1 > p {
      WithoutOneMore(front, gone, p);
      var w := Without(front, gone);
      assert Without(s, gone) == w + tail;
      assert Without(s, gone + {p}) == Without(front, gone + {p}) + tail;
      assert (w + tail)[..p] == w[..p];
      assert (w + tail)[p + 1..] == w[p + 1..] + tail;
    } else {
      WithoutNone(front, gone + {p});
      WithoutNone(front, gone);
    }
  }

  /** The live entries after the first are still strictly increasing. */
  lemma ValidEntriesTail(idx: seq<int>, c: int)
    requires idx != [] && StrictlyIncreasing(ValidEntries(idx, c))
    ensures StrictlyIncreasing(ValidEntries(idx[1..], c))
  {
    var v := ValidEntries(idx, c);
    var w := ValidEntries(idx[1..], c);
    if 0 <= idx[0] < c {
      assert w == v[1..];
    } else {
      assert w == v;
    }
  }

  /** A live first entry lies below every later live entry. */
  lemma AscendingHeadBelowRest(idx: seq<int>, c: int)
    requires idx != [] && 0 <= idx[0] < c && StrictlyIncreasing(ValidEntries(idx, c))
    ensures forall e :: e in idx[1..] && 0 <= e < c ==> e > idx[0]
  {
    var v := ValidEntries(idx, c);
    var w := ValidEntries(idx[1..], c);
    assert v == [idx[0]] + w;
    forall e | e in idx[1..] && 0 <= e < c ensures e > idx[0] {
      assert e in w;
      var i :| 0 <= i < |w| && w[i] == e;
      assert v[i + 1] == e && v[0] == idx[0];
    }
  }

  /**
   * Walking the entries from last to first is safe for ascending input:
   * when the live entries of `idx` are strictly increasing, the result is
   * the original notes with exactly those positions removed.
   */
  lemma {:induction false} DeleteAllAscending(st: Store, idx: seq<int>)
    requires InRange(st)
    requires StrictlyIncreasing(ValidEntries(idx, st.count))
    ensures Live(DeleteAll(st, idx)) ==
              Without(Live(st), set e | e in idx && 0 <= e < st.count)
    decreases |idx|
  {
    var gone := set e | e in idx && 0 <= e < st.count;
    if idx == [] {
      WithoutNone(Live(st), gone);
    } else {
      var rest := idx[1..];
      var restGone := set e | e in rest && 0 <= e < st.count;
      var n := idx[0];
      var v := ValidEntries(idx, st.count);
      ValidEntriesTail(idx, st.count);
      DeleteAllAscending(st, rest);
      var mid := DeleteAll(st, rest);
      if 0 <= n < st.count {
        assert gone == restGone + {n};
        AscendingHeadBelowRest(idx, st.count);
        WithoutOneMore(Live(st), restGone, n);
      } else {
        assert gone == restGone;
        assert !(0 <= n < mid.count);
      }
    }
  }

  // --------------------------------------------------------------- listing

  /**
   * `displayNotes(showHidden)` without the printing: the live notes whose
   * flag equals `showHidden`, in position order, each with its 1-based
   * position in the whole store.
   */
  function Listing(notes: seq<Note>, showHidden: bool): (r: seq<(int, Note)>)
    ensures |r| <= |notes|
    decreases |notes|
  {
    if notes == [] then []
    else
      Listing(notes[..|notes| - 1], showHidden) +
      (if notes[|notes| - 1].hidden == showHidden then [(|notes|, notes[|notes| - 1])] else [])
  }

  /**
   * An entry is in the listing exactly when its label is a position whose
   * note has the requested flag; labels strictly increase along the listing.
   */
  lemma {:induction false} ListingSpec(notes: seq<Note>, showHidden: bool)
    ensures forall i, n :: (i, n) in Listing(notes, showHidden) <==>
              1 <= i <= |notes| && notes[i - 1] == n && n.hidden == showHidden
    ensures forall p, q :: 0 <= p < q < |Listing(notes, showHidden)| ==>
              Listing(notes, showHidden)[p].0 < Listing(notes, showHidden)[q].0
    ensures forall p :: 0 <= p < |Listing(notes, showHidden)| ==>
              1 <= Listing(notes, showHidden)[p].0 <= |notes|
    decreases |notes|
  {
    if notes != [] {
      var front := notes[..|notes| - 1];
      var last := notes[|notes| - 1];
      ListingSpec(front, showHidden);
      forall k | 0 <= k < |front| ensures front[k] == notes[k] { }
      assert Listing(notes, showHidden) ==
             Listing(front, showHidden) + (if last.hidden == showHidden then [(|notes|, last)] else []);
    }
  }

  /** The visible listing and the hidden listing split the store: every position is in exactly one. */
  lemma {:induction false} ListingsPartition(notes: seq<Note>)
    ensures |Listing(notes, false)| + |Listing(notes, true)| == |notes|
    ensures forall k :: 0 <= k < |notes| ==>
              ((k + 1, notes[k]) in Listing(notes, false) <==> !notes[k].hidden) &&
              ((k + 1, notes[k]) in Listing(notes, true) <==> notes[k].hidden)
    decreases |notes|
  {
    ListingSpec(notes, false);
    ListingSpec(notes, true);
    if notes != [] {
      ListingsPartition(notes[..|notes| - 1]);
    }
  }
}
