/** The date-range key `"<date1> to <date2>"` that identifies one record,
    and the `split(' to ')` the callers use to take a key apart again
    (src/db/dexieDatabase.ts:134, 268-269; src/db/stableDexieService.ts:8;
    src/utils/saveCoordinator.ts:49). */
module DateRanges {
  import opened Types
  import opened Strings

  const Separator: string := " to "

  /** `${date1} to ${date2}`. */
  function RangeKey(date1: string, date2: string): string
  {
    date1 + Separator + date2
  }

  /** Element `i` of an array as a template literal prints it: a missing
      element prints as `undefined`. */
  function Piece(parts: seq<string>, i: nat): string
  {
    if i < |parts| then parts[i] else "undefined"
  }

  /** `const [date1, date2] = key.split(' to ')`. */
  function FirstDate(key: string): string { Piece(Split(key, Separator), 0) }

  function SecondDate(key: string): string { Piece(Split(key, Separator), 1) }

  /** Splitting a key and joining its two dates again gives back the key
      exactly when the key contains the separator exactly once. */
  lemma RejoinIdentity(key: string)
    ensures RangeKey(FirstDate(key), SecondDate(key)) == key <==> |Split(key, Separator)| == 2
  {
    var parts := Split(key, Separator);
    if |parts| == 1 {
      assert Join(parts, Separator) == parts[0];
      assert |RangeKey(FirstDate(key), SecondDate(key))| > |key|;
    } else if |parts| >= 3 {
      assert Join(parts, Separator) == parts[0] + Separator + Join(parts[1..], Separator);
      assert Join(parts[1..], Separator) == parts[1] + Separator + Join(parts[2..], Separator);
      assert |RangeKey(FirstDate(key), SecondDate(key))| < |key|;
    } else {
      assert Join(parts[1..], Separator) == parts[1];
    }
  }

  /** A key built from a space-free first date and a second date free of
      the separator splits back into those two dates. */
  lemma SplitRangeKey(date1: string, date2: string)
    requires forall i :: 0 <= i < |date1| ==> date1[i] != ' '
    requires !Contains(date2, Separator)
    ensures FirstDate(RangeKey(date1, date2)) == date1
    ensures SecondDate(RangeKey(date1, date2)) == date2
  {
    var key := RangeKey(date1, date2);
    assert OccursAt(key, Separator, |date1|) by {
      assert key[|date1|..|date1| + 4] == Separator;
    }
    forall j: nat | j < |date1| ensures !OccursAt(key, Separator, j) {
      assert key[j] == date1[j];
    }
    assert IndexOf(key, Separator) == Some(|date1|);
    assert key[..|date1|] == date1;
    assert key[|date1| + 4..] == date2;
    assert Split(date2, Separator) == [date2];
  }

  /** The `draft` key has no separator, so it splits into itself alone. */
  lemma DraftKeySplit()
    ensures FirstDate("draft") == "draft" && SecondDate("draft") == "undefined"
  {
    var key := "draft";
    forall j: nat ensures !OccursAt(key, Separator, j) {
      if j + 4 <= |key| {
        assert key[j..j + 4][0] == key[j] != Separator[0];
      }
    }
    assert IndexOf(key, Separator).None?;
    assert Split(key, Separator) == [key];
  }

  /** A key with no separator, such as the `draft` key, gains a second
      half `undefined` when split and joined again. */
  lemma DraftKeyRejoin()
    ensures RangeKey(FirstDate("draft"), SecondDate("draft")) == "draft to undefined"
  {
    DraftKeySplit();
  }
}
