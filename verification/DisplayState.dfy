/** The agent's display globals: a 16-slot list sorted in place, its count and the selection. */
module DisplayState {
  import opened Bytes
  import opened Displays

  lemma {:induction false} SortSnoc(s: seq<Display>, d: Display)
    ensures Sort(s + [d]) == Insert(Sort(s), d)
  {
    assert (s + [d])[..|s|] == s;
  }

  /** Inserting into the displays up to `j` is all that is left to do. */
  ghost predicate Inserting(done: seq<Display>, key: Display, j: int)
    requires -1 <= j < |done|
  {
    Insert(done, key) == Insert(done[..j + 1], key) + done[j + 1..]
  }

  lemma InsertStep(done: seq<Display>, key: Display, j: nat)
    requires j < |done| && After(done[j], key) && Inserting(done, key, j)
    ensures Inserting(done, key, j - 1)
  {
    assert done[..j + 1][..j] == done[..j];
    assert Insert(done[..j + 1], key) == Insert(done[..j], key) + [done[j]];
    assert [done[j]] + done[j + 1..] == done[j..];
  }

  /** Where the insertion loop stands: a free slot at `j + 1`, everything behind it moved one place up. */
  ghost predicate Standing(cur: seq<Display>, done: seq<Display>, key: Display, after: seq<Display>, j: int) {
    && -1 <= j < |done| && |cur| == |done| + 1 + |after|
    && cur[..j + 1] == done[..j + 1]
    && cur[j + 2..] == done[j + 1..] + after
    && Inserting(done, key, j)
  }

  lemma StandingStart(cur: seq<Display>, key: Display, i: nat)
    requires i < |cur|
    ensures Standing(cur, cur[..i], key, cur[i + 1..], i - 1)
  {
    var done := cur[..i];
    assert done[..i] == done && done[i..] == [];
    assert [] + cur[i + 1..] == cur[i + 1..];
  }

  /** The display below the free slot moves into it, and leaves its own slot free. */
  lemma StandingStep(cur: seq<Display>, done: seq<Display>, key: Display, after: seq<Display>, j: nat)
    requires Standing(cur, done, key, after, j) && After(cur[j], key)
    ensures Standing(cur[j + 1 := cur[j]], done, key, after, j - 1)
  {
    assert cur[j] == cur[..j + 1][j] == done[j];
    InsertStep(done, key, j);
    var next := cur[j + 1 := cur[j]];
    assert next[..j] == cur[..j + 1][..j] == done[..j];
    assert next[j + 1..] == [done[j]] + cur[j + 2..];
    assert done[j..] == [done[j]] + done[j + 1..];
  }

  /** A key that sorts after everything goes to the end. */
  lemma InsertAtEnd(left: seq<Display>, key: Display)
    requires left == [] || !After(left[|left| - 1], key)
    ensures Insert(left, key) == left + [key]
  {
  }

  lemma StandingEnd(cur: seq<Display>, done: seq<Display>, key: Display, after: seq<Display>, j: int)
    requires -1 <= j < |done| && |cur| > j + 1 && (j >= 0 ==> !After(cur[j], key))
    ensures Standing(cur, done, key, after, j) ==>
              cur[j + 1 := key] == Insert(done, key) + after && |Insert(done, key)| == |done| + 1
  {
    if Standing(cur, done, key, after, j) {
      var left := done[..j + 1];
      assert j >= 0 ==> left[j] == cur[..j + 1][j];
      InsertAtEnd(left, key);
      assert cur[j + 1 := key] == cur[..j + 1] + [key] + cur[j + 2..];
    }
  }

  /** One turn of the inner loop. */
  method MoveUp(list: array<Display>, j: nat)
    requires j + 1 < list.Length
    modifies list
    ensures list[..] == old(list[..])[j + 1 := old(list[j])]
  {
    list[j + 1] := list[j];
  }

  /** Inserts the display at `i` among the sorted ones before it. */
  method InsertInPlace(list: array<Display>, i: nat)
    requires i < list.Length
    modifies list
    ensures list[..] == Insert(old(list[..i]), old(list[i])) + old(list[i + 1..])
    ensures |Insert(old(list[..i]), old(list[i]))| == i + 1
  {
    ghost var was := list[..];
    ghost var done, after := was[..i], was[i + 1..];
    var key := list[i];
    var j := i - 1;
    StandingStart(was, key, i);
    while j >= 0 && After(list[j], key)
      invariant -1 <= j < i
      invariant Standing(list[..], done, key, after, j)
    {
      StandingStep(list[..], done, key, after, j);
      MoveUp(list, j);
      j := j - 1;
    }
    StandingEnd(list[..], done, key, after, j);
    list[j + 1] := key;
  }

  method SortInPlace(list: array<Display>, count: nat)
    requires count <= list.Length
    modifies list
    ensures list[..count] == Sort(old(list[..count]))
    ensures list[count..] == old(list[count..])
  {
    ghost var was := list[..];
    if count == 0 {
      return;
    }
    var i := 1;
    SortSnoc([], was[0]);
    assert list[..1] == [] + [was[0]];
    while i < count
      invariant 1 <= i <= count
      invariant list[..i] == Sort(was[..i])
      invariant list[i..] == was[i..]
    {
      assert list[i] == list[i..][0] == was[i];
      assert list[i + 1..] == list[i..][1..];
      SortSnoc(was[..i], was[i]);
      assert was[..i + 1] == was[..i] + [was[i]];
      InsertInPlace(list, i);
      assert list[..i + 1] == list[..][..i + 1] && list[i + 1..] == list[..][i + 1..];
      i := i + 1;
    }
  }

  class State {
    const list: array<Display>
    var count: nat
    var sel: nat

    ghost predicate Valid()
      reads this
    {
      list.Length == MAX_DISPLAYS && count <= MAX_DISPLAYS
    }

    ghost function Screens(): Displays.Screens
      reads this, list
      requires Valid()
    {
      Displays.Screens(list[..count], sel)
    }

    constructor (any: Display)
      ensures Valid() && fresh(list) && Screens() == Displays.Screens([], 1)
    {
      list := new Display[MAX_DISPLAYS](_ => any);
      count, sel := 0, 1;
    }

    /** The displays that mirror no other, in the order the system lists them. */
    method Enumerate(ids: seq<Display>)
      requires Valid() && |ids| <= MAX_DISPLAYS
      modifies this`count, list
      ensures Valid() && list[..count] == Unmirrored(ids)
    {
      count := 0;
      var i := 0;
      while i < |ids| && count < MAX_DISPLAYS
        invariant 0 <= i <= |ids| && count <= i
        invariant list[..count] == Unmirrored(ids[..i])
      {
        assert ids[..i + 1][..i] == ids[..i];
        if !ids[i].mirrors {
          list[count] := ids[i];
          count := count + 1;
        }
        i := i + 1;
      }
      assert ids[..i] == ids;
    }

    method Refresh(os: Os)
      requires Valid()
      modifies this, list
      ensures Valid() && Screens() == Refreshed(old(Screens()), os)
    {
      var ids := if |os.active| <= MAX_DISPLAYS then os.active else os.active[..MAX_DISPLAYS];
      Enumerate(ids);
      SortInPlace(list, count);
      SortOrdersAndPermutes(Unmirrored(ids));
      if count == 0 {
        list[0] := os.main;
        count := 1;
      }
      assert list[..count] == DisplayList(os);
      if sel > count {
        sel := 1;
      }
    }

    method OnSetDisplay(v: word, os: Os)
      requires Valid()
      modifies this, list
      ensures Valid() && Screens() == SetDisplay(old(Screens()), v, os)
    {
      Refresh(os);
      var want: nat := if v == ALL then 0 else v;
      if want > count || want == sel {
        return;
      }
      sel := want;
    }

    method SendDisplayList(tag: word, os: Os) returns (words: seq<word>)
      requires Valid()
      modifies this, list
      ensures Valid() && Screens() == Refreshed(old(Screens()), os)
      ensures 1 <= count && words == Announcement(tag, Screens())
    {
      RefreshedIsOrdered(Screens(), os);
      Refresh(os);
      if count <= 1 {
        return [tag, 8, 0, 0];
      }
      ghost var writes;
      words, writes := BuildWords(tag, count, sel);
    }
  }

  lemma WordsAre(words: seq<word>, tag: word, count: nat, sel: nat)
    requires 2 <= count <= MAX_DISPLAYS && |words| == 5 + count
    requires words[0] == tag && words[1] == 10 + 2 * count && words[2] == count + 1 && words[3] == ALL
    requires forall k :: 4 <= k < 4 + count ==> words[k] == k - 3
    requires words[4 + count] == if sel == 0 then ALL else if sel <= count then sel else 1
    ensures words == Words(tag, count, sel)
  {
    var ids := words[4..4 + count];
    assert ids == seq(count, k requires 0 <= k < count => (k + 1) as word);
    assert words[..4] == [tag, 10 + 2 * count, count + 1, ALL];
    assert words == words[..4] + ids + [words[4 + count]];
  }

  /** Fills the announcement's buffer; `writes` records the words stored, in order: each once. */
  method BuildWords(tag: word, count: nat, sel: nat) returns (words: seq<word>, ghost writes: seq<nat>)
    requires 2 <= count <= MAX_DISPLAYS
    ensures words == Words(tag, count, sel)
    ensures |writes| == |words| && forall i :: 0 <= i < |words| ==> writes[i] == i
  {
    var n := count + 1;
    var selected: word := if sel == 0 then ALL else if 1 <= sel && sel <= count then sel else 1;
    var size := 8 + 2 * n;
    var buffer := new word[size / 2](_ => 0);
    buffer[0], buffer[1], buffer[2], buffer[3] := tag, size, n, ALL;
    writes := [0, 1, 2, 3];
    var i := 0;
    while i < count
      invariant 0 <= i <= count && |writes| == 4 + i
      invariant buffer.Length == 5 + count
      invariant buffer[0] == tag && buffer[1] == size && buffer[2] == n && buffer[3] == ALL
      invariant forall k :: 4 <= k < 4 + i ==> buffer[k] == k - 3
      invariant forall k :: 0 <= k < |writes| ==> writes[k] == k
    {
      buffer[4 + i] := i + 1;
      writes := writes + [4 + i];
      i := i + 1;
    }
    buffer[3 + n] := selected;
    writes := writes + [3 + n];
    words := buffer[..];
    WordsAre(words, tag, count, sel);
  }
}
