/**
 * The list editing the views offer on their page order, file list and image
 * list: move an entry one place towards the front or the back, remove the
 * entry at an index, append new entries.
 */
module ListEdit {

  /** 'left' / 'up' move an entry towards the front, 'right' / 'down' towards the back. */
  datatype Direction = Earlier | Later

  /**
   * The list after moving entry `i` one place: it trades places with its
   * neighbour, unless it is already at that end of the list.
   */
  function Moved<T>(s: seq<T>, i: nat, d: Direction): seq<T>
    requires i < |s|
  {
    if d == Earlier && i > 0 then s[i - 1 := s[i]][i := s[i - 1]]
    else if d == Later && i < |s| - 1 then s[i := s[i + 1]][i + 1 := s[i]]
    else s
  }

  /** Moving towards the front swaps entries i - 1 and i and leaves every other entry alone. */
  lemma MovedEarlier<T>(s: seq<T>, i: nat)
    requires 0 < i < |s|
    ensures var r := Moved(s, i, Earlier);
            |r| == |s| && r[i - 1] == s[i] && r[i] == s[i - 1]
            && forall k :: 0 <= k < |s| && k != i - 1 && k != i ==> r[k] == s[k]
  {
  }

  /** Moving towards the back swaps entries i and i + 1 and leaves every other entry alone. */
  lemma MovedLater<T>(s: seq<T>, i: nat)
    requires i + 1 < |s|
    ensures var r := Moved(s, i, Later);
            |r| == |s| && r[i] == s[i + 1] && r[i + 1] == s[i]
            && forall k :: 0 <= k < |s| && k != i && k != i + 1 ==> r[k] == s[k]
  {
  }

  /** At either end the move does nothing. */
  lemma MovedAtEnds<T>(s: seq<T>)
    requires |s| > 0
    ensures Moved(s, 0, Earlier) == s && Moved(s, |s| - 1, Later) == s
  {
  }

  /** Every move yields a permutation of the list. */
  lemma MovedIsPermutation<T>(s: seq<T>, i: nat, d: Direction)
    requires i < |s|
    ensures |Moved(s, i, d)| == |s| && multiset(Moved(s, i, d)) == multiset(s)
  {
    if d == Earlier && i > 0 {
      SwapIsPermutation(s, i - 1);
    } else if d == Later && i < |s| - 1 {
      SwapIsPermutation(s, i);
      assert s[i := s[i + 1]][i + 1 := s[i]] == s[i + 1 := s[i]][i := s[i + 1]];
    }
  }

  lemma SwapIsPermutation<T>(s: seq<T>, j: nat)
    requires j + 1 < |s|
    ensures multiset(s[j := s[j + 1]][j + 1 := s[j]]) == multiset(s)
  {
    var r := s[j := s[j + 1]][j + 1 := s[j]];
    assert s == s[..j] + [s[j], s[j + 1]] + s[j + 2..];
    assert r == s[..j] + [s[j + 1], s[j]] + s[j + 2..];
  }

  /** Moving an entry forward and then back from its new place restores the list. */
  lemma MoveEarlierThenLater<T>(s: seq<T>, i: nat)
    requires 0 < i < |s|
    ensures Moved(Moved(s, i, Earlier), i - 1, Later) == s
  {
  }

  /**
   * Copies the list into a fresh array, swaps two cells of the copy in
   * place when the move is possible, and hands back the copy.
   */
  method MoveInCopy<T>(s: seq<T>, index: nat, d: Direction) returns (r: seq<T>)
    requires index < |s|
    ensures r == Moved(s, index, d)
  {
    var copy := new T[|s|](k requires 0 <= k < |s| => s[k]);
    if d == Earlier && index > 0 {
      copy[index], copy[index - 1] := copy[index - 1], copy[index];
    } else if d == Later && index < copy.Length - 1 {
      copy[index], copy[index + 1] := copy[index + 1], copy[index];
    }
    r := copy[..];
  }

  /** The list without entry `i`, as an index filter leaves it; the list itself when there is no such entry. */
  function RemoveAt<T>(s: seq<T>, i: nat): seq<T> {
    if i < |s| then s[..i] + s[i + 1..] else s
  }

  /** The filter as the source writes it: keep, in order, every entry whose index differs from `i`. */
  function FilterIndex<T>(s: seq<T>, i: nat, from: nat): seq<T>
    requires from <= |s|
    decreases |s| - from
  {
    if from == |s| then []
    else if from == i then FilterIndex(s, i, from + 1)
    else [s[from]] + FilterIndex(s, i, from + 1)
  }

  lemma {:induction false} FilterIndexFrom<T>(s: seq<T>, i: nat, from: nat)
    requires from <= |s|
    ensures FilterIndex(s, i, from) == if from <= i < |s| then s[from..i] + s[i + 1..] else s[from..]
    decreases |s| - from
  {
    if from < |s| {
      FilterIndexFrom(s, i, from + 1);
      if from != i {
        assert s[from..] == [s[from]] + s[from + 1..];
        if from < i < |s| {
          assert s[from..i] == [s[from]] + s[from + 1..i];
        }
      }
    }
  }

  lemma RemoveAtIsFilter<T>(s: seq<T>, i: nat)
    ensures RemoveAt(s, i) == FilterIndex(s, i, 0)
  {
    FilterIndexFrom(s, i, 0);
    assert s[0..] == s;
    if i < |s| {
      assert s[0..i] == s[..i];
    }
  }

  /**
   * Removing entry `i` shortens the list by one, keeps the entries before
   * `i` where they were and shifts the entries after it one place forward.
   */
  lemma RemoveAtShape<T>(s: seq<T>, i: nat)
    requires i < |s|
    ensures var r := RemoveAt(s, i);
            |r| == |s| - 1
            && (forall k :: 0 <= k < i ==> r[k] == s[k])
            && (forall k :: i <= k < |r| ==> r[k] == s[k + 1])
            && multiset(r) + multiset{s[i]} == multiset(s)
  {
    assert s == s[..i] + [s[i]] + s[i + 1..];
  }
}
