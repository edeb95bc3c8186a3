/** The ordered window list of a tile layout (a LinkedList<Window> in the program) as a sequence,
    with the list primitives the layout uses and the reorderings built from them. */
module WindowOrder {

  /** A top-level window: its handle and whether it is counted in the layout symbol (ShowInTabs). */
  datatype Window = Window(handle: int, showInTabs: bool)

  predicate NoDuplicates(s: seq<Window>)
  {
    forall i, j :: 0 <= i < j < |s| ==> s[i] != s[j]
  }

  function Members(s: seq<Window>): set<Window>
  {
    set w | w in s
  }

  /** Enumerable.Take for a non-negative count: the first n windows, or all of them. */
  function Take(s: seq<Window>, n: nat): (r: seq<Window>)
    ensures |r| == if n <= |s| then n else |s|
    ensures forall i :: 0 <= i < |r| ==> r[i] == s[i]
  {
    if n <= |s| then s[..n] else s
  }

  /** Enumerable.Skip for a non-negative count: what Take leaves. */
  function Skip(s: seq<Window>, n: nat): (r: seq<Window>)
    ensures Take(s, n) + r == s
  {
    if n <= |s| then s[n..] else []
  }

  /** LinkedList.Find: the position of the first node that holds w. */
  function IndexOf(s: seq<Window>, w: Window): (i: nat)
    requires w in s
    ensures i < |s| && s[i] == w
    ensures w !in s[..i]
  {
    if s[0] == w then 0 else 1 + IndexOf(s[1..], w)
  }

  /** The first occurrence is the only position that holds w with no w before it. */
  lemma IndexOfUnique(s: seq<Window>, w: Window, k: nat)
    requires k < |s| && s[k] == w && w !in s[..k]
    ensures IndexOf(s, w) == k
  {
  }

  /** A list without duplicates holds each of its windows exactly once, and no other window. */
  lemma {:induction false} NoDuplicatesCount(s: seq<Window>, w: Window)
    requires NoDuplicates(s)
    ensures multiset(s)[w] == if w in s then 1 else 0
  {
    if s != [] {
      var t := s[1..];
      assert s == [s[0]] + t;
      assert NoDuplicates(t) by {
        forall i, j | 0 <= i < j < |t| ensures t[i] != t[j] {
          assert t[i] == s[i + 1] && t[j] == s[j + 1];
        }
      }
      assert s[0] !in t by {
        forall j | 0 <= j < |t| ensures t[j] != s[0] {
          assert t[j] == s[j + 1];
        }
      }
      NoDuplicatesCount(t, w);
      assert w in s <==> w == s[0] || w in t;
      assert multiset(s) == multiset{s[0]} + multiset(t);
    }
  }

  /** A new node holding w placed at position i (AddFirst, AddAfter, AddBefore). */
  function InsertAt(s: seq<Window>, i: nat, w: Window): seq<Window>
    requires i <= |s|
  {
    s[..i] + [w] + s[i..]
  }

  /** LinkedList.Remove(node) for the node at position i. */
  function RemoveAt(s: seq<Window>, i: nat): seq<Window>
    requires i < |s|
  {
    s[..i] + s[i + 1..]
  }

  /** LinkedList.Remove(value): drops the first node holding w; a list without w stays as it is. */
  function RemoveFirst(s: seq<Window>, w: Window): (r: seq<Window>)
    ensures |r| == if w in s then |s| - 1 else |s|
  {
    if s == [] then []
    else if s[0] == w then s[1..]
    else [s[0]] + RemoveFirst(s[1..], w)
  }

  /** Removing a value removes exactly the node Find would return, and nothing when the value is absent. */
  lemma {:induction false} RemoveFirstAt(s: seq<Window>, w: Window)
    ensures w in s ==> RemoveFirst(s, w) == RemoveAt(s, IndexOf(s, w))
    ensures w !in s ==> RemoveFirst(s, w) == s
  {
    if s != [] && s[0] != w {
      RemoveFirstAt(s[1..], w);
      if w in s {
        assert w in s[1..];
        var i := IndexOf(s[1..], w);
        assert s[1..][..i] + s[1..][i + 1..] == s[1..i + 1] + s[i + 2..];
      } else {
        assert s == [s[0]] + s[1..];
      }
    }
  }

  /** Removal takes away one copy of w when there is one and keeps everything else. */
  lemma {:induction false} RemoveFirstMultiset(s: seq<Window>, w: Window)
    ensures multiset(RemoveFirst(s, w)) == multiset(s) - multiset{w}
    ensures |RemoveFirst(s, w)| == if w in s then |s| - 1 else |s|
  {
    if s != [] {
      assert s == [s[0]] + s[1..];
      if s[0] != w {
        RemoveFirstMultiset(s[1..], w);
        assert w in s <==> w in s[1..];
      }
    }
  }

  /** On a list without duplicates, removal leaves no copy of w and no duplicates. */
  lemma {:induction false} RemoveFirstNoDuplicates(s: seq<Window>, w: Window)
    requires NoDuplicates(s)
    ensures NoDuplicates(RemoveFirst(s, w))
    ensures w !in RemoveFirst(s, w)
    ensures Members(RemoveFirst(s, w)) == Members(s) - {w}
  {
    if s != [] {
      var t := s[1..];
      assert NoDuplicates(t) by {
        forall i, j | 0 <= i < j < |t| ensures t[i] != t[j] {
          assert t[i] == s[i + 1] && t[j] == s[j + 1];
        }
      }
      assert s[0] !in t by {
        forall j | 0 <= j < |t| ensures t[j] != s[0] {
          assert t[j] == s[j + 1];
        }
      }
      assert Members(s) == {s[0]} + Members(t) by {
        assert s == [s[0]] + t;
      }
      if s[0] != w {
        RemoveFirstNoDuplicates(t, w);
        var r := RemoveFirst(t, w);
        assert Members(r) == Members(t) - {w};
        assert s[0] !in Members(r);
        assert s[0] !in r;
        assert Members([s[0]] + r) == {s[0]} + Members(r);
        assert NoDuplicates([s[0]] + r) by {
          var u := [s[0]] + r;
          forall i, j | 0 <= i < j < |u| ensures u[i] != u[j] {
            if i == 0 {
              assert u[j] == r[j - 1];
            } else {
              assert u[i] == r[i - 1] && u[j] == r[j - 1];
            }
          }
        }
      }
    }
  }

  /** Prepending a window and then removing it gives back the list (Created then Destroyed, Restored then Minimized). */
  lemma RemoveAfterPrepend(s: seq<Window>, w: Window)
    ensures RemoveFirst([w] + s, w) == s
  {
  }

  /** The guard of ShiftWindowToNextPosition: more than one window and w not the last. */
  predicate ShiftsNext(s: seq<Window>, w: Window)
  {
    |s| > 1 && s[|s| - 1] != w
  }

  /** The guard of ShiftWindowToPreviousPosition and ShiftWindowToMainPosition: more than one window and w not the first. */
  predicate ShiftsBack(s: seq<Window>, w: Window)
  {
    |s| > 1 && s[0] != w
  }

  /** w exchanged with its successor. */
  function MoveToNext(s: seq<Window>, w: Window): seq<Window>
    requires ShiftsNext(s, w) ==> w in s
  {
    if ShiftsNext(s, w) then
      var i := IndexOf(s, w);
      s[i := s[i + 1]][i + 1 := w]
    else s
  }

  /** w exchanged with its predecessor. */
  function MoveToPrevious(s: seq<Window>, w: Window): seq<Window>
    requires ShiftsBack(s, w) ==> w in s
  {
    if ShiftsBack(s, w) then
      var i := IndexOf(s, w);
      s[i := s[i - 1]][i - 1 := w]
    else s
  }

  /** w moved to the front, every other window keeping its relative order. */
  function MoveToHead(s: seq<Window>, w: Window): seq<Window>
    requires ShiftsBack(s, w) ==> w in s
  {
    if ShiftsBack(s, w) then [w] + RemoveFirst(s, w) else s
  }

  /** AddAfter(node.Next) followed by Remove(node) exchanges the node with its successor. */
  lemma AddAfterNextThenRemove(s: seq<Window>, i: nat)
    requires i + 1 < |s|
    ensures RemoveAt(InsertAt(s, i + 2, s[i]), i) == s[i := s[i + 1]][i + 1 := s[i]]
  {
    var t := InsertAt(s, i + 2, s[i]);
    assert t == s[..i + 2] + [s[i]] + s[i + 2..];
    var r := RemoveAt(t, i);
    assert r == s[..i] + [s[i + 1], s[i]] + s[i + 2..];
  }

  /** AddBefore(node.Previous) followed by Remove(node) exchanges the node with its predecessor. */
  lemma AddBeforePreviousThenRemove(s: seq<Window>, i: nat)
    requires 0 < i < |s|
    ensures RemoveAt(InsertAt(s, i - 1, s[i]), i + 1) == s[i := s[i - 1]][i - 1 := s[i]]
  {
    var t := InsertAt(s, i - 1, s[i]);
    assert t == s[..i - 1] + [s[i]] + s[i - 1..];
    assert t[i + 1] == s[i];
    var r := RemoveAt(t, i + 1);
    assert r == s[..i - 1] + [s[i], s[i - 1]] + s[i + 1..];
  }

  /** Remove(node) followed by AddFirst(node) for the node Find returns is moving w to the front. */
  lemma RemoveThenAddFirst(s: seq<Window>, w: Window)
    requires w in s
    ensures InsertAt(RemoveAt(s, IndexOf(s, w)), 0, w) == [w] + RemoveFirst(s, w)
  {
    RemoveFirstAt(s, w);
  }

  /** Shifting forward exchanges w with its successor and leaves every other position and the multiset alone. */
  lemma MoveToNextSwaps(s: seq<Window>, w: Window)
    requires ShiftsNext(s, w) && w in s
    ensures var i, r := IndexOf(s, w), MoveToNext(s, w);
      i + 1 < |s| && |r| == |s| && r[i + 1] == w && r[i] == s[i + 1] &&
      (forall k :: 0 <= k < |s| && k != i && k != i + 1 ==> r[k] == s[k]) &&
      multiset(r) == multiset(s)
  {
    var i := IndexOf(s, w);
    assert i != |s| - 1;
    var r := MoveToNext(s, w);
    assert r == s[..i] + [s[i + 1], s[i]] + s[i + 2..];
    assert s == s[..i] + [s[i], s[i + 1]] + s[i + 2..];
  }

  /** Shifting back exchanges w with its predecessor and leaves every other position and the multiset alone. */
  lemma MoveToPreviousSwaps(s: seq<Window>, w: Window)
    requires ShiftsBack(s, w) && w in s
    ensures var i, r := IndexOf(s, w), MoveToPrevious(s, w);
      0 < i && |r| == |s| && r[i - 1] == w && r[i] == s[i - 1] &&
      (forall k :: 0 <= k < |s| && k != i && k != i - 1 ==> r[k] == s[k]) &&
      multiset(r) == multiset(s)
  {
    var i := IndexOf(s, w);
    assert i != 0;
    var r := MoveToPrevious(s, w);
    assert r == s[..i - 1] + [s[i], s[i - 1]] + s[i + 1..];
    assert s == s[..i - 1] + [s[i - 1], s[i]] + s[i + 1..];
  }

  /** On a list without duplicates, shifting forward and then back restores the list. */
  lemma NextThenPrevious(s: seq<Window>, w: Window)
    requires NoDuplicates(s) && w in s && ShiftsNext(s, w)
    ensures w in MoveToNext(s, w) && ShiftsBack(MoveToNext(s, w), w)
    ensures MoveToPrevious(MoveToNext(s, w), w) == s
  {
    MoveToNextSwaps(s, w);
    var i, r := IndexOf(s, w), MoveToNext(s, w);
    assert r[..i + 1] == s[..i] + [s[i + 1]];
    IndexOfUnique(r, w, i + 1);
  }

  /** On a list without duplicates, shifting back and then forward restores the list. */
  lemma PreviousThenNext(s: seq<Window>, w: Window)
    requires NoDuplicates(s) && w in s && ShiftsBack(s, w)
    ensures w in MoveToPrevious(s, w) && ShiftsNext(MoveToPrevious(s, w), w)
    ensures MoveToNext(MoveToPrevious(s, w), w) == s
  {
    MoveToPreviousSwaps(s, w);
    var i, r := IndexOf(s, w), MoveToPrevious(s, w);
    assert r[..i - 1] == s[..i - 1];
    IndexOfUnique(r, w, i - 1);
  }

  /** Moving to the front puts w first, keeps the others in their relative order and loses nothing. */
  lemma MoveToHeadOrder(s: seq<Window>, w: Window)
    requires ShiftsBack(s, w) && w in s
    ensures var r := MoveToHead(s, w);
      r[0] == w && r[1..] == RemoveAt(s, IndexOf(s, w)) && multiset(r) == multiset(s)
  {
    RemoveFirstAt(s, w);
    RemoveFirstMultiset(s, w);
  }

  /** Moving the same window to the front twice is moving it once. */
  lemma MoveToHeadIdempotent(s: seq<Window>, w: Window)
    requires ShiftsBack(s, w) ==> w in s
    ensures MoveToHead(MoveToHead(s, w), w) == MoveToHead(s, w)
  {
  }

  /** The three reorderings keep a list free of duplicates. */
  lemma MovesKeepNoDuplicates(s: seq<Window>, w: Window)
    requires NoDuplicates(s) && w in s
    ensures NoDuplicates(MoveToNext(s, w))
    ensures NoDuplicates(MoveToPrevious(s, w))
    ensures NoDuplicates(MoveToHead(s, w))
  {
    if ShiftsNext(s, w) {
      MoveToNextSwaps(s, w);
    }
    if ShiftsBack(s, w) {
      MoveToPreviousSwaps(s, w);
      RemoveFirstNoDuplicates(s, w);
    }
  }
}
