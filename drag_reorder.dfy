/** Drag-and-drop reordering of the task list (scripts.js, the `drop`
    handler): the dragged card is moved next to the card it is dropped on, and
    the new order of every card is sent to the server as positions 1..n. */
module DragReorder {
  import opened Wrappers
  import opened Records
  import ServerRules

  /** No id appears twice: each card shows a different task. */
  predicate Distinct(s: seq<int>)
  {
    forall i, j :: 0 <= i < j < |s| ==> s[i] != s[j]
  }

  /** `Array.prototype.indexOf`: the first position of `x`. */
  function IndexOf(s: seq<int>, x: int): (r: nat)
    requires x in s
    ensures r < |s| && s[r] == x
    ensures forall j :: 0 <= j < r ==> s[j] != x
  {
    if s[0] == x then 0 else 1 + IndexOf(s[1..], x)
  }

  /** The sequence without its element at position `i`. */
  function Remove(s: seq<int>, i: nat): (r: seq<int>)
    requires i < |s|
    ensures |r| == |s| - 1
  {
    s[..i] + s[i + 1..]
  }

  /** The sequence with `x` placed at position `at`. */
  function Insert(s: seq<int>, at: nat, x: int): (r: seq<int>)
    requires at <= |s|
    ensures |r| == |s| + 1 && r[at] == x
  {
    s[..at] + [x] + s[at..]
  }

  /** Where the dragged card goes in the list without it: after the target
      when it came from before the target, before the target otherwise. */
  function Slot(cards: seq<int>, dragged: int, target: int): (at: nat)
    requires dragged in cards && target in cards && dragged != target
    ensures target in Remove(cards, IndexOf(cards, dragged))
    ensures at <= |cards| - 1
  {
    var di := IndexOf(cards, dragged);
    var ti := IndexOf(cards, target);
    var rest := Remove(cards, di);
    assert target in rest by {
      if ti < di { assert rest[ti] == target; } else { assert rest[ti - 1] == target; }
    }
    IndexOf(rest, target) + (if di < ti then 1 else 0)
  }

  /** The list after the drop: the dragged card is taken out and put back
      right after the target when it came from before it, right before the
      target otherwise (`insertBefore(dragged, target.nextSibling)` or
      `insertBefore(dragged, target)`). */
  function Moved(cards: seq<int>, dragged: int, target: int): seq<int>
    requires dragged in cards && target in cards && dragged != target
  {
    Insert(Remove(cards, IndexOf(cards, dragged)), Slot(cards, dragged, target), dragged)
  }

  /** The body of the reorder request: every card with its position counted from 1. */
  function OrderArray(cards: seq<int>): (r: seq<OrderEntry>)
    ensures |r| == |cards|
    ensures forall k :: 0 <= k < |r| ==> r[k].id == cards[k]
  {
    seq(|cards|, k requires 0 <= k < |cards| => OrderEntry(cards[k], k + 1))
  }

  /** The positions sent are exactly 1, 2, ..., n in list order. */
  lemma OrderArrayPositions(cards: seq<int>)
    ensures forall k :: 0 <= k < |cards| ==> OrderArray(cards)[k].order == k + 1
  {
  }

  lemma DistinctIndexOf(s: seq<int>, i: nat)
    requires Distinct(s) && i < |s|
    ensures IndexOf(s, s[i]) == i
  {
  }

  /** Taking an element out keeps the others distinct, drops exactly that
      element, and leaves no copy of it behind. */
  lemma RemoveFacts(s: seq<int>, i: nat)
    requires Distinct(s) && i < |s|
    ensures Distinct(Remove(s, i)) && s[i] !in Remove(s, i)
    ensures multiset(Remove(s, i)) + multiset{s[i]} == multiset(s)
  {
    var r := Remove(s, i);
    assert s == s[..i] + [s[i]] + s[i + 1..];
    forall a, b | 0 <= a < b < |r|
      ensures r[a] != r[b]
    {
      var a' := if a < i then a else a + 1;
      var b' := if b < i then b else b + 1;
      assert r[a] == s[a'] && r[b] == s[b'];
    }
    forall j | 0 <= j < |r|
      ensures r[j] != s[i]
    {
      if j < i { assert r[j] == s[j]; } else { assert r[j] == s[j + 1]; }
    }
  }

  /** Putting a new element in keeps the sequence distinct, adds exactly that
      element, and taking it out again gives back the sequence. */
  lemma InsertFacts(s: seq<int>, at: nat, x: int)
    requires Distinct(s) && x !in s && at <= |s|
    ensures Distinct(Insert(s, at, x))
    ensures multiset(Insert(s, at, x)) == multiset(s) + multiset{x}
    ensures Remove(Insert(s, at, x), at) == s
  {
    var m := Insert(s, at, x);
    assert s == s[..at] + s[at..];
    forall i, j | 0 <= i < j < |m|
      ensures m[i] != m[j]
    {
      var i' := if i < at then i else i - 1;
      var j' := if j < at then j else j - 1;
      if i != at && j != at {
        assert m[i] == s[i'] && m[j] == s[j'];
      } else if i == at {
        assert m[j] == s[j'];
      } else {
        assert m[i] == s[i'];
      }
    }
    assert Remove(m, at) == s;
  }

  /** The drop moves only the dragged card: the list holds the same ids, the
      other cards keep their relative order, and no id appears twice. */
  lemma MovedIsPermutation(cards: seq<int>, dragged: int, target: int)
    requires Distinct(cards) && dragged in cards && target in cards && dragged != target
    ensures multiset(Moved(cards, dragged, target)) == multiset(cards)
    ensures Distinct(Moved(cards, dragged, target))
    ensures var m := Moved(cards, dragged, target);
            dragged in m && Remove(m, IndexOf(m, dragged)) == Remove(cards, IndexOf(cards, dragged))
  {
    var di := IndexOf(cards, dragged);
    var rest := Remove(cards, di);
    var at := Slot(cards, dragged, target);
    RemoveFacts(cards, di);
    InsertFacts(rest, at, dragged);
    DistinctIndexOf(Insert(rest, at, dragged), at);
  }

  /** Where the dragged card lands: right after the target when it was
      dragged forward, right before it when it was dragged backward. */
  lemma MovedPlacement(cards: seq<int>, dragged: int, target: int)
    requires Distinct(cards) && dragged in cards && target in cards && dragged != target
    ensures var m := Moved(cards, dragged, target);
            && target in m && dragged in m
            && (IndexOf(cards, dragged) < IndexOf(cards, target) ==> IndexOf(m, dragged) == IndexOf(m, target) + 1)
            && (IndexOf(cards, dragged) > IndexOf(cards, target) ==> IndexOf(m, target) == IndexOf(m, dragged) + 1)
  {
    MovedIsPermutation(cards, dragged, target);
    var di := IndexOf(cards, dragged);
    var rest := Remove(cards, di);
    var tj := IndexOf(rest, target);
    var m := Moved(cards, dragged, target);
    assert m == rest[..Slot(cards, dragged, target)] + [dragged] + rest[Slot(cards, dragged, target)..];
    if di < IndexOf(cards, target) {
      assert m[tj] == target && m[tj + 1] == dragged;
      DistinctIndexOf(m, tj);
      DistinctIndexOf(m, tj + 1);
    } else {
      assert m[tj] == dragged && m[tj + 1] == target;
      DistinctIndexOf(m, tj);
      DistinctIndexOf(m, tj + 1);
    }
  }

  /** Dragging the first of three cards onto the last, and the last onto the first. */
  lemma MovedExamples()
    ensures Moved([1, 2, 3], 1, 3) == [2, 3, 1]
    ensures Moved([1, 2, 3], 3, 1) == [3, 1, 2]
  {
    assert Remove([1, 2, 3], 0) == [2, 3];
    assert Remove([1, 2, 3], 2) == [1, 2];
  }

  /** When the server accepts the request, the stored order of the task on
      each card is that card's position, so the default sort by order shows
      the cards in the order they were left in. */
  lemma {:induction false} OrderArrayStored(rows: map<int, Task>, cards: seq<int>, k: nat)
    requires Distinct(cards) && k < |cards| && cards[k] in rows
    ensures cards[k] in ServerRules.ApplyOrders(rows, OrderArray(cards))
    ensures ServerRules.ApplyOrders(rows, OrderArray(cards))[cards[k]].order == k + 1
  {
    var orders := OrderArray(cards);
    ServerRules.ApplyOrdersListed(rows, orders, k);
  }

  /** The page's task list, as the sequence of the ids of its cards. */
  class TaskList {
    var cards: seq<int>

    ghost predicate Valid()
      reads this
    {
      Distinct(cards)
    }

    constructor (ids: seq<int>)
      requires Distinct(ids)
      ensures Valid() && cards == ids
    {
      cards := ids;
    }

    /** A drop of the card showing `dragged` on the card showing `target`.
        Nothing happens when either card is not in the list or they are the
        same card; otherwise the dragged card is moved and the new positions
        are returned as the body of the reorder request. */
    method Drop(dragged: int, target: int) returns (request: Option<seq<OrderEntry>>)
      requires Valid()
      modifies this
      ensures Valid()
      ensures dragged in old(cards) && target in old(cards) && dragged != target ==>
        cards == Moved(old(cards), dragged, target) && request == Some(OrderArray(cards))
      ensures !(dragged in old(cards) && target in old(cards) && dragged != target) ==>
        cards == old(cards) && request == None
    {
      if dragged !in cards || target !in cards || dragged == target {
        return None;
      }
      MovedIsPermutation(cards, dragged, target);
      var draggedIndex := IndexOf(cards, dragged);
      var targetIndex := IndexOf(cards, target);
      var rest := Remove(cards, draggedIndex);
      var at := IndexOf(rest, target);
      if draggedIndex < targetIndex {
        at := at + 1;
      }
      cards := Insert(rest, at, dragged);
      request := Some(OrderArray(cards));
    }
  }
}
