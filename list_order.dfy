/** The page and the server together: once the server accepts the order
    array of a drag over the whole list, listing the tasks again with the
    default sort gives back the cards in the order the user left them. */
module ListOrder {
  import opened Records
  import ServerRules
  import DragReorder

  /** Strictly increasing positions that hit every index below `n` are the
      positions 0, 1, ..., n - 1 themselves. */
  lemma {:induction false} PrefixIdentity(pos: seq<nat>, n: nat, i: nat)
    requires forall a :: 0 <= a < |pos| ==> pos[a] < n
    requires forall a, b :: 0 <= a < b < |pos| ==> pos[a] < pos[b]
    requires forall k: nat :: k < n ==> k in pos
    requires i < |pos|
    ensures forall j :: 0 <= j <= i ==> pos[j] == j
    decreases i
  {
    if i > 0 {
      PrefixIdentity(pos, n, i - 1);
      assert pos[i] > pos[i - 1];
    }
    assert pos[i] >= i;
    assert i in pos;
    var a :| 0 <= a < |pos| && pos[a] == i;
    assert a == i;
  }

  lemma IdentityPositions(pos: seq<nat>, n: nat)
    requires forall a :: 0 <= a < |pos| ==> pos[a] < n
    requires forall a, b :: 0 <= a < b < |pos| ==> pos[a] < pos[b]
    requires forall k: nat :: k < n ==> k in pos
    ensures |pos| == n && forall i :: 0 <= i < |pos| ==> pos[i] == i
  {
    if |pos| > 0 {
      PrefixIdentity(pos, n, |pos| - 1);
      assert pos[|pos| - 1] == |pos| - 1 < n;
    }
    if n > 0 {
      assert n - 1 in pos;
      var a :| 0 <= a < |pos| && pos[a] == n - 1;
      assert a == n - 1;
    }
  }

  /** What the server stores for the order array: the same rows under the
      same keys, each card's task at its position counted from 1. */
  lemma StoredOrders(rows: map<int, Task>, user: int, cards: seq<int>)
    requires ServerRules.IdsAgree(rows) && DragReorder.Distinct(cards)
    requires forall id :: id in rows && rows[id].userId == user <==> id in cards
    ensures var stored := ServerRules.ApplyOrders(rows, DragReorder.OrderArray(cards));
            && ServerRules.IdsAgree(stored)
            && stored.Keys == rows.Keys
            && (forall id :: id in stored ==> stored[id].userId == rows[id].userId)
            && (forall k :: 0 <= k < |cards| ==> stored[cards[k]].order == k + 1)
  {
    var orders := DragReorder.OrderArray(cards);
    ServerRules.ApplyOrdersKeepsRest(rows, orders);
    forall k | 0 <= k < |cards|
      ensures ServerRules.ApplyOrders(rows, orders)[cards[k]].order == k + 1
    {
      DragReorder.OrderArrayStored(rows, cards, k);
    }
  }

  /** The rows of the default listing after the order array is stored. */
  ghost function Listing(rows: map<int, Task>, user: int, cards: seq<int>): seq<Task>
    requires ServerRules.IdsAgree(rows) && DragReorder.Distinct(cards)
    requires forall id :: id in rows && rows[id].userId == user <==> id in cards
  {
    StoredOrders(rows, user, cards);
    ServerRules.QueryRows(ServerRules.ApplyOrders(rows, DragReorder.OrderArray(cards)), user, "all", "all", "order")
  }

  /** Every listed task is on a card, and its order is that card's position plus one. */
  ghost predicate ListedAreCardsFact(rows: map<int, Task>, user: int, cards: seq<int>)
    requires ServerRules.IdsAgree(rows) && DragReorder.Distinct(cards)
    requires forall id :: id in rows && rows[id].userId == user <==> id in cards
  {
    var q := Listing(rows, user, cards);
    forall i :: 0 <= i < |q| ==> q[i].id in cards && q[i].order == DragReorder.IndexOf(cards, q[i].id) + 1
  }

  lemma ListedAreCards(rows: map<int, Task>, user: int, cards: seq<int>)
    requires ServerRules.IdsAgree(rows) && DragReorder.Distinct(cards)
    requires forall id :: id in rows && rows[id].userId == user <==> id in cards
    ensures ListedAreCardsFact(rows, user, cards)
  {
    var stored := ServerRules.ApplyOrders(rows, DragReorder.OrderArray(cards));
    StoredOrders(rows, user, cards);
    var q := Listing(rows, user, cards);
    forall i | 0 <= i < |q|
      ensures q[i].id in cards && q[i].order == DragReorder.IndexOf(cards, q[i].id) + 1
    {
      assert stored[q[i].id].userId == rows[q[i].id].userId;
      var k := DragReorder.IndexOf(cards, q[i].id);
      assert stored[cards[k]].order == k + 1;
    }
  }

  /** Every card's task is listed. */
  lemma CardsAreListed(rows: map<int, Task>, user: int, cards: seq<int>, k: nat)
    requires ServerRules.IdsAgree(rows) && DragReorder.Distinct(cards)
    requires forall id :: id in rows && rows[id].userId == user <==> id in cards
    requires k < |cards|
    ensures exists a :: 0 <= a < |Listing(rows, user, cards)| && Listing(rows, user, cards)[a].id == cards[k]
  {
    var stored := ServerRules.ApplyOrders(rows, DragReorder.OrderArray(cards));
    StoredOrders(rows, user, cards);
    var q := Listing(rows, user, cards);
    var id := cards[k];
    assert ServerRules.Selected(stored[id], user, "all", "all");
    var a :| 0 <= a < |q| && q[a] == stored[id];
  }

  /** The card positions of a listing whose tasks are all on cards. */
  function Positions(cards: seq<int>, q: seq<Task>): (pos: seq<nat>)
    requires forall i :: 0 <= i < |q| ==> q[i].id in cards
    ensures |pos| == |q|
    ensures forall i :: 0 <= i < |q| ==> pos[i] == DragReorder.IndexOf(cards, q[i].id)
  {
    if q == [] then [] else [DragReorder.IndexOf(cards, q[0].id)] + Positions(cards, q[1..])
  }

  /** The ids of a listing, in listing order. */
  function IdsOf(q: seq<Task>): (r: seq<int>)
    ensures |r| == |q| && forall i :: 0 <= i < |q| ==> r[i] == q[i].id
  {
    seq(|q|, i requires 0 <= i < |q| => q[i].id)
  }

  /** `q` lists, each once and sorted by order, exactly the tasks on the
      distinct `cards`, and each task's order is its card's position plus one. */
  ghost predicate SortedListing(cards: seq<int>, q: seq<Task>)
  {
    && DragReorder.Distinct(cards)
    && SortedOnCards(cards, q)
    && (forall id :: id in cards ==> id in IdsOf(q))
  }

  /** `q` lists distinct tasks sorted by order, each on a card, with its
      card's position plus one as its order. */
  ghost predicate SortedOnCards(cards: seq<int>, q: seq<Task>)
  {
    && (forall i :: 0 <= i < |q| ==> q[i].id in cards && q[i].order == DragReorder.IndexOf(cards, q[i].id) + 1)
    && (forall a, b :: 0 <= a < b < |q| ==> q[a].order <= q[b].order)
    && (forall a, b :: 0 <= a < b < |q| ==> q[a].id != q[b].id)
  }

  /** Such a listing visits the cards left to right. */
  lemma PositionsIncrease(cards: seq<int>, q: seq<Task>)
    requires SortedOnCards(cards, q)
    ensures var pos := Positions(cards, q);
            forall a, b :: 0 <= a < b < |pos| ==> pos[a] < pos[b]
  {
    var pos := Positions(cards, q);
    forall a, b | 0 <= a < b < |pos|
      ensures pos[a] < pos[b]
    {
      var ia := DragReorder.IndexOf(cards, q[a].id);
      var ib := DragReorder.IndexOf(cards, q[b].id);
      assert pos[a] == ia && pos[b] == ib;
      assert ia + 1 == q[a].order <= q[b].order == ib + 1;
      assert cards[ia] == q[a].id != q[b].id == cards[ib];
    }
  }

  /** Such a listing reaches every card position. */
  lemma PositionsCover(cards: seq<int>, q: seq<Task>)
    requires SortedListing(cards, q)
    ensures forall k: nat :: k < |cards| ==> k in Positions(cards, q)
  {
    var pos := Positions(cards, q);
    forall k: nat | k < |cards|
      ensures k in pos
    {
      assert cards[k] in cards;
      assert cards[k] in IdsOf(q);
      var a :| 0 <= a < |q| && IdsOf(q)[a] == cards[k];
      DragReorder.DistinctIndexOf(cards, k);
      assert pos[a] == k;
    }
  }

  /** The listing after the store is such a listing. */
  lemma ListingFacts(rows: map<int, Task>, user: int, cards: seq<int>)
    requires ServerRules.IdsAgree(rows) && DragReorder.Distinct(cards)
    requires forall id :: id in rows && rows[id].userId == user <==> id in cards
    ensures SortedListing(cards, Listing(rows, user, cards))
  {
    ListedAreCards(rows, user, cards);
    var q := Listing(rows, user, cards);
    forall id | id in cards
      ensures id in IdsOf(q)
    {
      var k :| 0 <= k < |cards| && cards[k] == id;
      CardsAreListed(rows, user, cards, k);
      var a :| 0 <= a < |q| && q[a].id == cards[k];
      assert IdsOf(q)[a] == cards[k];
    }
  }

  /** Such a listing lists the cards in card order. */
  lemma CardOrder(cards: seq<int>, q: seq<Task>)
    requires SortedListing(cards, q)
    ensures |q| == |cards| && forall i :: 0 <= i < |q| ==> q[i].id == cards[i]
  {
    PositionsCover(cards, q);
    PositionsIncrease(cards, q);
    IdentityPositions(Positions(cards, q), |cards|);
  }

  /** The user drags over the unfiltered list, which shows every one of
      their tasks once; the server stores the order array; the default
      listing then returns the tasks in card order. */
  lemma ReorderedListComesBack(rows: map<int, Task>, user: int, cards: seq<int>)
    requires ServerRules.IdsAgree(rows) && DragReorder.Distinct(cards)
    requires forall id :: id in rows && rows[id].userId == user <==> id in cards
    ensures ServerRules.IdsAgree(ServerRules.ApplyOrders(rows, DragReorder.OrderArray(cards)))
    ensures var q := ServerRules.QueryRows(ServerRules.ApplyOrders(rows, DragReorder.OrderArray(cards)), user, "all", "all", "order");
            |q| == |cards| && forall i :: 0 <= i < |q| ==> q[i].id == cards[i]
  {
    StoredOrders(rows, user, cards);
    ListingFacts(rows, user, cards);
    CardOrder(cards, Listing(rows, user, cards));
  }
}
