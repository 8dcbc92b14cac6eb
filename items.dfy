/**
 * The item store: an ordered list of task items that every mutation
 * replaces with a new snapshot and publishes to its subscribers.
 */
module Items {

  datatype ItemStatus = Pending | Completed

  datatype Item = Item(id: string, title: string, status: ItemStatus)

  /** The other status: Pending becomes Completed and Completed becomes Pending. */
  function Flip(s: ItemStatus): (r: ItemStatus)
    ensures r != s
  {
    if s == Pending then Completed else Pending
  }

  /** The item as the toggle leaves it: its status flipped when its id matches. */
  function ToggleOne(x: Item, id: string): Item
  {
    if x.id == id then x.(status := Flip(x.status)) else x
  }

  /** The list `toggleItem` publishes: every item with a matching id flipped, in place. */
  function ToggleAll(items: seq<Item>, id: string): (r: seq<Item>)
    ensures |r| == |items|
    ensures forall i :: 0 <= i < |r| ==> r[i].id == items[i].id && r[i].title == items[i].title
    ensures forall i :: 0 <= i < |r| && items[i].id == id ==> r[i].status == Flip(items[i].status)
    ensures forall i :: 0 <= i < |r| && items[i].id != id ==> r[i] == items[i]
  {
    if items == [] then [] else [ToggleOne(items[0], id)] + ToggleAll(items[1..], id)
  }

  /** The list `deleteItem` publishes: the items whose id differs, in their original order. */
  function RemoveAll(items: seq<Item>, id: string): (r: seq<Item>)
    ensures |r| <= |items|
  {
    if items == [] then []
    else (if items[0].id != id then [items[0]] else []) + RemoveAll(items[1..], id)
  }

  /** The left fold of `getCompletedCount`: one for every Completed item. */
  function CompletedCount(items: seq<Item>): (n: nat)
    ensures n <= |items|
  {
    if items == [] then 0
    else CompletedCount(items[..|items| - 1]) + (if items[|items| - 1].status == Completed then 1 else 0)
  }

  /** The positions of the Completed items: an independent account of the count. */
  ghost function CompletedPositions(items: seq<Item>): set<int>
  {
    set i | 0 <= i < |items| && items[i].status == Completed
  }

  /** Adding an item raises the completed count by one exactly when that item is Completed. */
  lemma CompletedCountAppend(items: seq<Item>, x: Item)
    ensures CompletedCount(items + [x]) == CompletedCount(items) + (if x.status == Completed then 1 else 0)
    ensures CompletedCount(items + [x]) == CompletedCount(items) + 1 <==> x.status == Completed
  {
  }

  /** The count is the number of positions that hold a Completed item. */
  lemma {:induction false} CompletedCountIsPositions(items: seq<Item>)
    ensures CompletedCount(items) == |CompletedPositions(items)|
  {
    if items != [] {
      var init := items[..|items| - 1];
      CompletedCountIsPositions(init);
      var last := |items| - 1;
      if items[last].status == Completed {
        assert CompletedPositions(items) == CompletedPositions(init) + {last};
      } else {
        assert CompletedPositions(items) == CompletedPositions(init);
      }
    }
  }

  /** Toggling the same id twice restores the list. */
  lemma ToggleTwice(items: seq<Item>, id: string)
    ensures ToggleAll(ToggleAll(items, id), id) == items
  {
  }

  /** Toggling an id that no item carries changes nothing. */
  lemma ToggleAbsent(items: seq<Item>, id: string)
    requires forall x :: x in items ==> x.id != id
    ensures ToggleAll(items, id) == items
  {
    assert forall i :: 0 <= i < |items| ==> items[i] in items;
  }

  /** Deleting keeps the surviving items in order: it distributes over concatenation. */
  lemma {:induction false} RemoveAllConcat(a: seq<Item>, b: seq<Item>, id: string)
    ensures RemoveAll(a + b, id) == RemoveAll(a, id) + RemoveAll(b, id)
  {
    if a == [] {
      assert a + b == b;
    } else {
      var head := if a[0].id != id then [a[0]] else [];
      assert (a + b)[0] == a[0];
      assert (a + b)[1..] == a[1..] + b;
      assert RemoveAll(a + b, id) == head + RemoveAll(a[1..] + b, id);
      RemoveAllConcat(a[1..], b, id);
      assert RemoveAll(a, id) == head + RemoveAll(a[1..], id);
    }
  }

  /** The survivors of a deletion are exactly the items whose id differs. */
  lemma {:induction false} RemoveAllMembers(items: seq<Item>, id: string)
    ensures forall x :: x in RemoveAll(items, id) <==> x in items && x.id != id
  {
    if items != [] {
      RemoveAllMembers(items[1..], id);
      assert items == [items[0]] + items[1..];
    }
  }

  /** Deleting an id that no item carries changes nothing. */
  lemma {:induction false} RemoveAbsent(items: seq<Item>, id: string)
    requires forall x :: x in items ==> x.id != id
    ensures RemoveAll(items, id) == items
  {
    if items != [] {
      assert items[0] in items;
      assert forall x :: x in items[1..] ==> x in items;
      RemoveAbsent(items[1..], id);
      assert items == [items[0]] + items[1..];
    }
  }

  /** After a deletion no item carries the id, and a second deletion changes nothing. */
  lemma RemoveAllIdempotent(items: seq<Item>, id: string)
    ensures forall x :: x in RemoveAll(items, id) ==> x.id != id
    ensures RemoveAll(RemoveAll(items, id), id) == RemoveAll(items, id)
  {
    RemoveAllMembers(items, id);
    RemoveAbsent(RemoveAll(items, id), id);
  }

  /** The store. `items` is the value of the subject; `snapshots` is every list it has published, oldest first. */
  class ItemService {
    var items: seq<Item>
    var snapshots: seq<seq<Item>>

    /** The subject always holds the last list it published. */
    ghost predicate Valid()
      reads this
    {
      |snapshots| > 0 && snapshots[|snapshots| - 1] == items
    }

    /** A fresh store holds, and has published, the empty list. */
    constructor ()
      ensures Valid()
      ensures items == [] && snapshots == [[]]
    {
      items := [];
      snapshots := [[]];
    }

    /** The current list, which is also the last snapshot, the one a new subscriber is replayed. */
    method GetItems() returns (r: seq<Item>)
      requires Valid()
      ensures r == items
      ensures r == snapshots[|snapshots| - 1]
    {
      r := items;
    }

    method AddItem(item: Item)
      requires Valid()
      modifies this
      ensures Valid()
      ensures items == old(items) + [item]
      ensures snapshots == old(snapshots) + [items]
    {
      items := items + [item];
      snapshots := snapshots + [items];
    }

    method ToggleItem(id: string)
      requires Valid()
      modifies this
      ensures Valid()
      ensures items == ToggleAll(old(items), id)
      ensures snapshots == old(snapshots) + [items]
    {
      items := ToggleAll(items, id);
      snapshots := snapshots + [items];
    }

    method DeleteItem(id: string)
      requires Valid()
      modifies this
      ensures Valid()
      ensures items == RemoveAll(old(items), id)
      ensures snapshots == old(snapshots) + [items]
    {
      items := RemoveAll(items, id);
      snapshots := snapshots + [items];
    }

    method GetCompletedCount() returns (n: nat)
      ensures n <= |items|
      ensures n == |CompletedPositions(items)|
    {
      n := CompletedCount(items);
      CompletedCountIsPositions(items);
    }
  }

  /** A caller's view: add, toggle, count and delete one item, using only the contracts above. */
  method Lifecycle()
  {
    var store := new ItemService();
    var milk := Item("1", "Buy milk", Pending);
    store.AddItem(milk);
    var now := store.GetItems();
    assert now == [milk];
    store.ToggleItem("1");
    assert store.items == [milk.(status := Completed)];
    var done := store.GetCompletedCount();
    assert CompletedPositions(store.items) == {0};
    assert done == 1;
    store.DeleteItem("1");
    now := store.GetItems();
    assert now == [];
    assert |store.snapshots| == 4;
  }
}
