/** The LRU class: list nodes that are moved and updated in place, and a map from keys to nodes. */
module LruCaches {
  import opened LruLists

  class Item {
    const key: int
    var value: int

    constructor (key: int, value: int)
      ensures this.key == key && this.value == value
    {
      this.key := key;
      this.value := value;
    }
  }

  ghost function Entries(items: seq<Item>): (r: seq<Entry>)
    reads set i | 0 <= i < |items| :: items[i]
    ensures |r| == |items|
    ensures forall i :: 0 <= i < |items| ==> r[i] == Entry(items[i].key, items[i].value)
  {
    if items == [] then [] else [Entry(items[0].key, items[0].value)] + Entries(items[1..])
  }

  predicate OneKeyEach(items: seq<Item>) {
    forall i, j :: 0 <= i < j < |items| ==> items[i].key != items[j].key
  }

  /** The list without a node: where splice and pop_back take it out. */
  function Unlink(items: seq<Item>, item: Item): (r: seq<Item>)
    ensures forall x :: x in r ==> x in items
    ensures item in items ==> |r| == |items| - 1
  {
    if items == [] then [] else if items[0] == item then items[1..] else [items[0]] + Unlink(items[1..], item)
  }

  lemma {:induction false} UnlinkKeeps(items: seq<Item>, item: Item)
    requires OneKeyEach(items) && item in items
    ensures OneKeyEach(Unlink(items, item)) && item !in Unlink(items, item)
    ensures forall x :: x in items && x != item ==> x in Unlink(items, item)
  {
    if items[0] == item {
      assert items == [items[0]] + items[1..];
    } else {
      assert items == [items[0]] + items[1..];
      UnlinkKeeps(items[1..], item);
      var t := Unlink(items[1..], item);
      hide Unlink;
      forall i | 0 <= i < |t| ensures t[i].key != items[0].key {
        assert t[i] in items[1..];
      }
    }
  }

  lemma {:induction false} UnlinkEntries(items: seq<Item>, item: Item)
    requires OneKeyEach(items) && item in items
    ensures Entries(Unlink(items, item)) == Without(Entries(items), item.key)
  {
    assert Entries(items)[1..] == Entries(items[1..]);
    if items[0] != item {
      assert items == [items[0]] + items[1..];
      UnlinkEntries(items[1..], item);
      hide Unlink, Without;
      KeyDiffers(items, item);
    }
  }

  lemma KeyDiffers(items: seq<Item>, item: Item)
    requires OneKeyEach(items) && item in items && items[0] != item
    ensures items[0].key != item.key
  {
  }

  lemma {:induction false} LookEntries(items: seq<Item>, item: Item)
    requires OneKeyEach(items) && item in items
    ensures Look(Entries(items), item.key) == Hit(item.value)
  {
    assert Entries(items)[1..] == Entries(items[1..]) || items == [];
    if items[0] != item {
      LookEntries(items[1..], item);
    }
  }

  lemma {:induction false} LookNothing(items: seq<Item>, key: int)
    requires forall i :: 0 <= i < |items| ==> items[i].key != key
    ensures Look(Entries(items), key) == Miss
  {
    LookMeans(Entries(items), key);
  }

  lemma EraseSize(m: map<int, Item>, key: int)
    requires key in m
    ensures |m - {key}| == |m| - 1
  {
    assert (m - {key}).Keys == m.Keys - {key};
  }

  /** Every key maps to its own list node, and the other way around. */
  ghost predicate LinkedTo(items: seq<Item>, kvs: map<int, Item>) {
    && OneKeyEach(items) && |kvs| == |items|
    && (forall x :: x in items ==> x.key in kvs && kvs[x.key] == x)
    && (forall k :: k in kvs ==> kvs[k] in items && kvs[k].key == k)
  }

  lemma MoveKeeps(items: seq<Item>, kvs: map<int, Item>, item: Item)
    requires LinkedTo(items, kvs) && item in items
    ensures var r := [item] + Unlink(items, item);
            LinkedTo(r, kvs) && |r| == |items| && forall x :: x in r <==> x in items
  {
    UnlinkKeeps(items, item);
    hide Unlink;
    assert forall x :: x in Unlink(items, item) ==> x in items;
  }

  lemma EntriesMove(items: seq<Item>, kvs: map<int, Item>, item: Item)
    requires LinkedTo(items, kvs) && item in items
    ensures Entries([item] + Unlink(items, item)) == [Entry(item.key, item.value)] + Without(Entries(items), item.key)
  {
    UnlinkEntries(items, item);
    hide Unlink, Without;
    assert ([item] + Unlink(items, item))[1..] == Unlink(items, item);
  }

  lemma ListedItem(items: seq<Item>, kvs: map<int, Item>, key: int)
    requires LinkedTo(items, kvs) && key in kvs
    ensures OneKeyEach(items) && kvs[key] in items && kvs[key].key == key && Distinct(Entries(items))
    ensures forall x :: x in items && x != kvs[key] ==> x.key != key
  {
  }

  lemma {:induction false} WithoutSame(l: seq<Entry>, r: seq<Entry>, key: int)
    requires |l| == |r| && Distinct(l)
    requires forall i :: 0 <= i < |l| ==> l[i].key == r[i].key && (l[i].key != key ==> l[i] == r[i])
    ensures Without(l, key) == Without(r, key)
  {
    if l == [] {
    } else {
      if l[0].key == key {
        assert l[1..] == r[1..];
      } else {
        WithoutSame(l[1..], r[1..], key);
      }
    }
  }

  lemma InsertKeeps(items: seq<Item>, kvs: map<int, Item>, item: Item)
    requires LinkedTo(items, kvs) && item.key !in kvs
    ensures LinkedTo([item] + items, kvs[item.key := item])
  {
    assert forall x :: x in [item] + items <==> x == item || x in items;
  }

  lemma SameCount(items: seq<Item>, kvs: map<int, Item>)
    requires LinkedTo(items, kvs)
    ensures |kvs| == |items|
  {
  }

  /** pop_back, and erasing the key of the last node. */
  lemma PopBackKeeps(items: seq<Item>, kvs: map<int, Item>)
    requires LinkedTo(items, kvs) && items != []
    ensures var n := |items| - 1; LinkedTo(items[..n], kvs - {items[n].key})
  {
    var n := |items| - 1;
    EraseSize(kvs, items[n].key);
    assert items == items[..n] + [items[n]];
  }

  class LRU {
    const cap: nat
    var lru: seq<Item>        // most recent first
    var kvs: map<int, Item>

    ghost predicate Linked()
      reads this
    {
      LinkedTo(lru, kvs)
    }

    ghost predicate Valid()
      reads this
    {
      Linked() && |lru| <= cap
    }

    ghost function List(): seq<Entry>
      reads this, set i | 0 <= i < |lru| :: lru[i]
    {
      Entries(lru)
    }

    constructor (cap: nat)
      ensures this.cap == cap && Valid() && List() == []
    {
      this.cap := cap;
      lru := [];
      kvs := map[];
    }

    /** splice: a node of the list moves to the front. */
    method MoveToFront(item: Item)
      requires Linked() && item in lru
      modifies this`lru
      ensures Linked() && |lru| == |old(lru)|
      ensures forall x :: x in lru <==> x in old(lru)
      ensures List() == [Entry(item.key, item.value)] + Without(old(List()), item.key)
    {
      hide LinkedTo, Unlink, OneKeyEach;
      MoveKeeps(lru, kvs, item);
      EntriesMove(lru, kvs, item);
      lru := [item] + Unlink(lru, item);
    }

    method Get(key: int) returns (found: bool, value: int)
      requires Valid()
      modifies this`lru
      ensures Valid() && List() == Do(old(List()), cap, Call.Get(key))
      ensures found == Look(old(List()), key).Hit?
      ensures found ==> Look(old(List()), key) == Hit(value)
    {
      if key !in kvs {
        LookNothing(lru, key);
        return false, 0;
      }
      var item := kvs[key];
      LookEntries(lru, item);
      found, value := true, item.value;
      MoveToFront(item);
    }

    /** The branch of Put for a key that is listed. */
    method Replace(key: int, value: int)
      requires Valid() && key in kvs
      modifies this`lru, kvs[key]
      ensures Valid() && List() == Do(old(List()), cap, Call.Put(key, value))
    {
      hide LinkedTo, Without, Look, OneKeyEach;
      var item := kvs[key];
      ListedItem(lru, kvs, key);
      LookEntries(lru, item);
      label before:
      item.value := value;
      WithoutSame(old@before(List()), List(), key);
      MoveToFront(item);
    }

    method PopBack()
      requires Linked() && lru != []
      modifies this
      ensures Linked() && |lru| == |old(lru)| - 1
      ensures List() == old(List())[..|old(lru)| - 1]
    {
      PopBackKeeps(lru, kvs);
      hide LinkedTo;
      var last := lru[|lru| - 1];
      lru := lru[..|lru| - 1];
      kvs := kvs - {last.key};
    }

    method PushFront(key: int, value: int)
      requires Linked() && key !in kvs
      modifies this
      ensures Linked() && |kvs| == |lru| == |old(lru)| + 1
      ensures List() == [Entry(key, value)] + old(List())
    {
      var item := new Item(key, value);
      InsertKeeps(lru, kvs, item);
      hide LinkedTo;
      lru := [item] + lru;
      kvs := kvs[key := item];
      assert |kvs| == |lru| by { SameCount(lru, kvs); }
    }

    /** The branch of Put for a new key. */
    method Insert(key: int, value: int)
      requires Valid() && key !in kvs
      modifies this
      ensures Valid() && List() == Do(old(List()), cap, Call.Put(key, value))
    {
      LookNothing(lru, key);
      hide Look, LinkedTo;
      PushFront(key, value);
      if |kvs| > cap {
        PopBack();
      }
    }

    method Put(key: int, value: int)
      requires Valid()
      modifies this, set i | 0 <= i < |lru| :: lru[i]
      ensures Valid() && List() == Do(old(List()), cap, Call.Put(key, value))
    {
      hide Do;
      if key in kvs {
        Replace(key, value);
      } else {
        Insert(key, value);
      }
    }
  }
}
