/** The item lists of `src/runtime/cJSON.c`: doubly linked, the first item's `prev` being the last. */
module JsonList {

  class Item {
    var next: Item?
    var prev: Item?
    var child: Item?

    /** The items below this one, in order. */
    ghost var items: seq<Item>

    constructor ()
      ensures next == prev == child == null && items == [] && Valid()
    {
      next, prev, child, items := null, null, null, [];
    }

    ghost predicate Valid()
      reads this, items
    {
      this !in items && Linked(child, items)
    }

    /** `get_array_item` */
    method GetArrayItem(index: nat) returns (r: Item?)
      requires Valid()
      ensures r == if index < |items| then items[index] else null
    {
      r := child;
      var i := index;
      ghost var k := 0;
      while r != null && i > 0
        invariant k <= |items| && k + i == index
        invariant r == if k < |items| then items[k] else null
      {
        At(child, items, k);
        i := i - 1;
        r := r.next;
        k := k + 1;
      }
    }

    /** `add_item_to_array`: a new last item.  An item that still points onward is accepted, but leaves
        the list without an end unless it is the first. */
    method AddItem(item: Item?) returns (ok: bool)
      requires Valid() && (item != null ==> item !in items)
      modifies this`child, this`items, items, item
      ensures ok <==> item != null && item != this
      ensures !ok ==> child == old(child) && items == old(items) && Valid()
      ensures ok ==> items == old(items) + [item] && this !in items
      ensures ok ==> (Valid() <==> old(items) == [] || old(item.next) == null)
      ensures forall x | x in old(items) :: unchanged(x`child) && unchanged(x`items)
    {
      if item == null || item == this { return false; }
      ghost var was, n := items, |items|;
      if n > 0 { At(child, was, n - 1); }
      items := items + [item];
      if child == null {
        child := item;
        item.prev := item;
        item.next := null;
      } else if child.prev != null {
        child.prev.next := item;
        item.prev := child.prev;
        child.prev := item;
      }
      assert items[n] == item;
      forall i | 0 <= i < n ensures NextLinked(items, i) {
        assert old(NextLinked(was, i));
        assert items[i] == was[i];
      }
      forall i | 0 < i <= n ensures PrevLinked(items, i) {
        assert i < n ==> old(PrevLinked(was, i));
      }
      assert item.next != null ==> !NextLinked(items, n);
      return true;
    }

    /** `cJSON_DetachItemViaPointer` */
    method DetachItem(item: Item?) returns (r: Item?)
      requires Valid() && (item != null ==> item in items || (item.prev == null && item != child))
      modifies this`child, this`items, items, item
      ensures Valid()
      ensures item == null || item !in old(items) ==> r == null && items == old(items) && child == old(child)
      ensures item != null && item in old(items) ==>
        r == item && r.next == null && r.prev == null && item !in items
        && exists k :: 0 <= k < |old(items)| && old(items)[k] == item && items == old(items)[..k] + old(items)[k + 1..]
    {
      if item != null && item in items { Neighbours(child, items, item); }
      if item == null || (item != child && item.prev == null) { return null; }
      ghost var k :| 0 <= k < |items| && items[k] == item;
      Unlink(item, k);
      return item;
    }

    /** The relinking around the `k`th item. */
    method Unlink(item: Item, ghost k: nat)
      requires Valid() && k < |items| && items[k] == item
      modifies this`child, this`items, items
      ensures Valid() && items == old(items)[..k] + old(items)[k + 1..] && item !in items
      ensures item.next == null && item.prev == null
    {
      ghost var was := items;
      At(child, items, k);
      if item != child {
        item.prev.next := item.next;
      }
      if item.next != null {
        item.next.prev := item.prev;
      }
      if item == child {
        child := item.next;
      } else if item.next == null {
        child.prev := item.prev;
      }
      item.prev := null;
      item.next := null;
      items := was[..k] + was[k + 1..];
      Detached(was, k, items);
      forall i | 0 <= i < |items| ensures NextLinked(items, i) {
        var j := if i < k then i else i + 1;
        assert old(NextLinked(was, j));
      }
      forall i | 0 < i < |items| ensures PrevLinked(items, i) {
        var j := if i < k then i else i + 1;
        assert old(PrevLinked(was, j));
      }
    }

    /** `cJSON_InsertItemInArray` */
    method InsertItem(which: int, newitem: Item?) returns (ok: bool)
      requires Valid() && (newitem != null ==> newitem !in items && newitem != this)
      modifies this`child, this`items, items, newitem
      ensures ok <==> which >= 0 && newitem != null
      ensures !ok ==> Valid() && items == old(items)
      ensures ok ==> this !in items
      ensures ok && which < |old(items)| ==> Valid() && items == old(items)[..which] + [newitem] + old(items)[which..]
      ensures ok && which >= |old(items)| ==>
        items == old(items) + [newitem] && (Valid() <==> old(items) == [] || old(newitem.next) == null)
    {
      if which < 0 || newitem == null { return false; }
      var after := GetArrayItem(which);
      if after == null {
        ok := AddItem(newitem);
        return;
      }
      ghost var was := items;
      At(child, items, which);
      if after != child && after.prev == null { return false; }
      LinkBefore(after, newitem, which);
      return true;
    }

    /** The relinking in front of the `which`th item. */
    method LinkBefore(after: Item, newitem: Item, ghost which: nat)
      requires Valid() && which < |items| && items[which] == after && newitem !in items && newitem != this
      modifies this`child, this`items, items, newitem
      ensures Valid() && items == old(items)[..which] + [newitem] + old(items)[which..]
    {
      ghost var was := items;
      At(child, items, which);
      newitem.next := after;
      newitem.prev := after.prev;
      after.prev := newitem;
      if after == child {
        child := newitem;
      } else {
        newitem.prev.next := newitem;
      }
      items := was[..which] + [newitem] + was[which..];
      Inserted(was, which, newitem, items);
      forall i | 0 <= i < |items| ensures NextLinked(items, i) {
        var j := if i < which then i else i - 1;
        assert i != which ==> old(NextLinked(was, j));
      }
      forall i | 0 < i < |items| ensures PrevLinked(items, i) {
        var j := if i < which then i else i - 1;
        assert i != which && j > 0 ==> old(PrevLinked(was, j));
      }
    }

    /** `cJSON_ReplaceItemViaPointer` */
    method ReplaceItem(item: Item?, replacement: Item?) returns (ok: bool)
      requires Valid() && (item != null ==> item in items)
      requires replacement != null ==> replacement != this && (replacement !in items || replacement == item)
      modifies this`child, this`items, items, replacement
      ensures Valid()
      ensures ok <==> item != null && replacement != null && old(child) != null
      ensures !ok ==> items == old(items)
      ensures ok ==> exists k :: 0 <= k < |old(items)| && old(items)[k] == item && items == old(items)[k := replacement]
      ensures ok && replacement != item ==> item !in items && item.next == null && item.prev == null
    {
      if child == null || replacement == null || item == null { return false; }
      ghost var was := items;
      ghost var k :| 0 <= k < |items| && items[k] == item;
      At(child, items, k);
      if replacement == item {
        assert was[k := replacement] == was;
        return true;
      }
      replacement.next := item.next;
      replacement.prev := item.prev;
      if replacement.next != null {
        replacement.next.prev := replacement;
      }
      if child == item {
        if child.prev == child {
          replacement.prev := replacement;
        }
        child := replacement;
      } else {
        if replacement.prev != null {
          replacement.prev.next := replacement;
        }
        if replacement.next == null {
          child.prev := replacement;
        }
      }
      item.next := null;
      item.prev := null;
      items := was[k := replacement];
      forall i | 0 <= i < |items| ensures NextLinked(items, i) { assert old(NextLinked(was, i)); }
      forall i | 0 < i < |items| ensures PrevLinked(items, i) { assert old(PrevLinked(was, i)); }
      return true;
    }
  }

  /** `child` heads the chain of exactly `items`: no item twice, each pointing to the one after it and
      to the one before it, the first back to the last. */
  ghost predicate Linked(child: Item?, items: seq<Item>)
    reads items
  {
    && (child == null <==> items == [])
    && (items != [] ==> child == items[0] && child.prev == items[|items| - 1])
    && (forall i, j | 0 <= i < j < |items| :: items[i] != items[j])
    && (forall i | 0 <= i < |items| :: NextLinked(items, i))
    && (forall i | 0 < i < |items| :: PrevLinked(items, i))
  }

  ghost predicate NextLinked(items: seq<Item>, i: nat)
    requires i < |items|
    reads items
  {
    items[i].next == if i + 1 < |items| then items[i + 1] else null
  }

  ghost predicate PrevLinked(items: seq<Item>, i: nat)
    requires 0 < i < |items|
    reads items
  {
    items[i].prev == items[i - 1]
  }

  /** The place of the `k`th item in the chain. */
  lemma At(child: Item?, items: seq<Item>, k: nat)
    requires Linked(child, items) && k < |items|
    ensures items[k] == child <==> k == 0
    ensures items[k].next == if k + 1 < |items| then items[k + 1] else null
    ensures items[k].prev == if k > 0 then items[k - 1] else items[|items| - 1]
    ensures forall i | 0 <= i < |items| && i != k :: items[i] != items[k]
  {
    assert NextLinked(items, k);
    assert k > 0 ==> PrevLinked(items, k);
  }

  lemma Neighbours(child: Item?, items: seq<Item>, item: Item)
    requires Linked(child, items) && item in items
    ensures item.prev != null
  {
    var k :| 0 <= k < |items| && items[k] == item;
    At(child, items, k);
  }

  lemma Detached(was: seq<Item>, k: nat, items: seq<Item>)
    requires k < |was| && items == was[..k] + was[k + 1..]
    ensures |items| == |was| - 1
    ensures forall i | 0 <= i < |items| :: items[i] == if i < k then was[i] else was[i + 1]
  {
  }

  lemma Inserted(was: seq<Item>, k: nat, item: Item, items: seq<Item>)
    requires k <= |was| && items == was[..k] + [item] + was[k..]
    ensures |items| == |was| + 1
    ensures forall i | 0 <= i < |items| :: items[i] == if i < k then was[i] else if i == k then item else was[i - 1]
  {
  }
}
