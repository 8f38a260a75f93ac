/** The Iterator pattern over a vector: an append-only collection, a cursor
    that borrows it, and a client that walks the collection through the
    cursor alone. */
module IteratorPattern {
  import Cursor

  /** An ordered, append-only container of elements, kept in insertion
      order, duplicates allowed. */
  class VectorCollection<T> {
    var items: seq<T>

    /** A collection starts out empty. */
    constructor ()
      ensures items == []
    {
      items := [];
    }

    /** Appends `item` after every element already held. */
    method Add(item: T)
      modifies this
      ensures items == old(items) + [item]
      ensures |items| == |old(items)| + 1 && items[|items| - 1] == item
      ensures items[..|old(items)|] == old(items)
    {
      items := items + [item];
    }

    /** A fresh cursor over this collection, at its first element. The
        collection itself is left as it is. */
    method CreateIterator() returns (it: VectorIterator<T>)
      ensures fresh(it) && it.collection == this && it.position == 0
      ensures it.Valid() && it.Remaining() == items
    {
      it := new VectorIterator(this);
    }
  }

  /** A cursor over a VectorCollection. It holds a reference to the
      collection, not a copy of its elements, so it sees whatever the
      collection holds at the time of each query. */
  class VectorIterator<T> {
    const collection: VectorCollection<T>
    var position: nat

    /** The class invariant: the cursor is within the vector or just past
        its end. */
    ghost predicate Valid()
      reads this, collection
    {
      position <= |collection.items|
    }

    /** The elements not yet visited, in order. */
    ghost function Remaining(): seq<T>
      reads this, collection
      requires Valid()
    {
      collection.items[position..]
    }

    constructor (collection: VectorCollection<T>)
      ensures this.collection == collection && position == 0
      ensures Valid() && Remaining() == collection.items
    {
      this.collection := collection;
      position := 0;
    }

    /** Whether Current() may be called: some element is not yet visited. */
    function HasMore(): (more: bool)
      reads this, collection
      requires Valid()
      ensures more <==> Remaining() != []
      ensures more == Cursor.InRange(position, |collection.items|)
    {
      position < |collection.items|
    }

    /** The element under the cursor: the first one not yet visited. */
    function Current(): (x: T)
      reads this, collection
      requires Valid() && HasMore()
      ensures x == Remaining()[0]
      ensures x in collection.items
    {
      collection.items[position]
    }

    /** Moves the cursor one element on and reports true; on an exhausted
        cursor does nothing and reports false. */
    method Next() returns (advanced: bool)
      requires Valid()
      modifies this
      ensures Valid()
      ensures advanced == old(HasMore())
      ensures position == Cursor.Step(old(position), |collection.items|)
      ensures Remaining() == if advanced then old(Remaining())[1..] else old(Remaining())
    {
      if HasMore() {
        position := position + 1;
        return true;
      }
      return false;
    }
  }

  /** Adding to a collection while a cursor over it is alive keeps that
      cursor valid, and the new element becomes its last one to visit. */
  twostate lemma AddExtendsLiveIterator<T>(it: VectorIterator<T>, item: T)
    requires old(it.Valid())
    requires unchanged(it)
    requires it.collection.items == old(it.collection.items) + [item]
    ensures it.Valid()
    ensures it.Remaining() == old(it.Remaining()) + [item]
  {
    var before := old(it.collection.items);
    assert it.Remaining() == (before + [item])[it.position..];
    assert (before + [item])[it.position..] == before[it.position..] + [item];
  }

  /** Walks `collection` through a fresh cursor and returns, in place of
      printing them, the elements it visits: exactly the collection's items,
      in insertion order, each once. */
  method ClientCode(collection: VectorCollection<string>) returns (out: seq<string>)
    ensures out == collection.items
    ensures out == Cursor.Emitted(collection.items, 0)
  {
    var it := collection.CreateIterator();
    out := [];
    while it.HasMore()
      invariant fresh(it) && it.collection == collection && it.Valid()
      invariant out == collection.items[..it.position]
      decreases |collection.items| - it.position
    {
      out := out + [it.Current()];
      var _ := it.Next();
    }
    Cursor.EmittedIsSuffix(collection.items, 0);
  }

  /** The program's scenario: three elements added in order, then walked. */
  method RunExample() returns (out: seq<string>)
    ensures out == ["Елемент 1", "Елемент 2", "Елемент 3"]
  {
    var collection := new VectorCollection<string>();
    collection.Add("Елемент 1");
    collection.Add("Елемент 2");
    collection.Add("Елемент 3");
    out := ClientCode(collection);
  }
}
