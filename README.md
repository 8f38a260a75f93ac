# Iterator pattern over a vector, verified in Dafny

This project models a textbook Iterator design pattern written in C++: a
`VectorCollection` that holds its elements in insertion order and can hand out
cursors, a `VectorIterator` that walks a collection with `HasMore`, `Current`
and `Next`, and `ClientCode`, which drives a fresh cursor until it is exhausted
and outputs every element it visits.

- `cursor.dfy`, module `Cursor`: the iterator's cursor as a value. It is the
  two-state machine (in range / exhausted) behind `HasMore` and `Next`, and
  `Emitted` gives the elements the traversal protocol emits.
- `iterator.dfy`, module `IteratorPattern`: the two classes with their state
  updated in place, plus the client loop and the program's scenario.
  `VectorCollection.items` is a `seq` that `Add` reassigns. `VectorIterator`
  holds a `const` reference to its collection and a `nat` position.
  `Valid()` (position at most the size) is its class invariant, and
  `Remaining()` is the abstract view: the elements not yet visited.

The iterator holds a reference to the collection object, not a copy of its
elements, as the C++ iterator holds a reference to the `std::vector` itself
(`Iterator/Iterator.cpp:26`). Appending to a vector does not invalidate a
reference to the vector object, so in the code an `Add` during a traversal is
well defined: the live cursor stays in range and later sees the new element.
The model follows the code here, and `AddExtendsLiveIterator` states it. Only
destroying the collection while a cursor is alive is undefined, and that has
no counterpart in a garbage-collected model.

## Model

| member | source | states |
|---|---|---|
| IteratorPattern.VectorCollection.constructor | Iterator/Iterator.cpp:53 | a new collection holds no elements |
| IteratorPattern.VectorCollection.Add | Iterator/Iterator.cpp:56-58 | the length grows by exactly one, the last element is `item`, and every earlier element is unchanged |
| IteratorPattern.VectorCollection.CreateIterator | Iterator/Iterator.cpp:60-62 | returns a fresh cursor bound to this collection at position 0, whose remaining elements are all of the collection's items; the collection is not modified (no `modifies` clause, as the C++ method is `const`) |
| IteratorPattern.VectorIterator.constructor | Iterator/Iterator.cpp:30-31 | the cursor refers to the given collection, starts at position 0 and satisfies the invariant `position <= size` |
| IteratorPattern.VectorIterator.HasMore | Iterator/Iterator.cpp:45-47 | true exactly when elements remain to be visited, i.e. exactly in the cursor's in-range state `position < size` |
| IteratorPattern.VectorIterator.Current | Iterator/Iterator.cpp:33-35 | only callable when `HasMore()` holds; returns the first element not yet visited, which is an element of the collection |
| IteratorPattern.VectorIterator.Next | Iterator/Iterator.cpp:37-43 | returns whether the cursor was in range; in range it moves one position on and the remaining elements lose their head; exhausted it changes nothing; the invariant `position <= size` is kept; only this cursor changes, so other cursors over the same collection are unaffected |
| IteratorPattern.AddExtendsLiveIterator | Iterator/Iterator.cpp:26-27 | after an `Add` to its collection, a valid cursor stays valid and its remaining elements are the old ones followed by the new element |
| IteratorPattern.ClientCode | Iterator/Iterator.cpp:66-72 | the traversal loop visits exactly the collection's items, in insertion order, each once (none for an empty collection), and equals what the protocol emits from position 0 |
| IteratorPattern.RunExample | Iterator/Iterator.cpp:74-84 | the program's three elements, added in order, are output in that order with nothing missing or extra |
| Cursor.RunClampsAtEnd | Iterator/Iterator.cpp:37-47 | from any position within the vector, `n` calls of `Next` reach position `min(pos + n, size)`: exactly `size - pos` calls exhaust the cursor, and further calls are idempotent no-ops |
| Cursor.EmittedIsSuffix | Iterator/Iterator.cpp:66-72 | driving `HasMore`/`Current`/`Next` from position `p` emits exactly the elements from `p` on, in order; from an exhausted cursor it emits nothing |

## Left out

- The abstract interfaces `Iterator<T>` and `IterableCollection<T>` (`Iterator/Iterator.cpp:6-20`) have no behaviour of their own, only virtual signatures. Dafny traits are not used in this model. Each interface is represented by its one implementation, and `ClientCode` takes a `VectorCollection<string>` rather than any iterable collection.
- Console output: `ClientCode` returns the sequence of visited elements instead of writing each one on its own line, and `RunExample` returns that sequence instead of printing the banner line and exiting with status 0.
- Text encoding of the string literals: they are plain Dafny strings.
- `std::unique_ptr` ownership and the virtual destructors: Dafny references are garbage collected, so freeing a cursor or collection has no counterpart.
- Destroying a collection while a cursor over it is alive, which is undefined in the code, cannot happen in the model.
- `size_t` bounds: positions and sizes are unbounded naturals. The cursor never exceeds the vector's size, so wrap-around cannot occur in the code either.
