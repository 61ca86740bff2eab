# Vector: a verified model of the `collections` List contract

The `collections` package declares two interfaces, `Collection[T]` and
`List[T]`. Their doc comments say what each operation must do. It also
declares `vector`, a growable, array-like implementation of `List` whose
elements are reached by an integer index. The package gives the contracts
only; `vector` has no body yet.

This project models the vector as the sequence of its elements
(`type Vector<T> = seq<T>`). Each operation is a pure function of the state
before the call. A mutating operation whose Go method returns nothing
(`InsertAt`, `Clear`) returns only the new list. One whose Go method also
returns a value (`Add`, `Remove`, `AddAll`, `RemoveAll`, `RetainAll`, `Set`,
`RemoveAt`) returns `Step(list, result)`: the new list and that value.
A query (`Size`, `IsEmpty`, `Contains`, `ToSlice`, `Get`, `IndexOf`, ...)
returns only its value. The `ensures` clauses restate
the doc comments: size and emptiness, membership, positional get and set,
insertion with right shift, removal with left shift, first and last index
search, single and bulk removal, and clear. Elements are compared with
Dafny's equality on `T`, which is total and under which every value equals
itself; it stands for the element equality the doc comments write as `==`.

- `vector.dfy`, module `Vector`: the vector's operations and the round trips
  between them (insert then remove, remove then re-insert, set then set back).
- `sublist.dfy`, module `SubList`: the view `SubList(from, to)` returns. It is
  a window `View(offset, size)` over the parent list. Every view index `i` is
  translated to the parent's index `offset + i`. A `Set` through the view
  writes the parent, and a `Set` on the parent inside the window shows
  through the view.
- `operations.dfy`, module `Operations`: histories of mutating calls. It
  shows which calls grow or shrink the vector. Along a run of positional
  calls the size is the number added minus the number removed. Appending the
  elements of `ToSlice()` one at a time to an empty vector rebuilds it.

`Vector.Size` is the length of the element sequence. `IsEmpty`, `Grows`,
`Shrinks`, `RunSize` and the index ranges of the positional operations are
stated through it.

## Model

| member | source | states |
|---|---|---|
| Vector.Size | collections/interfaces.go:4-7 | The size is the length of the element sequence, so the valid indices are `[0, Size())`. It is 0 exactly when there are no elements. |
| Vector.IsEmpty | collections/interfaces.go:9-11 | The vector is empty exactly when its size is 0. |
| Vector.Contains | collections/interfaces.go:13-18 | True if and only if some position holds an element equal to the item. |
| Vector.ToSlice | collections/interfaces.go:20-25 | The slice has the vector's size and holds its elements in index order. |
| Vector.Add | collections/interfaces.go:27-32 | Appends the item: size grows by one, earlier elements keep their places, the item is last. The result is true, and it is true exactly when the collection changed (a vector admits duplicates). |
| Vector.AddThenContains | collections/interfaces.go:27-32 | After `Add(x)` the vector contains `x`. Its first occurrence is the old one if there was one, else the new last position. |
| Vector.Remove | collections/interfaces.go:34-38 | Reports true exactly when the item was present. Then it removes the first equal element, the size shrinks by one, and the rest close up. Otherwise the vector is unchanged. In both cases the element multiset loses one copy of the item. |
| Vector.ContainsAll | collections/interfaces.go:40-43 | True if and only if every element of the argument is contained in the vector. |
| Vector.AddAll | collections/interfaces.go:45-49 | The element multiset gains exactly the argument's elements. Size grows by the argument's length. The result is true exactly when the collection changed. |
| Vector.Select | collections/interfaces.go:51-61 | Every element it keeps has `Contains` in the argument equal to `keep`. It is never longer than the input, and it keeps everything exactly when every element matches, in which case it returns the input. |
| Vector.SelectCount | collections/interfaces.go:51-61 | Each value's count after the selection is its count before when its membership matches `keep`, and 0 otherwise. |
| Vector.RemoveAll | collections/interfaces.go:51-55 | Afterwards no element is contained in the argument. Elements not in the argument keep their counts. The result is true iff the collection changed, iff it shrank, iff some element was in the argument. |
| Vector.RetainAll | collections/interfaces.go:57-61 | Afterwards every element is contained in the argument. Elements in the argument keep their counts. The result is true iff the collection changed, iff it shrank, iff some element was not in the argument. |
| Vector.Clear | collections/interfaces.go:63-65 | The collection is empty afterwards. |
| Vector.Get | collections/interfaces.go:75-78 | For an index in `[0, Size())`, returns the element at that position. The searches agree with it: the element is contained, its first occurrence is at or before the index and its last at or after. |
| Vector.Set | collections/interfaces.go:80-85 | Returns the element previously at the index. Afterwards that position holds the new item, the size is unchanged and every other position is unchanged. |
| Vector.SetThenSetBack | collections/interfaces.go:80-85 | Setting back the value `Set` returned restores the original list. |
| Vector.InsertAt | collections/interfaces.go:87-92 | For `0 <= index <= Size()`, the size grows by one and the item is at the index. Earlier elements stay put. Each element formerly at `j >= index` is now at `j + 1`. |
| Vector.RemoveAt | collections/interfaces.go:94-98 | Returns the element at the index and the size shrinks by one. Earlier elements stay put. Each element formerly at `j > index` is now at `j - 1`. |
| Vector.InsertAtThenRemoveAt | collections/interfaces.go:87-98 | Removing what was just inserted at an index gives back the original list and the inserted item. |
| Vector.RemoveAtThenInsertAt | collections/interfaces.go:87-98 | Re-inserting the removed element at its old index restores the list. |
| Vector.RemoveAtThenGet | collections/interfaces.go:94-98 | After `RemoveAt(i)`, `Get(i)` returns what was at `i + 1`. |
| Vector.IndexOf | collections/interfaces.go:100-104 | Returns -1 exactly when no element equals the item. Otherwise it returns the lowest index holding the item. |
| Vector.LastIndexOf | collections/interfaces.go:106-110 | Returns -1 exactly when no element equals the item. Otherwise it returns the highest index holding the item. |
| Vector.IndexOfBeforeLastIndexOf | collections/interfaces.go:100-110 | The two searches agree on absence. When the item is found, the first index is at most the last. When the two coincide, the item occurs at most once: exactly once when found, and not at all when both are -1. |
| SubList.Size | collections/interfaces.go:4-7 | The view's size is the number of elements read through it, and the window it spans ends within the parent. |
| SubList.SubList | collections/interfaces.go:112-118 | For `0 <= from <= to <= Size()`, the view is backed by the parent's positions `[from, to)`: it starts at `from`, lies inside the parent, has size `to - from`, and reads as the parent's elements `[from, to)`. |
| SubList.SubListOf | collections/interfaces.go:112-118 | A view of a view is a window of the same parent, starting at the outer view's start plus `from`. It reads as the outer view's elements `[from, to)`. |
| SubList.ToSlice | collections/interfaces.go:112-118 | The view's element `i` is the parent's element `offset + i`. |
| SubList.Get | collections/interfaces.go:112-113 | `Get(i)` on the view is the view's element `i`, which is the parent's `Get(offset + i)`. |
| SubList.Set | collections/interfaces.go:112-113 | A `Set` through the view returns the previous element. It writes the parent at `offset + i`, where both the parent and the view now read the item. The parent's size and other positions are unchanged, and the view stays valid. |
| SubList.IndexOf | collections/interfaces.go:112-113 | Searching the view finds the lowest position in the window holding the item, as a view index, or -1 when the window has none. |
| SubList.ParentSetSeenThroughView | collections/interfaces.go:112-113 | A `Set` on the parent keeps the view valid. Inside the window it shows through the view at the translated index and nowhere else in the view. Outside the window the view reads the same as before. |
| SubList.SubListSetsReflected | collections/interfaces.go:112-113 | For `SubList(from, to)`, a `Set(i, x)` through the view makes the parent read `x` at `from + i`, and a `Set(from + i, x)` on the parent makes the view read `x` at `i`. |
| SubList.NestedSetReflected | collections/interfaces.go:112-113 | A `Set(i, x)` through a view of a view is seen through the outer view at `from + i`. |
| SubList.WholeAndEmptyViews | collections/interfaces.go:112-118 | `SubList(0, Size())` reads exactly like the list. `SubList(k, k)` is empty. |
| Operations.Grows | collections/vector.go:3-5 | An admitted call makes the vector larger exactly when it is `Add`, `InsertAt` or a non-empty `AddAll`. `Add` and `InsertAt` always grow it by exactly one, since there is no capacity limit. |
| Operations.Shrinks | collections/vector.go:5 | An admitted call makes the vector smaller exactly when it is `RemoveAt`, a `Remove` of a present item, a `Clear` of a non-empty vector, or a `RemoveAll`/`RetainAll` that meets an element to drop. |
| Operations.RunSize | collections/vector.go:3-5 | After any admitted run of `Add`, `InsertAt`, `RemoveAt` and `Set`, the size is the starting size plus elements added minus elements removed. |
| Operations.ReplayAdds | collections/vector.go:3-5 | Adding elements one at a time always succeeds. The vector ends as the starting elements followed by the added ones, in order, so its size grows by their number. |
| Operations.ToSliceRoundTrip | collections/interfaces.go:20-25 | Adding the elements of `ToSlice()` one by one to an empty vector rebuilds the same vector. |

## Left out

- Element equality: the model assumes an equality on `T` that is total and reflexive. Go's `==` is neither for every element type: `NaN == NaN` is false for floats, and comparing values of an incomparable type through `any` panics. For such elements `AddThenContains` and the `Contains` clause of `Get` do not describe Go's behaviour.
- `Equals` (collections/interfaces.go:67-70): its doc comment does not say what makes two collections equal, so no meaning is invented for it.
- Vector.AddAll: states only the element multiset, the size and the change flag. The doc comment does not say where the new elements go. The model appends them, but the contract does not promise that.
- Vector.RemoveAll: does not state that the kept elements keep their relative order, because the doc comment promises only which elements remain.
- Vector.RetainAll: does not state that the kept elements keep their relative order, for the same reason.
- Out-of-range indices: the source does not say what happens, so the valid ranges are preconditions, not error results.
- `Size()` saturating at `math.MaxInt` (collections/interfaces.go:5): integers here are unbounded and that limit is a platform bound.
- Capacity, growth factor and buffer reallocation: the source has no buffer, only a size that grows and shrinks, so a sequence abstracts them.
- Structural changes through or around a view: the doc comment promises only that non-structural changes are shared between a view and its parent. Insert, remove, clear and the bulk operations on a view are not modelled. Nor are modification counters and the invalidation of views after a structural change, which the source does not define.
- View operations other than `Size`, `Get`, `Set`, `IndexOf`, `ToSlice` and `SubList`: the view's read-only operations are the vector's operations applied to `SubList.ToSlice`.
- Collection arguments (`c Collection[T]`) are modelled by the sequence of their elements. The behaviour when `c` changes during `AddAll` is undefined in the source and not modelled.
- Thread safety, Go generics, interface dispatch, and the aliasing and ownership of returned slices: `ToSlice` is modelled only as returning the elements in order.
