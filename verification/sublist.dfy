/**
 The view returned by `SubList(fromIndex, toIndex)` of the List contract in
 collections/interfaces.go. A view holds no elements of its own: it is a
 window of `size` positions starting at `offset` in its parent, and every
 access through it is translated into the parent's index space. A
 non-structural change (`Set`) made through the view is therefore a change of
 the parent, and a change of the parent inside the window is seen through
 the view.
 */
module SubList {
  import Vector

  /** The window [offset, offset + size) of a parent list. */
  datatype View = View(offset: nat, size: nat)

  /** The window lies inside the parent. */
  predicate Within<T>(w: View, parent: Vector.Vector<T>)
  {
    w.offset + w.size <= |parent|
  }

  /** The number of elements seen through the view. */
  function Size<T>(parent: Vector.Vector<T>, w: View): (n: nat)
    requires Within(w, parent)
    ensures n == |ToSlice(parent, w)|
    ensures w.offset + n <= Vector.Size(parent)
  {
    w.size
  }

  /** The elements seen through the view, in order. */
  function ToSlice<T>(parent: Vector.Vector<T>, w: View): (s: seq<T>)
    requires Within(w, parent)
    ensures |s| == w.size
    ensures forall i :: 0 <= i < |s| ==> s[i] == parent[w.offset + i]
  {
    parent[w.offset..w.offset + w.size]
  }

  /** The view of the positions [fromIndex, toIndex) of `parent`. */
  function SubList<T>(parent: Vector.Vector<T>, fromIndex: int, toIndex: int): (w: View)
    requires 0 <= fromIndex <= toIndex <= Vector.Size(parent)
    ensures w.offset == fromIndex
    ensures Within(w, parent)
    ensures Size(parent, w) == toIndex - fromIndex
    ensures ToSlice(parent, w) == parent[fromIndex..toIndex]
  {
    View(fromIndex, toIndex - fromIndex)
  }

  /** The view of the positions [fromIndex, toIndex) of the view `w`, which
      is itself a window of the same parent. */
  function SubListOf<T>(parent: Vector.Vector<T>, w: View, fromIndex: int, toIndex: int): (u: View)
    requires Within(w, parent)
    requires 0 <= fromIndex <= toIndex <= Size(parent, w)
    ensures u.offset == w.offset + fromIndex
    ensures Within(u, parent)
    ensures Size(parent, u) == toIndex - fromIndex
    ensures ToSlice(parent, u) == ToSlice(parent, w)[fromIndex..toIndex]
  {
    View(w.offset + fromIndex, toIndex - fromIndex)
  }

  /** The element at position `index` of the view. */
  function Get<T(==)>(parent: Vector.Vector<T>, w: View, index: int): (e: T)
    requires Within(w, parent)
    requires 0 <= index < Size(parent, w)
    ensures e == ToSlice(parent, w)[index]
    ensures e == Vector.Get(parent, w.offset + index)
  {
    parent[w.offset + index]
  }

  /** Replaces the element at position `index` of the view, which replaces
      the parent's element at `offset + index`. Returns the new parent and the
      element previously there. */
  function Set<T(==)>(parent: Vector.Vector<T>, w: View, index: int, item: T): (r: Vector.Step<T, T>)
    requires Within(w, parent)
    requires 0 <= index < Size(parent, w)
    ensures r.result == Get(parent, w, index)
    ensures Within(w, r.list)
    ensures Get(r.list, w, index) == item
    ensures Vector.Get(r.list, w.offset + index) == item
    ensures Vector.Size(r.list) == Vector.Size(parent)
    ensures forall j :: 0 <= j < |parent| && j != w.offset + index ==> r.list[j] == parent[j]
  {
    Vector.Set(parent, w.offset + index, item)
  }

  /** The lowest position of the view holding `item`, or -1. */
  function IndexOf<T(==)>(parent: Vector.Vector<T>, w: View, item: T): (r: int)
    requires Within(w, parent)
    ensures -1 <= r < Size(parent, w)
    ensures r == -1 <==> forall j :: w.offset <= j < w.offset + w.size ==> parent[j] != item
    ensures 0 <= r ==> parent[w.offset + r] == item
    ensures 0 <= r ==> forall j :: w.offset <= j < w.offset + r ==> parent[j] != item
  {
    var s := ToSlice(parent, w);
    assert forall j :: w.offset <= j < w.offset + w.size ==> parent[j] == s[j - w.offset];
    Vector.IndexOf(s, item)
  }

  /** A `Set` on the parent keeps every view valid; inside the window it is
      seen through the view at the translated position, outside the window
      the view is unchanged. */
  lemma ParentSetSeenThroughView<T>(parent: Vector.Vector<T>, w: View, index: int, item: T)
    requires Within(w, parent)
    requires 0 <= index < Vector.Size(parent)
    ensures var p := Vector.Set(parent, index, item).list;
            && Within(w, p)
            && (w.offset <= index < w.offset + w.size ==> Get(p, w, index - w.offset) == item)
            && (w.offset <= index < w.offset + w.size ==>
                  forall i :: 0 <= i < Size(parent, w) && i != index - w.offset ==> Get(p, w, i) == Get(parent, w, i))
            && (!(w.offset <= index < w.offset + w.size) ==> ToSlice(p, w) == ToSlice(parent, w))
  {
  }

  /** For the view `SubList(fromIndex, toIndex)`, a `Set(i, item)` through
      the view is seen by the parent at `fromIndex + i`, and a `Set` on the
      parent at `fromIndex + i` is seen through the view at `i`. */
  lemma SubListSetsReflected<T>(parent: Vector.Vector<T>, fromIndex: int, toIndex: int, i: int, item: T)
    requires 0 <= fromIndex <= toIndex <= Vector.Size(parent)
    requires 0 <= i < toIndex - fromIndex
    ensures var w := SubList(parent, fromIndex, toIndex);
            Vector.Get(Set(parent, w, i, item).list, fromIndex + i) == item
    ensures var w := SubList(parent, fromIndex, toIndex);
            var p := Vector.Set(parent, fromIndex + i, item).list;
            Within(w, p) && Get(p, w, i) == item
  {
  }

  /** Views of views compose: position `i` of `SubListOf(w, fromIndex,
      toIndex)` is position `fromIndex + i` of `w`, so a `Set` through the
      inner view is seen through the outer view there. */
  lemma NestedSetReflected<T>(parent: Vector.Vector<T>, w: View, fromIndex: int, toIndex: int, i: int, item: T)
    requires Within(w, parent)
    requires 0 <= fromIndex <= toIndex <= Size(parent, w)
    requires 0 <= i < toIndex - fromIndex
    ensures var u := SubListOf(parent, w, fromIndex, toIndex);
            var p := Set(parent, u, i, item).list;
            Within(w, p) && Get(p, w, fromIndex + i) == item
  {
  }

  /** A view of the whole list reads exactly like the list; an empty range
      gives an empty view. */
  lemma WholeAndEmptyViews<T>(parent: Vector.Vector<T>, k: int)
    requires 0 <= k <= Vector.Size(parent)
    ensures ToSlice(parent, SubList(parent, 0, Vector.Size(parent))) == parent
    ensures forall i :: 0 <= i < Vector.Size(parent) ==>
              Get(parent, SubList(parent, 0, Vector.Size(parent)), i) == Vector.Get(parent, i)
    ensures Size(parent, SubList(parent, k, k)) == 0
  {
  }
}
