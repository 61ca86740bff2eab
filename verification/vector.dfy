/**
 The growable, array-like list of collections/vector.go, together with the
 Collection and List contracts of collections/interfaces.go that it must
 satisfy.

 The state of a vector is the sequence of its elements, index 0 first; the
 backing buffer and its capacity are abstracted away. Every operation is a
 pure function from the state before the call to the state after it and the
 value the Go method returns. Elements are compared with Dafny's equality on
 `T`, which is total and reflexive; it stands for the element equality the
 interface doc comments write as `==`.
 */
module Vector {

  /** The elements of a vector, in index order. */
  type Vector<T> = seq<T>

  /** The state after a mutating call together with the value the call returns. */
  datatype Step<T, R> = Step(list: Vector<T>, result: R)

  /** A newly created vector holds no elements. */
  function Empty<T>(): Vector<T>
  {
    []
  }

  // ---------------------------------------------------------------------
  // Collection[T]
  // ---------------------------------------------------------------------

  /** The number of elements, each duplicate counted; the valid indices are
      exactly `[0, n)`. */
  function Size<T>(v: Vector<T>): (n: nat)
    ensures n == |v|
    ensures n == 0 <==> v == []
  {
    |v|
  }

  /** Whether the vector holds no elements. */
  function IsEmpty<T>(v: Vector<T>): (empty: bool)
    ensures empty <==> Size(v) == 0
  {
    v == []
  }

  /** Whether some element equals `item`. The model defines it through the
      first-occurrence search, so the two cannot disagree. */
  function Contains<T(==)>(v: Vector<T>, item: T): (found: bool)
    ensures found <==> exists j :: 0 <= j < |v| && v[j] == item
  {
    IndexOf(v, item) != -1
  }

  /** The elements in order, as a slice the caller may keep. */
  function ToSlice<T>(v: Vector<T>): (s: seq<T>)
    ensures |s| == Size(v)
    ensures forall j :: 0 <= j < |s| ==> s[j] == v[j]
  {
    v
  }

  /** Appends `item`. A vector admits duplicates, so the call always changes
      the collection and reports so. */
  function Add<T>(v: Vector<T>, item: T): (r: Step<T, bool>)
    ensures Size(r.list) == Size(v) + 1
    ensures r.list[..|v|] == v && r.list[|v|] == item
    ensures r.result <==> r.list != v
    ensures r.result
  {
    Step(v + [item], true)
  }

  /** Removes the first element equal to `item`, if there is one, and reports
      whether an element was removed. */
  function Remove<T(==)>(v: Vector<T>, item: T): (r: Step<T, bool>)
    ensures r.result <==> Contains(v, item)
    ensures !r.result ==> r.list == v
    ensures r.result ==> Size(r.list) == Size(v) - 1
    ensures r.result ==>
              exists i :: 0 <= i < |v| && v[i] == item
                          && (forall j :: 0 <= j < i ==> v[j] != item)
                          && r.list == v[..i] + v[i + 1..]
    ensures multiset(r.list) == multiset(v) - multiset{item}
  {
    var i := IndexOf(v, item);
    if i == -1 then
      Step(v, false)
    else
      assert v == v[..i] + [v[i]] + v[i + 1..];
      Step(RemoveAt(v, i).list, true)
  }

  /** Whether every element of `c` is contained in the vector. */
  function ContainsAll<T(==)>(v: Vector<T>, c: seq<T>): (all: bool)
    ensures all <==> forall k :: 0 <= k < |c| ==> Contains(v, c[k])
  {
    if |c| == 0 then true
    else Contains(v, c[0]) && ContainsAll(v, c[1..])
  }

  /** Adds every element of `c`, reporting whether the collection changed. */
  function AddAll<T>(v: Vector<T>, c: seq<T>): (r: Step<T, bool>)
    ensures multiset(r.list) == multiset(v) + multiset(c)
    ensures Size(r.list) == Size(v) + |c|
    ensures r.result <==> r.list != v
  {
    Step(v + c, |c| > 0)
  }

  /** The elements of `v`, in order, whose membership in `c` equals `keep`. */
  function Select<T(==)>(v: seq<T>, c: seq<T>, keep: bool): (r: seq<T>)
    ensures |r| <= |v|
    ensures forall j :: 0 <= j < |r| ==> Contains(c, r[j]) == keep
    ensures |r| == |v| <==> forall j :: 0 <= j < |v| ==> Contains(c, v[j]) == keep
    ensures |r| == |v| ==> r == v
  {
    if |v| == 0 then
      []
    else
      var rest := Select(v[1..], c, keep);
      if Contains(c, v[0]) == keep then [v[0]] + rest else rest
  }

  /** `Select` keeps every copy of a selected value and none of the others. */
  lemma {:induction false} SelectCount<T>(v: seq<T>, c: seq<T>, keep: bool, e: T)
    ensures multiset(Select(v, c, keep))[e] == if Contains(c, e) == keep then multiset(v)[e] else 0
  {
    if |v| > 0 {
      var x := v[0];
      SelectCount(v[1..], c, keep, e);
      assert multiset(v) == multiset{x} + multiset(v[1..]) by {
        assert v == [x] + v[1..];
      }
    }
  }

  /** Removes every element that is also contained in `c`, reporting whether
      the collection changed. */
  function RemoveAll<T(==)>(v: Vector<T>, c: seq<T>): (r: Step<T, bool>)
    ensures forall j :: 0 <= j < |r.list| ==> !Contains(c, r.list[j])
    ensures multiset(r.list) <= multiset(v)
    ensures forall e | e in v && !Contains(c, e) :: multiset(r.list)[e] == multiset(v)[e]
    ensures r.result <==> r.list != v
    ensures r.result <==> Size(r.list) < Size(v)
    ensures r.result <==> exists j :: 0 <= j < |v| && Contains(c, v[j])
  {
    var kept := Select(v, c, false);
    assert multiset(kept) <= multiset(v) by {
      forall e {
        SelectCount(v, c, false, e);
      }
    }
    assert forall e | e in v :: multiset(kept)[e] == if Contains(c, e) then 0 else multiset(v)[e] by {
      forall e | e in v {
        SelectCount(v, c, false, e);
      }
    }
    Step(kept, |kept| != |v|)
  }

  /** Keeps only the elements that are contained in `c`, reporting whether
      the collection changed. */
  function RetainAll<T(==)>(v: Vector<T>, c: seq<T>): (r: Step<T, bool>)
    ensures forall j :: 0 <= j < |r.list| ==> Contains(c, r.list[j])
    ensures multiset(r.list) <= multiset(v)
    ensures forall e | e in v && Contains(c, e) :: multiset(r.list)[e] == multiset(v)[e]
    ensures r.result <==> r.list != v
    ensures r.result <==> Size(r.list) < Size(v)
    ensures r.result <==> exists j :: 0 <= j < |v| && !Contains(c, v[j])
  {
    var kept := Select(v, c, true);
    assert multiset(kept) <= multiset(v) by {
      forall e {
        SelectCount(v, c, true, e);
      }
    }
    assert forall e | e in v :: multiset(kept)[e] == if Contains(c, e) then multiset(v)[e] else 0 by {
      forall e | e in v {
        SelectCount(v, c, true, e);
      }
    }
    Step(kept, |kept| != |v|)
  }

  /** Removes every element. */
  function Clear<T>(v: Vector<T>): (r: Vector<T>)
    ensures IsEmpty(r)
  {
    []
  }

  // ---------------------------------------------------------------------
  // List[T]
  // ---------------------------------------------------------------------

  /** The element at position `index`. The searches agree with it: its
      first occurrence is at or before `index` and its last at or after. */
  function Get<T(==)>(v: Vector<T>, index: int): (e: T)
    requires 0 <= index < Size(v)
    ensures e == v[index]
    ensures Contains(v, e)
    ensures 0 <= IndexOf(v, e) <= index <= LastIndexOf(v, e)
  {
    v[index]
  }

  /** Replaces the element at `index` with `item`, returning the element
      previously there. */
  function Set<T>(v: Vector<T>, index: int, item: T): (r: Step<T, T>)
    requires 0 <= index < Size(v)
    ensures r.result == v[index]
    ensures Size(r.list) == Size(v)
    ensures r.list[index] == item
    ensures forall j :: 0 <= j < |v| && j != index ==> r.list[j] == v[j]
  {
    Step(v[index := item], v[index])
  }

  /** Inserts `item` at `index`, shifting the element there and every later
      one right by one. `index == Size(v)` appends. */
  function InsertAt<T>(v: Vector<T>, index: int, item: T): (r: Vector<T>)
    requires 0 <= index <= Size(v)
    ensures Size(r) == Size(v) + 1
    ensures r[index] == item
    ensures forall j :: 0 <= j < index ==> r[j] == v[j]
    ensures forall j :: index <= j < |v| ==> r[j + 1] == v[j]
  {
    v[..index] + [item] + v[index..]
  }

  /** Removes the element at `index`, shifting every later one left by one,
      and returns the removed element. */
  function RemoveAt<T>(v: Vector<T>, index: int): (r: Step<T, T>)
    requires 0 <= index < Size(v)
    ensures r.result == v[index]
    ensures Size(r.list) == Size(v) - 1
    ensures forall j :: 0 <= j < index ==> r.list[j] == v[j]
    ensures forall j :: index < j < |v| ==> r.list[j - 1] == v[j]
  {
    Step(v[..index] + v[index + 1..], v[index])
  }

  /** The lowest index holding `item`, or -1 when there is none. */
  function IndexOf<T(==)>(v: Vector<T>, item: T): (r: int)
    ensures -1 <= r < |v|
    ensures r == -1 <==> forall j :: 0 <= j < |v| ==> v[j] != item
    ensures 0 <= r ==> v[r] == item && forall j :: 0 <= j < r ==> v[j] != item
  {
    if |v| == 0 then -1
    else if v[0] == item then 0
    else
      var k := IndexOf(v[1..], item);
      if k == -1 then -1 else k + 1
  }

  /** The highest index holding `item`, or -1 when there is none. */
  function LastIndexOf<T(==)>(v: Vector<T>, item: T): (r: int)
    ensures -1 <= r < |v|
    ensures r == -1 <==> forall j :: 0 <= j < |v| ==> v[j] != item
    ensures 0 <= r ==> v[r] == item && forall j :: r < j < |v| ==> v[j] != item
  {
    if |v| == 0 then -1
    else if v[|v| - 1] == item then |v| - 1
    else LastIndexOf(v[..|v| - 1], item)
  }

  // ---------------------------------------------------------------------
  // Properties relating several operations
  // ---------------------------------------------------------------------

  /** Both searches agree on absence, and when the element is present the
      first occurrence is never after the last. */
  lemma IndexOfBeforeLastIndexOf<T>(v: Vector<T>, item: T)
    ensures IndexOf(v, item) == -1 <==> LastIndexOf(v, item) == -1
    ensures IndexOf(v, item) <= LastIndexOf(v, item)
    ensures IndexOf(v, item) == LastIndexOf(v, item) ==> multiset(v)[item] <= 1
  {
    var first, last := IndexOf(v, item), LastIndexOf(v, item);
    if first == last && first != -1 {
      OnlyOccurrence(v, item, first);
    }
  }

  /** When `v[i]` is the only element equal to `item`, it occurs once. */
  lemma {:induction false} OnlyOccurrence<T>(v: seq<T>, item: T, i: int)
    requires 0 <= i < |v| && v[i] == item
    requires forall j :: 0 <= j < |v| && j != i ==> v[j] != item
    ensures multiset(v)[item] == 1
  {
    assert v == v[..i] + [v[i]] + v[i + 1..];
  }

  /** After `Add(item)` the collection contains `item`. */
  lemma AddThenContains<T>(v: Vector<T>, item: T)
    ensures Contains(Add(v, item).list, item)
    ensures IndexOf(Add(v, item).list, item) == (if Contains(v, item) then IndexOf(v, item) else |v|)
  {
  }

  /** Removing the element just inserted at `index` gives back the vector
      and the inserted element. */
  lemma InsertAtThenRemoveAt<T>(v: Vector<T>, index: int, item: T)
    requires 0 <= index <= Size(v)
    ensures RemoveAt(InsertAt(v, index, item), index) == Step(v, item)
  {
  }

  /** Re-inserting a removed element at its old index restores the vector. */
  lemma RemoveAtThenInsertAt<T>(v: Vector<T>, index: int)
    requires 0 <= index < Size(v)
    ensures var r := RemoveAt(v, index); InsertAt(r.list, index, r.result) == v
  {
  }

  /** Setting back the value a `Set` returned restores the vector. */
  lemma SetThenSetBack<T>(v: Vector<T>, index: int, item: T)
    requires 0 <= index < Size(v)
    ensures var r := Set(v, index, item); Set(r.list, index, r.result) == Step(v, item)
  {
  }

  /** `RemoveAt(i)` followed by `Get(i)` yields what was at `i + 1`. */
  lemma RemoveAtThenGet<T>(v: Vector<T>, index: int)
    requires 0 <= index < Size(v) - 1
    ensures Get(RemoveAt(v, index).list, index) == Get(v, index + 1)
  {
  }
}
