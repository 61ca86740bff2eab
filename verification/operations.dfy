/**
 Histories of calls on a vector. Each mutating call of the Collection and
 List contracts in collections/interfaces.go is an `Op`; replaying a run of
 them from a starting state gives the vector's state afterwards. The lemmas
 state how the size of the vector moves: it grows only through additions and
 shrinks only through removals and `Clear`, with no capacity that could make
 an addition fail.
 */
module Operations {
  import Vector

  /** A mutating call, with its arguments. */
  datatype Op<T> =
    | Add(item: T)
    | InsertAt(index: int, item: T)
    | RemoveAt(index: int)
    | Set(index: int, item: T)
    | Remove(item: T)
    | AddAll(items: seq<T>)
    | RemoveAll(items: seq<T>)
    | RetainAll(items: seq<T>)
    | Clear

  /** Whether the call's index lies in the range its contract admits. */
  predicate Admits<T>(v: Vector.Vector<T>, op: Op<T>)
  {
    match op
    case InsertAt(i, _) => 0 <= i <= |v|
    case RemoveAt(i) => 0 <= i < |v|
    case Set(i, _) => 0 <= i < |v|
    case _ => true
  }

  /** The state after performing `op` on `v`. */
  function Apply<T(==)>(v: Vector.Vector<T>, op: Op<T>): Vector.Vector<T>
    requires Admits(v, op)
  {
    match op
    case Add(x) => Vector.Add(v, x).list
    case InsertAt(i, x) => Vector.InsertAt(v, i, x)
    case RemoveAt(i) => Vector.RemoveAt(v, i).list
    case Set(i, x) => Vector.Set(v, i, x).list
    case Remove(x) => Vector.Remove(v, x).list
    case AddAll(c) => Vector.AddAll(v, c).list
    case RemoveAll(c) => Vector.RemoveAll(v, c).list
    case RetainAll(c) => Vector.RetainAll(v, c).list
    case Clear => Vector.Clear(v)
  }

  /** Whether every call of `ops` is admitted by the state it meets. */
  predicate Runs<T(==)>(v: Vector.Vector<T>, ops: seq<Op<T>>)
    decreases |ops|
  {
    |ops| == 0 || (Admits(v, ops[0]) && Runs(Apply(v, ops[0]), ops[1..]))
  }

  /** The state after performing `ops` in order, starting from `v`. */
  function Run<T(==)>(v: Vector.Vector<T>, ops: seq<Op<T>>): Vector.Vector<T>
    requires Runs(v, ops)
    decreases |ops|
  {
    if |ops| == 0 then v else Run(Apply(v, ops[0]), ops[1..])
  }

  /** Calls that address the vector by position or append to it. */
  predicate Positional<T>(op: Op<T>)
  {
    op.Add? || op.InsertAt? || op.RemoveAt? || op.Set?
  }

  /** Number of elements added minus number removed by a positional run. */
  function Net<T>(ops: seq<Op<T>>): int
  {
    if |ops| == 0 then 0
    else
      (if ops[0].Add? || ops[0].InsertAt? then 1 else if ops[0].RemoveAt? then -1 else 0)
      + Net(ops[1..])
  }

  /** Adds the elements of `xs` one at a time, first to last. */
  function AddEach<T>(v: Vector.Vector<T>, xs: seq<T>): Vector.Vector<T>
    decreases |xs|
  {
    if |xs| == 0 then v else AddEach(Vector.Add(v, xs[0]).list, xs[1..])
  }

  /** Every admitted call grows the vector exactly when it adds something:
      there is no capacity at which an addition fails. */
  lemma Grows<T>(v: Vector.Vector<T>, op: Op<T>)
    requires Admits(v, op)
    ensures Vector.Size(Apply(v, op)) > Vector.Size(v) <==>
              op.Add? || op.InsertAt? || (op.AddAll? && |op.items| > 0)
    ensures op.Add? || op.InsertAt? ==> Vector.Size(Apply(v, op)) == Vector.Size(v) + 1
  {
  }

  /** Every admitted call shrinks the vector exactly when it removes
      something: `RemoveAt`, a `Remove` that finds its element, a `Clear` of a
      non-empty vector, or a bulk removal that meets a matching element. */
  lemma Shrinks<T>(v: Vector.Vector<T>, op: Op<T>)
    requires Admits(v, op)
    ensures Vector.Size(Apply(v, op)) < Vector.Size(v) <==>
              || op.RemoveAt?
              || (op.Remove? && Vector.Contains(v, op.item))
              || (op.Clear? && !Vector.IsEmpty(v))
              || (op.RemoveAll? && exists j :: 0 <= j < |v| && Vector.Contains(op.items, v[j]))
              || (op.RetainAll? && exists j :: 0 <= j < |v| && !Vector.Contains(op.items, v[j]))
  {
  }

  /** Along a run of positional calls the size is the starting size plus
      the number of elements added minus the number removed. */
  lemma {:induction false} RunSize<T>(v: Vector.Vector<T>, ops: seq<Op<T>>)
    requires Runs(v, ops)
    requires forall k :: 0 <= k < |ops| ==> Positional(ops[k])
    ensures Vector.Size(Run(v, ops)) == Vector.Size(v) + Net(ops)
    decreases |ops|
  {
    if |ops| > 0 {
      RunSize(Apply(v, ops[0]), ops[1..]);
    }
  }

  /** Adding `xs` one element at a time yields `v` followed by `xs`, so
      element `k` of `xs` ends up at index `Size(v) + k`. */
  lemma {:induction false} ReplayAdds<T>(v: Vector.Vector<T>, xs: seq<T>)
    ensures AddEach(v, xs) == v + xs
    ensures Vector.Size(AddEach(v, xs)) == Vector.Size(v) + |xs|
    decreases |xs|
  {
    if |xs| > 0 {
      var w := Vector.Add(v, xs[0]).list;
      ReplayAdds(w, xs[1..]);
      assert w + xs[1..] == v + xs;
    }
  }

  /** Adding the elements of `ToSlice()` one by one to an empty vector
      rebuilds the vector. */
  lemma ToSliceRoundTrip<T>(v: Vector.Vector<T>)
    ensures AddEach(Vector.Empty(), Vector.ToSlice(v)) == v
  {
    ReplayAdds(Vector.Empty(), Vector.ToSlice(v));
  }
}
