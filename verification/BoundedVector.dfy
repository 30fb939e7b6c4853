/**
 `cl::vector<T, N>`, the fixed-capacity container, with exceptions off: an object
 with an array and a size, refining a mathematical sequence of at most N
 elements.  Pushing onto a full vector and popping an empty one do nothing.
 */
module BoundedVector {

  datatype Op<T> = Push(x: T) | Pop | Clear | Resize(size: nat, fill: T) | Assign(range: seq<T>)

  function Min(a: nat, b: nat): nat { if a < b then a else b }

  function Apply<T>(capacity: nat, s: seq<T>, op: Op<T>): seq<T> {
    match op
    case Push(x) => if |s| < capacity then s + [x] else s
    case Pop => if |s| > 0 then s[..|s| - 1] else s
    case Clear => []
    case Resize(n, fill) =>
      if n > capacity then s
      else if n <= |s| then s[..n]
      else s + seq(n - |s|, _ => fill)
    case Assign(range) => range[..Min(|range|, capacity)]
  }

  /** The element at each position, and how many there are. */
  lemma OpsByPosition<T>(capacity: nat, s: seq<T>, op: Op<T>)
    requires |s| <= capacity
    ensures var s' := Apply(capacity, s, op);
            match op
            case Push(x) =>
              if |s| == capacity then s' == s
              else |s'| == |s| + 1 && s'[|s|] == x && forall i :: 0 <= i < |s| ==> s'[i] == s[i]
            case Pop => |s'| == (if s == [] then 0 else |s| - 1) && forall i :: 0 <= i < |s'| ==> s'[i] == s[i]
            case Clear => |s'| == 0
            case Resize(n, fill) =>
              if n > capacity then s' == s
              else |s'| == n && forall i :: 0 <= i < n ==> s'[i] == if i < |s| then s[i] else fill
            case Assign(range) =>
              && |s'| == (if |range| <= capacity then |range| else capacity)
              && forall i :: 0 <= i < |s'| ==> s'[i] == range[i]
  {
  }

  /** Popping undoes a push that had room; a resize back undoes one that grew. */
  lemma PopUndoesPush<T>(capacity: nat, s: seq<T>, x: T, n: nat)
    requires |s| < capacity && |s| <= n <= capacity
    ensures Exec(capacity, s, [Push(x), Pop]) == s
    ensures Exec(capacity, s, [Resize(n, x), Resize(|s|, x)]) == s
  {
    assert [Push(x), Pop][1..] == [Op<T>.Pop] && [Op<T>.Pop][1..] == [];
    assert (s + [x])[..|s|] == s;
    assert [Resize(n, x), Resize(|s|, x)][1..] == [Resize(|s|, x)] && [Resize(|s|, x)][1..] == [];
    assert Apply(capacity, Apply(capacity, s, Resize(n, x)), Resize(|s|, x)) == s;
  }

  function Exec<T>(capacity: nat, s: seq<T>, ops: seq<Op<T>>): seq<T>
    decreases |ops|
  {
    if ops == [] then s else Exec(capacity, Apply(capacity, s, ops[0]), ops[1..])
  }

  lemma {:induction false} NeverOverfull<T>(capacity: nat, s: seq<T>, ops: seq<Op<T>>)
    requires |s| <= capacity
    ensures |Exec(capacity, s, ops)| <= capacity
    decreases |ops|
  {
    if ops != [] {
      NeverOverfull(capacity, Apply(capacity, s, ops[0]), ops[1..]);
    }
  }

  function Pushes<T>(xs: seq<T>): seq<Op<T>> {
    seq(|xs|, i requires 0 <= i < |xs| => Push(xs[i]))
  }

  /** Pushing a range keeps what fits, from the front, in order. */
  lemma {:induction false} PushAll<T>(capacity: nat, s: seq<T>, xs: seq<T>)
    requires |s| <= capacity
    ensures Exec(capacity, s, Pushes(xs)) == (s + xs)[..Min(|s| + |xs|, capacity)]
    decreases |xs|
  {
    if xs == [] {
      assert s + xs == s;
    } else {
      assert Pushes(xs)[1..] == Pushes(xs[1..]);
      PushAll(capacity, Apply(capacity, s, Push(xs[0])), xs[1..]);
      if |s| < capacity {
        assert s + xs == s + [xs[0]] + xs[1..];
      }
    }
  }

  /** Assigning is clearing and pushing. */
  lemma AssignIsPushes<T>(capacity: nat, s: seq<T>, xs: seq<T>)
    ensures Apply(capacity, s, Assign(xs)) == Exec(capacity, [], Pushes(xs))
  {
    PushAll(capacity, [], xs);
    assert [] + xs == xs;
  }

  class Vector<T(0, ==)> {
    const data: array<T>
    var size: nat

    ghost predicate Valid()
      reads this
    {
      size <= data.Length
    }

    ghost function Contents(): (s: seq<T>)
      reads this, data
      requires Valid()
      ensures |s| == size
    {
      data[..size]
    }

    constructor (capacity: nat)
      ensures Valid() && fresh(data) && data.Length == capacity && Contents() == []
    {
      data := new T[capacity];
      size := 0;
    }

    constructor Filled(capacity: nat, count: nat, val: T)
      ensures Valid() && fresh(data) && data.Length == capacity
      ensures Contents() == seq(Min(count, capacity), _ => val)
    {
      data := new T[capacity];
      size := 0;
      new;
      for i := 0 to count
        invariant Valid() && Contents() == seq(Min(i, capacity), _ => val)
      {
        PushBack(val);
      }
    }

    /** Takes over the size before it has any element, then assigns. */
    constructor Copy(vec: Vector<T>)
      requires vec.Valid()
      ensures Valid() && fresh(data) && data.Length == vec.data.Length && Contents() == vec.Contents()
    {
      data := new T[vec.data.Length];
      size := vec.size;
      new;
      if size != 0 {
        Assign(Begin(vec), End(vec));
      }
    }

    method PushBack(x: T)
      requires Valid()
      modifies this, data
      ensures Valid() && Contents() == Apply(data.Length, old(Contents()), Op.Push(x))
    {
      if size < data.Length {
        data[size] := x;
        size := size + 1;
      }
    }

    method PopBack()
      requires Valid()
      modifies `size
      ensures Valid() && Contents() == Apply(data.Length, old(Contents()), Op.Pop)
    {
      if size != 0 {
        size := size - 1;
      }
    }

    method Clear()
      requires Valid()
      modifies `size
      ensures Valid() && Contents() == Apply(data.Length, old(Contents()), Op.Clear)
    {
      while size != 0
        invariant Valid()
      {
        PopBack();
      }
    }

    method Resize(newSize: nat, fill: T)
      requires Valid()
      modifies this, data
      ensures Valid() && Contents() == Apply(data.Length, old(Contents()), Op.Resize(newSize, fill))
    {
      if newSize <= data.Length {
        ghost var before := Contents();
        while size < newSize
          invariant Valid() && |before| <= size
          invariant size <= newSize || size == |before|
          invariant Contents() == before + seq(size - |before|, _ => fill)
        {
          data[size] := fill;
          size := size + 1;
        }
        while size > newSize
          invariant newSize <= size
          invariant size > newSize ==> size <= |before|
          invariant Valid() && Contents() == Apply(data.Length, before, Op.Resize(size, fill))
        {
          size := size - 1;
        }
      }
    }

    /** Copies the elements of a range of another vector, as many as fit. */
    method Assign(start: Iterator<T>, end: Iterator<T>)
      requires Valid() && start.Reaches(end) && start.vec != this && start.vec.data != data
      modifies this, data
      ensures Valid() && Contents() == Apply(data.Length, old(Contents()), Op.Assign(Between(start, end)))
    {
      Clear();
      var it := start;
      while it != end
        invariant Valid() && start.Reaches(it) && it.Reaches(end)
        invariant Contents() == Between(start, it)[..Min(it.index - start.index, data.Length)]
        decreases end.index - it.index
      {
        assert Between(start, Iterator(it.vec, it.index + 1)) == Between(start, it) + [it.vec.data[it.index]];
        PushBack(it.vec.data[it.index]);
        it := it.Next();
      }
    }

    method CopyAssign(rhs: Vector<T>)
      requires Valid() && rhs.Valid() && rhs.data.Length == data.Length && (rhs != this ==> rhs.data != data)
      modifies this, data
      ensures Valid() && rhs.Valid() && Contents() == old(rhs.Contents())
    {
      if this == rhs {
        return;
      }
      if rhs.size != 0 {
        Assign(Begin(rhs), End(rhs));
      } else {
        Clear();
      }
    }

    method Equals(vec: Vector<T>) returns (same: bool)
      requires Valid() && vec.Valid()
      ensures same <==> Contents() == vec.Contents()
    {
      if size != vec.size {
        return false;
      }
      for i := 0 to size
        invariant forall k :: 0 <= k < i ==> data[k] == vec.data[k]
      {
        if data[i] != vec.data[i] {
          assert Contents()[i] != vec.Contents()[i];
          return false;
        }
      }
      return true;
    }
  }

  /** An iterator is a vector and an index; in an empty vector the index is -1. */
  datatype Iterator<T(0, ==)> = Iterator(vec: Vector<T>, index: int) {
    function Next(): Iterator<T> { Iterator(vec, index + 1) }

    /** From here a loop reaches `end` within the vector; both are -1 if it is empty. */
    ghost predicate Reaches(end: Iterator<T>)
      reads vec
    {
      && vec == end.vec && vec.Valid()
      && (0 <= index <= end.index <= vec.size || (vec.size == 0 && index == end.index == -1))
    }
  }

  function Begin<T(0, ==)>(vec: Vector<T>): Iterator<T>
    reads vec
  {
    Iterator(vec, if vec.size != 0 then 0 else -1)
  }

  function End<T(0, ==)>(vec: Vector<T>): Iterator<T>
    reads vec
  {
    Iterator(vec, if vec.size != 0 then vec.size else -1)
  }

  /** The elements a loop from `start` to `end` visits. */
  ghost function Between<T(0)>(start: Iterator<T>, end: Iterator<T>): seq<T>
    requires start.Reaches(end)
    reads start.vec, start.vec.data
  {
    if start.index == -1 then [] else start.vec.data[start.index..end.index]
  }

  /** Iterating from begin to end visits every element once, in order. */
  method Visit<T(0, ==)>(vec: Vector<T>) returns (seen: seq<T>)
    requires vec.Valid()
    ensures seen == vec.Contents()
    ensures vec.size == 0 ==> Begin(vec).index == End(vec).index == -1
    ensures vec.size != 0 ==> Begin(vec).index == 0 && End(vec).index == vec.size
  {
    seen := [];
    var it, end := Begin(vec), End(vec);
    while it != end
      invariant Begin(vec).Reaches(it) && it.Reaches(end) && seen == Between(Begin(vec), it)
      decreases end.index - it.index
    {
      seen := seen + [vec.data[it.index]];
      it := it.Next();
    }
  }
}
