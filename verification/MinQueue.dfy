/** Linksimulator/min_queue.c: the minimal priority queue, an array grown by fixed steps. */
module MinQueue {
  import opened HeapSpec
  import opened Options

  class MinQueue<T(0, !new)> {
    const cmp: (T, T) -> bool
    var size: nat
    var alloc: nat
    var e: array<T>

    ghost predicate Valid()
      reads this
    {
      size <= alloc == e.Length && 0 < alloc
    }

    /** The queued elements, in array order. */
    ghost function Elems(): seq<T>
      requires Valid()
      reads this, e
    {
      e[..size]
    }

    /** minq_new. */
    constructor (cmp: (T, T) -> bool)
      ensures Valid() && fresh(e)
      ensures this.cmp == cmp && Elems() == [] && alloc == 20
    {
      this.cmp := cmp;
      size := 0;
      alloc := SLOTS_PER_MALLOC;
      e := new T[SLOTS_PER_MALLOC];
    }

    /** minq_push; `memory` says whether realloc finds room, should it be called. */
    method Push(v: T, memory: bool) returns (rc: int, ghost turns: nat)
      requires Valid()
      modifies this, e
      ensures Valid()
      ensures rc == if old(size == alloc) && !memory then -1 else 0
      ensures rc != 0 ==> unchanged(this) && unchanged(e)
      ensures rc == 0 ==> Elems() == HeapSpec.Push(cmp, old(Elems()), v)
      ensures rc == 0 ==> turns == UpTurns(cmp, old(Elems()) + [v], old(size))
      ensures if rc == 0 && old(size == alloc) then alloc == old(alloc) + 20 && fresh(e)
              else alloc == old(alloc) && e == old(e)
    {
      turns := 0;
      if size == alloc {
        if !memory {
          return -1, turns;
        }
        Grow();
      }
      size := size + 1;
      ghost var start := e[..size][size - 1 := v];
      assert start == old(Elems()) + [v];
      turns := HeapifyUp(v);
      return 0, turns;
    }

    /** realloc: a longer array with the old contents. */
    method Grow()
      requires Valid() && size == alloc
      modifies this`e, this`alloc
      ensures Valid() && fresh(e) && alloc == old(alloc) + 20
      ensures Elems() == old(Elems())
    {
      var resizeTo := size + SLOTS_PER_MALLOC;
      var tmp := new T[resizeTo];
      for k := 0 to size
        invariant e == old(e) && alloc == old(alloc)
        invariant tmp[..k] == e[..k]
      {
        tmp[k] := e[k];
      }
      e := tmp;
      alloc := resizeTo;
    }

    /** The heapify-up loop: `v` moves up from the last slot, whose content is not read. */
    method HeapifyUp(v: T) returns (ghost turns: nat)
      requires Valid() && 0 < size
      modifies e
      ensures Elems() == SiftUp(cmp, old(Elems()[size - 1 := v]), size - 1)
      ensures turns == UpTurns(cmp, old(Elems()[size - 1 := v]), size - 1)
    {
      hide SiftUp, UpTurns;
      ghost var start := e[..size][size - 1 := v];
      ghost var now := start;
      turns := 0;
      var i := size - 1;
      var parent := i / 2;
      while i != 0 && cmp(e[parent], v)
        invariant 0 <= i < size && parent == i / 2
        invariant now == e[..size][i := v]
        invariant SiftUp(cmp, now, i) == SiftUp(cmp, start, size - 1)
        invariant turns + UpTurns(cmp, now, i) == UpTurns(cmp, start, size - 1)
        decreases i
      {
        UpStep(cmp, now, i);
        e[i] := e[parent];
        now := Swap(now, i, parent);
        i := parent;
        parent := i / 2;
        turns := turns + 1;
      }
      UpStep(cmp, now, i);
      e[i] := v;
      assert e[..size] == now;
    }

    method HasChild(i: nat) returns (c: nat)
      requires Valid()
      ensures c == Child(cmp, Elems(), i)
    {
      var left := 2 * i;
      if left >= size {
        return 0;
      }
      var right := left + 1;
      if right < size && cmp(e[left], e[right]) {
        return right;
      }
      return left;
    }

    /** minq_pop. */
    method Pop() returns (ghost turns: nat)
      requires Valid()
      modifies this`size, e
      ensures Valid()
      ensures Elems() == HeapSpec.Pop(cmp, old(Elems()))
      ensures turns == if old(size) <= 1 then 0
                       else DownTurns(cmp, old(Elems()[..size - 1][0 := Elems()[size - 1]]), 0)
    {
      turns := 0;
      var empty := Empty();
      if empty {
        return;
      }
      hide SiftDown, DownTurns;
      size := size - 1;
      e[0] := e[size];
      assert size > 0 ==> e[..size] == old(Elems())[..size][0 := old(Elems())[size]];
      turns := HeapifyDown();
    }

    /** The heapify-down loop: the root moves down. An empty queue has no child either. */
    method HeapifyDown() returns (ghost turns: nat)
      requires Valid()
      modifies e
      ensures Elems() == SiftDown(cmp, old(Elems()), 0)
      ensures turns == DownTurns(cmp, old(Elems()), 0)
    {
      hide SiftDown, DownTurns, Child;
      ghost var start := e[..size];
      ghost var now := start;
      turns := 0;
      var current := 0;
      var minChild := HasChild(current);
      while minChild != 0 && cmp(e[current], e[minChild])
        invariant now == e[..size] && |now| == size
        invariant size > 0 ==> current < size
        invariant minChild == Child(cmp, now, current)
        invariant SiftDown(cmp, now, current) == SiftDown(cmp, start, 0)
        invariant turns + DownTurns(cmp, now, current) == DownTurns(cmp, start, 0)
        decreases size - current
      {
        DownStep(cmp, now, current);
        var tmp := e[current];
        e[current] := e[minChild];
        e[minChild] := tmp;
        now := Swap(now, current, minChild);
        current := minChild;
        turns := turns + 1;
        minChild := HasChild(current);
      }
      DownStep(cmp, now, current);
    }

    method Peek() returns (r: Option<T>)
      requires Valid()
      ensures r == if Elems() == [] then None else Some(Elems()[0])
    {
      var empty := Empty();
      if empty {
        return None;
      }
      return Some(e[0]);
    }

    method Empty() returns (r: bool)
      requires Valid()
      ensures r <==> Elems() == []
    {
      r := size == 0;
    }

    method Size() returns (n: nat)
      requires Valid()
      ensures n == |Elems()|
    {
      n := size;
    }
  }

  /** minq_new: no queue without a comparison, or if either allocation fails. */
  method New<T(0, !new)>(cmp: Option<(T, T) -> bool>, queueMemory: bool, slotMemory: bool) returns (q: MinQueue?<T>)
    ensures q == null <==> cmp.None? || !queueMemory || !slotMemory
    ensures q != null ==> fresh(q) && fresh(q.e) && q.Valid() && q.cmp == cmp.value
    ensures q != null ==> q.Elems() == [] && q.alloc == 20
  {
    if cmp.None? || !queueMemory {
      return null;
    }
    if !slotMemory {
      return null;
    }
    q := new MinQueue<T>(cmp.value);
  }
}
