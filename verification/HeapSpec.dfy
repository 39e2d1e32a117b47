/** The heap of Linksimulator/min_queue.c as a sequence. The parent of slot i is i / 2, so slot 0
    is the root, slot 1 its only child, and slots 2x and 2x + 1 the children of any x >= 1. */
module HeapSpec {

  /** How many slots one allocation step adds. */
  const SLOTS_PER_MALLOC := 20

  /** What minq_key_cmp must be: "a > b" for an order in which ties are allowed. */
  ghost predicate StrictWeakOrder<T(!new)>(cmp: (T, T) -> bool) {
    && (forall a, b :: cmp(a, b) ==> !cmp(b, a))
    && (forall a, b, c :: !cmp(a, b) && !cmp(b, c) ==> !cmp(a, c))
  }

  function Swap<T>(e: seq<T>, i: nat, j: nat): (r: seq<T>)
    requires i < |e| && j < |e|
    ensures |r| == |e|
  {
    e[i := e[j]][j := e[i]]
  }

  /** Heapify-up of the element in slot i. */
  function SiftUp<T>(cmp: (T, T) -> bool, e: seq<T>, i: nat): (r: seq<T>)
    requires i < |e|
    ensures |r| == |e|
    decreases i
  {
    if i > 0 && cmp(e[i / 2], e[i]) then SiftUp(cmp, Swap(e, i, i / 2), i / 2) else e
  }

  function Push<T>(cmp: (T, T) -> bool, e: seq<T>, v: T): (r: seq<T>)
    ensures |r| == |e| + 1
  {
    SiftUp(cmp, e + [v], |e|)
  }

  /** has_child: the slot of the smallest child, or 0 for none. The root is its own "left
      child", and the answer 0 it then gives is the one that means "none". */
  function Child<T>(cmp: (T, T) -> bool, e: seq<T>, i: nat): (c: nat)
    ensures c != 0 ==> i < c < |e| && c / 2 == i
  {
    if 2 * i >= |e| then 0
    else if 2 * i + 1 < |e| && cmp(e[2 * i], e[2 * i + 1]) then 2 * i + 1
    else 2 * i
  }

  /** Heapify-down of the element in slot i. */
  function SiftDown<T>(cmp: (T, T) -> bool, e: seq<T>, i: nat): (r: seq<T>)
    ensures |r| == |e|
    decreases |e| - i
  {
    var c := Child(cmp, e, i);
    if c != 0 && cmp(e[i], e[c]) then SiftDown(cmp, Swap(e, i, c), c) else e
  }

  /** The last element takes the root's place and sinks. */
  function Pop<T>(cmp: (T, T) -> bool, e: seq<T>): (r: seq<T>)
    ensures |r| == if |e| == 0 then 0 else |e| - 1
  {
    if |e| <= 1 then [] else SiftDown(cmp, e[..|e| - 1][0 := e[|e| - 1]], 0)
  }

  /** Every node but the root is not smaller than its parent. */
  ghost predicate Heap<T>(cmp: (T, T) -> bool, e: seq<T>) {
    forall j :: 1 <= j < |e| ==> !cmp(e[j / 2], e[j])
  }

  ghost predicate Minimum<T>(cmp: (T, T) -> bool, m: T, e: seq<T>) {
    m in e && forall x :: x in e ==> !cmp(m, x)
  }

  // ---------- Order facts, one instance at a time ----------

  lemma Asymmetric<T(!new)>(cmp: (T, T) -> bool, a: T, b: T)
    requires StrictWeakOrder(cmp) && cmp(a, b)
    ensures !cmp(b, a)
  {
  }

  lemma Transitive<T(!new)>(cmp: (T, T) -> bool, a: T, b: T, c: T)
    requires StrictWeakOrder(cmp) && !cmp(a, b) && !cmp(b, c)
    ensures !cmp(a, c)
  {
  }

  // ---------- Heap order ----------

  /** A heap but for slot i, which may be smaller than its parent. */
  ghost predicate HeapBut<T>(cmp: (T, T) -> bool, e: seq<T>, i: nat) {
    && (forall j :: 1 <= j < |e| && j != i ==> !cmp(e[j / 2], e[j]))
    && (forall j :: 1 <= j < |e| && j / 2 == i && i != 0 ==> !cmp(e[i / 2], e[j]))
  }

  /** A heap but for slot i, which may be greater than its children. */
  ghost predicate HeapAbove<T>(cmp: (T, T) -> bool, e: seq<T>, i: nat) {
    && (forall j :: 1 <= j < |e| && j / 2 != i ==> !cmp(e[j / 2], e[j]))
    && (forall j :: 1 <= j < |e| && j / 2 == i && i != 0 ==> !cmp(e[i / 2], e[j]))
  }

  lemma SwapUp<T(!new)>(cmp: (T, T) -> bool, e: seq<T>, i: nat)
    requires StrictWeakOrder(cmp) && 0 < i < |e|
    requires HeapBut(cmp, e, i) && cmp(e[i / 2], e[i])
    ensures HeapBut(cmp, Swap(e, i, i / 2), i / 2)
  {
    var p, f := i / 2, Swap(e, i, i / 2);
    forall j | 1 <= j < |e| && j != p
      ensures !cmp(f[j / 2], f[j])
    {
      if j == i {
        Asymmetric(cmp, e[p], e[i]);
      } else if j / 2 == p {
        Asymmetric(cmp, e[p], e[i]);
        Transitive(cmp, e[i], e[p], e[j]);
      }
    }
    forall j | 1 <= j < |e| && j / 2 == p && p != 0
      ensures !cmp(f[p / 2], f[j])
    {
      if j != i {
        Transitive(cmp, e[p / 2], e[p], e[j]);
      }
    }
  }

  lemma {:induction false} SiftUpHeap<T(!new)>(cmp: (T, T) -> bool, e: seq<T>, i: nat)
    requires StrictWeakOrder(cmp) && i < |e| && HeapBut(cmp, e, i)
    ensures Heap(cmp, SiftUp(cmp, e, i))
    decreases i
  {
    if i > 0 && cmp(e[i / 2], e[i]) {
      SwapUp(cmp, e, i);
      SiftUpHeap(cmp, Swap(e, i, i / 2), i / 2);
    }
  }

  /** No child is smaller than the one has_child picks; when it answers 0, there is either no
      child or only the root's, and that one is not smaller than the root. */
  lemma SmallestChild<T(!new)>(cmp: (T, T) -> bool, e: seq<T>, i: nat, j: nat)
    requires StrictWeakOrder(cmp)
    requires 1 <= j < |e| && j / 2 == i
    ensures var c := Child(cmp, e, i); if c == 0 then !cmp(e[i], e[j]) else !cmp(e[c], e[j])
  {
    var c := Child(cmp, e, i);
    if c != 0 && cmp(e[c], e[j]) {
      Asymmetric(cmp, e[c], e[j]);
    }
  }

  lemma SwapDown<T(!new)>(cmp: (T, T) -> bool, e: seq<T>, i: nat)
    requires StrictWeakOrder(cmp) && HeapAbove(cmp, e, i)
    requires Child(cmp, e, i) != 0 && cmp(e[i], e[Child(cmp, e, i)])
    ensures HeapAbove(cmp, Swap(e, i, Child(cmp, e, i)), Child(cmp, e, i))
  {
    var c := Child(cmp, e, i);
    var f := Swap(e, i, c);
    forall j | 1 <= j < |e| && j / 2 != c
      ensures !cmp(f[j / 2], f[j])
    {
      if j == c {
        Asymmetric(cmp, e[i], e[c]);
      } else if j / 2 == i {
        SmallestChild(cmp, e, i, j);
      }
    }
  }

  lemma {:induction false} SiftDownHeap<T(!new)>(cmp: (T, T) -> bool, e: seq<T>, i: nat)
    requires StrictWeakOrder(cmp) && HeapAbove(cmp, e, i)
    ensures Heap(cmp, SiftDown(cmp, e, i))
    decreases |e| - i
  {
    var c := Child(cmp, e, i);
    if c != 0 && cmp(e[i], e[c]) {
      SwapDown(cmp, e, i);
      SiftDownHeap(cmp, Swap(e, i, c), c);
    } else {
      forall j | 1 <= j < |e| && j / 2 == i
        ensures !cmp(e[j / 2], e[j])
      {
        SmallestChild(cmp, e, i, j);
        if c != 0 {
          Transitive(cmp, e[i], e[c], e[j]);
        }
      }
    }
  }

  lemma PushHeap<T(!new)>(cmp: (T, T) -> bool, e: seq<T>, v: T)
    requires StrictWeakOrder(cmp) && Heap(cmp, e)
    ensures Heap(cmp, Push(cmp, e, v))
  {
    SiftUpHeap(cmp, e + [v], |e|);
  }

  lemma PopHeap<T(!new)>(cmp: (T, T) -> bool, e: seq<T>)
    requires StrictWeakOrder(cmp) && Heap(cmp, e)
    ensures Heap(cmp, Pop(cmp, e))
  {
    if |e| > 1 {
      SiftDownHeap(cmp, e[..|e| - 1][0 := e[|e| - 1]], 0);
    }
  }

  lemma {:induction false} RootBelow<T(!new)>(cmp: (T, T) -> bool, e: seq<T>, j: nat)
    requires StrictWeakOrder(cmp) && Heap(cmp, e) && j < |e|
    ensures !cmp(e[0], e[j])
    decreases j
  {
    if j != 0 {
      RootBelow(cmp, e, j / 2);
      Transitive(cmp, e[0], e[j / 2], e[j]);
    }
  }

  /** The root of a heap is a minimum of it. */
  lemma RootMinimum<T(!new)>(cmp: (T, T) -> bool, e: seq<T>)
    requires StrictWeakOrder(cmp) && Heap(cmp, e) && |e| > 0
    ensures Minimum(cmp, e[0], e)
  {
    forall x | x in e
      ensures !cmp(e[0], x)
    {
      var j :| 0 <= j < |e| && e[j] == x;
      RootBelow(cmp, e, j);
    }
  }

  // ---------- Contents ----------

  lemma SwapContents<T>(e: seq<T>, i: nat, j: nat)
    requires i < |e| && j < |e|
    ensures multiset(Swap(e, i, j)) == multiset(e)
  {
  }

  lemma {:induction false} SiftUpContents<T>(cmp: (T, T) -> bool, e: seq<T>, i: nat)
    requires i < |e|
    ensures multiset(SiftUp(cmp, e, i)) == multiset(e)
    decreases i
  {
    if i > 0 && cmp(e[i / 2], e[i]) {
      SwapContents(e, i, i / 2);
      SiftUpContents(cmp, Swap(e, i, i / 2), i / 2);
    }
  }

  lemma {:induction false} SiftDownContents<T>(cmp: (T, T) -> bool, e: seq<T>, i: nat)
    ensures multiset(SiftDown(cmp, e, i)) == multiset(e)
    decreases |e| - i
  {
    var c := Child(cmp, e, i);
    if c != 0 && cmp(e[i], e[c]) {
      SwapContents(e, i, c);
      SiftDownContents(cmp, Swap(e, i, c), c);
    }
  }

  /** A push adds exactly the pushed element. */
  lemma PushContents<T>(cmp: (T, T) -> bool, e: seq<T>, v: T)
    ensures multiset(Push(cmp, e, v)) == multiset(e) + multiset{v}
  {
    SiftUpContents(cmp, e + [v], |e|);
  }

  /** A pop removes exactly one occurrence of the root. */
  lemma PopContents<T>(cmp: (T, T) -> bool, e: seq<T>)
    requires |e| > 0
    ensures multiset(Pop(cmp, e)) == multiset(e) - multiset{e[0]}
  {
    var n := |e| - 1;
    assert e == e[..n] + [e[n]];
    if n > 0 {
      var f := e[..n][0 := e[n]];
      assert e[..n] == [e[0]] + e[1..n];
      assert f == [e[n]] + e[1..n];
      SiftDownContents(cmp, f, 0);
    }
  }

  // ---------- Whole runs: a priority queue ----------

  datatype Op<T> = OpPush(v: T) | OpPop

  function Apply<T>(cmp: (T, T) -> bool, e: seq<T>, op: Op<T>): seq<T> {
    match op
    case OpPush(v) => Push(cmp, e, v)
    case OpPop => Pop(cmp, e)
  }

  /** The queue after a run of operations on an empty queue. */
  function RunOps<T>(cmp: (T, T) -> bool, ops: seq<Op<T>>): seq<T> {
    if |ops| == 0 then [] else Apply(cmp, RunOps(cmp, ops[..|ops| - 1]), ops[|ops| - 1])
  }

  /** The abstract priority queue: a bag from which a pop takes some minimum. */
  ghost predicate AbstractStep<T(!new)>(cmp: (T, T) -> bool, b: multiset<T>, op: Op<T>, b': multiset<T>) {
    match op
    case OpPush(v) => b' == b + multiset{v}
    case OpPop =>
      if b == multiset{} then b' == b
      else exists m :: m in b && (forall x :: x in b ==> !cmp(m, x)) && b' == b - multiset{m}
  }

  lemma {:induction false} RunHeap<T(!new)>(cmp: (T, T) -> bool, ops: seq<Op<T>>)
    requires StrictWeakOrder(cmp)
    ensures Heap(cmp, RunOps(cmp, ops))
  {
    if |ops| > 0 {
      var before := RunOps(cmp, ops[..|ops| - 1]);
      RunHeap(cmp, ops[..|ops| - 1]);
      match ops[|ops| - 1]
      case OpPush(v) => PushHeap(cmp, before, v);
      case OpPop => PopHeap(cmp, before);
    }
  }

  /** After any run, the array is heap ordered and one more operation does to its contents
      what it does to a bag. */
  lemma Refinement<T(!new)>(cmp: (T, T) -> bool, ops: seq<Op<T>>, op: Op<T>)
    requires StrictWeakOrder(cmp)
    ensures Heap(cmp, RunOps(cmp, ops))
    ensures RunOps(cmp, ops) != [] ==> Minimum(cmp, RunOps(cmp, ops)[0], RunOps(cmp, ops))
    ensures RunOps(cmp, ops + [op]) == Apply(cmp, RunOps(cmp, ops), op)
    ensures AbstractStep(cmp, multiset(RunOps(cmp, ops)), op, multiset(RunOps(cmp, ops + [op])))
  {
    var e := RunOps(cmp, ops);
    assert (ops + [op])[..|ops|] == ops;
    RunHeap(cmp, ops);
    if |e| > 0 {
      RootMinimum(cmp, e);
    }
    match op
    case OpPush(v) => PushContents(cmp, e, v);
    case OpPop =>
      if |e| > 0 {
        PopContents(cmp, e);
        assert e[0] in multiset(e);
      }
  }

  // ---------- Draining ----------

  /** The roots in the order in which popping until empty removes them. */
  function Drain<T>(cmp: (T, T) -> bool, e: seq<T>): (r: seq<T>)
    decreases |e|
  {
    if |e| == 0 then [] else [e[0]] + Drain(cmp, Pop(cmp, e))
  }

  ghost predicate Sorted<T>(cmp: (T, T) -> bool, s: seq<T>) {
    forall i, j :: 0 <= i < j < |s| ==> !cmp(s[i], s[j])
  }

  lemma ConsSorted<T>(cmp: (T, T) -> bool, m: T, s: seq<T>, e: seq<T>)
    requires Minimum(cmp, m, e) && multiset(s) <= multiset(e)
    requires Sorted(cmp, s)
    ensures Sorted(cmp, [m] + s)
  {
    forall j | 0 <= j < |s|
      ensures !cmp(m, s[j])
    {
      assert s[j] in multiset(s);
      assert s[j] in multiset(e);
    }
  }

  lemma {:induction false} DrainContents<T>(cmp: (T, T) -> bool, e: seq<T>)
    ensures multiset(Drain(cmp, e)) == multiset(e)
    decreases |e|
  {
    if |e| > 0 {
      PopContents(cmp, e);
      DrainContents(cmp, Pop(cmp, e));
      hide Pop;
    }
  }

  /** Heap sort: draining a heap gives its contents in nondecreasing order. */
  lemma {:induction false} DrainSorts<T(!new)>(cmp: (T, T) -> bool, e: seq<T>)
    requires StrictWeakOrder(cmp) && Heap(cmp, e)
    ensures multiset(Drain(cmp, e)) == multiset(e)
    ensures Sorted(cmp, Drain(cmp, e))
    decreases |e|
  {
    DrainContents(cmp, e);
    if |e| > 0 {
      PopHeap(cmp, e);
      PopContents(cmp, e);
      RootMinimum(cmp, e);
      DrainSorts(cmp, Pop(cmp, e));
      hide Heap, Pop, StrictWeakOrder, Minimum, Sorted;
      ConsSorted(cmp, e[0], Drain(cmp, Pop(cmp, e)), e);
    }
  }

  // ---------- Cost ----------

  /** The floor of the base-2 logarithm. */
  function Log2(n: nat): nat {
    if n <= 1 then 0 else 1 + Log2(n / 2)
  }

  /** Turns of the heapify-up loop. */
  function UpTurns<T>(cmp: (T, T) -> bool, e: seq<T>, i: nat): nat
    requires i < |e|
    decreases i
  {
    if i > 0 && cmp(e[i / 2], e[i]) then 1 + UpTurns(cmp, Swap(e, i, i / 2), i / 2) else 0
  }

  /** Turns of the heapify-down loop. */
  function DownTurns<T>(cmp: (T, T) -> bool, e: seq<T>, i: nat): nat
    decreases |e| - i
  {
    var c := Child(cmp, e, i);
    if c != 0 && cmp(e[i], e[c]) then 1 + DownTurns(cmp, Swap(e, i, c), c) else 0
  }

  /** One turn of the heapify-up loop, or its end. */
  lemma UpStep<T>(cmp: (T, T) -> bool, e: seq<T>, i: nat)
    requires i < |e|
    ensures if i > 0 && cmp(e[i / 2], e[i])
            then var f := Swap(e, i, i / 2);
                 SiftUp(cmp, e, i) == SiftUp(cmp, f, i / 2) && UpTurns(cmp, e, i) == 1 + UpTurns(cmp, f, i / 2)
            else SiftUp(cmp, e, i) == e && UpTurns(cmp, e, i) == 0
  {
  }

  /** One turn of the heapify-down loop, or its end. */
  lemma DownStep<T>(cmp: (T, T) -> bool, e: seq<T>, i: nat)
    ensures var c := Child(cmp, e, i);
            if c != 0 && cmp(e[i], e[c])
            then var f := Swap(e, i, c);
                 SiftDown(cmp, e, i) == SiftDown(cmp, f, c) && DownTurns(cmp, e, i) == 1 + DownTurns(cmp, f, c)
            else SiftDown(cmp, e, i) == e && DownTurns(cmp, e, i) == 0
  {
  }

  lemma {:induction false} UpTurnsBound<T>(cmp: (T, T) -> bool, e: seq<T>, i: nat)
    requires i < |e|
    ensures UpTurns(cmp, e, i) <= if i == 0 then 0 else Log2(i) + 1
    decreases i
  {
    if i > 0 && cmp(e[i / 2], e[i]) {
      UpTurnsBound(cmp, Swap(e, i, i / 2), i / 2);
    }
  }

  lemma {:induction false} Log2Monotonic(m: nat, n: nat)
    requires m <= n
    ensures Log2(m) <= Log2(n)
    decreases n
  {
    if m > 1 {
      Log2Monotonic(m / 2, n / 2);
    }
  }

  lemma {:induction false} DownTurnsBound<T>(cmp: (T, T) -> bool, e: seq<T>, i: nat)
    requires i < |e|
    ensures i == 0 && |e| > 1 ==> DownTurns(cmp, e, i) <= Log2(|e| - 1) + 1
    ensures i != 0 ==> DownTurns(cmp, e, i) + Log2(i) <= Log2(|e| - 1)
    decreases |e| - i
  {
    var c := Child(cmp, e, i);
    if c != 0 && cmp(e[i], e[c]) {
      DownTurnsBound(cmp, Swap(e, i, c), c);
    } else if i != 0 {
      Log2Monotonic(i, |e| - 1);
    }
  }
}
