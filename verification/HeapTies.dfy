/** What equal keys do to the heap of Linksimulator/min_queue.c: in which order elements leave it. */
module HeapTies {
  import opened HeapSpec

  // ---------- Ties ----------

  predicate Tied<T>(cmp: (T, T) -> bool, a: T, b: T) {
    !cmp(a, b) && !cmp(b, a)
  }

  /** No element is greater than another. */
  ghost predicate AllTied<T>(cmp: (T, T) -> bool, e: seq<T>) {
    forall i, j :: 0 <= i < |e| && 0 <= j < |e| ==> !cmp(e[i], e[j])
  }

  function Reversed<T>(s: seq<T>): (r: seq<T>)
    ensures |r| == |s|
  {
    if |s| == 0 then [] else [s[|s| - 1]] + Reversed(s[..|s| - 1])
  }

  lemma TiedPush<T>(cmp: (T, T) -> bool, e: seq<T>, v: T)
    requires AllTied(cmp, e + [v])
    ensures Push(cmp, e, v) == e + [v]
  {
    assert |e| > 0 ==> !cmp((e + [v])[|e| / 2], (e + [v])[|e|]);
  }

  lemma TiedTurned<T>(cmp: (T, T) -> bool, t: seq<T>, f: seq<T>)
    requires AllTied(cmp, t) && t != [] && f == [t[|t| - 1]] + t[..|t| - 1]
    ensures AllTied(cmp, f)
  {
    assert forall i :: 0 <= i < |f| ==> f[i] == t[if i == 0 then |t| - 1 else i - 1];
  }

  lemma TiedSift<T>(cmp: (T, T) -> bool, f: seq<T>)
    requires AllTied(cmp, f)
    ensures SiftDown(cmp, f, 0) == f
  {
  }

  /** Behind any root, tied elements follow it last one first. */
  lemma TiedPop<T>(cmp: (T, T) -> bool, e: seq<T>)
    requires |e| > 1 && AllTied(cmp, e[1..])
    ensures Pop(cmp, e) == [e[|e| - 1]] + e[1..|e| - 1]
    ensures AllTied(cmp, Pop(cmp, e))
  {
    var f := [e[|e| - 1]] + e[1..|e| - 1];
    assert e[..|e| - 1][0 := e[|e| - 1]] == f;
    assert e[1..][..|e| - 2] == e[1..|e| - 1];
    TiedTurned(cmp, e[1..], f);
    hide AllTied;
    assert SiftDown(cmp, f, 0) == f by {
      TiedSift(cmp, f);
    }
  }

  lemma TiedTail<T>(cmp: (T, T) -> bool, e: seq<T>)
    requires AllTied(cmp, e) && |e| > 0
    ensures AllTied(cmp, e[1..])
  {
  }

  /** Tied elements leave first, last, last but one, and so on: each pop moves the last element
      to the root. */
  lemma {:induction false} TiedDrain<T>(cmp: (T, T) -> bool, e: seq<T>)
    requires AllTied(cmp, e) && |e| > 0
    ensures Drain(cmp, e) == [e[0]] + Reversed(e[1..])
    decreases |e|
  {
    if |e| > 1 {
      TiedTail(cmp, e);
      TiedPop(cmp, e);
      hide Pop, AllTied;
      TiedDrain(cmp, Pop(cmp, e));
      assert e[1..][..|e| - 2] == e[1..|e| - 1] == Pop(cmp, e)[1..];
    }
  }

  lemma {:induction false} ReverseAt<T>(s: seq<T>, i: nat)
    requires i < |s|
    ensures Reversed(s)[i] == s[|s| - 1 - i]
  {
    if i > 0 {
      ReverseAt(s[..|s| - 1], i - 1);
    }
  }

  /** Elements that are all different read the same backwards only if there is at most one. */
  lemma ReverseFixedIff<T>(s: seq<T>)
    requires forall i, j :: 0 <= i < j < |s| ==> s[i] != s[j]
    ensures Reversed(s) == s <==> |s| <= 1
  {
    if |s| > 1 {
      ReverseAt(s, 0);
    }
  }

  // ---------- First in, first out ----------

  /** What a run puts in, in order. */
  function Pushed<T>(ops: seq<Op<T>>): seq<T> {
    if |ops| == 0 then []
    else Pushed(ops[..|ops| - 1]) + match ops[|ops| - 1] case OpPush(v) => [v] case OpPop => []
  }

  /** What a run takes out, in order. */
  function Popped<T>(cmp: (T, T) -> bool, ops: seq<Op<T>>): seq<T> {
    if |ops| == 0 then []
    else
      var e := RunOps(cmp, ops[..|ops| - 1]);
      Popped(cmp, ops[..|ops| - 1]) + if ops[|ops| - 1].OpPop? && e != [] then [e[0]] else []
  }

  lemma OneMore<T>(cmp: (T, T) -> bool, ops: seq<Op<T>>, op: Op<T>)
    ensures RunOps(cmp, ops + [op]) == Apply(cmp, RunOps(cmp, ops), op)
    ensures Pushed(ops + [op]) == match op case OpPush(v) => Pushed(ops) + [v] case OpPop => Pushed(ops)
    ensures Popped(cmp, ops + [op]) ==
            Popped(cmp, ops) + if op.OpPop? && RunOps(cmp, ops) != [] then [RunOps(cmp, ops)[0]] else []
  {
    hide Push, Pop;
    assert (ops + [op])[..|ops|] == ops;
  }

  /** The elements of s that are of kind k. */
  function OfKind<T, K(==)>(s: seq<T>, kind: T -> K, k: K): seq<T> {
    if |s| == 0 then []
    else OfKind(s[..|s| - 1], kind, k) + if kind(s[|s| - 1]) == k then [s[|s| - 1]] else []
  }

  lemma {:induction false} OfKindConcat<T, K>(s: seq<T>, t: seq<T>, kind: T -> K, k: K)
    ensures OfKind(s + t, kind, k) == OfKind(s, kind, k) + OfKind(t, kind, k)
    decreases |t|
  {
    if |t| == 0 {
      assert s + t == s;
    } else {
      assert (s + t)[..|s + t| - 1] == s + t[..|t| - 1];
      OfKindConcat(s, t[..|t| - 1], kind, k);
    }
  }

  lemma OfKindOne<T, K>(s: seq<T>, x: T, kind: T -> K, k: K)
    ensures OfKind(s + [x], kind, k) == if kind(x) == k then OfKind(s, kind, k) + [x] else OfKind(s, kind, k)
  {
    assert (s + [x])[..|s|] == s;
  }

  lemma {:induction false} OfKindCount<T, K>(s: seq<T>, kind: T -> K, k: K, x: T)
    ensures multiset(OfKind(s, kind, k))[x] == if kind(x) == k then multiset(s)[x] else 0
  {
    if |s| > 0 {
      var n := |s| - 1;
      OfKindCount(s[..n], kind, k, x);
      assert s == s[..n] + [s[n]];
    }
  }

  lemma {:induction false} OfKindIndex<T, K>(s: seq<T>, kind: T -> K, k: K, i: nat) returns (a: nat)
    requires i < |OfKind(s, kind, k)|
    ensures i <= a < |s| && s[a] == OfKind(s, kind, k)[i] && kind(s[a]) == k
  {
    var n := |s| - 1;
    if i == |OfKind(s[..n], kind, k)| {
      OfKindShort(s[..n], kind, k);
      a := n;
    } else {
      a := OfKindIndex(s[..n], kind, k, i);
    }
  }

  lemma {:induction false} OfKindShort<T, K>(s: seq<T>, kind: T -> K, k: K)
    ensures |OfKind(s, kind, k)| <= |s|
  {
    if |s| > 0 {
      OfKindShort(s[..|s| - 1], kind, k);
    }
  }

  /** Selecting keeps the order. */
  lemma {:induction false} OfKindPair<T, K>(s: seq<T>, kind: T -> K, k: K, i: nat, j: nat) returns (a: nat, b: nat)
    requires i < j < |OfKind(s, kind, k)|
    ensures i <= a < b < |s| && kind(s[a]) == kind(s[b]) == k
    ensures s[a] == OfKind(s, kind, k)[i] && s[b] == OfKind(s, kind, k)[j]
  {
    var n := |s| - 1;
    if j == |OfKind(s[..n], kind, k)| {
      a := OfKindIndex(s[..n], kind, k, i);
      b := n;
    } else {
      a, b := OfKindPair(s[..n], kind, k, i, j);
    }
  }

  lemma OfKindFirst<T, K>(s: seq<T>, kind: T -> K)
    requires s != []
    ensures OfKind(s, kind, kind(s[0])) != [] && OfKind(s, kind, kind(s[0]))[0] == s[0]
  {
    var k := kind(s[0]);
    assert s == [s[0]] + s[1..];
    OfKindConcat([s[0]], s[1..], kind, k);
    OfKindOne([], s[0], kind, k);
    assert [] + [s[0]] == [s[0]];
  }

  /** From the second element on, elements of one kind that tie are equal. */
  ghost predicate OnlyFirstTies<T, K>(cmp: (T, T) -> bool, kind: T -> K, s: seq<T>) {
    forall i, j :: 1 <= i < j < |s| && kind(s[i]) == kind(s[j]) && Tied(cmp, s[i], s[j]) ==> s[i] == s[j]
  }

  /** Of each kind, what was taken out is the beginning of what was put in. */
  ghost predicate InTurn<T, K(!new)>(kind: T -> K, pushed: seq<T>, popped: seq<T>) {
    forall k :: OfKind(popped, kind, k) <= OfKind(pushed, kind, k)
  }

  /** The heap e holds what was put in and not taken out; up to the first pop, which takes the first
      element, it is in the order of arrival; and each kind leaves in turn. */
  ghost predicate Fifo<T, K(!new)>(cmp: (T, T) -> bool, kind: T -> K, pushed: seq<T>, popped: seq<T>, e: seq<T>) {
    && Heap(cmp, e)
    && multiset(pushed) == multiset(e) + multiset(popped)
    && (if popped == [] then e == pushed else pushed != [] && popped[0] == pushed[0])
    && InTurn(kind, pushed, popped)
  }

  lemma SortedPush<T>(cmp: (T, T) -> bool, e: seq<T>, v: T)
    requires Sorted(cmp, e + [v])
    ensures Push(cmp, e, v) == e + [v]
  {
    assert |e| > 0 ==> !cmp((e + [v])[|e| / 2], (e + [v])[|e|]);
  }

  lemma SortedPart<T>(cmp: (T, T) -> bool, s: seq<T>, i: nat, j: nat)
    requires Sorted(cmp, s) && i <= j <= |s|
    ensures Sorted(cmp, s[i..j])
  {
  }

  lemma PushFifo<T(!new), K(!new)>(cmp: (T, T) -> bool, kind: T -> K, pushed: seq<T>, popped: seq<T>, e: seq<T>,
                                   v: T)
    requires StrictWeakOrder(cmp) && Fifo(cmp, kind, pushed, popped, e) && Sorted(cmp, pushed + [v])
    ensures Fifo(cmp, kind, pushed + [v], popped, Push(cmp, e, v))
  {
    PushHeap(cmp, e, v);
    PushContents(cmp, e, v);
    if popped == [] {
      SortedPush(cmp, e, v);
    }
    hide Push, Heap, StrictWeakOrder, Sorted;
    forall k: K
      ensures OfKind(popped, kind, k) <= OfKind(pushed + [v], kind, k)
    {
      OfKindOne(pushed, v, kind, k);
    }
  }

  /** What the heap holds of one kind is what is still to come of it. */
  lemma Remaining<T(!new), K(!new)>(cmp: (T, T) -> bool, kind: T -> K, pushed: seq<T>, popped: seq<T>, e: seq<T>, k: K)
    requires Fifo(cmp, kind, pushed, popped, e)
    ensures OfKind(popped, kind, k) <= OfKind(pushed, kind, k)
    ensures multiset(OfKind(e, kind, k)) == multiset(OfKind(pushed, kind, k)[|OfKind(popped, kind, k)|..])
  {
    var u, w := OfKind(pushed, kind, k), OfKind(popped, kind, k);
    hide OfKind, Heap;
    assert u == w + u[|w|..];
    var held, rest := multiset(OfKind(e, kind, k)), multiset(u[|w|..]);
    forall x: T
      ensures held[x] == rest[x]
    {
      OfKindCount(e, kind, k, x);
      OfKindCount(pushed, kind, k, x);
      OfKindCount(popped, kind, k, x);
    }
    assert held == rest;
  }

  /** The root is the element of its kind that has waited longest. */
  lemma RootIsNext<T(!new), K(!new)>(cmp: (T, T) -> bool, kind: T -> K, pushed: seq<T>, popped: seq<T>, e: seq<T>)
    requires StrictWeakOrder(cmp) && Fifo(cmp, kind, pushed, popped, e) && e != []
    requires Sorted(cmp, pushed) && OnlyFirstTies(cmp, kind, pushed)
    ensures var u, m := OfKind(pushed, kind, kind(e[0])), |OfKind(popped, kind, kind(e[0]))|;
            m < |u| && u[m] == e[0]
  {
    var k := kind(e[0]);
    var u, w := OfKind(pushed, kind, k), OfKind(popped, kind, k);
    if popped == [] {
      OfKindFirst(e, kind);
    } else {
      Remaining(cmp, kind, pushed, popped, e, k);
      OfKindFirst(e, kind);
      RootMinimum(cmp, e);
      OfKindFirst(pushed, kind);
      OfKindFirst(popped, kind);
      hide OfKind, Heap, StrictWeakOrder;
      var j := NextAndRoot(cmp, kind, e, u[|w|..]);
      if j > 0 {
        var a, b := OfKindPair(pushed, kind, k, |w|, |w| + j);
        assert !cmp(pushed[a], pushed[b]);
      }
    }
  }

  /** The root is among what is to come of its kind, and no greater than the next of it. */
  lemma NextAndRoot<T(!new), K>(cmp: (T, T) -> bool, kind: T -> K, e: seq<T>, rest: seq<T>) returns (j: nat)
    requires e != [] && Minimum(cmp, e[0], e)
    requires OfKind(e, kind, kind(e[0])) != [] && OfKind(e, kind, kind(e[0]))[0] == e[0]
    requires multiset(OfKind(e, kind, kind(e[0]))) == multiset(rest)
    ensures j < |rest| && rest[j] == e[0] && !cmp(e[0], rest[0])
  {
    var k := kind(e[0]);
    var mine := OfKind(e, kind, k);
    OfKindCount(e, kind, k, e[0]);
    assert mine[0] in multiset(mine);
    assert e[0] in multiset(rest);
    j :| 0 <= j < |rest| && rest[j] == e[0];
    assert rest[0] in multiset(rest);
    assert rest[0] in multiset(mine);
    OfKindCount(e, kind, k, rest[0]);
    assert rest[0] in multiset(e);
  }

  lemma PopFifo<T(!new), K(!new)>(cmp: (T, T) -> bool, kind: T -> K, pushed: seq<T>, popped: seq<T>, e: seq<T>)
    requires StrictWeakOrder(cmp) && Fifo(cmp, kind, pushed, popped, e) && e != []
    requires Sorted(cmp, pushed) && OnlyFirstTies(cmp, kind, pushed)
    ensures Fifo(cmp, kind, pushed, popped + [e[0]], Pop(cmp, e))
  {
    RootIsNext(cmp, kind, pushed, popped, e);
    PopHeap(cmp, e);
    PopContents(cmp, e);
    hide Pop, Heap, StrictWeakOrder, Sorted, OnlyFirstTies, OfKind, InTurn;
    NextInTurn(kind, pushed, popped, e[0]);
    OneMoved(multiset(pushed), multiset(e), popped, e[0]);
  }

  lemma OneMoved<T>(b: multiset<T>, e: multiset<T>, popped: seq<T>, x: T)
    requires b == e + multiset(popped) && x in e
    ensures b == (e - multiset{x}) + multiset(popped + [x])
  {
  }

  lemma NextInTurn<T, K(!new)>(kind: T -> K, pushed: seq<T>, popped: seq<T>, x: T)
    requires InTurn(kind, pushed, popped)
    requires var u, m := OfKind(pushed, kind, kind(x)), |OfKind(popped, kind, kind(x))|;
             m < |u| && u[m] == x
    ensures InTurn(kind, pushed, popped + [x])
  {
    hide OfKind;
    forall k: K
      ensures OfKind(popped + [x], kind, k) <= OfKind(pushed, kind, k)
    {
      OfKindOne(popped, x, kind, k);
    }
  }

  lemma PushedBefore<T, K>(cmp: (T, T) -> bool, kind: T -> K, s: seq<T>, t: seq<T>)
    requires s <= t
    ensures Sorted(cmp, t) ==> Sorted(cmp, s)
    ensures OnlyFirstTies(cmp, kind, t) ==> OnlyFirstTies(cmp, kind, s)
  {
  }

  lemma {:induction false} RunFifo<T(!new), K(!new)>(cmp: (T, T) -> bool, kind: T -> K, ops: seq<Op<T>>)
    requires StrictWeakOrder(cmp) && Sorted(cmp, Pushed(ops)) && OnlyFirstTies(cmp, kind, Pushed(ops))
    ensures Fifo(cmp, kind, Pushed(ops), Popped(cmp, ops), RunOps(cmp, ops))
  {
    hide RunOps, Popped, Pushed, Push, Pop, Fifo, StrictWeakOrder, Sorted, OnlyFirstTies;
    if ops == [] {
      NothingYet(cmp, kind);
    } else {
      var before, op := ops[..|ops| - 1], ops[|ops| - 1];
      assert ops == before + [op];
      OneMore(cmp, before, op);
      PushedBefore(cmp, kind, Pushed(before), Pushed(ops));
      RunFifo(cmp, kind, before);
      if op.OpPush? {
        assert Popped(cmp, ops) == Popped(cmp, before);
        PushFifo(cmp, kind, Pushed(before), Popped(cmp, before), RunOps(cmp, before), op.v);
      } else {
        PopAnyFifo(cmp, kind, Pushed(before), Popped(cmp, before), RunOps(cmp, before));
      }
    }
  }

  lemma NothingYet<T, K(!new)>(cmp: (T, T) -> bool, kind: T -> K)
    ensures Fifo(cmp, kind, Pushed([]), Popped(cmp, []), RunOps(cmp, []))
  {
  }

  lemma PopAnyFifo<T(!new), K(!new)>(cmp: (T, T) -> bool, kind: T -> K, pushed: seq<T>, popped: seq<T>, e: seq<T>)
    requires StrictWeakOrder(cmp) && Fifo(cmp, kind, pushed, popped, e)
    requires Sorted(cmp, pushed) && OnlyFirstTies(cmp, kind, pushed)
    ensures Fifo(cmp, kind, pushed, popped + if e != [] then [e[0]] else [], Pop(cmp, e))
  {
    hide Pop, Fifo, StrictWeakOrder, Sorted, OnlyFirstTies;
    PopNothing(cmp, e);
    if e != [] {
      PopFifo(cmp, kind, pushed, popped, e);
    } else {
      assert popped + [] == popped;
    }
  }

  lemma PopNothing<T>(cmp: (T, T) -> bool, e: seq<T>)
    ensures e == [] ==> Pop(cmp, e) == e
  {
  }

  lemma {:induction false} PushedConcat<T>(a: seq<Op<T>>, b: seq<Op<T>>)
    ensures Pushed(a + b) == Pushed(a) + Pushed(b)
    decreases |b|
  {
    if |b| == 0 {
      assert a + b == a;
    } else {
      assert (a + b)[..|a + b| - 1] == a + b[..|b| - 1];
      PushedConcat(a, b[..|b| - 1]);
    }
  }

  /** The run that pushes all of s. */
  function Pushes<T>(s: seq<T>): seq<Op<T>> {
    if |s| == 0 then [] else Pushes(s[..|s| - 1]) + [OpPush(s[|s| - 1])]
  }

  /** The run of n pops. */
  function Pops<T>(n: nat): (ops: seq<Op<T>>)
    ensures |ops| == n
  {
    if n == 0 then [] else Pops(n - 1) + [OpPop]
  }

  lemma {:induction false} PushesConcat<T>(s: seq<T>, t: seq<T>)
    ensures Pushes(s + t) == Pushes(s) + Pushes(t)
    decreases |t|
  {
    if |t| == 0 {
      assert s + t == s;
    } else {
      assert (s + t)[..|s + t| - 1] == s + t[..|t| - 1];
      PushesConcat(s, t[..|t| - 1]);
    }
  }

  lemma {:induction false} PopsFirst<T>(n: nat)
    requires n > 0
    ensures Pops<T>(n) == [OpPop] + Pops<T>(n - 1)
  {
    if n > 1 {
      PopsFirst<T>(n - 1);
    }
  }

  lemma PopKeeps<T>(cmp: (T, T) -> bool, b: multiset<T>, popped: seq<T>, e: seq<T>)
    requires b == multiset(e) + multiset(popped)
    ensures b == multiset(Pop(cmp, e)) + multiset(popped + if e != [] then [e[0]] else [])
  {
    PopNothing(cmp, e);
    hide Pop;
    if e == [] {
      assert popped + [] == popped;
    } else {
      PopContents(cmp, e);
      OneMoved(b, multiset(e), popped, e[0]);
    }
  }

  /** What was pushed is what a run holds and what it has taken out. */
  lemma {:induction false} RunContents<T>(cmp: (T, T) -> bool, ops: seq<Op<T>>)
    ensures multiset(Pushed(ops)) == multiset(RunOps(cmp, ops)) + multiset(Popped(cmp, ops))
  {
    if |ops| > 0 {
      var before, op := ops[..|ops| - 1], ops[|ops| - 1];
      var e := RunOps(cmp, before);
      assert ops == before + [op];
      OneMore(cmp, before, op);
      RunContents(cmp, before);
      hide RunOps, Popped, Pushed, Push, Pop;
      if op.OpPush? {
        PushContents(cmp, e, op.v);
        assert Popped(cmp, ops) == Popped(cmp, before);
      } else {
        PopKeeps(cmp, multiset(Pushed(before)), Popped(cmp, before), e);
      }
    }
  }

  lemma PushedOne<T>(v: T)
    ensures Pushed([OpPush(v)]) == [v]
  {
    assert [OpPush(v)][..0] == [];
  }

  lemma {:induction false} PushesRun<T>(s: seq<T>)
    ensures Pushed(Pushes(s)) == s
  {
    if s != [] {
      var n := |s| - 1;
      PushesRun(s[..n]);
      PushedConcat(Pushes(s[..n]), [OpPush(s[n])]);
      hide Pushed;
      assert Pushed([OpPush(s[n])]) == [s[n]] by { PushedOne(s[n]); }
    }
  }

  /** Elements in order are only appended. */
  lemma {:induction false} AfterPushes<T>(cmp: (T, T) -> bool, ops: seq<Op<T>>, s: seq<T>)
    requires Sorted(cmp, RunOps(cmp, ops) + s)
    ensures Pushed(ops + Pushes(s)) == Pushed(ops) + s
    ensures Popped(cmp, ops + Pushes(s)) == Popped(cmp, ops)
    ensures RunOps(cmp, ops + Pushes(s)) == RunOps(cmp, ops) + s
    decreases |s|
  {
    PushesRun(s);
    PushedConcat(ops, Pushes(s));
    hide RunOps, Pushed, Popped, Sorted;
    if s == [] {
      assert ops + Pushes(s) == ops && RunOps(cmp, ops) + s == RunOps(cmp, ops);
    } else {
      var n := |s| - 1;
      var e := RunOps(cmp, ops);
      assert e + s == e + s[..n] + [s[n]];
      SortedPart(cmp, e + s, 0, |e| + n);
      assert (e + s)[0..|e| + n] == e + s[..n];
      AfterPushes(cmp, ops, s[..n]);
      OnePushMore(ops, s);
      hide Pushes;
      OneMore(cmp, ops + Pushes(s[..n]), OpPush(s[n]));
      SortedPush(cmp, e + s[..n], s[n]);
    }
  }

  lemma OnePushMore<T>(ops: seq<Op<T>>, s: seq<T>)
    requires s != []
    ensures ops + Pushes(s) == ops + Pushes(s[..|s| - 1]) + [OpPush(s[|s| - 1])]
  {
    var most, last := Pushes(s[..|s| - 1]), [OpPush(s[|s| - 1])];
    assert Pushes(s) == most + last;
    hide Pushes;
    Associative(ops, most, last);
  }

  lemma Associative<T>(a: seq<T>, b: seq<T>, c: seq<T>)
    ensures a + (b + c) == a + b + c
  {
  }

  lemma {:induction false} AfterPops<T>(cmp: (T, T) -> bool, ops: seq<Op<T>>, n: nat)
    requires n <= |RunOps(cmp, ops)|
    ensures |RunOps(cmp, ops + Pops(n))| == |RunOps(cmp, ops)| - n
    decreases n
  {
    hide RunOps, Pop;
    if n == 0 {
      assert ops + Pops(0) == ops;
    } else {
      AfterPops(cmp, ops, n - 1);
      OnePopMore(ops, n);
      hide Pops;
      OneMore(cmp, ops + Pops(n - 1), OpPop);
    }
  }

  lemma OnePopMore<T>(ops: seq<Op<T>>, n: nat)
    requires n > 0
    ensures ops + Pops(n) == ops + Pops(n - 1) + [OpPop]
  {
    Associative(ops, Pops(n - 1), [OpPop]);
  }

  lemma {:induction false} PopsPushNothing<T>(n: nat)
    ensures Pushed(Pops<T>(n)) == []
  {
    if n > 0 {
      PopsPushNothing<T>(n - 1);
      assert Pops<T>(n)[..n - 1] == Pops<T>(n - 1);
    }
  }

  /** All of s goes in, and all but one element comes out. */
  function HoldOne<T>(s: seq<T>): seq<Op<T>>
    requires s != []
  {
    Pushes(s) + Pops(|s| - 1)
  }

  /** Of each kind all came out in order, once the one that is held has. */
  lemma OneHeld<T(!new), K(!new)>(cmp: (T, T) -> bool, kind: T -> K, s: seq<T>, k: K) returns (h: T)
    requires StrictWeakOrder(cmp) && s != [] && Sorted(cmp, s) && OnlyFirstTies(cmp, kind, s)
    ensures Pushed(HoldOne(s)) == s
    ensures RunOps(cmp, HoldOne(s)) == [h] && h in s
    ensures OfKind(Popped(cmp, HoldOne(s)) + [h], kind, k) == OfKind(s, kind, k)
  {
    hide RunOps, Pushed, Popped, StrictWeakOrder, Sorted, OnlyFirstTies, Heap, OfKind, InTurn, Pop;
    FromEmpty(cmp, s);
    AfterPops(cmp, Pushes(s), |s| - 1);
    PopsPushNothing<T>(|s| - 1);
    PushedConcat(Pushes(s), Pops(|s| - 1));
    assert s + [] == s;
    RunFifo(cmp, kind, HoldOne(s));
    h := RunOps(cmp, HoldOne(s))[0];
    assert RunOps(cmp, HoldOne(s)) == [h];
    assert h in multiset(s);
    OneMore(cmp, HoldOne(s), OpPop);
    RunFifo(cmp, kind, HoldOne(s) + [OpPop]);
    var e := RunOps(cmp, HoldOne(s) + [OpPop]);
    assert e == [] by {
      PopContents(cmp, [h]);
      assert |e| == |multiset(e)|;
    }
    Remaining(cmp, kind, s, Popped(cmp, HoldOne(s) + [OpPop]), e, k);
    NoneOfNothing(e, kind, k);
    var rest := OfKind(s, kind, k)[|OfKind(Popped(cmp, HoldOne(s) + [OpPop]), kind, k)|..];
    assert |rest| == |multiset(rest)| == 0;
  }

  lemma NoneOfNothing<T, K>(e: seq<T>, kind: T -> K, k: K)
    requires e == []
    ensures OfKind(e, kind, k) == []
  {
  }

  lemma FromEmpty<T>(cmp: (T, T) -> bool, s: seq<T>)
    requires Sorted(cmp, s)
    ensures Pushed(Pushes(s)) == s && Popped(cmp, Pushes(s)) == [] && RunOps(cmp, Pushes(s)) == s
  {
    assert RunOps(cmp, []) + s == s && Pushed([]) + s == s;
    AfterPushes(cmp, [], s);
    assert [] + Pushes(s) == Pushes(s);
  }

  /** Behind the first element, s[j] is of the kind of s[i], ties with it and differs from it. With
      elements before j nothing of the sort happens; s[a] starts the tie, unless that includes the
      first element; and s[i] is the first of its kind in it. */
  ghost predicate FirstMisfit<T, K>(cmp: (T, T) -> bool, kind: T -> K, s: seq<T>, a: nat, i: nat, j: nat) {
    && 1 <= a <= i < j < |s|
    && kind(s[i]) == kind(s[j]) && s[i] != s[j]
    && (forall m :: a <= m < i ==> kind(s[m]) != kind(s[j]))
    && Tied(cmp, s[a], s[j])
    && (a == 1 || !Tied(cmp, s[a - 1], s[j]))
    && OnlyFirstTies(cmp, kind, s[..j])
  }

  lemma {:induction false} FindMisfit<T(!new), K>(cmp: (T, T) -> bool, kind: T -> K, s: seq<T>)
    returns (a: nat, i: nat, j: nat)
    requires StrictWeakOrder(cmp) && Sorted(cmp, s) && !OnlyFirstTies(cmp, kind, s)
    ensures FirstMisfit(cmp, kind, s, a, i, j)
    decreases |s|
  {
    var n := |s| - 1;
    if !OnlyFirstTies(cmp, kind, s[..n]) {
      a, i, j := FindMisfit(cmp, kind, s[..n]);
      assert s[..n][..j] == s[..j];
    } else {
      j := n;
      var c :| 1 <= c < n && kind(s[c]) == kind(s[n]) && Tied(cmp, s[c], s[n]) && s[c] != s[n];
      a, i := StartOfTie(cmp, kind, s, c);
    }
  }

  /** From s[c] back to where its tie with the last element starts. */
  lemma StartOfTie<T(!new), K>(cmp: (T, T) -> bool, kind: T -> K, s: seq<T>, c: nat) returns (a: nat, i: nat)
    requires StrictWeakOrder(cmp) && 1 <= c < |s| - 1 && OnlyFirstTies(cmp, kind, s[..|s| - 1])
    requires var z := s[|s| - 1]; kind(s[c]) == kind(z) && Tied(cmp, s[c], z) && s[c] != z
    ensures FirstMisfit(cmp, kind, s, a, i, |s| - 1)
  {
    var n := |s| - 1;
    var first := s[..n];
    hide StrictWeakOrder, Tied;
    a, i := c, c;
    while a > 1 && Tied(cmp, s[a - 1], s[n])
      invariant 1 <= a <= i < n && Tied(cmp, s[a], s[n])
      invariant kind(s[i]) == kind(s[n]) && Tied(cmp, s[i], s[n]) && s[i] != s[n]
      invariant forall m :: a <= m < i ==> kind(s[m]) != kind(s[n])
    {
      a := a - 1;
      if kind(s[a]) == kind(s[n]) {
        BothTied(cmp, s[a], s[i], s[n]);
        assert first[a] == s[a] && first[i] == s[i];
        i := a;
      }
    }
  }

  lemma BothTied<T(!new)>(cmp: (T, T) -> bool, x: T, y: T, z: T)
    requires StrictWeakOrder(cmp) && Tied(cmp, x, z) && Tied(cmp, y, z)
    ensures Tied(cmp, x, y)
  {
  }

  /** Put in `first`, take out all but one of it, put in t, and take out two more. */
  function Misorder<T>(first: seq<T>, t: seq<T>): seq<Op<T>>
    requires first != []
  {
    HoldOne(first) + Pushes(t) + Pops(2)
  }

  lemma TiedToOne<T(!new)>(cmp: (T, T) -> bool, s: seq<T>, i: nat, j: nat)
    requires StrictWeakOrder(cmp) && Sorted(cmp, s) && i < j < |s| && Tied(cmp, s[i], s[j])
    ensures AllTied(cmp, s[i..j + 1])
  {
    forall k, m | i <= k <= j && i <= m <= j
      ensures !cmp(s[k], s[m])
    {
      assert !cmp(s[i], s[m]) && !cmp(s[k], s[j]);
      if m < k {
        assert !cmp(s[j], s[i]);
        assert k == j || !cmp(s[k], s[j]);
        Transitive(cmp, s[k], s[j], s[i]);
        assert m == i || !cmp(s[i], s[m]);
        Transitive(cmp, s[k], s[i], s[m]);
      }
    }
  }

  lemma Misordered<T(!new), K(!new)>(cmp: (T, T) -> bool, kind: T -> K, s: seq<T>, a: nat, i: nat, j: nat)
    requires StrictWeakOrder(cmp) && Sorted(cmp, s) && FirstMisfit(cmp, kind, s, a, i, j)
    ensures Pushed(Misorder(s[..a], s[a..j + 1])) == s[..j + 1]
    ensures !InTurn(kind, s, Popped(cmp, Misorder(s[..a], s[a..j + 1])))
  {
    var k, first, t := kind(s[j]), s[..a], s[a..j + 1];
    TiedToOne(cmp, s, a, j);
    SortedPart(cmp, s, 0, j + 1);
    hide RunOps, Pushed, Popped, StrictWeakOrder, OnlyFirstTies, Sorted, Tied, AllTied, Misorder, OfKind, InTurn;
    Pieces(s, a, j);
    PushedBefore(cmp, kind, first, s[..j]);
    LastComesOut(cmp, kind, first, t, k);
    NextOfKind(kind, s, a, i, k);
    OutOfTurn(kind, s, Popped(cmp, Misorder(first, t)), OfKind(first, kind, k), s[j]);
  }

  lemma Pieces<T>(s: seq<T>, a: nat, j: nat)
    requires a <= j < |s|
    ensures s[..a] <= s[..j]
    ensures s[..a] + s[a..j + 1] == s[0..j + 1] == s[..j + 1]
    ensures s[a..j + 1][|s[a..j + 1]| - 1] == s[j]
  {
  }

  lemma OutOfTurn<T, K(!new)>(kind: T -> K, s: seq<T>, popped: seq<T>, u: seq<T>, x: T)
    requires OfKind(popped, kind, kind(x)) == u + [x]
    requires |u| < |OfKind(s, kind, kind(x))| ==> OfKind(s, kind, kind(x))[|u|] != x
    ensures !InTurn(kind, s, popped)
  {
    hide OfKind;
    assert (u + [x])[|u|] == x;
    assert !(OfKind(popped, kind, kind(x)) <= OfKind(s, kind, kind(x)));
  }

  /** After all that came first, the next to come out is the last of the tied ones. */
  lemma LastComesOut<T(!new), K(!new)>(cmp: (T, T) -> bool, kind: T -> K, first: seq<T>, t: seq<T>, k: K)
    requires StrictWeakOrder(cmp) && first != [] && t != [] && Sorted(cmp, first + t)
    requires OnlyFirstTies(cmp, kind, first) && AllTied(cmp, t) && kind(t[|t| - 1]) == k
    ensures Pushed(Misorder(first, t)) == first + t
    ensures OfKind(Popped(cmp, Misorder(first, t)), kind, k) == OfKind(first, kind, k) + [t[|t| - 1]]
  {
    PushedBefore(cmp, kind, first, first + t);
    hide RunOps, Pushed, Popped, StrictWeakOrder, OnlyFirstTies, HoldOne, Sorted, AllTied, OfKind, Pushes, Misorder;
    var h := OneHeld(cmp, kind, first, k);
    HeldBefore(cmp, first, t, h);
    LastOvertakes(cmp, HoldOne(first), h, t);
    MisorderIs(first, t);
    OfKindOne(Popped(cmp, HoldOne(first)) + [h], t[|t| - 1], kind, k);
  }

  lemma HeldBefore<T>(cmp: (T, T) -> bool, first: seq<T>, t: seq<T>, h: T)
    requires Sorted(cmp, first + t) && h in first
    ensures Sorted(cmp, [h] + t)
  {
    var i :| 0 <= i < |first| && first[i] == h;
    assert (first + t)[i] == h;
    assert forall m :: 0 <= m < |t| ==> t[m] == (first + t)[|first| + m];
  }

  /** If s[i] is the first of its kind from s[a] on, it follows those of its kind before s[a]. */
  lemma NextOfKind<T, K>(kind: T -> K, s: seq<T>, a: nat, i: nat, k: K)
    requires a <= i < |s| && kind(s[i]) == k && forall m :: a <= m < i ==> kind(s[m]) != k
    ensures var u := OfKind(s[..a], kind, k);
            OfKind(s, kind, k) != u && u <= OfKind(s, kind, k) && OfKind(s, kind, k)[|u|] == s[i]
  {
    assert s == s[..a] + s[a..i] + s[i..];
    OfKindConcat(s[..a] + s[a..i], s[i..], kind, k);
    OfKindConcat(s[..a], s[a..i], kind, k);
    OfKindFirst(s[i..], kind);
    if OfKind(s[a..i], kind, k) != [] {
      var m := OfKindIndex(s[a..i], kind, k, 0);
    }
  }

  lemma MisorderIs<T>(first: seq<T>, t: seq<T>)
    requires first != []
    ensures Misorder(first, t) == HoldOne(first) + Pushes(t) + [OpPop] + [OpPop]
  {
    hide HoldOne, Pushes;
    assert Pops<T>(0) == [] && Pops<T>(1) == [OpPop];
    assert Pops<T>(2) == [OpPop] + [OpPop];
  }

  /** Tied elements pushed behind one that is held: the next to leave after it is the last of them. */
  lemma LastOvertakes<T(!new)>(cmp: (T, T) -> bool, ops: seq<Op<T>>, h: T, t: seq<T>)
    requires RunOps(cmp, ops) == [h] && t != [] && AllTied(cmp, t) && Sorted(cmp, [h] + t)
    ensures var all := ops + Pushes(t) + [OpPop] + [OpPop];
            && Pushed(all) == Pushed(ops) + t
            && Popped(cmp, all) == Popped(cmp, ops) + [h] + [t[|t| - 1]]
  {
    hide RunOps, Pushed, Popped, AllTied, Sorted, Pop;
    AfterPushes(cmp, ops, t);
    var full := ops + Pushes(t);
    TiedBehind(cmp, h, t);
    OneMore(cmp, full, OpPop);
    OneMore(cmp, full + [OpPop], OpPop);
  }

  lemma TiedBehind<T>(cmp: (T, T) -> bool, h: T, t: seq<T>)
    requires t != [] && AllTied(cmp, t)
    ensures Pop(cmp, [h] + t) != [] && Pop(cmp, [h] + t)[0] == t[|t| - 1]
  {
    TiedPop(cmp, [h] + t);
    hide Pop;
  }

  /** Elements are pushed in order. In every interleaving of pushes and pops those of each kind leave
      in the order in which they came if and only if, from the second element on, no two different
      ones of a kind tie. With a single kind this is about the whole order. */
  lemma FifoIff<T(!new), K(!new)>(cmp: (T, T) -> bool, kind: T -> K, s: seq<T>)
    requires StrictWeakOrder(cmp) && Sorted(cmp, s)
    ensures (forall ops :: Pushed(ops) <= s ==> InTurn(kind, s, Popped(cmp, ops)))
            <==> OnlyFirstTies(cmp, kind, s)
  {
    hide StrictWeakOrder, Misorder, RunOps, Pushed, Popped, OfKind;
    if OnlyFirstTies(cmp, kind, s) {
      forall ops | Pushed(ops) <= s
        ensures InTurn(kind, s, Popped(cmp, ops))
      {
        PushedBefore(cmp, kind, Pushed(ops), s);
        RunFifo(cmp, kind, ops);
        InTurnOfMore(kind, Pushed(ops), s, Popped(cmp, ops));
      }
    } else {
      var a, i, j := FindMisfit(cmp, kind, s);
      Misordered(cmp, kind, s, a, i, j);
      assert Pushed(Misorder(s[..a], s[a..j + 1])) <= s;
    }
  }

  lemma InTurnOfMore<T, K(!new)>(kind: T -> K, s: seq<T>, t: seq<T>, popped: seq<T>)
    requires InTurn(kind, s, popped) && s <= t
    ensures InTurn(kind, t, popped)
  {
    hide OfKind;
    forall k: K
      ensures OfKind(popped, kind, k) <= OfKind(t, kind, k)
    {
      assert t == s + t[|s|..];
      OfKindConcat(s, t[|s|..], kind, k);
      assert OfKind(popped, kind, k) <= OfKind(s, kind, k);
    }
  }
}
