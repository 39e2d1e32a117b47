/** When the heap of Linksimulator/min_queue.c has every node smaller than its children, as its comment
    demands, and not only not greater. */
module HeapStrict {
  import opened HeapSpec
  import opened HeapTies

  // ---------- Strictness ----------

  /** "A node is always smaller than its child nodes", as min_queue.c has it. */
  ghost predicate StrictHeap<T>(cmp: (T, T) -> bool, e: seq<T>) {
    forall j :: 1 <= j < |e| ==> cmp(e[j], e[j / 2])
  }

  /** v ties with a slot on the path i / 2, i / 4, ..., 0. */
  predicate TieAbove<T>(cmp: (T, T) -> bool, e: seq<T>, i: nat, v: T)
    requires i <= |e|
  {
    i > 0 && (Tied(cmp, e[i / 2], v) || TieAbove(cmp, e, i / 2, v))
  }

  lemma GreaterTransitive<T(!new)>(cmp: (T, T) -> bool, a: T, b: T, c: T)
    requires StrictWeakOrder(cmp) && cmp(a, b) && cmp(b, c)
    ensures cmp(a, c)
  {
    if !cmp(a, c) {
      Asymmetric(cmp, b, c);
      Transitive(cmp, a, c, b);
    }
  }

  lemma {:induction false} TieAboveLocal<T>(cmp: (T, T) -> bool, e: seq<T>, f: seq<T>, i: nat, v: T)
    requires i <= |e| && |e| <= |f| && forall j :: 0 <= j < i ==> e[j] == f[j]
    ensures TieAbove(cmp, e, i, v) == TieAbove(cmp, f, i, v)
    decreases i
  {
    if i > 0 {
      TieAboveLocal(cmp, e, f, i / 2, v);
    }
  }

  /** On a strict path nothing above a smaller element ties. */
  lemma {:induction false} NoTieAbove<T(!new)>(cmp: (T, T) -> bool, e: seq<T>, i: nat, v: T)
    requires StrictWeakOrder(cmp) && i < |e| && cmp(v, e[i])
    requires forall j :: 1 <= j <= i ==> cmp(e[j], e[j / 2])
    ensures !TieAbove(cmp, e, i, v)
    decreases i
  {
    if i > 0 {
      GreaterTransitive(cmp, v, e[i], e[i / 2]);
      NoTieAbove(cmp, e, i / 2, v);
    }
  }

  /** A strict heap but for slot i, which may be smaller than its parent or tie with it. */
  ghost predicate StrictBut<T>(cmp: (T, T) -> bool, e: seq<T>, i: nat) {
    && (forall j :: 1 <= j < |e| && j != i ==> cmp(e[j], e[j / 2]))
    && (forall j :: 1 <= j < |e| && j / 2 == i && i != 0 ==> cmp(e[j], e[i / 2]))
  }

  lemma SwapUpStrict<T(!new)>(cmp: (T, T) -> bool, e: seq<T>, i: nat)
    requires StrictWeakOrder(cmp) && 0 < i < |e|
    requires StrictBut(cmp, e, i) && cmp(e[i / 2], e[i])
    ensures StrictBut(cmp, Swap(e, i, i / 2), i / 2)
  {
    var p, f := i / 2, Swap(e, i, i / 2);
    forall j | 1 <= j < |e| && j != p
      ensures cmp(f[j], f[j / 2])
    {
      if j != i && j / 2 == p {
        GreaterTransitive(cmp, e[j], e[p], e[i]);
      }
    }
    forall j | 1 <= j < |e| && j / 2 == p && p != 0
      ensures cmp(f[j], f[p / 2])
    {
      if j != i {
        GreaterTransitive(cmp, e[j], e[p], e[p / 2]);
      }
    }
  }

  lemma {:induction false} SiftUpStrictIff<T(!new)>(cmp: (T, T) -> bool, e: seq<T>, i: nat)
    requires StrictWeakOrder(cmp) && i < |e| && StrictBut(cmp, e, i)
    ensures StrictHeap(cmp, SiftUp(cmp, e, i)) <==> !TieAbove(cmp, e, i, e[i])
    decreases i
  {
    if i > 0 {
      var p := i / 2;
      if cmp(e[p], e[i]) {
        var f := Swap(e, i, p);
        SwapUpStrict(cmp, e, i);
        SiftUpStrictIff(cmp, f, p);
        TieAboveLocal(cmp, e, f, p, e[i]);
      } else if cmp(e[i], e[p]) {
        NoTieAbove(cmp, e, p, e[i]);
      }
    }
  }

  /** A push keeps every node smaller than its children if and only if the pushed element ties
      with no slot on its way up to the root. */
  lemma PushStrictIff<T(!new)>(cmp: (T, T) -> bool, e: seq<T>, v: T)
    requires StrictWeakOrder(cmp) && StrictHeap(cmp, e)
    ensures StrictHeap(cmp, Push(cmp, e, v)) <==> !TieAbove(cmp, e, |e|, v)
  {
    SiftUpStrictIff(cmp, e + [v], |e|);
    TieAboveLocal(cmp, e, e + [v], |e|, v);
  }

  /** Two equal keys already break it. */
  lemma EqualKeysNotStrict<T(!new)>(cmp: (T, T) -> bool, a: T, b: T)
    requires StrictWeakOrder(cmp) && Tied(cmp, a, b)
    ensures StrictHeap(cmp, [a]) && !StrictHeap(cmp, Push(cmp, [a], b))
  {
    assert TieAbove(cmp, [a], 1, b);
    PushStrictIff(cmp, [a], b);
  }

  /** No two elements tie, equal ones counted as often as they are there. */
  ghost predicate NoTies<T>(cmp: (T, T) -> bool, e: seq<T>) {
    forall i, j :: 0 <= i < j < |e| ==> !Tied(cmp, e[i], e[j])
  }

  /** Where no two elements tie, every heap is strict, after pushes and pops alike. */
  lemma DistinctKeysStrict<T>(cmp: (T, T) -> bool, e: seq<T>)
    requires Heap(cmp, e) && NoTies(cmp, e)
    ensures StrictHeap(cmp, e)
  {
  }

  // ---------- Strictness over whole runs ----------

  ghost predicate NoTiesIn<T(!new)>(cmp: (T, T) -> bool, b: multiset<T>) {
    forall x, y :: x in b && y in b - multiset{x} ==> !Tied(cmp, x, y)
  }

  lemma Without<T>(e: seq<T>, i: nat)
    requires i < |e|
    ensures multiset(e) - multiset{e[i]} == multiset(e[..i] + e[i + 1..])
  {
    assert e == e[..i] + [e[i]] + e[i + 1..];
  }

  /** x, and y besides it, are in two places. */
  lemma TwoPlaces<T>(e: seq<T>, x: T, y: T) returns (i: nat, j: nat)
    requires x in multiset(e) && y in multiset(e) - multiset{x}
    ensures i < |e| && j < |e| && i != j && e[i] == x && e[j] == y
  {
    i :| 0 <= i < |e| && e[i] == x;
    Without(e, i);
    var rest := e[..i] + e[i + 1..];
    assert y in multiset(rest);
    var k :| 0 <= k < |rest| && rest[k] == y;
    j := if k < i then k else k + 1;
  }

  /** Ties do not depend on the order of the elements. */
  lemma NoTiesIff<T(!new)>(cmp: (T, T) -> bool, e: seq<T>)
    ensures NoTies(cmp, e) <==> NoTiesIn(cmp, multiset(e))
  {
    if NoTies(cmp, e) {
      forall x, y | x in multiset(e) && y in multiset(e) - multiset{x}
        ensures !Tied(cmp, x, y)
      {
        var i, j := TwoPlaces(e, x, y);
      }
    } else {
      var i, j :| 0 <= i < j < |e| && Tied(cmp, e[i], e[j]);
      Without(e, i);
      assert (e[..i] + e[i + 1..])[j - 1] == e[j];
      assert e[j] in multiset(e[..i] + e[i + 1..]);
    }
  }

  lemma NoTiesPart<T(!new)>(cmp: (T, T) -> bool, a: multiset<T>, b: multiset<T>)
    requires a <= b && NoTiesIn(cmp, b)
    ensures NoTiesIn(cmp, a)
  {
    forall x, y | x in a && y in a - multiset{x}
      ensures !Tied(cmp, x, y)
    {
      assert y in b - multiset{x};
    }
  }

  /** The heap after k pops. */
  function PopN<T>(cmp: (T, T) -> bool, e: seq<T>, k: nat): seq<T>
    decreases k
  {
    if k == 0 then e else PopN(cmp, Pop(cmp, e), k - 1)
  }

  /** In a strict heap everything is greater than the root. */
  lemma {:induction false} StrictRoot<T(!new)>(cmp: (T, T) -> bool, e: seq<T>, j: nat)
    requires StrictWeakOrder(cmp) && StrictHeap(cmp, e) && 1 <= j < |e|
    ensures cmp(e[j], e[0])
    decreases j
  {
    if j / 2 > 0 {
      StrictRoot(cmp, e, j / 2);
      GreaterTransitive(cmp, e[j], e[j / 2], e[0]);
    }
  }

  lemma {:induction false} PopsKeepNoTies<T(!new)>(cmp: (T, T) -> bool, e: seq<T>, k: nat)
    requires StrictWeakOrder(cmp) && Heap(cmp, e) && NoTiesIn(cmp, multiset(e))
    ensures StrictHeap(cmp, PopN(cmp, e, k))
    decreases k
  {
    if k == 0 {
      NoTiesIff(cmp, e);
      DistinctKeysStrict(cmp, e);
    } else {
      PopHeap(cmp, e);
      PopNothing(cmp, e);
      if e != [] {
        PopContents(cmp, e);
        NoTiesPart(cmp, multiset(Pop(cmp, e)), multiset(e));
      }
      hide Pop, Heap, StrictWeakOrder, NoTiesIn, StrictHeap;
      PopsKeepNoTies(cmp, Pop(cmp, e), k - 1);
    }
  }

  /** If two elements tie, some number of pops makes it show. */
  lemma {:induction false} TieShows<T(!new)>(cmp: (T, T) -> bool, e: seq<T>) returns (k: nat)
    requires StrictWeakOrder(cmp) && Heap(cmp, e) && !NoTies(cmp, e)
    ensures k < |e| && !StrictHeap(cmp, PopN(cmp, e, k))
    decreases |e|
  {
    assert e != [];
    hide Pop, Heap, StrictWeakOrder, NoTies, StrictHeap;
    if !StrictHeap(cmp, e) {
      k := 0;
    } else {
      RootDiffers(cmp, e);
      TieBehindRoot(cmp, e);
      PopHeap(cmp, e);
      TieStays(cmp, e);
      k := TieShows(cmp, Pop(cmp, e));
      k := k + 1;
    }
  }

  lemma RootDiffers<T(!new)>(cmp: (T, T) -> bool, e: seq<T>)
    requires StrictWeakOrder(cmp) && StrictHeap(cmp, e)
    ensures forall j :: 1 <= j < |e| ==> !Tied(cmp, e[0], e[j])
  {
    forall j | 1 <= j < |e|
      ensures !Tied(cmp, e[0], e[j])
    {
      StrictRoot(cmp, e, j);
    }
  }

  lemma TieStays<T(!new)>(cmp: (T, T) -> bool, e: seq<T>)
    requires e != [] && !NoTies(cmp, e[1..])
    ensures !NoTies(cmp, Pop(cmp, e))
  {
    hide Pop, NoTies, NoTiesIn;
    PopContents(cmp, e);
    Without(e, 0);
    assert e[..0] + e[1..] == e[1..];
    NoTiesIff(cmp, e[1..]);
    NoTiesIff(cmp, Pop(cmp, e));
  }

  lemma TieBehindRoot<T>(cmp: (T, T) -> bool, e: seq<T>)
    requires !NoTies(cmp, e) && forall j :: 1 <= j < |e| ==> !Tied(cmp, e[0], e[j])
    ensures e != [] && !NoTies(cmp, e[1..])
  {
    var i, j :| 0 <= i < j < |e| && Tied(cmp, e[i], e[j]);
    assert Tied(cmp, e[1..][i - 1], e[1..][j - 1]);
  }

  /** Every node stays smaller than its children through any number of pops if and only if no two
      elements of the heap tie. */
  lemma StrictThroughoutIff<T(!new)>(cmp: (T, T) -> bool, e: seq<T>)
    requires StrictWeakOrder(cmp) && Heap(cmp, e)
    ensures (forall k: nat :: StrictHeap(cmp, PopN(cmp, e, k))) <==> NoTies(cmp, e)
  {
    NoTiesIff(cmp, e);
    hide StrictWeakOrder, Heap, StrictHeap, NoTiesIn, NoTies;
    if NoTies(cmp, e) {
      forall k: nat
        ensures StrictHeap(cmp, PopN(cmp, e, k))
      {
        PopsKeepNoTies(cmp, e, k);
      }
    } else {
      var k := TieShows(cmp, e);
    }
  }

  lemma {:induction false} RunPops<T>(cmp: (T, T) -> bool, ops: seq<Op<T>>, k: nat)
    ensures RunOps(cmp, ops + Pops(k)) == PopN(cmp, RunOps(cmp, ops), k)
    decreases k
  {
    hide Pushed, RunOps, Popped, Pop;
    if k == 0 {
      assert ops + Pops(0) == ops;
    } else {
      OneMore(cmp, ops, OpPop);
      RunPops(cmp, ops + [OpPop], k - 1);
      PopsFirst<T>(k);
      assert ops + Pops(k) == ops + [OpPop] + Pops(k - 1);
    }
  }

  /** The invariant of min_queue.c: whatever is pushed, every node is smaller than its children in
      every interleaving of pushes and pops if and only if no two of the elements tie. */
  lemma StrictRunsIff<T(!new)>(cmp: (T, T) -> bool, s: seq<T>)
    requires StrictWeakOrder(cmp)
    ensures (forall ops :: Pushed(ops) == s ==> StrictHeap(cmp, RunOps(cmp, ops))) <==> NoTies(cmp, s)
  {
    hide Pushed, RunOps, NoTies, StrictHeap, StrictWeakOrder;
    if NoTies(cmp, s) {
      forall ops | Pushed(ops) == s
        ensures StrictHeap(cmp, RunOps(cmp, ops))
      {
        StrictRun(cmp, s, ops);
      }
    } else {
      var ops := TieShowsInRun(cmp, s);
    }
  }

  lemma StrictRun<T(!new)>(cmp: (T, T) -> bool, s: seq<T>, ops: seq<Op<T>>)
    requires StrictWeakOrder(cmp) && NoTies(cmp, s) && Pushed(ops) == s
    ensures StrictHeap(cmp, RunOps(cmp, ops))
  {
    var e := RunOps(cmp, ops);
    RunContents(cmp, ops);
    RunHeap(cmp, ops);
    hide Pushed, RunOps, Popped, Heap, NoTies, NoTiesIn, StrictHeap, StrictWeakOrder;
    NoTiesIff(cmp, s);
    NoTiesPart(cmp, multiset(e), multiset(s));
    NoTiesIff(cmp, e);
    DistinctKeysStrict(cmp, e);
  }

  lemma TieShowsInRun<T(!new)>(cmp: (T, T) -> bool, s: seq<T>) returns (ops: seq<Op<T>>)
    requires StrictWeakOrder(cmp) && !NoTies(cmp, s)
    ensures Pushed(ops) == s && !StrictHeap(cmp, RunOps(cmp, ops))
  {
    hide Pushed, RunOps, Popped, NoTies, NoTiesIn, StrictHeap, Heap, StrictWeakOrder, Pushes, Pops;
    var e := RunOps(cmp, Pushes(s));
    PushesRun(s);
    RunHeap(cmp, Pushes(s));
    PushContentsOnly(cmp, s);
    NoTiesIff(cmp, s);
    NoTiesIff(cmp, e);
    var k := TieShows(cmp, e);
    RunPops(cmp, Pushes(s), k);
    PopsPushNothing<T>(k);
    PushedConcat(Pushes(s), Pops(k));
    ops := Pushes(s) + Pops(k);
    assert s + [] == s;
  }

  lemma PushContentsOnly<T>(cmp: (T, T) -> bool, s: seq<T>)
    ensures multiset(RunOps(cmp, Pushes(s))) == multiset(s)
  {
    RunContents(cmp, Pushes(s));
    PushesRun(s);
    NothingPopped(cmp, s);
    hide RunOps, Pushed;
  }

  lemma {:induction false} NothingPopped<T>(cmp: (T, T) -> bool, s: seq<T>)
    ensures Popped(cmp, Pushes(s)) == []
  {
    if |s| > 0 {
      NothingPopped(cmp, s[..|s| - 1]);
      OneMore(cmp, Pushes(s[..|s| - 1]), OpPush(s[|s| - 1]));
      hide Popped;
    }
  }
}
