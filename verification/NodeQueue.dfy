/** Heap order on a sequence of keys, and what one swap of the sift loops does to it. */
module HeapOrder {
  function Parent(k: int): int { (k - 1) / 2 }

  predicate Above(keys: seq<real>, k: int)
    requires 0 < k < |keys|
  {
    0 <= Parent(k) < |keys| && keys[Parent(k)] <= keys[k]
  }

  predicate IsHeap(keys: seq<real>) {
    forall k :: 0 < k < |keys| ==> Above(keys, k)
  }

  /** The first `m` keys are in order except perhaps at entry `bad`, both towards its parent and
      towards its children; across the gap the order still holds. */
  predicate HeapBut(keys: seq<real>, m: int, bad: int) {
    && m <= |keys|
    && (forall k :: 0 < k < m && k != bad && Parent(k) != bad ==> Above(keys, k))
    && (forall k :: 0 < k < m && Parent(k) == bad && 0 < bad < |keys| ==> keys[Parent(bad)] <= keys[k])
  }

  predicate AboveChildren(keys: seq<real>, m: int, i: int) {
    forall k :: 0 < k < m <= |keys| && Parent(k) == i ==> Above(keys, k)
  }

  function Swapped(keys: seq<real>, i: int, j: int): seq<real>
    requires 0 <= i < |keys| && 0 <= j < |keys|
  {
    keys[i := keys[j]][j := keys[i]]
  }

  lemma UpStep(keys: seq<real>, j: int)
    requires 0 < j < |keys| && HeapBut(keys, |keys|, j) && AboveChildren(keys, |keys|, j)
    requires keys[j] < keys[Parent(j)]
    ensures HeapBut(Swapped(keys, Parent(j), j), |keys|, Parent(j))
    ensures AboveChildren(Swapped(keys, Parent(j), j), |keys|, Parent(j))
  {
    var i, swapped := Parent(j), Swapped(keys, Parent(j), j);
    forall k | 0 < k < |keys| && k != i ensures Above(swapped, k) {
      if Parent(k) == j {
        assert Above(keys, k);
      } else if k != j {
        assert Above(keys, k);
      }
    }
    forall k | 0 < k < |keys| && Parent(k) == i && 0 < i ensures swapped[Parent(i)] <= swapped[k] {
      assert Above(keys, i);
      if k != j { assert Above(keys, k); }
    }
  }

  lemma DownStep(keys: seq<real>, m: int, i: int, j: int)
    requires 0 <= i && 0 < j < m && Parent(j) == i && HeapBut(keys, m, i)
    requires keys[j] < keys[i] && forall k :: 0 < k < m && Parent(k) == i ==> keys[j] <= keys[k]
    ensures HeapBut(Swapped(keys, i, j), m, j)
    ensures Above(Swapped(keys, i, j), j) && (i > 0 ==> Above(Swapped(keys, i, j), i))
    ensures forall k :: 0 < k < i && Above(keys, k) ==> Above(Swapped(keys, i, j), k)
  {
    var swapped := Swapped(keys, i, j);
    forall k | 0 < k < m && k != j && Parent(k) != j ensures Above(swapped, k) {
      if k != i && Parent(k) != i { assert Above(keys, k); }
    }
    forall k | 0 < k < m && Parent(k) == j ensures swapped[Parent(j)] <= swapped[k] {
      assert Above(keys, k);
    }
  }

  lemma WholeAgain(keys: seq<real>, m: int, i: int)
    requires HeapBut(keys, m, i) && AboveChildren(keys, m, i)
    ensures forall k :: 0 < k < m && k != i ==> Above(keys, k)
  {
    forall k | 0 < k < m && k != i ensures Above(keys, k) {
      if Parent(k) == i {}
    }
  }

  lemma OnlyTwoChildren(k: int, i: int)
    requires 0 < k && Parent(k) == i
    ensures k == 2 * i + 1 || k == 2 * i + 2
  {}

  lemma NoChildren(keys: seq<real>, m: int, i: int)
    requires m <= 2 * i + 1
    ensures AboveChildren(keys, m, i)
  {}

  lemma SettledChildren(keys: seq<real>, m: int, i: int, j: int)
    requires 0 <= i < |keys| && 0 < j < m <= |keys| && keys[i] <= keys[j]
    requires forall k :: 0 < k < m && Parent(k) == i ==> keys[j] <= keys[k]
    ensures AboveChildren(keys, m, i)
  {}

  lemma KeyChanged(keys: seq<real>, i: int, x: real)
    requires IsHeap(keys) && 0 <= i < |keys|
    ensures HeapBut(keys[i := x], |keys|, i)
  {
    var changed := keys[i := x];
    forall k | 0 < k < |keys| && k != i && Parent(k) != i ensures Above(changed, k) { assert Above(keys, k); }
    forall k | 0 < k < |keys| && Parent(k) == i && 0 < i ensures changed[Parent(i)] <= changed[k] {
      assert Above(keys, k) && Above(keys, i);
    }
  }

  lemma LeafAppended(keys: seq<real>, x: real)
    requires IsHeap(keys)
    ensures HeapBut(keys + [x], |keys| + 1, |keys|) && AboveChildren(keys + [x], |keys| + 1, |keys|)
  {
    var longer := keys + [x];
    forall k | 0 < k < |keys| ensures Above(longer, k) { assert Above(keys, k); }
  }

  lemma RootReplaced(keys: seq<real>, n: int)
    requires IsHeap(keys) && 0 <= n < |keys|
    ensures HeapBut(Swapped(keys, 0, n), n, 0)
  {
    var swapped := Swapped(keys, 0, n);
    forall k | 0 < k < n && Parent(k) != 0 ensures Above(swapped, k) { assert Above(keys, k); }
  }

  lemma PrefixIsHeap(keys: seq<real>, n: int)
    requires 0 <= n <= |keys| && forall k :: 0 < k < n ==> Above(keys, k)
    ensures IsHeap(keys[..n])
  {
    forall k | 0 < k < n ensures Above(keys[..n], k) { assert Above(keys, k); }
  }

  /** The root has the least key. */
  lemma {:induction false} RootIsLeast(keys: seq<real>, k: nat)
    requires IsHeap(keys) && k < |keys|
    ensures keys[0] <= keys[k]
  {
    if k == 0 {
    } else {
      assert Above(keys, k);
      RootIsLeast(keys, Parent(k));
    }
  }
}

/** The A* open set (render/autoroute_search.go, `nodeQueue`): a binary heap of cells ordered by
    `f`, with `pos` saying where each cell sits so that its key can be lowered in place. The sift
    loops are those of Go's container/heap, which the queue is driven through. */
module NodeQueues {
  import opened HeapOrder

  class NodeQueue {
    var items: seq<int>
    const f: array<real>
    const pos: array<int>

    constructor (n: nat)
      ensures fresh(f) && fresh(pos) && f.Length == n && pos.Length == n
      ensures Heap() && items == []
      ensures forall v :: !Queued(v)
    {
      items := [];
      f := new real[n](_ => 0.0);
      pos := new int[n](_ => -1);
    }

    /** `pos` is the exact inverse of `items`; in particular no cell is queued twice. */
    ghost predicate Indexed()
      reads this, pos
    {
      && f.Length == pos.Length
      && (forall k :: 0 <= k < |items| ==> 0 <= items[k] < pos.Length && pos[items[k]] == k)
      && (forall v :: 0 <= v < pos.Length ==> -1 <= pos[v] < |items| && (pos[v] >= 0 ==> items[pos[v]] == v))
    }

    /** The keys in heap position. */
    ghost function Keys(): (keys: seq<real>)
      requires Indexed()
      reads this, pos, f
      ensures |keys| == |items| && forall k :: 0 <= k < |items| ==> keys[k] == f[items[k]]
    {
      seq(|items|, k requires 0 <= k < |items| && Indexed() reads this, pos, f => f[items[k]])
    }

    ghost predicate Heap()
      reads this, pos, f
    {
      Indexed() && IsHeap(Keys())
    }

    ghost predicate Queued(v: int)
      reads this, pos
    {
      0 <= v < pos.Length && pos[v] >= 0
    }

    lemma EmptyQueue()
      requires Heap() && items == []
      ensures forall v :: !Queued(v)
    {}

    predicate Less(i: int, j: int)
      requires Indexed() && 0 <= i < |items| && 0 <= j < |items|
      reads this, pos, f
    {
      f[items[i]] < f[items[j]]
    }

    method Swap(i: int, j: int)
      requires Indexed() && 0 <= i < |items| && 0 <= j < |items|
      modifies this`items, pos
      ensures Indexed() && |items| == old(|items|) && Keys() == Swapped(old(Keys()), i, j)
      ensures items == old(items)[i := old(items[j])][j := old(items[i])]
      ensures forall v :: Queued(v) <==> old(Queued(v))
    {
      items := items[i := items[j]][j := items[i]];
      pos[items[i]] := i;
      pos[items[j]] := j;
    }

    /** container/heap `up`: lift entry j0 until its parent is not below it. */
    method Up(j0: int)
      requires Indexed() && 0 <= j0 < |items|
      requires HeapBut(Keys(), |items|, j0) && AboveChildren(Keys(), |items|, j0)
      modifies this`items, pos
      ensures Heap() && |items| == old(|items|)
      ensures forall v :: Queued(v) <==> old(Queued(v))
    {
      var j := j0;
      while true
        invariant Indexed() && 0 <= j < |items| == old(|items|)
        invariant HeapBut(Keys(), |items|, j) && AboveChildren(Keys(), |items|, j)
        invariant forall v :: Queued(v) <==> old(Queued(v))
        decreases j
      {
        hide HeapBut, AboveChildren;
        var i := if j == 0 then 0 else Parent(j);
        if i == j || !Less(j, i) { break; }
        UpStep(Keys(), j);
        Swap(i, j);
        j := i;
      }
      WholeAgain(Keys(), |items|, j);
    }

    /** The child of entry i with the smaller key, among the first `n` entries. */
    method SmallerChild(i: int, n: int) returns (j: int)
      requires Indexed() && 0 <= i && 2 * i + 1 < n <= |items|
      ensures i < j < n && Parent(j) == i
      ensures forall k :: 0 < k < n && Parent(k) == i ==> Keys()[j] <= Keys()[k]
    {
      var j1 := 2 * i + 1;
      j := j1;
      var j2 := j1 + 1;
      if j2 < n && Less(j2, j1) { j := j2; }
      forall k | 0 < k < n && Parent(k) == i ensures Keys()[j] <= Keys()[k] { OnlyTwoChildren(k, i); }
    }

    /** container/heap `down`: push entry i0 below the smaller of its children, within the
        first `n` entries. */
    method Down(i0: int, n: int) returns (moved: bool)
      requires Indexed() && 0 <= i0 < |items| && 0 <= n <= |items| && HeapBut(Keys(), n, i0)
      modifies this`items, pos
      ensures Indexed() && |items| == old(|items|)
      ensures forall k :: n <= k < |items| ==> items[k] == old(items[k])
      ensures forall v :: Queued(v) <==> old(Queued(v))
      ensures !moved ==> AboveChildren(Keys(), n, i0)
      ensures forall k :: 0 < k < n && (moved || k != i0) ==> Above(Keys(), k)
      ensures !moved ==> Keys() == old(Keys())
    {
      hide HeapBut, AboveChildren, Above, Parent;
      var i := i0;
      while true
        invariant Indexed() && i0 <= i < |items| == old(|items|)
        invariant HeapBut(Keys(), n, i)
        invariant i > i0 ==> i < n && Above(Keys(), i) && (i0 > 0 ==> Above(Keys(), i0))
        invariant forall v :: Queued(v) <==> old(Queued(v))
        invariant forall k :: n <= k < |items| ==> items[k] == old(items[k])
        invariant i == i0 ==> Keys() == old(Keys())
        decreases n - i
      {
        if 2 * i + 1 >= n {
          NoChildren(Keys(), n, i);
          break;
        }
        var j := SmallerChild(i, n);
        if !Less(j, i) {
          SettledChildren(Keys(), n, i, j);
          break;
        }
        DownStep(Keys(), n, i, j);
        Swap(i, j);
        i := j;
      }
      moved := i > i0;
      WholeAgain(Keys(), n, i);
    }

    /** container/heap `Push`. */
    method Push(v: int)
      requires Heap() && 0 <= v < pos.Length && !Queued(v)
      modifies this`items, pos
      ensures Heap() && |items| == old(|items|) + 1
      ensures forall w :: Queued(w) <==> w == v || old(Queued(w))
    {
      ghost var was := Keys();
      pos[v] := |items|;
      items := items + [v];
      assert Keys() == was + [f[v]];
      LeafAppended(was, f[v]);
      Up(|items| - 1);
    }

    /** container/heap `Pop`: takes out a cell with the least key. */
    method Pop() returns (v: int)
      requires Heap() && items != []
      modifies this`items, pos
      ensures Heap() && |items| == old(|items|) - 1
      ensures old(Queued(v)) && !Queued(v)
      ensures forall w :: Queued(w) <==> w != v && old(Queued(w))
      ensures forall w :: old(Queued(w)) ==> f[v] <= f[w]
    {
      hide HeapBut, AboveChildren, Above;
      forall w | Queued(w) ensures f[items[0]] <= f[w] { RootIsLeast(Keys(), pos[w]); }
      RootReplaced(Keys(), |items| - 1);
      v := items[0];
      var n := |items| - 1;
      Swap(0, n);
      var _ := Down(0, n);
      assert items[n] == v;
      ghost var keys := Keys();
      TakeLast();
      PrefixIsHeap(keys, n);
    }

    /** The last entry leaves. */
    method TakeLast()
      requires Indexed() && items != []
      modifies this`items, pos
      ensures Indexed() && items == old(items[..|items| - 1]) && Keys() == old(Keys())[..|items|]
      ensures forall w :: Queued(w) <==> w != old(items[|items| - 1]) && old(Queued(w))
    {
      var n := |items| - 1;
      var v := items[n];
      items := items[..n];
      pos[v] := -1;
    }

    /** container/heap `Fix`: restores the order after the key of entry i has changed. */
    method Fix(i: int)
      requires Indexed() && 0 <= i < |items| && HeapBut(Keys(), |items|, i)
      modifies this`items, pos
      ensures Heap() && |items| == old(|items|)
      ensures forall v :: Queued(v) <==> old(Queued(v))
    {
      var moved := Down(i, |items|);
      if !moved { Up(i); }
    }

    /** Gives cell v the key x, and puts it in its place: a decrease-key when it is already
        queued, a push when it is not. */
    method Put(v: int, x: real)
      requires Heap() && 0 <= v < pos.Length
      modifies this`items, pos, f
      ensures Heap() && f[..] == old(f[..])[v := x]
      ensures forall w :: Queued(w) <==> w == v || old(Queued(w))
    {
      hide HeapBut, AboveChildren, Above, Parent;
      ghost var keys := Keys();
      f[v] := x;
      if pos[v] >= 0 {
        KeyChanged(keys, pos[v], x);
        assert Keys() == keys[pos[v] := x];
        Fix(pos[v]);
      } else {
        assert Keys() == keys;
        Push(v);
      }
    }
  }
}
