/** The expiry heap: entries in a slice in heap order, soonest expiry at the root, kept so by the documented
    `heap.Push` and `heap.Pop` of `container/heap` (internal/engine/expiry.go:35-58). */
module ExpiryHeap {
  import opened Orders

  /** Times are instants on one clock. */
  datatype ExpiryEntry = ExpiryEntry(expiresAt: int, pair: string, orderID: ID, price: Decimal, side: OrderSide)

  /** `Less`. */
  predicate Sooner(a: ExpiryEntry, b: ExpiryEntry) {
    a.expiresAt < b.expiresAt
  }

  function Parent(i: nat): (p: nat)
    requires i > 0
    ensures p < i
  {
    (i - 1) / 2
  }

  /** The promise of the heap: no entry is sooner than its parent. Siblings are in any order. */
  predicate HeapOrder(s: seq<ExpiryEntry>) {
    forall k :: 0 < k < |s| ==> !Sooner(s[k], s[Parent(k)])
  }

  function Swapped(s: seq<ExpiryEntry>, i: nat, j: nat): (r: seq<ExpiryEntry>)
    requires i < |s| && j < |s|
    ensures multiset(r) == multiset(s)
  {
    s[i := s[j]][j := s[i]]
  }

  /** An entry moves up until its parent is not later. */
  function Up(s: seq<ExpiryEntry>, j: nat): (r: seq<ExpiryEntry>)
    requires j < |s|
    ensures multiset(r) == multiset(s)
    decreases j
  {
    if j == 0 || !Sooner(s[j], s[Parent(j)]) then s else Up(Swapped(s, Parent(j), j), Parent(j))
  }

  /** The sooner child of an entry that has one. */
  function SoonerChild(s: seq<ExpiryEntry>, i: nat): (c: nat)
    requires 2 * i + 1 < |s|
    ensures i < c < |s| && Parent(c) == i
    ensures forall k :: 0 < k < |s| && Parent(k) == i ==> !Sooner(s[k], s[c])
  {
    if 2 * i + 2 < |s| && Sooner(s[2 * i + 2], s[2 * i + 1]) then 2 * i + 2 else 2 * i + 1
  }

  /** An entry moves down until no child is sooner. */
  function Down(s: seq<ExpiryEntry>, i: nat): (r: seq<ExpiryEntry>)
    requires i < |s|
    ensures multiset(r) == multiset(s)
    decreases |s| - i
  {
    if 2 * i + 1 >= |s| || !Sooner(s[SoonerChild(s, i)], s[i]) then s
    else Down(Swapped(s, i, SoonerChild(s, i)), SoonerChild(s, i))
  }

  /** `heap.Push`. */
  function Pushed(s: seq<ExpiryEntry>, e: ExpiryEntry): (r: seq<ExpiryEntry>)
    ensures multiset(r) == multiset(s) + multiset{e}
  {
    Up(s + [e], |s|)
  }

  /** `heap.Pop`: the root leaves, the last entry takes its place and moves down. */
  function Popped(s: seq<ExpiryEntry>): (r: seq<ExpiryEntry>)
    requires s != []
    ensures multiset(r) + multiset{s[0]} == multiset(s)
  {
    var n := |s| - 1;
    assert s == s[..n] + [s[n]];
    if n == 0 then []
    else
      var rest := s[..n][0 := s[n]];
      assert s[..n] == [s[0]] + s[..n][1..] && rest == [s[n]] + s[..n][1..];
      Down(rest, 0)
  }

  /** Only the entry at `j` may be sooner than its parent, and its children are not sooner than that parent. */
  predicate AllButUp(s: seq<ExpiryEntry>, j: nat)
    requires j < |s|
  {
    && (forall k :: 0 < k < |s| && k != j ==> !Sooner(s[k], s[Parent(k)]))
    && (forall k :: 0 < k < |s| && Parent(k) == j && j > 0 ==> !Sooner(s[k], s[Parent(j)]))
  }

  lemma UpStepAt(s: seq<ExpiryEntry>, j: nat, k: nat)
    requires 0 < j < |s| && AllButUp(s, j) && Sooner(s[j], s[Parent(j)]) && 0 < k < |s|
    ensures var p, r := Parent(j), Swapped(s, Parent(j), j);
      && (k != p ==> !Sooner(r[k], r[Parent(k)]))
      && (Parent(k) == p && p > 0 ==> !Sooner(r[k], r[Parent(p)]))
  {
    assert Parent(j) > 0 ==> !Sooner(s[Parent(j)], s[Parent(Parent(j))]);
    assert k != j ==> !Sooner(s[k], s[Parent(k)]);
    assert Parent(k) == j ==> !Sooner(s[k], s[Parent(j)]);
  }

  /** One step up leaves at most the parent's place out of order. */
  lemma UpStep(s: seq<ExpiryEntry>, j: nat)
    requires 0 < j < |s| && AllButUp(s, j) && Sooner(s[j], s[Parent(j)])
    ensures AllButUp(Swapped(s, Parent(j), j), Parent(j))
  {
    var p, r := Parent(j), Swapped(s, Parent(j), j);
    forall k | 0 < k < |s| && k != p ensures !Sooner(r[k], r[Parent(k)]) {
      UpStepAt(s, j, k);
    }
    forall k | 0 < k < |s| && Parent(k) == p && p > 0 ensures !Sooner(r[k], r[Parent(p)]) {
      UpStepAt(s, j, k);
    }
  }

  lemma {:induction false} UpRestores(s: seq<ExpiryEntry>, j: nat)
    requires j < |s| && AllButUp(s, j)
    ensures HeapOrder(Up(s, j))
    decreases j
  {
    if j > 0 && Sooner(s[j], s[Parent(j)]) {
      UpStep(s, j);
      UpRestores(Swapped(s, Parent(j), j), Parent(j));
    }
  }

  /** Only the children of the entry at `i` may be sooner than it, and they are not sooner than its parent. */
  predicate AllButDown(s: seq<ExpiryEntry>, i: nat)
    requires i < |s|
  {
    && (forall k :: 0 < k < |s| && Parent(k) != i ==> !Sooner(s[k], s[Parent(k)]))
    && (forall k :: 0 < k < |s| && Parent(k) == i && i > 0 ==> !Sooner(s[k], s[Parent(i)]))
  }

  lemma {:induction false} DownRestores(s: seq<ExpiryEntry>, i: nat)
    requires i < |s| && AllButDown(s, i)
    ensures HeapOrder(Down(s, i))
    decreases |s| - i
  {
    if 2 * i + 1 < |s| && Sooner(s[SoonerChild(s, i)], s[i]) {
      DownRestores(Swapped(s, i, SoonerChild(s, i)), SoonerChild(s, i));
    }
  }

  /** Pushing keeps the heap order. */
  lemma PushKeeps(s: seq<ExpiryEntry>, e: ExpiryEntry)
    requires HeapOrder(s)
    ensures HeapOrder(Pushed(s, e))
  {
    UpRestores(s + [e], |s|);
  }

  /** Popping keeps the heap order. */
  lemma PopKeeps(s: seq<ExpiryEntry>)
    requires HeapOrder(s) && s != []
    ensures HeapOrder(Popped(s))
  {
    var n := |s| - 1;
    if n > 0 {
      DownRestores(s[..n][0 := s[n]], 0);
    }
  }

  /** Nothing below is sooner than the root. */
  lemma RootIsLeast(s: seq<ExpiryEntry>, i: nat)
    requires HeapOrder(s) && i < |s|
    ensures s[0].expiresAt <= s[i].expiresAt
  {
    if i > 0 {
      RootIsLeast(s, Parent(i));
    }
  }
}
