/** The table of pages that a copy looks addresses up in: heap sort by start address, then binary
  * search. A page that was visited is emptied in place and no longer found. */
module PageTable {
  datatype Cell = Cell(key: nat, value: nat, next: nat)

  predicate Holds(c: Cell, x: nat) {
    c.key <= x < c.value
  }

  // ------------------------------------------------------------------------------------------
  // Heaps
  // ------------------------------------------------------------------------------------------

  /** No child of `i` among the first `n` is larger. */
  predicate HeapAt(s: seq<Cell>, n: nat, i: nat)
    requires n <= |s|
  {
    && (2 * i + 1 < n ==> s[i].key >= s[2 * i + 1].key)
    && (2 * i + 2 < n ==> s[i].key >= s[2 * i + 2].key)
  }

  /** A heap from `root` on. */
  predicate HeapFrom(s: seq<Cell>, n: nat, root: nat)
    requires n <= |s|
  {
    forall i :: root <= i < n ==> HeapAt(s, n, i)
  }

  /** A heap from `root` on but for the node `i`, whose parent dominates its children too. */
  predicate HeapBut(s: seq<Cell>, n: nat, root: nat, i: nat)
    requires n <= |s|
  {
    && (forall j :: root <= j < n && j != i ==> HeapAt(s, n, j))
    && (forall p :: root <= p < n && (2 * p + 1 == i || 2 * p + 2 == i) ==>
          && (2 * i + 1 < n ==> s[p].key >= s[2 * i + 1].key)
          && (2 * i + 2 < n ==> s[p].key >= s[2 * i + 2].key))
  }

  function Swapped(s: seq<Cell>, i: nat, j: nat): (r: seq<Cell>)
    requires i < |s| && j < |s|
    ensures |r| == |s|
  {
    s[i := s[j]][j := s[i]]
  }

  lemma SwappedPermutes(s: seq<Cell>, i: nat, j: nat, n: nat)
    requires i < n <= |s| && j < n
    ensures multiset(Swapped(s, i, j)[..n]) == multiset(s[..n]) && Swapped(s, i, j)[n..] == s[n..]
  {
  }

  /** The node goes down to the larger child `m`. */
  lemma SiftStep(s: seq<Cell>, n: nat, root: nat, i: nat, m: nat)
    requires root <= i < n <= |s| && HeapBut(s, n, root, i)
    requires m < n && (m == 2 * i + 1 || m == 2 * i + 2) && s[m].key > s[i].key
    requires 2 * i + 1 < n ==> s[m].key >= s[2 * i + 1].key
    requires 2 * i + 2 < n ==> s[m].key >= s[2 * i + 2].key
    ensures HeapBut(Swapped(s, i, m), n, root, m)
  {
    var t := Swapped(s, i, m);
    forall j | root <= j < n && j != m ensures HeapAt(t, n, j) {
      if j != i {
        assert HeapAt(s, n, j);
      }
    }
    assert HeapAt(s, n, m);
  }

  lemma SiftDone(s: seq<Cell>, n: nat, root: nat, i: nat)
    requires root <= i < n <= |s| && HeapBut(s, n, root, i) && HeapAt(s, n, i)
    ensures HeapFrom(s, n, root)
  {
  }

  method Heapify(arr: array<Cell>, n: nat, i: nat, ghost root: nat)
    requires root <= i < n <= arr.Length && HeapBut(arr[..], n, root, i)
    modifies arr
    ensures HeapFrom(arr[..], n, root)
    ensures multiset(arr[..n]) == multiset(old(arr[..n])) && arr[n..] == old(arr[n..])
    decreases n - i
  {
    ghost var s := arr[..];
    var largest := i;
    var l, r := 2 * i + 1, 2 * i + 2;
    if l < n && arr[l].key > arr[largest].key {
      largest := l;
    }
    if r < n && arr[r].key > arr[largest].key {
      largest := r;
    }
    if largest != i {
      SiftStep(s, n, root, i, largest);
      SwappedPermutes(s, i, largest, n);
      arr[i], arr[largest] := arr[largest], arr[i];
      assert arr[..] == Swapped(s, i, largest);
      assert arr[..n] == arr[..][..n] && s[..n] == old(arr[..n]) && arr[n..] == arr[..][n..];
      Heapify(arr, n, largest, root);
    } else {
      SiftDone(s, n, root, i);
    }
  }

  /** The root of a heap is its largest cell. */
  lemma {:induction false} RootIsLargest(s: seq<Cell>, n: nat, j: nat)
    requires j < n <= |s| && HeapFrom(s, n, 0)
    ensures s[j].key <= s[0].key
  {
    if j > 0 {
      var p := (j - 1) / 2;
      assert HeapAt(s, n, p);
      RootIsLargest(s, n, p);
    }
  }

  // ------------------------------------------------------------------------------------------
  // Heap sort
  // ------------------------------------------------------------------------------------------

  predicate Sorted(s: seq<Cell>) {
    forall j, k :: 0 <= j < k < |s| ==> s[j].key <= s[k].key
  }

  /** The cells from `i` on are sorted and none before them is larger. */
  predicate SortedFrom(s: seq<Cell>, i: nat)
    requires i <= |s|
  {
    forall j, k :: 0 <= j < k < |s| && i <= k ==> s[j].key <= s[k].key
  }

  /** A permutation of the first cells keeps what they are bounded by. */
  lemma StillSortedFrom(s: seq<Cell>, t: seq<Cell>, i: nat)
    requires i <= |s| == |t| && SortedFrom(s, i)
    requires multiset(t[..i]) == multiset(s[..i]) && t[i..] == s[i..]
    ensures SortedFrom(t, i)
  {
    forall j, k | 0 <= j < k < |t| && i <= k ensures t[j].key <= t[k].key {
      assert t[k] == t[i..][k - i] == s[k];
      if j < i {
        assert t[..i][j] in multiset(t[..i]);
        assert t[j] in s[..i];
        var m :| 0 <= m < i && s[..i][m] == t[j];
        assert s[m].key <= s[k].key;
      } else {
        assert t[j] == t[i..][j - i] == s[j];
      }
    }
  }

  lemma PermutationExtends(s: seq<Cell>, t: seq<Cell>, i: nat)
    requires i <= |s| == |t| && multiset(t[..i]) == multiset(s[..i]) && t[i..] == s[i..]
    ensures multiset(t) == multiset(s)
  {
    assert t == t[..i] + t[i..] && s == s[..i] + s[i..];
  }

  /** The largest cell goes to its place; the rest is a heap but for its root. */
  lemma TakeLargest(s: seq<Cell>, i: nat)
    requires 0 < i < |s| && HeapFrom(s, i + 1, 0) && SortedFrom(s, i + 1)
    ensures var t := Swapped(s, 0, i); HeapBut(t, i, 0, 0) && SortedFrom(t, i) && multiset(t) == multiset(s)
  {
    var t := Swapped(s, 0, i);
    SwappedPermutes(s, 0, i, |s|);
    assert t[..|s|] == t && s[..|s|] == s;
    forall j | 0 <= j < i && j != 0 ensures HeapAt(t, i, j) {
      assert HeapAt(s, i + 1, j);
    }
    forall j, k | 0 <= j < k < |t| && i <= k ensures t[j].key <= t[k].key {
      if k == i {
        RootIsLargest(s, i + 1, if j == 0 then i else j);
      }
    }
  }

  method HeapSort(arr: array<Cell>, n: nat)
    requires n == arr.Length
    modifies arr
    ensures Sorted(arr[..]) && multiset(arr[..]) == multiset(old(arr[..]))
  {
    if n <= 1 {
      return;
    }
    var i: int := n / 2 - 1;
    while i >= 0
      invariant -1 <= i < n / 2 && HeapFrom(arr[..], n, i + 1)
      invariant multiset(arr[..]) == multiset(old(arr[..]))
    {
      assert arr[..n] == arr[..];
      Heapify(arr, n, i, i);
      assert arr[..n] == arr[..];
      i := i - 1;
    }
    var k := n - 1;
    while k > 0
      invariant 0 <= k < n && HeapFrom(arr[..], k + 1, 0) && SortedFrom(arr[..], k + 1)
      invariant multiset(arr[..]) == multiset(old(arr[..]))
    {
      ghost var s := arr[..];
      TakeLargest(s, k);
      arr[0], arr[k] := arr[k], arr[0];
      ghost var t := arr[..];
      assert t == Swapped(s, 0, k);
      assert t[..k] == arr[..k] && t[k..] == arr[k..];
      Heapify(arr, k, 0, 0);
      assert arr[..][..k] == arr[..k] && arr[..][k..] == arr[k..];
      StillSortedFrom(t, arr[..], k);
      PermutationExtends(t, arr[..], k);
      k := k - 1;
    }
    assert SortedFrom(arr[..], 1);
  }

  // ------------------------------------------------------------------------------------------
  // Binary search
  // ------------------------------------------------------------------------------------------

  /** Sorted intervals that do not overlap. An emptied page is an empty interval. */
  ghost predicate Disjoint(s: seq<Cell>) {
    && (forall k :: 0 <= k < |s| ==> s[k].key <= s[k].value)
    && (forall j, k :: 0 <= j < k < |s| ==> s[j].value <= s[k].key)
  }

  /** The index of the page that holds `x`, or -1. */
  function BinarySearch(arr: seq<Cell>, l: nat, r: nat, x: nat): (index: int)
    requires l <= r < |arr|
    ensures index == -1 || (l <= index <= r && Holds(arr[index], x))
    decreases r - l
  {
    if l >= r then if Holds(arr[l], x) then l else -1
    else
      var mid := l + (r - l) / 2;
      if x < arr[mid].key then if mid <= l then -1 else BinarySearch(arr, l, mid - 1, x)
      else if x >= arr[mid].value then BinarySearch(arr, mid + 1, r, x)
      else mid
  }

  function FindPage(x: nat, pages: seq<Cell>): (index: int)
    ensures index == -1 || (0 <= index < |pages| && Holds(pages[index], x))
  {
    if |pages| == 0 then -1 else BinarySearch(pages, 0, |pages| - 1, x)
  }

  /** Binary search misses nothing. */
  lemma {:induction false} SearchFinds(arr: seq<Cell>, l: nat, r: nat, x: nat, k: nat)
    requires l <= k <= r < |arr| && Disjoint(arr) && Holds(arr[k], x)
    ensures BinarySearch(arr, l, r, x) == k
    decreases r - l
  {
    if l < r {
      var mid := l + (r - l) / 2;
      if k < mid {
        assert arr[k].value <= arr[mid].key;
        SearchFinds(arr, l, mid - 1, x, k);
      } else if k > mid {
        assert arr[mid].value <= arr[k].key;
        SearchFinds(arr, mid + 1, r, x, k);
      }
    }
  }

  /** The search agrees with a scan of all the pages. */
  lemma FindsExactly(pages: seq<Cell>, x: nat)
    requires Disjoint(pages)
    ensures FindPage(x, pages) == -1 <==> forall k :: 0 <= k < |pages| ==> !Holds(pages[k], x)
    ensures forall k :: 0 <= k < |pages| && Holds(pages[k], x) ==> FindPage(x, pages) == k
  {
    forall k | 0 <= k < |pages| && Holds(pages[k], x) ensures FindPage(x, pages) == k {
      SearchFinds(pages, 0, |pages| - 1, x, k);
    }
  }

  function Emptied(pages: seq<Cell>, k: nat): seq<Cell>
    requires k < |pages|
  {
    pages[k := pages[k].(value := pages[k].key)]
  }

  /** Emptying a page hides its addresses and no others. */
  lemma FindsAfterEmptying(pages: seq<Cell>, k: nat, x: nat)
    requires k < |pages| && Disjoint(pages)
    ensures Disjoint(Emptied(pages, k))
    ensures FindPage(x, Emptied(pages, k)) == if Holds(pages[k], x) then -1 else FindPage(x, pages)
  {
    var after := Emptied(pages, k);
    FindsExactly(pages, x);
    FindsExactly(after, x);
    if Holds(pages[k], x) {
      forall j | 0 <= j < |after| ensures !Holds(after[j], x) {
        if j < k { assert pages[j].value <= pages[k].key; }
        if k < j { assert pages[k].value <= pages[j].key; }
      }
    } else if FindPage(x, pages) != -1 {
      assert Holds(after[FindPage(x, pages)], x);
    } else {
      forall j | 0 <= j < |after| ensures !Holds(after[j], x) {
        assert !Holds(pages[j], x);
      }
    }
  }

  // ------------------------------------------------------------------------------------------
  // Pages of a region
  // ------------------------------------------------------------------------------------------

  /** Some order of the cells has them one after the other without overlap. */
  ghost predicate Apart(cells: seq<Cell>) {
    && (forall k :: 0 <= k < |cells| ==> cells[k].key < cells[k].value)
    && (forall j, k :: 0 <= j < k < |cells| ==> cells[j].value <= cells[k].key || cells[k].value <= cells[j].key)
  }

  lemma {:induction false} ApartFront(cells: seq<Cell>, c: Cell)
    requires Apart(cells) && c in cells
    ensures multiset(cells)[c] == 1
  {
    var k :| 0 <= k < |cells| && cells[k] == c;
    assert cells == cells[..k] + [c] + cells[k + 1..];
    assert c !in cells[..k] && c !in cells[k + 1..];
  }

  /** Sorting pages that lie apart puts them in order. */
  lemma SortedApart(cells: seq<Cell>, sorted: seq<Cell>)
    requires Apart(cells) && Sorted(sorted) && multiset(sorted) == multiset(cells)
    ensures Disjoint(sorted)
  {
    forall k | 0 <= k < |sorted| ensures sorted[k] in cells && sorted[k].key < sorted[k].value {
      assert sorted[k] in multiset(sorted);
      assert sorted[k] in cells;
    }
    forall j, k | 0 <= j < k < |sorted| ensures sorted[j].value <= sorted[k].key {
      var a, b := sorted[j], sorted[k];
      if a == b {
        ApartFront(cells, a);
        Twice(sorted, j, k);
        assert false;
      }
      var m :| 0 <= m < |cells| && cells[m] == a;
      var n :| 0 <= n < |cells| && cells[n] == b;
      assert m < n || n < m;
    }
  }

  lemma Twice(s: seq<Cell>, j: nat, k: nat)
    requires j < k < |s| && s[j] == s[k]
    ensures multiset(s)[s[j]] >= 2
  {
    assert s == s[..k] + [s[k]] + s[k + 1..];
    assert s[j] in s[..k];
  }
}
