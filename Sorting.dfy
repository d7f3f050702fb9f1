/**
 * The local sort (app.js sortState and sortLocal): a two-field state machine
 * that toggles the direction when the same column is chosen again, and an
 * in-place reorder of the page buffer by that column.
 */
module Sorting {
  import opened Wrappers
  import opened Catalog

  /** The sortable columns. */
  datatype SortKey = Title | Price

  /** `sortState`: the last key chosen (None before the first sort) and the direction. */
  datatype SortState = SortState(key: Option<SortKey>, asc: bool)

  /** `{ key: '', asc: true }`. */
  const InitialSortState := SortState(None, true)

  /** The state after choosing key k: the same key again flips the direction, another key ascends. */
  function NextSortState(st: SortState, k: SortKey): (r: SortState)
    ensures r.key == Some(k)
    ensures st.key == Some(k) ==> r.asc == !st.asc
    ensures st.key != Some(k) ==> r.asc
  {
    SortState(Some(k), if st.key == Some(k) then !st.asc else true)
  }

  /** The state after choosing the same key n times in a row. */
  function ClickTimes(st: SortState, k: SortKey, n: nat): SortState
    decreases n
  {
    if n == 0 then st else ClickTimes(NextSortState(st, k), k, n - 1)
  }

  /** Once k is the key, every further choice of k flips the direction. */
  lemma {:induction false} ClickTimesAlternates(asc: bool, k: SortKey, n: nat)
    ensures ClickTimes(SortState(Some(k), asc), k, n) == SortState(Some(k), asc != (n % 2 == 1))
    decreases n
  {
    if n > 0 {
      ClickTimesAlternates(!asc, k, n - 1);
    }
  }

  /** Choosing a new key n >= 1 times in a row ends ascending exactly when n is odd. */
  lemma ClickTimesFromOtherKey(st: SortState, k: SortKey, n: nat)
    requires st.key != Some(k) && n >= 1
    ensures ClickTimes(st, k, n) == SortState(Some(k), n % 2 == 1)
  {
    ClickTimesAlternates(true, k, n - 1);
  }

  /** From the initial state, three clicks on one header give ascending, descending, ascending. */
  lemma ThreeClicksOnOneHeader(k: SortKey)
    ensures ClickTimes(InitialSortState, k, 1).asc
    ensures !ClickTimes(InitialSortState, k, 2).asc
    ensures ClickTimes(InitialSortState, k, 3).asc
  {
    ClickTimesFromOtherKey(InitialSortState, k, 1);
    ClickTimesFromOtherKey(InitialSortState, k, 2);
    ClickTimesFromOtherKey(InitialSortState, k, 3);
  }

  /** JavaScript's `<` on two strings: character-by-character lexicographic order, a proper prefix first. */
  predicate StrLt(a: string, b: string)
    decreases |a|
  {
    if a == [] then b != []
    else if b == [] then false
    else if a[0] == b[0] then StrLt(a[1..], b[1..])
    else a[0] < b[0]
  }

  lemma {:induction false} StrLtAsymmetric(a: string, b: string)
    ensures StrLt(a, b) ==> !StrLt(b, a)
    decreases |a|
  {
    if a != [] && b != [] && a[0] == b[0] {
      StrLtAsymmetric(a[1..], b[1..]);
    }
  }

  lemma {:induction false} StrLtConnected(a: string, b: string)
    ensures a == b || StrLt(a, b) || StrLt(b, a)
    decreases |a|
  {
    if a != [] && b != [] && a[0] == b[0] {
      StrLtConnected(a[1..], b[1..]);
      if a[1..] == b[1..] {
        assert a == [a[0]] + a[1..] && b == [b[0]] + b[1..];
      }
    }
  }

  lemma {:induction false} StrLtTransitive(a: string, b: string, c: string)
    requires StrLt(a, b) && StrLt(b, c)
    ensures StrLt(a, c)
    decreases |a|
  {
    if a != [] && a[0] == b[0] && b[0] == c[0] {
      StrLtTransitive(a[1..], b[1..], c[1..]);
    }
  }

  /** The comparison `a[key] < b[key]` of the comparator. */
  predicate KeyLt(k: SortKey, p: Product, q: Product) {
    match k
    case Title => StrLt(p.title, q.title)
    case Price => p.price < q.price
  }

  /** p may stand before q in a list sorted by k in the given direction. */
  predicate Precedes(k: SortKey, asc: bool, p: Product, q: Product) {
    if asc then !KeyLt(k, q, p) else !KeyLt(k, p, q)
  }

  /** Non-decreasing by k when ascending, non-increasing when descending. */
  predicate Ordered(s: seq<Product>, k: SortKey, asc: bool) {
    forall i, j :: 0 <= i < j < |s| ==> Precedes(k, asc, s[i], s[j])
  }

  /** Any two products can be put in order. */
  lemma PrecedesTotal(k: SortKey, asc: bool, p: Product, q: Product)
    ensures Precedes(k, asc, p, q) || Precedes(k, asc, q, p)
  {
    StrLtAsymmetric(p.title, q.title);
  }

  lemma PrecedesTransitive(k: SortKey, asc: bool, p: Product, q: Product, r: Product)
    requires Precedes(k, asc, p, q) && Precedes(k, asc, q, r)
    ensures Precedes(k, asc, p, r)
  {
    if k == Title {
      var a, b, c := p.title, q.title, r.title;
      StrLtConnected(a, b);
      StrLtConnected(b, c);
      StrLtAsymmetric(a, c);
      if asc {
        if a != b && b != c { StrLtTransitive(a, b, c); }
      } else {
        if a != b && b != c { StrLtTransitive(c, b, a); }
      }
    }
  }

  /**
   * Reorders a in place by k in the given direction (insertion sort);
   * the result is a permutation of the input.
   */
  method SortProducts(a: array<Product>, k: SortKey, asc: bool)
    modifies a
    ensures multiset(a[..]) == old(multiset(a[..]))
    ensures Ordered(a[..], k, asc)
  {
    var i := 0;
    while i < a.Length
      invariant 0 <= i <= a.Length
      invariant Ordered(a[..i], k, asc)
      invariant multiset(a[..]) == old(multiset(a[..]))
    {
      Insert(a, i, k, asc);
      i := i + 1;
    }
    assert a[..] == a[..a.Length];
  }

  /** Moves a[i] left by adjacent swaps until the first i + 1 elements are in order. */
  method Insert(a: array<Product>, i: int, k: SortKey, asc: bool)
    requires 0 <= i < a.Length
    requires Ordered(a[..i], k, asc)
    modifies a
    ensures multiset(a[..]) == old(multiset(a[..]))
    ensures Ordered(a[..i + 1], k, asc)
  {
    var j := i;
    while j > 0 && !Precedes(k, asc, a[j - 1], a[j])
      invariant 0 <= j <= i
      invariant multiset(a[..]) == old(multiset(a[..]))
      invariant OrderedExcept(a[..], i, j, k, asc)
      invariant LeadsRest(a[..], i, j, k, asc)
    {
      ghost var s := a[..];
      SwapStep(s, i, j, k, asc);
      a[j - 1], a[j] := a[j], a[j - 1];
      assert a[..] == s[j - 1 := s[j]][j := s[j - 1]];
      j := j - 1;
    }
    InsertedInOrder(a[..], i, j, k, asc);
  }

  /** s[..n + 1] with s[j] left out is in order. */
  predicate OrderedExcept(s: seq<Product>, n: int, j: int, k: SortKey, asc: bool)
    requires n < |s|
  {
    forall p, q :: 0 <= p < q <= n && p != j && q != j ==> Precedes(k, asc, s[p], s[q])
  }

  /** s[j] may stand before every element after it up to s[n]. */
  predicate LeadsRest(s: seq<Product>, n: int, j: int, k: SortKey, asc: bool)
    requires 0 <= j <= n < |s|
  {
    forall q :: j < q <= n ==> Precedes(k, asc, s[j], s[q])
  }

  /** Swapping the moving element with a left neighbour that may not precede it keeps both loop facts. */
  lemma SwapStep(s: seq<Product>, n: int, j: int, k: SortKey, asc: bool)
    requires 0 < j <= n < |s|
    requires OrderedExcept(s, n, j, k, asc) && LeadsRest(s, n, j, k, asc)
    requires !Precedes(k, asc, s[j - 1], s[j])
    ensures var t := s[j - 1 := s[j]][j := s[j - 1]];
      multiset(t) == multiset(s) && OrderedExcept(t, n, j - 1, k, asc) && LeadsRest(t, n, j - 1, k, asc)
  {
    var t := s[j - 1 := s[j]][j := s[j - 1]];
    SwapKeepsOthersOrdered(s, n, j, k, asc);
    PrecedesTotal(k, asc, s[j - 1], s[j]);
    assert LeadsRest(t, n, j - 1, k, asc);
    assert t == s[..j - 1] + [s[j], s[j - 1]] + s[j + 1..];
    assert s == s[..j - 1] + [s[j - 1], s[j]] + s[j + 1..];
  }

  lemma SwapKeepsOthersOrdered(s: seq<Product>, n: int, j: int, k: SortKey, asc: bool)
    requires 0 < j <= n < |s|
    requires OrderedExcept(s, n, j, k, asc)
    ensures OrderedExcept(s[j - 1 := s[j]][j := s[j - 1]], n, j - 1, k, asc)
  {
    var t := s[j - 1 := s[j]][j := s[j - 1]];
    forall p, q | 0 <= p < q <= n && p != j - 1 && q != j - 1
      ensures Precedes(k, asc, t[p], t[q])
    {
      var p', q' := if p == j then j - 1 else p, if q == j then j - 1 else q;
      assert t[p] == s[p'] && t[q] == s[q'];
    }
  }

  /** When the inner loop stops, the first n + 1 elements are in order. */
  lemma InsertedInOrder(s: seq<Product>, n: int, j: int, k: SortKey, asc: bool)
    requires 0 <= j <= n < |s|
    requires j == 0 || Precedes(k, asc, s[j - 1], s[j])
    requires OrderedExcept(s, n, j, k, asc) && LeadsRest(s, n, j, k, asc)
    ensures Ordered(s[..n + 1], k, asc)
  {
    forall p, q | 0 <= p < q <= n
      ensures Precedes(k, asc, s[p], s[q])
    {
      if q == j && p < j - 1 {
        PrecedesTransitive(k, asc, s[p], s[j - 1], s[j]);
      }
    }
  }
}
