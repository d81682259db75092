// Following a listing page by page by the last key seen, over a store whose
// rows are read in key order: the part the three paginated reads share.
module Keyset {
  import opened Wrappers

  ghost predicate IsOrder<K(!new)>(less: (K, K) -> bool) {
    && (forall a :: !less(a, a))
    && (forall a, b, c :: less(a, b) && less(b, c) ==> less(a, c))
    && (forall a, b :: less(a, b) || a == b || less(b, a))
  }

  ghost predicate Sorted<K(!new)>(less: (K, K) -> bool, keys: seq<K>) {
    forall i, j :: 0 <= i < j < |keys| ==> less(keys[i], keys[j])
  }

  /** The keys strictly beyond the cursor; no cursor starts the range. */
  function Beyond<K(!new)>(less: (K, K) -> bool, keys: seq<K>, after: Option<K>): (r: seq<K>)
    ensures forall k :: k in r <==> k in keys && (after.None? || less(after.value, k))
  {
    if |keys| == 0 then []
    else if after.None? || less(after.value, keys[0]) then [keys[0]] + Beyond(less, keys[1..], after)
    else Beyond(less, keys[1..], after)
  }

  /** What a store lists: the first limit keys strictly beyond the cursor, in key order. */
  function Listing<K(!new)>(less: (K, K) -> bool, keys: seq<K>, after: Option<K>, limit: nat): seq<K> {
    var beyond := Beyond(less, keys, after);
    beyond[..if limit < |beyond| then limit else |beyond|]
  }

  lemma {:induction false} BeyondIsSorted<K(!new)>(less: (K, K) -> bool, keys: seq<K>, after: Option<K>)
    requires Sorted(less, keys)
    ensures Sorted(less, Beyond(less, keys, after))
  {
    if |keys| > 0 {
      BeyondIsSorted(less, keys[1..], after);
      var rest := Beyond(less, keys[1..], after);
      forall j | 0 <= j < |rest| ensures less(keys[0], rest[j]) {
        assert rest[j] in keys[1..];
      }
    }
  }

  lemma {:induction false} BeyondNothing<K(!new)>(less: (K, K) -> bool, keys: seq<K>)
    ensures Beyond(less, keys, None) == keys
  {
    if |keys| > 0 {
      BeyondNothing(less, keys[1..]);
      assert keys == [keys[0]] + keys[1..];
    }
  }

  /** What is beyond the i-th of the keys beyond a cursor is the rest of them. */
  lemma {:induction false} BeyondContinues<K(!new)>(less: (K, K) -> bool, keys: seq<K>, after: Option<K>, i: nat)
    requires IsOrder(less) && Sorted(less, keys) && i < |Beyond(less, keys, after)|
    ensures var beyond := Beyond(less, keys, after);
      Beyond(less, keys, Some(beyond[i])) == beyond[i + 1..]
  {
    var beyond := Beyond(less, keys, after);
    if after.None? || less(after.value, keys[0]) {
      AllBeyond(less, keys, after);
      SuffixBeyond(less, keys, i);
    } else {
      BeyondContinues(less, keys[1..], after, i);
      assert beyond[i] in keys[1..];
    }
  }

  lemma TailSorted<K(!new)>(less: (K, K) -> bool, keys: seq<K>)
    requires Sorted(less, keys) && |keys| > 0
    ensures Sorted(less, keys[1..])
  {
  }

  lemma {:induction false} AllBeyond<K(!new)>(less: (K, K) -> bool, keys: seq<K>, after: Option<K>)
    requires IsOrder(less) && Sorted(less, keys)
    requires |keys| > 0 ==> after.None? || less(after.value, keys[0])
    ensures Beyond(less, keys, after) == keys
  {
    if |keys| > 0 {
      assert |keys| > 1 ==> less(keys[0], keys[1]);
      assert |keys| > 1 ==> after.None? || less(after.value, keys[1]);
      TailSorted(less, keys);
      hide Sorted;
      AllBeyond(less, keys[1..], after);
      assert keys == [keys[0]] + keys[1..];
    }
  }

  lemma {:induction false} SuffixBeyond<K(!new)>(less: (K, K) -> bool, keys: seq<K>, i: nat)
    requires IsOrder(less) && Sorted(less, keys) && i < |keys|
    ensures Beyond(less, keys, Some(keys[i])) == keys[i + 1..]
  {
    if i == 0 {
      AllBeyond(less, keys[1..], Some(keys[0]));
    } else {
      assert !less(keys[i], keys[0]);
      SuffixBeyond(less, keys[1..], i - 1);
    }
  }

  // ---- A walk over pages ----

  /** One page: the keys it shows, and whether a token to go on was given. */
  datatype Page<K> = Page(keys: seq<K>, more: bool)

  function LastOf<K>(p: Page<K>): Option<K> {
    if |p.keys| == 0 then None else Some(p.keys[|p.keys| - 1])
  }

  /** The page a listing with one key of look-ahead cuts from the store. */
  predicate IsPage<K(!new,==)>(less: (K, K) -> bool, keys: seq<K>, after: Option<K>, size: nat, p: Page<K>) {
    var batch := Listing(less, keys, after, size + 1);
    p == Page(batch[..if |batch| < size then |batch| else size], |batch| > size)
  }

  /** The stores as they were when each page was read: nothing in one is gone from a later one. */
  ghost predicate Growing<K(!new)>(less: (K, K) -> bool, stores: seq<seq<K>>) {
    && (forall i :: 0 <= i < |stores| ==> Sorted(less, stores[i]))
    && (forall i, j, k :: 0 <= i <= j < |stores| && k in stores[i] ==> k in stores[j])
  }

  /** A first page and the pages its tokens lead to, each from the store of its time and of its own size. */
  predicate IsWalk<K(!new,==)>(less: (K, K) -> bool, stores: seq<seq<K>>, sizes: seq<nat>, pages: seq<Page<K>>)
    decreases |pages|
  {
    && |stores| == |sizes| == |pages| > 0
    && var n := |pages| - 1;
       && sizes[n] > 0
       && IsPage(less, stores[n], CursorAt(pages, n), sizes[n], pages[n])
       && (n > 0 ==> pages[n - 1].more && IsWalk(less, stores[..n], sizes[..n], pages[..n]))
  }

  /** One more page, read from where the last one ended. */
  lemma WalkExtends<K(!new)>(less: (K, K) -> bool, stores: seq<seq<K>>, sizes: seq<nat>, pages: seq<Page<K>>,
                             store: seq<K>, size: nat, page: Page<K>)
    requires IsWalk(less, stores, sizes, pages) && pages[|pages| - 1].more
    requires size > 0 && IsPage(less, store, LastOf(pages[|pages| - 1]), size, page)
    ensures IsWalk(less, stores + [store], sizes + [size], pages + [page])
  {
    hide IsPage;
    var n := |pages|;
    assert (stores + [store])[..n] == stores && (sizes + [size])[..n] == sizes && (pages + [page])[..n] == pages;
  }

  /** The cursor page n is read from. */
  function CursorAt<K>(pages: seq<Page<K>>, n: nat): Option<K>
    requires n <= |pages|
  {
    if n == 0 then None else LastOf(pages[n - 1])
  }

  function Concat<K>(pages: seq<Page<K>>): seq<K> {
    if |pages| == 0 then [] else Concat(pages[..|pages| - 1]) + pages[|pages| - 1].keys
  }

  /** The look-ahead cancels out: a page is a prefix of what is beyond the cursor. */
  lemma PageIsPrefix<K(!new)>(less: (K, K) -> bool, keys: seq<K>, after: Option<K>, size: nat, p: Page<K>)
    ensures var beyond := Beyond(less, keys, after);
      IsPage(less, keys, after, size, p) <==>
        p == Page(beyond[..if |beyond| < size then |beyond| else size], |beyond| > size)
  {
    hide Beyond;
  }

  /** A page that goes on is full, so its last key is there to go on from. */
  lemma MorePagesAreFull<K(!new)>(less: (K, K) -> bool, keys: seq<K>, after: Option<K>, size: nat, p: Page<K>)
    requires IsPage(less, keys, after, size, p) && size > 0
    ensures |p.keys| <= size && (p.more ==> |p.keys| == size && LastOf(p).Some?)
    ensures forall k :: k in p.keys ==> k in keys && (after.None? || less(after.value, k))
  {
    hide IsPage;
    PageIsPrefix(less, keys, after, size, p);
    assert forall k :: k in p.keys ==> k in Beyond(less, keys, after);
  }

  /** What the store holds beyond the cursor is the page and what is beyond the page. */
  lemma PageSplits<K(!new)>(less: (K, K) -> bool, keys: seq<K>, after: Option<K>, size: nat, p: Page<K>)
    requires IsOrder(less) && Sorted(less, keys) && size > 0 && IsPage(less, keys, after, size, p)
    ensures p.more ==> Beyond(less, keys, after) == p.keys + Beyond(less, keys, LastOf(p))
    ensures !p.more ==> Beyond(less, keys, after) == p.keys
    ensures Sorted(less, p.keys)
  {
    hide IsOrder, Sorted, Beyond, IsPage;
    var beyond := Beyond(less, keys, after);
    PageIsPrefix(less, keys, after, size, p);
    BeyondIsSorted(less, keys, after);
    PrefixSorted(less, beyond, |p.keys|);
    if p.more {
      BeyondContinues(less, keys, after, size - 1);
      assert beyond == beyond[..size] + beyond[size..];
    }
  }

  lemma PrefixSorted<K(!new)>(less: (K, K) -> bool, keys: seq<K>, n: nat)
    requires Sorted(less, keys)
    ensures n <= |keys| ==> Sorted(less, keys[..n])
  {
  }

  lemma SortedAppend<K(!new)>(less: (K, K) -> bool, a: seq<K>, b: seq<K>)
    requires IsOrder(less) && Sorted(less, a) && Sorted(less, b)
    requires |a| > 0 ==> forall k :: k in b ==> less(a[|a| - 1], k)
    ensures Sorted(less, a + b)
  {
    forall i, j | 0 <= i < j < |a + b| ensures less((a + b)[i], (a + b)[j]) {
      if i < |a| <= j {
        assert b[j - |a|] in b && less(a[|a| - 1], b[j - |a|]);
        assert i == |a| - 1 || less(a[i], a[|a| - 1]);
      }
    }
  }

  /** Keys never come back: over all the pages they ascend strictly. */
  lemma {:induction false} WalkAscends<K(!new)>(less: (K, K) -> bool, stores: seq<seq<K>>, sizes: seq<nat>, pages: seq<Page<K>>)
    requires IsOrder(less) && Growing(less, stores) && IsWalk(less, stores, sizes, pages)
    ensures Sorted(less, Concat(pages))
    ensures forall k :: k in Concat(pages) ==> k in stores[|stores| - 1]
    ensures pages[|pages| - 1].more ==> Concat(pages) != [] && LastOf(pages[|pages| - 1]) == Some(Concat(pages)[|Concat(pages)| - 1])
    decreases |pages|
  {
    hide IsOrder, Sorted, IsPage;
    var n := |pages| - 1;
    var p, front := pages[n], pages[..n];
    PageSplits(less, stores[n], CursorAt(pages, n), sizes[n], p);
    MorePagesAreFull(less, stores[n], CursorAt(pages, n), sizes[n], p);
    if n == 0 {
      assert Concat(pages) == p.keys;
    } else {
      WalkAscends(less, stores[..n], sizes[..n], front);
      assert front[n - 1] == pages[n - 1];
      SortedAppend(less, Concat(front), p.keys);
      forall k | k in Concat(front) ensures k in stores[n] { assert k in stores[n - 1]; }
    }
  }

  /**
   * Everything that was there when the first page was read is visited, once, by
   * the time a page gives no token: what is not on the pages is beyond the cursor.
   */
  lemma {:induction false} WalkMissesNothing<K(!new)>(less: (K, K) -> bool, stores: seq<seq<K>>, sizes: seq<nat>, pages: seq<Page<K>>, k: K)
    requires IsOrder(less) && Growing(less, stores) && IsWalk(less, stores, sizes, pages)
    requires k in stores[0]
    ensures k in Concat(pages) || (pages[|pages| - 1].more && k in Beyond(less, stores[|stores| - 1], LastOf(pages[|pages| - 1])))
    decreases |pages|
  {
    hide IsOrder, Sorted, IsPage;
    var n := |pages| - 1;
    var p, front := pages[n], pages[..n];
    PageSplits(less, stores[n], CursorAt(pages, n), sizes[n], p);
    assert k in stores[n];
    if n > 0 {
      WalkMissesNothing(less, stores[..n], sizes[..n], front, k);
      assert front[n - 1] == pages[n - 1];
    }
  }

  /** What the store still holds beyond a page. */
  function Rest<K(!new)>(less: (K, K) -> bool, keys: seq<K>, p: Page<K>): seq<K> {
    if p.more then Beyond(less, keys, LastOf(p)) else []
  }

  /** On a store that does not change the pages are the store, cut up. */
  lemma {:induction false} WalkIsTheStore<K(!new)>(less: (K, K) -> bool, keys: seq<K>, stores: seq<seq<K>>, sizes: seq<nat>, pages: seq<Page<K>>)
    requires IsOrder(less) && Sorted(less, keys) && IsWalk(less, stores, sizes, pages)
    requires forall i :: 0 <= i < |stores| ==> stores[i] == keys
    ensures keys == Concat(pages) + Rest(less, keys, pages[|pages| - 1])
    decreases |pages|
  {
    hide IsOrder, Sorted, IsPage, Beyond;
    var n := |pages| - 1;
    var p, front := pages[n], pages[..n];
    PageSplits(less, keys, CursorAt(pages, n), sizes[n], p);
    if n == 0 {
      BeyondNothing(less, keys);
      assert Concat(pages) == p.keys;
    } else {
      WalkIsTheStore(less, keys, stores[..n], sizes[..n], front);
      Regroup(Concat(front), p.keys, Rest(less, keys, p));
    }
  }

  lemma Regroup<K>(a: seq<K>, b: seq<K>, c: seq<K>)
    ensures a + (b + c) == (a + b) + c
    ensures b + [] == b
  {
  }

  /** Following tokens over an unchanging store ends after at most one page more than there are keys. */
  lemma WalkEnds<K(!new)>(less: (K, K) -> bool, keys: seq<K>, stores: seq<seq<K>>, sizes: seq<nat>, pages: seq<Page<K>>)
    requires IsOrder(less) && Sorted(less, keys) && IsWalk(less, stores, sizes, pages)
    requires forall i :: 0 <= i < |stores| ==> stores[i] == keys
    ensures |pages| <= |keys| + 1
  {
    WalkIsShort(less, stores, sizes, pages);
    WalkIsTheStore(less, keys, stores, sizes, pages);
  }

  /** Every page but the last shows something. */
  lemma {:induction false} WalkIsShort<K(!new)>(less: (K, K) -> bool, stores: seq<seq<K>>, sizes: seq<nat>, pages: seq<Page<K>>)
    requires IsWalk(less, stores, sizes, pages)
    ensures |pages| - 1 + (if pages[|pages| - 1].more then 1 else 0) <= |Concat(pages)|
    decreases |pages|
  {
    hide IsPage;
    var n := |pages| - 1;
    MorePagesAreFull(less, stores[n], CursorAt(pages, n), sizes[n], pages[n]);
    if n > 0 {
      WalkIsShort(less, stores[..n], sizes[..n], pages[..n]);
    }
  }
}
