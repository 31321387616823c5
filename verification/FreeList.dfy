/** The allocator's view of the bitmap: the ascending list of clear bits. */
module FreeList {
  /** All clear positions of `used`, in ascending order. */
  function Clear(used: seq<bool>): (s: seq<nat>)
  {
    if used == [] then [] else
      var n := |used| - 1;
      Clear(used[..n]) + if used[n] then [] else [n]
  }

  ghost predicate Ascending(s: seq<int>) {
    forall i, j :: 0 <= i < j < |s| ==> s[i] < s[j]
  }

  lemma {:induction false} ClearHolds(used: seq<bool>, b: nat)
    ensures b in Clear(used) <==> b < |used| && !used[b]
  {
    if used != [] {
      var n := |used| - 1;
      ClearHolds(used[..n], b);
      assert b in Clear(used) <==> b in Clear(used[..n]) || (b == n && !used[n]);
    }
  }

  lemma {:induction false} ClearAscends(used: seq<bool>)
    ensures Ascending(Clear(used))
  {
    if used != [] {
      var n := |used| - 1;
      ClearAscends(used[..n]);
      var rest := Clear(used[..n]);
      forall i | 0 <= i < |rest|
        ensures rest[i] < n
      {
        assert rest[i] in rest;
        ClearHolds(used[..n], rest[i]);
      }
    }
  }

  /** Clear lists exactly the clear positions, in order. */
  lemma ClearExact(used: seq<bool>)
    ensures Ascending(Clear(used))
    ensures forall b: nat :: b in Clear(used) <==> b < |used| && !used[b]
  {
    ClearAscends(used);
    forall b: nat
      ensures b in Clear(used) <==> b < |used| && !used[b]
    {
      ClearHolds(used, b);
    }
  }

  function Mark(used: seq<bool>, ptrs: seq<int>): (r: seq<bool>)
    ensures |r| == |used|
    ensures forall b :: 0 <= b < |used| ==> (r[b] <==> used[b] || b in ptrs)
  {
    seq(|used|, b requires 0 <= b < |used| => used[b] || b in ptrs)
  }

  function Unmark(used: seq<bool>, ptrs: seq<int>): (r: seq<bool>)
    ensures |r| == |used|
    ensures forall b :: 0 <= b < |used| ==> (r[b] <==> used[b] && b !in ptrs)
  {
    seq(|used|, b requires 0 <= b < |used| => used[b] && b !in ptrs)
  }

  /** Setting one clear bit takes exactly that entry off the list. */
  lemma {:induction false} SetOne(used: seq<bool>, k: nat)
    requires k < |Clear(used)|
    ensures Clear(used)[k] < |used|
    ensures Clear(used[Clear(used)[k] := true]) == Clear(used)[..k] + Clear(used)[k + 1..]
  {
    var n := |used| - 1;
    var rest := Clear(used[..n]);
    if k < |rest| {
      SetOne(used[..n], k);
      assert used[rest[k] := true][..n] == used[..n][rest[k] := true];
      assert Clear(used)[..k] == rest[..k];
    } else {
      assert used[n := true][..n] == used[..n];
    }
  }

  /** Clearing one set bit lengthens the list by one. */
  lemma {:induction false} ClearOne(used: seq<bool>, b: nat)
    requires b < |used| && used[b]
    ensures |Clear(used[b := false])| == |Clear(used)| + 1
  {
    var n := |used| - 1;
    if b < n {
      assert used[b := false][..n] == used[..n][b := false];
      ClearOne(used[..n], b);
    } else {
      assert used[b := false][..n] == used[..n];
    }
  }

  /** The scan of bitmap_allocate_block stops at the head of the list. */
  lemma FirstClear(used: seq<bool>, b: nat)
    requires b < |used| && !used[b] && forall i :: 0 <= i < b ==> used[i]
    ensures Clear(used) != [] && Clear(used)[0] == b
  {
    ClearExact(used);
    assert b in Clear(used);
    assert Clear(used)[0] in Clear(used);
  }

  lemma NoneClear(used: seq<bool>)
    ensures Clear(used) == [] <==> forall i :: 0 <= i < |used| ==> used[i]
  {
    ClearExact(used);
    if Clear(used) != [] {
      assert Clear(used)[0] in Clear(used);
    }
  }

  /** n allocations take the n smallest clear bits. */
  lemma {:induction false} TakeFirst(used: seq<bool>, n: nat)
    requires n <= |Clear(used)|
    ensures Clear(Mark(used, Clear(used)[..n])) == Clear(used)[n..]
  {
    var free := Clear(used);
    if n == 0 {
      assert Mark(used, free[..0]) == used;
    } else {
      TakeFirst(used, n - 1);
      var m := Mark(used, free[..n - 1]);
      assert Clear(m)[0] == free[n - 1];
      SetOne(m, 0);
      MarkOneMore(used, free[..n - 1], free[n - 1]);
      assert free[..n] == free[..n - 1] + [free[n - 1]];
      assert Clear(m)[..0] + Clear(m)[1..] == free[n..];
    }
  }

  lemma MarkOneMore(used: seq<bool>, ptrs: seq<int>, b: nat)
    requires b < |used|
    ensures Mark(used, ptrs + [b]) == Mark(used, ptrs)[b := true]
  {
  }

  lemma UnmarkOneMore(used: seq<bool>, ptrs: seq<int>, b: nat)
    requires b < |used|
    ensures Unmark(used, ptrs + [b]) == Unmark(used, ptrs)[b := false]
  {
  }

  ghost predicate AllSet(used: seq<bool>, ptrs: seq<int>) {
    forall k :: 0 <= k < |ptrs| ==> 0 <= ptrs[k] < |used| && used[ptrs[k]]
  }

  /** Freeing distinct set blocks lengthens the list by their number: nothing is freed twice. */
  lemma {:induction false} FreeDistinct(used: seq<bool>, ptrs: seq<int>)
    requires AllSet(used, ptrs) && Ascending(ptrs)
    ensures |Clear(Unmark(used, ptrs))| == |Clear(used)| + |ptrs|
  {
    if ptrs == [] {
      assert Unmark(used, ptrs) == used;
    } else {
      var n := |ptrs| - 1;
      FreeDistinct(used, ptrs[..n]);
      UnmarkOneMore(used, ptrs[..n], ptrs[n]);
      assert ptrs == ptrs[..n] + [ptrs[n]];
      ClearOne(Unmark(used, ptrs[..n]), ptrs[n]);
    }
  }

  lemma {:induction false} ClearBound(used: seq<bool>)
    ensures |Clear(used)| <= |used|
  {
    if used != [] {
      ClearBound(used[..|used| - 1]);
    }
  }

  /** A prefix of n set bits followed by clear ones. */
  lemma {:induction false} ClearSuffix(used: seq<bool>, n: nat)
    requires n <= |used|
    requires forall i :: 0 <= i < |used| ==> (used[i] <==> i < n)
    ensures |Clear(used)| == |used| - n
  {
    if |used| > 0 {
      var m := |used| - 1;
      if n == |used| {
        ClearSuffix(used[..m], m);
      } else {
        ClearSuffix(used[..m], n);
      }
    }
  }

  /** The first n entries of the list: n distinct clear blocks with no other clear block below them. */
  lemma FirstEntries(used: seq<bool>, n: nat)
    requires n <= |Clear(used)|
    ensures var p := Clear(used)[..n];
            && Ascending(p)
            && (forall b | b in p :: 0 <= b < |used| && !used[b])
            && |Clear(Mark(used, p))| == |Clear(used)| - n
  {
    ClearExact(used);
    TakeFirst(used, n);
    forall b | b in Clear(used)[..n]
      ensures b in Clear(used)
    {
    }
  }

  /** No clear block below a taken one is passed over. */
  lemma FirstEntriesLeast(used: seq<bool>, n: nat, b: nat, c: nat)
    requires n <= |Clear(used)| && b in Clear(used)[..n]
    requires c < b && c < |used| && !used[c]
    ensures c in Clear(used)[..n]
  {
    ClearExact(used);
    var free := Clear(used);
    var k :| 0 <= k < n && free[k] == b;
    assert c in free;
    var m :| 0 <= m < |free| && free[m] == c;
    assert free[..n][m] == c;
  }
}
