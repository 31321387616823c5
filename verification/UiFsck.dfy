/** What the simulator's fsck, ui/app.js:361-437, reports of any state, whatever its counters and block lists hold. */
module UiFsck {
  import opened UiSim

  /** The k-th block number of file i. */
  predicate Has(u: Ui, i: nat, k: nat) { i < |u.files| && k < |u.files[i].blocks| }

  /** It lies out of the data region. */
  predicate StrayAt(u: Ui, i: nat, k: nat)
    requires Has(u, i, k)
  {
    !(u.dataStart <= u.files[i].blocks[k] < u.totalBlocks)
  }

  /** An earlier file, or the same one before, has the number too. */
  predicate RepeatAt(u: Ui, i: nat, k: nat)
    requires Has(u, i, k)
  {
    var b := u.files[i].blocks[k];
    (exists j :: 0 <= j < i && b in u.files[j].blocks) || b in u.files[i].blocks[..k]
  }

  predicate BadName(u: Ui, i: nat)
    requires i < |u.files|
  {
    u.files[i].name == "" || |u.files[i].name| > 31
  }

  // Of the first n files: the bad names, and the places of all block numbers, of stray ones and of repeated ones.

  function BadNames(u: Ui, n: nat): set<nat>
    requires n <= |u.files|
  {
    set i: nat | i < n && BadName(u, i)
  }

  function Places(u: Ui, n: nat): set<(nat, nat)>
    requires n <= |u.files|
  {
    set i: nat, k: nat | i < n && k < |u.files[i].blocks| :: (i, k)
  }

  function Strays(u: Ui, n: nat): set<(nat, nat)>
    requires n <= |u.files|
  {
    set i: nat, k: nat | i < n && k < |u.files[i].blocks| && StrayAt(u, i, k) :: (i, k)
  }

  function Repeated(u: Ui, n: nat): set<(nat, nat)>
    requires n <= |u.files|
  {
    set i: nat, k: nat | i < n && k < |u.files[i].blocks| && RepeatAt(u, i, k) :: (i, k)
  }

  // ---- one file ----

  function PlaceRow(i: nat, m: nat): (r: set<(nat, nat)>)
    ensures |r| == m && forall p :: p in r <==> p.0 == i && p.1 < m
  {
    if m == 0 then {} else PlaceRow(i, m - 1) + {(i, m - 1)}
  }

  function StrayRow(u: Ui, i: nat, m: nat): set<(nat, nat)>
    requires i < |u.files| && m <= |u.files[i].blocks|
  {
    set k: nat | k < m && StrayAt(u, i, k) :: (i, k)
  }

  function RepeatRow(u: Ui, i: nat, m: nat): set<(nat, nat)>
    requires i < |u.files| && m <= |u.files[i].blocks|
  {
    set k: nat | k < m && RepeatAt(u, i, k) :: (i, k)
  }

  lemma StrayRowNext(u: Ui, i: nat, m: nat)
    requires Has(u, i, m)
    ensures |StrayRow(u, i, m + 1)| == |StrayRow(u, i, m)| + if StrayAt(u, i, m) then 1 else 0
  {
    assert StrayRow(u, i, m + 1) == StrayRow(u, i, m) + if StrayAt(u, i, m) then {(i, m)} else {};
  }

  lemma StrayNext(u: Ui, blocks: seq<nat>, m: nat)
    requires m < |blocks|
    ensures Stray(u, blocks[..m + 1]) == Stray(u, blocks[..m])
                                         + if blocks[m] < u.dataStart || blocks[m] >= u.totalBlocks then 1 else 0
  {
    assert blocks[..m + 1][..m] == blocks[..m];
  }

  lemma {:induction false} StrayRowSize(u: Ui, i: nat, m: nat)
    requires i < |u.files| && m <= |u.files[i].blocks|
    ensures |StrayRow(u, i, m)| == Stray(u, u.files[i].blocks[..m])
  {
    if m == 0 {
      assert StrayRow(u, i, 0) == {};
    } else {
      StrayRowSize(u, i, m - 1);
      StrayRowNext(u, i, m - 1);
      StrayNext(u, u.files[i].blocks, m - 1);
    }
  }

  lemma SeenBefore(u: Ui, i: nat, k: nat)
    requires Has(u, i, k)
    ensures RepeatAt(u, i, k) <==> u.files[i].blocks[k] in Flat(u.files[..i]) + u.files[i].blocks[..k]
  {
    var b := u.files[i].blocks[k];
    assert forall j :: 0 <= j < i ==> u.files[..i][j] == u.files[j];
    assert b in Flat(u.files[..i]) <==> exists j :: 0 <= j < i && b in u.files[..i][j].blocks;
  }

  lemma RepeatsNext(seen: seq<nat>, blocks: seq<nat>, m: nat)
    requires m < |blocks|
    ensures Repeats(seen, blocks[..m + 1])
            == Repeats(seen, blocks[..m]) + if blocks[m] in seen + blocks[..m] then 1 else 0
  {
    assert blocks[..m + 1][..m] == blocks[..m];
  }

  lemma RepeatRowNext(u: Ui, i: nat, m: nat)
    requires Has(u, i, m)
    ensures |RepeatRow(u, i, m + 1)| == |RepeatRow(u, i, m)| + if RepeatAt(u, i, m) then 1 else 0
  {
    assert RepeatRow(u, i, m + 1) == RepeatRow(u, i, m) + if RepeatAt(u, i, m) then {(i, m)} else {};
  }

  /** The numbers seen are those of the files before. */
  ghost predicate SeenIs(u: Ui, i: nat, seen: seq<nat>)
    requires i < |u.files|
  {
    forall k: nat :: Has(u, i, k) ==> (RepeatAt(u, i, k) <==> u.files[i].blocks[k] in seen + u.files[i].blocks[..k])
  }

  lemma FlatIsSeen(u: Ui, i: nat)
    requires i < |u.files|
    ensures SeenIs(u, i, Flat(u.files[..i]))
  {
    forall k: nat | Has(u, i, k)
      ensures RepeatAt(u, i, k) <==> u.files[i].blocks[k] in Flat(u.files[..i]) + u.files[i].blocks[..k]
    {
      SeenBefore(u, i, k);
    }
  }

  lemma {:induction false} RepeatRowSize(u: Ui, i: nat, seen: seq<nat>, m: nat)
    requires i < |u.files| && m <= |u.files[i].blocks| && SeenIs(u, i, seen)
    ensures |RepeatRow(u, i, m)| == Repeats(seen, u.files[i].blocks[..m])
  {
    if m == 0 {
      assert RepeatRow(u, i, 0) == {};
    } else {
      RepeatRowSize(u, i, seen, m - 1);
      RepeatRowNext(u, i, m - 1);
      assert Has(u, i, m - 1);
      RepeatsNext(seen, u.files[i].blocks, m - 1);
    }
  }

  // ---- one file more ----

  lemma NamesNext(u: Ui, n: nat)
    requires n < |u.files|
    ensures |BadNames(u, n + 1)| == |BadNames(u, n)| + if BadName(u, n) then 1 else 0
  {
    assert BadNames(u, n + 1) == BadNames(u, n) + if BadName(u, n) then {n} else {};
  }

  lemma PlacesNext(u: Ui, n: nat)
    requires n < |u.files|
    ensures |Places(u, n + 1)| == |Places(u, n)| + |u.files[n].blocks|
  {
    var row := PlaceRow(n, |u.files[n].blocks|);
    assert Places(u, n + 1) == Places(u, n) + row;
    assert Places(u, n) !! row;
  }

  lemma StraysSplit(u: Ui, n: nat, m: nat)
    requires n < |u.files| && m == |u.files[n].blocks|
    ensures Strays(u, n + 1) == Strays(u, n) + StrayRow(u, n, m) && Strays(u, n) !! StrayRow(u, n, m)
  {
  }

  lemma StraysNext(u: Ui, n: nat)
    requires n < |u.files|
    ensures |Strays(u, n + 1)| == |Strays(u, n)| + Stray(u, u.files[n].blocks)
  {
    var m := |u.files[n].blocks|;
    StraysSplit(u, n, m);
    StrayRowSize(u, n, m);
    assert u.files[n].blocks[..m] == u.files[n].blocks;
  }

  lemma RepeatedSplit(u: Ui, n: nat, m: nat)
    requires n < |u.files| && m == |u.files[n].blocks|
    ensures Repeated(u, n + 1) == Repeated(u, n) + RepeatRow(u, n, m) && Repeated(u, n) !! RepeatRow(u, n, m)
  {
  }

  lemma RepeatedNext(u: Ui, n: nat)
    requires n < |u.files|
    ensures |Repeated(u, n + 1)| == |Repeated(u, n)| + Repeats(Flat(u.files[..n]), u.files[n].blocks)
  {
    var m := |u.files[n].blocks|;
    RepeatedSplit(u, n, m);
    FlatIsSeen(u, n);
    RepeatRowSize(u, n, Flat(u.files[..n]), m);
    assert u.files[n].blocks[..m] == u.files[n].blocks;
  }

  // ---- all files ----

  lemma {:induction false} NamesCounted(u: Ui, n: nat)
    requires n <= |u.files|
    ensures NameErrors(u.files[..n]) == |BadNames(u, n)|
  {
    if n == 0 {
      assert BadNames(u, 0) == {};
    } else {
      NamesCounted(u, n - 1);
      NamesNext(u, n - 1);
      assert u.files[..n][..n - 1] == u.files[..n - 1];
    }
  }

  lemma {:induction false} PlacesCounted(u: Ui, n: nat)
    requires n <= |u.files|
    ensures SumBlocks(u.files[..n]) == |Places(u, n)|
  {
    if n == 0 {
      assert Places(u, 0) == {};
    } else {
      PlacesCounted(u, n - 1);
      PlacesNext(u, n - 1);
      assert u.files[..n][..n - 1] == u.files[..n - 1];
    }
  }

  lemma {:induction false} StraysCounted(u: Ui, n: nat)
    requires n <= |u.files|
    ensures StrayFiles(u, u.files[..n]) == |Strays(u, n)|
  {
    if n == 0 {
      assert Strays(u, 0) == {};
    } else {
      StraysCounted(u, n - 1);
      StraysNext(u, n - 1);
      assert u.files[..n][..n - 1] == u.files[..n - 1];
    }
  }

  lemma {:induction false} RepeatedCounted(u: Ui, n: nat)
    requires n <= |u.files|
    ensures RepeatErrors(u.files[..n]) == |Repeated(u, n)|
  {
    if n == 0 {
      assert Repeated(u, 0) == {};
    } else {
      RepeatedCounted(u, n - 1);
      RepeatedNext(u, n - 1);
      assert u.files[..n][..n - 1] == u.files[..n - 1];
    }
  }

  /** One error if the files are not as many as the inode counter says, one if the block numbers are not as many as
      the block counter says, and one for every bad name, every number out of the data region and every number seen
      before. */
  lemma FsckCounts(u: Ui)
    ensures var n := |u.files|;
            Fsck(u) == (if n == u.maxInodes - u.freeInodes then 0 else 1)
                       + (if |Places(u, n)| == u.dataBlocks - u.freeBlocks then 0 else 1)
                       + |BadNames(u, n)| + |Strays(u, n)| + |Repeated(u, n)|
  {
    var n := |u.files|;
    assert u.files[..n] == u.files;
    NamesCounted(u, n);
    PlacesCounted(u, n);
    StraysCounted(u, n);
    RepeatedCounted(u, n);
  }
}
