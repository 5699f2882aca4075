/**
 * `OrderBy(file => file, comparer)` over a folder listing when the comparer orders files by
 * name under a string comparer: a stable sort, so files whose names compare equal keep the
 * order of the listing.
 */
module OrderBy {
  import opened Strings
  import opened FileSystem

  /** Every earlier file's name compares at most equal to every later file's name. */
  predicate Sorted(s: seq<FileInfo>, sc: StringComparer) {
    forall i, j :: 0 <= i < j < |s| ==> sc.Compare(s[i].name, s[j].name) <= 0
  }

  /** The files of `s` whose name has key `k` under `sc`, in the order of `s`. */
  function WithKey(s: seq<FileInfo>, sc: StringComparer, k: string): (r: seq<FileInfo>)
    ensures |r| <= |s|
  {
    if s == [] then []
    else (if sc.Key(s[0].name) == k then [s[0]] else []) + WithKey(s[1..], sc, k)
  }

  /** Places `x` after every file of the sorted `s` whose name compares at most equal to it. */
  function Insert(s: seq<FileInfo>, x: FileInfo, sc: StringComparer): seq<FileInfo> {
    if s == [] then [x]
    else if sc.Compare(s[0].name, x.name) <= 0 then [s[0]] + Insert(s[1..], x, sc)
    else [x] + s
  }

  /** The listing sorted by name: each file in turn is inserted into the sorted earlier files. */
  function SortByName(files: seq<FileInfo>, sc: StringComparer): (r: seq<FileInfo>)
    ensures |r| == |files|
  {
    if files == [] then []
    else
      var n := |files| - 1;
      var init := SortByName(files[..n], sc);
      InsertPermutation(init, files[n], sc);
      assert |multiset(Insert(init, files[n], sc))| == |init| + 1;
      Insert(init, files[n], sc)
  }

  /** Inserting adds exactly the one file. */
  lemma {:induction false} InsertPermutation(s: seq<FileInfo>, x: FileInfo, sc: StringComparer)
    ensures multiset(Insert(s, x, sc)) == multiset(s) + multiset{x}
  {
    if s != [] && sc.Compare(s[0].name, x.name) <= 0 {
      assert s == [s[0]] + s[1..];
      InsertPermutation(s[1..], x, sc);
    }
  }

  /** Sorting neither loses nor duplicates a file. */
  lemma {:induction false} SortByNamePermutation(files: seq<FileInfo>, sc: StringComparer)
    ensures multiset(SortByName(files, sc)) == multiset(files)
    ensures |SortByName(files, sc)| == |files|
  {
    if files != [] {
      var n := |files| - 1;
      assert files == files[..n] + [files[n]];
      SortByNamePermutation(files[..n], sc);
      InsertPermutation(SortByName(files[..n], sc), files[n], sc);
    }
    assert |SortByName(files, sc)| == |multiset(SortByName(files, sc))|;
  }

  /** The result is ordered by name. */
  lemma {:induction false} SortByNameSorted(files: seq<FileInfo>, sc: StringComparer)
    ensures Sorted(SortByName(files, sc), sc)
  {
    if files != [] {
      var n := |files| - 1;
      SortByNameSorted(files[..n], sc);
      InsertSorted(SortByName(files[..n], sc), files[n], sc);
    }
  }

  /** Sorting one more file inserts it into the sorted earlier files. */
  lemma SortByNameSnoc(init: seq<FileInfo>, last: FileInfo, sc: StringComparer)
    ensures SortByName(init + [last], sc) == Insert(SortByName(init, sc), last, sc)
  {
    assert (init + [last])[..|init|] == init;
  }

  /** A file that sorts before the first file goes in front. */
  lemma InsertFront(s: seq<FileInfo>, x: FileInfo, sc: StringComparer)
    requires s != [] && sc.Compare(s[0].name, x.name) > 0
    ensures Insert(s, x, sc) == [x] + s
  {
  }

  lemma {:induction false} InsertSorted(s: seq<FileInfo>, x: FileInfo, sc: StringComparer)
    requires Sorted(s, sc)
    ensures Sorted(Insert(s, x, sc), sc)
  {
    if s != [] {
      if sc.Compare(s[0].name, x.name) <= 0 {
        InsertSorted(s[1..], x, sc);
        InsertAfterHead(s, x, sc);
      } else {
        var r := Insert(s, x, sc);
        CompareIsTotalPreorder(sc, s[0].name, x.name, x.name);
        forall j | 1 <= j < |r| ensures sc.Compare(x.name, r[j].name) <= 0 {
          CompareIsTotalPreorder(sc, x.name, s[0].name, r[j].name);
        }
      }
    }
  }

  /** When `x` goes after the head of a sorted `s`, the head still precedes everything inserted behind it. */
  lemma InsertAfterHead(s: seq<FileInfo>, x: FileInfo, sc: StringComparer)
    requires Sorted(s, sc) && s != [] && sc.Compare(s[0].name, x.name) <= 0
    ensures forall j :: 0 <= j < |Insert(s[1..], x, sc)| ==> sc.Compare(s[0].name, Insert(s[1..], x, sc)[j].name) <= 0
  {
    var tail := Insert(s[1..], x, sc);
    InsertPermutation(s[1..], x, sc);
    forall j | 0 <= j < |tail| ensures sc.Compare(s[0].name, tail[j].name) <= 0 {
      assert tail[j] in multiset(tail);
      assert tail[j] in s[1..] || tail[j] == x;
    }
  }

  lemma {:induction false} WithKeyAppend(a: seq<FileInfo>, b: seq<FileInfo>, sc: StringComparer, k: string)
    ensures WithKey(a + b, sc, k) == WithKey(a, sc, k) + WithKey(b, sc, k)
  {
    if a == [] {
      assert a + b == b;
    } else {
      var ab := a + b;
      assert ab[0] == a[0] && ab[1..] == a[1..] + b;
      WithKeyAppend(a[1..], b, sc, k);
      var rest, restA, restB := WithKey(ab[1..], sc, k), WithKey(a[1..], sc, k), WithKey(b, sc, k);
      assert rest == restA + restB;
      if sc.Key(a[0].name) == k {
        assert [a[0]] + rest == ([a[0]] + restA) + restB;
      } else {
        assert [] + rest == ([] + restA) + restB;
      }
    }
  }

  lemma {:induction false} WithKeyNone(s: seq<FileInfo>, sc: StringComparer, k: string)
    requires forall j :: 0 <= j < |s| ==> sc.Key(s[j].name) != k
    ensures WithKey(s, sc, k) == []
  {
    if s != [] {
      WithKeyNone(s[1..], sc, k);
    }
  }

  /** Inserting `x` into a sorted sequence appends it to the files that share its key. */
  lemma {:induction false} InsertWithKey(s: seq<FileInfo>, x: FileInfo, sc: StringComparer, k: string)
    requires Sorted(s, sc)
    ensures WithKey(Insert(s, x, sc), sc, k) == WithKey(s, sc, k) + (if sc.Key(x.name) == k then [x] else [])
  {
    if s == [] {
    } else if sc.Compare(s[0].name, x.name) <= 0 {
      InsertWithKey(s[1..], x, sc, k);
      assert s == [s[0]] + s[1..];
      WithKeyCons(s[0], s[1..], Insert(s[1..], x, sc), if sc.Key(x.name) == k then [x] else [], sc, k);
    } else {
      InsertWithKeyBeforeHead(s, x, sc, k);
    }
  }

  /** Putting the same file in front of two sequences keeps an equation between their keyed parts. */
  lemma WithKeyCons(head: FileInfo, rest: seq<FileInfo>, tail: seq<FileInfo>, extra: seq<FileInfo>, sc: StringComparer, k: string)
    requires WithKey(tail, sc, k) == WithKey(rest, sc, k) + extra
    ensures WithKey([head] + tail, sc, k) == WithKey([head] + rest, sc, k) + extra
  {
    assert ([head] + tail)[0] == head && ([head] + tail)[1..] == tail;
    assert ([head] + rest)[0] == head && ([head] + rest)[1..] == rest;
  }

  lemma InsertWithKeyBeforeHead(s: seq<FileInfo>, x: FileInfo, sc: StringComparer, k: string)
    requires Sorted(s, sc) && s != [] && sc.Compare(s[0].name, x.name) > 0
    ensures WithKey(Insert(s, x, sc), sc, k) == WithKey(s, sc, k) + (if sc.Key(x.name) == k then [x] else [])
  {
    var r := Insert(s, x, sc);
    assert r[0] == x && r[1..] == s;
    if sc.Key(x.name) == k {
      forall j | 0 <= j < |s| ensures sc.Key(s[j].name) != k {
        CompareIsTotalPreorder(sc, s[0].name, s[j].name, x.name);
      }
      WithKeyNone(s, sc, k);
    }
  }

  /** Stability: among files with equal keys, the sorted order is the listing order. */
  lemma {:induction false} SortByNameStable(files: seq<FileInfo>, sc: StringComparer, k: string)
    ensures WithKey(SortByName(files, sc), sc, k) == WithKey(files, sc, k)
  {
    if files != [] {
      var n := |files| - 1;
      var init, last := files[..n], files[n];
      assert files == init + [last];
      WithKeyAppend(init, [last], sc, k);
      SortByNameStable(init, sc, k);
      var sorted := SortByName(init, sc);
      SortByNameSorted(init, sc);
      InsertWithKey(sorted, last, sc, k);
    }
  }
}
