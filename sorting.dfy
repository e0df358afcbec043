/**
 * The `sort((a, b) => key(b) - key(a))` the scripts use to order files by modification
 * time and history entries by timestamp: a stable sort, newest (largest key) first.
 */
module Sorting {
  import opened Wrappers
  import opened JsText
  import Seqs

  /** A directory entry with its modification time in milliseconds (`{ name, time }`). */
  datatype FileStat = FileStat(name: string, time: int)

  function TimeOf(f: FileStat): int
  {
    f.time
  }

  function NameOf(f: FileStat): string
  {
    f.name
  }

  ghost predicate SortedDesc<T>(s: seq<T>, key: T -> int)
  {
    forall i, j | 0 <= i < j < |s| :: key(s[i]) >= key(s[j])
  }

  /** Places x in front of the first element whose key is not larger: equal keys keep x first. */
  function Insert<T>(x: T, s: seq<T>, key: T -> int): (r: seq<T>)
    ensures multiset(r) == multiset(s) + multiset{x} && |r| == |s| + 1
    ensures r[0] == if s == [] || key(s[0]) <= key(x) then x else s[0]
    decreases |s|
  {
    if s == [] || key(s[0]) <= key(x) then [x] + s
    else
      assert s == [s[0]] + s[1..];
      [s[0]] + Insert(x, s[1..], key)
  }

  ghost predicate AllAtMost<T>(s: seq<T>, key: T -> int, b: int)
  {
    forall i | 0 <= i < |s| :: key(s[i]) <= b
  }

  lemma {:induction false} InsertAtMost<T>(x: T, s: seq<T>, key: T -> int, b: int)
    requires AllAtMost(s, key, b) && key(x) <= b
    ensures AllAtMost(Insert(x, s, key), key, b)
    decreases |s|
  {
    if s != [] && key(s[0]) > key(x) {
      InsertAtMost(x, s[1..], key, b);
    }
  }

  lemma {:induction false} InsertSorted<T>(x: T, s: seq<T>, key: T -> int)
    requires SortedDesc(s, key)
    ensures SortedDesc(Insert(x, s, key), key)
    decreases |s|
  {
    var r := Insert(x, s, key);
    if s == [] || key(s[0]) <= key(x) {
      assert r == [x] + s;
      forall i, j | 0 <= i < j < |r| ensures key(r[i]) >= key(r[j]) {
        if i > 0 {
          assert r[i] == s[i - 1] && r[j] == s[j - 1];
        } else {
          assert r[j] == s[j - 1];
        }
      }
    } else {
      var rest := Insert(x, s[1..], key);
      InsertSorted(x, s[1..], key);
      InsertAtMost(x, s[1..], key, key(s[0]));
      assert r == [s[0]] + rest;
      forall i, j | 0 <= i < j < |r| ensures key(r[i]) >= key(r[j]) {
        assert r[j] == rest[j - 1];
        if i > 0 {
          assert r[i] == rest[i - 1];
        }
      }
    }
  }

  /** A stable insertion sort, largest key first. */
  function SortDesc<T>(s: seq<T>, key: T -> int): (r: seq<T>)
    ensures multiset(r) == multiset(s) && |r| == |s|
    ensures SortedDesc(r, key)
    decreases |s|
  {
    if s == [] then []
    else
      assert s == [s[0]] + s[1..];
      InsertSorted(s[0], SortDesc(s[1..], key), key);
      Insert(s[0], SortDesc(s[1..], key), key)
  }

  /** The elements whose key is k, as a filter. */
  function SameKey<T>(key: T -> int, k: int): T -> bool
  {
    (x: T) => key(x) == k
  }

  /**
   * Inserting x puts it in front of every element with the same key: everything that
   * precedes it has a larger key. No sortedness is needed.
   */
  lemma {:induction false} InsertKeepsSameKey<T>(x: T, s: seq<T>, key: T -> int, k: int)
    ensures Seqs.Filter(Insert(x, s, key), SameKey(key, k)) ==
      (if key(x) == k then [x] else []) + Seqs.Filter(s, SameKey(key, k))
    decreases |s|
  {
    var p := SameKey(key, k);
    var front := if key(x) == k then [x] else [];
    if s == [] || key(s[0]) <= key(x) {
      assert Insert(x, s, key) == [x] + s;
      Seqs.FilterCons(x, s, p);
    } else {
      InsertKeepsSameKey(x, s[1..], key, k);
      assert Insert(x, s, key) == [s[0]] + Insert(x, s[1..], key);
      assert s == [s[0]] + s[1..];
      assert front == [] || !p(s[0]);
      FilterPast(s[0], Insert(x, s[1..], key), s[1..], front, p);
    }
  }

  /** An element the filter drops whenever front is non-empty can move behind front. */
  lemma FilterPast<T>(y: T, rest: seq<T>, s: seq<T>, front: seq<T>, p: T -> bool)
    requires Seqs.Filter(rest, p) == front + Seqs.Filter(s, p)
    requires front == [] || !p(y)
    ensures Seqs.Filter([y] + rest, p) == front + Seqs.Filter([y] + s, p)
  {
    if p(y) {
      assert Seqs.Filter([y] + rest, p) == Seqs.Filter([y] + s, p) by {
        Seqs.FilterCons(y, rest, p);
        Seqs.FilterCons(y, s, p);
      }
      assert front + Seqs.Filter([y] + s, p) == Seqs.Filter([y] + s, p);
    } else {
      assert Seqs.Filter([y] + rest, p) == Seqs.Filter(rest, p) by {
        Seqs.FilterCons(y, rest, p);
      }
      assert Seqs.Filter([y] + s, p) == Seqs.Filter(s, p) by {
        Seqs.FilterCons(y, s, p);
      }
    }
  }

  /** The sort is stable: the elements of any one key keep their original order. */
  lemma {:induction false} SortDescStable<T>(s: seq<T>, key: T -> int, k: int)
    ensures Seqs.Filter(SortDesc(s, key), SameKey(key, k)) == Seqs.Filter(s, SameKey(key, k))
    decreases |s|
  {
    if s != [] {
      SortDescStable(s[1..], key, k);
      InsertKeepsSameKey(s[0], SortDesc(s[1..], key), key, k);
    }
  }

  /** Inserting x adds exactly f(x) to the multiset of images. */
  lemma {:induction false} InsertMapMultiset<T, U>(x: T, s: seq<T>, key: T -> int, f: T -> U)
    ensures multiset(Seqs.Map(Insert(x, s, key), f)) == multiset(Seqs.Map(s, f)) + multiset{f(x)}
    decreases |s|
  {
    if s == [] || key(s[0]) <= key(x) {
      assert Seqs.Map([x] + s, f) == [f(x)] + Seqs.Map(s, f);
    } else {
      InsertMapMultiset(x, s[1..], key, f);
      assert Seqs.Map([s[0]] + Insert(x, s[1..], key), f) == [f(s[0])] + Seqs.Map(Insert(x, s[1..], key), f);
      assert Seqs.Map(s, f) == [f(s[0])] + Seqs.Map(s[1..], f);
    }
  }

  /** Sorting permutes the images of the elements under any f (their names, say). */
  lemma {:induction false} SortDescMapMultiset<T, U>(s: seq<T>, key: T -> int, f: T -> U)
    ensures multiset(Seqs.Map(SortDesc(s, key), f)) == multiset(Seqs.Map(s, f))
    decreases |s|
  {
    if s != [] {
      SortDescMapMultiset(s[1..], key, f);
      InsertMapMultiset(s[0], SortDesc(s[1..], key), key, f);
      assert Seqs.Map(s, f) == [f(s[0])] + Seqs.Map(s[1..], f);
    }
  }

  /** The index of the first element with the largest key. */
  function FirstMax<T>(s: seq<T>, key: T -> int): (m: nat)
    requires s != []
    ensures m < |s|
    ensures forall j | 0 <= j < |s| :: key(s[j]) <= key(s[m])
    ensures forall j | 0 <= j < m :: key(s[j]) < key(s[m])
    decreases |s|
  {
    if |s| == 1 then 0
    else
      var k := FirstMax(s[1..], key);
      if key(s[0]) >= key(s[1 + k]) then 0 else k + 1
  }

  /** Sorting puts first the earliest of the elements with the largest key. */
  lemma {:induction false} SortFirstIsFirstMax<T>(s: seq<T>, key: T -> int)
    requires s != []
    ensures SortDesc(s, key)[0] == s[FirstMax(s, key)]
    decreases |s|
  {
    if |s| > 1 {
      SortFirstIsFirstMax(s[1..], key);
    }
  }

  /**
   * The file a `sort` by time, newest first, followed by `[0].name` picks: None for an empty
   * listing, otherwise the first listed entry among those with the greatest time.
   */
  function Newest(files: seq<FileStat>): (r: Option<string>)
    ensures r.None? <==> files == []
    ensures r.Some? ==> r.value == files[FirstMax(files, TimeOf)].name
  {
    if files == [] then None
    else
      SortFirstIsFirstMax(files, TimeOf);
      Some(SortDesc(files, TimeOf)[0].name)
  }

  /** `fs.readdirSync(dir).filter(f => f.endsWith(ext))` on stat entries. */
  function WithExtension(files: seq<FileStat>, ext: string): (r: seq<FileStat>)
    ensures forall f | f in r :: f in files && EndsWith(f.name, ext)
    ensures forall f | f in files && EndsWith(f.name, ext) :: f in r
  {
    Seqs.Filter(files, (f: FileStat) => EndsWith(f.name, ext))
  }
}
