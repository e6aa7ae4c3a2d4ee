/**
 * The watcher's filter list: plain substring patterns (no regex, no glob),
 * kept free of duplicates by `AddFilter`, pruned by `RemoveFilter`, and
 * consulted by `matchesFilter`. An empty list accepts every name.
 */
module Filters {

  /** `sub` occurs in `s` starting at position `k`. */
  predicate OccursAt(sub: string, s: string, k: nat)
  {
    k + |sub| <= |s| && s[k..k + |sub|] == sub
  }

  /** `s.find(sub) != std::string::npos`: `sub` occurs somewhere in `s` (the empty pattern occurs everywhere). */
  predicate Occurs(sub: string, s: string)
  {
    exists k: nat :: k <= |s| && OccursAt(sub, s, k)
  }

  /** The acceptance rule: no filters, or some filter occurs in the name. */
  predicate Accepts(filters: seq<string>, name: string)
  {
    |filters| == 0 || exists i :: 0 <= i < |filters| && Occurs(filters[i], name)
  }

  /** Substring matching agrees with the reference reading "the name splits as prefix ++ pattern ++ suffix". */
  lemma OccursIffSplit(sub: string, s: string)
    ensures Occurs(sub, s) <==> exists a: string, b: string :: s == a + sub + b
  {
    if Occurs(sub, s) {
      var k: nat :| k <= |s| && OccursAt(sub, s, k);
      assert s == s[..k] + sub + s[k + |sub|..];
    }
    if exists a: string, b: string :: s == a + sub + b {
      var a: string, b: string :| s == a + sub + b;
      assert s[|a|..|a| + |sub|] == sub;
      assert OccursAt(sub, s, |a|);
    }
  }

  /** Number of occurrences of `x` in `fs`. */
  function Count(fs: seq<string>, x: string): nat
  {
    if fs == [] then 0 else (if fs[0] == x then 1 else 0) + Count(fs[1..], x)
  }

  predicate NoDuplicates(fs: seq<string>)
  {
    forall i, j :: 0 <= i < j < |fs| ==> fs[i] != fs[j]
  }

  /** The list after `AddFilter(p)`: unchanged if `p` is present, otherwise `p` appended. */
  function WithFilter(fs: seq<string>, p: string): (r: seq<string>)
    ensures p in r
    ensures forall x :: x in r <==> x in fs || x == p
    ensures p in fs ==> r == fs
    ensures p !in fs ==> |r| == |fs| + 1 && r[..|fs|] == fs && r[|fs|] == p
  {
    if p in fs then fs else fs + [p]
  }

  /** The list after `RemoveFilter(p)` (erase-remove): every `p` dropped, the rest kept in order. */
  function WithoutFilter(fs: seq<string>, p: string): (r: seq<string>)
    ensures p !in r
    ensures forall x :: x in r <==> x in fs && x != p
    ensures |r| <= |fs|
  {
    if fs == [] then []
    else (if fs[0] == p then [] else [fs[0]]) + WithoutFilter(fs[1..], p)
  }

  lemma {:induction false} CountAppend(a: seq<string>, b: seq<string>, x: string)
    ensures Count(a + b, x) == Count(a, x) + Count(b, x)
  {
    if a != [] {
      assert (a + b)[0] == a[0];
      assert (a + b)[1..] == a[1..] + b;
      CountAppend(a[1..], b, x);
    } else {
      assert a + b == b;
    }
  }

  lemma {:induction false} CountZeroIffAbsent(fs: seq<string>, x: string)
    ensures Count(fs, x) == 0 <==> x !in fs
  {
    if fs != [] {
      CountZeroIffAbsent(fs[1..], x);
      assert fs == [fs[0]] + fs[1..];
    }
  }

  lemma {:induction false} NoDuplicatesCount(fs: seq<string>, x: string)
    requires NoDuplicates(fs)
    ensures Count(fs, x) <= 1
  {
    if fs != [] {
      NoDuplicatesCount(fs[1..], x);
      if fs[0] == x {
        forall j | 0 <= j < |fs[1..]| ensures fs[1..][j] != x {
          assert fs[1..][j] == fs[j + 1];
        }
        CountZeroIffAbsent(fs[1..], x);
      }
    }
  }

  /**
   * AddFilter leaves exactly one occurrence of the pattern in a duplicate-free
   * list, keeps the list duplicate-free, and leaves every other pattern's
   * count alone.
   */
  lemma AddFilterExactlyOnce(fs: seq<string>, p: string)
    requires NoDuplicates(fs)
    ensures Count(WithFilter(fs, p), p) == 1
    ensures NoDuplicates(WithFilter(fs, p))
    ensures forall x :: x != p ==> Count(WithFilter(fs, p), x) == Count(fs, x)
  {
    if p in fs {
      NoDuplicatesCount(fs, p);
      CountZeroIffAbsent(fs, p);
    } else {
      CountZeroIffAbsent(fs, p);
      assert [p][1..] == [];
      forall x ensures Count(fs + [p], x) == Count(fs, x) + (if x == p then 1 else 0) {
        CountAppend(fs, [p], x);
        assert Count([p], x) == (if x == p then 1 else 0) + Count([], x);
      }
    }
  }

  /** RemoveFilter distributes over concatenation, so the surviving patterns keep their relative order. */
  lemma {:induction false} WithoutFilterAppend(a: seq<string>, b: seq<string>, p: string)
    ensures WithoutFilter(a + b, p) == WithoutFilter(a, p) + WithoutFilter(b, p)
  {
    if a != [] {
      assert (a + b)[0] == a[0];
      assert (a + b)[1..] == a[1..] + b;
      WithoutFilterAppend(a[1..], b, p);
    } else {
      assert a + b == b;
    }
  }

  /** RemoveFilter drops every occurrence of `p` and keeps every other pattern's count. */
  lemma {:induction false} WithoutFilterCounts(fs: seq<string>, p: string)
    ensures Count(WithoutFilter(fs, p), p) == 0
    ensures forall x :: x != p ==> Count(WithoutFilter(fs, p), x) == Count(fs, x)
  {
    if fs != [] {
      WithoutFilterCounts(fs[1..], p);
      var head := if fs[0] == p then [] else [fs[0]];
      forall x ensures Count(WithoutFilter(fs, p), x) == Count(head, x) + Count(WithoutFilter(fs[1..], p), x) {
        CountAppend(head, WithoutFilter(fs[1..], p), x);
      }
    }
  }

  /** Removing a pattern that is absent changes nothing. */
  lemma {:induction false} WithoutAbsentFilter(fs: seq<string>, p: string)
    requires p !in fs
    ensures WithoutFilter(fs, p) == fs
  {
    if fs != [] {
      WithoutAbsentFilter(fs[1..], p);
    }
  }

  /** Adding a new pattern and removing it again restores the list. */
  lemma AddThenRemove(fs: seq<string>, p: string)
    requires p !in fs
    ensures WithoutFilter(WithFilter(fs, p), p) == fs
  {
    WithoutFilterAppend(fs, [p], p);
    WithoutAbsentFilter(fs, p);
  }

  /** RemoveFilter keeps a duplicate-free list duplicate-free. */
  lemma {:induction false} WithoutFilterNoDuplicates(fs: seq<string>, p: string)
    requires NoDuplicates(fs)
    ensures NoDuplicates(WithoutFilter(fs, p))
  {
    if fs != [] {
      WithoutFilterNoDuplicates(fs[1..], p);
      var rest := WithoutFilter(fs[1..], p);
      if fs[0] != p {
        assert fs[0] !in fs[1..];
        assert fs[0] !in rest;
        assert WithoutFilter(fs, p) == [fs[0]] + rest;
      }
    }
  }

  /** The example filter set {"report"}: a report file is accepted, an image is not. */
  lemma ReportFilterExample()
    ensures Accepts(["report"], "report_2024.csv")
    ensures !Accepts(["report"], "image.png")
  {
    assert OccursAt("report", "report_2024.csv", 0);
    assert Occurs(["report"][0], "report_2024.csv");
    forall k: nat | k <= |"image.png"| ensures !OccursAt("report", "image.png", k) {
      if k + 6 <= 9 {
        assert "image.png"[k..k + 6][0] == "image.png"[k];
      }
    }
  }
}
