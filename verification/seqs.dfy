/** The database's query shapes over a table kept as a sequence of rows:
    `findFirst` (Find), `findMany`/`count` (Filter, Count), `delete` (Filter with
    the negated condition), `update` (Update), and uniqueness of a column. */
module Seqs {
  import opened Base

  /** The first row satisfying `p`, as `findFirst` returns it. */
  function Find<T>(s: seq<T>, p: T -> bool): (r: Option<T>)
    ensures r.None? <==> forall i :: 0 <= i < |s| ==> !p(s[i])
    ensures r.Some? ==> exists i :: 0 <= i < |s| && s[i] == r.value && p(s[i]) &&
                                    forall j :: 0 <= j < i ==> !p(s[j])
  {
    if |s| == 0 then None
    else if p(s[0]) then Some(s[0])
    else
      var r := Find(s[1..], p);
      assert r.Some? ==> exists i :: 0 <= i < |s| && s[i] == r.value && p(s[i]) &&
                                     forall j :: 0 <= j < i ==> !p(s[j]) by {
        if r.Some? {
          var i :| 0 <= i < |s[1..]| && s[1..][i] == r.value && p(s[1..][i]) &&
                   forall j :: 0 <= j < i ==> !p(s[1..][j]);
          assert s[i + 1] == r.value;
          forall j | 0 <= j < i + 1 ensures !p(s[j]) {
            if j > 0 { assert s[j] == s[1..][j - 1]; }
          }
        }
      }
      r
  }

  /** The rows satisfying `p`, in table order, each as often as it occurs. */
  function Filter<T(!new)>(s: seq<T>, p: T -> bool): (r: seq<T>)
    ensures |r| <= |s|
    ensures forall x :: x in r <==> x in s && p(x)
  {
    if |s| == 0 then []
    else
      var rest := Filter(s[1..], p);
      assert s == [s[0]] + s[1..];
      if p(s[0]) then [s[0]] + rest else rest
  }

  /** The number of rows satisfying `p`, as `count` returns it. */
  function Count<T(!new)>(s: seq<T>, p: T -> bool): nat
  {
    |Filter(s, p)|
  }

  /** The table without the rows whose column `key` has the value `k`
      (`delete({where: {key: k}})`). */
  function RemoveKey<T(!new), K(==)>(s: seq<T>, key: T -> K, k: K): (r: seq<T>)
    ensures forall x :: x in r <==> x in s && key(x) != k
  {
    Filter(s, (x: T) => key(x) != k)
  }

  /** Every row satisfying `p` is replaced by `f` of it; the others stay. */
  function Update<T>(s: seq<T>, p: T -> bool, f: T -> T): (r: seq<T>)
    ensures |r| == |s|
    ensures forall i :: 0 <= i < |s| ==> r[i] == if p(s[i]) then f(s[i]) else s[i]
  {
    seq(|s|, i requires 0 <= i < |s| => if p(s[i]) then f(s[i]) else s[i])
  }

  /** No two rows share a value of the column `key`. */
  ghost predicate UniqueKeys<T, K>(s: seq<T>, key: T -> K)
  {
    forall i, j :: 0 <= i < j < |s| ==> key(s[i]) != key(s[j])
  }

  /** Some row has the value `k` in the column `key`. */
  ghost predicate HasKey<T, K>(s: seq<T>, key: T -> K, k: K)
  {
    exists i :: 0 <= i < |s| && key(s[i]) == k
  }

  /** Filtering only appends to the result when a row is appended to the table. */
  lemma {:induction false} FilterAppend<T(!new)>(s: seq<T>, p: T -> bool, x: T)
    ensures Filter(s + [x], p) == Filter(s, p) + (if p(x) then [x] else [])
  {
    if |s| == 0 {
      assert s + [x] == [x];
    } else {
      assert (s + [x])[1..] == s[1..] + [x];
      FilterAppend(s[1..], p, x);
    }
  }

  /** Appending a row raises a count by one exactly when the row is counted. */
  lemma CountAppend<T(!new)>(s: seq<T>, p: T -> bool, x: T)
    ensures Count(s + [x], p) == Count(s, p) + (if p(x) then 1 else 0)
  {
    FilterAppend(s, p, x);
  }

  /** With a unique key, removing the rows with one key value removes exactly the
      row that has it, and leaves the order of the others. */
  lemma {:induction false} RemoveUnique<T(!new), K>(s: seq<T>, key: T -> K, i: int)
    requires UniqueKeys(s, key) && 0 <= i < |s|
    ensures RemoveKey(s, key, key(s[i])) == s[..i] + s[i + 1..]
  {
    var p := (x: T) => key(x) != key(s[i]);
    assert RemoveKey(s, key, key(s[i])) == Filter(s, p);
    if i == 0 {
      assert s == [s[0]] + s[1..];
      forall j | 0 <= j < |s[1..]| ensures p(s[1..][j]) {
        assert s[1..][j] == s[j + 1];
      }
      FilterAll(s[1..], p);
    } else {
      assert UniqueKeys(s[1..], key) by {
        forall a, b | 0 <= a < b < |s[1..]| ensures key(s[1..][a]) != key(s[1..][b]) {
          assert s[1..][a] == s[a + 1] && s[1..][b] == s[b + 1];
        }
      }
      assert s[1..][i - 1] == s[i];
      RemoveUnique(s[1..], key, i - 1);
      assert RemoveKey(s[1..], key, key(s[1..][i - 1])) == Filter(s[1..], p);
      assert Filter(s[1..], p) == s[1..][..i - 1] + s[1..][i..];
      assert p(s[0]);
      assert s[..i] == [s[0]] + s[1..][..i - 1];
      assert s[i + 1..] == s[1..][i..];
    }
  }

  /** Filtering with a condition every row meets keeps the table as it is. */
  lemma {:induction false} FilterAll<T(!new)>(s: seq<T>, p: T -> bool)
    requires forall j :: 0 <= j < |s| ==> p(s[j])
    ensures Filter(s, p) == s
  {
    if |s| > 0 {
      assert s == [s[0]] + s[1..];
      FilterAll(s[1..], p);
    }
  }

  /** A unique column stays unique when a row with a new key value is appended. */
  lemma UniqueKeysAppend<T, K>(s: seq<T>, key: T -> K, x: T)
    requires UniqueKeys(s, key) && !HasKey(s, key, key(x))
    ensures UniqueKeys(s + [x], key)
  {
    forall i, j | 0 <= i < j < |s + [x]| ensures key((s + [x])[i]) != key((s + [x])[j]) {
      if j == |s| {
        assert (s + [x])[i] == s[i];
      } else {
        assert (s + [x])[i] == s[i] && (s + [x])[j] == s[j];
      }
    }
  }

  /** A unique column stays unique when rows are removed. */
  lemma {:induction false} UniqueKeysFilter<T(!new), K>(s: seq<T>, key: T -> K, p: T -> bool)
    requires UniqueKeys(s, key)
    ensures UniqueKeys(Filter(s, p), key)
  {
    if |s| > 0 {
      assert UniqueKeys(s[1..], key) by {
        forall a, b | 0 <= a < b < |s[1..]| ensures key(s[1..][a]) != key(s[1..][b]) {
          assert s[1..][a] == s[a + 1] && s[1..][b] == s[b + 1];
        }
      }
      UniqueKeysFilter(s[1..], key, p);
      var rest := Filter(s[1..], p);
      if p(s[0]) {
        forall j | 0 <= j < |rest| ensures key(s[0]) != key(rest[j]) {
          assert rest[j] in s[1..];
          var k :| 0 <= k < |s[1..]| && s[1..][k] == rest[j];
          assert s[k + 1] == rest[j];
        }
        var r := [s[0]] + rest;
        forall a, b | 0 <= a < b < |r| ensures key(r[a]) != key(r[b]) {
          if a == 0 {
            assert r[b] == rest[b - 1];
          } else {
            assert r[a] == rest[a - 1] && r[b] == rest[b - 1];
          }
        }
      }
    }
  }

  /** A key value is present after appending a row iff it was before or the row has it. */
  lemma HasKeyAppend<T, K>(s: seq<T>, key: T -> K, x: T, k: K)
    ensures HasKey(s + [x], key, k) <==> HasKey(s, key, k) || key(x) == k
  {
    if HasKey(s, key, k) {
      var i :| 0 <= i < |s| && key(s[i]) == k;
      assert (s + [x])[i] == s[i];
    }
    if key(x) == k {
      assert (s + [x])[|s|] == x;
    }
    if HasKey(s + [x], key, k) {
      var i :| 0 <= i < |s + [x]| && key((s + [x])[i]) == k;
      if i < |s| { assert (s + [x])[i] == s[i]; }
    }
  }

  /** A row that is in the table has its key present. */
  lemma HasKeyOf<T, K>(s: seq<T>, key: T -> K, x: T)
    requires x in s
    ensures HasKey(s, key, key(x))
  {
    var i :| 0 <= i < |s| && s[i] == x;
  }

  /** A key value that is absent is the key of no row. */
  lemma NotHasKey<T, K>(s: seq<T>, key: T -> K, k: K)
    requires !HasKey(s, key, k)
    ensures forall x :: x in s ==> key(x) != k
  {
    forall x | x in s ensures key(x) != k {
      var i :| 0 <= i < |s| && s[i] == x;
    }
  }

  /** Looking up in a table with a row appended finds what it found before, or
      else the new row if it matches. */
  lemma {:induction false} FindAppend<T>(s: seq<T>, p: T -> bool, x: T)
    ensures Find(s + [x], p) ==
            if Find(s, p).Some? then Find(s, p) else if p(x) then Some(x) else None
  {
    if |s| == 0 {
      assert s + [x] == [x];
      assert [x][1..] == [];
    } else {
      assert (s + [x])[0] == s[0];
      assert (s + [x])[1..] == s[1..] + [x];
      FindAppend(s[1..], p, x);
    }
  }

  /** A unique column stays unique when the rows with one key value are deleted. */
  lemma UniqueKeysRemoveKey<T(!new), K, K2>(s: seq<T>, key: T -> K, k: K, other: T -> K2)
    requires UniqueKeys(s, other)
    ensures UniqueKeys(RemoveKey(s, key, k), other)
  {
    UniqueKeysFilter(s, other, (x: T) => key(x) != k);
  }

  /** Filtering with a condition no row meets leaves nothing. */
  lemma {:induction false} FilterNone<T(!new)>(s: seq<T>, p: T -> bool)
    requires forall x :: x in s ==> !p(x)
    ensures Filter(s, p) == []
  {
    if |s| > 0 {
      assert s[0] in s;
      FilterNone(s[1..], p);
    }
  }
}
