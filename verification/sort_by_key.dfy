/**
 * Sorting a list of names by a string key, as `Array.prototype.sort` does
 * with the comparator `(a, b) => key(a).localeCompare(key(b))`. The results
 * here hold for any key that tells the listed names apart.
 */
module SortByKey {
  import opened LexOrder

  predicate NoDuplicates(s: seq<string>) {
    forall i, j :: 0 <= i < j < |s| ==> s[i] != s[j]
  }

  /** Names in `s` with the same key are the same name. */
  predicate KeyInjective(s: seq<string>, key: string -> string) {
    forall x, y :: x in s && y in s && key(x) == key(y) ==> x == y
  }

  /** No later name has a key that sorts before an earlier one. */
  predicate Ordered(s: seq<string>, key: string -> string) {
    forall i, j :: 0 <= i < j < |s| ==> !LexLess(key(s[j]), key(s[i]))
  }

  /** Keys strictly ascending along the list. */
  predicate StrictlyOrdered(s: seq<string>, key: string -> string) {
    forall i, j :: 0 <= i < j < |s| ==> LexLess(key(s[i]), key(s[j]))
  }

  /** Insert `n` before the first element whose key does not sort before `n`'s. */
  function Insert(n: string, s: seq<string>, key: string -> string): (r: seq<string>)
    ensures multiset(r) == multiset(s) + multiset{n}
  {
    if s == [] || !LexLess(key(s[0]), key(n)) then [n] + s
    else
      assert s == [s[0]] + s[1..];
      [s[0]] + Insert(n, s[1..], key)
  }

  /** Every key in `s` and `n`'s key are at or above `b`, so every key after inserting `n` is. */
  lemma InsertKeepsLowerBound(n: string, s: seq<string>, key: string -> string, b: string)
    requires forall x <- s :: !LexLess(key(x), b)
    requires !LexLess(key(n), b)
    ensures forall x <- Insert(n, s, key) :: !LexLess(key(x), b)
  {
    var r := Insert(n, s, key);
    forall x | x in r ensures !LexLess(key(x), b) {
      assert x in multiset(r);
      if x != n {
        assert x in multiset(s);
      }
    }
  }

  /** An ordered list stays ordered with a head whose key is at or below every key in it. */
  lemma OrderedCons(h: string, rest: seq<string>, key: string -> string)
    requires Ordered(rest, key)
    requires forall x <- rest :: !LexLess(key(x), key(h))
    ensures Ordered([h] + rest, key)
  {
    var r := [h] + rest;
    forall i, j | 0 <= i < j < |r|
      ensures !LexLess(key(r[j]), key(r[i]))
    {
      assert r[j] == rest[j - 1];
      if i > 0 {
        assert r[i] == rest[i - 1];
      }
    }
  }

  lemma {:induction false} InsertOrdered(n: string, s: seq<string>, key: string -> string)
    requires Ordered(s, key)
    ensures Ordered(Insert(n, s, key), key)
  {
    if s == [] {
    } else if !LexLess(key(s[0]), key(n)) {
      forall j | 0 <= j < |s|
        ensures !LexLess(key(s[j]), key(n))
      {
        if j > 0 {
          NotLessTransitive(key(n), key(s[0]), key(s[j]));
        }
      }
      OrderedCons(n, s, key);
    } else {
      var tail := s[1..];
      assert Ordered(tail, key) by {
        forall i, j | 0 <= i < j < |tail| ensures !LexLess(key(tail[j]), key(tail[i])) {
          assert tail[i] == s[i + 1] && tail[j] == s[j + 1];
        }
      }
      InsertOrdered(n, tail, key);
      forall x | x in tail ensures !LexLess(key(x), key(s[0])) {
        var k :| 0 <= k < |tail| && tail[k] == x;
        assert s[k + 1] == x;
      }
      LexLessAsymmetric(key(s[0]), key(n));
      InsertKeepsLowerBound(n, tail, key, key(s[0]));
      OrderedCons(s[0], Insert(n, tail, key), key);
    }
  }

  /** A permutation of `s` ordered by key, computed by insertion. */
  function SortBy(s: seq<string>, key: string -> string): (r: seq<string>)
    ensures multiset(r) == multiset(s)
    ensures Ordered(r, key)
  {
    if s == [] then []
    else
      var rest := SortBy(s[1..], key);
      InsertOrdered(s[0], rest, key);
      assert s == [s[0]] + s[1..];
      Insert(s[0], rest, key)
  }

  lemma {:induction false} NoDuplicatesCount(s: seq<string>, x: string)
    requires NoDuplicates(s)
    ensures multiset(s)[x] == if x in s then 1 else 0
  {
    if s != [] {
      assert s == [s[0]] + s[1..];
      assert NoDuplicates(s[1..]) by {
        forall i, j | 0 <= i < j < |s[1..]| ensures s[1..][i] != s[1..][j] {
          assert s[1..][i] == s[i + 1] && s[1..][j] == s[j + 1];
        }
      }
      NoDuplicatesCount(s[1..], x);
      if x == s[0] {
        forall k | 0 <= k < |s[1..]| ensures s[1..][k] != x {
          assert s[1..][k] == s[k + 1];
        }
      }
    }
  }

  lemma DuplicateCount(s: seq<string>, i: nat, j: nat)
    requires i < j < |s| && s[i] == s[j]
    ensures multiset(s)[s[i]] >= 2
  {
    assert s == s[..j] + s[j..];
    assert s[i] in s[..j];
    assert s[j] in s[j..];
  }

  /** A rearrangement of a duplicate-free list is duplicate-free. */
  lemma SameMultisetNoDuplicates(s: seq<string>, t: seq<string>)
    requires NoDuplicates(s) && multiset(s) == multiset(t)
    ensures NoDuplicates(t)
  {
    forall i, j | 0 <= i < j < |t| ensures t[i] != t[j] {
      if t[i] == t[j] {
        DuplicateCount(t, i, j);
        NoDuplicatesCount(s, t[i]);
      }
    }
  }

  /** Two duplicate-free lists with the same members are rearrangements of each other. */
  lemma SameElementsSameMultiset(s: seq<string>, t: seq<string>)
    requires NoDuplicates(s) && NoDuplicates(t)
    requires forall x :: x in s <==> x in t
    ensures multiset(s) == multiset(t)
  {
    forall x ensures multiset(s)[x] == multiset(t)[x] {
      NoDuplicatesCount(s, x);
      NoDuplicatesCount(t, x);
    }
  }

  lemma TailMultiset(a: seq<string>, b: seq<string>)
    requires |a| > 0 && |b| > 0 && a[0] == b[0] && multiset(a) == multiset(b)
    ensures multiset(a[1..]) == multiset(b[1..])
  {
    assert a == [a[0]] + a[1..] && b == [b[0]] + b[1..];
    assert multiset(a) == multiset{a[0]} + multiset(a[1..]);
    assert multiset(b) == multiset{b[0]} + multiset(b[1..]);
    forall x ensures multiset(a[1..])[x] == multiset(b[1..])[x] {
      assert multiset(a)[x] == multiset{a[0]}[x] + multiset(a[1..])[x];
      assert multiset(b)[x] == multiset{b[0]}[x] + multiset(b[1..])[x];
    }
  }

  lemma OrderedTail(a: seq<string>, key: string -> string)
    requires |a| > 0 && Ordered(a, key)
    ensures Ordered(a[1..], key)
  {
    forall i, j | 0 <= i < j < |a[1..]| ensures !LexLess(key(a[1..][j]), key(a[1..][i])) {
      assert a[1..][i] == a[i + 1] && a[1..][j] == a[j + 1];
    }
  }

  lemma KeyInjectiveTail(a: seq<string>, key: string -> string)
    requires |a| > 0 && KeyInjective(a, key)
    ensures KeyInjective(a[1..], key)
  {
    forall x | x in a[1..] ensures x in a {
      var t :| 0 <= t < |a[1..]| && a[1..][t] == x;
      assert a[t + 1] == x;
    }
  }

  /** Two ordered arrangements of the same names start with the same name. */
  lemma OrderedSameFirst(a: seq<string>, b: seq<string>, key: string -> string)
    requires |a| > 0 && Ordered(a, key) && Ordered(b, key) && KeyInjective(a, key)
    requires multiset(a) == multiset(b)
    ensures |b| > 0 && a[0] == b[0]
  {
    assert a[0] in multiset(b);
    var k :| 0 <= k < |b| && b[k] == a[0];
    LexLessIrreflexive(key(a[0]));
    assert !LexLess(key(a[0]), key(b[0])) by {
      if k > 0 { assert !LexLess(key(b[k]), key(b[0])); }
    }
    assert b[0] in multiset(a);
    var m :| 0 <= m < |a| && a[m] == b[0];
    assert !LexLess(key(b[0]), key(a[0])) by {
      if m > 0 { assert !LexLess(key(a[m]), key(a[0])); }
    }
    LexLessTrichotomy(key(a[0]), key(b[0]));
  }

  /**
   * When the key tells the names apart, a list has exactly one ordered
   * arrangement: every sort by that key returns the same list, whatever the
   * input order.
   */
  lemma {:induction false} OrderedUnique(a: seq<string>, b: seq<string>, key: string -> string)
    requires Ordered(a, key) && Ordered(b, key) && KeyInjective(a, key)
    requires multiset(a) == multiset(b)
    ensures a == b
    decreases |a|
  {
    assert |a| == |multiset(a)| == |multiset(b)| == |b|;
    if |a| > 0 {
      OrderedSameFirst(a, b, key);
      TailMultiset(a, b);
      OrderedTail(a, key);
      OrderedTail(b, key);
      KeyInjectiveTail(a, key);
      OrderedUnique(a[1..], b[1..], key);
      assert a == [a[0]] + a[1..] && b == [b[0]] + b[1..];
    }
  }

  /** Sorting a duplicate-free list by an injective key puts the keys in strictly ascending order. */
  lemma SortByStrict(s: seq<string>, key: string -> string)
    requires NoDuplicates(s) && KeyInjective(s, key)
    ensures StrictlyOrdered(SortBy(s, key), key)
  {
    var r := SortBy(s, key);
    SameMultisetNoDuplicates(s, r);
    forall i, j | 0 <= i < j < |r| ensures LexLess(key(r[i]), key(r[j])) {
      LexLessTrichotomy(key(r[i]), key(r[j]));
      assert r[i] in multiset(s) && r[j] in multiset(s);
    }
  }

  lemma StrictlyOrderedNoDuplicates(s: seq<string>, key: string -> string)
    requires StrictlyOrdered(s, key)
    ensures Ordered(s, key) && NoDuplicates(s)
  {
    forall i, j | 0 <= i < j < |s| ensures s[i] != s[j] && !LexLess(key(s[j]), key(s[i])) {
      LexLessIrreflexive(key(s[i]));
      LexLessAsymmetric(key(s[i]), key(s[j]));
    }
  }

  /** `order` filtered down to the names in `chosen`. */
  function Restrict(order: seq<string>, chosen: seq<string>): seq<string> {
    if order == [] then []
    else (if order[0] in chosen then [order[0]] else []) + Restrict(order[1..], chosen)
  }

  /** The restriction keeps exactly the names of `order` that are also in `chosen`. */
  lemma {:induction false} RestrictMembers(order: seq<string>, chosen: seq<string>)
    ensures forall x :: x in Restrict(order, chosen) <==> x in order && x in chosen
  {
    if order != [] {
      RestrictMembers(order[1..], chosen);
      assert order == [order[0]] + order[1..];
    }
  }

  lemma {:induction false} RestrictStrictlyOrdered(order: seq<string>, chosen: seq<string>, key: string -> string)
    requires StrictlyOrdered(order, key)
    ensures StrictlyOrdered(Restrict(order, chosen), key)
  {
    if order != [] {
      var tail := Restrict(order[1..], chosen);
      RestrictMembers(order[1..], chosen);
      assert StrictlyOrdered(order[1..], key) by {
        forall i, j | 0 <= i < j < |order[1..]| ensures LexLess(key(order[1..][i]), key(order[1..][j])) {
          assert order[1..][i] == order[i + 1] && order[1..][j] == order[j + 1];
        }
      }
      RestrictStrictlyOrdered(order[1..], chosen, key);
      var r := (if order[0] in chosen then [order[0]] else []) + tail;
      forall x | x in tail ensures LexLess(key(order[0]), key(x)) {
        var k :| 0 <= k < |order[1..]| && order[1..][k] == x;
        assert order[k + 1] == x;
      }
      forall i, j | 0 <= i < j < |r| ensures LexLess(key(r[i]), key(r[j])) {
        if order[0] in chosen && i == 0 {
          assert r[j] in tail;
        } else if order[0] in chosen {
          assert r[i] == tail[i - 1] && r[j] == tail[j - 1];
        }
      }
    }
  }

  /** Each key sorts before the next one. */
  predicate Chained(s: seq<string>, key: string -> string)
    decreases |s|
  {
    |s| < 2 || (LexLess(key(s[0]), key(s[1])) && Chained(s[1..], key))
  }

  lemma {:induction false} ChainedStrictlyOrdered(s: seq<string>, key: string -> string)
    requires Chained(s, key)
    ensures StrictlyOrdered(s, key)
    decreases |s|
  {
    if |s| >= 2 {
      ChainedStrictlyOrdered(s[1..], key);
      forall i, j | 0 <= i < j < |s| ensures LexLess(key(s[i]), key(s[j])) {
        if i > 0 {
          assert s[i] == s[1..][i - 1] && s[j] == s[1..][j - 1];
        } else if j > 1 {
          assert s[1] == s[1..][0] && s[j] == s[1..][j - 1];
          LexLessTransitive(key(s[0]), key(s[1]), key(s[j]));
        }
      }
    }
  }
}
