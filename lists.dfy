/** Sequence helpers: the `filter` the game applies to drop marked entities, and
    duplicate-freedom. */
module Lists {

  /** Positions i and j of s hold different elements. */
  predicate Apart<T(==)>(s: seq<T>, i: int, j: int)
  {
    0 <= i < |s| && 0 <= j < |s| && s[i] != s[j]
  }

  /** No element occurs twice. The quantifier is instantiated only for the pairs of positions
      a proof names through Apart, which keeps long proofs about object lists small. */
  predicate NoDuplicates<T(==)>(s: seq<T>)
  {
    forall i, j {:trigger Apart(s, i, j)} :: 0 <= i < j < |s| ==> Apart(s, i, j)
  }

  /** Two different positions of a duplicate-free sequence hold different elements. */
  lemma Distinct<T>(s: seq<T>, i: int, j: int)
    requires NoDuplicates(s) && 0 <= i < |s| && 0 <= j < |s| && i != j
    ensures s[i] != s[j]
  {
    if i < j {
      assert Apart(s, i, j);
    } else {
      assert Apart(s, j, i);
    }
  }

  /** In a duplicate-free sequence an element does not occur before its own position. */
  lemma NotEarlier<T>(s: seq<T>, n: int)
    requires NoDuplicates(s) && 0 <= n < |s|
    ensures s[n] !in s[..n]
  {
    forall k | 0 <= k < n ensures s[..n][k] != s[n] {
      assert Apart(s, k, n);
    }
  }

  /** A prefix of a duplicate-free sequence is duplicate-free. */
  lemma PrefixNoDuplicates<T>(s: seq<T>, n: int)
    requires NoDuplicates(s) && 0 <= n <= |s|
    ensures NoDuplicates(s[..n])
  {
    forall i, j | 0 <= i < j < n ensures Apart(s[..n], i, j) {
      assert Apart(s, i, j);
    }
  }

  /** Appending an element not yet present keeps a sequence duplicate-free. */
  lemma AppendFresh<T>(s: seq<T>, x: T)
    requires NoDuplicates(s) && x !in s
    ensures NoDuplicates(s + [x])
  {
    var t := s + [x];
    forall i, j | 0 <= i < j < |t| ensures Apart(t, i, j) {
      if j < |s| {
        assert Apart(s, i, j);
      } else {
        assert t[i] == s[i];
      }
    }
  }

  /** JavaScript's `indexOf` on an array: the first position of k, or -1. */
  function IndexOf<T(==)>(s: seq<T>, k: T): (r: int)
    ensures -1 <= r < |s|
    ensures r == -1 <==> k !in s
    ensures 0 <= r ==> s[r] == k && k !in s[..r]
  {
    if |s| == 0 then -1
    else if s[0] == k then 0
    else
      var r := IndexOf(s[1..], k);
      if r == -1 then -1
      else
        assert s[..r + 1] == [s[0]] + s[1..][..r];
        r + 1
  }

  /** Removing position n, as `splice(n, 1)` does, leaves only elements of s, and leaves a
      duplicate-free sequence duplicate-free. */
  lemma RemoveAt<T>(s: seq<T>, n: int)
    requires 0 <= n < |s|
    ensures var r := s[..n] + s[n + 1..]; |r| == |s| - 1 && s == r[..n] + [s[n]] + r[n..]
    ensures forall x :: x in s[..n] + s[n + 1..] ==> x in s
    ensures NoDuplicates(s) ==> NoDuplicates(s[..n] + s[n + 1..])
  {
    var r := s[..n] + s[n + 1..];
    assert r[..n] == s[..n] && r[n..] == s[n + 1..];
    assert s == s[..n] + [s[n]] + s[n + 1..];
    forall x | x in r ensures x in s {
      var i :| 0 <= i < |r| && r[i] == x;
      assert x == s[if i < n then i else i + 1];
    }
    if NoDuplicates(s) {
      forall i, j | 0 <= i < j < |r| ensures Apart(r, i, j) {
        var i', j' := if i < n then i else i + 1, if j < n then j else j + 1;
        assert r[i] == s[i'] && r[j] == s[j'];
        assert Apart(s, i', j');
      }
    }
  }

  /** The elements of s that `gone` does not select, in their original order:
      the value of `s.filter(x => !gone(x))`. */
  function Keep<T>(s: seq<T>, gone: T -> bool): (r: seq<T>)
    ensures |r| <= |s|
  {
    if |s| == 0 then []
    else Keep(s[..|s| - 1], gone) + (if gone(s[|s| - 1]) then [] else [s[|s| - 1]])
  }

  /** Everything that survives was in s and is not selected. */
  lemma {:induction false} KeepSound<T>(s: seq<T>, gone: T -> bool, x: T)
    requires x in Keep(s, gone)
    ensures x in s && !gone(x)
  {
    var n := |s| - 1;
    if x != s[n] || gone(s[n]) {
      KeepSound(s[..n], gone, x);
    }
  }

  /** Filtering a concatenation filters each part and keeps the parts in order. */
  lemma {:induction false} KeepAppend<T>(a: seq<T>, b: seq<T>, gone: T -> bool)
    ensures Keep(a + b, gone) == Keep(a, gone) + Keep(b, gone)
  {
    if |b| == 0 {
      assert a + b == a;
    } else {
      var b' := b[..|b| - 1];
      assert (a + b)[..|a + b| - 1] == a + b';
      KeepAppend(a, b', gone);
    }
  }

  /** No element that survives is lost. */
  lemma {:induction false} KeepComplete<T>(s: seq<T>, gone: T -> bool, x: T)
    requires x in s && !gone(x)
    ensures x in Keep(s, gone)
  {
    var n := |s| - 1;
    if s[n] != x {
      assert x in s[..n] by {
        var i :| 0 <= i < |s| && s[i] == x;
        assert i < n && s[..n][i] == x;
      }
      KeepComplete(s[..n], gone, x);
    }
  }

  /** Nothing is removed when nothing is selected. */
  lemma {:induction false} KeepNone<T>(s: seq<T>, gone: T -> bool)
    requires forall i :: 0 <= i < |s| ==> !gone(s[i])
    ensures Keep(s, gone) == s
  {
    if |s| > 0 {
      KeepNone(s[..|s| - 1], gone);
      assert s[..|s| - 1] + [s[|s| - 1]] == s;
    }
  }

  /** Filtering out the one selected position is splicing it out. */
  lemma {:induction false} KeepOne<T>(s: seq<T>, n: int, gone: T -> bool)
    requires 0 <= n < |s| && gone(s[n])
    requires forall i :: 0 <= i < |s| && i != n ==> !gone(s[i])
    ensures Keep(s, gone) == s[..n] + s[n + 1..]
  {
    var m := |s| - 1;
    var front := s[..m];
    if n == m {
      forall i | 0 <= i < |front| ensures !gone(front[i]) {
        assert front[i] == s[i];
      }
      KeepNone(front, gone);
    } else {
      forall i | 0 <= i < |front| && i != n ensures !gone(front[i]) {
        assert front[i] == s[i];
      }
      KeepOne(front, n, gone);
      assert front[..n] + front[n + 1..] + [s[m]] == s[..n] + s[n + 1..];
    }
  }
}
