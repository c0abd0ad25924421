/**
 * The order in which the guardrail store lists its entries. The store is a
 * B-tree map keyed by strings, so it is iterated in ascending key order; Rust
 * compares strings byte-wise on their UTF-8 encoding, which agrees with
 * comparing their characters' code points one by one.
 */
module KeyOrder {

  /** Strict lexicographic order on strings by character code. */
  predicate Less(a: string, b: string)
    decreases |a|
  {
    if |a| == 0 then |b| > 0
    else if |b| == 0 then false
    else if a[0] != b[0] then a[0] < b[0]
    else Less(a[1..], b[1..])
  }

  lemma {:induction false} LessIrreflexive(a: string)
    ensures !Less(a, a)
    decreases |a|
  {
    if |a| > 0 {
      LessIrreflexive(a[1..]);
    }
  }

  lemma {:induction false} LessAsymmetric(a: string, b: string)
    requires Less(a, b)
    ensures !Less(b, a)
    decreases |a|
  {
    if |a| > 0 && |b| > 0 && a[0] == b[0] {
      LessAsymmetric(a[1..], b[1..]);
    }
  }

  lemma {:induction false} LessTransitive(a: string, b: string, c: string)
    requires Less(a, b) && Less(b, c)
    ensures Less(a, c)
    decreases |a|
  {
    if |a| > 0 && a[0] == b[0] && b[0] == c[0] {
      LessTransitive(a[1..], b[1..], c[1..]);
    }
  }

  lemma {:induction false} LessTotal(a: string, b: string)
    requires a != b
    ensures Less(a, b) || Less(b, a)
    decreases |a|
  {
    if |a| > 0 && |b| > 0 && a[0] == b[0] {
      assert a == [a[0]] + a[1..] && b == [b[0]] + b[1..];
      LessTotal(a[1..], b[1..]);
    }
  }

  /** `k` is the smallest element of `s`. */
  predicate IsLeast(k: string, s: set<string>)
  {
    k in s && forall k' | k' in s && k' != k :: Less(k, k')
  }

  lemma {:induction false} LeastExists(s: set<string>)
    requires s != {}
    ensures exists k :: IsLeast(k, s)
    decreases |s|
  {
    var x :| x in s;
    var rest := s - {x};
    if rest == {} {
      assert s == {x};
      assert IsLeast(x, s);
    } else {
      LeastExists(rest);
      var m :| IsLeast(m, rest);
      if Less(x, m) {
        forall k' | k' in s && k' != x ensures Less(x, k') {
          if k' != m { LessTransitive(x, m, k'); }
        }
        assert IsLeast(x, s);
      } else {
        LessTotal(x, m);
        assert IsLeast(m, s);
      }
    }
  }

  lemma LeastUnique(s: set<string>)
    ensures forall k1, k2 :: IsLeast(k1, s) && IsLeast(k2, s) ==> k1 == k2
  {
    forall k1, k2 | IsLeast(k1, s) && IsLeast(k2, s) ensures k1 == k2 {
      if k1 != k2 {
        LessAsymmetric(k1, k2);
      }
    }
  }

  /** The smallest key of a non-empty key set. */
  function Least(s: set<string>): (k: string)
    requires s != {}
    ensures IsLeast(k, s)
  {
    LeastExists(s);
    LeastUnique(s);
    var k :| IsLeast(k, s); k
  }

  /** Keys in strictly ascending order: the order of the B-tree's iterator. */
  predicate StrictlyAscending(ks: seq<string>)
  {
    forall i, j | 0 <= i < j < |ks| :: Less(ks[i], ks[j])
  }

  /** The keys of `s` in ascending order. */
  function SortedKeys(s: set<string>): (ks: seq<string>)
    decreases |s|
  {
    if s == {} then [] else
      var k := Least(s);
      [k] + SortedKeys(s - {k})
  }

  /** `SortedKeys` enumerates exactly the keys of `s`, each once, in ascending order. */
  lemma {:induction false} SortedKeysCorrect(s: set<string>)
    ensures |SortedKeys(s)| == |s|
    ensures forall k :: k in SortedKeys(s) <==> k in s
    ensures StrictlyAscending(SortedKeys(s))
    decreases |s|
  {
    if s != {} {
      var k := Least(s);
      var rest := SortedKeys(s - {k});
      SortedKeysCorrect(s - {k});
      var ks := [k] + rest;
      assert SortedKeys(s) == ks;
      forall i, j | 0 <= i < j < |ks| ensures Less(ks[i], ks[j]) {
        if i == 0 {
          assert ks[j] == rest[j - 1] && ks[j] in s - {k};
        } else {
          assert ks[i] == rest[i - 1] && ks[j] == rest[j - 1];
        }
      }
    }
  }

  /** Any ascending enumeration of exactly the keys of `s` is `SortedKeys(s)`: the listing order is fully determined. */
  lemma {:induction false} AscendingEnumerationUnique(ks: seq<string>, s: set<string>)
    requires StrictlyAscending(ks)
    requires forall k :: k in ks <==> k in s
    ensures ks == SortedKeys(s)
    decreases |ks|
  {
    if ks == [] {
      assert s == {};
    } else {
      assert ks[0] in s;
      forall k' | k' in s && k' != ks[0] ensures Less(ks[0], k') {
        var j :| 0 <= j < |ks| && ks[j] == k';
        assert j != 0;
      }
      assert IsLeast(ks[0], s);
      LeastUnique(s);
      assert Least(s) == ks[0];
      var tail := ks[1..];
      forall k ensures k in tail <==> k in s - {ks[0]} {
        if k in tail {
          var j :| 0 <= j < |tail| && tail[j] == k;
          assert Less(ks[0], ks[j + 1]);
          LessIrreflexive(k);
        }
        if k in s - {ks[0]} {
          var j :| 0 <= j < |ks| && ks[j] == k;
          assert tail[j - 1] == k;
        }
      }
      AscendingEnumerationUnique(tail, s - {ks[0]});
    }
  }
}
