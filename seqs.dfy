/**
 * Keep-first de-duplication by a string key: what the scraper does with a list and
 * a set of seen URLs, and what pandas `drop_duplicates(subset=[c], keep='first')`
 * does to a frame. Also the concatenation of per-element contributions, which is
 * what repeated `list.extend` inside a loop builds.
 */
module Seqs {

  /** Some element of `s` has key `k`. */
  predicate HasKey<T>(s: seq<T>, key: T -> string, k: string) {
    exists i :: 0 <= i < |s| && key(s[i]) == k
  }

  /** Position `p` holds the first element of `s` with its key. */
  predicate IsFirstOfKey<T>(s: seq<T>, key: T -> string, p: nat)
    requires p < |s|
  {
    forall q :: 0 <= q < p ==> key(s[q]) != key(s[p])
  }

  /** No two elements of `s` share a key. */
  predicate KeysDistinct<T>(s: seq<T>, key: T -> string) {
    forall i, j :: 0 <= i < j < |s| ==> key(s[i]) != key(s[j])
  }

  /** Walk `s` in order, keeping an element only if no kept element has its key. */
  function DedupBy<T>(s: seq<T>, key: T -> string): (d: seq<T>)
    ensures |d| <= |s|
    ensures forall k :: HasKey(d, key, k) <==> HasKey(s, key, k)
    ensures KeysDistinct(d, key)
    decreases |s|
  {
    if s == [] then []
    else
      var prefix, last := s[..|s| - 1], s[|s| - 1];
      var d := DedupBy(prefix, key);
      assert forall k :: HasKey(s, key, k) <==> HasKey(prefix, key, k) || key(last) == k by {
        forall k | HasKey(s, key, k) ensures HasKey(prefix, key, k) || key(last) == k {
          var i :| 0 <= i < |s| && key(s[i]) == k;
          if i < |s| - 1 {
            assert key(prefix[i]) == k;
          }
        }
        forall k | HasKey(prefix, key, k) ensures HasKey(s, key, k) {
          var i :| 0 <= i < |prefix| && key(prefix[i]) == k;
          assert key(s[i]) == k;
        }
      }
      if HasKey(d, key, key(last)) then d
      else
        var d' := d + [last];
        assert key(d'[|d|]) == key(last);
        assert forall k :: HasKey(d', key, k) <==> HasKey(d, key, k) || key(last) == k by {
          forall k | HasKey(d', key, k) ensures HasKey(d, key, k) || key(last) == k {
            var i :| 0 <= i < |d'| && key(d'[i]) == k;
            if i < |d| {
              assert key(d[i]) == k;
            }
          }
          forall k | HasKey(d, key, k) ensures HasKey(d', key, k) {
            var i :| 0 <= i < |d| && key(d[i]) == k;
            assert key(d'[i]) == k;
          }
        }
        d'
  }

  /**
   * Reference definition: the elements of `s` that are the first of their key,
   * in their order in `s`.
   */
  function FirstOccurrences<T>(s: seq<T>, key: T -> string): seq<T>
    decreases |s|
  {
    if s == [] then []
    else
      var prefix := s[..|s| - 1];
      FirstOccurrences(prefix, key) + (if IsFirstOfKey(s, key, |s| - 1) then [s[|s| - 1]] else [])
  }

  /** Keep-first de-duplication keeps exactly the first occurrence of every key, in order. */
  lemma {:induction false} DedupIsFirstOccurrences<T>(s: seq<T>, key: T -> string)
    ensures DedupBy(s, key) == FirstOccurrences(s, key)
    decreases |s|
  {
    if s != [] {
      var prefix, last := s[..|s| - 1], s[|s| - 1];
      DedupIsFirstOccurrences(prefix, key);
      var d := DedupBy(prefix, key);
      assert HasKey(d, key, key(last)) <==> !IsFirstOfKey(s, key, |s| - 1) by {
        if !IsFirstOfKey(s, key, |s| - 1) {
          var q :| 0 <= q < |s| - 1 && key(s[q]) == key(last);
          assert key(prefix[q]) == key(last);
        }
        if HasKey(prefix, key, key(last)) {
          var q :| 0 <= q < |prefix| && key(prefix[q]) == key(last);
          assert key(s[q]) == key(last);
        }
      }
    }
  }

  /** Every element kept by the de-duplication is an element of the input. */
  lemma {:induction false} DedupFromInput<T>(s: seq<T>, key: T -> string, i: nat)
    requires i < |DedupBy(s, key)|
    ensures exists p :: 0 <= p < |s| && s[p] == DedupBy(s, key)[i] && IsFirstOfKey(s, key, p)
    decreases |s|
  {
    var prefix, last := s[..|s| - 1], s[|s| - 1];
    var d := DedupBy(prefix, key);
    if i < |d| {
      DedupFromInput(prefix, key, i);
      var p :| 0 <= p < |prefix| && prefix[p] == d[i] && IsFirstOfKey(prefix, key, p);
      assert s[p] == d[i];
      assert IsFirstOfKey(s, key, p) by {
        forall q | 0 <= q < p ensures key(s[q]) != key(s[p]) {
          assert s[q] == prefix[q];
        }
      }
    } else {
      assert DedupBy(s, key)[i] == last;
      assert IsFirstOfKey(s, key, |s| - 1) by {
        forall q | 0 <= q < |s| - 1 ensures key(s[q]) != key(last) {
          assert prefix[q] == s[q];
        }
      }
    }
  }

  /** The contributions `f(x)` of the elements of `xs`, concatenated in order. */
  function Flatten<T, U>(xs: seq<T>, f: T -> seq<U>): seq<U> {
    if xs == [] then [] else Flatten(xs[..|xs| - 1], f) + f(xs[|xs| - 1])
  }

  /** One more element appends its contribution. */
  lemma FlattenStep<T, U>(xs: seq<T>, i: nat, f: T -> seq<U>)
    requires i < |xs|
    ensures Flatten(xs[..i + 1], f) == Flatten(xs[..i], f) + f(xs[i])
  {
    assert xs[..i + 1][..i] == xs[..i];
  }

  /** Every element of a flattening comes from the contribution of some element. */
  lemma {:induction false} FlattenOrigin<T, U>(xs: seq<T>, f: T -> seq<U>, y: U)
    requires y in Flatten(xs, f)
    ensures exists i :: 0 <= i < |xs| && y in f(xs[i])
    decreases |xs|
  {
    var n := |xs| - 1;
    if y in Flatten(xs[..n], f) {
      FlattenOrigin(xs[..n], f, y);
      var i :| 0 <= i < n && y in f(xs[..n][i]);
      assert xs[..n][i] == xs[i];
    } else {
      assert y in f(xs[n]);
    }
  }

  /** Every element of every contribution is in the flattening. */
  lemma {:induction false} FlattenComplete<T, U>(xs: seq<T>, f: T -> seq<U>, i: nat, y: U)
    requires i < |xs| && y in f(xs[i])
    ensures y in Flatten(xs, f)
    decreases |xs|
  {
    var n := |xs| - 1;
    if i < n {
      assert xs[..n][i] == xs[i];
      FlattenComplete(xs[..n], f, i, y);
    }
  }

  /**
   * Contributions keep the order of their elements: whatever element `i`
   * contributes comes before whatever a later element `j` contributes.
   */
  lemma {:induction false} FlattenSplit<T, U>(xs: seq<T>, f: T -> seq<U>, i: nat)
    requires i < |xs|
    ensures Flatten(xs, f) == Flatten(xs[..i], f) + f(xs[i]) + Flatten(xs[i + 1..], f)
    decreases |xs|
  {
    var n := |xs| - 1;
    if i == n {
      assert xs[..n] == xs[..i];
      assert xs[i + 1..] == [];
    } else {
      FlattenSplit(xs[..n], f, i);
      assert xs[..n][..i] == xs[..i];
      assert xs[..n][i] == xs[i];
      var tail := xs[i + 1..];
      assert tail[..|tail| - 1] == xs[..n][i + 1..];
      assert tail[|tail| - 1] == xs[n];
    }
  }
}
