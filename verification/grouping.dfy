/** Collections that keep one element per key, at the position of the key's first element, where a later
    element of the key may replace the one that is kept.  The session repository and the list of account
    representatives are both of this kind. */
module Grouping {
  import opened Basics

  /** The position of the first element of the key, or the length. */
  function Position<T, K(==)>(s: seq<T>, key: T -> K, k: K): (i: nat)
    ensures i <= |s|
    ensures i < |s| ==> key(s[i]) == k
    ensures forall j :: 0 <= j < i ==> key(s[j]) != k
  {
    if s == [] then 0 else if key(s[0]) == k then 0 else 1 + Position(s[1..], key, k)
  }

  /** Put x in its key's place, or at the end; `wins` decides whether it replaces what is there. */
  function Merge<T, K(==)>(s: seq<T>, key: T -> K, wins: (T, T) -> bool, x: T): seq<T> {
    var i := Position(s, key, key(x));
    if i == |s| then s + [x] else if wins(x, s[i]) then s[i := x] else s
  }

  function MergeAll<T, K(==)>(s: seq<T>, key: T -> K, wins: (T, T) -> bool): seq<T> {
    if s == [] then [] else Merge(MergeAll(s[..|s| - 1], key, wins), key, wins, s[|s| - 1])
  }

  // ---------------------------------------------------------------- What it keeps

  /** The keys in the order of their first elements. */
  function FirstKeys<T, K(==)>(s: seq<T>, key: T -> K): seq<K> {
    if s == [] then []
    else
      var before := FirstKeys(s[..|s| - 1], key);
      if key(s[|s| - 1]) in before then before else before + [key(s[|s| - 1])]
  }

  /** The element of the key that is left when all have been tried in order. */
  function Winner<T, K(==)>(s: seq<T>, key: T -> K, wins: (T, T) -> bool, k: K): Option<T> {
    if s == [] then None
    else
      var before, x := Winner(s[..|s| - 1], key, wins, k), s[|s| - 1];
      if key(x) == k && (before.None? || wins(x, before.value)) then Some(x) else before
  }

  lemma {:induction false} WinnerExists<T, K>(s: seq<T>, key: T -> K, wins: (T, T) -> bool, k: K)
    ensures Winner(s, key, wins, k).Some? <==> exists i :: 0 <= i < |s| && key(s[i]) == k
    ensures Winner(s, key, wins, k).Some? ==> key(Winner(s, key, wins, k).value) == k
    ensures Winner(s, key, wins, k).Some? ==> Winner(s, key, wins, k).value in s
  {
    if s != [] {
      var before := s[..|s| - 1];
      WinnerExists(before, key, wins, k);
      if Winner(before, key, wins, k).Some? {
        var i :| 0 <= i < |before| && key(before[i]) == k;
        assert key(s[i]) == k;
      } else if key(s[|s| - 1]) != k {
        forall i | 0 <= i < |s| ensures key(s[i]) != k {
          assert i < |before| ==> before[i] == s[i];
        }
      }
    }
  }

  /** The first keys are the keys that occur, each once. */
  lemma {:induction false} FirstKeysOccur<T, K>(s: seq<T>, key: T -> K)
    ensures forall k :: k in FirstKeys(s, key) <==> exists i :: 0 <= i < |s| && key(s[i]) == k
    ensures forall i, j :: 0 <= i < j < |FirstKeys(s, key)| ==> FirstKeys(s, key)[i] != FirstKeys(s, key)[j]
  {
    if s != [] {
      var before := s[..|s| - 1];
      FirstKeysOccur(before, key);
      forall k ensures k in FirstKeys(s, key) <==> exists i :: 0 <= i < |s| && key(s[i]) == k {
        if k in FirstKeys(before, key) {
          var i :| 0 <= i < |before| && key(before[i]) == k;
          assert key(s[i]) == k;
        } else if exists i :: 0 <= i < |s| && key(s[i]) == k {
          var i :| 0 <= i < |s| && key(s[i]) == k;
          assert i < |before| ==> before[i] == s[i];
        }
      }
    }
  }

  lemma {:induction false} PositionIs<T, K>(s: seq<T>, key: T -> K, k: K, i: nat)
    requires i < |s| && key(s[i]) == k && forall j :: 0 <= j < i ==> key(s[j]) != k
    ensures Position(s, key, k) == i
  {
    if i > 0 {
      PositionIs(s[1..], key, k, i - 1);
    }
  }

  lemma PositionInPrefix<T, K>(s: seq<T>, key: T -> K, k: K, n: nat)
    requires n <= |s| && Position(s[..n], key, k) < n
    ensures Position(s, key, k) == Position(s[..n], key, k)
  {
    hide Position;
    PositionIs(s, key, k, Position(s[..n], key, k));
  }

  lemma {:induction false} KeyIsListed<T, K>(s: seq<T>, key: T -> K, i: nat)
    requires i < |s|
    ensures key(s[i]) in FirstKeys(s, key)
  {
    if i < |s| - 1 {
      KeyIsListed(s[..|s| - 1], key, i);
    }
  }

  /** The first keys are in the order in which they first occur. */
  lemma {:induction false} FirstKeysInOrder<T, K>(s: seq<T>, key: T -> K)
    ensures forall i :: 0 <= i < |FirstKeys(s, key)| ==> Position(s, key, FirstKeys(s, key)[i]) < |s|
    ensures forall i, j :: 0 <= i < j < |FirstKeys(s, key)| ==>
              Position(s, key, FirstKeys(s, key)[i]) < Position(s, key, FirstKeys(s, key)[j])
  {
    hide Position;
    if s != [] {
      var n := |s| - 1;
      var before, k := s[..n], key(s[n]);
      var keys := FirstKeys(before, key);
      FirstKeysInOrder(before, key);
      FirstKeysOccur(before, key);
      forall i | 0 <= i < |keys|
        ensures Position(s, key, keys[i]) == Position(before, key, keys[i]) < n
      {
        PositionInPrefix(s, key, keys[i], n);
      }
      if k !in keys {
        forall j | 0 <= j < n ensures key(s[j]) != k {
          KeyIsListed(before, key, j);
          assert before[j] == s[j];
        }
        PositionIs(s, key, k, n);
      }
    }
  }

  /** Exactly one element per key that occurs, in the order of first occurrence, and each is its key's winner. */
  ghost predicate Represents<T, K>(r: seq<T>, s: seq<T>, key: T -> K, wins: (T, T) -> bool) {
    && |r| == |FirstKeys(s, key)|
    && forall i :: 0 <= i < |r| ==>
         key(r[i]) == FirstKeys(s, key)[i] && Winner(s, key, wins, FirstKeys(s, key)[i]) == Some(r[i])
  }

  lemma {:induction false} MergeAllRepresents<T, K>(s: seq<T>, key: T -> K, wins: (T, T) -> bool)
    ensures Represents(MergeAll(s, key, wins), s, key, wins)
  {
    if s != [] {
      MergeAllRepresents(s[..|s| - 1], key, wins);
      MergeRepresents(MergeAll(s[..|s| - 1], key, wins), s, key, wins);
    }
  }

  lemma MergeRepresents<T, K>(r: seq<T>, s: seq<T>, key: T -> K, wins: (T, T) -> bool)
    requires s != [] && Represents(r, s[..|s| - 1], key, wins)
    ensures Represents(Merge(r, key, wins, s[|s| - 1]), s, key, wins)
  {
    var before, x := s[..|s| - 1], s[|s| - 1];
    var keys := FirstKeys(before, key);
    FirstKeysOccur(before, key);
    WinnerExists(before, key, wins, key(x));
    var i := Position(r, key, key(x));
    if i == |r| {
      assert key(x) !in keys;
    } else {
      assert key(x) == keys[i];
    }
  }

  /** What represents a collection is determined by it. */
  lemma RepresentationIsUnique<T, K>(r: seq<T>, r': seq<T>, s: seq<T>, key: T -> K, wins: (T, T) -> bool)
    requires Represents(r, s, key, wins) && Represents(r', s, key, wins)
    ensures r == r'
  {
    forall i | 0 <= i < |r| ensures r[i] == r'[i] {
      assert Winner(s, key, wins, FirstKeys(s, key)[i]) == Some(r[i]);
    }
  }

  // ---------------------------------------------------------------- Collections with one element per key

  ghost predicate DistinctKeys<T, K>(s: seq<T>, key: T -> K) {
    forall i, j :: 0 <= i < j < |s| ==> key(s[i]) != key(s[j])
  }

  lemma MergeKeepsDistinct<T, K>(s: seq<T>, key: T -> K, wins: (T, T) -> bool, x: T)
    requires DistinctKeys(s, key)
    ensures DistinctKeys(Merge(s, key, wins, x), key)
  {}

  lemma {:induction false} MergeAllIsDistinct<T, K>(s: seq<T>, key: T -> K, wins: (T, T) -> bool)
    ensures DistinctKeys(MergeAll(s, key, wins), key)
    ensures forall x :: x in MergeAll(s, key, wins) ==> x in s
  {
    if s != [] {
      MergeAllIsDistinct(s[..|s| - 1], key, wins);
      MergeKeepsDistinct(MergeAll(s[..|s| - 1], key, wins), key, wins, s[|s| - 1]);
    }
  }

  lemma {:induction false} DistinctIsMerged<T, K>(s: seq<T>, key: T -> K, wins: (T, T) -> bool)
    requires DistinctKeys(s, key)
    ensures MergeAll(s, key, wins) == s
  {
    if s != [] {
      hide Position;
      var n := |s| - 1;
      DistinctIsMerged(s[..n], key, wins);
      forall j | 0 <= j < n ensures key(s[..n][j]) != key(s[n]) {
        assert s[..n][j] == s[j];
      }
      assert s == s[..n] + [s[n]];
    }
  }
}
