/** Index lists over a fixed slab: the null index, list ends, distinctness,
    "this list enumerates exactly the slots in one place", and counting. */
module Lists {

  /** The null link of the slab lists (a NULL pointer in the C structures). */
  const Null: int := -1

  /** First element of a list, or Null when it is empty. */
  function Head(s: seq<nat>): (r: int)
    ensures s == [] <==> r == Null
    ensures s != [] ==> r == s[0]
  {
    if s == [] then Null else s[0]
  }

  /** Last element of a list, or Null when it is empty. */
  function Back(s: seq<nat>): (r: int)
    ensures s == [] <==> r == Null
    ensures s != [] ==> r == s[|s| - 1]
  {
    if s == [] then Null else s[|s| - 1]
  }

  /** No slot is listed twice: the head is not in the rest, which is itself distinct. */
  ghost predicate Distinct(s: seq<nat>) {
    s == [] || (s[0] !in s[1..] && Distinct(s[1..]))
  }

  /** The same property, position by position. */
  ghost predicate PairwiseDistinct(s: seq<nat>) {
    forall j, k :: 0 <= j < k < |s| ==> s[j] != s[k]
  }

  lemma {:induction false} DistinctPairwise(s: seq<nat>)
    ensures Distinct(s) <==> PairwiseDistinct(s)
  {
    if s != [] {
      var t := s[1..];
      DistinctPairwise(t);
      if PairwiseDistinct(s) {
        forall j, k | 0 <= j < k < |t| ensures t[j] != t[k] {
          assert t[j] == s[j + 1] && t[k] == s[k + 1];
        }
        forall k | 0 <= k < |t| ensures t[k] != s[0] {
          assert t[k] == s[k + 1];
        }
      }
      if Distinct(s) {
        forall j, k | 0 <= j < k < |s| ensures s[j] != s[k] {
          assert s[k] == t[k - 1];
          if j > 0 { assert s[j] == t[j - 1]; }
        }
      }
    }
  }

  /** `s` lists, each once, exactly the slots `i` with `at[i] == p`. */
  ghost predicate Enumerates<P>(s: seq<nat>, at: seq<P>, p: P) {
    Distinct(s)
    && (forall k :: 0 <= k < |s| ==> s[k] < |at| && at[s[k]] == p)
    && (forall i :: 0 <= i < |at| && at[i] == p ==> i in s)
  }

  /** Number of slots of `at` that are in place `p`. */
  function Occ<P(==)>(at: seq<P>, p: P): nat
  {
    if at == [] then 0
    else Occ(at[..|at| - 1], p) + (if at[|at| - 1] == p then 1 else 0)
  }

  lemma {:induction false} OccBound<P>(at: seq<P>, p: P)
    ensures Occ(at, p) <= |at|
  {
    if at != [] {
      OccBound(at[..|at| - 1], p);
    }
  }

  /** The list without position `j`, position by position. */
  lemma RemoveAt(s: seq<nat>, j: nat)
    requires j < |s|
    ensures var r := s[..j] + s[j + 1..];
      |r| == |s| - 1 && forall k :: 0 <= k < |r| ==> r[k] == s[if k < j then k else k + 1]
  {
  }

  /** Removing one occurrence of a slot from a distinct list. */
  lemma RemoveDistinct(s: seq<nat>, j: nat)
    requires Distinct(s) && j < |s|
    ensures Distinct(s[..j] + s[j + 1..])
    ensures forall i :: i in s[..j] + s[j + 1..] <==> i in s && i != s[j]
  {
    var r := s[..j] + s[j + 1..];
    RemoveAt(s, j);
    DistinctPairwise(s);
    assert PairwiseDistinct(r) by {
      forall j', k' | 0 <= j' < k' < |r| ensures r[j'] != r[k'] {
        assert r[j'] == s[if j' < j then j' else j' + 1];
        assert r[k'] == s[if k' < j then k' else k' + 1];
      }
    }
    DistinctPairwise(r);
    RemoveMembers(s, j);
  }

  lemma RemoveMembers(s: seq<nat>, j: nat)
    requires PairwiseDistinct(s) && j < |s|
    ensures forall i :: i in s[..j] + s[j + 1..] <==> i in s && i != s[j]
  {
    var r := s[..j] + s[j + 1..];
    RemoveAt(s, j);
    forall i ensures i in r <==> i in s && i != s[j] {
      if i in r {
        var k :| 0 <= k < |r| && r[k] == i;
        assert s[if k < j then k else k + 1] == i;
      }
      if i in s && i != s[j] {
        var k :| 0 <= k < |s| && s[k] == i;
        if k < j { assert r[k] == i; } else { assert r[k - 1] == i; }
      }
    }
  }

  /** A list that enumerates the slots in place `p` has exactly Occ(at, p)
      elements: the list and the place map agree on how many slots are there. */
  lemma {:induction false} EnumeratesLength<P>(s: seq<nat>, at: seq<P>, p: P)
    requires Enumerates(s, at, p)
    ensures |s| == Occ(at, p)
    decreases |at|
  {
    if at == [] {
    } else {
      var n := |at| - 1;
      var at' := at[..n];
      if at[n] == p {
        assert n in s;
        var j :| 0 <= j < |s| && s[j] == n;
        var s' := s[..j] + s[j + 1..];
        RemoveDistinct(s, j);
        forall k | 0 <= k < |s'| ensures s'[k] < |at'| && at'[s'[k]] == p {
          assert s'[k] in s && s'[k] != n;
          var k' :| 0 <= k' < |s| && s[k'] == s'[k];
        }
        forall i | 0 <= i < |at'| && at'[i] == p ensures i in s' {
          assert at[i] == p;
        }
        EnumeratesLength(s', at', p);
      } else {
        forall k | 0 <= k < |s| ensures s[k] < |at'| && at'[s[k]] == p {
          assert s[k] != n;
        }
        forall i | 0 <= i < |at'| && at'[i] == p ensures i in s {
          assert at[i] == p;
        }
        EnumeratesLength(s, at', p);
      }
    }
  }

  /** `s` is the list 0, 1, .., |s|-1. */
  ghost predicate IsIota(s: seq<nat>) {
    forall i :: 0 <= i < |s| ==> s[i] == i
  }

  /** Every slot of `at` is in place `p`. */
  ghost predicate AllIn<P>(at: seq<P>, p: P) {
    forall i :: 0 <= i < |at| ==> at[i] == p
  }

  /** 0, 1, .., n-1 enumerates a place map in which every slot is in `p`. */
  lemma IotaEnumerates<P>(s: seq<nat>, at: seq<P>, p: P)
    requires IsIota(s) && |s| == |at| && AllIn(at, p)
    ensures Enumerates(s, at, p)
  {
    forall i | 0 <= i < |at| ensures i in s {
      assert s[i] == i;
    }
    DistinctPairwise(s);
  }

  /** A place map of `n` slots, all in place `p`. */
  lemma Everywhere<P>(n: nat, p: P) returns (at: seq<P>)
    ensures |at| == n && AllIn(at, p)
  {
    at := seq(n, _ => p);
  }

  /** No slot is in place `p`: the empty list enumerates it. */
  lemma EnumeratesNone<P>(at: seq<P>, p: P)
    requires forall i :: 0 <= i < |at| ==> at[i] != p
    ensures Enumerates([], at, p)
  {
  }

  // Small frame lemmas: how an enumeration survives a change of one slot's place.

  lemma EnumeratesFrame<P>(s: seq<nat>, at: seq<P>, p: P, x: nat, q: P)
    requires Enumerates(s, at, p) && x < |at| && at[x] != p && q != p
    ensures Enumerates(s, at[x := q], p)
  {
  }

  lemma EnumeratesPop<P>(s: seq<nat>, at: seq<P>, p: P, q: P)
    requires Enumerates(s, at, p) && s != [] && q != p
    ensures Enumerates(s[1..], at[s[0] := q], p)
  {
    var at' := at[s[0] := q];
    forall i | 0 <= i < |at'| && at'[i] == p ensures i in s[1..] {
      assert i in s;
      var k :| 0 <= k < |s| && s[k] == i;
      assert k != 0;
      assert s[1..][k - 1] == i;
    }
  }

  lemma EnumeratesPopBack<P>(s: seq<nat>, at: seq<P>, p: P, q: P)
    requires Enumerates(s, at, p) && s != [] && q != p
    ensures Enumerates(s[..|s| - 1], at[s[|s| - 1] := q], p)
  {
    var n := |s| - 1;
    var at' := at[s[n] := q];
    DistinctPairwise(s);
    forall j, k | 0 <= j < k < n ensures s[..n][j] != s[..n][k] {
      assert s[..n][j] == s[j] && s[..n][k] == s[k];
    }
    DistinctPairwise(s[..n]);
    forall i | 0 <= i < |at'| && at'[i] == p ensures i in s[..n] {
      assert i in s;
      var k :| 0 <= k < |s| && s[k] == i;
      assert k != n;
      assert s[..n][k] == i;
    }
  }

  lemma EnumeratesPush<P>(s: seq<nat>, at: seq<P>, p: P, x: nat)
    requires Enumerates(s, at, p) && x < |at| && at[x] != p
    ensures Enumerates([x] + s, at[x := p], p)
  {
    var s' := [x] + s;
    var at' := at[x := p];
    assert x !in s;
    assert s'[1..] == s;
    forall k | 0 <= k < |s'| ensures s'[k] < |at'| && at'[s'[k]] == p {
      if k > 0 { assert s'[k] == s[k - 1]; }
    }
    forall i | 0 <= i < |at'| && at'[i] == p ensures i in s' {
      if i != x { assert i in s; }
    }
  }

  lemma EnumeratesAppend<P>(s: seq<nat>, at: seq<P>, p: P, x: nat)
    requires Enumerates(s, at, p) && x < |at| && at[x] != p
    ensures Enumerates(s + [x], at[x := p], p)
  {
    var s' := s + [x];
    var at' := at[x := p];
    assert x !in s;
    DistinctPairwise(s);
    forall j, k | 0 <= j < k < |s'| ensures s'[j] != s'[k] {
      if k == |s| { assert s'[j] in s; } else { assert s'[j] == s[j] && s'[k] == s[k]; }
    }
    DistinctPairwise(s');
    forall i | 0 <= i < |at'| && at'[i] == p ensures i in s' {
      if i != x { assert i in s; var k :| 0 <= k < |s| && s[k] == i; assert s'[k] == i; }
      else { assert s'[|s|] == x; }
    }
  }
}
