/** `GitPushTargetPanel.getTargetNames`: the completion suggestions of the target
    text field, the remote branches sorted by the remote-branch comparator and
    mapped to their remote-operations names. */
module TargetNames {
  import opened RemoteBranchOrder

  /** Every branch precedes or ties with every later branch. */
  ghost predicate Sorted(s: seq<RemoteBranch>)
  {
    forall i, j :: 0 <= i < j < |s| ==> Compare(s[i], s[j]) <= 0
  }

  /** The branches of `s` that the comparator ties with `k`, in their order in `s`. */
  function Peers(s: seq<RemoteBranch>, k: RemoteBranch): (r: seq<RemoteBranch>)
  {
    if s == [] then []
    else (if SameKey(s[0], k) then [s[0]] else []) + Peers(s[1..], k)
  }

  /** `p` is what a stable sort of `bs` by the comparator returns: sorted, a
      permutation of `bs`, and tied branches keep their relative order. */
  ghost predicate IsStableSortOf(p: seq<RemoteBranch>, bs: seq<RemoteBranch>)
  {
    Sorted(p) && multiset(p) == multiset(bs) && forall k :: Peers(p, k) == Peers(bs, k)
  }

  /** Places `x` before the first branch it does not follow. */
  function Insert(x: RemoteBranch, s: seq<RemoteBranch>): (r: seq<RemoteBranch>)
    ensures multiset(r) == multiset(s) + multiset{x}
  {
    if s == [] then [x]
    else if Compare(x, s[0]) <= 0 then [x] + s
    else
      assert s == [s[0]] + s[1..];
      [s[0]] + Insert(x, s[1..])
  }

  /** A stable insertion sort standing in for `ContainerUtil.sorted`. */
  function SortBranches(bs: seq<RemoteBranch>): (r: seq<RemoteBranch>)
    ensures multiset(r) == multiset(bs)
  {
    if bs == [] then []
    else
      assert bs == [bs[0]] + bs[1..];
      Insert(bs[0], SortBranches(bs[1..]))
  }

  /** The remote-operations name of each branch, in order. */
  function Names(s: seq<RemoteBranch>): (r: seq<string>)
  {
    seq(|s|, i requires 0 <= i < |s| => s[i].remoteOpName)
  }

  /** `getTargetNames`: one name per remote branch, its remote-operations name, in
      the order of a stable sort of the branches by the comparator; any stable sort
      gives the same names. */
  function GetTargetNames(remoteBranches: seq<RemoteBranch>): (names: seq<string>)
    ensures |names| == |remoteBranches|
    ensures exists p :: IsStableSortOf(p, remoteBranches) && names == Names(p)
    ensures forall p :: IsStableSortOf(p, remoteBranches) ==> names == Names(p)
  {
    SortBranchesIsStableSort(remoteBranches);
    StableSortUnique(remoteBranches);
    Names(SortBranches(remoteBranches))
  }

  lemma {:induction false} InsertSorted(x: RemoteBranch, s: seq<RemoteBranch>)
    requires Sorted(s)
    ensures Sorted(Insert(x, s))
  {
    if s == [] {
    } else if Compare(x, s[0]) <= 0 {
      forall y | y in s ensures Compare(x, y) <= 0 {
        var m :| 0 <= m < |s| && s[m] == y;
        if m > 0 {
          CompareTransitiveNonStrict(x, s[0], y);
        }
      }
      PrependSorted(x, s);
    } else {
      var t := Insert(x, s[1..]);
      assert Sorted(s[1..]) by {
        forall i, j | 0 <= i < j < |s[1..]| ensures Compare(s[1..][i], s[1..][j]) <= 0 {
          assert s[1..][i] == s[i + 1] && s[1..][j] == s[j + 1];
        }
      }
      InsertSorted(x, s[1..]);
      CompareAntisymmetric(x, s[0]);
      forall y | y in t ensures Compare(s[0], y) <= 0 {
        assert y in multiset(t);
        if y != x {
          assert y in multiset(s[1..]);
          var m :| 0 <= m < |s[1..]| && s[1..][m] == y;
          assert s[m + 1] == y;
        }
      }
      PrependSorted(s[0], t);
    }
  }

  /** A branch that precedes or ties with every branch of a sorted sequence can be
      put in front of it. */
  lemma PrependSorted(x: RemoteBranch, s: seq<RemoteBranch>)
    requires Sorted(s)
    requires forall y :: y in s ==> Compare(x, y) <= 0
    ensures Sorted([x] + s)
  {
    var r := [x] + s;
    forall i, j | 0 <= i < j < |r| ensures Compare(r[i], r[j]) <= 0 {
      assert r[j] == s[j - 1];
      if i > 0 {
        assert r[i] == s[i - 1];
      }
    }
  }

  lemma {:induction false} SortBranchesSorted(bs: seq<RemoteBranch>)
    ensures Sorted(SortBranches(bs))
  {
    if bs != [] {
      SortBranchesSorted(bs[1..]);
      InsertSorted(bs[0], SortBranches(bs[1..]));
    }
  }

  /** Inserting `x` puts it in front of the branches tied with it. */
  lemma {:induction false} PeersInsert(x: RemoteBranch, s: seq<RemoteBranch>, k: RemoteBranch)
    ensures Peers(Insert(x, s), k) == (if SameKey(x, k) then [x] else []) + Peers(s, k)
  {
    var own := if SameKey(x, k) then [x] else [];
    if s == [] {
    } else if Compare(x, s[0]) <= 0 {
      var r := [x] + s;
      assert r[0] == x && r[1..] == s;
      assert Peers(r, k) == own + Peers(s, k);
    } else {
      var t := Insert(x, s[1..]);
      PeersInsert(x, s[1..], k);
      CompareZeroIff(x, s[0]);
      var head := if SameKey(s[0], k) then [s[0]] else [];
      var r := [s[0]] + t;
      assert r[0] == s[0] && r[1..] == t;
      assert Peers(r, k) == head + Peers(t, k);
      assert Peers(s, k) == head + Peers(s[1..], k);
      assert head == [] || own == [];
      assert head + own == own + head;
    }
  }

  /** The sort keeps tied branches in their original order. */
  lemma {:induction false} SortBranchesStable(bs: seq<RemoteBranch>, k: RemoteBranch)
    ensures Peers(SortBranches(bs), k) == Peers(bs, k)
  {
    if bs != [] {
      SortBranchesStable(bs[1..], k);
      PeersInsert(bs[0], SortBranches(bs[1..]), k);
    }
  }

  lemma SortBranchesIsStableSort(bs: seq<RemoteBranch>)
    ensures IsStableSortOf(SortBranches(bs), bs)
  {
    SortBranchesSorted(bs);
    forall k ensures Peers(SortBranches(bs), k) == Peers(bs, k) {
      SortBranchesStable(bs, k);
    }
  }

  /** Every branch listed by `Peers` is in `s` and tied with `k`. */
  lemma {:induction false} PeersMember(s: seq<RemoteBranch>, k: RemoteBranch, i: nat)
    requires i < |Peers(s, k)|
    ensures SameKey(Peers(s, k)[i], k)
    ensures exists j :: 0 <= j < |s| && s[j] == Peers(s, k)[i]
  {
    if SameKey(s[0], k) && i == 0 {
      assert s[0] == Peers(s, k)[i];
    } else {
      var i' := if SameKey(s[0], k) then i - 1 else i;
      PeersMember(s[1..], k, i');
      var j :| 0 <= j < |s[1..]| && s[1..][j] == Peers(s[1..], k)[i'];
      assert s[j + 1] == Peers(s, k)[i];
    }
  }

  /** The first element of a sorted sequence is at most any key `k` that some
      branch of the sequence is tied with. */
  lemma HeadPrecedesPeers(s: seq<RemoteBranch>, k: RemoteBranch)
    requires Sorted(s) && Peers(s, k) != []
    ensures s != [] && Compare(s[0], k) <= 0
  {
    PeersMember(s, k, 0);
    var j :| 0 <= j < |s| && s[j] == Peers(s, k)[0];
    CompareZeroIff(s[j], k);
    if j == 0 {
    } else {
      CompareTransitiveNonStrict(s[0], s[j], k);
    }
  }

  /** Two sorted sequences that list the same tied branches in the same order for
      every key are equal. */
  lemma {:induction false} SortedSamePeersEqual(p: seq<RemoteBranch>, q: seq<RemoteBranch>)
    requires Sorted(p) && Sorted(q) && |p| == |q|
    requires forall k :: Peers(p, k) == Peers(q, k)
    ensures p == q
  {
    if p != [] {
      var x, y := p[0], q[0];
      CompareZeroIff(x, x);
      CompareZeroIff(y, y);
      assert Peers(p, x)[0] == x;
      assert Peers(q, y)[0] == y;
      HeadPrecedesPeers(q, x);
      HeadPrecedesPeers(p, y);
      CompareAntisymmetric(x, y);
      CompareZeroIff(x, y);
      assert Peers(q, x)[0] == y;
      assert x == y;
      forall k ensures Peers(p[1..], k) == Peers(q[1..], k) {
        var head := if SameKey(x, k) then [x] else [];
        assert Peers(p, k) == head + Peers(p[1..], k);
        assert Peers(q, k) == head + Peers(q[1..], k);
        assert Peers(p[1..], k) == Peers(p, k)[|head|..];
        assert Peers(q[1..], k) == Peers(q, k)[|head|..];
      }
      assert Sorted(p[1..]) by {
        forall i, j | 0 <= i < j < |p[1..]| ensures Compare(p[1..][i], p[1..][j]) <= 0 {
          assert p[1..][i] == p[i + 1] && p[1..][j] == p[j + 1];
        }
      }
      assert Sorted(q[1..]) by {
        forall i, j | 0 <= i < j < |q[1..]| ensures Compare(q[1..][i], q[1..][j]) <= 0 {
          assert q[1..][i] == q[i + 1] && q[1..][j] == q[j + 1];
        }
      }
      SortedSamePeersEqual(p[1..], q[1..]);
      assert p == [x] + p[1..] && q == [y] + q[1..];
    }
  }

  /** A stable sort by the comparator has exactly one possible result. */
  lemma StableSortUnique(bs: seq<RemoteBranch>)
    ensures forall p :: IsStableSortOf(p, bs) ==> p == SortBranches(bs)
  {
    SortBranchesIsStableSort(bs);
    forall p | IsStableSortOf(p, bs) ensures p == SortBranches(bs) {
      assert |p| == |multiset(p)| == |multiset(bs)| == |SortBranches(bs)|;
      SortedSamePeersEqual(p, SortBranches(bs));
    }
  }

  /** Branches of `bs` that the comparator ties are the same value. This holds for
      real remote branches, whose remote-operations name is determined by the remote
      name and the local-operations name. */
  ghost predicate TiesAreEqual(bs: seq<RemoteBranch>)
  {
    forall a, b :: a in bs && b in bs && SameKey(a, b) ==> a == b
  }

  /** `n` copies of `v`. */
  function Repeat(v: RemoteBranch, n: nat): (r: seq<RemoteBranch>)
  {
    if n == 0 then [] else [v] + Repeat(v, n - 1)
  }

  /** When every branch of `s` tied with `k` is `v`, the tied group is `v` repeated
      as often as it occurs in `s`. */
  lemma {:induction false} PeersRepeat(s: seq<RemoteBranch>, k: RemoteBranch, v: RemoteBranch)
    requires SameKey(v, k)
    requires forall y :: y in s && SameKey(y, k) ==> y == v
    ensures Peers(s, k) == Repeat(v, multiset(s)[v])
  {
    if s != [] {
      var x, rest := s[0], s[1..];
      assert s == [x] + rest;
      forall y | y in rest && SameKey(y, k) ensures y == v {
        assert y in s;
      }
      PeersRepeat(rest, k, v);
      var n := multiset(rest)[v];
      assert Peers(s, k) == (if SameKey(x, k) then [x] else []) + Peers(rest, k);
      if SameKey(x, k) {
        assert x == v;
        assert multiset(s)[v] == n + 1;
        assert Repeat(v, n + 1) == [v] + Repeat(v, n);
      } else {
        assert x != v;
        assert multiset(s)[v] == n;
      }
    }
  }

  /** Without relying on stability: when tied branches are equal values, every sorted
      permutation of the branches is a stable sort of them, equals this model's
      sort, and gives the names `getTargetNames` returns. */
  lemma SortedPermutationGivesTargetNames(bs: seq<RemoteBranch>, p: seq<RemoteBranch>)
    requires TiesAreEqual(bs)
    requires Sorted(p) && multiset(p) == multiset(bs)
    ensures IsStableSortOf(p, bs)
    ensures p == SortBranches(bs)
    ensures GetTargetNames(bs) == Names(p)
  {
    forall k ensures Peers(p, k) == Peers(bs, k) {
      var v := k;
      if y :| y in bs && SameKey(y, k) {
        v := y;
      }
      forall z | z in p ensures z in bs {
        assert z in multiset(p);
      }
      PeersRepeat(p, k, v);
      PeersRepeat(bs, k, v);
    }
    StableSortUnique(bs);
  }
}
