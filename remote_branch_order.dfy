/** The order in which the push-target panel lists remote branches
    (`GitPushTargetPanel.MyRemoteBranchComparator`). */
module RemoteBranchOrder {
  import opened JavaString

  /** A remote-tracking branch, reduced to the three names the panel uses:
      the name of its remote, its name for local operations and its name for
      remote operations. */
  datatype RemoteBranch = RemoteBranch(remoteName: string, localName: string, remoteOpName: string)

  /** `GitRemote.ORIGIN_NAME`. */
  const OriginName: string := "origin"

  /** `MyRemoteBranchComparator.compare`. */
  function Compare(o1: RemoteBranch, o2: RemoteBranch): (r: int)
  {
    var remoteComparison := CompareTo(o1.remoteName, o2.remoteName);
    if remoteComparison != 0 then
      if o1.remoteName == OriginName then -1
      else if o2.remoteName == OriginName then 1
      else remoteComparison
    else
      CompareTo(o1.localName, o2.localName)
  }

  /** Two branches the comparator cannot tell apart. */
  predicate SameKey(a: RemoteBranch, b: RemoteBranch)
  {
    a.remoteName == b.remoteName && a.localName == b.localName
  }

  /** Rank of a remote in the listing: origin first, every other remote after it. */
  function Rank(b: RemoteBranch): (r: nat)
  {
    if b.remoteName == OriginName then 0 else 1
  }

  /** Reference order, stated independently of `Compare`: by rank, then by remote
      name, then by local name, each name in lexicographic order. */
  ghost predicate KeyLess(a: RemoteBranch, b: RemoteBranch)
  {
    Rank(a) < Rank(b)
    || (Rank(a) == Rank(b) && LexLess(a.remoteName, b.remoteName))
    || (a.remoteName == b.remoteName && LexLess(a.localName, b.localName))
  }

  /** A branch on origin sorts strictly before a branch on any other remote. */
  lemma OriginFirst(a: RemoteBranch, b: RemoteBranch)
    requires a.remoteName == OriginName && b.remoteName != OriginName
    ensures Compare(a, b) == -1 && Compare(b, a) == 1
  {
    CompareToZeroIff(a.remoteName, b.remoteName);
    CompareToZeroIff(b.remoteName, a.remoteName);
  }

  /** Branches on two different remotes, neither of them origin, are ordered by
      the remote names. */
  lemma OtherRemotesByName(a: RemoteBranch, b: RemoteBranch)
    requires a.remoteName != b.remoteName
    requires a.remoteName != OriginName && b.remoteName != OriginName
    ensures Compare(a, b) == CompareTo(a.remoteName, b.remoteName)
    ensures Compare(a, b) != 0
  {
    CompareToZeroIff(a.remoteName, b.remoteName);
  }

  /** Branches on the same remote are ordered by their local-operations names. */
  lemma SameRemoteByLocalName(a: RemoteBranch, b: RemoteBranch)
    requires a.remoteName == b.remoteName
    ensures Compare(a, b) == CompareTo(a.localName, b.localName)
  {
    CompareToZeroIff(a.remoteName, b.remoteName);
  }

  /** The comparator returns 0 exactly when remote name and local name both agree. */
  lemma CompareZeroIff(a: RemoteBranch, b: RemoteBranch)
    ensures Compare(a, b) == 0 <==> SameKey(a, b)
  {
    CompareToZeroIff(a.remoteName, b.remoteName);
    CompareToZeroIff(a.localName, b.localName);
  }

  /** The comparator is negative exactly when the reference order puts `a` first. */
  lemma CompareNegativeIff(a: RemoteBranch, b: RemoteBranch)
    ensures Compare(a, b) < 0 <==> KeyLess(a, b)
  {
    CompareToZeroIff(a.remoteName, b.remoteName);
    CompareToNegativeIff(a.remoteName, b.remoteName);
    CompareToNegativeIff(a.localName, b.localName);
    if a.remoteName == b.remoteName {
      LexLessIrreflexive(a.remoteName);
    }
  }

  /** `Comparator` contract, first clause: swapping the operands negates the result
      (here exactly, not only its sign). */
  lemma CompareAntisymmetric(a: RemoteBranch, b: RemoteBranch)
    ensures Compare(b, a) == -Compare(a, b)
  {
    CompareToAntisymmetric(a.remoteName, b.remoteName);
    CompareToAntisymmetric(a.localName, b.localName);
    CompareToZeroIff(a.remoteName, b.remoteName);
  }

  /** `Comparator` contract, third clause: operands that compare equal compare
      alike against every third branch. */
  lemma CompareConsistentOnEqual(a: RemoteBranch, b: RemoteBranch, c: RemoteBranch)
    requires Compare(a, b) == 0
    ensures Compare(a, c) == Compare(b, c) && Compare(c, a) == Compare(c, b)
  {
    CompareZeroIff(a, b);
  }

  /** `Comparator` contract, second clause: "less than" is transitive. */
  lemma CompareTransitive(a: RemoteBranch, b: RemoteBranch, c: RemoteBranch)
    requires Compare(a, b) < 0 && Compare(b, c) < 0
    ensures Compare(a, c) < 0
  {
    CompareToZeroIff(a.remoteName, b.remoteName);
    CompareToZeroIff(b.remoteName, c.remoteName);
    CompareToZeroIff(a.remoteName, c.remoteName);
    if a.remoteName == b.remoteName == c.remoteName {
      CompareToTransitive(a.localName, b.localName, c.localName);
    } else if a.remoteName == b.remoteName {
      assert Compare(a, c) == Compare(b, c);
    } else if b.remoteName == c.remoteName {
      assert Compare(a, c) == Compare(a, b);
    } else if a.remoteName != OriginName && b.remoteName != OriginName && c.remoteName != OriginName {
      if a.remoteName == c.remoteName {
        CompareToAntisymmetric(a.remoteName, b.remoteName);
      } else {
        CompareToTransitive(a.remoteName, b.remoteName, c.remoteName);
      }
    }
  }

  /** "Less than or equal" is transitive: together with totality (every pair is
      comparable) the comparator is a total preorder. */
  lemma CompareTransitiveNonStrict(a: RemoteBranch, b: RemoteBranch, c: RemoteBranch)
    requires Compare(a, b) <= 0 && Compare(b, c) <= 0
    ensures Compare(a, c) <= 0
  {
    if Compare(a, b) == 0 {
      CompareConsistentOnEqual(a, b, c);
    } else if Compare(b, c) == 0 {
      CompareConsistentOnEqual(b, c, a);
    } else {
      CompareTransitive(a, b, c);
    }
  }
}
