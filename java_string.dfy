/** Java's `String.compareTo`, the string order the remote-branch comparator is built on.
    Strings are sequences of characters, compared by character code. */
module JavaString {

  /** `a.compareTo(b)`: the difference of the first pair of characters that differ,
      or the difference of the lengths when one string is a prefix of the other. */
  function CompareTo(a: string, b: string): (r: int)
  {
    if |a| == 0 || |b| == 0 then |a| - |b|
    else if a[0] != b[0] then a[0] as int - b[0] as int
    else CompareTo(a[1..], b[1..])
  }

  /** Textbook lexicographic order: `a` is a proper prefix of `b`, or at the first
      position where they differ `a` has the smaller character. */
  ghost predicate LexLess(a: string, b: string)
  {
    exists k :: 0 <= k <= |a| && k <= |b| && a[..k] == b[..k] &&
      ((k == |a| && k < |b|) || (k < |a| && k < |b| && a[k] < b[k]))
  }

  /** compareTo returns 0 exactly on equal strings. */
  lemma {:induction false} CompareToZeroIff(a: string, b: string)
    ensures CompareTo(a, b) == 0 <==> a == b
  {
    if |a| != 0 && |b| != 0 && a[0] == b[0] {
      CompareToZeroIff(a[1..], b[1..]);
      assert a == [a[0]] + a[1..] && b == [b[0]] + b[1..];
    }
  }

  /** Swapping the operands negates the result. */
  lemma {:induction false} CompareToAntisymmetric(a: string, b: string)
    ensures CompareTo(b, a) == -CompareTo(a, b)
  {
    if |a| != 0 && |b| != 0 && a[0] == b[0] {
      CompareToAntisymmetric(a[1..], b[1..]);
    }
  }

  /** "Less than" is transitive. */
  lemma {:induction false} CompareToTransitive(a: string, b: string, c: string)
    requires CompareTo(a, b) < 0 && CompareTo(b, c) < 0
    ensures CompareTo(a, c) < 0
  {
    if |a| != 0 && |b| != 0 && |c| != 0 && a[0] == b[0] && b[0] == c[0] {
      CompareToTransitive(a[1..], b[1..], c[1..]);
    }
  }

  /** "Less than or equal" is transitive too. */
  lemma CompareToTransitiveNonStrict(a: string, b: string, c: string)
    requires CompareTo(a, b) <= 0 && CompareTo(b, c) <= 0
    ensures CompareTo(a, c) <= 0
  {
    CompareToZeroIff(a, b);
    CompareToZeroIff(b, c);
    if CompareTo(a, b) < 0 && CompareTo(b, c) < 0 {
      CompareToTransitive(a, b, c);
    }
  }

  /** After a common prefix of length k, the comparison is that of the remainders. */
  lemma {:induction false} CompareToAfterPrefix(a: string, b: string, k: nat)
    requires k <= |a| && k <= |b| && a[..k] == b[..k]
    ensures CompareTo(a, b) == CompareTo(a[k..], b[k..])
  {
    if k > 0 {
      assert a[0] == a[..k][0] == b[..k][0] == b[0];
      assert a[1..][..k - 1] == a[1..k] == a[..k][1..];
      assert b[1..][..k - 1] == b[1..k] == b[..k][1..];
      CompareToAfterPrefix(a[1..], b[1..], k - 1);
      assert a[1..][k - 1..] == a[k..] && b[1..][k - 1..] == b[k..];
    }
  }

  /** compareTo is negative exactly when `a` precedes `b` in lexicographic order. */
  lemma {:induction false} CompareToNegativeIff(a: string, b: string)
    ensures CompareTo(a, b) < 0 <==> LexLess(a, b)
  {
    if CompareTo(a, b) < 0 {
      CompareToNegativeWitness(a, b);
    }
    if LexLess(a, b) {
      var k :| 0 <= k <= |a| && k <= |b| && a[..k] == b[..k] &&
        ((k == |a| && k < |b|) || (k < |a| && k < |b| && a[k] < b[k]));
      CompareToAfterPrefix(a, b, k);
    }
  }

  /** A negative compareTo yields the position where `a` first falls below `b`. */
  lemma {:induction false} CompareToNegativeWitness(a: string, b: string)
    requires CompareTo(a, b) < 0
    ensures LexLess(a, b)
  {
    if |a| == 0 || |b| == 0 || a[0] != b[0] {
      assert a[..0] == b[..0];
    } else {
      CompareToNegativeWitness(a[1..], b[1..]);
      var k :| 0 <= k <= |a[1..]| && k <= |b[1..]| && a[1..][..k] == b[1..][..k] &&
        ((k == |a[1..]| && k < |b[1..]|) || (k < |a[1..]| && k < |b[1..]| && a[1..][k] < b[1..][k]));
      assert a[..k + 1] == [a[0]] + a[1..][..k];
      assert b[..k + 1] == [b[0]] + b[1..][..k];
    }
  }

  /** No string is lexicographically smaller than itself. */
  lemma LexLessIrreflexive(s: string)
    ensures !LexLess(s, s)
  {
    CompareToZeroIff(s, s);
    CompareToNegativeIff(s, s);
  }
}
