/** The agent's list helpers: the longest common tail of two lists, and how many
    elements of one sorted list another lacks. */
module Helpers {

  function Last<T>(s: seq<T>): T
    requires s != []
  {
    s[|s| - 1]
  }

  function Front<T>(s: seq<T>): seq<T>
    requires s != []
  {
    s[..|s| - 1]
  }

  // ----- tail_intersection

  ghost predicate IsSuffix<T>(s: seq<T>, a: seq<T>) {
    |s| <= |a| && a[|a| - |s|..] == s
  }

  function CommonSuffix<T(==)>(a: seq<T>, b: seq<T>): seq<T> {
    if a == [] || b == [] || Last(a) != Last(b) then [] else CommonSuffix(Front(a), Front(b)) + [Last(a)]
  }

  lemma {:induction false} CommonSuffixIsCommon<T>(a: seq<T>, b: seq<T>)
    ensures IsSuffix(CommonSuffix(a, b), a) && IsSuffix(CommonSuffix(a, b), b)
    decreases |a|
  {
    if a != [] && b != [] && Last(a) == Last(b) {
      CommonSuffixIsCommon(Front(a), Front(b));
      assert a == Front(a) + [Last(a)] && b == Front(b) + [Last(b)];
    }
  }

  lemma {:induction false} CommonSuffixIsLongest<T>(a: seq<T>, b: seq<T>, s: seq<T>)
    requires IsSuffix(s, a) && IsSuffix(s, b)
    ensures |s| <= |CommonSuffix(a, b)|
    decreases |a|
  {
    if s != [] {
      assert Last(s) == Last(a) && Last(s) == Last(b);
      assert Front(s) == Front(a)[|a| - |s|..] && Front(s) == Front(b)[|b| - |s|..];
      CommonSuffixIsLongest(Front(a), Front(b), Front(s));
    }
  }

  function Reversed<T>(s: seq<T>): (r: seq<T>)
    ensures |r| == |s| && forall i | 0 <= i < |s| :: r[i] == s[|s| - 1 - i]
  {
    if s == [] then [] else Reversed(s[1..]) + [s[0]]
  }

  method TailIntersection<T(==)>(A: seq<T>, B: seq<T>) returns (result: seq<T>)
    ensures result == CommonSuffix(A, B)
  {
    result := [];
    var a, b := |A|, |B|;
    assert A[..a] == A && B[..b] == B;
    while a != 0 && b != 0
      invariant 0 <= a <= |A| && 0 <= b <= |B|
      invariant CommonSuffix(A[..a], B[..b]) + Reversed(result) == CommonSuffix(A, B)
    {
      assert Front(A[..a]) == A[..a - 1] && Front(B[..b]) == B[..b - 1];
      if A[a - 1] == B[b - 1] {
        PushReversed(result, A[a - 1]);
        result := result + [A[a - 1]];
      } else {
        break;
      }
      a, b := a - 1, b - 1;
    }
    result := Reversed(result);
  }

  lemma PushReversed<T>(s: seq<T>, x: T)
    ensures Reversed(s + [x]) == [x] + Reversed(s)
  {
  }

  // ----- count_missing

  ghost predicate StrictTotalOrder<T(!new)>(less: (T, T) -> bool) {
    && (forall x :: !less(x, x))
    && (forall x, y, z :: less(x, y) && less(y, z) ==> less(x, z))
    && (forall x, y :: less(x, y) || x == y || less(y, x))
  }

  ghost predicate SortedBy<T>(less: (T, T) -> bool, s: seq<T>) {
    forall i, j | 0 <= i < j < |s| :: !less(s[j], s[i])
  }

  /** Elements of `small` not in `big`, duplicates counted. */
  ghost function Missing<T>(small: seq<T>, big: seq<T>): multiset<T> {
    multiset(small) - multiset(big)
  }

  method CountMissing<T(==,!new)>(less: (T, T) -> bool, small: seq<T>, big: seq<T>) returns (missing: nat)
    requires StrictTotalOrder(less)
    requires SortedBy(less, small) && SortedBy(less, big)
    ensures missing == |Missing(small, big)|
  {
    missing := 0;
    var sm, bg := 0, 0;
    while sm != |small|
      invariant 0 <= sm <= |small| && 0 <= bg <= |big|
      invariant missing + |Missing(small[sm..], big[bg..])| == |Missing(small, big)|
      decreases |small| - sm + |big| - bg
    {
      if bg == |big| || less(small[sm], big[bg]) {
        AbsentHeadIsMissing(less, small, sm, big, bg);
        missing := missing + 1;
        sm := sm + 1;
      } else if small[sm] == big[bg] {
        EqualHeadsCancel(small, sm, big, bg);
        sm := sm + 1;
        bg := bg + 1;
      } else {
        UnwantedHeadIsIrrelevant(less, small, sm, big, bg);
        bg := bg + 1;
      }
    }
    assert small[sm..] == [];
    assert Missing(small[sm..], big[bg..]) == multiset{};
  }

  lemma DropHead<T>(s: seq<T>, i: nat)
    requires i < |s|
    ensures multiset(s[i..]) == multiset{s[i]} + multiset(s[i + 1..])
  {
    assert s[i..] == [s[i]] + s[i + 1..];
  }

  lemma AbsentHeadIsMissing<T(!new)>(less: (T, T) -> bool, small: seq<T>, sm: nat, big: seq<T>, bg: nat)
    requires StrictTotalOrder(less) && SortedBy(less, big)
    requires sm < |small| && bg <= |big| && (bg == |big| || less(small[sm], big[bg]))
    ensures |Missing(small[sm..], big[bg..])| == 1 + |Missing(small[sm + 1..], big[bg..])|
  {
    var s := small[sm];
    assert s !in big[bg..] by {
      forall i | bg <= i < |big| ensures big[i] != s {
      }
    }
    DropHead(small, sm);
    assert Missing(small[sm..], big[bg..]) == multiset{s} + Missing(small[sm + 1..], big[bg..]);
  }

  lemma EqualHeadsCancel<T>(small: seq<T>, sm: nat, big: seq<T>, bg: nat)
    requires sm < |small| && bg < |big| && small[sm] == big[bg]
    ensures Missing(small[sm..], big[bg..]) == Missing(small[sm + 1..], big[bg + 1..])
  {
    DropHead(small, sm);
    DropHead(big, bg);
  }

  lemma UnwantedHeadIsIrrelevant<T(!new)>(less: (T, T) -> bool, small: seq<T>, sm: nat, big: seq<T>, bg: nat)
    requires StrictTotalOrder(less) && SortedBy(less, small)
    requires sm < |small| && bg < |big| && less(big[bg], small[sm])
    ensures Missing(small[sm..], big[bg..]) == Missing(small[sm..], big[bg + 1..])
  {
    var x := big[bg];
    assert x !in small[sm..] by {
      forall i | sm <= i < |small| ensures small[i] != x {
      }
    }
    DropHead(big, bg);
  }

  /** A set of elements of `small` none of which is in `big` counts as missing. */
  lemma AbsenteesAreMissing<T>(small: seq<T>, big: seq<T>, absent: set<T>)
    requires forall x <- absent :: x in small && x !in big
    ensures |absent| <= |Missing(small, big)|
  {
    assert multiset(absent) <= Missing(small, big);
    var rest := Missing(small, big) - multiset(absent);
    assert Missing(small, big) == multiset(absent) + rest;
  }
}
