/**
 * The order the identity selector keeps: `Collections.sort` with a comparator
 * that applies `compareToIgnoreCase` to the nicknames. Case folding is ASCII
 * only here; `sort` is stable, so identities whose nicknames fold to the same
 * text keep their relative order.
 */
module NicknameOrder {
  import opened Entities

  /** Folds an upper-case ASCII letter to lower case and leaves every other character alone. */
  function FoldChar(c: char): char
  {
    if 'A' <= c <= 'Z' then (c as int - 'A' as int + 'a' as int) as char else c
  }

  function FoldCase(s: string): (r: string)
    ensures |r| == |s|
  {
    if s == [] then [] else [FoldChar(s[0])] + FoldCase(s[1..])
  }

  /**
   * `a.compareToIgnoreCase(b)`: the difference of the first pair of folded
   * characters that differ, or else the difference of the lengths.
   */
  function CompareIgnoringCase(a: string, b: string): (r: int)
    ensures FoldCase(a) == FoldCase(b) ==> r == 0
  {
    if a == [] || b == [] then |a| - |b|
    else if FoldChar(a[0]) != FoldChar(b[0]) then
      assert FoldCase(a)[0] != FoldCase(b)[0];
      FoldChar(a[0]) as int - FoldChar(b[0]) as int
    else
      assert FoldCase(a)[1..] == FoldCase(a[1..]) && FoldCase(b)[1..] == FoldCase(b[1..]);
      CompareIgnoringCase(a[1..], b[1..])
  }

  /** The comparator's sign flips with its arguments. */
  lemma {:induction false} CompareAntisymmetric(a: string, b: string)
    ensures CompareIgnoringCase(b, a) == -CompareIgnoringCase(a, b)
  {
    if a != [] && b != [] && FoldChar(a[0]) == FoldChar(b[0]) {
      CompareAntisymmetric(a[1..], b[1..]);
    }
  }

  /** "Sorts no later than" is transitive. */
  lemma {:induction false} CompareTransitive(a: string, b: string, c: string)
    requires CompareIgnoringCase(a, b) <= 0 && CompareIgnoringCase(b, c) <= 0
    ensures CompareIgnoringCase(a, c) <= 0
  {
    if a != [] && b != [] && c != [] && FoldChar(a[0]) == FoldChar(b[0]) == FoldChar(c[0]) {
      CompareTransitive(a[1..], b[1..], c[1..]);
    }
  }

  /** Two nicknames compare equal exactly when they fold to the same text. */
  lemma {:induction false} CompareZeroIffSameFolding(a: string, b: string)
    ensures CompareIgnoringCase(a, b) == 0 <==> FoldCase(a) == FoldCase(b)
  {
    if a != [] && b != [] {
      var fa, fb := FoldCase(a), FoldCase(b);
      assert fa[0] == FoldChar(a[0]) && fb[0] == FoldChar(b[0]);
      if FoldChar(a[0]) == FoldChar(b[0]) {
        CompareZeroIffSameFolding(a[1..], b[1..]);
        assert fa[1..] == FoldCase(a[1..]) && fb[1..] == FoldCase(b[1..]);
        if FoldCase(a[1..]) == FoldCase(b[1..]) {
          assert fa == [fa[0]] + fa[1..] && fb == [fb[0]] + fb[1..];
        }
      }
    }
  }

  predicate NicknameNoLater(x: OwnIdentity, y: OwnIdentity)
  {
    CompareIgnoringCase(x.nickname, y.nickname) <= 0
  }

  /** Every identity sorts no later than every identity after it. */
  predicate SortedByNickname(s: seq<OwnIdentity>)
  {
    forall i, j :: 0 <= i < j < |s| ==> NicknameNoLater(s[i], s[j])
  }

  /** Inserts `x` before the first identity it sorts no later than. */
  function InsertByNickname(x: OwnIdentity, s: seq<OwnIdentity>): (r: seq<OwnIdentity>)
    ensures multiset(r) == multiset(s) + multiset{x}
  {
    if s == [] || NicknameNoLater(x, s[0]) then [x] + s
    else
      assert s == [s[0]] + s[1..];
      [s[0]] + InsertByNickname(x, s[1..])
  }

  /** The list `setOwnIdentities` stores: its argument sorted by nickname, stably. */
  function SortByNickname(s: seq<OwnIdentity>): (r: seq<OwnIdentity>)
    ensures multiset(r) == multiset(s)
  {
    if s == [] then []
    else
      assert s == [s[0]] + s[1..];
      InsertByNickname(s[0], SortByNickname(s[1..]))
  }

  /** An identity sorting no later than `x` and than all of `s` sorts no later than all of `x` inserted into `s`. */
  lemma InsertKeepsLowerBound(y: OwnIdentity, x: OwnIdentity, s: seq<OwnIdentity>)
    requires NicknameNoLater(y, x)
    requires forall k :: 0 <= k < |s| ==> NicknameNoLater(y, s[k])
    ensures forall j :: 0 <= j < |InsertByNickname(x, s)| ==> NicknameNoLater(y, InsertByNickname(x, s)[j])
  {
    var t := InsertByNickname(x, s);
    forall j | 0 <= j < |t| ensures NicknameNoLater(y, t[j]) {
      assert t[j] in multiset(t);
      if t[j] != x {
        assert t[j] in multiset(s);
        var k :| 0 <= k < |s| && s[k] == t[j];
      }
    }
  }

  /** Putting an identity that sorts no later than all of a sorted list in front of it keeps it sorted. */
  lemma PrependKeepsSorted(y: OwnIdentity, t: seq<OwnIdentity>)
    requires SortedByNickname(t)
    requires forall k :: 0 <= k < |t| ==> NicknameNoLater(y, t[k])
    ensures SortedByNickname([y] + t)
  {
    var r := [y] + t;
    forall i, j | 0 <= i < j < |r| ensures NicknameNoLater(r[i], r[j]) {
      assert r[j] == t[j - 1];
      if i > 0 { assert r[i] == t[i - 1]; }
    }
  }

  lemma {:induction false} InsertKeepsSorted(x: OwnIdentity, s: seq<OwnIdentity>)
    requires SortedByNickname(s)
    ensures SortedByNickname(InsertByNickname(x, s))
  {
    if s == [] || NicknameNoLater(x, s[0]) {
      forall k | 0 <= k < |s| ensures NicknameNoLater(x, s[k]) {
        if k > 0 { CompareTransitive(x.nickname, s[0].nickname, s[k].nickname); }
      }
      PrependKeepsSorted(x, s);
    } else {
      InsertKeepsSorted(x, s[1..]);
      CompareAntisymmetric(x.nickname, s[0].nickname);
      forall k | 0 <= k < |s[1..]| ensures NicknameNoLater(s[0], s[1..][k]) {
        assert s[1..][k] == s[k + 1];
      }
      InsertKeepsLowerBound(s[0], x, s[1..]);
      PrependKeepsSorted(s[0], InsertByNickname(x, s[1..]));
    }
  }

  /** After `Collections.sort`, the identities are in nickname order. */
  lemma {:induction false} SortByNicknameSorted(s: seq<OwnIdentity>)
    ensures SortedByNickname(SortByNickname(s))
  {
    if s != [] {
      SortByNicknameSorted(s[1..]);
      InsertKeepsSorted(s[0], SortByNickname(s[1..]));
    }
  }

  /** The identities whose nickname folds to `key`, in their order in `s`. */
  function WithFoldedNickname(s: seq<OwnIdentity>, key: string): seq<OwnIdentity>
  {
    if s == [] then []
    else (if FoldCase(s[0].nickname) == key then [s[0]] else []) + WithFoldedNickname(s[1..], key)
  }

  lemma {:induction false} InsertStable(x: OwnIdentity, s: seq<OwnIdentity>, key: string)
    ensures WithFoldedNickname(InsertByNickname(x, s), key) == WithFoldedNickname([x] + s, key)
  {
    if s != [] && !NicknameNoLater(x, s[0]) {
      var t := InsertByNickname(x, s[1..]);
      InsertStable(x, s[1..], key);
      CompareZeroIffSameFolding(x.nickname, s[0].nickname);
      assert ([s[0]] + t)[1..] == t;
      assert ([x] + s[1..])[1..] == s[1..];
      assert ([x] + s)[1..] == s;
    }
  }

  /** The sort is stable: identities whose nicknames fold alike keep their relative order. */
  lemma {:induction false} SortByNicknameStable(s: seq<OwnIdentity>, key: string)
    ensures WithFoldedNickname(SortByNickname(s), key) == WithFoldedNickname(s, key)
  {
    if s != [] {
      SortByNicknameStable(s[1..], key);
      InsertStable(s[0], SortByNickname(s[1..]), key);
      assert ([s[0]] + SortByNickname(s[1..]))[1..] == SortByNickname(s[1..]);
    }
  }

  /** Sorting a list that is already in nickname order leaves it as it is. */
  lemma {:induction false} SortByNicknameOfSorted(s: seq<OwnIdentity>)
    requires SortedByNickname(s)
    ensures SortByNickname(s) == s
  {
    if s != [] {
      assert SortedByNickname(s[1..]) by {
        forall i, j | 0 <= i < j < |s| - 1 ensures NicknameNoLater(s[1..][i], s[1..][j]) {
          assert s[1..][i] == s[i + 1] && s[1..][j] == s[j + 1];
        }
      }
      SortByNicknameOfSorted(s[1..]);
      if |s| > 1 {
        assert NicknameNoLater(s[0], s[1]);
      }
      assert [s[0]] + s[1..] == s;
    }
  }
}
