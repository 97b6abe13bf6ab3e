/**
  When the search for duplicate parameters, which compares neighbours of a sorted list only, is sure to
  find one: the sort leaves names that count as equal in any order.
*/
module Duplicates {
  import opened Parameters

  predicate Precedes(a: Name, b: Name) {
    Less(Tokens(a), Tokens(b))
  }

  /** Two names count as equal. */
  predicate Alike(a: Name, b: Name) {
    Tokens(a) == Tokens(b)
  }

  lemma PrecedesFacts(a: Name, b: Name)
    ensures Precedes(a, b) || Alike(a, b) || Precedes(b, a)
    ensures !Precedes(a, a) && !(Precedes(a, b) && Precedes(b, a))
    ensures Alike(a, b) ==> !Precedes(a, b)
  {
    hide Tokens;
    LessTotal(Tokens(a), Tokens(b));
    LessIrreflexive(Tokens(a));
    if Precedes(a, b) && Precedes(b, a) {
      LessTrans(Tokens(a), Tokens(b), Tokens(a));
    }
  }

  lemma PrecedesTrans(a: Name, b: Name, c: Name)
    requires !Precedes(b, a) && !Precedes(c, b)
    ensures !Precedes(c, a)
    ensures Alike(a, c) ==> Alike(a, b)
  {
    hide Tokens, Less;
    PrecedesFacts(a, b);
    PrecedesFacts(b, c);
    PrecedesFacts(a, c);
    if Precedes(c, a) {
      if Precedes(a, b) {
        LessTrans(Tokens(c), Tokens(a), Tokens(b));
      }
    }
    if Precedes(a, b) && Precedes(b, c) {
      LessTrans(Tokens(a), Tokens(b), Tokens(c));
    }
  }

  // ---------------------------------------------------------------------------------------------
  // Counting

  function Copies(s: seq<Name>, a: Name): nat {
    multiset(s)[a]
  }

  /** How many names of the list count as equal to `a`. */
  function AlikeTo(s: seq<Name>, a: Name): nat {
    if s == [] then 0 else AlikeTo(s[..|s| - 1], a) + if Alike(s[|s| - 1], a) then 1 else 0
  }

  lemma CopiesNext(s: seq<Name>, a: Name)
    requires s != []
    ensures Copies(s, a) == Copies(s[..|s| - 1], a) + if s[|s| - 1] == a then 1 else 0
  {
    assert s == s[..|s| - 1] + [s[|s| - 1]];
  }

  lemma {:induction false} AlikeConcat(s: seq<Name>, t: seq<Name>, a: Name)
    ensures AlikeTo(s + t, a) == AlikeTo(s, a) + AlikeTo(t, a)
  {
    hide Alike;
    if t == [] {
      assert s + t == s;
    } else {
      assert (s + t)[..|s + t| - 1] == s + t[..|t| - 1];
      AlikeConcat(s, t[..|t| - 1], a);
    }
  }

  /** The list without its `k`th name. */
  function Without(s: seq<Name>, k: nat): (r: seq<Name>)
    requires k < |s|
    ensures |r| == |s| - 1
    ensures forall i :: 0 <= i < |r| ==> r[i] in s
  {
    s[..k] + s[k + 1..]
  }

  lemma WithoutCounts(s: seq<Name>, k: nat, a: Name)
    requires k < |s|
    ensures multiset(Without(s, k)) + multiset{s[k]} == multiset(s)
    ensures Copies(Without(s, k), a) == Copies(s, a) - if s[k] == a then 1 else 0
    ensures AlikeTo(Without(s, k), a) == AlikeTo(s, a) - if Alike(s[k], a) then 1 else 0
  {
    hide Alike;
    assert s == s[..k] + ([s[k]] + s[k + 1..]);
    AlikeConcat(s[..k], [s[k]] + s[k + 1..], a);
    AlikeConcat([s[k]], s[k + 1..], a);
    AlikeConcat(s[..k], s[k + 1..], a);
    assert [s[k]][..0] == [];
  }

  /** The number does not depend on the order of the list. */
  lemma {:induction false} AlikePermuted(s: seq<Name>, t: seq<Name>, a: Name)
    requires multiset(s) == multiset(t)
    ensures AlikeTo(s, a) == AlikeTo(t, a)
    decreases |s|
  {
    hide Alike, Without;
    if s == [] {
      assert |multiset(t)| == 0;
    } else {
      var n := |s| - 1;
      assert s[n] in multiset(s);
      var k :| 0 <= k < |t| && t[k] == s[n];
      WithoutCounts(s, n, a);
      WithoutCounts(t, k, a);
      assert multiset(Without(s, n)) == multiset(s) - multiset{s[n]};
      assert multiset(Without(t, k)) == multiset(t) - multiset{t[k]};
      AlikePermuted(Without(s, n), Without(t, k), a);
    }
  }

  lemma {:induction false} TwoNames(s: seq<Name>, a: Name, b: Name)
    requires Alike(a, b)
    ensures a != b ==> Copies(s, a) + Copies(s, b) <= AlikeTo(s, a)
    ensures Copies(s, a) <= AlikeTo(s, a) == AlikeTo(s, b)
  {
    hide Tokens;
    if s != [] {
      CopiesNext(s, a);
      CopiesNext(s, b);
      TwoNames(s[..|s| - 1], a, b);
    }
  }

  /** If not all names that count as equal to `a` are copies of it, there is another one. */
  lemma {:induction false} FindOther(s: seq<Name>, a: Name) returns (k: nat)
    requires Copies(s, a) < AlikeTo(s, a)
    ensures k < |s| && Alike(s[k], a) && s[k] != a
  {
    hide Tokens;
    var n := |s| - 1;
    CopiesNext(s, a);
    if Alike(s[n], a) && s[n] != a {
      k := n;
    } else {
      k := FindOther(s[..n], a);
    }
  }

  lemma {:induction false} First(s: seq<Name>) returns (i: nat)
    requires s != []
    ensures i < |s| && forall j :: 0 <= j < |s| ==> !Precedes(s[j], s[i])
  {
    var n := |s| - 1;
    if n == 0 {
      i := 0;
      PrecedesFacts(s[0], s[0]);
    } else {
      i := First(s[..n]);
      PrecedesFacts(s[i], s[n]);
      hide Precedes, Alike;
      if Precedes(s[n], s[i]) {
        forall j | 0 <= j < n
          ensures !Precedes(s[j], s[n])
        {
          assert s[..n][j] == s[j];
          PrecedesTrans(s[n], s[i], s[j]);
        }
        PrecedesFacts(s[n], s[n]);
        i := n;
      } else {
        assert forall j :: 0 <= j < n ==> s[..n][j] == s[j];
      }
    }
  }

  // ---------------------------------------------------------------------------------------------
  // A sorted list in which no two neighbours are equal

  /** No name makes up more than half of the names that count as equal to it, rounded up. */
  ghost predicate Spread(s: seq<Name>) {
    forall a :: a in s ==> 2 * Copies(s, a) <= AlikeTo(s, a) + 1
  }

  ghost predicate Ordered(t: seq<Name>) {
    forall i, j :: 0 <= i < j < |t| ==> !Precedes(t[j], t[i])
  }

  /** `last` may stand before the list: it is not too frequent in it, and nothing in it comes earlier. */
  ghost predicate MayFollow(s: seq<Name>, last: Name) {
    && 2 * Copies(s, last) <= AlikeTo(s, last)
    && forall i :: 0 <= i < |s| ==> !Precedes(s[i], last)
  }

  /**
    The next name to place: one of the earliest, not the last one placed, and the one that is most frequent if
    it must be.
  */
  lemma NextName(s: seq<Name>, first: bool, last: Name) returns (k: nat)
    requires s != [] && Spread(s) && (first || MayFollow(s, last))
    ensures k < |s| && (first || s[k] != last)
    ensures forall j :: 0 <= j < |s| ==> !Precedes(s[j], s[k])
    ensures Spread(Without(s, k)) && MayFollow(Without(s, k), s[k])
  {
    var i := First(s);
    hide Tokens, Precedes, Less;
    if tight: nat :| tight < |s| && Alike(s[tight], s[i]) && 2 * Copies(s, s[tight]) == AlikeTo(s, s[tight]) + 1 {
      k := tight;
    } else if first || !Alike(s[i], last) {
      k := i;
    } else {
      TwoNames(s, last, last);
      AlikeCounts(s, i, last);
      k := FindOther(s, last);
    }
    AlikePrecedes(s, s[i], s[k]);
    StaysSpread(s, k);
  }

  lemma AlikeCounts(s: seq<Name>, i: nat, a: Name)
    requires i < |s| && Alike(s[i], a)
    ensures AlikeTo(s, a) > 0
  {
    hide Alike;
    WithoutCounts(s, i, a);
  }

  lemma AlikePrecedes(s: seq<Name>, a: Name, b: Name)
    requires Alike(a, b) && forall j :: 0 <= j < |s| ==> !Precedes(s[j], a)
    ensures forall j :: 0 <= j < |s| ==> !Precedes(s[j], b)
  {
  }

  /** Taking a name away keeps the rest spread if no other name that counts as equal to it is at its limit. */
  lemma StaysSpread(s: seq<Name>, k: nat)
    requires k < |s| && Spread(s)
    requires forall j :: 0 <= j < |s| ==> !Precedes(s[j], s[k])
    requires 2 * Copies(s, s[k]) == AlikeTo(s, s[k]) + 1 ||
      forall j: nat :: j < |s| && Alike(s[j], s[k]) ==> 2 * Copies(s, s[j]) <= AlikeTo(s, s[j])
    ensures Spread(Without(s, k)) && MayFollow(Without(s, k), s[k])
  {
    hide Tokens, Precedes, Less;
    var r, x := Without(s, k), s[k];
    WithoutCounts(s, k, x);
    assert forall i :: 0 <= i < |r| ==> r[i] in s;
    forall a | a in r
      ensures 2 * Copies(r, a) <= AlikeTo(r, a) + 1
    {
      WithoutCounts(s, k, a);
      assert a in s;
      if Alike(x, a) && a != x {
        TwoNames(s, a, x);
        assert exists j: nat :: j < |s| && s[j] == a;
      }
    }
  }

  lemma {:induction false} Arrange(s: seq<Name>, first: bool, last: Name) returns (t: seq<Name>)
    requires Spread(s) && (first || MayFollow(s, last))
    ensures multiset(t) == multiset(s) && Ordered(t) && !AdjacentDuplicate(t)
    ensures !first && t != [] ==> t[0] != last
    decreases |s|
  {
    hide Copies, AlikeTo, Precedes, Alike, Spread, MayFollow, Ordered, AdjacentDuplicate;
    if s == [] {
      t := [];
      NothingToArrange();
    } else {
      var k := NextName(s, first, last);
      var rest := Arrange(Without(s, k), false, s[k]);
      t := [s[k]] + rest;
      PutFirst(s, k, rest);
    }
  }

  lemma NothingToArrange()
    ensures Ordered([]) && !AdjacentDuplicate([])
  {
  }

  lemma PutFirst(s: seq<Name>, k: nat, rest: seq<Name>)
    requires k < |s| && multiset(rest) == multiset(Without(s, k))
    requires forall j :: 0 <= j < |s| ==> !Precedes(s[j], s[k])
    requires Ordered(rest) && !AdjacentDuplicate(rest) && (rest != [] ==> rest[0] != s[k])
    ensures var t := [s[k]] + rest; multiset(t) == multiset(s) && Ordered(t) && !AdjacentDuplicate(t)
  {
    hide Copies, AlikeTo, Precedes, Alike, Without;
    WithoutCounts(s, k, s[k]);
    forall j | 0 <= j < |rest|
      ensures !Precedes(rest[j], s[k])
    {
      assert rest[j] in multiset(rest);
      assert rest[j] in multiset(s);
    }
  }

  // ---------------------------------------------------------------------------------------------
  // A name that is too frequent has two copies side by side

  /**
    The first `n` names of a sorted list without equal neighbours hold hardly more copies of `a` than other
    names like it.
  */
  lemma {:induction false} CopiesApart(t: seq<Name>, a: Name, n: nat)
    requires Ordered(t) && !AdjacentDuplicate(t) && n <= |t|
    ensures 2 * Copies(t[..n], a) <= AlikeTo(t[..n], a) + 1
    ensures n == 0 || (t[n - 1] != a && !Precedes(a, t[n - 1])) ==> 2 * Copies(t[..n], a) <= AlikeTo(t[..n], a)
  {
    hide Tokens, Precedes;
    if n > 0 {
      CopiesApart(t, a, n - 1);
      assert t[..n][..n - 1] == t[..n - 1];
      CopiesNext(t[..n], a);
      PrecedesFacts(t[n - 1], a);
      PrecedesFacts(a, a);
      if n > 1 {
        assert !Precedes(t[n - 1], t[n - 2]) && t[n - 2] != t[n - 1];
        if !Precedes(a, t[n - 1]) {
          PrecedesTrans(t[n - 2], t[n - 1], a);
        }
      }
    }
  }

  /** What a sort may leave of a list of names. */
  ghost predicate IsSortingOf(names: seq<Name>, t: seq<Name>) {
    multiset(t) == multiset(names) && Sorted(t)
  }

  /** However the sort leaves the names that count as equal, two neighbours are equal. */
  ghost predicate AlwaysFound(names: seq<Name>) {
    forall t :: IsSortingOf(names, t) ==> AdjacentDuplicate(t)
  }

  /** Two names count as equal when the comparison says so. */
  lemma AlikeMeansEqual(a: Name, b: Name)
    requires Judged({a, b})
    ensures Alike(a, b) <==> NameCmp(a, b) == 0
    ensures Precedes(a, b) <==> NameCmp(a, b) < 0
  {
    hide Tokens, Misjudged, Less, Cmp;
    CmpIsOrderIff(Tokens(a), Tokens(b));
  }

  lemma SortedMeansOrdered(t: seq<Name>)
    requires Judged(Elems(t))
    ensures Sorted(t) <==> Ordered(t)
  {
    hide Tokens, Misjudged, Less, Cmp;
    forall i, j | 0 <= i < j < |t|
      ensures NameCmp(t[i], t[j]) <= 0 <==> !Precedes(t[j], t[i])
    {
      CmpIsOrderIff(Tokens(t[i]), Tokens(t[j]));
      PrecedesFacts(t[i], t[j]);
    }
  }

  lemma SameElems(s: seq<Name>, t: seq<Name>)
    requires multiset(s) == multiset(t)
    ensures Elems(s) == Elems(t)
  {
    assert forall a :: a in s <==> a in multiset(s);
    assert forall a :: a in t <==> a in multiset(t);
  }

  /**
    A duplicate is found in every sorted arrangement exactly when some name makes up more than half, rounded
    up, of the names that count as equal to it.
  */
  lemma AlwaysFoundIff(names: seq<Name>)
    requires Judged(Elems(names))
    ensures AlwaysFound(names) <==> exists a :: a in names && 2 * Copies(names, a) > AlikeTo(names, a) + 1
  {
    hide Copies, AlikeTo, Tokens, Judged, Sorted, Ordered, AdjacentDuplicate;
    if Spread(names) {
      var t := Arrange(names, true, []);
      SameElems(names, t);
      SortedMeansOrdered(t);
      assert IsSortingOf(names, t);
    } else {
      var a :| a in names && 2 * Copies(names, a) > AlikeTo(names, a) + 1;
      forall t | IsSortingOf(names, t)
        ensures AdjacentDuplicate(t)
      {
        TooFrequent(names, a, t);
      }
    }
  }

  lemma TooFrequent(names: seq<Name>, a: Name, t: seq<Name>)
    requires Judged(Elems(names)) && 2 * Copies(names, a) > AlikeTo(names, a) + 1 && IsSortingOf(names, t)
    ensures AdjacentDuplicate(t)
  {
    hide AlikeTo, Tokens, Judged, Sorted, Ordered, AdjacentDuplicate;
    SameElems(names, t);
    SortedMeansOrdered(t);
    AlikePermuted(names, t, a);
    assert t[..|t|] == t;
    if !AdjacentDuplicate(t) {
      CopiesApart(t, a, |t|);
    }
  }

  lemma TwoPlaces(s: seq<Name>, i: nat, j: nat)
    requires i < j < |s| && s[i] == s[j]
    ensures Copies(s, s[i]) >= 2
  {
    assert s == s[..j] + s[j..];
    assert s[..j][i] == s[i] && s[j..][0] == s[i];
  }

  lemma {:induction false} TwoCopies(s: seq<Name>, a: Name) returns (i: nat, j: nat)
    requires Copies(s, a) >= 2
    ensures i < j < |s| && s[i] == s[j] == a
  {
    j := |s| - 1;
    CopiesNext(s, a);
    if s[j] == a {
      assert a in s[..j];
      i :| i < j && s[..j][i] == a;
    } else {
      i, j := TwoCopies(s[..j], a);
    }
  }

  /** What the code reports is right whatever the sort leaves. */
  ghost predicate AlwaysRight(names: seq<Name>) {
    forall t :: IsSortingOf(names, t) ==> (AdjacentDuplicate(t) <==> HasDuplicate(names))
  }

  /**
    It is right exactly for names without duplicates and for names with a duplicate that is too frequent to be
    hidden.
  */
  lemma AlwaysRightIff(names: seq<Name>)
    requires Judged(Elems(names))
    ensures AlwaysRight(names) <==>
      !HasDuplicate(names) || exists a :: a in names && 2 * Copies(names, a) > AlikeTo(names, a) + 1
  {
    hide AlikeTo, Tokens, Judged, Sorted, Copies;
    AlwaysFoundIff(names);
    hide AdjacentDuplicate, HasDuplicate;
    forall t | IsSortingOf(names, t) && AdjacentDuplicate(t)
      ensures HasDuplicate(names)
    {
      NeighboursAreCopies(names, t);
    }
  }

  lemma NeighboursAreCopies(names: seq<Name>, t: seq<Name>)
    requires multiset(t) == multiset(names) && AdjacentDuplicate(t)
    ensures HasDuplicate(names)
  {
    var k: nat :| k + 1 < |t| && t[k] == t[k + 1];
    TwoPlaces(t, k, k + 1);
    var i, j := TwoCopies(names, t[k]);
  }
}
