/** Order-preserving removal of duplicates, the second loop of extract_board_outline. */
module Distinct {

  predicate NoDuplicates<T(==)>(s: seq<T>) {
    forall i, j :: 0 <= i < j < |s| ==> s[i] != s[j]
  }

  /** The distinct elements of s, each at the place of its first occurrence. */
  function Dedup<T(==)>(s: seq<T>): (r: seq<T>)
    ensures forall i :: 0 <= i < |r| ==> r[i] in s
    ensures forall i :: 0 <= i < |s| ==> s[i] in r
    ensures NoDuplicates(r)
  {
    if |s| == 0 then []
    else
      var d := Dedup(s[..|s| - 1]);
      if s[|s| - 1] in d then d else d + [s[|s| - 1]]
  }

  /** The index at which x first occurs in s. */
  function FirstIndex<T(==)>(s: seq<T>, x: T): (i: nat)
    requires x in s
    ensures i < |s| && s[i] == x && x !in s[..i]
  {
    if s[0] == x then 0 else 1 + FirstIndex(s[1..], x)
  }

  /** Appending to s does not move the first occurrence of an element already in s. */
  lemma FirstIndexAppend<T>(s: seq<T>, t: seq<T>, x: T)
    requires x in s
    ensures FirstIndex(s + t, x) == FirstIndex(s, x)
  {
    var i, j := FirstIndex(s + t, x), FirstIndex(s, x);
    assert forall m :: 0 <= m < i ==> (s + t)[m] != x by {
      forall m | 0 <= m < i
        ensures (s + t)[m] != x
      {
        assert (s + t)[..i][m] == (s + t)[m];
      }
    }
    assert forall m :: 0 <= m < j ==> s[m] != x by {
      forall m | 0 <= m < j
        ensures s[m] != x
      {
        assert s[..j][m] == s[m];
      }
    }
    assert (s + t)[j] == x;
  }

  lemma DedupSnoc<T>(s: seq<T>, x: T)
    ensures Dedup(s + [x]) == if x in Dedup(s) then Dedup(s) else Dedup(s) + [x]
  {
    assert (s + [x])[..|s|] == s;
  }

  lemma NoDuplicatesSnoc<T>(s: seq<T>, x: T)
    ensures NoDuplicates(s + [x]) <==> NoDuplicates(s) && x !in s
  {
    var t := s + [x];
    if NoDuplicates(t) {
      assert forall i, j :: 0 <= i < j < |s| ==> s[i] == t[i] && s[j] == t[j];
      assert forall k :: 0 <= k < |s| ==> s[k] == t[k] && t[k] != t[|s|];
    }
  }

  /** Dedup keeps a list that has no duplicates as it is. */
  lemma {:induction false} DedupOfDistinct<T>(s: seq<T>)
    requires NoDuplicates(s)
    ensures Dedup(s) == s
  {
    if |s| > 0 {
      var p, x := s[..|s| - 1], s[|s| - 1];
      assert s == p + [x];
      NoDuplicatesSnoc(p, x);
      DedupOfDistinct(p);
      DedupSnoc(p, x);
    }
  }

  /** Deduplicating twice is deduplicating once. */
  lemma DedupIdempotent<T>(s: seq<T>)
    ensures Dedup(Dedup(s)) == Dedup(s)
  {
    DedupOfDistinct(Dedup(s));
  }

  /** Dedup never lengthens a list, and keeps its length exactly when it has no duplicates. */
  lemma {:induction false} DedupLength<T>(s: seq<T>)
    ensures |Dedup(s)| <= |s|
    ensures |Dedup(s)| == |s| <==> NoDuplicates(s)
  {
    if |s| > 0 {
      var p, x := s[..|s| - 1], s[|s| - 1];
      assert s == p + [x];
      DedupLength(p);
      DedupSnoc(p, x);
      NoDuplicatesSnoc(p, x);
    }
  }

  /** Appending elements already present changes nothing. */
  lemma {:induction false} DedupAbsorbs<T>(s: seq<T>, t: seq<T>)
    requires forall x :: x in t ==> x in s
    ensures Dedup(s + t) == Dedup(s)
  {
    if |t| > 0 {
      var p, x := t[..|t| - 1], t[|t| - 1];
      assert t == p + [x];
      DedupAbsorbs(s, p);
      assert s + t == (s + p) + [x];
      assert x in t;
      var k :| 0 <= k < |s| && s[k] == x;
      assert (s + p)[k] == x;
      assert x in Dedup(s + p);
      DedupSnoc(s + p, x);
      assert Dedup(s + t) == Dedup((s + p) + [x]);
    } else {
      assert s + t == s;
    }
  }

  /** Feeding the same list twice gives the same result as feeding it once. */
  lemma DedupSelfConcat<T>(s: seq<T>)
    ensures Dedup(s + s) == Dedup(s)
  {
    DedupAbsorbs(s, s);
  }

  /** The elements of r appear in the order of their first occurrences in s. */
  predicate InFirstOccurrenceOrder<T(==)>(r: seq<T>, s: seq<T>)
    requires forall i :: 0 <= i < |r| ==> r[i] in s
  {
    forall i, j :: 0 <= i < j < |r| ==> FirstIndex(s, r[i]) < FirstIndex(s, r[j])
  }

  lemma {:induction false} DedupOrder<T>(s: seq<T>)
    ensures InFirstOccurrenceOrder(Dedup(s), s)
  {
    if |s| > 0 {
      var p, x := s[..|s| - 1], s[|s| - 1];
      assert s == p + [x];
      DedupOrder(p);
      DedupSnoc(p, x);
      var d, r := Dedup(p), Dedup(s);
      forall y | y in p
        ensures FirstIndex(s, y) == FirstIndex(p, y)
      {
        FirstIndexAppend(p, [x], y);
      }
      if x !in p {
        assert FirstIndex(s, x) == |p|;
      }
    }
  }

  lemma FirstIndexSnoc<T>(p: seq<T>, x: T)
    ensures forall y :: y in p ==> FirstIndex(p + [x], y) == FirstIndex(p, y)
    ensures x !in p ==> FirstIndex(p + [x], x) == |p|
  {
    forall y | y in p
      ensures FirstIndex(p + [x], y) == FirstIndex(p, y)
    {
      FirstIndexAppend(p, [x], y);
    }
  }

  lemma OrderRestrict<T>(r: seq<T>, p: seq<T>, x: T)
    requires forall i :: 0 <= i < |r| ==> r[i] in p
    requires forall i :: 0 <= i < |r| ==> r[i] in p + [x]
    requires InFirstOccurrenceOrder(r, p + [x])
    ensures InFirstOccurrenceOrder(r, p)
  {
    FirstIndexSnoc(p, x);
  }

  /** An element that occurs first after all others must come last. */
  lemma NewElementIsLast<T>(r: seq<T>, p: seq<T>, x: T, k: nat)
    requires x !in p && k < |r| && r[k] == x
    requires forall i :: 0 <= i < |r| ==> r[i] in p + [x]
    requires NoDuplicates(r)
    requires InFirstOccurrenceOrder(r, p + [x])
    ensures k == |r| - 1
  {
    FirstIndexSnoc(p, x);
    var last := |r| - 1;
    assert FirstIndex(p + [x], r[k]) == |p|;
    assert FirstIndex(p + [x], r[last]) <= |p|;
  }

  lemma DropLast<T>(q: seq<T>, p: seq<T>, x: T)
    requires x !in p
    requires NoDuplicates(q + [x])
    requires forall y :: y in q + [x] <==> y in p + [x]
    ensures forall y :: y in q <==> y in p
  {
    NoDuplicatesSnoc(q, x);
    forall y
      ensures y in q <==> y in p
    {
      assert y in q ==> y in q + [x];
      assert y in p ==> y in p + [x];
    }
  }

  lemma OrderDropLast<T>(r: seq<T>, s: seq<T>, q: seq<T>)
    requires |r| > 0 && q == r[..|r| - 1]
    requires forall i :: 0 <= i < |r| ==> r[i] in s
    requires InFirstOccurrenceOrder(r, s)
    ensures forall i :: 0 <= i < |q| ==> q[i] in s
    ensures InFirstOccurrenceOrder(q, s)
  {
    assert forall i :: 0 <= i < |q| ==> q[i] == r[i];
    forall i, j | 0 <= i < j < |q|
      ensures FirstIndex(s, q[i]) < FirstIndex(s, q[j])
    {
      assert q[i] == r[i] && q[j] == r[j];
    }
  }

  lemma EmptyWithoutMembers<T>(r: seq<T>)
    ensures (forall x :: x !in r) ==> r == []
  {
    if r != [] {
      assert r[0] in r;
    }
  }

  /**
   * Dedup is the only list without duplicates that has the elements of s in the
   * order of their first occurrences: an independent description of its result.
   */
  lemma {:induction false} DedupCharacterized<T>(s: seq<T>, r: seq<T>)
    requires NoDuplicates(r)
    requires forall x :: x in r <==> x in s
    requires InFirstOccurrenceOrder(r, s)
    ensures r == Dedup(s)
    decreases |s|, 1
  {
    if |s| == 0 {
      EmptyWithoutMembers(r);
    } else {
      var p, x := s[..|s| - 1], s[|s| - 1];
      assert s == p + [x];
      DedupSnoc(p, x);
      if x in p {
        CharacterizedOld(p, x, r);
      } else {
        CharacterizedNew(p, x, r);
      }
    }
  }

  lemma {:induction false} CharacterizedOld<T>(p: seq<T>, x: T, r: seq<T>)
    requires x in p
    requires NoDuplicates(r)
    requires forall y :: y in r <==> y in p + [x]
    requires InFirstOccurrenceOrder(r, p + [x])
    ensures r == Dedup(p)
    decreases |p| + 1, 0
  {
    assert forall y :: y in r <==> y in p;
    OrderRestrict(r, p, x);
    DedupCharacterized(p, r);
  }

  lemma {:induction false} CharacterizedNew<T>(p: seq<T>, x: T, r: seq<T>)
    requires x !in p
    requires NoDuplicates(r)
    requires forall y :: y in r <==> y in p + [x]
    requires InFirstOccurrenceOrder(r, p + [x])
    ensures r == Dedup(p) + [x]
    decreases |p| + 1, 0
  {
    assert x in p + [x];
    var k :| 0 <= k < |r| && r[k] == x;
    NewElementIsLast(r, p, x, k);
    var q := r[..|r| - 1];
    assert r == q + [x];
    DropLast(q, p, x);
    NoDuplicatesSnoc(q, x);
    OrderDropLast(r, p + [x], q);
    OrderRestrict(q, p, x);
    DedupCharacterized(p, q);
  }
}
