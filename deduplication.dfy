/**
 * Exact-duplicate removal as pandas' `drop_duplicates()` does it with its
 * defaults: two rows are duplicates when every cell is equal (missing cells
 * compare equal to each other), the first occurrence is kept, and the rows
 * that remain stay in their original order.
 */
module Deduplication {

  /** No element occurs twice. */
  predicate NoDuplicates<T(==)>(s: seq<T>) {
    forall i, j :: 0 <= i < j < |s| ==> s[i] != s[j]
  }

  /**
   * The rows of `s` that do not equal an earlier row, in order. Rows are
   * only removed, and the first row always survives at the front.
   */
  function Dedup<T(==)>(s: seq<T>): (r: seq<T>)
    ensures |r| <= |s|
    ensures s != [] ==> r != [] && r[0] == s[0]
  {
    if s == [] then []
    else
      var init := s[..|s| - 1];
      Dedup(init) + (if s[|s| - 1] in init then [] else [s[|s| - 1]])
  }

  /** The position of the first occurrence of `x` in `s`. */
  function FirstIndex<T(==)>(s: seq<T>, x: T): (k: nat)
    requires x in s
    ensures k < |s| && s[k] == x && x !in s[..k]
  {
    if s[0] == x then 0
    else
      var k := 1 + FirstIndex(s[1..], x);
      assert s[..k] == [s[0]] + s[1..][..k - 1];
      k
  }

  /** How many rows equal an earlier row: the rows `drop_duplicates` removes. */
  function DuplicateCount<T(==)>(s: seq<T>): nat {
    if s == [] then 0
    else DuplicateCount(s[..|s| - 1]) + (if s[|s| - 1] in s[..|s| - 1] then 1 else 0)
  }

  /**
   * The loop behind `drop_duplicates`: walk the rows once, remembering the
   * rows already seen, and keep a row only the first time it appears.
   */
  method DropDuplicates<T(==)>(rows: seq<T>) returns (unique: seq<T>)
    ensures unique == Dedup(rows)
  {
    unique := [];
    var seen: set<T> := {};
    for i := 0 to |rows|
      invariant unique == Dedup(rows[..i])
      invariant forall x :: x in seen <==> x in rows[..i]
    {
      assert rows[..i + 1][..i] == rows[..i];
      assert rows[..i + 1] == rows[..i] + [rows[i]];
      if rows[i] !in seen {
        unique := unique + [rows[i]];
        seen := seen + {rows[i]};
      }
    }
    assert rows[..|rows|] == rows;
  }

  /** The output holds exactly the rows of the input: every input row survives in one copy. */
  lemma {:induction false} DedupSameRows<T>(s: seq<T>)
    ensures forall x :: x in Dedup(s) <==> x in s
  {
    if s != [] {
      var init := s[..|s| - 1];
      DedupSameRows(init);
      assert s == init + [s[|s| - 1]];
    }
  }

  /** No two output rows are equal. */
  lemma {:induction false} DedupNoDuplicates<T>(s: seq<T>)
    ensures NoDuplicates(Dedup(s))
  {
    if s != [] {
      var init := s[..|s| - 1];
      DedupNoDuplicates(init);
      DedupSameRows(init);
    }
  }

  /** The output keeps each row at its first occurrence: its rows are in order of first appearance. */
  lemma {:induction false} DedupFirstOccurrenceOrder<T>(s: seq<T>)
    ensures forall x :: x in Dedup(s) ==> x in s
    ensures forall i, j :: 0 <= i < j < |Dedup(s)| ==> FirstIndex(s, Dedup(s)[i]) < FirstIndex(s, Dedup(s)[j])
  {
    DedupSameRows(s);
    if s != [] {
      var init := s[..|s| - 1];
      var last := s[|s| - 1];
      var d := Dedup(s);
      var d0 := Dedup(init);
      DedupFirstOccurrenceOrder(init);
      DedupSameRows(init);
      assert s == init + [last];
      assert d[..|d0|] == d0;
      forall i, j | 0 <= i < j < |d| ensures FirstIndex(s, d[i]) < FirstIndex(s, d[j]) {
        assert d[i] == d0[i];
        FirstIndexPrefix(init, [last], d[i]);
        if j < |d0| {
          assert d[j] == d0[j];
          FirstIndexPrefix(init, [last], d[j]);
        } else {
          assert d[j] == last && last !in init;
        }
      }
    }
  }

  /** Appending rows does not move the first occurrence of a row already present. */
  lemma {:induction false} FirstIndexPrefix<T>(a: seq<T>, b: seq<T>, x: T)
    requires x in a
    ensures FirstIndex(a + b, x) == FirstIndex(a, x)
  {
    if a[0] != x {
      assert (a + b)[1..] == a[1..] + b;
      FirstIndexPrefix(a[1..], b, x);
    }
  }

  /** Rows are only ever removed; nothing is removed when there are no duplicates, and only then. */
  lemma {:induction false} DedupLength<T>(s: seq<T>)
    ensures |Dedup(s)| + DuplicateCount(s) == |s|
    ensures |Dedup(s)| <= |s|
    ensures NoDuplicates(s) <==> Dedup(s) == s
  {
    if s != [] {
      var init := s[..|s| - 1];
      var last := s[|s| - 1];
      DedupLength(init);
      DedupNoDuplicates(s);
      assert s == init + [last];
      if NoDuplicates(s) {
        assert NoDuplicates(init);
      }
    }
  }

  /** Dropping duplicates twice is dropping them once. */
  lemma DedupIdempotent<T>(s: seq<T>)
    ensures Dedup(Dedup(s)) == Dedup(s)
  {
    DedupNoDuplicates(s);
    DedupLength(Dedup(s));
  }

  /** A sequence ordered by first appearance in `s` has each element's first index strictly increasing. */
  ghost predicate OrderedByFirstIndex<T>(s: seq<T>, t: seq<T>)
    requires forall x :: x in t ==> x in s
  {
    forall i, j :: 0 <= i < j < |t| ==> FirstIndex(s, t[i]) < FirstIndex(s, t[j])
  }

  /**
   * The three properties above pin the output down: any duplicate-free
   * sequence with the same rows, in order of first appearance, is `Dedup(s)`.
   */
  lemma {:induction false} DedupUnique<T>(s: seq<T>, t: seq<T>)
    requires NoDuplicates(t)
    requires forall x :: x in t <==> x in s
    requires OrderedByFirstIndex(s, t)
    ensures t == Dedup(s)
  {
    if s == [] {
      if t != [] {
        FirstIsMember(t);
        assert false;
      }
    } else {
      var init := s[..|s| - 1];
      var last := s[|s| - 1];
      assert s == init + [last];
      if last in init {
        forall x ensures x in t <==> x in init {
          assert x in s <==> x in init || x == last;
        }
        OrderedOnPrefix(init, last, t);
        DedupUnique(init, t);
      } else {
        NewRowIsLast(s, t);
        var front := t[..|t| - 1];
        assert t == front + [last];
        forall x ensures x in front <==> x in init {
          assert x in s <==> x in init || x == last;
          assert x in t <==> x in front || x == last;
        }
        assert OrderedByFirstIndex(s, front);
        OrderedOnPrefix(init, last, front);
        DedupUnique(init, front);
      }
    }
  }

  /** The first element of a non-empty sequence is one of its members. */
  lemma FirstIsMember<T>(t: seq<T>)
    requires t != []
    ensures t[0] in t
  {
  }

  /** The ordering by first index in `init + [last]` and in `init` agree on rows of `init`. */
  lemma OrderedOnPrefix<T>(init: seq<T>, last: T, t: seq<T>)
    requires forall x :: x in t ==> x in init
    requires OrderedByFirstIndex(init + [last], t)
    ensures OrderedByFirstIndex(init, t)
  {
    forall x | x in init ensures FirstIndex(init + [last], x) == FirstIndex(init, x) {
      FirstIndexPrefix(init, [last], x);
    }
  }

  /** A row that appears for the first time at the end of `s` comes last in any such ordering. */
  lemma NewRowIsLast<T>(s: seq<T>, t: seq<T>)
    requires s != [] && s[|s| - 1] !in s[..|s| - 1]
    requires forall x :: x in t <==> x in s
    requires OrderedByFirstIndex(s, t)
    ensures t != [] && t[|t| - 1] == s[|s| - 1]
  {
    var last := s[|s| - 1];
    assert last in t;
    assert FirstIndex(s, last) == |s| - 1;
    var k :| 0 <= k < |t| && t[k] == last;
  }
}
