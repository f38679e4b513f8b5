/**
 * Operations on sequences of expenses shared by the routes and the client:
 * ordering by creation time, newest first, and removing by id.
 */
module ExpenseLists {
  import opened Wrappers
  import opened ExpenseSchema

  /** Ordered by `createdAt`, descending (ties in any order). */
  predicate NewestFirst(s: seq<Expense>) {
    forall i, j :: 0 <= i < j < |s| ==> s[i].createdAt >= s[j].createdAt
  }

  /** Ordered by `createdAt`, strictly descending. */
  predicate StrictlyNewestFirst(s: seq<Expense>) {
    forall i, j :: 0 <= i < j < |s| ==> s[i].createdAt > s[j].createdAt
  }

  /** Places `e` before the first element not newer than it. */
  function InsertNewestFirst(e: Expense, s: seq<Expense>): (r: seq<Expense>)
    ensures multiset(r) == multiset(s) + multiset{e}
    ensures NewestFirst(s) ==> NewestFirst(r)
    decreases |s|
  {
    if s == [] || e.createdAt >= s[0].createdAt then
      [e] + s
    else
      var rest := InsertNewestFirst(e, s[1..]);
      InsertBelowHead(e, s, rest);
      [s[0]] + rest
  }

  lemma InsertBelowHead(e: Expense, s: seq<Expense>, rest: seq<Expense>)
    requires s != [] && e.createdAt < s[0].createdAt
    requires multiset(rest) == multiset(s[1..]) + multiset{e}
    requires NewestFirst(s) ==> NewestFirst(rest)
    ensures multiset([s[0]] + rest) == multiset(s) + multiset{e}
    ensures NewestFirst(s) ==> NewestFirst([s[0]] + rest)
  {
    assert s == [s[0]] + s[1..];
    if NewestFirst(s) {
      forall x | x in rest
        ensures x.createdAt <= s[0].createdAt
      {
        assert x in multiset(rest);
        if x != e {
          assert x in multiset(s[1..]);
          var k :| 0 <= k < |s[1..]| && s[1..][k] == x;
          assert s[k + 1] == x;
        }
      }
      PrependNewest(s[0], rest);
    }
  }

  lemma PrependNewest(h: Expense, t: seq<Expense>)
    requires NewestFirst(t)
    requires forall x :: x in t ==> x.createdAt <= h.createdAt
    ensures NewestFirst([h] + t)
  {
    forall i, j | 0 <= i < j < |[h] + t|
      ensures ([h] + t)[i].createdAt >= ([h] + t)[j].createdAt
    {
      if i == 0 {
        assert ([h] + t)[j] == t[j - 1];
        assert t[j - 1] in t;
      }
    }
  }

  /** The collection sorted on `createdAt` descending: the same records, newest first. */
  function SortNewestFirst(s: seq<Expense>): (r: seq<Expense>)
    ensures multiset(r) == multiset(s)
    ensures NewestFirst(r)
    decreases |s|
  {
    if s == [] then []
    else
      assert s == [s[0]] + s[1..];
      InsertNewestFirst(s[0], SortNewestFirst(s[1..]))
  }

  /** Ordered by `createdAt`, strictly ascending: the order records are inserted in. */
  predicate StrictlyOldestFirst(s: seq<Expense>) {
    forall i, j :: 0 <= i < j < |s| ==> s[i].createdAt < s[j].createdAt
  }

  function Reverse(s: seq<Expense>): (r: seq<Expense>)
    ensures |r| == |s|
    ensures forall i :: 0 <= i < |s| ==> r[i] == s[|s| - 1 - i]
    decreases |s|
  {
    if s == [] then [] else Reverse(s[1..]) + [s[0]]
  }

  /** Reversing a list with one more record at the end puts that record first. */
  lemma ReverseSnoc(s: seq<Expense>, e: Expense)
    ensures Reverse(s + [e]) == [e] + Reverse(s)
  {
  }

  lemma {:induction false} ReverseMultiset(s: seq<Expense>)
    ensures multiset(Reverse(s)) == multiset(s)
    decreases |s|
  {
    if s != [] {
      ReverseMultiset(s[1..]);
      assert s == [s[0]] + s[1..];
    }
  }

  /**
   * Sorting is determined by its result: two orderings of the same records
   * newest first are equal when the creation times are distinct.
   */
  lemma {:induction false} NewestFirstUnique(a: seq<Expense>, b: seq<Expense>)
    requires StrictlyNewestFirst(a) && NewestFirst(b)
    requires multiset(a) == multiset(b)
    ensures a == b
    decreases |a|
  {
    if a == [] {
      assert |b| == |multiset(b)| == 0;
    } else {
      NewestFirstSameHead(a, b);
      assert a == [a[0]] + a[1..];
      assert b == [b[0]] + b[1..];
      assert multiset(a[1..]) == multiset(a) - multiset{a[0]};
      assert multiset(b[1..]) == multiset(b) - multiset{b[0]};
      assert multiset(a[1..]) == multiset(b[1..]);
      NewestFirstUnique(a[1..], b[1..]);
    }
  }

  lemma NewestFirstSameHead(a: seq<Expense>, b: seq<Expense>)
    requires a != []
    requires StrictlyNewestFirst(a) && NewestFirst(b)
    requires multiset(a) == multiset(b)
    ensures b != [] && a[0] == b[0]
  {
    assert a[0] in multiset(b);
    assert b[0] in multiset(a);
    var k :| 0 <= k < |b| && b[k] == a[0];
    var m :| 0 <= m < |a| && a[m] == b[0];
    assert b[0].createdAt >= b[k].createdAt;
    assert m == 0;
  }

  /** Records kept in insertion order come out of the sort exactly reversed. */
  lemma SortOfInsertionOrder(s: seq<Expense>)
    requires StrictlyOldestFirst(s)
    ensures SortNewestFirst(s) == Reverse(s)
    ensures StrictlyNewestFirst(SortNewestFirst(s))
  {
    ReverseMultiset(s);
    NewestFirstUnique(Reverse(s), SortNewestFirst(s));
  }

  /** The ids present in `s`. */
  function Ids(s: seq<Expense>): set<nat> {
    set x | x in s :: x.id
  }

  predicate UniqueIds(s: seq<Expense>) {
    forall i, j :: 0 <= i < j < |s| ==> s[i].id != s[j].id
  }

  /** The first position holding `id`, if any. */
  function IndexOfId(s: seq<Expense>, id: nat): (r: Option<nat>)
    ensures r.Some? ==> r.value < |s| && s[r.value].id == id
                        && forall j :: 0 <= j < r.value ==> s[j].id != id
    ensures r.None? <==> id !in Ids(s)
    decreases |s|
  {
    if s == [] then None
    else if s[0].id == id then Some(0)
    else
      match IndexOfId(s[1..], id)
      case Some(k) => Some(k + 1)
      case None =>
        assert id !in Ids(s) by {
          assert s == [s[0]] + s[1..];
        }
        None
  }

  /** Every entry whose id differs from `id`, in their original order. */
  function WithoutId(s: seq<Expense>, id: nat): (r: seq<Expense>)
    ensures |r| <= |s|
    ensures forall i :: 0 <= i < |r| ==> r[i].id != id
    decreases |s|
  {
    if s == [] then []
    else (if s[0].id == id then [] else [s[0]]) + WithoutId(s[1..], id)
  }

  /** Filtering keeps exactly the entries with another id, so none with `id` is left. */
  lemma {:induction false} WithoutIdMembers(s: seq<Expense>, id: nat)
    ensures forall x :: x in WithoutId(s, id) <==> x in s && x.id != id
    ensures id !in Ids(WithoutId(s, id))
    decreases |s|
  {
    if s != [] {
      WithoutIdMembers(s[1..], id);
      assert s == [s[0]] + s[1..];
    }
  }

  lemma {:induction false} WithoutIdAppend(a: seq<Expense>, b: seq<Expense>, id: nat)
    ensures WithoutId(a + b, id) == WithoutId(a, id) + WithoutId(b, id)
    decreases |a|
  {
    if a != [] {
      assert (a + b)[1..] == a[1..] + b;
      WithoutIdAppend(a[1..], b, id);
    } else {
      assert a + b == b;
    }
  }

  /** Nothing to remove leaves the sequence as it is. */
  lemma {:induction false} WithoutAbsentId(s: seq<Expense>, id: nat)
    requires id !in Ids(s)
    ensures WithoutId(s, id) == s
    decreases |s|
  {
    if s != [] {
      assert s[0] in s;
      assert Ids(s[1..]) <= Ids(s);
      WithoutAbsentId(s[1..], id);
    }
  }

  lemma {:induction false} WithoutIdReverse(s: seq<Expense>, id: nat)
    ensures WithoutId(Reverse(s), id) == Reverse(WithoutId(s, id))
    decreases |s|
  {
    if s != [] {
      var head := WithoutId([s[0]], id);
      var tail := WithoutId(s[1..], id);
      assert [s[0]][1..] == [];
      assert WithoutId(s, id) == head + tail;
      assert Reverse(head) == head;
      WithoutIdReverse(s[1..], id);
      WithoutIdAppend(Reverse(s[1..]), [s[0]], id);
      assert WithoutId(Reverse(s), id) == Reverse(tail) + head;
      ReverseAppend(head, tail);
    }
  }

  lemma {:induction false} ReverseAppend(a: seq<Expense>, b: seq<Expense>)
    ensures Reverse(a + b) == Reverse(b) + Reverse(a)
    decreases |a|
  {
    if a == [] {
      assert a + b == b;
    } else {
      assert (a + b)[1..] == a[1..] + b;
      ReverseAppend(a[1..], b);
    }
  }

  /** With unique ids, dropping the one position holding `id` is filtering by `id`. */
  lemma RemoveAtIsWithoutId(s: seq<Expense>, k: nat, id: nat)
    requires UniqueIds(s) && k < |s| && s[k].id == id
    ensures s[..k] + s[k + 1..] == WithoutId(s, id)
  {
    IdOnlyAt(s, k);
    WithoutOnlyOccurrence(s[..k], s[k], s[k + 1..], id);
    assert s == s[..k] + [s[k]] + s[k + 1..];
  }

  lemma WithoutOnlyOccurrence(pre: seq<Expense>, e: Expense, post: seq<Expense>, id: nat)
    requires e.id == id && id !in Ids(pre) && id !in Ids(post)
    ensures WithoutId(pre + [e] + post, id) == pre + post
  {
    WithoutLastOccurrence(pre, e, id);
    WithoutAbsentId(post, id);
    WithoutIdAppend(pre + [e], post, id);
  }

  lemma WithoutLastOccurrence(pre: seq<Expense>, e: Expense, id: nat)
    requires e.id == id && id !in Ids(pre)
    ensures WithoutId(pre + [e], id) == pre
  {
    WithoutAbsentId(pre, id);
    assert [e][1..] == [];
    WithoutIdAppend(pre, [e], id);
  }

  lemma IdOnlyAt(s: seq<Expense>, k: nat)
    requires UniqueIds(s) && k < |s|
    ensures s[k].id !in Ids(s[..k])
    ensures s[k].id !in Ids(s[k + 1..])
  {
    forall x | x in s[..k] ensures x.id != s[k].id {
      var j :| 0 <= j < k && s[..k][j] == x;
    }
    forall x | x in s[k + 1..] ensures x.id != s[k].id {
      var j :| 0 <= j < |s| - k - 1 && s[k + 1..][j] == x;
      assert s[k + 1 + j] == x;
    }
  }
}
