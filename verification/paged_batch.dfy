/**
 Bookkeeping of batch reads (include/disk_vector.h): the ids still to be read,
 sorted by page so that every page is loaded once.
 */
module PagedBatch {

  datatype Miss = Miss(idx: nat, page: nat, slot: nat)

  ghost predicate Missing(misses: seq<Miss>, i: nat) {
    exists m :: m in misses && m.idx == i
  }

  lemma StillMissing(before: seq<Miss>, after: seq<Miss>)
    requires before <= after
    ensures forall i :: Missing(before, i) ==> Missing(after, i)
    ensures |after| > |before| ==> Missing(after, after[|before|].idx)
  {
    forall i | Missing(before, i)
      ensures Missing(after, i)
    {
      var m :| m in before && m.idx == i;
      assert m in after;
    }
    if |after| > |before| {
      assert after[|before|] in after;
    }
  }

  /** Without one of the misses, at most its own index is no longer missing. */
  lemma OneLess(a: seq<Miss>, m: Miss, b: seq<Miss>)
    ensures forall i :: Missing(a + [m] + b, i) ==> i == m.idx || Missing(a + b, i)
  {
    forall i | Missing(a + [m] + b, i) && i != m.idx
      ensures Missing(a + b, i)
    {
      var e :| e in a + [m] + b && e.idx == i;
      assert e in a + b;
    }
  }

  ghost predicate Sorted(s: seq<Miss>) {
    forall i, j :: 0 <= i < j < |s| ==> s[i].page <= s[j].page
  }

  function Inserted(s: seq<Miss>, k: nat, m: Miss): seq<Miss>
    requires k <= |s|
  {
    s[..k] + [m] + s[k..]
  }

  lemma InsertedCount(s: seq<Miss>, k: nat, m: Miss)
    requires k <= |s|
    ensures multiset(Inserted(s, k, m)) == multiset(s) + multiset{m}
  {
    assert s[..k] + s[k..] == s;
  }

  lemma InsertedSorted(s: seq<Miss>, k: nat, m: Miss)
    requires k <= |s| && Sorted(s)
    requires k > 0 ==> s[k - 1].page <= m.page
    requires k < |s| ==> m.page <= s[k].page
    ensures Sorted(Inserted(s, k, m))
  {
    var after := Inserted(s, k, m);
    forall i, j | 0 <= i < j < |after|
      ensures after[i].page <= after[j].page
    {
      var x, y := if i <= k then i else i - 1, if j <= k then j else j - 1;
      assert i < k ==> s[i].page <= s[k - 1].page;
      assert j > k ==> s[k].page <= s[y].page;
    }
  }

  /** Puts a miss behind those of its page and the pages before it. */
  method InsertByPage(s: seq<Miss>, m: Miss) returns (after: seq<Miss>)
    requires Sorted(s)
    ensures Sorted(after) && multiset(after) == multiset(s) + multiset{m}
  {
    hide Sorted, Inserted;
    var k: nat := |s|;
    while k > 0 && s[k - 1].page > m.page
      invariant k <= |s| && (k < |s| ==> m.page < s[k].page)
    {
      k := k - 1;
    }
    InsertedSorted(s, k, m);
    InsertedCount(s, k, m);
    after := Inserted(s, k, m);
  }

  /** The misses, page by page. */
  method SortByPage(misses: seq<Miss>) returns (s: seq<Miss>)
    ensures Sorted(s) && multiset(s) == multiset(misses)
    ensures forall m :: m in s <==> m in misses
  {
    hide Sorted;
    s := [];
    assert Sorted(s) by {
      EmptySorted();
    }
    for i := 0 to |misses|
      invariant Sorted(s) && multiset(s) == multiset(misses[..i])
    {
      assert misses[..i + 1] == misses[..i] + [misses[i]];
      s := InsertByPage(s, misses[i]);
    }
    assert misses[..|misses|] == misses;
    forall m
      ensures m in s <==> m in misses
    {
      assert m in multiset(s) <==> m in multiset(misses);
    }
  }

  lemma EmptySorted()
    ensures Sorted([])
  {}

  ghost predicate Ascending(s: seq<nat>) {
    forall i, j :: 0 <= i < j < |s| ==> s[i] < s[j]
  }

  ghost predicate OnMiss(misses: seq<Miss>, p: nat) {
    exists m :: m in misses && m.page == p
  }

  lemma SameMisses(a: seq<Miss>, b: seq<Miss>)
    requires forall m :: m in a <==> m in b
    ensures forall p :: OnMiss(a, p) <==> OnMiss(b, p)
  {}

  /** The pages of the misses, each once. */
  method UniquePages(misses: seq<Miss>) returns (unique: seq<nat>)
    requires Sorted(misses)
    ensures Ascending(unique) && forall p :: p in unique <==> OnMiss(misses, p)
  {
    unique := [];
    for j := 0 to |misses|
      invariant Ascending(unique)
      invariant if j == 0 then unique == [] else unique != [] && unique[|unique| - 1] == misses[j - 1].page
      invariant forall p :: p in unique ==> OnMiss(misses, p)
      invariant forall i :: 0 <= i < j ==> misses[i].page in unique
    {
      if j == 0 || misses[j].page != misses[j - 1].page {
        assert misses[j] in misses && (j > 0 ==> misses[j - 1].page < misses[j].page);
        unique := unique + [misses[j].page];
      }
    }
  }
}
