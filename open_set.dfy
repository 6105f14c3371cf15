/** The search's priority queue: entries (f, count, item) taken out smallest first, with the
    insertion counter breaking ties between equal f. */
module OpenSet {

  datatype Entry<T> = Entry(f: nat, count: nat, item: T)

  /** The order of the queue's tuples on their first two components. */
  predicate Before<T>(a: Entry<T>, b: Entry<T>)
  {
    a.f < b.f || (a.f == b.f && a.count < b.count)
  }

  /** Counters strictly increase from the front of the sequence to the back, as they do when
      every entry is appended with a fresh, larger counter. */
  predicate Ordered<T>(q: seq<Entry<T>>)
  {
    forall i, j | 0 <= i < j < |q| :: q[i].count < q[j].count
  }

  /** No item is queued twice. */
  predicate Unique<T(==)>(q: seq<Entry<T>>)
  {
    forall i, j | 0 <= i < j < |q| :: q[i].item != q[j].item
  }

  function Items<T>(q: seq<Entry<T>>): set<T>
  {
    set e | e in q :: e.item
  }

  /** The place of the entry the queue hands out next: no entry comes before it. */
  function MinIndex<T>(q: seq<Entry<T>>): (i: nat)
    requires q != []
    ensures i < |q| && forall j | 0 <= j < |q| :: !Before(q[j], q[i])
  {
    if |q| == 1 then 0
    else
      var k := MinIndex(q[..|q| - 1]);
      assert q[..|q| - 1][k] == q[k];
      if Before(q[|q| - 1], q[k]) then |q| - 1 else k
  }

  /** q without its i-th entry. */
  function RemoveAt<T>(q: seq<Entry<T>>, i: nat): (r: seq<Entry<T>>)
    requires i < |q|
    ensures |r| == |q| - 1
    ensures multiset(r) + multiset{q[i]} == multiset(q)
  {
    assert q == q[..i] + [q[i]] + q[i + 1..];
    q[..i] + q[i + 1..]
  }

  /** With distinct counters the entry handed out comes strictly before every other one, so
      the order of the items themselves never decides. */
  lemma MinIsStrict<T>(q: seq<Entry<T>>)
    requires q != [] && Ordered(q)
    ensures forall j | 0 <= j < |q| && j != MinIndex(q) :: Before(q[MinIndex(q)], q[j])
  {
  }

  /** Among entries with equal f, the one queued first is handed out first. */
  lemma FirstInFirstOut<T>(q: seq<Entry<T>>, j: nat)
    requires q != [] && Ordered(q) && j < |q| && q[j].f == q[MinIndex(q)].f
    ensures MinIndex(q) <= j
  {
  }

  /** Taking an entry out keeps the counters ordered and the items unique, and removes exactly
      that entry's item from the queued items. */
  lemma RemoveAtKeeps<T>(q: seq<Entry<T>>, i: nat)
    requires i < |q| && Ordered(q) && Unique(q)
    ensures Ordered(RemoveAt(q, i)) && Unique(RemoveAt(q, i))
    ensures Items(RemoveAt(q, i)) == Items(q) - {q[i].item}
  {
    var r := RemoveAt(q, i);
    assert forall k | 0 <= k < |r| :: r[k] == if k < i then q[k] else q[k + 1];
    forall x | x in Items(q) - {q[i].item}
      ensures x in Items(r)
    {
      var e :| e in q && e.item == x;
      var k :| 0 <= k < |q| && q[k] == e;
      if k < i {
        assert r[k] == e;
      } else {
        assert r[k - 1] == e;
      }
    }
  }

  /** Appending an entry whose counter exceeds every queued one, for an item not yet queued,
      keeps the counters ordered and the items unique, and adds that item. */
  lemma AppendKeeps<T>(q: seq<Entry<T>>, e: Entry<T>)
    requires Ordered(q) && Unique(q) && e.item !in Items(q)
    requires forall k | 0 <= k < |q| :: q[k].count < e.count
    ensures Ordered(q + [e]) && Unique(q + [e])
    ensures Items(q + [e]) == Items(q) + {e.item}
  {
    var r := q + [e];
    forall i, j | 0 <= i < j < |r|
      ensures r[i].count < r[j].count && r[i].item != r[j].item
    {
      assert r[i] == q[i];
      if j < |q| {
        assert r[j] == q[j];
      } else {
        assert q[i] in q;
      }
    }
  }
}
