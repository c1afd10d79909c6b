/** Totals over finite tables of counts. */
module Sums {
  ghost function TotalOf(counts: map<int, nat>, ids: set<int>): nat
    requires ids <= counts.Keys
    decreases ids
  {
    if ids == {} then 0
    else
      SomeMember(ids);
      var id :| id in ids;
      counts[id] + TotalOf(counts, ids - {id})
  }

  ghost function Total(counts: map<int, nat>): nat {
    TotalOf(counts, counts.Keys)
  }

  lemma SomeMember(s: set<int>)
    ensures s == {} || exists id :: id in s
  {
    if forall id :: id !in s {
      assert s == {};
    }
  }

  lemma {:induction false} TotalSplits(counts: map<int, nat>, ids: set<int>, id: int)
    requires ids <= counts.Keys && id in ids
    ensures TotalOf(counts, ids) == counts[id] + TotalOf(counts, ids - {id})
    decreases ids
  {
    SomeMember(ids);
    var first :| first in ids && TotalOf(counts, ids) == counts[first] + TotalOf(counts, ids - {first});
    if first != id {
      TotalSplits(counts, ids - {first}, id);
      TotalSplits(counts, ids - {id}, first);
      assert ids - {first} - {id} == ids - {id} - {first};
    }
  }

  lemma {:induction false} TotalElsewhere(a: map<int, nat>, b: map<int, nat>, ids: set<int>)
    requires ids <= a.Keys && ids <= b.Keys && forall id :: id in ids ==> a[id] == b[id]
    ensures TotalOf(a, ids) == TotalOf(b, ids)
    decreases ids
  {
    if ids != {} {
      SomeMember(ids);
      var id :| id in ids;
      TotalSplits(a, ids, id);
      TotalSplits(b, ids, id);
      TotalElsewhere(a, b, ids - {id});
    }
  }

  /** Changing one entry moves the total by the difference; an absent entry counts as zero. */
  lemma TotalUpdate(counts: map<int, nat>, id: int, n: nat)
    ensures Total(counts[id := n]) + (if id in counts then counts[id] else 0) == Total(counts) + n
  {
    var after := counts[id := n];
    TotalSplits(after, after.Keys, id);
    if id in counts {
      TotalSplits(counts, counts.Keys, id);
    } else {
      assert counts.Keys - {id} == counts.Keys;
    }
    assert after.Keys - {id} == counts.Keys - {id};
    TotalElsewhere(counts, after, counts.Keys - {id});
  }

  /** One entry smaller, the rest equal: a smaller total. */
  lemma TotalDrops(before: map<int, nat>, after: map<int, nat>, id: int)
    requires id in before && after.Keys == before.Keys && after[id] < before[id]
    requires forall j :: j in before && j != id ==> after[j] == before[j]
    ensures Total(after) < Total(before)
  {
    var changed := before[id := after[id]];
    assert forall j :: j in after ==> j in changed && after[j] == changed[j];
    assert after == changed;
    TotalUpdate(before, id, after[id]);
  }

  lemma NewIdExists(ids: set<int>) returns (id: int)
    ensures id !in ids
  {
    id := 0;
    var below := {};
    while id in ids
      invariant below <= ids && forall x :: x in below <==> 0 <= x < id
      decreases |ids - below|
    {
      below := below + {id};
      id := id + 1;
    }
  }
}
