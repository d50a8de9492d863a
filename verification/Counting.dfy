/** How many records there are of each name and status. */
module Counting {
  import opened Model
  import opened Sorting

  function Tagged(es: Table, name: string, status: Status): set<Uuid> {
    set id | id in es && es[id].taskName == name && es[id].status == status
  }

  function CountOf(es: Table, name: string, status: Status): nat {
    |Tagged(es, name, status)|
  }

  function RunsTagged(runs: map<Uuid, PipelineRun>, name: string, status: RunStatus): set<Uuid> {
    set id | id in runs && runs[id].pipelineName == name && runs[id].status == status
  }

  function RunCountOf(runs: map<Uuid, PipelineRun>, name: string, status: RunStatus): nat {
    |RunsTagged(runs, name, status)|
  }

  predicate Has(e: Execution, name: string, status: Status) { e.taskName == name && e.status == status }

  function One(b: bool): int { if b then 1 else 0 }

  lemma SizeWithout<T>(s: set<T>, x: T)
    ensures |s - {x}| == |s| - One(x in s)
  {
    if x !in s {
      assert s - {x} == s;
    }
  }

  lemma SizeDiffers<T>(before: set<T>, after: set<T>, x: T)
    requires forall y :: y != x ==> (y in before <==> y in after)
    ensures |after| == |before| - One(x in before) + One(x in after)
  {
    assert after - {x} == before - {x};
    SizeWithout(before, x);
    SizeWithout(after, x);
  }

  /** What writing one record does to the counts. */
  lemma CountAfterPut(es: Table, e: Execution, name: string, status: Status)
    ensures CountOf(es[e.id := e], name, status) ==
            CountOf(es, name, status) - One(e.id in es && Has(es[e.id], name, status)) + One(Has(e, name, status))
  {
    SizeDiffers(Tagged(es, name, status), Tagged(es[e.id := e], name, status), e.id);
  }

  lemma CountAfterDrop(es: Table, id: Uuid, name: string, status: Status)
    ensures CountOf(es - {id}, name, status) == CountOf(es, name, status) - One(id in es && Has(es[id], name, status))
  {
    assert Tagged(es - {id}, name, status) == Tagged(es, name, status) - {id};
    SizeWithout(Tagged(es, name, status), id);
  }

  predicate RunHas(r: PipelineRun, name: string, status: RunStatus) { r.pipelineName == name && r.status == status }

  lemma RunCountAfterPut(runs: map<Uuid, PipelineRun>, r: PipelineRun, name: string, status: RunStatus)
    ensures RunCountOf(runs[r.id := r], name, status) ==
            RunCountOf(runs, name, status) - One(r.id in runs && RunHas(runs[r.id], name, status)) + One(RunHas(r, name, status))
  {
    SizeDiffers(RunsTagged(runs, name, status), RunsTagged(runs[r.id := r], name, status), r.id);
  }

  lemma RunCountAfterDrop(runs: map<Uuid, PipelineRun>, id: Uuid, name: string, status: RunStatus)
    ensures RunCountOf(runs - {id}, name, status) == RunCountOf(runs, name, status) - One(id in runs && RunHas(runs[id], name, status))
  {
    assert RunsTagged(runs - {id}, name, status) == RunsTagged(runs, name, status) - {id};
    SizeWithout(RunsTagged(runs, name, status), id);
  }

  type Counts = map<(string, Status), nat>

  /** The table of all counts that are not zero. */
  ghost predicate AreCounts(es: Table, counts: Counts) {
    forall name, status :: Reads(counts, name, status) == CountOf(es, name, status) && ((name, status) in counts ==> counts[(name, status)] > 0)
  }

  function Reads(counts: Counts, name: string, status: Status): nat {
    if (name, status) in counts then counts[(name, status)] else 0
  }

  /** Counting by one scan over the records. */
  method CountExecutions(es: Table) returns (counts: Counts)
    requires forall id :: id in es ==> es[id].id == id
    ensures AreCounts(es, counts)
  {
    counts := map[];
    var ids := Enumerate(es.Keys);
    ghost var seen: Table := map[];
    for n := 0 to |ids|
      invariant forall id :: id in seen <==> id in ids[..n]
      invariant forall id :: id in seen ==> id in es && seen[id] == es[id]
      invariant AreCounts(seen, counts)
    {
      assert ids[n] in Elements(ids);
      var item := es[ids[n]];
      var key := (item.taskName, item.status);
      CountNext(seen, item, counts);
      counts := counts[key := (if key in counts then counts[key] else 0) + 1];
      assert ids[..n + 1] == ids[..n] + [ids[n]];
      seen := seen[item.id := item];
    }
    assert seen == es by {
      forall id
        ensures id in seen <==> id in es
      {
        assert ids[..|ids|] == ids;
        assert id in es <==> id in Elements(ids);
      }
    }
  }

  lemma CountNext(seen: Table, e: Execution, counts: Counts)
    requires e.id !in seen && AreCounts(seen, counts)
    ensures AreCounts(seen[e.id := e], counts[(e.taskName, e.status) := Reads(counts, e.taskName, e.status) + 1])
  {
    forall name, status
      ensures CountOf(seen[e.id := e], name, status) == CountOf(seen, name, status) + One(Has(e, name, status))
    {
      CountAfterPut(seen, e, name, status);
    }
  }

  // ---------------------------------------------------------------------------------------------
  // The table as a list, by name and then by the text of the status

  datatype Row = Row(name: string, status: Status, count: nat)

  function Text(status: Status): string {
    match status
    case Pending => "pending"
    case Blocked => "blocked"
    case Running => "running"
    case Retry => "retry"
    case Succeeded => "succeeded"
    case Failed => "failed"
    case Cancelled => "cancelled"
  }

  predicate TextLeq(a: string, b: string) {
    a == "" || (b != "" && (a[0] < b[0] || (a[0] == b[0] && TextLeq(a[1..], b[1..]))))
  }

  lemma {:induction false} TextTotal(a: string, b: string)
    ensures TextLeq(a, b) || TextLeq(b, a)
  {
    if a != "" && b != "" {
      TextTotal(a[1..], b[1..]);
    }
  }

  lemma {:induction false} TextTransitive(a: string, b: string, c: string)
    requires TextLeq(a, b) && TextLeq(b, c)
    ensures TextLeq(a, c)
  {
    if a != "" && a[0] == b[0] == c[0] {
      TextTransitive(a[1..], b[1..], c[1..]);
    }
  }

  lemma {:induction false} TextAntisymmetric(a: string, b: string)
    requires TextLeq(a, b) && TextLeq(b, a)
    ensures a == b
  {
    if a != "" {
      TextAntisymmetric(a[1..], b[1..]);
      assert a == [a[0]] + a[1..] && b == [b[0]] + b[1..];
    }
  }

  /** The order of texts is the dictionary's: one is a prefix of the other, or it has the smaller
      character where they first differ. */
  lemma {:induction false} TextLeqExactly(a: string, b: string)
    ensures TextLeq(a, b) <==> exists i :: SplitAt(a, b, i) && (i == |a| || (i < |b| && a[i] < b[i]))
  {
    if a == "" {
      assert SplitAt(a, b, 0);
    } else if b != "" && a[0] == b[0] {
      TextLeqExactly(a[1..], b[1..]);
      if i :| SplitAt(a[1..], b[1..], i) && (i == |a[1..]| || (i < |b[1..]| && a[1..][i] < b[1..][i])) {
        assert a[..i + 1] == [a[0]] + a[1..][..i] && b[..i + 1] == [b[0]] + b[1..][..i];
        assert SplitAt(a, b, i + 1);
      }
      if i :| SplitAt(a, b, i) && (i == |a| || (i < |b| && a[i] < b[i])) {
        assert i > 0 && a[1..][..i - 1] == a[..i][1..] && b[1..][..i - 1] == b[..i][1..];
        assert SplitAt(a[1..], b[1..], i - 1);
      }
    } else if b != "" {
      assert SplitAt(a, b, 0);
      forall i | SplitAt(a, b, i)
        ensures i == 0
      {
        if i > 0 {
          SameFirst(a, b, i);
        }
      }
    }
  }

  /** Two texts agree up to here. */
  predicate SplitAt(a: string, b: string, i: int) {
    0 <= i <= |a| && i <= |b| && a[..i] == b[..i]
  }

  lemma SameFirst(a: string, b: string, i: int)
    requires SplitAt(a, b, i) && i > 0
    ensures a[0] == b[0]
  {
    assert a[0] == a[..i][0] && b[0] == b[..i][0];
  }

  predicate RowLeq(a: Row, b: Row) {
    if a.name == b.name then TextLeq(Text(a.status), Text(b.status)) else TextLeq(a.name, b.name)
  }

  lemma RowLeqIsPreorder()
    ensures Preorder(RowLeq)
  {
    forall a, b
      ensures RowLeq(a, b) || RowLeq(b, a)
    {
      TextTotal(a.name, b.name);
      TextTotal(Text(a.status), Text(b.status));
    }
    forall a, b, c | RowLeq(a, b) && RowLeq(b, c)
      ensures RowLeq(a, c)
    {
      RowLeqTransitive(a, b, c);
    }
  }

  lemma RowLeqTransitive(a: Row, b: Row, c: Row)
    requires RowLeq(a, b) && RowLeq(b, c)
    ensures RowLeq(a, c)
  {
    if a.name == b.name == c.name {
      TextTransitive(Text(a.status), Text(b.status), Text(c.status));
    } else if a.name == c.name {
      TextAntisymmetric(a.name, b.name);
    } else if a.name != b.name && b.name != c.name {
      TextTransitive(a.name, b.name, c.name);
    }
  }

  /** One row for each name and status there are records of, in order. */
  ghost predicate AreRows(es: Table, rows: seq<Row>) {
    && Sorted(RowLeq, rows) && Distinct(rows)
    && (forall x :: x in rows <==> x.count == CountOf(es, x.name, x.status) && x.count > 0)
  }

  method Tabulate(counts: Counts, ghost es: Table) returns (rows: seq<Row>)
    requires AreCounts(es, counts)
    ensures AreRows(es, rows)
  {
    var keys := Enumerate(counts.Keys);
    var listed := [];
    for n := 0 to |keys|
      invariant |listed| == n
      invariant forall i :: 0 <= i < n ==> keys[i] in counts && listed[i] == Row(keys[i].0, keys[i].1, counts[keys[i]])
    {
      assert keys[n] in Elements(keys);
      listed := listed + [Row(keys[n].0, keys[n].1, counts[keys[n]])];
    }
    RowsListed(counts, es, keys, listed);
    RowLeqIsPreorder();
    rows := Sort(RowLeq, listed);
    PermutedDistinct(listed, rows);
    assert forall x :: x in rows <==> x in Elements(rows);
    assert forall x :: x in listed <==> x in Elements(listed);
  }

  lemma RowsListed(counts: Counts, es: Table, keys: seq<(string, Status)>, listed: seq<Row>)
    requires AreCounts(es, counts) && Distinct(keys) && Elements(keys) == counts.Keys && |listed| == |keys|
    requires forall i :: 0 <= i < |keys| ==> keys[i] in counts && listed[i] == Row(keys[i].0, keys[i].1, counts[keys[i]])
    ensures Distinct(listed)
    ensures forall x :: x in listed <==> x.count == CountOf(es, x.name, x.status) && x.count > 0
  {
    forall i | 0 <= i < |listed|
      ensures listed[i].count == CountOf(es, listed[i].name, listed[i].status) && listed[i].count > 0
    {
      assert Reads(counts, keys[i].0, keys[i].1) == CountOf(es, keys[i].0, keys[i].1);
    }
    forall x: Row | x.count == CountOf(es, x.name, x.status) && x.count > 0
      ensures x in listed
    {
      assert Reads(counts, x.name, x.status) == CountOf(es, x.name, x.status);
      assert (x.name, x.status) in Elements(keys);
      var i :| 0 <= i < |keys| && keys[i] == (x.name, x.status);
      assert listed[i] == x;
    }
  }
}
