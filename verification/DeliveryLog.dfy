/**
 The forwarder's delivery log: every recorded attempt is appended, then the whole file is compacted
 to the newest `keep` rows of each tenant.
 */
module DeliveryLogs {
  import opened Options
  import opened OrderedDicts
  import opened Sorting

  datatype Status = Delivered | Failed | Dropped

  /**
   A row; `ts` is the event time (0 when the event has none), `event` identifies the event and stands
   for its request id, path, verb and actor.
   */
  datatype Delivery = Delivery(tenant: string, ts: real, event: nat, attempt: nat, status: Status)

  function Ts(r: Delivery): real { r.ts }

  /** The configured number of rows to keep is never below 50. */
  function Keep(configured: int): nat {
    if configured > 50 then configured else 50
  }

  /** The rows of one tenant, in file order. */
  function Of(rows: seq<Delivery>, tenant: string): seq<Delivery> {
    if rows == [] then []
    else
      var front := Of(rows[..|rows| - 1], tenant);
      if rows[|rows| - 1].tenant == tenant then front + [rows[|rows| - 1]] else front
  }

  function Reverse<T>(s: seq<T>): seq<T> {
    if s == [] then [] else Reverse(s[1..]) + [s[0]]
  }

  // ---------------------------------------------------------------- compaction

  function Bucket(d: Dict<string, seq<Delivery>>, tenant: string): seq<Delivery> {
    match Lookup(d, tenant) case Some(rows) => rows case None => []
  }

  /** `by_tenant`: tenants in order of first appearance, each with its rows. */
  function Grouped(rows: seq<Delivery>): Dict<string, seq<Delivery>> {
    if rows == [] then []
    else
      var d, r := Grouped(rows[..|rows| - 1]), rows[|rows| - 1];
      Assign(d, r.tenant, Bucket(d, r.tenant) + [r])
  }

  /** The newest `keep` rows of a bucket, oldest first. */
  function Newest(bucket: seq<Delivery>, keep: nat): seq<Delivery> {
    Reverse(Take(SortDesc(bucket, Ts), keep))
  }

  function Flatten(d: Dict<string, seq<Delivery>>, keep: nat): seq<Delivery> {
    if d == [] then [] else Flatten(d[..|d| - 1], keep) + Newest(d[|d| - 1].value, keep)
  }

  function Compacted(rows: seq<Delivery>, keep: nat): seq<Delivery> {
    Flatten(Grouped(rows), keep)
  }

  /** The file after recording the given deliveries one by one. */
  function LogOf(history: seq<Delivery>, keep: nat): seq<Delivery> {
    if history == [] then []
    else Compacted(LogOf(history[..|history| - 1], keep) + [history[|history| - 1]], keep)
  }

  function Newer(rows: seq<Delivery>, tenant: string, limit: nat): seq<Delivery> {
    Take(SortDesc(Of(rows, tenant), Ts), limit)
  }

  lemma LogSnoc(history: seq<Delivery>, r: Delivery, keep: nat)
    ensures LogOf(history + [r], keep) == Compacted(LogOf(history, keep) + [r], keep)
  {
    assert (history + [r])[..|history|] == history;
  }

  /** The first loop of the compaction: rows by tenant. */
  method Group(rows: seq<Delivery>) returns (byTenant: Dict<string, seq<Delivery>>)
    ensures byTenant == Grouped(rows)
  {
    byTenant := [];
    var i := 0;
    while i < |rows|
      invariant 0 <= i <= |rows|
      invariant byTenant == Grouped(rows[..i])
    {
      var row := rows[i];
      assert rows[..i + 1][..i] == rows[..i];
      byTenant := Assign(byTenant, row.tenant, Bucket(byTenant, row.tenant) + [row]);
      i := i + 1;
    }
    assert rows[..i] == rows;
  }

  /** The second loop: the newest rows of every tenant. */
  method KeepNewest(byTenant: Dict<string, seq<Delivery>>, keep: nat) returns (compacted: seq<Delivery>)
    ensures compacted == Flatten(byTenant, keep)
  {
    compacted := [];
    var i := 0;
    while i < |byTenant|
      invariant 0 <= i <= |byTenant|
      invariant compacted == Flatten(byTenant[..i], keep)
    {
      assert byTenant[..i + 1][..i] == byTenant[..i];
      compacted := compacted + Newest(byTenant[i].value, keep);
      i := i + 1;
    }
    assert byTenant[..i] == byTenant;
  }

  class DeliveryLog {
    const keep: nat
    var rows: seq<Delivery>
    ghost var recorded: seq<Delivery>

    constructor (configured: int)
      ensures keep >= 50 && keep >= configured && (keep == 50 || keep == configured)
      ensures rows == [] && recorded == [] && Valid()
    {
      keep, rows, recorded := Keep(configured), [], [];
    }

    /** The file is what recording and compacting row by row leaves of everything recorded. */
    ghost predicate Valid()
      reads this
    {
      rows == LogOf(recorded, keep)
    }

    /** `_record_delivery`. */
    method Record(r: Delivery)
      requires Valid()
      modifies this
      ensures rows == Compacted(old(rows) + [r], keep)
      ensures Valid() && recorded == old(recorded) + [r]
    {
      LogSnoc(recorded, r, keep);
      recorded := recorded + [r];
      rows := rows + [r];
      var byTenant := Group(rows);
      rows := KeepNewest(byTenant, keep);
    }

    /** `list_deliveries`. */
    method List(tenant: string, limit: nat) returns (out: seq<Delivery>)
      ensures out == Newer(rows, tenant, limit)
    {
      var own: seq<Delivery> := [];
      var i := 0;
      while i < |rows|
        invariant 0 <= i <= |rows|
        invariant own == Of(rows[..i], tenant)
      {
        assert rows[..i + 1][..i] == rows[..i];
        if rows[i].tenant == tenant {
          own := own + [rows[i]];
        }
        i := i + 1;
      }
      assert rows[..i] == rows;
      out := Take(SortDesc(own, Ts), limit);
    }
  }

  // ---------------------------------------------------------------- what compaction keeps of one tenant

  lemma {:induction false} OfConcat(a: seq<Delivery>, b: seq<Delivery>, t: string)
    ensures Of(a + b, t) == Of(a, t) + Of(b, t)
  {
    if b == [] {
      assert a + b == a;
    } else {
      assert (a + b)[..|a + b| - 1] == a + b[..|b| - 1];
      OfConcat(a, b[..|b| - 1], t);
    }
  }

  lemma {:induction false} OfOwn(rows: seq<Delivery>, owner: string, t: string)
    requires forall r :: r in rows ==> r.tenant == owner
    ensures Of(rows, t) == if t == owner then rows else []
  {
    if rows != [] {
      var n := |rows| - 1;
      assert rows[n] in rows;
      OfOwn(rows[..n], owner, t);
      assert rows == rows[..n] + [rows[n]];
    }
  }

  lemma {:induction false} OfMembers(rows: seq<Delivery>, t: string)
    ensures forall r :: r in Of(rows, t) <==> r in rows && r.tenant == t
  {
    if rows != [] {
      OfMembers(rows[..|rows| - 1], t);
      assert rows == rows[..|rows| - 1] + [rows[|rows| - 1]];
    }
  }

  lemma {:induction false} ReverseMultiset<T>(s: seq<T>)
    ensures multiset(Reverse(s)) == multiset(s)
  {
    if s != [] {
      ReverseMultiset(s[1..]);
      assert s == [s[0]] + s[1..];
    }
  }

  lemma NewestMembers(bucket: seq<Delivery>, keep: nat)
    ensures multiset(Newest(bucket, keep)) <= multiset(bucket)
  {
    var sorted := SortDesc(bucket, Ts);
    SortMultiset(bucket, Ts);
    ReverseMultiset(Take(sorted, keep));
    TakeMultiset(sorted, keep);
  }

  lemma TakeMultiset<T>(s: seq<T>, k: nat)
    ensures multiset(Take(s, k)) <= multiset(s)
  {
    var n := |Take(s, k)|;
    assert s == s[..n] + s[n..];
  }

  /** The buckets: one per tenant that occurs, holding exactly its rows in order. */
  lemma {:induction false} GroupedBuckets(rows: seq<Delivery>, t: string)
    ensures Bucket(Grouped(rows), t) == Of(rows, t)
  {
    if rows != [] {
      var front, r := rows[..|rows| - 1], rows[|rows| - 1];
      GroupedBuckets(front, t);
      GroupedBuckets(front, r.tenant);
      AssignLookup(Grouped(front), r.tenant, Bucket(Grouped(front), r.tenant) + [r], t);
    }
  }

  lemma {:induction false} GroupedUnique(rows: seq<Delivery>)
    ensures Unique(Grouped(rows))
  {
    if rows != [] {
      var d, r := Grouped(rows[..|rows| - 1]), rows[|rows| - 1];
      GroupedUnique(rows[..|rows| - 1]);
      AssignUnique(d, r.tenant, Bucket(d, r.tenant) + [r]);
    }
  }

  /** Every bucket holds rows of its own tenant only. */
  ghost predicate OwnRows(d: Dict<string, seq<Delivery>>) {
    forall i, r :: 0 <= i < |d| && r in d[i].value ==> r.tenant == d[i].key
  }

  lemma GroupedOwn(rows: seq<Delivery>)
    ensures OwnRows(Grouped(rows))
  {
    var d := Grouped(rows);
    GroupedUnique(rows);
    forall i, r | 0 <= i < |d| && r in d[i].value ensures r.tenant == d[i].key {
      LookupAt(d, i);
      GroupedBuckets(rows, d[i].key);
      OfMembers(rows, d[i].key);
    }
  }

  lemma NewestOwn(bucket: seq<Delivery>, owner: string, keep: nat, t: string)
    requires forall r :: r in bucket ==> r.tenant == owner
    ensures Of(Newest(bucket, keep), t) == if t == owner then Newest(bucket, keep) else []
  {
    NewestMembers(bucket, keep);
    var best := Newest(bucket, keep);
    forall r | r in best ensures r.tenant == owner {
      assert r in multiset(best) && r in multiset(bucket);
    }
    OfOwn(best, owner, t);
  }

  lemma BucketSnoc(d: Dict<string, seq<Delivery>>, t: string)
    requires Unique(d) && d != []
    ensures var n := |d| - 1;
            && Has(d, t) == (Has(d[..n], t) || d[n].key == t)
            && Bucket(d, t) == (if d[n].key == t then d[n].value else Bucket(d[..n], t))
            && (d[n].key == t ==> !Has(d[..n], t))
  {
    var n := |d| - 1;
    var front := d[..n];
    assert forall i :: 0 <= i < n ==> front[i] == d[i];
    if d[n].key == t {
      LookupAt(d, n);
    } else if Has(d, t) {
      var i :| 0 <= i < |d| && d[i].key == t;
      assert front[i].key == t;
      LookupAt(d, i);
      LookupAt(front, i);
    }
  }

  /** The part of a compacted file that belongs to one tenant is the newest part of its bucket. */
  lemma {:induction false} OfFlatten(d: Dict<string, seq<Delivery>>, keep: nat, t: string)
    requires Unique(d) && OwnRows(d)
    ensures Of(Flatten(d, keep), t) == if Has(d, t) then Newest(Bucket(d, t), keep) else []
  {
    if d != [] {
      var n := |d| - 1;
      var front, last := d[..n], d[n];
      assert forall i :: 0 <= i < n ==> front[i] == d[i];
      OfFlatten(front, keep, t);
      OfConcat(Flatten(front, keep), Newest(last.value, keep), t);
      NewestOwn(last.value, last.key, keep, t);
      BucketSnoc(d, t);
    }
  }

  lemma OfCompacted(rows: seq<Delivery>, keep: nat, t: string)
    ensures Of(Compacted(rows, keep), t) == Newest(Of(rows, t), keep)
  {
    GroupedUnique(rows);
    GroupedOwn(rows);
    GroupedBuckets(rows, t);
    OfFlatten(Grouped(rows), keep, t);
  }

  // ---------------------------------------------------------------- the main results

  function Times(rows: seq<Delivery>, t: string): seq<real> {
    KeysOf(Of(rows, t), Ts)
  }

  lemma {:induction false} ReverseKeys(s: seq<Delivery>)
    ensures KeysOf(Reverse(s), Ts) == Reverse(KeysOf(s, Ts))
  {
    if s != [] {
      ReverseKeys(s[1..]);
      assert KeysOf(s, Ts)[1..] == KeysOf(s[1..], Ts);
      assert KeysOf(Reverse(s), Ts) == KeysOf(Reverse(s[1..]), Ts) + [Ts(s[0])];
    }
  }

  lemma NewestTimes(bucket: seq<Delivery>, keep: nat)
    ensures multiset(KeysOf(Newest(bucket, keep), Ts)) == multiset(Take(SortReals(KeysOf(bucket, Ts)), keep))
  {
    var best := Take(SortDesc(bucket, Ts), keep);
    ReverseKeys(best);
    ReverseMultiset(KeysOf(best, Ts));
    TopKeys(bucket, keep, Ts);
  }

  lemma TimesSnoc(rows: seq<Delivery>, r: Delivery, t: string)
    ensures Times(rows + [r], t) == if r.tenant == t then Times(rows, t) + [r.ts] else Times(rows, t)
  {
    assert (rows + [r])[..|rows|] == rows;
  }

  /** For one tenant, the event times in `log` are the `keep` largest of those in `rows`, ties counted. */
  ghost predicate HoldsBest(log: seq<Delivery>, rows: seq<Delivery>, keep: nat, t: string) {
    multiset(Times(log, t)) == multiset(Take(SortReals(Times(rows, t)), keep))
  }

  lemma AppendThenCompact(log: seq<Delivery>, rows: seq<Delivery>, r: Delivery, keep: nat, t: string)
    requires HoldsBest(log, rows, keep, t)
    ensures Take(SortReals(Times(log + [r], t)), keep) == Take(SortReals(Times(rows + [r], t)), keep)
  {
    TimesSnoc(log, r, t);
    TimesSnoc(rows, r, t);
    if r.tenant == t {
      TopOfTop(Times(rows, t), Times(log, t), r.ts, keep);
    } else {
      SortKept(Times(rows, t), Times(log, t), keep);
    }
  }

  lemma CompactedTimes(rows: seq<Delivery>, keep: nat, t: string)
    ensures HoldsBest(Compacted(rows, keep), rows, keep, t)
  {
    OfCompacted(rows, keep, t);
    NewestTimes(Of(rows, t), keep);
  }

  lemma RecordStep(log: seq<Delivery>, rows: seq<Delivery>, r: Delivery, keep: nat, t: string)
    requires HoldsBest(log, rows, keep, t)
    ensures HoldsBest(Compacted(log + [r], keep), rows + [r], keep, t)
  {
    AppendThenCompact(log, rows, r, keep, t);
    CompactedTimes(log + [r], keep, t);
  }

  /**
   After any history of recorded deliveries, with a compaction after each one, the event times kept
   for a tenant are exactly the `keep` largest ever recorded for it.
   */
  lemma {:induction false} KeepsTheLargestTimes(history: seq<Delivery>, keep: nat, t: string)
    ensures HoldsBest(LogOf(history, keep), history, keep, t)
  {
    if history == [] {
      assert Times([], t) == [];
      assert SortReals([]) == [] && Take<real>([], keep) == [];
    } else {
      var front, r := history[..|history| - 1], history[|history| - 1];
      SplitLast(history);
      KeepsTheLargestTimes(front, keep, t);
      RecordStep(LogOf(front, keep), front, r, keep, t);
    }
  }

  /** Compacting after every record keeps the same times as compacting the whole history once. */
  lemma SameAsCompactingOnce(history: seq<Delivery>, keep: nat, t: string)
    ensures multiset(Times(LogOf(history, keep), t)) == multiset(Times(Compacted(history, keep), t))
  {
    KeepsTheLargestTimes(history, keep, t);
    CompactedTimes(history, keep, t);
  }

  /** `list_deliveries` returns the largest recorded times, newest first. */
  lemma ListingShowsTheLargest(history: seq<Delivery>, keep: nat, t: string, limit: nat)
    ensures KeysOf(Newer(LogOf(history, keep), t, limit), Ts)
         == Take(SortReals(Times(history, t)), if keep < limit then keep else limit)
  {
    var log := LogOf(history, keep);
    KeepsTheLargestTimes(history, keep, t);
    TopKeys(Of(log, t), limit, Ts);
    SortKept(Times(history, t), Times(log, t), keep);
    TakeTake(SortReals(Times(history, t)), keep, limit);
  }

  lemma SortKept(all: seq<real>, kept: seq<real>, keep: nat)
    requires multiset(kept) == multiset(Take(SortReals(all), keep))
    ensures SortReals(kept) == Take(SortReals(all), keep)
  {
    SortDescending(all);
    SameMultisetSameSort(kept, Take(SortReals(all), keep));
    SortSorted(Take(SortReals(all), keep));
  }

  /** Recording a delivery loses no row of another tenant, and of its own tenant at most one. */
  lemma OthersLoseNothing(log: seq<Delivery>, r: Delivery, keep: nat, t: string)
    requires |Of(log, t)| <= keep
    ensures var after := Compacted(log + [r], keep);
            && |Of(after, t)| <= keep
            && (t != r.tenant ==> multiset(Of(after, t)) == multiset(Of(log, t)))
            && (t == r.tenant ==> |Of(after, t)| == if |Of(log, t)| < keep then |Of(log, t)| + 1 else keep)
  {
    OfCompacted(log + [r], keep, t);
    assert (log + [r])[..|log|] == log;
    var bucket := Of(log + [r], t);
    var best := Take(SortDesc(bucket, Ts), keep);
    ReverseMultiset(best);
    assert |multiset(Reverse(best))| == |Reverse(best)| && |multiset(best)| == |best|;
    SortMultiset(bucket, Ts);
    if t != r.tenant {
      assert best == SortDesc(bucket, Ts);
    }
  }
}
