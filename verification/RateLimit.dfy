/** The per-key token bucket with idle eviction, in exact nanosecond credit: a
    token is worth `interval`, and a bucket holds at most `burst` tokens. */
module RateLimit {

  datatype Params = Params(interval: nat, burst: nat)
  {
    /** The credit of `n` tokens. */
    function Cost(n: nat): nat
    {
      if n == 0 then 0 else Cost(n - 1) + interval
    }

    function Capacity(): nat { Cost(burst) }

    predicate Valid() { interval >= 1 && burst >= 1 }
  }

  lemma {:induction false} CostIsProduct(p: Params, n: nat)
    ensures p.Cost(n) == n * p.interval
  {
    if n > 0 {
      CostIsProduct(p, n - 1);
    }
  }

  lemma {:induction false} CostGrows(p: Params, m: nat, n: nat)
    requires m <= n
    ensures p.Cost(m) <= p.Cost(n)
    ensures p.interval >= 1 && m < n ==> p.Cost(m) < p.Cost(n)
    decreases n
  {
    if m < n {
      CostGrows(p, m, n - 1);
    }
  }

  datatype Bucket = Bucket(credit: nat, last: int)

  function Min(a: int, b: int): int { if a < b then a else b }

  /** Credit at time `now`; a clock that went back earns nothing. */
  function CreditAt(p: Params, b: Bucket, now: int): nat
  {
    Min(p.Capacity(), b.credit + (if now < b.last then 0 else now - b.last))
  }

  function FullBucket(p: Params, now: int): Bucket { Bucket(p.Capacity(), now) }

  predicate Admits(p: Params, b: Bucket, now: int) { CreditAt(p, b, now) >= p.interval }

  /** rate.Limiter.AllowN(now, 1): a refused request leaves the bucket alone. */
  function Charge(p: Params, b: Bucket, now: int): Bucket
  {
    if Admits(p, b, now) then Bucket(CreditAt(p, b, now) - p.interval, now) else b
  }

  // ---------- the limiter as implemented ----------

  datatype Entry = Entry(bucket: Bucket, lastSeen: int)

  type Table = map<string, Entry>

  function BucketFor(p: Params, t: Table, key: string, now: int): Bucket
  {
    if key in t then t[key].bucket else FullBucket(p, now)
  }

  function AllowTable(p: Params, t: Table, key: string, now: int): Table
  {
    t[key := Entry(Charge(p, BucketFor(p, t, key, now), now), now)]
  }

  function CleanTable(t: Table, cutoff: int): Table
  {
    map k | k in t && t[k].lastSeen >= cutoff :: t[k]
  }

  class KeyedLimiter {
    const params: Params
    var keys: Table

    constructor (p: Params)
      ensures params == p && keys == map[]
    {
      params := p;
      keys := map[];
    }

    method Allow(key: string, now: int) returns (ok: bool)
      modifies this
      ensures keys == AllowTable(params, old(keys), key, now)
      ensures ok <==> Admits(params, BucketFor(params, old(keys), key, now), now)
    {
      if key !in keys {
        keys := keys[key := Entry(FullBucket(params, now), now)];
      }
      var entry := keys[key];
      ok := Admits(params, entry.bucket, now);
      keys := keys[key := Entry(Charge(params, entry.bucket, now), now)];
    }

    method Cleanup(cutoff: int) returns (evicted: nat)
      modifies this
      ensures keys == CleanTable(old(keys), cutoff)
      ensures evicted == |old(keys)| - |keys|
    {
      var todo := keys.Keys;
      evicted := 0;
      while todo != {}
        invariant todo <= keys.Keys <= old(keys).Keys
        invariant forall k :: k in keys ==> keys[k] == old(keys)[k]
        invariant forall k :: k in keys && k !in todo ==> keys[k].lastSeen >= cutoff
        invariant forall k :: k in old(keys) && k !in keys ==> old(keys)[k].lastSeen < cutoff
        invariant evicted == |old(keys).Keys| - |keys.Keys|
        decreases |todo|
      {
        var k :| k in todo;
        todo := todo - {k};
        if keys[k].lastSeen < cutoff {
          assert (keys - {k}).Keys == keys.Keys - {k};
          keys := keys - {k};
          evicted := evicted + 1;
        }
      }
      assert |old(keys)| == |old(keys).Keys| && |keys| == |keys.Keys|;
    }
  }

  // ---------- histories ----------

  datatype Event = Request(key: string, at: int) | Sweep(at: int)

  ghost predicate Chronological(h: seq<Event>)
  {
    forall i, j :: 0 <= i < j < |h| ==> h[i].at <= h[j].at
  }

  datatype Served = Served(table: Table, answers: seq<bool>)

  function ServeStep(p: Params, idle: nat, s: Served, e: Event): Served
  {
    match e
    case Request(k, now) =>
      Served(AllowTable(p, s.table, k, now), s.answers + [Admits(p, BucketFor(p, s.table, k, now), now)])
    case Sweep(now) => s.(table := CleanTable(s.table, now - idle))
  }

  /** The implemented limiter, swept with the given idle time. */
  function Serve(p: Params, idle: nat, h: seq<Event>): Served
  {
    if h == [] then Served(map[], [])
    else ServeStep(p, idle, Serve(p, idle, h[..|h| - 1]), h[|h| - 1])
  }

  /** The reference: one bucket per key, kept for ever. */
  datatype Ideal = Ideal(buckets: map<string, Bucket>, answers: seq<bool>)

  function IdealBucket(p: Params, m: map<string, Bucket>, key: string, now: int): Bucket
  {
    if key in m then m[key] else FullBucket(p, now)
  }

  function IdealStep(p: Params, s: Ideal, e: Event): Ideal
  {
    match e
    case Request(k, now) =>
      var b := IdealBucket(p, s.buckets, k, now);
      Ideal(s.buckets[k := Charge(p, b, now)], s.answers + [Admits(p, b, now)])
    case Sweep(_) => s
  }

  function ServeIdeal(p: Params, h: seq<Event>): Ideal
  {
    if h == [] then Ideal(map[], [])
    else IdealStep(p, ServeIdeal(p, h[..|h| - 1]), h[|h| - 1])
  }

  // ---------- the rate bound ----------

  /** How many requests of `k` in the window [lo, hi] got a positive answer. */
  ghost function AdmittedIn(h: seq<Event>, answers: seq<bool>, k: string, lo: int, hi: int): nat
    decreases |h|
  {
    if h == [] then 0
    else
      var n, e := |h| - 1, h[|h| - 1];
      if e.Sweep? then AdmittedIn(h[..n], answers, k, lo, hi)
      else if answers == [] then 0
      else
        var last := |answers| - 1;
        AdmittedIn(h[..n], answers[..last], k, lo, hi)
        + (if e.key == k && lo <= e.at <= hi && answers[last] then 1 else 0)
  }

  /** The last event is counted exactly if it is an admitted request of `k` in the window. */
  ghost predicate CountsLast(p: Params, h: seq<Event>, k: string, lo: int, hi: int)
    requires h != []
  {
    var e := h[|h| - 1];
    && e.Request? && e.key == k && lo <= e.at <= hi
    && Admits(p, IdealBucket(p, ServeIdeal(p, h[..|h| - 1]).buckets, k, e.at), e.at)
  }

  ghost function IdealAdmittedIn(p: Params, h: seq<Event>, k: string, lo: int, hi: int): nat
  {
    AdmittedIn(h, ServeIdeal(p, h).answers, k, lo, hi)
  }

  lemma CountOne(p: Params, h: seq<Event>, k: string, lo: int, hi: int)
    requires h != []
    ensures IdealAdmittedIn(p, h, k, lo, hi)
         == IdealAdmittedIn(p, h[..|h| - 1], k, lo, hi) + (if CountsLast(p, h, k, lo, hi) then 1 else 0)
  {
    var n, e := |h| - 1, h[|h| - 1];
    var s := ServeIdeal(p, h[..n]);
    if e.Request? {
      var x := Admits(p, IdealBucket(p, s.buckets, e.key, e.at), e.at);
      assert (s.answers + [x])[..|s.answers|] == s.answers;
    }
  }

  function IdealCredit(p: Params, m: map<string, Bucket>, k: string, now: int): nat
  {
    CreditAt(p, IdealBucket(p, m, k, now), now)
  }

  lemma ChargeCosts(p: Params, b: Bucket, at: int)
    requires Admits(p, b, at)
    ensures CreditAt(p, Charge(p, b, at), at) == CreditAt(p, b, at) - p.interval
  {
  }

  /** One event at `at`: an admission is paid from the credit, time earns at most
      itself, and other keys do not matter. */
  lemma StepPays(p: Params, s: Ideal, e: Event, k: string, at: int, now: int)
    requires e.at == at <= now && (k in s.buckets ==> s.buckets[k].last <= at)
    ensures var s' := IdealStep(p, s, e);
            var admitted := e.Request? && e.key == k && Admits(p, IdealBucket(p, s.buckets, k, at), at);
            var paid := if admitted then p.interval else 0;
            && IdealCredit(p, s'.buckets, k, now) + paid <= IdealCredit(p, s.buckets, k, at) + (now - at)
            && (k in s'.buckets ==> s'.buckets[k].last <= at)
  {
    if e.Request? && e.key == k && Admits(p, IdealBucket(p, s.buckets, k, at), at) {
      ChargeCosts(p, IdealBucket(p, s.buckets, k, at), at);
    }
  }

  lemma {:induction false} NoneBefore(p: Params, h: seq<Event>, k: string, lo: int, hi: int)
    requires forall i :: 0 <= i < |h| ==> h[i].at < lo
    ensures IdealAdmittedIn(p, h, k, lo, hi) == 0
  {
    if h != [] {
      CountOne(p, h, k, lo, hi);
      NoneBefore(p, h[..|h| - 1], k, lo, hi);
    }
  }

  lemma {:induction false} LastIsPast(p: Params, h: seq<Event>, k: string)
    requires Chronological(h)
    ensures k in ServeIdeal(p, h).buckets ==> h != [] && ServeIdeal(p, h).buckets[k].last <= h[|h| - 1].at
  {
    if h != [] {
      LastIsPast(p, h[..|h| - 1], k);
    }
  }

  /** Admissions in a window are paid for by one full bucket and the time elapsed. */
  lemma {:induction false} AdmissionsArePaid(p: Params, h: seq<Event>, k: string, lo: int, hi: int, now: int)
    requires Chronological(h) && lo <= now <= hi && (h != [] ==> h[|h| - 1].at <= now)
    ensures p.Cost(IdealAdmittedIn(p, h, k, lo, hi)) + IdealCredit(p, ServeIdeal(p, h).buckets, k, now)
         <= p.Capacity() + (now - lo)
    decreases |h|
  {
    if h != [] {
      var n := |h| - 1;
      if h[n].at < lo {
        NoneBefore(p, h, k, lo, hi);
      } else {
        AdmissionsArePaid(p, h[..n], k, lo, hi, h[n].at);
        OneMoreIsPaid(p, h, k, lo, hi, now);
      }
    }
  }

  lemma OneMoreIsPaid(p: Params, h: seq<Event>, k: string, lo: int, hi: int, now: int)
    requires Chronological(h) && h != [] && lo <= h[|h| - 1].at <= now <= hi
    requires p.Cost(IdealAdmittedIn(p, h[..|h| - 1], k, lo, hi))
             + IdealCredit(p, ServeIdeal(p, h[..|h| - 1]).buckets, k, h[|h| - 1].at)
          <= p.Capacity() + (h[|h| - 1].at - lo)
    ensures p.Cost(IdealAdmittedIn(p, h, k, lo, hi)) + IdealCredit(p, ServeIdeal(p, h).buckets, k, now)
         <= p.Capacity() + (now - lo)
  {
    CountOne(p, h, k, lo, hi);
    CostStep(p, IdealAdmittedIn(p, h[..|h| - 1], k, lo, hi), CountsLast(p, h, k, lo, hi));
    LastPays(p, h, k, lo, hi, now);
  }

  lemma LastPays(p: Params, h: seq<Event>, k: string, lo: int, hi: int, now: int)
    requires Chronological(h) && h != [] && lo <= h[|h| - 1].at <= now <= hi
    ensures IdealCredit(p, ServeIdeal(p, h).buckets, k, now) + (if CountsLast(p, h, k, lo, hi) then p.interval else 0)
         <= IdealCredit(p, ServeIdeal(p, h[..|h| - 1]).buckets, k, h[|h| - 1].at) + (now - h[|h| - 1].at)
  {
    var n := |h| - 1;
    LastIsPast(p, h[..n], k);
    StepPays(p, ServeIdeal(p, h[..n]), h[n], k, h[n].at, now);
  }

  lemma CostStep(p: Params, n: nat, more: bool)
    ensures p.Cost(n + (if more then 1 else 0)) == p.Cost(n) + (if more then p.interval else 0)
  {
  }

  lemma {:induction false} NoneAfter(p: Params, h: seq<Event>, k: string, lo: int, hi: int) returns (n: nat)
    requires Chronological(h)
    ensures n <= |h| && IdealAdmittedIn(p, h, k, lo, hi) == IdealAdmittedIn(p, h[..n], k, lo, hi)
    ensures n > 0 ==> h[n - 1].at <= hi
  {
    n := |h|;
    if h == [] || h[n - 1].at <= hi {
      assert h[..n] == h;
    } else {
      CountOne(p, h, k, lo, hi);
      n := NoneAfter(p, h[..|h| - 1], k, lo, hi);
      assert h[..|h| - 1][..n] == h[..n];
    }
  }

  /** In any window of length `span`, one key is admitted at most burst plus one
      per elapsed interval, whatever the other keys do. */
  lemma WindowBound(p: Params, h: seq<Event>, k: string, lo: int, span: nat)
    requires p.Valid() && Chronological(h)
    ensures IdealAdmittedIn(p, h, k, lo, lo + span) <= p.burst + span / p.interval
  {
    var n := NoneAfter(p, h, k, lo, lo + span);
    AdmissionsArePaid(p, h[..n], k, lo, lo + span, lo + span);
    TokensForCredit(p, IdealAdmittedIn(p, h, k, lo, lo + span), span);
  }

  lemma {:induction false} CostAdds(p: Params, m: nat, n: nat)
    ensures p.Cost(m + n) == p.Cost(m) + p.Cost(n)
  {
    if n > 0 {
      CostAdds(p, m, n - 1);
    }
  }

  /** The whole tokens earned in `span`. */
  lemma EarnedTokens(p: Params, span: nat)
    requires p.interval >= 1
    ensures p.Cost(span / p.interval) <= span < p.Cost(span / p.interval + 1)
  {
    CostIsProduct(p, span / p.interval);
    assert p.Cost(span / p.interval + 1) == p.Cost(span / p.interval) + p.interval;
  }

  lemma TokensForCredit(p: Params, n: nat, span: nat)
    requires p.Valid() && p.Cost(n) <= p.Capacity() + span
    ensures n <= p.burst + span / p.interval
  {
    var q := span / p.interval;
    EarnedTokens(p, span);
    CostAdds(p, p.burst, q + 1);
    CostReflects(p, n, p.burst + (q + 1));
  }

  lemma CostReflects(p: Params, n: nat, k: nat)
    requires p.Valid() && p.Cost(n) < p.Cost(k)
    ensures n < k
  {
    if k <= n {
      CostGrows(p, k, n);
    }
  }

  // ---------- eviction is invisible, exactly when ----------

  /** What eviction may have dropped is full from `now` on. */
  ghost predicate Refines(p: Params, t: Table, m: map<string, Bucket>, now: int)
  {
    && (forall k :: k in t ==> k in m && t[k].bucket == m[k] && m[k].last <= t[k].lastSeen <= now)
    && (forall k :: k in m && k !in t ==> m[k].last <= now && m[k].credit + (now - m[k].last) >= p.Capacity())
  }

  lemma RequestRefines(p: Params, t: Table, m: map<string, Bucket>, before: int, k: string, now: int)
    requires p.Valid() && Refines(p, t, m, before) && before <= now
    ensures var b, c := BucketFor(p, t, k, now), IdealBucket(p, m, k, now);
            && Admits(p, b, now) == Admits(p, c, now)
            && Refines(p, AllowTable(p, t, k, now), m[k := Charge(p, c, now)], now)
  {
    if k in m && k !in t {
      assert CreditAt(p, m[k], now) == p.Capacity();
      CostGrows(p, 1, p.burst);
    }
  }

  lemma SweepRefines(p: Params, t: Table, m: map<string, Bucket>, before: int, now: int, idle: nat)
    requires p.Capacity() <= idle + 1 && Refines(p, t, m, before) && before <= now
    ensures Refines(p, CleanTable(t, now - idle), m, now)
  {
  }

  lemma {:induction false} EvictionRefines(p: Params, idle: nat, h: seq<Event>, now: int)
    requires p.Valid() && p.Capacity() <= idle + 1 && Chronological(h)
    requires h != [] ==> h[|h| - 1].at <= now
    ensures Serve(p, idle, h).answers == ServeIdeal(p, h).answers
    ensures Refines(p, Serve(p, idle, h).table, ServeIdeal(p, h).buckets, now)
    decreases |h|
  {
    if h != [] {
      var n := |h| - 1;
      var before := if n == 0 then h[n].at else h[n - 1].at;
      EvictionRefines(p, idle, h[..n], before);
      var s, i := Serve(p, idle, h[..n]), ServeIdeal(p, h[..n]);
      match h[n]
      case Request(k, at) => RequestRefines(p, s.table, i.buckets, before, k, at);
      case Sweep(at) => SweepRefines(p, s.table, i.buckets, before, at, idle);
    }
  }

  /** `n` requests of one key at one instant. */
  function Batch(n: nat, at: int): (b: seq<Event>)
    ensures |b| == n && forall i :: 0 <= i < n ==> b[i] == Request("", at)
  {
    seq(n, i => Request("", at))
  }

  function TableCredit(p: Params, t: Table, now: int): nat
  {
    CreditAt(p, BucketFor(p, t, "", now), now)
  }

  ghost function CountTrue(a: seq<bool>): nat
  {
    if a == [] then 0 else CountTrue(a[..|a| - 1]) + (if a[|a| - 1] then 1 else 0)
  }

  /** As long as the credit lasts, a batch is admitted whole and costs a token each. */
  lemma {:induction false} BatchAdmitted(p: Params, idle: nat, h: seq<Event>, n: nat, at: int)
    requires p.Valid() && p.Cost(n) <= TableCredit(p, Serve(p, idle, h).table, at)
    ensures var s, s' := Serve(p, idle, h), Serve(p, idle, h + Batch(n, at));
            && CountTrue(s'.answers) == CountTrue(s.answers) + n
            && TableCredit(p, s'.table, at) == TableCredit(p, s.table, at) - p.Cost(n)
            && (n > 0 ==> s'.table.Keys == s.table.Keys + {""} && s'.table[""].lastSeen == at)
    decreases n
  {
    if n == 0 {
      assert h + Batch(0, at) == h;
    } else {
      BatchAdmitted(p, idle, h, n - 1, at);
      var g := h + Batch(n - 1, at);
      BatchSnoc(h, n, at);
      ServeSnoc(p, idle, g, Request("", at));
      AdmitOne(p, idle, Serve(p, idle, g), at);
    }
  }

  lemma BatchSnoc(h: seq<Event>, n: nat, at: int)
    requires n > 0
    ensures h + Batch(n, at) == h + Batch(n - 1, at) + [Request("", at)]
  {
    assert Batch(n, at) == Batch(n - 1, at) + [Request("", at)];
  }

  lemma ServeSnoc(p: Params, idle: nat, h: seq<Event>, e: Event)
    ensures Serve(p, idle, h + [e]) == ServeStep(p, idle, Serve(p, idle, h), e)
  {
    assert (h + [e])[..|h|] == h;
  }

  lemma AdmitOne(p: Params, idle: nat, s: Served, at: int)
    requires TableCredit(p, s.table, at) >= p.interval
    ensures var s' := ServeStep(p, idle, s, Request("", at));
            && CountTrue(s'.answers) == CountTrue(s.answers) + 1
            && TableCredit(p, s'.table, at) == TableCredit(p, s.table, at) - p.interval
            && s'.table.Keys == s.table.Keys + {""} && s'.table[""].lastSeen == at
  {
    ChargeCosts(p, BucketFor(p, s.table, "", at), at);
    assert (s.answers + [true])[..|s.answers|] == s.answers;
  }

  /** Drain the bucket, sweep just after the idle time, ask again. */
  function Probe(p: Params, idle: nat, m: nat): seq<Event>
  {
    Batch(p.burst, 0) + [Sweep(idle + 1)] + Batch(m, idle + 1)
  }

  lemma ProbeShape(p: Params, idle: nat, m: nat)
    ensures var h := Probe(p, idle, m);
            && Chronological(h)
            && forall i :: 0 <= i < |h| && h[i].Request? ==> h[i].key == "" && 0 <= h[i].at <= idle + 1
  {
  }

  lemma ProbeEvicting(p: Params, idle: nat, m: nat)
    requires p.Valid() && m <= p.burst
    ensures CountTrue(Serve(p, idle, Probe(p, idle, m)).answers) == p.burst + m
  {
    var a := Batch(p.burst, 0);
    BatchAdmitted(p, idle, [], p.burst, 0);
    assert [] + a == a;
    var b := a + [Sweep(idle + 1)];
    assert b[..|a|] == a;
    CostGrows(p, m, p.burst);
    BatchAdmitted(p, idle, b, m, idle + 1);
  }

  /** With a single key, all of whose requests fall in the window, the admissions
      are the positive answers. */
  lemma {:induction false} AnswersAreAdmissions(p: Params, h: seq<Event>, lo: int, hi: int)
    requires forall i :: 0 <= i < |h| && h[i].Request? ==> h[i].key == "" && lo <= h[i].at <= hi
    ensures CountTrue(ServeIdeal(p, h).answers) == IdealAdmittedIn(p, h, "", lo, hi)
  {
    if h != [] {
      var n := |h| - 1;
      CountOne(p, h, "", lo, hi);
      AnswersAreAdmissions(p, h[..n], lo, hi);
      var s := ServeIdeal(p, h[..n]);
      if h[n].Request? {
        var x := Admits(p, IdealBucket(p, s.buckets, "", h[n].at), h[n].at);
        assert (s.answers + [x])[..|s.answers|] == s.answers;
      }
    }
  }

  lemma FewTokens(p: Params, idle: nat)
    requires p.Valid() && p.Capacity() > idle + 1
    ensures (idle + 1) / p.interval < p.burst
  {
    EarnedTokens(p, idle + 1);
    CostReflects(p, (idle + 1) / p.interval, p.burst);
  }

  lemma ProbeIdeal(p: Params, idle: nat, m: nat)
    requires p.Valid()
    ensures CountTrue(ServeIdeal(p, Probe(p, idle, m)).answers) <= p.burst + (idle + 1) / p.interval
  {
    ProbeShape(p, idle, m);
    AnswersAreAdmissions(p, Probe(p, idle, m), 0, idle + 1);
    WindowBound(p, Probe(p, idle, m), "", 0, idle + 1);
  }

  /** A bucket that cannot refill in the idle time is caught by the probe. */
  lemma EvictionVisible(p: Params, idle: nat) returns (h: seq<Event>)
    requires p.Valid() && p.Capacity() > idle + 1
    ensures Chronological(h) && Serve(p, idle, h).answers != ServeIdeal(p, h).answers
  {
    var m := (idle + 1) / p.interval;
    FewTokens(p, idle);
    h := Probe(p, idle, m + 1);
    ProbeShape(p, idle, m + 1);
    ProbeEvicting(p, idle, m + 1);
    ProbeIdeal(p, idle, m + 1);
  }

  /** Idle eviction never changes an answer, over all chronological histories, if
      and only if a bucket refills within the idle time (to the nanosecond). */
  lemma EvictionInvisibleExactly(p: Params, idle: nat)
    requires p.Valid()
    ensures (forall h: seq<Event> :: Chronological(h) ==> Serve(p, idle, h).answers == ServeIdeal(p, h).answers)
            <==> p.burst * p.interval <= idle + 1
  {
    CostIsProduct(p, p.burst);
    if p.burst * p.interval <= idle + 1 {
      forall h: seq<Event> | Chronological(h)
        ensures Serve(p, idle, h).answers == ServeIdeal(p, h).answers
      {
        EvictionRefines(p, idle, h, if h == [] then 0 else h[|h| - 1].at);
      }
    } else {
      var h := EvictionVisible(p, idle);
    }
  }

  const Second: nat := 1_000_000_000
  const IdleTTL: nat := 3600 * Second

  /** The broker's limiter: a non-positive option falls back to 30 a minute and a
      burst of 10; the interval is a minute divided by the rate, rounded down. */
  function BrokerParams(ratePerMinute: int, burst: int): Params
  {
    Params(60 * Second / (if ratePerMinute <= 0 then 30 else ratePerMinute), if burst <= 0 then 10 else burst)
  }

  /** For every rate: the longest whole number of nanoseconds that many of which fit
      in a minute; 30 a minute and a burst of 10 where the option is not positive. */
  lemma BrokerParamsExactly(rate: int, burst: int)
    ensures var p := BrokerParams(rate, burst);
            && (rate > 0 ==> p.interval * rate <= 60_000_000_000 < (p.interval + 1) * rate)
            && (rate <= 0 ==> p.interval == 2_000_000_000)
            && p.burst == (if burst > 0 then burst else 10)
            && (p.Valid() <==> rate <= 60_000_000_000)
  {
    if rate > 0 {
      var q := 60_000_000_000 / rate;
      assert 60_000_000_000 == q * rate + 60_000_000_000 % rate;
      assert (q + 1) * rate == q * rate + rate;
      assert rate > 60_000_000_000 ==> q == 0;
      assert rate <= 60_000_000_000 ==> q >= 1;
    }
  }

  /** With the broker's one-hour idle time the defaults are safe, and one admission
      a minute stays safe up to a burst of 60 but not beyond. */
  lemma BrokerEviction(burst: int)
    requires burst > 0
    ensures forall h: seq<Event> :: Chronological(h) ==>
              Serve(BrokerParams(0, 0), IdleTTL, h).answers == ServeIdeal(BrokerParams(0, 0), h).answers
    ensures (forall h: seq<Event> :: Chronological(h) ==>
              Serve(BrokerParams(1, burst), IdleTTL, h).answers == ServeIdeal(BrokerParams(1, burst), h).answers)
            <==> burst <= 60
  {
    EvictionInvisibleExactly(BrokerParams(0, 0), IdleTTL);
    EvictionInvisibleExactly(BrokerParams(1, burst), IdleTTL);
  }

  /** So the rate bound survives sweeping. */
  lemma WindowBoundSwept(p: Params, idle: nat, h: seq<Event>, k: string, lo: int, span: nat)
    requires p.Valid() && Chronological(h) && p.burst * p.interval <= idle + 1
    ensures AdmittedIn(h, Serve(p, idle, h).answers, k, lo, lo + span) <= p.burst + span / p.interval
  {
    CostIsProduct(p, p.burst);
    EvictionRefines(p, idle, h, if h == [] then 0 else h[|h| - 1].at);
    WindowBound(p, h, k, lo, span);
  }

  /** No request of `k` in `h` is later than `at`. */
  ghost predicate QuietSince(h: seq<Event>, k: string, at: int)
  {
    forall i :: 0 <= i < |h| && h[i].Request? && h[i].key == k ==> h[i].at <= at
  }

  lemma {:induction false} ChargedBefore(p: Params, idle: nat, h: seq<Event>, k: string, at: int)
    requires QuietSince(h, k, at)
    ensures k in Serve(p, idle, h).table ==> Serve(p, idle, h).table[k].bucket.last <= at
  {
    if h != [] {
      ChargedBefore(p, idle, h[..|h| - 1], k, at);
    }
  }

  /** A key that keeps its pace is never refused: a request at least one interval
      after all earlier ones of its key is admitted, whatever other keys and sweeps
      do. In particular a new key is. */
  lemma PacedIsAdmitted(p: Params, idle: nat, h: seq<Event>, k: string, now: int)
    requires p.Valid() && QuietSince(h, k, now - p.interval)
    ensures Admits(p, BucketFor(p, Serve(p, idle, h).table, k, now), now)
  {
    ChargedBefore(p, idle, h, k, now - p.interval);
    CostGrows(p, 1, p.burst);
    assert p.Cost(1) == p.interval;
  }

  // ---------- keys are isolated ----------

  /** What one key can notice: its own requests, and every sweep. */
  function Project(h: seq<Event>, k: string): seq<Event>
  {
    if h == [] then []
    else
      var e := h[|h| - 1];
      Project(h[..|h| - 1], k) + (if e.Sweep? || e.key == k then [e] else [])
  }

  /** Of all answers, those to the requests of one key. */
  function KeyAnswers(h: seq<Event>, answers: seq<bool>, k: string): seq<bool>
    decreases |h|
  {
    if h == [] then []
    else
      var n, e := |h| - 1, h[|h| - 1];
      if e.Sweep? then KeyAnswers(h[..n], answers, k)
      else if answers == [] then []
      else
        var last := |answers| - 1;
        KeyAnswers(h[..n], answers[..last], k) + (if e.key == k then [answers[last]] else [])
  }

  predicate SameEntry(t: Table, t': Table, k: string)
  {
    (k in t <==> k in t') && (k in t ==> t[k] == t'[k])
  }

  /** A key is answered, and its entry kept or evicted, as if no other key existed:
      for the limiter as implemented, at any idle time and in any history. */
  lemma {:induction false} KeysIsolated(p: Params, idle: nat, h: seq<Event>, k: string)
    ensures KeyAnswers(h, Serve(p, idle, h).answers, k) == Serve(p, idle, Project(h, k)).answers
    ensures SameEntry(Serve(p, idle, h).table, Serve(p, idle, Project(h, k)).table, k)
  {
    if h != [] {
      var n := |h| - 1;
      KeysIsolated(p, idle, h[..n], k);
      var e, g := h[n], Project(h[..n], k);
      var s := Serve(p, idle, h[..n]);
      if e.Request? {
        var x := Admits(p, BucketFor(p, s.table, e.key, e.at), e.at);
        assert (s.answers + [x])[..|s.answers|] == s.answers;
      }
      if e.Sweep? || e.key == k {
        ServeSnoc(p, idle, g, e);
      } else {
        assert g + [] == g;
      }
    }
  }

  // ---------- refusals are free, exactly when ----------

  lemma RefusalKeepsBuckets(p: Params, s: Ideal, e: Event)
    requires p.Valid() && e.Request? && !Admits(p, IdealBucket(p, s.buckets, e.key, e.at), e.at)
    ensures IdealStep(p, s, e) == Ideal(s.buckets, s.answers + [false])
  {
    CostGrows(p, 1, p.burst);
    assert e.key in s.buckets;
    assert s.buckets[e.key := s.buckets[e.key]] == s.buckets;
  }

  lemma IdealSnoc(p: Params, h: seq<Event>, e: Event)
    ensures ServeIdeal(p, h + [e]) == IdealStep(p, ServeIdeal(p, h), e)
  {
    assert (h + [e])[..|h|] == h;
  }

  /** `with` is `without` with one refusal more, at position `at`. */
  predicate OneRefusalMore(with: seq<bool>, without: seq<bool>, at: nat)
  {
    at <= |without| && with == without[..at] + [false] + without[at..]
  }

  lemma RefusalMoreGrows(with: seq<bool>, without: seq<bool>, at: nat, x: bool)
    requires OneRefusalMore(with, without, at)
    ensures OneRefusalMore(with + [x], without + [x], at)
  {
    assert (without + [x])[..at] == without[..at] && (without + [x])[at..] == without[at..] + [x];
  }

  /** Without eviction, leaving out a refused request changes no other answer. */
  lemma {:induction false} IdealRefusalsAreFree(p: Params, h: seq<Event>, e: Event, later: seq<Event>)
    requires p.Valid() && e.Request?
    requires !Admits(p, IdealBucket(p, ServeIdeal(p, h).buckets, e.key, e.at), e.at)
    ensures var with, without := ServeIdeal(p, h + [e] + later), ServeIdeal(p, h + later);
            && with.buckets == without.buckets
            && OneRefusalMore(with.answers, without.answers, |ServeIdeal(p, h).answers|)
    decreases |later|
  {
    if later == [] {
      assert h + [e] + later == h + [e] && h + later == h;
      IdealSnoc(p, h, e);
      RefusalKeepsBuckets(p, ServeIdeal(p, h), e);
    } else {
      var n := |later| - 1;
      IdealRefusalsAreFree(p, h, e, later[..n]);
      assert h + [e] + later == (h + [e] + later[..n]) + [later[n]];
      assert h + later == (h + later[..n]) + [later[n]];
      IdealSnoc(p, h + [e] + later[..n], later[n]);
      IdealSnoc(p, h + later[..n], later[n]);
      var with, without := ServeIdeal(p, h + [e] + later[..n]), ServeIdeal(p, h + later[..n]);
      if later[n].Request? {
        var x := Admits(p, IdealBucket(p, with.buckets, later[n].key, later[n].at), later[n].at);
        RefusalMoreGrows(with.answers, without.answers, |ServeIdeal(p, h).answers|, x);
      }
    }
  }

  /** `e` is a request that the limiter refuses after `h`. */
  ghost predicate RefusedAfter(p: Params, idle: nat, h: seq<Event>, e: Event)
  {
    e.Request? && !Admits(p, BucketFor(p, Serve(p, idle, h).table, e.key, e.at), e.at)
  }

  /** Leaving out the refused request `e` changes no other answer. */
  ghost predicate RefusalFree(p: Params, idle: nat, h: seq<Event>, e: Event, later: seq<Event>)
  {
    OneRefusalMore(Serve(p, idle, h + [e] + later).answers, Serve(p, idle, h + later).answers,
                   |Serve(p, idle, h).answers|)
  }

  lemma ChronologicalParts(h: seq<Event>, e: Event, later: seq<Event>)
    requires Chronological(h + [e] + later)
    ensures Chronological(h) && Chronological(h + [e]) && Chronological(h + later)
    ensures h != [] ==> h[|h| - 1].at <= e.at
  {
    var g, a, b := h + [e] + later, h + [e], h + later;
    assert forall i :: 0 <= i < |h| ==> h[i] == g[i];
    assert forall i :: 0 <= i < |a| ==> a[i] == g[i];
    assert forall i :: 0 <= i < |b| ==> b[i] == g[if i < |h| then i else i + 1];
    assert g[|h|] == e;
  }

  function LastAt(h: seq<Event>): int
  {
    if h == [] then 0 else h[|h| - 1].at
  }

  /** If buckets refill within the idle time, refusals are free. */
  lemma RefusalsAreFree(p: Params, idle: nat, h: seq<Event>, e: Event, later: seq<Event>)
    requires p.Valid() && p.burst * p.interval <= idle + 1
    requires Chronological(h + [e] + later) && RefusedAfter(p, idle, h, e)
    ensures RefusalFree(p, idle, h, e, later)
  {
    CostIsProduct(p, p.burst);
    ChronologicalParts(h, e, later);
    EvictionRefines(p, idle, h, e.at);
    RequestRefines(p, Serve(p, idle, h).table, ServeIdeal(p, h).buckets, e.at, e.key, e.at);
    EvictionRefines(p, idle, h + [e] + later, LastAt(h + [e] + later));
    EvictionRefines(p, idle, h + later, LastAt(h + later));
    IdealRefusalsAreFree(p, h, e, later);
  }

  /** With an interval of one nanosecond, entries are never seen later than charged. */
  ghost predicate SeenWhenCharged(t: Table, now: int)
  {
    forall k :: k in t ==> t[k].bucket.last == t[k].lastSeen <= now
  }

  lemma {:induction false} NanosecondTable(p: Params, idle: nat, h: seq<Event>, now: int)
    requires p.Valid() && p.interval == 1 && Chronological(h) && (h != [] ==> h[|h| - 1].at <= now)
    ensures SeenWhenCharged(Serve(p, idle, h).table, now)
    decreases |h|
  {
    if h != [] {
      var n := |h| - 1;
      NanosecondTable(p, idle, h[..n], h[n].at);
      var t := Serve(p, idle, h[..n]).table;
      if h[n].Request? {
        NanosecondRequest(p, t, h[n].key, h[n].at);
      }
    }
  }

  /** A refused request finds a bucket charged at the same instant: nothing changes. */
  lemma NanosecondRequest(p: Params, t: Table, k: string, now: int)
    requires p.Valid() && p.interval == 1 && SeenWhenCharged(t, now)
    ensures SeenWhenCharged(AllowTable(p, t, k, now), now)
    ensures !Admits(p, BucketFor(p, t, k, now), now) ==> AllowTable(p, t, k, now) == t
  {
    CostGrows(p, 1, p.burst);
    assert p.Cost(1) == 1;
    if !Admits(p, BucketFor(p, t, k, now), now) {
      assert k in t && t[k].bucket.last == now;
      assert t[k := t[k]] == t;
    }
  }

  lemma {:induction false} RefusalsAreFreeNanosecond(p: Params, idle: nat, h: seq<Event>, e: Event, later: seq<Event>)
    requires p.Valid() && p.interval == 1
    requires Chronological(h + [e]) && RefusedAfter(p, idle, h, e)
    ensures RefusalFree(p, idle, h, e, later)
    ensures Serve(p, idle, h + [e] + later).table == Serve(p, idle, h + later).table
    decreases |later|
  {
    if later == [] {
      assert h + [e] + later == h + [e] && h + later == h;
      ChronologicalParts(h, e, []);
      NanosecondTable(p, idle, h, e.at);
      NanosecondRequest(p, Serve(p, idle, h).table, e.key, e.at);
      ServeSnoc(p, idle, h, e);
    } else {
      var n := |later| - 1;
      RefusalsAreFreeNanosecond(p, idle, h, e, later[..n]);
      assert h + [e] + later == (h + [e] + later[..n]) + [later[n]];
      assert h + later == (h + later[..n]) + [later[n]];
      ServeSnoc(p, idle, h + [e] + later[..n], later[n]);
      ServeSnoc(p, idle, h + later[..n], later[n]);
      var with, without := Serve(p, idle, h + [e] + later[..n]), Serve(p, idle, h + later[..n]);
      if later[n].Request? {
        var x := Admits(p, BucketFor(p, with.table, later[n].key, later[n].at), later[n].at);
        RefusalMoreGrows(with.answers, without.answers, |Serve(p, idle, h).answers|, x);
      }
    }
  }

  /** After draining at time 0, a sweep at `idle + 1` evicts the entry; a refused
      request at time 1 saves it. */
  lemma DrainedThenSwept(p: Params, idle: nat)
    requires p.Valid() && p.interval >= 2
    ensures var h, e, sweep := Batch(p.burst, 0), Request("", 1), Sweep(idle + 1);
            && RefusedAfter(p, idle, h, e)
            && Serve(p, idle, h + [sweep]).table == map[]
            && var t := Serve(p, idle, h + [e] + [sweep]).table;
               "" in t && t[""].bucket.last <= 1 && CreditAt(p, t[""].bucket, idle + 1) == Min(p.Capacity(), idle + 1)
  {
    var h, e, sweep := Batch(p.burst, 0), Request("", 1), Sweep(idle + 1);
    DrainedTable(p, idle, p.burst);
    ServeSnoc(p, idle, h, sweep);
    ServeSnoc(p, idle, h, e);
    ServeSnoc(p, idle, h + [e], sweep);
  }

  lemma {:induction false} DrainedTable(p: Params, idle: nat, n: nat)
    requires p.Valid() && 0 < n <= p.burst
    ensures p.Cost(n) <= p.Capacity()
    ensures Serve(p, idle, Batch(n, 0)).table == map["" := Entry(Bucket(p.Capacity() - p.Cost(n), 0), 0)]
    decreases n
  {
    CostGrows(p, n, p.burst);
    var g := Batch(n - 1, 0);
    assert Batch(n, 0) == g + [Request("", 0)];
    ServeSnoc(p, idle, g, Request("", 0));
    var t := Serve(p, idle, g).table;
    if n == 1 {
      assert g == [];
    } else {
      DrainedTable(p, idle, n - 1);
    }
    ChargeOnce(p, t, p.Capacity() - p.Cost(n - 1));
  }

  lemma ChargeOnce(p: Params, t: Table, credit: nat)
    requires p.interval <= credit <= p.Capacity()
    requires t == map["" := Entry(Bucket(credit, 0), 0)] || (t == map[] && credit == p.Capacity())
    ensures AllowTable(p, t, "", 0) == map["" := Entry(Bucket(credit - p.interval, 0), 0)]
  {
    assert BucketFor(p, t, "", 0) == Bucket(credit, 0);
  }

  /** Sweep, spend `m` tokens, ask for one more. */
  function Ask(m: nat, now: int): seq<Event>
  {
    [Sweep(now)] + Batch(m, now) + [Request("", now)]
  }

  lemma AskAnswers(p: Params, idle: nat, h: seq<Event>, m: nat, now: int)
    requires p.Valid() && p.Cost(m) <= TableCredit(p, Serve(p, idle, h + [Sweep(now)]).table, now)
    ensures var a := Serve(p, idle, h + Ask(m, now)).answers;
            && |Serve(p, idle, h).answers| < |a|
            && (a[|a| - 1] <==> p.Cost(m + 1) <= TableCredit(p, Serve(p, idle, h + [Sweep(now)]).table, now))
  {
    var b := [Sweep(now)] + Batch(m, now);
    LastAnswer(p, idle, h + [Sweep(now)], m, now);
    assert h + Ask(m, now) == h + [Sweep(now)] + Batch(m, now) + [Request("", now)];
    assert h + Ask(m, now) == h + b + [Request("", now)];
    AnswersGrow(p, idle, h, b);
    ServeSnoc(p, idle, h + b, Request("", now));
  }

  lemma AskChronological(n: nat, m: nat, now: int)
    requires now >= 1
    ensures Chronological(Batch(n, 0) + [Request("", 1)] + Ask(m, now))
  {
  }

  /** The tokens earned in the idle time, plus one, would fit in a full bucket. */
  lemma DebtTokens(p: Params, idle: nat)
    requires p.Valid() && p.Capacity() > idle + 1
    ensures var m := (idle + 1) / p.interval;
            p.Cost(m) <= idle + 1 < p.Cost(m + 1) <= p.Capacity()
  {
    FewTokens(p, idle);
    EarnedTokens(p, idle + 1);
    CostGrows(p, (idle + 1) / p.interval + 1, p.burst);
  }

  /** A bucket that cannot refill in the idle time, with an interval of at least two
      nanoseconds: the refused request saves the debt that a sweep would forgive. */
  lemma RefusalCosts(p: Params, idle: nat) returns (h: seq<Event>, e: Event, later: seq<Event>)
    requires p.Valid() && p.interval >= 2 && p.Capacity() > idle + 1
    ensures Chronological(h + [e] + later) && RefusedAfter(p, idle, h, e)
    ensures !RefusalFree(p, idle, h, e, later)
  {
    var m, now := (idle + 1) / p.interval, idle + 1;
    h, e, later := Batch(p.burst, 0), Request("", 1), Ask(m, now);
    AskChronological(p.burst, m, now);
    DrainedThenSwept(p, idle);
    DebtTokens(p, idle);
    AskAnswers(p, idle, h, m, now);
    AskAnswers(p, idle, h + [e], m, now);
    LastDiffers(Serve(p, idle, h + [e] + later).answers, Serve(p, idle, h + later).answers,
                |Serve(p, idle, h).answers|);
  }

  /** After `n` admissions at one instant, the next is admitted exactly if the
      credit covers one more. */
  lemma LastAnswer(p: Params, idle: nat, h: seq<Event>, n: nat, at: int)
    requires p.Valid() && p.Cost(n) <= TableCredit(p, Serve(p, idle, h).table, at)
    ensures var a := Serve(p, idle, h + Batch(n, at) + [Request("", at)]).answers;
            && a != []
            && (a[|a| - 1] <==> p.Cost(n + 1) <= TableCredit(p, Serve(p, idle, h).table, at))
  {
    BatchAdmitted(p, idle, h, n, at);
    ServeSnoc(p, idle, h + Batch(n, at), Request("", at));
    assert p.Cost(n + 1) == p.Cost(n) + p.interval;
  }

  lemma LastDiffers(with: seq<bool>, without: seq<bool>, at: nat)
    requires with != [] && at < |without| && !with[|with| - 1] && without[|without| - 1]
    ensures !OneRefusalMore(with, without, at)
  {
  }

  lemma {:induction false} AnswersGrow(p: Params, idle: nat, h: seq<Event>, later: seq<Event>)
    ensures |Serve(p, idle, h).answers| <= |Serve(p, idle, h + later).answers|
    decreases |later|
  {
    if later == [] {
      assert h + later == h;
    } else {
      var n := |later| - 1;
      AnswersGrow(p, idle, h, later[..n]);
      assert h + later == (h + later[..n]) + [later[n]];
      ServeSnoc(p, idle, h + later[..n], later[n]);
    }
  }

  /** Leaving out a refused request never changes another answer, over all
      chronological histories, if and only if a bucket refills within the idle time
      or the interval is a single nanosecond. */
  lemma RefusalsAreFreeExactly(p: Params, idle: nat)
    requires p.Valid()
    ensures (forall h: seq<Event>, e: Event, later: seq<Event> ::
               Chronological(h + [e] + later) && RefusedAfter(p, idle, h, e) ==> RefusalFree(p, idle, h, e, later))
            <==> p.burst * p.interval <= idle + 1 || p.interval == 1
  {
    CostIsProduct(p, p.burst);
    if p.burst * p.interval <= idle + 1 || p.interval == 1 {
      forall h: seq<Event>, e: Event, later: seq<Event>
        | Chronological(h + [e] + later) && RefusedAfter(p, idle, h, e)
        ensures RefusalFree(p, idle, h, e, later)
      {
        if p.interval == 1 {
          ChronologicalParts(h, e, later);
          RefusalsAreFreeNanosecond(p, idle, h, e, later);
        } else {
          RefusalsAreFree(p, idle, h, e, later);
        }
      }
    } else {
      var h, e, later := RefusalCosts(p, idle);
    }
  }
}
