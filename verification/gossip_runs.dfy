/** What holds over every run of the gossip protocol, whatever is interleaved. */
module GossipRuns {
  import opened Prelude
  import opened MapSums
  import opened Gossip

  datatype Run = Run(states: seq<State>, events: seq<Event>)

  ghost predicate ValidRun(cfg: Config, r: Run) {
    && |r.states| == |r.events| + 1
    && r.states[0] == INIT
    && forall i :: 0 <= i < |r.events| ==> Next(cfg, r.states[i], r.events[i], r.states[i + 1])
  }

  /** The id the `k`-th step adds to the cache. */
  ghost function InsertedAt(r: Run, k: nat): Option<Id>
    requires k < |r.events| < |r.states|
  {
    Inserted(r.states[k], r.events[k].op)
  }

  // ----- the deduplication window -----

  /** The ids other than `x` inserted at time `t` or later, in the first `n` steps. */
  ghost function OthersSince(r: Run, x: Id, t: nat, n: nat): set<Id>
    requires n <= |r.events| < |r.states|
  {
    set k | 0 <= k < n && r.events[k].now >= t && InsertedAt(r, k).Some? && InsertedAt(r, k).value != x
      :: InsertedAt(r, k).value
  }

  /** The ids in the cache other than `x` that are at least as young as time `t`. */
  ghost function CachedSince(c: map<Id, Entry>, x: Id, t: nat): set<Id> {
    set y | y in c && y != x && c[y].cachedAt >= t
  }

  /** How many younger entries an evicted one must leave behind. */
  function Window(cfg: Config): int {
    cfg.maxCache - Max(1, cfg.maxCache / 10)
  }

  lemma SubsetSize<T>(a: set<T>, b: set<T>)
    requires a <= b
    ensures |a| <= |b|
  {
    assert b == a + (b - a);
  }

  lemma RemovalLeavesWindow(c: map<Id, Entry>, k: nat, c': map<Id, Entry>, x: Id)
    requires OldestRemoved(c, k, c') && x in c && x !in c'
    ensures |c| - k <= |CachedSince(c, x, c[x].cachedAt)|
  {
    assert c'.Keys <= CachedSince(c, x, c[x].cachedAt);
    SubsetSize(c'.Keys, CachedSince(c, x, c[x].cachedAt));
    assert |c'| == |c'.Keys|;
  }

  lemma CrowdedOutByReceive(cfg: Config, c: map<Id, Entry>, now: nat, room: map<Id, Entry>, x: Id)
    requires EvictedForReceive(cfg, c, now, room) && x in c && Elapsed(now, c[x].cachedAt) < cfg.ttl
    ensures (x in room && room[x] == c[x]) || |CachedSince(c, x, c[x].cachedAt)| >= Window(cfg)
  {
    if |c| >= cfg.maxCache && x !in room {
      var f, t := Fresh(cfg, c, now), c[x].cachedAt;
      RemovalLeavesWindow(f, cfg.maxCache / 10, room, x);
      SubsetSize(CachedSince(f, x, t), CachedSince(c, x, t));
    }
  }

  lemma CrowdedOutByBroadcast(cfg: Config, c: map<Id, Entry>, room: map<Id, Entry>, x: Id)
    requires EvictedForBroadcast(cfg, c, room) && x in c
    ensures (x in room && room[x] == c[x]) || |CachedSince(c, x, c[x].cachedAt)| >= Window(cfg)
  {
    if |c| >= cfg.maxCache && x !in room {
      RemovalLeavesWindow(c, 1, room, x);
    }
  }

  /** In one step a cached id keeps its time stamp, or goes because the cache was cleared, its
      time to live has passed, or a window's worth of others at least as young is cached. */
  lemma KeptOrCrowdedOut(cfg: Config, s: State, e: Event, s': State, x: Id)
    requires Next(cfg, s, e, s') && x in s.cache && e.op != ClearCache
    requires Elapsed(e.now, s.cache[x].cachedAt) < cfg.ttl
    ensures (x in s'.cache && s'.cache[x].cachedAt == s.cache[x].cachedAt)
            || (Inserted(s, e.op).Some? && |CachedSince(s.cache, x, s.cache[x].cachedAt)| >= Window(cfg))
  {
    hide NextTopics, NextStats, TopicOf, EvictedForReceive, EvictedForBroadcast, Window, CachedSince;
    if e.op.Receive? && e.op.id !in s.cache {
      CrowdedOutByReceive(cfg, s.cache, e.now, s'.cache - {e.op.id}, x);
    } else if e.op.Broadcast? && Inserted(s, e.op).Some? {
      CrowdedOutByBroadcast(cfg, s.cache, s'.cache - {e.op.data}, x);
    }
  }

  lemma EntriesComeFrom(cfg: Config, s: State, e: Event, s': State, y: Id)
    requires Next(cfg, s, e, s') && y in s'.cache
    ensures (y in s.cache && s'.cache[y].cachedAt == s.cache[y].cachedAt)
            || (Inserted(s, e.op) == Some(y) && s'.cache[y].cachedAt == e.now)
  {
    match e.op
    case Receive(id, _, _) => if id !in s.cache && y != id { assert y in s'.cache - {id}; }
    case Broadcast(_, data) => if Inserted(s, e.op).Some? && y != data { assert y in s'.cache - {data}; }
    case _ =>
  }

  /** Every cached entry carries the time of a step that inserted it. */
  lemma {:induction false} CachedWasInserted(cfg: Config, r: Run, n: nat, y: Id)
    requires ValidRun(cfg, r) && n <= |r.events| && y in r.states[n].cache
    ensures exists k :: 0 <= k < n && InsertedAt(r, k) == Some(y) && r.events[k].now == r.states[n].cache[y].cachedAt
  {
    hide Next, Inserted;
    if n == 0 {
    } else {
      EntriesComeFrom(cfg, r.states[n - 1], r.events[n - 1], r.states[n], y);
      if InsertedAt(r, n - 1) != Some(y) || r.states[n].cache[y].cachedAt != r.events[n - 1].now {
        CachedWasInserted(cfg, r, n - 1, y);
      }
    }
  }

  lemma CachedSinceWasInserted(cfg: Config, r: Run, n: nat, x: Id, t: nat)
    requires ValidRun(cfg, r) && n <= |r.events|
    ensures CachedSince(r.states[n].cache, x, t) <= OthersSince(r, x, t, n)
  {
    forall y | y in CachedSince(r.states[n].cache, x, t)
      ensures y in OthersSince(r, x, t, n)
    {
      CachedWasInserted(cfg, r, n, y);
    }
  }

  lemma OthersGrow(r: Run, x: Id, t: nat, m: nat, n: nat)
    requires m <= n <= |r.events| < |r.states|
    ensures |OthersSince(r, x, t, m)| <= |OthersSince(r, x, t, n)|
  {
    SubsetSize(OthersSince(r, x, t, m), OthersSince(r, x, t, n));
  }

  /** The step that crowds `x` out inserts one more id besides the window it leaves behind. */
  lemma CrowdingCounts(cfg: Config, r: Run, i: nat, x: Id, m: nat)
    requires ValidRun(cfg, r) && InOrder(r.events) && i <= m < |r.events|
    requires x in r.states[m].cache && InsertedAt(r, m).Some?
    ensures |CachedSince(r.states[m].cache, x, r.events[i].now)| < |OthersSince(r, x, r.events[i].now, m + 1)|
  {
    var t, z := r.events[i].now, InsertedAt(r, m).value;
    var cached, others := CachedSince(r.states[m].cache, x, t), OthersSince(r, x, t, m + 1);
    CachedSinceWasInserted(cfg, r, m, x, t);
    assert r.events[m].now >= t && z !in r.states[m].cache && z != x;
    assert z in others && z !in cached;
    SubsetSize(cached + {z}, others);
  }

  lemma InsertedIsCached(cfg: Config, s: State, e: Event, s': State, x: Id)
    requires Next(cfg, s, e, s') && Inserted(s, e.op) == Some(x)
    ensures x in s'.cache && s'.cache[x].cachedAt == e.now
  {
  }

  /** Once inserted, an id stays cached, under its own time stamp, through every interleaving of
      receives and broadcasts, until a clear, the time to live, or more than a window of ids. */
  lemma {:induction false} StaysCached(cfg: Config, r: Run, i: nat, x: Id, n: nat)
    requires ValidRun(cfg, r) && InOrder(r.events) && i < n <= |r.events|
    requires InsertedAt(r, i) == Some(x)
    requires forall k :: i < k < n ==> r.events[k].op != ClearCache
    requires n > i + 1 ==> Elapsed(r.events[n - 1].now, r.events[i].now) < cfg.ttl
    requires |OthersSince(r, x, r.events[i].now, n)| <= Window(cfg)
    ensures x in r.states[n].cache && r.states[n].cache[x].cachedAt == r.events[i].now
    decreases n
  {
    hide OthersSince, CachedSince, Window, Next, Inserted;
    if n == i + 1 {
      InsertedIsCached(cfg, r.states[i], r.events[i], r.states[n], x);
    } else {
      var t, m := r.events[i].now, n - 1;
      OthersGrow(r, x, t, m, n);
      StaysCached(cfg, r, i, x, m);
      KeptOrCrowdedOut(cfg, r.states[m], r.events[m], r.states[n], x);
      if InsertedAt(r, m).Some? {
        CrowdingCounts(cfg, r, i, x, m);
      }
    }
  }

  /** The guaranteed deduplication window: a second copy within the time to live, before a
      clear and after at most `max - max(1, max/10)` other ids, is always recognised. */
  lemma DedupWindow(cfg: Config, r: Run, i: nat, x: Id, j: nat)
    requires ValidRun(cfg, r) && InOrder(r.events) && i < j < |r.events|
    requires InsertedAt(r, i) == Some(x)
    requires r.events[j].op.Receive? && r.events[j].op.id == x
    requires forall k :: i < k < j ==> r.events[k].op != ClearCache
    requires Elapsed(r.events[j].now, r.events[i].now) < cfg.ttl
    requires |OthersSince(r, x, r.events[i].now, j)| <= Window(cfg)
    ensures ReplyTo(cfg, r.states[j], r.events[j].op) == Duplicate
  {
    assert r.events[j - 1].now <= r.events[j].now;
    StaysCached(cfg, r, i, x, j);
  }

  /** The ids inserted by the steps strictly between `i` and `n`. */
  ghost function InsertedBetween(r: Run, x: Id, i: nat, n: nat): set<Id>
    requires i < n <= |r.events| < |r.states|
  {
    set k | i < k < n && InsertedAt(r, k).Some? && InsertedAt(r, k).value != x :: InsertedAt(r, k).value
  }

  /** With strictly increasing time stamps the window counts only the ids inserted since. */
  lemma DedupWindowStrict(cfg: Config, r: Run, i: nat, x: Id, j: nat)
    requires ValidRun(cfg, r) && i < j < |r.events|
    requires forall a, b :: 0 <= a < b < |r.events| ==> r.events[a].now < r.events[b].now
    requires InsertedAt(r, i) == Some(x)
    requires r.events[j].op.Receive? && r.events[j].op.id == x
    requires forall k :: i < k < j ==> r.events[k].op != ClearCache
    requires Elapsed(r.events[j].now, r.events[i].now) < cfg.ttl
    requires |InsertedBetween(r, x, i, j)| <= Window(cfg)
    ensures ReplyTo(cfg, r.states[j], r.events[j].op) == Duplicate
  {
    var t := r.events[i].now;
    forall y | y in OthersSince(r, x, t, j)
      ensures y in InsertedBetween(r, x, i, j)
    {
      var k :| 0 <= k < j && r.events[k].now >= t && InsertedAt(r, k) == Some(y) && y != x;
      assert k > i;
    }
    SubsetSize(OthersSince(r, x, t, j), InsertedBetween(r, x, i, j));
    DedupWindow(cfg, r, i, x, j);
  }

  // ----- the window is exact -----

  function Zeros(k: nat): Id {
    seq(k, i => 0)
  }

  function ZeroIds(n: nat): set<Id> {
    set k | 0 <= k < n :: Zeros(k)
  }

  lemma {:induction false} ZeroIdsCount(n: nat)
    ensures |ZeroIds(n)| == n
  {
    if n == 0 {
    } else {
      ZeroIdsCount(n - 1);
      assert forall k :: 0 <= k < n - 1 ==> |Zeros(k)| == k;
      assert |Zeros(n - 1)| == n - 1 && Zeros(n - 1) !in ZeroIds(n - 1);
      assert ZeroIds(n) == ZeroIds(n - 1) + {Zeros(n - 1)};
    }
  }

  /** The cache after the ids of lengths 0 to n-1 arrived at times 0 to n-1. */
  function FullCache(n: nat): map<Id, Entry> {
    map x | x in ZeroIds(n) :: Entry([], |x|, 1)
  }

  ghost predicate Filling(r: Run) {
    forall k :: 0 <= k < |r.events| ==> r.events[k] == At(k, Receive(Zeros(k), "", []))
  }

  /** Such a run, in which nothing had to make room before the last step. */
  ghost predicate Filled(cfg: Config, r: Run) {
    && ValidRun(cfg, r) && Filling(r)
    && forall k :: 0 <= k < |r.events| ==> r.states[k].cache == FullCache(k)
  }

  /** The run `p`, one step further. */
  function Extended(p: Run, e: Event, s': State): Run {
    Run(p.states + [s'], p.events + [e])
  }

  lemma ExtendedValid(cfg: Config, p: Run, e: Event, s': State)
    requires ValidRun(cfg, p) && Next(cfg, p.states[|p.events|], e, s')
    ensures ValidRun(cfg, Extended(p, e, s'))
  {
    hide Next;
  }

  /** A run goes on with a receive of a new id into any cache the eviction rule permits. */
  lemma ExtendByReceive(cfg: Config, p: Run, now: nat, id: Id, c': map<Id, Entry>) returns (r: Run)
    requires ValidRun(cfg, p)
    requires var c := p.states[|p.events|].cache;
             id !in c && id in c' && c'[id] == Entry([], now, 1) && EvictedForReceive(cfg, c, now, c' - {id})
    ensures ValidRun(cfg, r) && r.events == p.events + [At(now, Receive(id, "", []))]
    ensures |r.states| == |p.states| + 1 && r.states[..|p.states|] == p.states
    ensures forall k :: 0 <= k < |p.states| ==> r.states[k] == p.states[k]
    ensures r.states[|r.events|].cache == c'
  {
    hide EvictedForReceive, NextTopics, NextStats;
    var s, e := p.states[|p.events|], At(now, Receive(id, "", []));
    var s' := State(NextTopics(cfg, s, e), c', NextStats(cfg, s, e));
    assert Next(cfg, s, e, s');
    ExtendedValid(cfg, p, e, s');
    r := Extended(p, e, s');
  }

  /** One more arrival in a run that is filled up to its last state. */
  lemma FillOneMore(cfg: Config, p: Run, c': map<Id, Entry>) returns (r: Run)
    requires Filled(cfg, p)
    requires var n := |p.events|;
             && p.states[n].cache == FullCache(n) && Zeros(n) in c' && c'[Zeros(n)] == Entry([], n, 1)
             && EvictedForReceive(cfg, FullCache(n), n, c' - {Zeros(n)})
    ensures Filled(cfg, r) && |r.events| == |p.events| + 1 && r.states[|r.events|].cache == c'
  {
    hide EvictedForReceive, FullCache, ZeroIds, Next;
    FullCacheGrows(|p.events|);
    r := ExtendByReceive(cfg, p, |p.events|, Zeros(|p.events|), c');
  }

  lemma NoEviction(cfg: Config, n: nat)
    requires n < cfg.maxCache
    ensures EvictedForReceive(cfg, FullCache(n), n, FullCache(n))
  {
    FullCacheGrows(n);
    assert |FullCache(n)| == |FullCache(n).Keys| == n;
  }

  lemma {:induction false} Fill(cfg: Config, n: nat) returns (r: Run)
    requires n <= cfg.maxCache
    ensures Filled(cfg, r) && |r.events| == n && r.states[n].cache == FullCache(n)
  {
    if n == 0 {
      FullCacheGrows(0);
      r := Run([INIT], []);
    } else {
      hide FullCache, ZeroIds, Zeros, EvictedForReceive, Next;
      var p := Fill(cfg, n - 1);
      FullCacheGrows(n - 1);
      NoEviction(cfg, n - 1);
      r := FillOneMore(cfg, p, FullCache(n));
    }
  }

  lemma FullCacheGrows(n: nat)
    ensures FullCache(n).Keys == ZeroIds(n) && |ZeroIds(n)| == n
    ensures Zeros(n) !in FullCache(n)
    ensures FullCache(n + 1) == FullCache(n)[Zeros(n) := Entry([], n, 1)]
    ensures n == 0 ==> FullCache(n) == map[]
    ensures FullCache(n + 1) - {Zeros(n)} == FullCache(n)
  {
    ZeroIdsCount(n);
    assert |Zeros(n)| == n;
    assert forall k :: 0 <= k < n ==> |Zeros(k)| == k;
    assert ZeroIds(n + 1) == ZeroIds(n) + {Zeros(n)};
  }

  lemma DropOldest(n: nat, k: nat)
    requires k <= n
    ensures OldestRemoved(FullCache(n), k, FullCache(n) - ZeroIds(k))
  {
    var c := FullCache(n);
    var c' := c - ZeroIds(k);
    assert c.Keys == ZeroIds(n) && c'.Keys == ZeroIds(n) - ZeroIds(k);
    assert forall x :: x in c ==> c[x].cachedAt == |x|;
    hide FullCache, ZeroIds;
    ZeroIdsBetween(k, n, []);
    ZeroIdsCount(n);
    assert |c'| == |c'.Keys| == n - k && |c| == |c.Keys| == n;
    forall x | x in c
      ensures x in c' <==> |x| >= k
    {
      ZeroIdsBetween(0, n, x);
      ZeroIdsBetween(k, n, x);
      NoZeroIds();
    }
  }

  lemma NoZeroIds()
    ensures ZeroIds(0) == {}
  {
  }

  /** A full cache of fresh entries loses its oldest tenth. */
  lemma EvictFull(cfg: Config)
    requires cfg.maxCache >= 10 && cfg.ttl > cfg.maxCache
    ensures var c := FullCache(cfg.maxCache);
            EvictedForReceive(cfg, c, cfg.maxCache, c - ZeroIds(cfg.maxCache / 10))
  {
    var n := cfg.maxCache;
    FullCacheGrows(n);
    assert |FullCache(n)| == |FullCache(n).Keys| == n;
    AllFresh(cfg, n);
    DropOldest(n, n / 10);
  }

  /** The filled run, one receive further: the oldest tenth is gone. */
  lemma FillThenEvict(cfg: Config) returns (r: Run)
    requires cfg.maxCache >= 10 && cfg.ttl > cfg.maxCache
    ensures Filled(cfg, r) && |r.events| == cfg.maxCache + 1
    ensures forall k: nat :: k < cfg.maxCache / 10 ==> Zeros(k) !in r.states[|r.events|].cache
  {
    var n, tenth := cfg.maxCache, cfg.maxCache / 10;
    forall k: nat | k < tenth
      ensures Zeros(k) in ZeroIds(tenth) && Zeros(k) != Zeros(n)
    {
      assert |Zeros(k)| != |Zeros(n)|;
    }
    hide FullCache, ZeroIds, Zeros, EvictedForReceive, Next;
    var p := Fill(cfg, n);
    FullCacheGrows(n);
    EvictFull(cfg);
    var c' := MinusThenPlus(FullCache(n), ZeroIds(tenth), Zeros(n), Entry([], n, 1));
    r := FillOneMore(cfg, p, c');
  }

  /** One id more than the window can make the cache forget, for every limit of at least ten. */
  lemma WindowIsExact(cfg: Config) returns (r: Run, i: nat)
    requires cfg.maxCache >= 10 && cfg.ttl > cfg.maxCache
    ensures ValidRun(cfg, r) && InOrder(r.events) && i < |r.events|
    ensures forall k :: 0 <= k < |r.events| ==> r.events[k].op.Receive?
    ensures r.events[|r.events| - 1].now < cfg.ttl
    ensures InsertedAt(r, i).Some?
    ensures var x := InsertedAt(r, i).value;
            && |OthersSince(r, x, r.events[i].now, |r.events|)| == Window(cfg) + 1
            && x !in r.states[|r.events|].cache
  {
    hide FullCache, Next, OthersSince, Inserted, Window;
    r := FillThenEvict(cfg);
    i := cfg.maxCache / 10 - 1;
    FillInserts(cfg, r, i);
    OthersOfFill(cfg, r, i);
    WindowSize(cfg);
  }

  /** Ids inserted by a longer run: those of the shorter one, and what its last step inserts. */
  lemma OthersExtended(p: Run, e: Event, s': State, x: Id, t: nat)
    requires |p.states| == |p.events| + 1 && e.now >= t
    ensures var r := Extended(p, e, s'); var n := |p.events|; var id := Inserted(p.states[n], e.op);
            OthersSince(r, x, t, n + 1)
            == OthersSince(p, x, t, n) + (if id.Some? && id.value != x then {id.value} else {})
  {
    hide Inserted;
    var r, n := Extended(p, e, s'), |p.events|;
    assert forall k :: 0 <= k < n ==> InsertedAt(r, k) == InsertedAt(p, k) && r.events[k] == p.events[k];
    assert InsertedAt(r, n) == Inserted(p.states[n], e.op);
  }

  /** The filled run, subscribed to the topic of transactions. */
  lemma FillAndSubscribe(cfg: Config) returns (r: Run)
    requires cfg.maxCache >= 1
    ensures var n := cfg.maxCache; var topic := TopicOf(Transaction).value;
            && ValidRun(cfg, r) && |r.events| == n + 1 && InOrder(r.events)
            && InsertedAt(r, 0) == Some(Zeros(0)) && r.events[0].now == 0
            && (forall k :: 0 <= k < n ==> r.events[k].op.Receive?)
            && r.events[n] == At(n, Subscribe(topic))
            && topic in r.states[n + 1].topics && r.states[n + 1].cache == FullCache(n)
            && |OthersSince(r, Zeros(0), 0, n + 1)| == n - 1
            && Zeros(n) !in OthersSince(r, Zeros(0), 0, n + 1)
  {
    hide FullCache, ZeroIds, Zeros, OthersSince, Inserted, NextCache, NextStats;
    var n := cfg.maxCache;
    var p := Fill(cfg, n);
    FillInserts(cfg, p, 0);
    OthersOfFill(cfg, p, 0);
    NotAmongFilled(cfg, p);
    var s, e := p.states[n], At(n, Subscribe(TopicOf(Transaction).value));
    var s' := State(NextTopics(cfg, s, e), s.cache, s.stats);
    SubscribeStep(cfg, s, e, s');
    ExtendedValid(cfg, p, e, s');
    OthersExtended(p, e, s', Zeros(0), 0);
    r := Extended(p, e, s');
  }

  lemma SubscribeStep(cfg: Config, s: State, e: Event, s': State)
    requires e.op.Subscribe? && s' == State(NextTopics(cfg, s, e), s.cache, s.stats)
    ensures Next(cfg, s, e, s') && Inserted(s, e.op) == None
  {
  }

  lemma NotAmongFilled(cfg: Config, r: Run)
    requires Filled(cfg, r)
    ensures Zeros(|r.events|) !in OthersSince(r, Zeros(0), 0, |r.events|)
  {
    hide Next, Inserted, FullCache;
    forall k | 0 <= k < |r.events|
      ensures InsertedAt(r, k) == Some(Zeros(k)) && |Zeros(k)| == k
    {
      FillInserts(cfg, r, k);
    }
    assert |Zeros(|r.events|)| == |r.events|;
  }

  /** A broadcast into a full cache pushes out the oldest id. */
  lemma BroadcastEvicts(cfg: Config, s: State) returns (s': State)
    requires cfg.maxCache >= 1 && s.cache == FullCache(cfg.maxCache) && TopicOf(Transaction).value in s.topics
    ensures var n := cfg.maxCache; var op := Broadcast(Transaction, Zeros(n));
            && Inserted(s, op) == Some(Zeros(n)) && Next(cfg, s, At(n, op), s')
            && Zeros(0) !in s'.cache
  {
    hide FullCache, OldestRemoved;
    var n := cfg.maxCache;
    var e := At(n, Broadcast(Transaction, Zeros(n)));
    FullCacheGrows(n);
    assert |s.cache| == |s.cache.Keys| == n;
    DropOldest(n, 1);
    assert |Zeros(0)| == 0 && |Zeros(n)| == n && Zeros(0) in ZeroIds(1);
    var c' := MinusThenPlus(s.cache, ZeroIds(1), Zeros(n), Entry(Zeros(n), n, 1));
    s' := State(NextTopics(cfg, s, e), c', NextStats(cfg, s, e));
  }

  /** Below twenty, where an eviction drops a single entry, a window of received ids and one
      broadcast make the cache forget. */
  lemma SmallWindowIsExact(cfg: Config) returns (r: Run)
    requires 1 <= cfg.maxCache < 20 && cfg.ttl > cfg.maxCache
    ensures ValidRun(cfg, r) && InOrder(r.events) && |r.events| > 0
    ensures forall k :: 0 <= k < |r.events| ==> r.events[k].op != ClearCache
    ensures r.events[|r.events| - 1].now < cfg.ttl
    ensures InsertedAt(r, 0).Some?
    ensures var x := InsertedAt(r, 0).value;
            && |OthersSince(r, x, r.events[0].now, |r.events|)| == Window(cfg) + 1
            && x !in r.states[|r.events|].cache
  {
    hide FullCache, Zeros, OthersSince, Inserted, Next, TopicOf;
    var n := cfg.maxCache;
    var p := FillAndSubscribe(cfg);
    var e := At(n, Broadcast(Transaction, Zeros(n)));
    var s' := BroadcastEvicts(cfg, p.states[n + 1]);
    assert Zeros(n) != Zeros(0) by {
      LengthOfZeros(n);
      LengthOfZeros(0);
    }
    ExtendedValid(cfg, p, e, s');
    OthersExtended(p, e, s', Zeros(0), 0);
    r := Extended(p, e, s');
    assert InsertedAt(r, 0) == InsertedAt(p, 0);
  }

  lemma LengthOfZeros(k: nat)
    ensures |Zeros(k)| == k
  {
  }

  lemma WindowSize(cfg: Config)
    requires cfg.maxCache >= 10
    ensures Window(cfg) == cfg.maxCache - cfg.maxCache / 10
  {
  }

  lemma MinusThenPlus(c: map<Id, Entry>, gone: set<Id>, x: Id, y: Entry) returns (c': map<Id, Entry>)
    requires x !in c
    ensures x in c' && c'[x] == y && c' - {x} == c - gone
    ensures forall z :: z in gone && z != x ==> z !in c'
  {
    c' := (c - gone)[x := y];
  }

  lemma AllFresh(cfg: Config, n: nat)
    requires cfg.ttl > n
    ensures Fresh(cfg, FullCache(n), n) == FullCache(n)
  {
    assert forall k: nat :: |Zeros(k)| == k;
  }

  /** The ids whose length lies in a range. */
  lemma ZeroIdsBetween(m: nat, n: nat, y: Id)
    requires m <= n
    ensures y in ZeroIds(n) - ZeroIds(m) <==> m <= |y| < n && y == Zeros(|y|)
    ensures |ZeroIds(n) - ZeroIds(m)| == n - m
  {
    assert forall k: nat :: |Zeros(k)| == k;
    ZeroIdsCount(n);
    ZeroIdsCount(m);
    assert ZeroIds(m) <= ZeroIds(n);
  }

  lemma OthersOfFill(cfg: Config, r: Run, i: nat)
    requires Filled(cfg, r) && i < |r.events|
    ensures |OthersSince(r, Zeros(i), i, |r.events|)| == |r.events| - i - 1
  {
    hide ZeroIds, FullCache, Next, Inserted;
    var n := |r.events|;
    forall k | 0 <= k < n
      ensures InsertedAt(r, k) == Some(Zeros(k)) && r.events[k].now == k && |Zeros(k)| == k
    {
      FillInserts(cfg, r, k);
    }
    var others := OthersSince(r, Zeros(i), i, n);
    forall y
      ensures y in others <==> y in ZeroIds(n) - ZeroIds(i + 1)
    {
      ZeroIdsBetween(i + 1, n, y);
      if y in ZeroIds(n) - ZeroIds(i + 1) {
        assert InsertedAt(r, |y|) == Some(y);
      }
    }
    assert others == ZeroIds(n) - ZeroIds(i + 1);
    ZeroIdsBetween(i + 1, n, []);
  }

  lemma FillInserts(cfg: Config, r: Run, k: nat)
    requires Filled(cfg, r) && k < |r.events|
    ensures InsertedAt(r, k) == Some(Zeros(k)) && r.events[k].now == k && |Zeros(k)| == k
  {
    hide Next;
    FullCacheGrows(k);
  }

  // ----- the size of the cache -----

  /** The configurations under which the cache never outgrows its limit. */
  predicate Bounded(cfg: Config) {
    cfg.maxCache >= 10 || (cfg.maxCache >= 1 && cfg.ttl == 0)
  }

  /** How a step changes the size of the cache. */
  lemma SizeChange(cfg: Config, s: State, e: Event, s': State)
    requires Next(cfg, s, e, s')
    ensures Inserted(s, e.op).None? ==> |s'.cache| <= |s.cache|
    ensures Inserted(s, e.op).Some? ==>
              |s'.cache| <= |s.cache| + 1
              && (|s.cache| >= cfg.maxCache && (e.op.Broadcast? || cfg.ttl == 0) && s.cache != map[]
                  ==> |s'.cache| <= |s.cache|)
    ensures EvictsTenth(cfg, s, e) ==>
              Inserted(s, e.op).Some? && |s'.cache| + cfg.maxCache / 10 <= |s.cache| + 1
    ensures e.op.Receive? && Inserted(s, e.op).Some? && |s.cache| >= cfg.maxCache && !EvictsTenth(cfg, s, e) ==>
              |s'.cache| <= Max(1, cfg.maxCache)
  {
    hide NextTopics, NextStats, TopicOf, EvictedForReceive, EvictedForBroadcast, Fresh;
    if e.op.Receive? && e.op.id !in s.cache {
      OneMore(s'.cache, e.op.id);
      ReceiveRoom(cfg, s.cache, e.now, s'.cache - {e.op.id});
    } else if Inserted(s, e.op).Some? {
      OneMore(s'.cache, e.op.data);
      BroadcastRoom(cfg, s.cache, s'.cache - {e.op.data});
    } else if e.op.Receive? {
      assert s'.cache.Keys == s.cache.Keys && |s'.cache| == |s'.cache.Keys| == |s.cache|;
    }
  }

  lemma ReceiveRoom(cfg: Config, c: map<Id, Entry>, now: nat, room: map<Id, Entry>)
    requires EvictedForReceive(cfg, c, now, room)
    ensures |room| <= |c|
    ensures |c| >= cfg.maxCache && cfg.ttl == 0 ==> room == map[]
    ensures |c| >= cfg.maxCache ==>
              if |Fresh(cfg, c, now)| >= cfg.maxCache then |room| + cfg.maxCache / 10 <= |c|
              else |room| < cfg.maxCache
  {
    FreshSize(cfg, c, now);
  }

  lemma BroadcastRoom(cfg: Config, c: map<Id, Entry>, room: map<Id, Entry>)
    requires EvictedForBroadcast(cfg, c, room)
    ensures |room| <= |c| && (|c| >= cfg.maxCache && c != map[] ==> |room| < |c|)
  {
    if c != map[] {
      assert c.Keys != {} && |c| == |c.Keys|;
    }
  }

  lemma StepSize(cfg: Config, s: State, e: Event, s': State)
    requires Next(cfg, s, e, s') && Bounded(cfg) && |s.cache| <= cfg.maxCache
    ensures |s'.cache| <= cfg.maxCache
  {
    hide Next;
    SizeChange(cfg, s, e, s');
  }

  lemma OneMore(c: map<Id, Entry>, x: Id)
    requires x in c
    ensures |c| == |c - {x}| + 1
  {
    assert (c - {x}).Keys == c.Keys - {x};
    assert |c| == |c.Keys| && |c - {x}| == |(c - {x}).Keys|;
  }

  lemma FreshSize(cfg: Config, c: map<Id, Entry>, now: nat)
    ensures |Fresh(cfg, c, now)| <= |c|
    ensures cfg.ttl == 0 ==> Fresh(cfg, c, now) == map[]
  {
    SubsetSize(Fresh(cfg, c, now).Keys, c.Keys);
    assert |c| == |c.Keys| && |Fresh(cfg, c, now)| == |Fresh(cfg, c, now).Keys|;
  }

  lemma {:induction false} CacheBound(cfg: Config, r: Run, n: nat)
    requires ValidRun(cfg, r) && n <= |r.events| && Bounded(cfg)
    ensures |r.states[n].cache| <= cfg.maxCache
  {
    if n == 0 {
    } else {
      CacheBound(cfg, r, n - 1);
      StepSize(cfg, r.states[n - 1], r.events[n - 1], r.states[n]);
    }
  }

  /** A run of `n` steps at time 0, each of which has grown the cache by one. */
  ghost predicate Grown(cfg: Config, r: Run, n: nat) {
    && ValidRun(cfg, r) && |r.events| == n && |r.states[n].cache| == n
    && (forall k :: 0 <= k < n ==> r.events[k].now == 0)
    && forall x :: x in r.states[n].cache ==> |x| < n && r.states[n].cache[x].cachedAt == 0
  }

  lemma GrowOnce(cfg: Config, p: Run, n: nat) returns (r: Run)
    requires cfg.maxCache < 10 && cfg.ttl > 0 && Grown(cfg, p, n)
    ensures Grown(cfg, r, n + 1)
  {
    hide Next, Zeros, EvictedForReceive;
    var c := p.states[n].cache;
    hide ValidRun;
    NothingEvicted(cfg, c);
    var c' := GrowCache(c, n);
    r := ExtendByReceive(cfg, p, 0, Zeros(n), c');
  }

  lemma GrowCache(c: map<Id, Entry>, n: nat) returns (c': map<Id, Entry>)
    requires forall x :: x in c ==> |x| < n && c[x].cachedAt == 0
    ensures Zeros(n) !in c && Zeros(n) in c' && c'[Zeros(n)] == Entry([], 0, 1)
    ensures c' - {Zeros(n)} == c && |c'| == |c| + 1
    ensures forall x :: x in c' ==> |x| < n + 1 && c'[x].cachedAt == 0
  {
    hide Zeros;
    LengthOfZeros(n);
    c' := c[Zeros(n) := Entry([], 0, 1)];
    assert c' - {Zeros(n)} == c;
    OneMore(c', Zeros(n));
  }

  /** Below ten entries a tenth rounds to none, and receives grow the cache without limit. */
  lemma {:induction false} UnboundedGrowth(cfg: Config, n: nat) returns (r: Run)
    requires cfg.maxCache < 10 && cfg.ttl > 0
    ensures Grown(cfg, r, n)
  {
    if n == 0 {
      return Run([INIT], []);
    }
    hide Grown;
    var p := UnboundedGrowth(cfg, n - 1);
    r := GrowOnce(cfg, p, n - 1);
  }

  lemma NothingEvicted(cfg: Config, c: map<Id, Entry>)
    requires cfg.maxCache < 10 && cfg.ttl > 0
    requires forall x :: x in c ==> c[x].cachedAt == 0
    ensures EvictedForReceive(cfg, c, 0, c)
  {
    assert Fresh(cfg, c, 0) == c;
    NothingRemoved(c);
  }

  lemma NothingRemoved(c: map<Id, Entry>)
    ensures OldestRemoved(c, 0, c)
  {
  }

  /** The cache stays within its limit in every run exactly when the limit is at least ten, or
      nothing is ever fresh and the limit is not zero. */
  lemma CacheBoundIff(cfg: Config)
    ensures (forall r :: ValidRun(cfg, r) ==> |r.states[|r.events|].cache| <= cfg.maxCache) <==> Bounded(cfg)
  {
    if Bounded(cfg) {
      forall r | ValidRun(cfg, r)
        ensures |r.states[|r.events|].cache| <= cfg.maxCache
      {
        CacheBound(cfg, r, |r.events|);
      }
    } else if cfg.ttl > 0 {
      var r := UnboundedGrowth(cfg, cfg.maxCache + 1);
      assert ValidRun(cfg, r) && |r.states[|r.events|].cache| > cfg.maxCache;
    } else {
      var c: map<Id, Entry> := map[[] := Entry([], 0, 1)];
      assert c - {[]} == Fresh(cfg, INIT.cache, 0) == map[];
      NothingRemoved(map[]);
      var r := ExtendByReceive(cfg, Run([INIT], []), 0, [], c);
      assert ValidRun(cfg, r) && |r.states[|r.events|].cache| > cfg.maxCache;
    }
  }

  // ----- amortised eviction -----

  /** The step sorts the cache and drops its oldest tenth. */
  ghost predicate EvictsTenth(cfg: Config, s: State, e: Event) {
    && e.op.Receive? && e.op.id !in s.cache
    && |s.cache| >= cfg.maxCache && |Fresh(cfg, s.cache, e.now)| >= cfg.maxCache
  }

  ghost function TenthEvictions(cfg: Config, r: Run, n: nat): nat
    requires n <= |r.events| < |r.states|
  {
    if n == 0 then 0 else
      TenthEvictions(cfg, r, n - 1) + (if EvictsTenth(cfg, r.states[n - 1], r.events[n - 1]) then 1 else 0)
  }

  ghost function Insertions(r: Run, n: nat): nat
    requires n <= |r.events| < |r.states|
  {
    if n == 0 then 0 else Insertions(r, n - 1) + (if InsertedAt(r, n - 1).Some? then 1 else 0)
  }

  /** Every sort that drops a tenth is paid for by as many earlier insertions, broadcasts and
      clears included. */
  lemma {:induction false} AmortisedEviction(cfg: Config, r: Run, n: nat)
    requires ValidRun(cfg, r) && n <= |r.events|
    ensures TenthEvictions(cfg, r, n) * (cfg.maxCache / 10) + |r.states[n].cache| <= Insertions(r, n)
  {
    hide Next, EvictsTenth, Inserted;
    if n == 0 {
    } else {
      var s, e, s', tenth := r.states[n - 1], r.events[n - 1], r.states[n], cfg.maxCache / 10;
      AmortisedEviction(cfg, r, n - 1);
      SizeChange(cfg, s, e, s');
      OneMoreTimes(TenthEvictions(cfg, r, n - 1), tenth);
    }
  }

  // ----- the counters -----

  ghost function ReceiveCalls(r: Run, n: nat): nat
    requires n <= |r.events|
  {
    if n == 0 then 0 else ReceiveCalls(r, n - 1) + (if r.events[n - 1].op.Receive? then 1 else 0)
  }

  /** Sightings of a cached message beyond the first. */
  function Repeats(c: map<Id, Entry>): map<Id, nat> {
    map x | x in c :: if c[x].seen > 0 then c[x].seen - 1 else 0
  }

  function SentPer(ts: map<string, Topic>): map<string, nat> {
    map t | t in ts :: ts[t].sent
  }

  function ReceivedPer(ts: map<string, Topic>): map<string, nat> {
    map t | t in ts :: ts[t].received
  }

  ghost predicate CountersAgree(s: State) {
    && AllSeen(s.cache)
    && Total(Repeats(s.cache)) <= s.stats.deduplicated
    && Total(SentPer(s.topics)) <= s.stats.sent
    && Total(ReceivedPer(s.topics)) <= s.stats.received
  }

  ghost predicate AllSeen(c: map<Id, Entry>) {
    forall x :: x in c ==> c[x].seen >= 1
  }

  lemma BumpRepeats(c: map<Id, Entry>, id: Id)
    requires AllSeen(c) && id in c
    ensures var c' := c[id := c[id].(seen := c[id].seen + 1)];
            AllSeen(c') && Total(Repeats(c')) == Total(Repeats(c)) + 1
  {
    var c' := c[id := c[id].(seen := c[id].seen + 1)];
    assert Repeats(c) - {id} == Repeats(c') - {id};
    TotalChange(Repeats(c), Repeats(c'), id);
  }

  /** A first sighting has no repeats, and evicting only loses some. */
  lemma InsertRepeats(c: map<Id, Entry>, c': map<Id, Entry>, id: Id)
    requires AllSeen(c) && id in c' && c'[id].seen == 1
    requires forall x :: x in c' && x != id ==> x in c && c'[x] == c[x]
    ensures AllSeen(c') && Total(Repeats(c')) <= Total(Repeats(c))
  {
    TotalRemove(Repeats(c'), id);
    TotalSubmap(Repeats(c), Repeats(c') - {id});
  }

  /** What an inserting step leaves of the other entries. */
  lemma OthersUntouched(cfg: Config, s: State, e: Event, s': State)
    requires Next(cfg, s, e, s') && Inserted(s, e.op).Some?
    ensures var id := Inserted(s, e.op).value;
            && id in s'.cache && s'.cache[id].seen == 1
            && forall x :: x in s'.cache && x != id ==> x in s.cache && s'.cache[x] == s.cache[x]
  {
    hide NextTopics, NextStats, TopicOf;
    var id := Inserted(s, e.op).value;
    assert forall x :: x in s'.cache && x != id ==> x in s'.cache - {id};
  }

  lemma StepRepeats(cfg: Config, s: State, e: Event, s': State)
    requires Next(cfg, s, e, s') && AllSeen(s.cache)
    ensures AllSeen(s'.cache)
    ensures Total(Repeats(s'.cache)) <= Total(Repeats(s.cache)) + s'.stats.deduplicated - s.stats.deduplicated
  {
    hide NextTopics, TopicOf, Repeats, AllSeen, EvictedForReceive, EvictedForBroadcast, ReplyTo;
    if e.op.Receive? && e.op.id in s.cache {
      BumpRepeats(s.cache, e.op.id);
    } else if Inserted(s, e.op).Some? {
      OthersUntouched(cfg, s, e, s');
      InsertRepeats(s.cache, s'.cache, Inserted(s, e.op).value);
    } else if e.op.ClearCache? {
      NoRepeats();
    }
  }

  lemma NoRepeats()
    ensures AllSeen(map[]) && Total(Repeats(map[])) == 0
    ensures Total(SentPer(map[])) == 0 && Total(ReceivedPer(map[])) == 0
  {
    assert Repeats(map[]) == map[];
    assert SentPer(map[]) == map[] && ReceivedPer(map[]) == map[];
  }

  lemma StepTopics(cfg: Config, s: State, e: Event, s': State)
    requires Next(cfg, s, e, s')
    ensures Total(SentPer(s'.topics)) <= Total(SentPer(s.topics)) + s'.stats.sent - s.stats.sent
    ensures Total(ReceivedPer(s'.topics)) <= Total(ReceivedPer(s.topics)) + s'.stats.received - s.stats.received
  {
    hide SentPer, ReceivedPer, NextCache;
    match e.op
    case Subscribe(t) => TopicChange(s.topics, s'.topics, t);
    case Unsubscribe(t) => TopicChange(s.topics, s'.topics, t);
    case Prepare(t, _) => TopicChange(s.topics, s'.topics, t);
    case Receive(_, t, _) => TopicChange(s.topics, s'.topics, t);
    case _ =>
  }

  /** Changing one topic changes the sums by what it changes there. */
  lemma TopicChange(a: map<string, Topic>, b: map<string, Topic>, t: string)
    requires a - {t} == b - {t}
    ensures var at, bt := if t in a then a[t] else Topic(0, 0, 0), if t in b then b[t] else Topic(0, 0, 0);
            && Total(SentPer(b)) - bt.sent == Total(SentPer(a)) - at.sent
            && Total(ReceivedPer(b)) - bt.received == Total(ReceivedPer(a)) - at.received
  {
    var rest := a - {t};
    SumWithout(a, t, rest);
    SumWithout(b, t, rest);
  }

  lemma SumWithout(a: map<string, Topic>, t: string, rest: map<string, Topic>)
    requires rest == a - {t}
    ensures Total(SentPer(a)) == Total(SentPer(rest)) + (if t in a then a[t].sent else 0)
    ensures Total(ReceivedPer(a)) == Total(ReceivedPer(rest)) + (if t in a then a[t].received else 0)
  {
    if t in a {
      TotalRemove(SentPer(a), t);
      TotalRemove(ReceivedPer(a), t);
      assert SentPer(a) - {t} == SentPer(rest) && ReceivedPer(a) - {t} == ReceivedPer(rest);
    } else {
      assert rest == a;
    }
  }

  /** Every receive call is counted once, as received or as deduplicated; sightings still
      cached and messages on live topics never outnumber the global counters. */
  lemma {:induction false} CounterConservation(cfg: Config, r: Run, n: nat)
    requires ValidRun(cfg, r) && n <= |r.events|
    ensures var st := r.states[n].stats; st.received + st.deduplicated == ReceiveCalls(r, n)
    ensures CountersAgree(r.states[n])
  {
    hide SentPer, ReceivedPer, Repeats, NextTopics, NextCache, TopicOf, AllSeen;
    NoRepeats();
    if n == 0 {
    } else {
      CounterConservation(cfg, r, n - 1);
      StepRepeats(cfg, r.states[n - 1], r.events[n - 1], r.states[n]);
      StepTopics(cfg, r.states[n - 1], r.events[n - 1], r.states[n]);
    }
  }
}
