/** The bound on instances is tight: the limit itself holds only for a single adding thread. */
module CacheLimit {
  import opened Nullables
  import opened CacheState
  import opened CacheProtocol

  const TOPIC := "t"
  const KEYED := DynType("T", Names(["id"]))

  function Add(t: nat, h: Handle): Event { BeginAdd(t, TOPIC, Value(KEYED), Sample(h, Guid(0, 0), []), "k") }

  function Handles(k: nat): set<Handle> { if k == 0 then {} else Handles(k - 1) + {k - 1} }

  lemma {:induction false} HandlesAre(k: nat)
    ensures |Handles(k)| == k && forall h: Handle :: h in Handles(k) <==> h < k
  {
    if k > 0 { HandlesAre(k - 1); }
  }

  /** Thread 0 adds handles 0..k one after the other. */
  function Fill(k: nat): seq<Event> {
    if k == 0 then [] else Fill(k - 1) + [Add(0, k - 1)] + [EndAdd(0)]
  }

  /** Then threads 0..j pass the limit check, and j threads commit. */
  function FillAndBegin(j: nat): seq<Event> {
    if j == 0 then Fill(MAX_INSTANCES_PER_TOPIC - 1)
    else FillAndBegin(j - 1) + [Add(j - 1, MAX_INSTANCES_PER_TOPIC - 1 + j - 1)]
  }

  function FillBeginEnd(n: nat, j: nat): seq<Event> {
    if j == 0 then FillAndBegin(n) else FillBeginEnd(n, j - 1) + [EndAdd(j - 1)]
  }

  ghost predicate Holding(s: System, k: nat) {
    s.cache.On(TOPIC).Keys == Handles(k) && (k > 0 ==> s.cache.KeysOf(TOPIC) != [] && TOPIC in s.cache.instances)
  }

  /** An add of a new handle by an idle thread, as long as the limit is not reached. */
  lemma BeginNew(s: System, t: nat, k: nat, h: Handle)
    requires Holding(s, k) && Sound(s.cache) && k <= h && k < MAX_INSTANCES_PER_TOPIC
    requires t < |s.threads| && s.threads[t].Idle?
    ensures var u := Next(s, Add(t, h));
      && Holding(u, k) && u.cache.KeysOf(TOPIC) != [] && TOPIC in u.cache.instances
      && u.threads == s.threads[t := Adding(TOPIC, Sample(h, Guid(0, 0), []), "k")]
  {
    HandlesAre(k);
    assert |s.cache.On(TOPIC)| == |s.cache.On(TOPIC).Keys|;
    assert h !in s.cache.On(TOPIC);
  }

  lemma EndNew(s: System, t: nat, k: nat)
    requires Holding(s, k) && s.cache.KeysOf(TOPIC) != [] && TOPIC in s.cache.instances && t < |s.threads|
    requires s.threads[t] == Adding(TOPIC, Sample(k, Guid(0, 0), []), "k")
    ensures Holding(Next(s, EndAdd(t)), k + 1) && Next(s, EndAdd(t)).threads == s.threads[t := Idle]
  {
    assert Next(s, EndAdd(t)).cache.On(TOPIC).Keys == s.cache.On(TOPIC).Keys + {k};
  }

  /** One thread adds handle k from start to end. */
  lemma AddOne(n: nat, run: seq<Event>, k: nat)
    requires n > 0 && k < MAX_INSTANCES_PER_TOPIC
    requires var s := After(n, run); Holding(s, k) && s.threads == Start(n).threads
    ensures var s := After(n, run + [Add(0, k)] + [EndAdd(0)]); Holding(s, k + 1) && s.threads == Start(n).threads
  {
    SoundAfter(n, run);
    AfterSnoc(n, run, Add(0, k));
    AfterSnoc(n, run + [Add(0, k)], EndAdd(0));
    hide Next, Begun, Sound, After, Holding;
    AddOneStep(After(n, run), k);
  }

  lemma AddOneStep(s: System, k: nat)
    requires Holding(s, k) && Sound(s.cache) && k < MAX_INSTANCES_PER_TOPIC
    requires |s.threads| > 0 && s.threads[0].Idle?
    ensures var u := Next(Next(s, Add(0, k)), EndAdd(0)); Holding(u, k + 1) && u.threads == s.threads
  {
    hide Next, Begun, Sound, Holding;
    BeginNew(s, 0, k, k);
    EndNew(Next(s, Add(0, k)), 0, k);
    assert s.threads[0 := Adding(TOPIC, Sample(k, Guid(0, 0), []), "k")][0 := Idle] == s.threads;
  }

  lemma {:induction false} Filled(n: nat, k: nat)
    requires n > 0 && k < MAX_INSTANCES_PER_TOPIC
    ensures var s := After(n, Fill(k)); Holding(s, k) && s.threads == Start(n).threads
  {
    hide Next, Begun;
    if k > 0 {
      Filled(n, k - 1);
      hide After, Holding;
      AddOne(n, Fill(k - 1), k - 1);
    }
  }

  lemma SoundAfter(n: nat, run: seq<Event>)
    ensures Sound(After(n, run).cache)
  {
    Reachable(n, run);
  }

  function Waiting(n: nat, from: nat, to: nat): seq<Thread> {
    seq(n, t requires 0 <= t < n =>
      if from <= t < to then Adding(TOPIC, Sample(MAX_INSTANCES_PER_TOPIC - 1 + t, Guid(0, 0), []), "k") else Idle)
  }

  lemma OneMoreWaits(n: nat, j: nat)
    requires j < n
    ensures Waiting(n, 0, j)[j := Adding(TOPIC, Sample(MAX_INSTANCES_PER_TOPIC - 1 + j, Guid(0, 0), []), "k")] ==
      Waiting(n, 0, j + 1)
    ensures Waiting(n, 0, j)[j].Idle?
  {
  }

  lemma BeginOne(n: nat, run: seq<Event>, j: nat)
    requires j < n
    requires var s := After(n, run); Holding(s, MAX_INSTANCES_PER_TOPIC - 1) && s.threads == Waiting(n, 0, j)
    ensures var s := After(n, run + [Add(j, MAX_INSTANCES_PER_TOPIC - 1 + j)]);
      Holding(s, MAX_INSTANCES_PER_TOPIC - 1) && s.threads == Waiting(n, 0, j + 1)
  {
    var h := MAX_INSTANCES_PER_TOPIC - 1 + j;
    SoundAfter(n, run);
    AfterSnoc(n, run, Add(j, h));
    hide Next, After, Begun, Sound;
    hide Holding;
    BeginNew(After(n, run), j, MAX_INSTANCES_PER_TOPIC - 1, h);
    OneMoreWaits(n, j);
  }

  lemma {:induction false} AllBegun(n: nat, j: nat)
    requires 0 < n && j <= n
    ensures var s := After(n, FillAndBegin(j));
      Holding(s, MAX_INSTANCES_PER_TOPIC - 1) && s.threads == Waiting(n, 0, j)
  {
    hide After, Next, Holding, Waiting, Fill;
    if j == 0 {
      Filled(n, MAX_INSTANCES_PER_TOPIC - 1);
      NobodyWaits(n);
    } else {
      AllBegun(n, j - 1);
      BeginOne(n, FillAndBegin(j - 1), j - 1);
    }
  }

  lemma NobodyWaits(n: nat)
    requires n > 0
    ensures Start(n).threads == Waiting(n, 0, 0)
  {
  }

  lemma EndOne(n: nat, run: seq<Event>, j: nat)
    requires j < n
    requires var s := After(n, run); Holding(s, MAX_INSTANCES_PER_TOPIC - 1 + j) && s.threads == Waiting(n, j, n)
    ensures var s := After(n, run + [EndAdd(j)]);
      Holding(s, MAX_INSTANCES_PER_TOPIC + j) && s.threads == Waiting(n, j + 1, n)
  {
    AfterSnoc(n, run, EndAdd(j));
    hide Next, After;
    EndNew(After(n, run), j, MAX_INSTANCES_PER_TOPIC - 1 + j);
    assert Waiting(n, j, n)[j := Idle] == Waiting(n, j + 1, n);
  }

  lemma {:induction false} AllEnded(n: nat, j: nat)
    requires 0 < n && j <= n
    ensures var s := After(n, FillBeginEnd(n, j));
      Holding(s, MAX_INSTANCES_PER_TOPIC - 1 + j) && s.threads == Waiting(n, j, n)
  {
    hide After, Next, Holding, Waiting;
    if j == 0 {
      AllBegun(n, n);
    } else {
      AllEnded(n, j - 1);
      EndOne(n, FillBeginEnd(n, j - 1), j - 1);
    }
  }

  /** For every number of threads some run reaches the bound of `InstanceBound`. */
  lemma BoundIsReached(n: nat)
    requires n > 0
    ensures |After(n, FillBeginEnd(n, n)).cache.On(TOPIC)| == MAX_INSTANCES_PER_TOPIC + n - 1
  {
    AllEnded(n, n);
    HandlesAre(MAX_INSTANCES_PER_TOPIC + n - 1);
    var m := After(n, FillBeginEnd(n, n)).cache.On(TOPIC);
    assert |m| == |m.Keys|;
  }

  /** The configured limit is respected by every run exactly when at most one thread adds. */
  lemma LimitHoldsForOneThread(n: nat)
    ensures n <= 1 <==> forall run, topic :: |After(n, run).cache.On(topic)| <= MAX_INSTANCES_PER_TOPIC
  {
    if n <= 1 {
      forall run, topic
        ensures |After(n, run).cache.On(topic)| <= MAX_INSTANCES_PER_TOPIC
      {
        InstanceBound(n, run, topic);
      }
    } else {
      BoundIsReached(n);
    }
  }
}
