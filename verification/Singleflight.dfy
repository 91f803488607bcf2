/** Concurrent misses of the read cache as a step machine: one download per blob at a time, and nobody waits for ever. */
module Singleflight {
  import opened Bytes
  import opened Blobs

  type Tid = nat
  type Event = nat

  const ROUNDS := 3

  /** Where a thread is in get_range or prefetch; a leader carries its event, and then what its loader gave. */
  datatype Pc =
    | Probe
    | Try(round: nat)
    | Miss(round: nat)
    | Lead(round: nat, ev: Event)
    | Settle(round: nat, ev: Event, got: Option<Data>)
    | Wake(round: nat, ev: Event, got: Option<Data>)
    | Wait(round: nat, ev: Event)
    | Direct
    | Done(data: Data)
    | Raised
    | Left

  datatype Thread = Thread(prefetch: bool, sha: Sha, pc: Pc)

  /** The shared index and in-flight table, the events that are set, and the threads. */
  datatype State = State(cached: set<Sha>, inflight: map<Sha, Event>, fired: set<Event>, next: Event, threads: map<Tid, Thread>)

  /** What the world decides in a step: whether a load succeeds, whether a file is gone, and what eviction leaves. */
  datatype World = World(ok: bool, gone: bool, kept: set<Sha>)

  predicate Finished(pc: Pc) {
    pc.Done? || pc.Raised? || pc.Left?
  }

  predicate Enabled(s: State, t: Tid) {
    && t in s.threads && !Finished(s.threads[t].pc)
    && (s.threads[t].pc.Wait? ==> s.threads[t].pc.ev in s.fired)
  }

  function At(s: State, t: Tid, pc: Pc): State
    requires t in s.threads
  {
    s.(threads := s.threads[t := s.threads[t].(pc := pc)])
  }

  /** One atomic step of thread t: what it does between taking and giving up the cache lock, or outside it. */
  function Act(s: State, t: Tid, w: World): State
    requires Enabled(s, t)
  {
    var th := s.threads[t];
    match th.pc
    case Probe => At(s, t, if th.sha in s.cached || th.sha in s.inflight then Left else Miss(0))
    case Try(r) =>
      if th.sha !in s.cached then At(s, t, Miss(r))
      else if w.gone then At(s.(cached := s.cached - {th.sha}), t, Miss(r))
      else At(s, t, Done(Pre(th.sha)))
    case Miss(r) =>
      if th.sha in s.inflight then At(s, t, Wait(r, s.inflight[th.sha]))
      else At(s.(inflight := s.inflight[th.sha := s.next], next := s.next + 1), t, Lead(r, s.next))
    case Lead(r, ev) =>
      if w.ok then At(s.(cached := (s.cached + {th.sha}) * w.kept), t, Settle(r, ev, Some(Pre(th.sha))))
      else At(s, t, Settle(r, ev, None))
    case Settle(r, ev, got) => At(s.(inflight := s.inflight - {th.sha}), t, Wake(r, ev, got))
    case Wake(_, ev, got) =>
      At(s.(fired := s.fired + {ev}), t, if th.prefetch then Left else if got.Some? then Done(got.value) else Raised)
    case Wait(r, _) => At(s, t, if th.prefetch then Left else if r + 1 < ROUNDS then Try(r + 1) else Direct)
    case Direct => At(s, t, if w.ok then Done(Pre(th.sha)) else Raised)
    case _ => s
  }

  // ----- what every step keeps -------------------------------------------------------------

  /** Thread t is the one that will set event ev. */
  predicate Owns(s: State, t: Tid, ev: Event) {
    t in s.threads && (var pc := s.threads[t].pc; (pc.Lead? || pc.Settle? || pc.Wake?) && pc.ev == ev)
  }

  ghost predicate Owned(s: State, ev: Event) {
    exists t :: Owns(s, t, ev)
  }

  /** A thread between registering its event and taking it out of the table. */
  predicate Registered(th: Thread) {
    th.pc.Lead? || th.pc.Settle?
  }

  predicate Registers(s: State, t: Tid, sha: Sha) {
    && t in s.threads && Registered(s.threads[t]) && s.threads[t].sha == sha
    && sha in s.inflight && s.inflight[sha] == s.threads[t].pc.ev
  }

  ghost predicate InHand(s: State, sha: Sha) {
    exists t :: Registers(s, t, sha)
  }

  ghost predicate Leaders(s: State) {
    && (forall t :: t in s.threads && Registered(s.threads[t]) ==>
          Registers(s, t, s.threads[t].sha))
    && (forall sha :: sha in s.inflight ==> s.inflight[sha] < s.next && InHand(s, sha))
  }

  ghost predicate Events(s: State) {
    && (forall t, u, ev: Event :: Owns(s, t, ev) && Owns(s, u, ev) ==> t == u)
    && (forall t, ev: Event :: Owns(s, t, ev) ==> ev < s.next && ev !in s.fired)
    && (forall ev: Event :: ev in s.fired ==> ev < s.next)
  }

  /** Whatever a thread holds or returns is the blob it asked for; it is in one of three rounds. */
  predicate Exact(th: Thread) {
    match th.pc
    case Done(data) => data == Pre(th.sha)
    case Settle(r, _, got) => r < ROUNDS && (got.Some? ==> got.value == Pre(th.sha))
    case Wake(r, _, got) => r < ROUNDS && (got.Some? ==> got.value == Pre(th.sha))
    case Try(r) => r < ROUNDS
    case Miss(r) => r < ROUNDS
    case Lead(r, _) => r < ROUNDS
    case Wait(r, _) => r < ROUNDS
    case _ => true
  }

  ghost predicate Inv(s: State) {
    Leaders(s) && Events(s) && Waits(s) && forall t :: t in s.threads ==> Exact(s.threads[t])
  }

  /** Nothing cached or in flight is in anyone's hands: every thread is about to start. */
  predicate Fresh(s: State) {
    && s.inflight == map[] && s.fired == {}
    && forall t :: t in s.threads ==> s.threads[t].pc == if s.threads[t].prefetch then Probe else Try(0)
  }

  lemma FreshInv(s: State)
    requires Fresh(s)
    ensures Inv(s)
  {
  }

  /** An owner keeps its event until it sets it. */
  lemma StaysOwned(s: State, t: Tid, w: World, ev: Event)
    requires Inv(s) && Enabled(s, t) && Owned(s, ev)
    ensures Owned(Act(s, t, w), ev) || ev in Act(s, t, w).fired
    ensures !s.threads[t].pc.Wake? ==> Owned(Act(s, t, w), ev)
  {
    var u :| Owns(s, u, ev);
    var s' := Act(s, t, w);
    assert (u == t && s.threads[t].pc.Wake?) || Owns(s', u, ev);
  }

  lemma ActLeaders(s: State, t: Tid, w: World)
    requires Inv(s) && Enabled(s, t)
    ensures Leaders(Act(s, t, w))
  {
    var s', sha0 := Act(s, t, w), s.threads[t].sha;
    forall u | u in s'.threads && Registered(s'.threads[u])
      ensures Registers(s', u, s'.threads[u].sha)
    {
      if u != t && s.threads[t].pc.Settle? && s.threads[u].sha == sha0 {
        OneLeader(s, t, u);
      }
    }
    forall sha | sha in s'.inflight
      ensures s'.inflight[sha] < s'.next && InHand(s', sha)
    {
      if sha in s.inflight {
        var u :| Registers(s, u, sha);
        assert Registers(s', u, sha);
      } else {
        assert Registers(s', t, sha);
      }
    }
  }

  /** Whoever waits waits for an event that is set or that someone will set. */
  ghost predicate Waits(s: State) {
    forall t :: t in s.threads && s.threads[t].pc.Wait? ==> s.threads[t].pc.ev in s.fired || Owned(s, s.threads[t].pc.ev)
  }

  /** An event gets an owner only when it is made, and loses it when it is set. */
  lemma OwnsBack(s: State, t: Tid, w: World, u: Tid, ev: Event)
    requires Enabled(s, t) && Owns(Act(s, t, w), u, ev)
    ensures Owns(s, u, ev) || (u == t && s.threads[t].pc.Miss? && ev == s.next && Act(s, t, w).next == s.next + 1)
    ensures !(s.threads[t].pc.Wake? && u == t)
  {
  }

  lemma ActEvents(s: State, t: Tid, w: World)
    requires Inv(s) && Enabled(s, t)
    ensures Events(Act(s, t, w))
  {
    var s' := Act(s, t, w);
    forall u, v, ev: Event | Owns(s', u, ev) && Owns(s', v, ev)
      ensures u == v
    {
      OwnsBack(s, t, w, u, ev);
      OwnsBack(s, t, w, v, ev);
    }
    forall u, ev: Event | Owns(s', u, ev)
      ensures ev < s'.next && ev !in s'.fired
    {
      OwnsBack(s, t, w, u, ev);
      assert s.threads[t].pc.Wake? ==> Owns(s, t, s.threads[t].pc.ev);
    }
    assert s.threads[t].pc.Wake? ==> Owns(s, t, s.threads[t].pc.ev);
  }

  lemma ActWaits(s: State, t: Tid, w: World)
    requires Inv(s) && Enabled(s, t)
    ensures Waits(Act(s, t, w))
  {
    var s' := Act(s, t, w);
    forall u | u in s'.threads && s'.threads[u].pc.Wait?
      ensures s'.threads[u].pc.ev in s'.fired || Owned(s', s'.threads[u].pc.ev)
    {
      var ev := s'.threads[u].pc.ev;
      if u == t {
        var v :| Registers(s, v, s.threads[t].sha);
        assert Owns(s, v, ev);
      }
      if ev !in s.fired {
        StaysOwned(s, t, w, ev);
      }
    }
  }

  lemma ActExact(s: State, t: Tid, w: World, u: Tid)
    requires Inv(s) && Enabled(s, t) && u in Act(s, t, w).threads
    ensures Exact(Act(s, t, w).threads[u])
  {
    assert Exact(s.threads[u]);
  }

  lemma ActKeeps(s: State, t: Tid, w: World)
    requires Inv(s) && Enabled(s, t)
    ensures Inv(Act(s, t, w))
  {
    ActLeaders(s, t, w);
    ActEvents(s, t, w);
    ActWaits(s, t, w);
    forall u | u in Act(s, t, w).threads
      ensures Exact(Act(s, t, w).threads[u])
    {
      ActExact(s, t, w, u);
    }
  }

  // ----- the promises ----------------------------------------------------------------------

  /** At most one thread per blob is running its loader. */
  lemma OneLeader(s: State, t: Tid, u: Tid)
    requires Inv(s) && t in s.threads && u in s.threads && s.threads[t].sha == s.threads[u].sha
    requires Registered(s.threads[t]) && Registered(s.threads[u])
    ensures t == u
  {
    assert Owns(s, t, s.threads[t].pc.ev) && Owns(s, u, s.threads[t].pc.ev);
  }

  /** A waiter's event is set already, or exactly one thread will set it, and that one is never blocked itself. */
  lemma WaiterHasLeader(s: State, t: Tid) returns (u: Tid)
    requires Inv(s) && t in s.threads && s.threads[t].pc.Wait? && !Enabled(s, t)
    ensures Owns(s, u, s.threads[t].pc.ev) && Enabled(s, u)
    ensures forall v :: Owns(s, v, s.threads[t].pc.ev) ==> v == u
  {
    u :| Owns(s, u, s.threads[t].pc.ev);
  }

  /** No deadlock: as long as a thread is not finished, some thread can act. */
  lemma SomeoneCanAct(s: State, t: Tid) returns (u: Tid)
    requires Inv(s) && t in s.threads && !Finished(s.threads[t].pc)
    ensures Enabled(s, u)
  {
    if Enabled(s, t) {
      u := t;
    } else {
      u := WaiterHasLeader(s, t);
    }
  }

  /** How many steps a thread still has before it at most. */
  function Rank(pc: Pc): nat {
    match pc
    case Probe => 21
    case Try(r) => if r < ROUNDS then 6 * (ROUNDS - r) + 2 else 2
    case Miss(r) => if r < ROUNDS then 6 * (ROUNDS - r) + 1 else 1
    case Lead(r, _) => if r < ROUNDS then 6 * (ROUNDS - r) else 0
    case Settle(r, _, _) => if r < ROUNDS then 6 * (ROUNDS - r) - 1 else 0
    case Wake(r, _, _) => if r < ROUNDS then 6 * (ROUNDS - r) - 2 else 0
    case Wait(r, _) => if r < ROUNDS then 6 * (ROUNDS - r) - 3 else 0
    case Direct => 1
    case _ => 0
  }

  /** Each step brings its thread closer to the end and leaves the others where they are. */
  lemma RankDrops(s: State, t: Tid, w: World, u: Tid)
    requires Inv(s) && Enabled(s, t) && u in s.threads
    ensures u in Act(s, t, w).threads
    ensures u == t ==> Rank(Act(s, t, w).threads[u].pc) < Rank(s.threads[u].pc)
    ensures u != t ==> Act(s, t, w).threads[u] == s.threads[u]
  {
    assert Exact(s.threads[t]);
  }

  /** A schedule names the thread to act and what the world decides; it lists only steps that are enabled. */
  ghost predicate Runs(s: State, sched: seq<(Tid, World)>)
    decreases |sched|
  {
    sched != [] ==> Enabled(s, sched[0].0) && Runs(Act(s, sched[0].0, sched[0].1), sched[1..])
  }

  ghost function After(s: State, sched: seq<(Tid, World)>): State
    requires Runs(s, sched)
    decreases |sched|
  {
    if sched == [] then s else After(Act(s, sched[0].0, sched[0].1), sched[1..])
  }

  function StepsOf(sched: seq<(Tid, World)>, t: Tid): nat {
    if sched == [] then 0 else StepsOf(sched[1..], t) + if sched[0].0 == t then 1 else 0
  }

  /**
    Under every schedule each thread takes at most 21 steps of its own, three rounds and a direct load, and whatever it
    returns is the blob it asked for, whole.
   */
  lemma {:induction false} EveryRun(s: State, sched: seq<(Tid, World)>, t: Tid)
    requires Inv(s) && Runs(s, sched) && t in s.threads
    ensures Inv(After(s, sched)) && t in After(s, sched).threads && After(s, sched).threads[t].sha == s.threads[t].sha
    ensures StepsOf(sched, t) + Rank(After(s, sched).threads[t].pc) <= Rank(s.threads[t].pc)
    ensures After(s, sched).threads[t].pc.Done? ==> After(s, sched).threads[t].pc.data == Pre(s.threads[t].sha)
    decreases |sched|
  {
    if sched == [] {
      assert Exact(s.threads[t]);
    } else {
      var s1 := Act(s, sched[0].0, sched[0].1);
      ActKeeps(s, sched[0].0, sched[0].1);
      RankDrops(s, sched[0].0, sched[0].1, t);
      assert s1.threads[t].sha == s.threads[t].sha;
      EveryRun(s1, sched[1..], t);
    }
  }

  /** From a fresh start: at most 21 steps a thread, the right blob or an error, and nobody stuck at the end. */
  lemma EveryFreshRun(s: State, sched: seq<(Tid, World)>, t: Tid)
    requires Fresh(s) && Runs(s, sched) && t in s.threads
    ensures StepsOf(sched, t) <= 21 && t in After(s, sched).threads
    ensures var pc := After(s, sched).threads[t].pc; pc.Done? ==> pc.data == Pre(s.threads[t].sha)
    ensures (forall u :: !Enabled(After(s, sched), u)) ==>
              Finished(After(s, sched).threads[t].pc) && After(s, sched).inflight == map[]
  {
    FreshInv(s);
    EveryRun(s, sched, t);
    if forall u :: !Enabled(After(s, sched), u) {
      StuckIsFinished(After(s, sched));
    }
  }

  lemma FlightHasThread(s: State, sha: Sha) returns (u: Tid)
    requires Inv(s) && sha in s.inflight
    ensures Enabled(s, u)
  {
    u :| Registers(s, u, sha);
  }

  /** A run that cannot go on has finished every thread and left nothing in flight. */
  lemma StuckIsFinished(s: State)
    requires Inv(s) && forall t :: !Enabled(s, t)
    ensures forall t :: t in s.threads ==> Finished(s.threads[t].pc)
    ensures s.inflight == map[]
  {
    forall t | t in s.threads
      ensures Finished(s.threads[t].pc)
    {
      if !Finished(s.threads[t].pc) {
        var u := SomeoneCanAct(s, t);
        assert false;
      }
    }
    if sha :| sha in s.inflight {
      var u := FlightHasThread(s, sha);
      assert false;
    }
  }

  // ----- when a prefetch waits -------------------------------------------------------------

  /** Thread t waits at some point of the run. */
  ghost predicate EverWaits(s: State, sched: seq<(Tid, World)>, t: Tid)
    requires t in s.threads && Runs(s, sched)
    decreases |sched|
  {
    s.threads[t].pc.Wait? || (sched != [] && EverWaits(Act(s, sched[0].0, sched[0].1), sched[1..], t))
  }

  /** At some point of the run t takes its registering step and finds its blob in flight. */
  ghost predicate MeetsFlight(s: State, sched: seq<(Tid, World)>, t: Tid)
    requires t in s.threads && Runs(s, sched)
    decreases |sched|
  {
    sched != [] &&
    (|| (sched[0].0 == t && s.threads[t].pc.Miss? && s.threads[t].sha in s.inflight)
     || MeetsFlight(Act(s, sched[0].0, sched[0].1), sched[1..], t))
  }

  /** Another thread registers t's blob while t has asked but not registered yet. */
  ghost predicate Overtaken(s: State, sched: seq<(Tid, World)>, t: Tid)
    requires t in s.threads && Runs(s, sched)
    decreases |sched|
  {
    sched != [] &&
    (|| (sched[0].0 != t && s.threads[t].pc.Miss? && Registering(s, sched[0].0, s.threads[t].sha))
     || Overtaken(Act(s, sched[0].0, sched[0].1), sched[1..], t))
  }

  /** Thread u is about to become the leader for this blob. */
  predicate Registering(s: State, u: Tid, sha: Sha) {
    u in s.threads && s.threads[u].pc.Miss? && s.threads[u].sha == sha && sha !in s.inflight
  }

  /** A thread that starts as a prefetch and has not waited. */
  predicate Prefetching(th: Thread) {
    th.prefetch && (th.pc.Probe? || th.pc.Miss? || Registered(th) || th.pc.Wake? || th.pc.Left?)
  }

  /** Where one step takes a thread: itself to waiting exactly if it registers and the blob is in flight, others nowhere. */
  lemma PrefetchStep(s: State, u: Tid, w: World, t: Tid)
    requires Enabled(s, u) && t in s.threads && Prefetching(s.threads[t])
    ensures var th' := Act(s, u, w).threads[t];
            && (th'.pc.Wait? <==> u == t && s.threads[t].pc.Miss? && s.threads[t].sha in s.inflight)
            && (!th'.pc.Wait? ==> Prefetching(th')) && th'.sha == s.threads[t].sha
  {
  }

  /** Under every schedule a prefetch waits if and only if its blob is in flight when it takes its registering step. */
  lemma {:induction false} PrefetchWaitsIff(s: State, sched: seq<(Tid, World)>, t: Tid)
    requires Runs(s, sched) && t in s.threads && Prefetching(s.threads[t])
    ensures EverWaits(s, sched, t) <==> MeetsFlight(s, sched, t)
    decreases |sched|
  {
    if sched != [] {
      var s1 := Act(s, sched[0].0, sched[0].1);
      PrefetchStep(s, sched[0].0, sched[0].1, t);
      if Prefetching(s1.threads[t]) {
        PrefetchWaitsIff(s1, sched[1..], t);
      }
    }
  }

  /** Before it registers, a prefetch's blob gets in flight only through another thread's registering step. */
  lemma FlightStep(s: State, u: Tid, w: World, sha: Sha)
    requires Enabled(s, u) && sha !in s.inflight && sha in Act(s, u, w).inflight
    ensures Registering(s, u, sha)
  {
  }

  /** So a prefetch waits only if another thread registered its blob between its probe and its own registering step. */
  lemma {:induction false} WaitsOnlyOvertaken(s: State, sched: seq<(Tid, World)>, t: Tid)
    requires Runs(s, sched) && t in s.threads && Prefetching(s.threads[t])
    requires s.threads[t].pc.Miss? ==> s.threads[t].sha !in s.inflight
    requires !Overtaken(s, sched, t)
    ensures !EverWaits(s, sched, t)
    decreases |sched|
  {
    if sched != [] {
      var u, w, sha := sched[0].0, sched[0].1, s.threads[t].sha;
      var s1 := Act(s, u, w);
      PrefetchStep(s, u, w, t);
      if sha !in s.inflight && sha in s1.inflight {
        FlightStep(s, u, w, sha);
      }
      WaitsOnlyOvertaken(s1, sched[1..], t);
    }
  }

  /** A prefetch can end up waiting for another download after all: it asks first, and registers later. */
  lemma PrefetchMayWait(sha: Sha, w: World)
    ensures var s := State({}, map[], {}, 0, map[0 := Thread(true, sha, Probe), 1 := Thread(false, sha, Try(0))]);
            var s1 := Act(s, 0, w);
            var s2 := Act(s1, 1, w);
            var s3 := Act(s2, 1, w);
            Fresh(s) && Act(s3, 0, w).threads[0].pc == Wait(0, 0) && !Enabled(Act(s3, 0, w), 0)
  {
    var s := State({}, map[], {}, 0, map[0 := Thread(true, sha, Probe), 1 := Thread(false, sha, Try(0))]);
    var s1 := Act(s, 0, w);
    assert s1.threads[0].pc == Miss(0);
    var s2 := Act(s1, 1, w);
    assert s2.threads[1].pc == Miss(0);
    var s3 := Act(s2, 1, w);
    assert s3.inflight == map[sha := 0] && s3.threads[0].pc == Miss(0);
  }
}
