/** BlockPrefetchClient as a state machine over its atomic steps: requests that hand their lock
    to a goroutine, the fetcher, and the hit counter (rpcutils/prefetcher.go). */
module Prefetch {
  import opened Types

  /** A slot: the hash it is filed under, the hashes of the block and of the header it holds,
      and the header's next hash. An empty slot has the zero hash. */
  datatype Slot = Empty | Filled(hash: Hash, block: Hash, header: Hash, next: Option<Hash>)

  function SlotHash(s: Slot): Hash {
    if s.Empty? then ZERO_HASH else s.hash
  }

  /** What the node answers for a block: nothing, or the block with its next hash. The node
      returns the block it is asked for. */
  datatype Reply = Error | Got(next: Option<Hash>)

  datatype Lock = Free | HeldBy(request: nat)

  /** The counter update of a hit: first the old value is read, later the new one written. A
      hit on the current slot does both while it holds the lock; a hit on the next slot does
      them after it has handed the lock over. */
  datatype Inc = NotRead | Read(value: nat)

  /** What a request returned: nothing for an error, or the hashes of block and header. Recorded
      with it is whether a slot held the block, and what the node would have answered. */
  datatype Answer = Answer(asked: Hash, result: Option<(Hash, Hash)>, held: bool, reply: Reply)

  /** The slot is filed under the hash. */
  predicate HoldsBlock(s: Slot, hash: Hash) {
    s.Filled? && s.hash == hash
  }

  datatype State = State(
    current: Slot,
    next: Slot,
    lock: Lock,
    retargets: map<nat, Option<Hash>>,  // goroutines that hold the lock for a request
    chan: seq<Hash>,
    fetching: Option<Hash>,             // received by the fetcher, waiting for the lock
    hits: nat,
    misses: nat,
    incs: map<nat, Inc>,                // hits not counted yet
    counted: nat,                       // hits counted
    answers: seq<Answer>,               // one per request
    releases: seq<nat>)                 // how often each request released the lock

  const CHAN_SIZE: nat := 10

  const INITIAL := State(Empty, Empty, Free, map[], [], None, 0, 0, map[], 0, [], [])

  datatype Action =
    | Request(hash: Hash, reply: Reply)
    | ReadHits(id: nat)
    | WriteHits(id: nat)
    | Unlock(id: nat)
    | Retarget(id: nat)
    | Receive
    | Fetch(reply: Reply)

  /** The result of serving a slot that holds the block. */
  function Serve(s: Slot): Option<(Hash, Hash)> {
    if s.Empty? then Some((ZERO_HASH, ZERO_HASH)) else Some((s.block, s.header))
  }

  /** GetBlockData, from taking the lock to knowing the answer. What is left to do is to count
      a hit, and to release the lock: on return after a hit on the current slot, in a goroutine
      after a hit on the next slot or a miss. */
  function OnRequest(s: State, hash: Hash, reply: Reply): State {
    var id, held := |s.answers|, HoldsBlock(s.current, hash) || HoldsBlock(s.next, hash);
    if SlotHash(s.current) == hash then
      s.(lock := HeldBy(id), incs := s.incs[id := NotRead],
         answers := s.answers + [Answer(hash, Serve(s.current), held, reply)], releases := s.releases + [0])
    else if SlotHash(s.next) == hash then
      s.(lock := HeldBy(id), retargets := s.retargets[id := if s.next.Filled? then s.next.next else None],
         incs := s.incs[id := NotRead],
         answers := s.answers + [Answer(hash, Serve(s.next), held, reply)], releases := s.releases + [0])
    else if reply.Error? then
      s.(misses := s.misses + 1, answers := s.answers + [Answer(hash, None, held, reply)], releases := s.releases + [1])
    else
      s.(misses := s.misses + 1, lock := HeldBy(id), retargets := s.retargets[id := reply.next],
         answers := s.answers + [Answer(hash, Some((hash, hash)), held, reply)], releases := s.releases + [0])
  }

  /** Whether retarget puts the hash on the channel. */
  predicate Sends(s: State, target: Option<Hash>) {
    && target.Some?
    && !(s.next.Filled? && target.value == s.next.header)
    && !(s.current.Filled? && target.value == s.current.header)
  }

  /** The deferred unlock of a hit on the current slot. */
  function OnUnlock(s: State, id: nat): State
    requires id < |s.releases|
  {
    s.(lock := Free, releases := s.releases[id := s.releases[id] + 1])
  }

  /** retargetAndUnlock. */
  function OnRetarget(s: State, id: nat): State
    requires id in s.retargets && id < |s.releases|
  {
    s.(chan := if Sends(s, s.retargets[id]) then s.chan + [s.retargets[id].value] else s.chan,
       lock := Free, retargets := s.retargets - {id},
       releases := s.releases[id := s.releases[id] + 1])
  }

  /** RetrieveAndStoreNext. */
  function OnFetch(s: State, h: Hash, reply: Reply): State {
    if SlotHash(s.next) == h || SlotHash(s.current) == h || reply.Error? then s.(fetching := None)
    else s.(fetching := None, current := s.next, next := Filled(h, h, h, reply.next))
  }

  predicate Enabled(s: State, a: Action) {
    match a
    case Request(_, _) => s.lock.Free?
    case ReadHits(id) => id in s.incs && s.incs[id].NotRead?
    case WriteHits(id) => id in s.incs && s.incs[id].Read?
    case Unlock(id) => s.lock == HeldBy(id) && id !in s.retargets && id !in s.incs && id < |s.releases|
    case Retarget(id) => id in s.retargets && id < |s.releases| && (Sends(s, s.retargets[id]) ==> |s.chan| < CHAN_SIZE)
    case Receive => s.fetching.None? && |s.chan| > 0
    case Fetch(_) => s.fetching.Some? && s.lock.Free?
  }

  function Next(s: State, a: Action): State
    requires Enabled(s, a)
  {
    match a
    case Request(hash, reply) => OnRequest(s, hash, reply)
    case ReadHits(id) => s.(incs := s.incs[id := Read(s.hits)])
    case WriteHits(id) => s.(hits := s.incs[id].value + 1, counted := s.counted + 1, incs := s.incs - {id})
    case Unlock(id) => OnUnlock(s, id)
    case Retarget(id) => OnRetarget(s, id)
    case Receive => s.(fetching := Some(s.chan[0]), chan := s.chan[1..])
    case Fetch(reply) => OnFetch(s, s.fetching.value, reply)
  }

  /** The state after a run, if every step of it was possible. */
  function Run(s: State, run: seq<Action>): Option<State>
    decreases |run|
  {
    if run == [] then Some(s)
    else if !Enabled(s, run[0]) then None
    else Run(Next(s, run[0]), run[1..])
  }

  predicate SlotOk(s: Slot) {
    s.Filled? ==> s.block == s.hash && s.header == s.hash
  }

  /** A nonzero hash is answered with its block and header exactly when a slot held them or the
      node had them, and with an error otherwise. */
  predicate AnswerOk(a: Answer) {
    a.asked != ZERO_HASH ==> a.result == if a.held || a.reply.Got? then Some((a.asked, a.asked)) else None
  }

  /** Exactly one release per request, still to come while its lock is held. */
  predicate ReleasedOnce(s: State, i: nat)
    requires i < |s.releases|
  {
    s.releases[i] == if s.lock == HeldBy(i) then 0 else 1
  }

  ghost predicate Inv(s: State) {
    && SlotOk(s.current) && SlotOk(s.next)
    && (s.next.Empty? ==> s.current.Empty?)
    && (s.current.Filled? && s.next.Filled? ==> s.current.hash != s.next.hash)
    && |s.chan| <= CHAN_SIZE
    && |s.releases| == |s.answers|
    && (forall i :: 0 <= i < |s.answers| ==> AnswerOk(s.answers[i]))
    && (forall i :: 0 <= i < |s.releases| ==> ReleasedOnce(s, i))
    && (if s.lock.Free? then s.retargets == map[]
        else s.lock.request < |s.answers| && s.retargets.Keys <= {s.lock.request})
    && (forall i :: i in s.incs ==> i < |s.answers|)
    && s.counted + s.misses + |s.incs| == |s.answers|
    && s.hits <= s.counted
    && (forall i :: i in s.incs && s.incs[i].Read? ==> s.incs[i].value <= s.counted)
  }

  lemma RequestKeeps(s: State, hash: Hash, reply: Reply)
    requires Inv(s) && s.lock.Free?
    ensures Inv(OnRequest(s, hash, reply))
  {
    var t, id := OnRequest(s, hash, reply), |s.answers|;
    assert t.answers[..id] == s.answers && t.releases[..id] == s.releases;
    forall i | 0 <= i < |t.answers| ensures AnswerOk(t.answers[i]) {
      if i < id { assert t.answers[i] == s.answers[i]; }
    }
    forall i | 0 <= i < |t.releases| ensures ReleasedOnce(t, i) {
      if i < id { assert ReleasedOnce(s, i); }
    }
    assert id !in s.incs;
  }

  lemma UnlockKeeps(s: State, id: nat)
    requires Inv(s) && Enabled(s, Unlock(id))
    ensures Inv(OnUnlock(s, id))
  {
    var t := OnUnlock(s, id);
    forall i | 0 <= i < |t.releases| ensures ReleasedOnce(t, i) {
      assert ReleasedOnce(s, i);
    }
    assert t.retargets.Keys == {};
  }

  lemma RetargetKeeps(s: State, id: nat)
    requires Inv(s) && Enabled(s, Retarget(id))
    ensures Inv(OnRetarget(s, id))
  {
    var t := OnRetarget(s, id);
    assert id == s.lock.request;
    forall i | 0 <= i < |t.releases| ensures ReleasedOnce(t, i) {
      assert ReleasedOnce(s, i);
    }
    assert t.retargets.Keys == {};
  }

  lemma CounterKeeps(s: State, a: Action)
    requires Inv(s) && Enabled(s, a) && (a.ReadHits? || a.WriteHits?)
    ensures Inv(Next(s, a))
  {
    var t := Next(s, a);
    forall i | 0 <= i < |t.releases| ensures ReleasedOnce(t, i) {
      assert ReleasedOnce(s, i);
    }
    if a.ReadHits? {
      assert t.incs.Keys == s.incs.Keys;
      assert |t.incs| == |t.incs.Keys| == |s.incs.Keys| == |s.incs|;
    } else {
      assert t.incs.Keys == s.incs.Keys - {a.id};
      assert |t.incs| == |t.incs.Keys| == |s.incs.Keys| - 1 == |s.incs| - 1;
    }
  }

  lemma FetcherKeeps(s: State, a: Action)
    requires Inv(s) && Enabled(s, a) && (a.Receive? || a.Fetch?)
    ensures Inv(Next(s, a))
  {
    var t := Next(s, a);
    forall i | 0 <= i < |t.releases| ensures ReleasedOnce(t, i) {
      assert ReleasedOnce(s, i);
    }
  }

  /** Every step of every interleaving keeps the invariant. */
  lemma StepKeeps(s: State, a: Action)
    requires Inv(s) && Enabled(s, a)
    ensures Inv(Next(s, a))
  {
    match a {
      case Request(hash, reply) => RequestKeeps(s, hash, reply);
      case ReadHits(_) => CounterKeeps(s, a);
      case WriteHits(_) => CounterKeeps(s, a);
      case Unlock(id) => UnlockKeeps(s, id);
      case Retarget(id) => RetargetKeeps(s, id);
      case Receive => FetcherKeeps(s, a);
      case Fetch(_) => FetcherKeeps(s, a);
    }
  }

  /** Prefetching is transparent in every interleaving: right answers, consistent and distinct
      slots, one release of the lock per request. Hits and misses never add up to more than
      the number of requests. */
  lemma {:induction false} Transparent(s: State, run: seq<Action>)
    requires Inv(s) && Run(s, run).Some?
    ensures Inv(Run(s, run).value)
    ensures var t := Run(s, run).value; t.hits + t.misses + |t.incs| <= |t.answers|
    decreases |run|
  {
    if run != [] {
      StepKeeps(s, run[0]);
      Transparent(Next(s, run[0]), run[1..]);
    }
  }

  lemma RunKeeps(s: State, run: seq<Action>)
    requires Inv(s) && Run(s, run).Some?
    ensures Inv(Run(s, run).value)
  {
    Transparent(s, run);
  }

  lemma InitialOk()
    ensures Inv(INITIAL)
  {
  }

  // ---- The hit counter ----

  /** The step does not give the lock back before the hit it belongs to is counted. */
  predicate Patient(s: State, a: Action) {
    a.Retarget? ==> a.id !in s.incs
  }

  predicate PatientRun(s: State, run: seq<Action>)
    decreases |run|
  {
    run == [] || !Enabled(s, run[0]) || (Patient(s, run[0]) && PatientRun(Next(s, run[0]), run[1..]))
  }

  /** Only the holder of the lock has a hit to count, and nobody else has changed the counter. */
  ghost predicate Exact(s: State) {
    && s.hits == s.counted
    && (forall i :: i in s.incs ==> s.lock == HeldBy(i) && (s.incs[i].Read? ==> s.incs[i].value == s.hits))
  }

  lemma ExactStep(s: State, a: Action)
    requires Inv(s) && Exact(s) && Enabled(s, a) && Patient(s, a)
    ensures Exact(Next(s, a))
  {
  }

  /** When every hit is counted before its goroutine releases the lock, hits and misses are
      exactly the requests. */
  lemma {:induction false} CountsAreExact(s: State, run: seq<Action>)
    requires Inv(s) && Exact(s) && Run(s, run).Some? && PatientRun(s, run)
    ensures var t := Run(s, run).value; t.hits + t.misses + |t.incs| == |t.answers|
    decreases |run|
  {
    if run != [] {
      StepKeeps(s, run[0]);
      ExactStep(s, run[0]);
      CountsAreExact(Next(s, run[0]), run[1..]);
    }
  }

  // ---- Exactly when no hit is lost ----

  /** A hit is counted on top of the value it was read from: nothing was counted since. */
  predicate Undisturbed(s: State, a: Action) {
    a.WriteHits? && Enabled(s, a) ==> s.incs[a.id].value == s.hits
  }

  predicate UndisturbedRun(s: State, run: seq<Action>)
    decreases |run|
  {
    run == [] || !Enabled(s, run[0]) || (Undisturbed(s, run[0]) && UndisturbedRun(Next(s, run[0]), run[1..]))
  }

  /** Hits have been lost, and no pending increment can bring them back. */
  ghost predicate Lost(s: State) {
    s.hits < s.counted && forall i :: i in s.incs && s.incs[i].Read? ==> s.incs[i].value < s.counted
  }

  lemma CountStep(s: State, a: Action)
    requires Inv(s) && Enabled(s, a)
    ensures Lost(s) ==> Lost(Next(s, a))
    ensures s.hits == s.counted && Undisturbed(s, a) ==> Next(s, a).hits == Next(s, a).counted
    ensures s.hits == s.counted && !Undisturbed(s, a) ==> Lost(Next(s, a))
  {
  }

  lemma {:induction false} StaysLost(s: State, run: seq<Action>)
    requires Inv(s) && Lost(s) && Run(s, run).Some?
    ensures Inv(Run(s, run).value) && Lost(Run(s, run).value)
    decreases |run|
  {
    if run != [] {
      StepKeeps(s, run[0]);
      CountStep(s, run[0]);
      StaysLost(Next(s, run[0]), run[1..]);
    }
  }

  /** Hits, misses and hits still to be counted add up to the requests exactly when nothing is
      counted between the read and the write of another count. Once lost, always lost. */
  lemma {:induction false} CountsExactIff(s: State, run: seq<Action>)
    requires Inv(s) && s.hits == s.counted && Run(s, run).Some?
    ensures var t := Run(s, run).value;
            t.hits + t.misses + |t.incs| == |t.answers| <==> UndisturbedRun(s, run)
    decreases |run|
  {
    if run != [] {
      var t := Next(s, run[0]);
      StepKeeps(s, run[0]);
      CountStep(s, run[0]);
      if Undisturbed(s, run[0]) {
        CountsExactIff(t, run[1..]);
      } else {
        StaysLost(t, run[1..]);
      }
    }
  }

  lemma {:induction false} RunConcat(s: State, a: seq<Action>, b: seq<Action>)
    requires Run(s, a).Some?
    ensures Run(s, a + b) == Run(Run(s, a).value, b)
    decreases |a|
  {
    if a == [] {
      assert a + b == b;
    } else {
      assert (a + b)[0] == a[0] && (a + b)[1..] == a[1..] + b;
      RunConcat(Next(s, a[0]), a[1..], b);
    }
  }

  lemma Step1(s: State, a: Action)
    requires Enabled(s, a)
    ensures Run(s, [a]) == Some(Next(s, a))
  {
    assert [a][1..] == [];
  }

  lemma Extend(s: State, run: seq<Action>, t: State, a: Action)
    requires Run(s, run) == Some(t) && Enabled(t, a)
    ensures Run(s, run + [a]) == Some(Next(t, a))
  {
    RunConcat(s, run, [a]);
    Step1(t, a);
  }

  // ---- When the client can still serve ----

  /** The holder of the lock waits to send on a full channel, and the fetcher, which would
      make room, waits for the lock. */
  predicate Deadlocked(s: State) {
    && s.lock.HeldBy? && s.lock.request in s.retargets && Sends(s, s.retargets[s.lock.request])
    && |s.chan| >= CHAN_SIZE && s.fetching.Some?
  }

  /** Nothing but counting is left to do then, and it does not help. */
  lemma DeadlockStays(s: State, a: Action)
    requires Inv(s) && Deadlocked(s) && Enabled(s, a)
    ensures a.ReadHits? || a.WriteHits?
    ensures Deadlocked(Next(s, a)) && Next(s, a).answers == s.answers
  {
  }

  lemma {:induction false} DeadlockForever(s: State, run: seq<Action>)
    requires Inv(s) && Deadlocked(s) && Run(s, run).Some?
    ensures Deadlocked(Run(s, run).value) && Run(s, run).value.answers == s.answers
    decreases |run|
  {
    if run != [] {
      StepKeeps(s, run[0]);
      DeadlockStays(s, run[0]);
      DeadlockForever(Next(s, run[0]), run[1..]);
    }
  }

  lemma Then(s: State, a: Action, rest: seq<Action>)
    requires Enabled(s, a)
    ensures Run(s, [a] + rest) == Run(Next(s, a), rest)
  {
    assert ([a] + rest)[0] == a && ([a] + rest)[1..] == rest;
  }

  /** Otherwise the lock can be released, whoever holds it. */
  lemma CanRelease(s: State) returns (run: seq<Action>)
    requires Inv(s) && !Deadlocked(s)
    ensures Run(s, run).Some? && Run(s, run).value.lock.Free? && Run(s, run).value.answers == s.answers
  {
    if s.lock.Free? {
      run := [];
    } else {
      var i := s.lock.request;
      if i in s.retargets && (Sends(s, s.retargets[i]) ==> |s.chan| < CHAN_SIZE) {
        run := [Retarget(i)];
        Step1(s, Retarget(i));
      } else if i in s.retargets {
        run := [Receive] + [Retarget(i)];
        Then(s, Receive, [Retarget(i)]);
        Step1(Next(s, Receive), Retarget(i));
      } else {
        run := CanUnlock(s, i);
      }
    }
  }

  /** A hit on the current slot counts itself and unlocks. */
  lemma CanUnlock(s: State, i: nat) returns (run: seq<Action>)
    requires Inv(s) && s.lock == HeldBy(i) && i !in s.retargets
    ensures Run(s, run).Some? && Run(s, run).value.lock.Free? && Run(s, run).value.answers == s.answers
    decreases if i !in s.incs then 0 else if s.incs[i].Read? then 1 else 2
  {
    if i !in s.incs {
      run := [Unlock(i)];
      Step1(s, Unlock(i));
    } else {
      var a := if s.incs[i].NotRead? then ReadHits(i) else WriteHits(i);
      CounterKeeps(s, a);
      var rest := CanUnlock(Next(s, a), i);
      Then(s, a, rest);
      run := [a] + rest;
    }
  }

  /** Some run from here answers a request for `hash` with its block. */
  ghost predicate CanServe(s: State, hash: Hash) {
    exists run :: Run(s, run).Some? && Served(Run(s, run).value.answers, |s.answers|, hash)
  }

  /** One of the answers from the `n`-th on is the block of `hash`. */
  predicate Served(answers: seq<Answer>, n: nat, hash: Hash) {
    exists i :: n <= i < |answers| && answers[i].asked == hash && answers[i].result == Some((hash, hash))
  }

  /** The client can serve another request, for any block, exactly when it is not deadlocked. */
  lemma ServesIff(s: State, hash: Hash)
    requires Inv(s) && hash != ZERO_HASH
    ensures CanServe(s, hash) <==> !Deadlocked(s)
  {
    if Deadlocked(s) {
      forall run | Run(s, run).Some? ensures |Run(s, run).value.answers| == |s.answers| {
        DeadlockForever(s, run);
      }
    } else {
      var run := CanRelease(s);
      var t, a := Run(s, run).value, Request(hash, Got(None));
      RunKeeps(s, run);
      RequestKeeps(t, hash, Got(None));
      Extend(s, run, t, a);
      assert AnswerOk(Next(t, a).answers[|s.answers|]);
      assert Served(Next(t, a).answers, |s.answers|, hash);
    }
  }

  /** A miss for `h` whose next hash `n` waits in the channel. */
  lemma OneMiss(s: State, h: Hash, n: Hash)
    requires s.current.Empty? && s.next.Empty? && s.lock.Free? && s.retargets == map[] && h != ZERO_HASH
    requires |s.chan| < CHAN_SIZE && |s.releases| == |s.answers|
    ensures var a, b := Request(h, Got(Some(n))), Retarget(|s.answers|);
            Enabled(s, a) && Enabled(Next(s, a), b) &&
            Next(Next(s, a), b) == s.(misses := s.misses + 1, chan := s.chan + [n],
                                      answers := s.answers + [Answer(h, Some((h, h)), false, Got(Some(n)))], releases := s.releases + [1])
  {
    var id := |s.answers|;
    var t := Next(s, Request(h, Got(Some(n))));
    assert t.retargets == map[id := Some(n)];
    assert t.retargets - {id} == map[];
    assert t.releases[id := t.releases[id] + 1] == s.releases + [1];
  }

  /** The fetcher has received one hash and waits for the lock, while misses fill the channel. */
  lemma {:induction false} FillChannel(h: Hash, n: Hash, k: nat) returns (run: seq<Action>, s: State)
    requires h != ZERO_HASH && k <= CHAN_SIZE
    ensures Run(INITIAL, run) == Some(s)
    ensures s.current.Empty? && s.next.Empty? && s.lock.Free? && s.retargets == map[] && s.fetching.Some?
    ensures |s.chan| == k && |s.releases| == |s.answers| == k + 1
  {
    if k == 0 {
      run, s := [], INITIAL;
    } else {
      run, s := FillChannel(h, n, k - 1);
    }
    var a, b := Request(h, Got(Some(n))), Retarget(|s.answers|);
    OneMiss(s, h, n);
    Extend(INITIAL, run, s, a);
    Extend(INITIAL, run + [a], Next(s, a), b);
    run, s := run + [a] + [b], Next(Next(s, a), b);
    if k == 0 {
      Extend(INITIAL, run, s, Receive);
      run, s := run + [Receive], Next(s, Receive);
    }
  }

  /** The deadlock can be reached: twelve misses while the fetcher does not get the lock. */
  lemma DeadlockReachable(h: Hash, n: Hash) returns (run: seq<Action>, s: State)
    requires h != ZERO_HASH
    ensures Run(INITIAL, run) == Some(s) && Deadlocked(s) && |s.answers| == CHAN_SIZE + 2
  {
    run, s := FillChannel(h, n, CHAN_SIZE);
    var a := Request(h, Got(Some(n)));
    Extend(INITIAL, run, s, a);
    run, s := run + [a], Next(s, a);
  }

  /** All of it over every run from the start: the invariant with its right answers, when the
      counts add up, and when the client can still serve. */
  lemma FromStart(run: seq<Action>, hash: Hash)
    requires Run(INITIAL, run).Some? && hash != ZERO_HASH
    ensures var t := Run(INITIAL, run).value;
            && Inv(t)
            && (t.hits + t.misses + |t.incs| == |t.answers| <==> UndisturbedRun(INITIAL, run))
            && (CanServe(t, hash) <==> !Deadlocked(t))
  {
    InitialOk();
    Transparent(INITIAL, run);
    CountsExactIff(INITIAL, run);
    ServesIff(Run(INITIAL, run).value, hash);
  }

  /** One miss, after which the next block has been prefetched. */
  lemma MissThenPrefetch(a: Hash, b: Hash, c: Hash) returns (run: seq<Action>, s: State)
    requires a != b && a != ZERO_HASH && b != ZERO_HASH
    ensures Run(INITIAL, run) == Some(s)
    ensures s.next == Filled(b, b, b, Some(c)) && s.current == Empty && s.lock.Free? && s.fetching.None?
    ensures s.hits == 0 && s.misses == 1 && s.incs == map[] && s.chan == [] && s.retargets == map[]
    ensures |s.answers| == 1 && |s.releases| == 1
  {
    run := [Request(a, Got(Some(b)))];
    Step1(INITIAL, run[0]);
    s := Next(INITIAL, run[0]);
    Extend(INITIAL, run, s, Retarget(0));
    run, s := run + [Retarget(0)], Next(s, Retarget(0));
    Extend(INITIAL, run, s, Receive);
    run, s := run + [Receive], Next(s, Receive);
    Extend(INITIAL, run, s, Fetch(Got(Some(c))));
    run, s := run + [Fetch(Got(Some(c)))], Next(s, Fetch(Got(Some(c))));
  }

  /** A miss, a hit on the next slot that is not counted yet, and the lock free again. */
  lemma HitUncounted(a: Hash, b: Hash, c: Hash) returns (run: seq<Action>, s: State)
    requires a != b && b != c && a != c && a != ZERO_HASH && b != ZERO_HASH && c != ZERO_HASH
    ensures Run(INITIAL, run) == Some(s)
    ensures s.current == Filled(b, b, b, Some(c)) && s.next == Filled(c, c, c, None) && s.lock.Free?
    ensures s.hits == 0 && s.misses == 1 && s.incs == map[1 := NotRead] && |s.answers| == 2
  {
    run, s := MissThenPrefetch(a, b, c);
    Extend(INITIAL, run, s, Request(b, Error));
    run, s := run + [Request(b, Error)], Next(s, Request(b, Error));
    Extend(INITIAL, run, s, Retarget(1));
    run, s := run + [Retarget(1)], Next(s, Retarget(1));
    Extend(INITIAL, run, s, Receive);
    run, s := run + [Receive], Next(s, Receive);
    Extend(INITIAL, run, s, Fetch(Got(None)));
    run, s := run + [Fetch(Got(None))], Next(s, Fetch(Got(None)));
  }

  /** In general they are not: a hit counted after its goroutine has released the lock can
      overwrite the count of a later hit. Three requests, one miss, two hits, one of them lost.
      The later hit is on the next slot. */
  lemma HitCanBeLost(a: Hash, b: Hash, c: Hash) returns (run: seq<Action>, s: State)
    requires a != b && b != c && a != c && a != ZERO_HASH && b != ZERO_HASH && c != ZERO_HASH
    ensures Run(INITIAL, run) == Some(s)
    ensures s.incs == map[] && |s.answers| == 3 && s.hits == 1 && s.misses == 1
  {
    run, s := HitUncounted(a, b, c);
    run, s := TwoTorn(run, s, c, 1, 2);
  }

  /** The same with a later hit on the current slot, which counts itself under the lock: the
      lock does not protect its increment either. */
  lemma LockedHitCanBeLost(a: Hash, b: Hash, c: Hash) returns (run: seq<Action>, s: State)
    requires a != b && b != c && a != c && a != ZERO_HASH && b != ZERO_HASH && c != ZERO_HASH
    ensures Run(INITIAL, run) == Some(s)
    ensures s.incs == map[] && |s.answers| == 3 && s.hits == 1 && s.misses == 1
  {
    run, s := HitUncounted(a, b, c);
    run, s := TwoTorn(run, s, b, 2, 1);
  }

  /** One more hit, on either slot, whose increment and the pending one are torn: `first` reads,
      `second` reads and writes, `first` writes. */
  lemma TwoTorn(run0: seq<Action>, s0: State, hash: Hash, first: nat, second: nat) returns (run: seq<Action>, s: State)
    requires Run(INITIAL, run0) == Some(s0) && s0.lock.Free? && |s0.answers| == 2 && s0.hits == 0
    requires s0.incs == map[1 := NotRead] && (hash == SlotHash(s0.current) || hash == SlotHash(s0.next))
    requires (first == 1 && second == 2) || (first == 2 && second == 1)
    ensures Run(INITIAL, run) == Some(s)
    ensures s.incs == map[] && |s.answers| == 3 && s.hits == 1 && s.misses == s0.misses
  {
    run, s := run0, s0;
    Extend(INITIAL, run, s, Request(hash, Error));
    run, s := run + [Request(hash, Error)], Next(s, Request(hash, Error));
    assert s.incs == map[1 := NotRead, 2 := NotRead];
    Extend(INITIAL, run, s, ReadHits(first));
    run, s := run + [ReadHits(first)], Next(s, ReadHits(first));
    Extend(INITIAL, run, s, ReadHits(second));
    run, s := run + [ReadHits(second)], Next(s, ReadHits(second));
    Extend(INITIAL, run, s, WriteHits(second));
    run, s := run + [WriteHits(second)], Next(s, WriteHits(second));
    assert s.incs == map[first := Read(0)];
    Extend(INITIAL, run, s, WriteHits(first));
    run, s := run + [WriteHits(first)], Next(s, WriteHits(first));
    assert s.incs == map[];
  }

  // ---- The client whose fields the steps change ----

  class BlockPrefetchClient {
    var current: Slot
    var next: Slot
    var lock: Lock
    var goroutines: map<nat, Option<Hash>>
    var retargetChan: seq<Hash>
    var fetching: Option<Hash>
    var hits: nat
    var misses: nat
    var increments: map<nat, Inc>
    var requests: nat
    ghost var counted: nat
    ghost var answers: seq<Answer>
    ghost var releases: seq<nat>

    ghost function Abs(): State
      reads this
    {
      State(current, next, lock, goroutines, retargetChan, fetching, hits, misses, increments, counted, answers, releases)
    }

    ghost predicate Valid()
      reads this
    {
      requests == |answers| && Inv(Abs())
    }

    constructor ()
      ensures Valid() && Abs() == INITIAL
    {
      current, next, lock, goroutines, retargetChan := Empty, Empty, Free, map[], [];
      fetching, hits, misses, increments, requests := None, 0, 0, map[], 0;
      counted, answers, releases := 0, [], [];
    }

    /** GetBlockData, up to the count of a hit. `reply` is the node's answer if it is asked. */
    method GetBlockData(hash: Hash, reply: Reply) returns (result: Option<(Hash, Hash)>)
      requires requests == |answers| && lock.Free?
      modifies this
      ensures requests == |answers| && Abs() == OnRequest(old(Abs()), hash, reply)
      ensures answers == old(answers) + [Answer(hash, result, old(HoldsBlock(current, hash) || HoldsBlock(next, hash)), reply)]
      ensures hash != ZERO_HASH ==>
                (result.Some? <==> old(HoldsBlock(current, hash)) || old(HoldsBlock(next, hash)) || reply.Got?)
      ensures hash != ZERO_HASH && old(HoldsBlock(current, hash)) ==> result == Some((old(current).block, old(current).header))
    {
      var id := requests;
      ghost var held := HoldsBlock(current, hash) || HoldsBlock(next, hash);
      requests := requests + 1;
      lock := HeldBy(id);
      if SlotHash(current) == hash {
        result := Serve(current);
        increments, releases := increments[id := NotRead], releases + [0];
      } else if SlotHash(next) == hash {
        result := Serve(next);
        goroutines := goroutines[id := if next.Filled? then next.next else None];
        increments, releases := increments[id := NotRead], releases + [0];
      } else {
        misses := misses + 1;
        match reply {
          case Error =>
            result := None;
            lock, releases := Free, releases + [1];
          case Got(nextHash) =>
            result := Some((hash, hash));
            goroutines, releases := goroutines[id := nextHash], releases + [0];
        }
      }
      answers := answers + [Answer(hash, result, held, reply)];
    }

    /** Transparency of one call: a nonzero hash is answered with its block and header exactly
        when a slot holds it or the node has it. */
    method Ask(hash: Hash, reply: Reply) returns (result: Option<(Hash, Hash)>)
      requires Valid() && lock.Free?
      modifies this
      ensures Valid() && Abs() == OnRequest(old(Abs()), hash, reply)
      ensures hash != ZERO_HASH ==>
                (result == Some((hash, hash)) <==>
                   || (old(current).Filled? && old(current).hash == hash)
                   || (old(next).Filled? && old(next).hash == hash)
                   || reply.Got?)
      ensures hash != ZERO_HASH ==> result == Some((hash, hash)) || result == None
    {
      ghost var after := OnRequest(Abs(), hash, reply);
      assert Inv(after) by { RequestKeeps(Abs(), hash, reply); }
      result := GetBlockData(hash, reply);
      assert AnswerOk(answers[|old(answers)|]);
    }

    /** The deferred unlock of request `id`, which has hit the current slot and counted it. */
    method UnlockOnReturn(id: nat)
      requires Enabled(Abs(), Unlock(id))
      modifies this`lock, this`releases
      ensures Abs() == OnUnlock(old(Abs()), id)
    {
      lock, releases := Free, releases[id := releases[id] + 1];
    }

    /** retarget; the channel has room when there is something to send. */
    method RetargetTo(hash: Option<Hash>)
      requires Sends(Abs(), hash) ==> |retargetChan| < CHAN_SIZE
      modifies this`retargetChan
      ensures retargetChan == if Sends(old(Abs()), hash) then old(retargetChan) + [hash.value] else old(retargetChan)
      ensures (hash.None? || (next.Filled? && next.header == hash.value) || (current.Filled? && current.header == hash.value)) <==>
                retargetChan == old(retargetChan)
    {
      if hash.None? {
        return;
      }
      if next.Filled? && hash.value == next.header {
        return;
      }
      if current.Filled? && hash.value == current.header {
        return;
      }
      retargetChan := retargetChan + [hash.value];
    }

    /** retargetAndUnlock, in the goroutine of request `id`. */
    method RetargetAndUnlock(id: nat)
      requires Enabled(Abs(), Retarget(id))
      modifies this`retargetChan, this`lock, this`goroutines, this`releases
      ensures Abs() == OnRetarget(old(Abs()), id)
    {
      RetargetTo(goroutines[id]);
      lock, goroutines := Free, goroutines - {id};
      releases := releases[id := releases[id] + 1];
    }

    /** storeNext, of the block of hash `h`. */
    method StoreNext(h: Hash, nextHash: Option<Hash>)
      modifies this`current, this`next
      ensures current == old(next) && next == Filled(h, h, h, nextHash)
    {
      current := next;
      next := Filled(h, h, h, nextHash);
    }

    /** RetrieveAndStoreNext, of the hash the fetcher has received. */
    method RetrieveAndStoreNext(reply: Reply)
      requires fetching.Some? && lock.Free?
      modifies this`fetching, this`current, this`next
      ensures Abs() == OnFetch(old(Abs()), old(fetching).value, reply)
      ensures var h := old(fetching).value;
              h != ZERO_HASH ==>
                if reply.Error? || old(HoldsBlock(current, h)) || old(HoldsBlock(next, h)) then current == old(current) && next == old(next)
                else current == old(next) && next == Filled(h, h, h, reply.next)
    {
      var h := fetching.value;
      fetching := None;
      if SlotHash(next) == h || SlotHash(current) == h || reply.Error? {
        return;
      }
      StoreNext(h, reply.next);
    }

    /** Counting a hit in two halves, and receiving a hash: steps that do not take the lock. */
    method CountOrReceive(a: Action)
      requires Enabled(Abs(), a) && (a.ReadHits? || a.WriteHits? || a.Receive?)
      modifies this`hits, this`counted, this`increments, this`fetching, this`retargetChan
      ensures Abs() == Next(old(Abs()), a)
    {
      match a {
        case ReadHits(id) => increments := increments[id := Read(hits)];
        case WriteHits(id) =>
          hits, counted, increments := increments[id].value + 1, counted + 1, increments - {id};
        case Receive => fetching, retargetChan := Some(retargetChan[0]), retargetChan[1..];
      }
    }

    method Step(a: Action)
      requires requests == |answers| && Enabled(Abs(), a)
      modifies this
      ensures requests == |answers| && Abs() == Next(old(Abs()), a)
    {
      match a {
        case Request(hash, reply) => var _ := GetBlockData(hash, reply);
        case Unlock(id) => UnlockOnReturn(id);
        case Retarget(id) => RetargetAndUnlock(id);
        case Fetch(reply) => RetrieveAndStoreNext(reply);
        case _ => CountOrReceive(a);
      }
    }

    /** Every step of the client is the step of the state machine, and keeps its invariant. */
    method Do(a: Action)
      requires Valid() && Enabled(Abs(), a)
      modifies this
      ensures Valid() && Abs() == Next(old(Abs()), a)
    {
      StepKeeps(Abs(), a);
      Step(a);
    }

    /** Every interleaving that is possible from here: the client is in the state that the run
        leads to, every answer is right, and every request has released the lock once, save
        the one that holds it. */
    method DoAll(run: seq<Action>)
      requires Valid() && Run(Abs(), run).Some?
      modifies this
      ensures Valid() && Run(old(Abs()), run) == Some(Abs())
      ensures forall i :: 0 <= i < |answers| ==> AnswerOk(answers[i])
      decreases |run|
    {
      if run != [] {
        Do(run[0]);
        DoAll(run[1..]);
      }
    }
  }
}
