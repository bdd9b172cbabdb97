/** The single worker that owns the C runtime, and the callers that trade commands for results with it. */
module Worker {
  import opened Wrappers

  /** A reply is a pointer: null when the result could not be allocated, or a C result by its number. */
  datatype Reply = Null | Data(id: nat)

  /** Where a call of Parse is; after a time-out the caller is gone and its drain goroutine waits. */
  datatype Phase = Sending | Waiting | Using(reply: Reply) | Returned | Crashed | Draining | Drained

  /** A call and its reply channel, which has room for one reply. */
  datatype Call = Call(phase: Phase, channel: Option<Reply>)
  {
    predicate Expects() {
      phase == Waiting || phase == Draining
    }

    /** The result the call must see freed: it is in the channel or in the caller's hands. */
    function Holding(): Reply {
      if channel.Some? then channel.value else if phase.Using? then phase.reply else Null
    }
  }

  datatype Machine = Idle | Parsing(call: nat) | Stopping | Stopped

  datatype Cleaner = Unasked | Asked | Cleaned

  /** Who frees a result: the call that received it, or the drain of the call that timed out. */
  datatype Freer = Caller(call: nat) | DrainOf(call: nat)

  /**
   * The calls, the worker, the one shutdown, the call each C result was made for, and what has been freed, how
   * often and by whom.
   */
  datatype State = State(calls: seq<Call>, machine: Machine, cleaner: Cleaner, made: seq<nat>, freed: multiset<nat>,
                         freer: map<nat, Freer>)

  datatype Action =
    | Send(call: nat)
    | Answer(granted: bool)
    | Receive(call: nat)
    | TimeOut(call: nat)
    | Drain(call: nat)
    | Finish(call: nat)
    | Shutdown
    | AnswerShutdown
    | ReceiveShutdown

  function Init(n: nat): State {
    State(seq(n, _ => Call(Sending, None)), Idle, Unasked, [], multiset{}, map[])
  }

  /** Whether an action can be taken; a send on the unbuffered command channel meets an idle worker. */
  predicate Enabled(s: State, a: Action) {
    match a
    case Send(c) => c < |s.calls| && s.calls[c].phase == Sending && s.machine == Idle
    case Answer(_) => s.machine.Parsing? && s.machine.call < |s.calls| && s.calls[s.machine.call].channel == None
    case Receive(c) => c < |s.calls| && s.calls[c].phase == Waiting && s.calls[c].channel.Some?
    case TimeOut(c) => c < |s.calls| && s.calls[c].phase == Waiting
    case Drain(c) => c < |s.calls| && s.calls[c].phase == Draining && s.calls[c].channel.Some?
    case Finish(c) => c < |s.calls| && s.calls[c].phase.Using?
    case Shutdown => s.cleaner == Unasked && s.machine == Idle
    case AnswerShutdown => s.machine == Stopping
    case ReceiveShutdown => s.cleaner == Asked && s.machine == Stopped
  }

  /** spicy_free_parsed_data, which does nothing to null. */
  function Free(s: State, reply: Reply, who: Freer): State {
    if reply == Null then s else s.(freed := s.freed + multiset{reply.id}, freer := s.freer[reply.id := who])
  }

  function Update(s: State, c: nat, phase: Phase, channel: Option<Reply>): State
    requires c < |s.calls|
  {
    s.(calls := s.calls[c := Call(phase, channel)])
  }

  /** Reading a null result crashes the call; the deferred free of null does nothing. */
  function Take(s: State, a: Action): State
    requires Enabled(s, a)
  {
    match a
    case Send(c) => Update(s, c, Waiting, s.calls[c].channel).(machine := Parsing(c))
    case Answer(granted) =>
      var c := s.machine.call;
      var reply := if granted then Data(|s.made|) else Null;
      Update(s, c, s.calls[c].phase, Some(reply)).(machine := Idle, made := if granted then s.made + [c] else s.made)
    case Receive(c) => Update(s, c, Using(s.calls[c].channel.value), None)
    case TimeOut(c) => Update(s, c, Draining, s.calls[c].channel)
    case Drain(c) => Free(Update(s, c, Drained, None), s.calls[c].channel.value, DrainOf(c))
    case Finish(c) =>
      var reply := s.calls[c].phase.reply;
      Free(Update(s, c, if reply == Null then Crashed else Returned, s.calls[c].channel), reply, Caller(c))
    case Shutdown => s.(cleaner := Asked, machine := Stopping)
    case AnswerShutdown => s.(machine := Stopped)
    case ReceiveShutdown => s.(cleaner := Cleaned)
  }

  /** The actions can be taken one after the other, and lead from s to t. */
  predicate Runs(s: State, actions: seq<Action>, t: State)
    decreases |actions|
  {
    if actions == [] then s == t
    else Enabled(s, actions[0]) && Runs(Take(s, actions[0]), actions[1..], t)
  }

  // ---------- What every action keeps ----------

  /** The result is in the reply channel of the call it was made for, or in that call's hands. */
  predicate Held(s: State, id: nat)
    requires id < |s.made| && s.made[id] < |s.calls|
  {
    s.calls[s.made[id]].Holding() == Data(id)
  }

  /** The worker's call waits for its answer with an empty channel, and no result has been made for it. */
  predicate Answerable(s: State) {
    s.machine.Parsing? ==>
      && s.machine.call < |s.calls| && s.machine.call !in s.made
      && s.calls[s.machine.call].channel == None && s.calls[s.machine.call].Expects()
  }

  predicate CallsInOrder(s: State) {
    forall c :: 0 <= c < |s.calls| ==>
      && (s.calls[c].phase == Sending ==> s.machine != Parsing(c) && c !in s.made)
      && (s.calls[c].channel.Some? ==> s.calls[c].Expects())
      && (s.calls[c].Expects() ==> s.calls[c].channel.Some? || s.machine == Parsing(c))
  }

  /** A result that a call or its channel holds was made for that call. */
  predicate Owned(s: State) {
    forall c :: 0 <= c < |s.calls| && s.calls[c].Holding().Data? ==>
      s.calls[c].Holding().id < |s.made| && s.made[s.calls[c].Holding().id] == c
  }

  predicate MadeOnce(s: State) {
    && (forall i :: 0 <= i < |s.made| ==> s.made[i] < |s.calls|)
    && (forall i, j :: 0 <= i < j < |s.made| ==> s.made[i] != s.made[j])
  }

  /** Every result is held and not freed, or freed once and not held. */
  predicate Accounted(s: State)
    requires MadeOnce(s)
  {
    && (forall id: nat :: id < |s.made| ==> s.freed[id] == if Held(s, id) then 0 else 1)
    && (forall id: nat :: id in s.freed ==> id < |s.made| && id in s.freer)
    && (forall id: nat :: id in s.freer ==> id < |s.made| && s.freer[id] in {Caller(s.made[id]), DrainOf(s.made[id])})
  }

  predicate Shut(s: State) {
    && (s.cleaner == Unasked <==> !s.machine.Stopping? && !s.machine.Stopped?)
    && (s.cleaner == Cleaned ==> s.machine == Stopped)
  }

  predicate Inv(s: State) {
    Answerable(s) && CallsInOrder(s) && MadeOnce(s) && Owned(s) && Accounted(s) && Shut(s)
  }

  lemma InitHolds(n: nat)
    ensures Inv(Init(n))
  {
  }

  lemma TakeKeepsAnswerable(s: State, a: Action)
    requires Enabled(s, a) && Answerable(s) && CallsInOrder(s) && Shut(s)
    ensures Answerable(Take(s, a)) && Shut(Take(s, a))
  {
  }

  lemma TakeKeepsOrder(s: State, a: Action)
    requires Enabled(s, a) && Answerable(s) && CallsInOrder(s)
    ensures CallsInOrder(Take(s, a))
  {
  }

  lemma TakeKeepsMadeOnce(s: State, a: Action)
    requires Enabled(s, a) && Answerable(s) && MadeOnce(s)
    ensures MadeOnce(Take(s, a))
  {
  }

  lemma TakeKeepsOwned(s: State, a: Action)
    requires Enabled(s, a) && Answerable(s) && CallsInOrder(s) && Owned(s)
    ensures Owned(Take(s, a))
  {
  }

  /** The reply an action frees, and who frees it. */
  function Releases(s: State, a: Action): (Reply, Freer)
    requires Enabled(s, a)
  {
    match a
    case Drain(c) => (s.calls[c].channel.value, DrainOf(c))
    case Finish(c) => (s.calls[c].phase.reply, Caller(c))
    case _ => (Null, Caller(0))
  }

  lemma BooksAfter(s: State, a: Action)
    requires Enabled(s, a)
    ensures Take(s, a).freed == Free(s, Releases(s, a).0, Releases(s, a).1).freed
    ensures Take(s, a).freer == Free(s, Releases(s, a).0, Releases(s, a).1).freer
    ensures Take(s, a).made == s.made + if a.Answer? && a.granted then [s.machine.call] else []
  {
  }

  /** A result goes from its call's channel to its call's hands, until one of the two frees it. */
  lemma HoldingAfter(s: State, a: Action, c: nat)
    requires Enabled(s, a) && Answerable(s) && CallsInOrder(s) && c < |s.calls|
    ensures |Take(s, a).calls| == |s.calls|
    ensures var mine := Releases(s, a).0.Data? && Releases(s, a).1 in {Caller(c), DrainOf(c)};
            if mine then s.calls[c].Holding() == Releases(s, a).0 && Take(s, a).calls[c].Holding() == Null
            else if a == Answer(true) && c == s.machine.call then Take(s, a).calls[c].Holding() == Data(|s.made|)
            else Take(s, a).calls[c].Holding() == s.calls[c].Holding()
  {
  }

  lemma AccountAfter(s: State, a: Action, id: nat)
    requires Inv(s) && Enabled(s, a) && MadeOnce(Take(s, a)) && id < |Take(s, a).made|
    ensures Take(s, a).freed[id] == if Held(Take(s, a), id) then 0 else 1
  {
    BooksAfter(s, a);
    HoldingAfter(s, a, Take(s, a).made[id]);
    var reply := Releases(s, a).0;
    if id < |s.made| {
      assert Take(s, a).made[id] == s.made[id];
      assert Take(s, a).freed[id] == s.freed[id] + if reply == Data(id) then 1 else 0;
    } else {
      assert s.freed[id] == 0 && reply != Data(id);
    }
  }

  lemma TakeKeepsAccounts(s: State, a: Action)
    requires Inv(s) && Enabled(s, a) && MadeOnce(Take(s, a))
    ensures Accounted(Take(s, a))
  {
    forall id: nat | id < |Take(s, a).made| { AccountAfter(s, a, id); }
    BooksAfter(s, a);
    var (reply, who) := Releases(s, a);
    if reply.Data? { assert reply.id < |s.made| && who in {Caller(s.made[reply.id]), DrainOf(s.made[reply.id])}; }
  }

  lemma TakeHolds(s: State, a: Action)
    requires Inv(s) && Enabled(s, a)
    ensures Inv(Take(s, a))
  {
    TakeKeepsAnswerable(s, a);
    TakeKeepsOrder(s, a);
    TakeKeepsMadeOnce(s, a);
    TakeKeepsOwned(s, a);
    TakeKeepsAccounts(s, a);
  }

  /** A call that has or had a result was given one, and a call told of a failed allocation was given none. */
  predicate ToldCall(call: Call, given: bool, parsing: bool) {
    && (call.phase == Returned || call.Holding().Data? ==> given)
    && (call.phase in {Crashed, Using(Null)} || call.channel == Some(Null) ==> !given && !parsing)
  }

  predicate Told(s: State) {
    forall c :: 0 <= c < |s.calls| ==> ToldCall(s.calls[c], c in s.made, s.machine == Parsing(c))
  }

  lemma TakeKeepsToldCall(s: State, a: Action, c: nat)
    requires Answerable(s) && CallsInOrder(s) && Enabled(s, a) && c < |s.calls|
    requires ToldCall(s.calls[c], c in s.made, s.machine == Parsing(c))
    ensures |Take(s, a).calls| == |s.calls|
      && ToldCall(Take(s, a).calls[c], c in Take(s, a).made, Take(s, a).machine == Parsing(c))
  {
  }

  lemma TakeKeepsTold(s: State, a: Action)
    requires Inv(s) && Enabled(s, a) && Told(s)
    ensures Told(Take(s, a))
  {
    forall c: nat | c < |s.calls| { TakeKeepsToldCall(s, a, c); }
    assert |Take(s, a).calls| == |s.calls|;
  }

  lemma {:induction false} RunHolds(s: State, actions: seq<Action>, t: State)
    requires Inv(s) && Told(s) && Runs(s, actions, t)
    ensures Inv(t) && Told(t)
    decreases |actions|
  {
    if actions != [] {
      TakeHolds(s, actions[0]);
      TakeKeepsTold(s, actions[0]);
      RunHolds(Take(s, actions[0]), actions[1..], t);
    }
  }

  // ---------- What holds of every run ----------

  /** t is where some run of n calls has got to. */
  ghost predicate Reached(n: nat, t: State) {
    exists actions :: Runs(Init(n), actions, t)
  }

  lemma ReachedHolds(n: nat, t: State)
    requires Reached(n, t)
    ensures Inv(t) && Told(t)
  {
    var actions :| Runs(Init(n), actions, t);
    InitHolds(n);
    RunHolds(Init(n), actions, t);
  }

  /**
   * No result is freed twice, nor one that was never made. A result that has been freed was freed by the call it
   * was made for, or by that call's drain; until then that call has it or will receive it, and no other call does.
   */
  lemma FreedAtMostOnce(n: nat, t: State, id: nat)
    requires Reached(n, t)
    ensures t.freed[id] <= 1 && (id >= |t.made| ==> t.freed[id] == 0)
    ensures t.freed[id] == 1 ==> id in t.freer && t.freer[id] in {Caller(t.made[id]), DrainOf(t.made[id])}
    ensures forall c :: 0 <= c < |t.calls| && t.calls[c].Holding() == Data(id) ==> id < |t.made| && t.made[id] == c
    ensures id < |t.made| ==> (t.freed[id] == 0 <==> exists c :: 0 <= c < |t.calls| && t.calls[c].Holding() == Data(id))
  {
    ReachedHolds(n, t);
    if id < |t.made| && Held(t, id) { assert t.calls[t.made[id]].Holding() == Data(id); }
  }

  /** The channel that the worker will send on has room, whatever callers have given up. */
  lemma WorkerNeverBlocks(n: nat, t: State, granted: bool)
    requires Reached(n, t) && t.machine.Parsing?
    ensures Enabled(t, Answer(granted))
  {
    ReachedHolds(n, t);
  }

  /** Nothing more will happen without a time-out or the shutdown. */
  ghost predicate Quiescent(s: State) {
    forall a :: Enabled(s, a) ==> a.TimeOut? || a.Shutdown?
  }

  /**
   * When nothing more happens, every result has been freed exactly once, and a call has returned, crashed on a
   * result that could not be allocated, timed out and been drained, or was never taken by the stopped worker.
   */
  lemma FreedExactlyOnce(n: nat, t: State)
    requires Reached(n, t) && Quiescent(t)
    ensures forall id: nat :: t.freed[id] == if id < |t.made| then 1 else 0
    ensures forall c :: 0 <= c < |t.calls| ==>
      t.calls[c].phase in {Returned, Crashed, Drained} || (t.calls[c].phase == Sending && t.machine == Stopped)
    ensures forall c :: 0 <= c < |t.calls| && t.calls[c].phase in {Returned, Crashed} ==>
      (t.calls[c].phase == Crashed <==> c !in t.made)
  {
    ReachedHolds(n, t);
    assert !Enabled(t, AnswerShutdown) && !Enabled(t, Answer(true));
    forall c: nat | c < |t.calls|
      ensures t.calls[c].phase in {Returned, Crashed, Drained} || (t.calls[c].phase == Sending && t.machine == Stopped)
      ensures t.calls[c].Holding() == Null
    {
      assert !Enabled(t, Send(c)) && !Enabled(t, Receive(c)) && !Enabled(t, Drain(c)) && !Enabled(t, Finish(c));
    }
    forall id: nat ensures t.freed[id] == if id < |t.made| then 1 else 0 { FreedAtMostOnce(n, t, id); }
  }

  // ---------- Runs end ----------

  function PhaseRank(phase: Phase): nat {
    match phase
    case Sending => 5
    case Waiting => 3
    case Draining => 2
    case Using(_) => 1
    case _ => 0
  }

  function CallsRank(calls: seq<Call>): nat {
    if calls == [] then 0 else PhaseRank(calls[0].phase) + CallsRank(calls[1..])
  }

  function Rank(s: State): nat {
    CallsRank(s.calls) + (if s.machine.Parsing? || s.machine == Stopping then 1 else 0)
      + (match s.cleaner case Unasked => 3 case Asked => 1 case Cleaned => 0)
  }

  lemma {:induction false} RankAfter(calls: seq<Call>, c: nat, call: Call)
    requires c < |calls|
    ensures CallsRank(calls[c := call]) == CallsRank(calls) - PhaseRank(calls[c].phase) + PhaseRank(call.phase)
  {
    if c > 0 {
      RankAfter(calls[1..], c - 1, call);
      assert calls[c := call][1..] == calls[1..][c - 1 := call];
    } else {
      assert calls[c := call][1..] == calls[1..];
    }
  }

  lemma TakeLowersRank(s: State, a: Action)
    requires Enabled(s, a)
    ensures Rank(Take(s, a)) < Rank(s)
  {
    if !a.Shutdown? && !a.AnswerShutdown? && !a.ReceiveShutdown? {
      var c := if a.Answer? then s.machine.call else a.call;
      assert Take(s, a).calls == s.calls[c := Take(s, a).calls[c]];
      RankAfter(s.calls, c, Take(s, a).calls[c]);
    }
  }

  lemma {:induction false} InitRank(calls: seq<Call>)
    requires forall call :: call in calls ==> call.phase == Sending
    ensures CallsRank(calls) == 5 * |calls|
  {
    if calls != [] { InitRank(calls[1..]); }
  }

  lemma {:induction false} RunLowersRank(s: State, actions: seq<Action>, t: State)
    requires Runs(s, actions, t)
    ensures |actions| + Rank(t) <= Rank(s)
    decreases |actions|
  {
    if actions != [] {
      TakeLowersRank(s, actions[0]);
      RunLowersRank(Take(s, actions[0]), actions[1..], t);
    }
  }

  /** However the actions interleave, n calls and a shutdown are over in five actions a call and three more. */
  lemma RunsEnd(n: nat, actions: seq<Action>, t: State)
    requires Runs(Init(n), actions, t)
    ensures |actions| <= 5 * n + 3
  {
    InitRank(Init(n).calls);
    RunLowersRank(Init(n), actions, t);
  }

  // ---------- Runs that happen ----------

  lemma {:induction false} RunMore(s: State, actions: seq<Action>, t: State, a: Action)
    requires Runs(s, actions, t) && Enabled(t, a)
    ensures Runs(s, actions + [a], Take(t, a))
    decreases |actions|
  {
    if actions == [] {
      assert [a][1..] == [] && Runs(Take(t, a), [], Take(t, a));
    } else {
      assert (actions + [a])[1..] == actions[1..] + [a];
      RunMore(Take(s, actions[0]), actions[1..], t, a);
    }
  }

  lemma ReachMore(n: nat, t: State, a: Action)
    requires Reached(n, t) && Enabled(t, a)
    ensures Reached(n, Take(t, a))
  {
    var actions :| Runs(Init(n), actions, t);
    RunMore(Init(n), actions, t, a);
  }

  lemma StartIsReached(n: nat)
    ensures Reached(n, Init(n))
  {
    assert Runs(Init(n), [], Init(n));
  }

  /** A result that cannot be allocated crashes the call that receives it. */
  lemma NullCrashes() returns (t: State)
    ensures Reached(1, t) && |t.calls| == 1 && t.calls[0].phase == Crashed
  {
    t := Init(1);
    StartIsReached(1);
    ReachMore(1, t, Send(0));
    t := Take(t, Send(0));
    ReachMore(1, t, Answer(false));
    t := Take(t, Answer(false));
    ReachMore(1, t, Receive(0));
    t := Take(t, Receive(0));
    ReachMore(1, t, Finish(0));
    t := Take(t, Finish(0));
  }

  /** A call that times out leaves its answer to its drain. */
  lemma TimeOutDrains() returns (t: State)
    ensures Reached(2, t)
    ensures t.calls == [Call(Drained, None), Call(Sending, None)] && t.machine == Idle && t.cleaner == Unasked
    ensures t.made == [0] && t.freed == multiset{0} && t.freer == map[0 := DrainOf(0)]
  {
    t := Init(2);
    StartIsReached(2);
    ReachMore(2, t, Send(0));
    t := Take(t, Send(0));
    ReachMore(2, t, TimeOut(0));
    t := Take(t, TimeOut(0));
    ReachMore(2, t, Answer(true));
    t := Take(t, Answer(true));
    ReachMore(2, t, Drain(0));
    t := Take(t, Drain(0));
  }

  /** The next call gets and frees its own. */
  lemma NextReturns() returns (t: State)
    ensures Reached(2, t) && |t.calls| == 2 && t.calls[0].phase == Drained && t.calls[1].phase == Returned
    ensures t.made == [0, 1] && t.freed == multiset{0, 1} && t.freer == map[0 := DrainOf(0), 1 := Caller(1)]
  {
    t := TimeOutDrains();
    ReachMore(2, t, Send(1));
    t := Take(t, Send(1));
    ReachMore(2, t, Answer(true));
    t := Take(t, Answer(true));
    ReachMore(2, t, Receive(1));
    t := Take(t, Receive(1));
    ReachMore(2, t, Finish(1));
    t := Take(t, Finish(1));
  }

  /** Or the shutdown ends the worker, and the call can never be sent. */
  lemma ShutdownStops() returns (t: State)
    ensures Reached(2, t) && |t.calls| == 2 && t.calls[1].phase == Sending && !Enabled(t, Send(1))
    ensures t.freed == multiset{0} && t.machine == Stopped && t.cleaner == Cleaned
  {
    t := TimeOutDrains();
    ReachMore(2, t, Shutdown);
    t := Take(t, Shutdown);
    ReachMore(2, t, AnswerShutdown);
    t := Take(t, AnswerShutdown);
    ReachMore(2, t, ReceiveShutdown);
    t := Take(t, ReceiveShutdown);
  }
}
