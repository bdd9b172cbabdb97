/** Both directions of the proxy at once: two pipes over the same two sockets, and the channel they report on. */
module Duplex {
  import opened Wrappers
  import opened Pipes

  /** The upward pipe reads the client and writes the target; the downward one the other way round. */
  datatype World = World(client: Socket, target: Socket, up: Pipe, down: Pipe, done: seq<Result>)

  datatype Label = Label(up: bool, action: Action)

  /** The sockets as a pipe sees them. */
  function Side(w: World, up: bool): State {
    if up then State(w.client, w.target, w.up) else State(w.target, w.client, w.down)
  }

  predicate Can(w: World, l: Label) { Enabled(Side(w, l.up), l.action) }

  function Step(w: World, l: Label): World
    requires Can(w, l)
  {
    var s := Take(Side(w, l.up), l.action);
    var done := if l.action.Report? then w.done + [s.pipe.phase.result] else w.done;
    if l.up then World(s.src, s.dst, s.pipe, w.down, done) else World(s.dst, s.src, w.up, s.pipe, done)
  }

  predicate Interleaves(w: World, ls: seq<Label>)
    decreases |ls|
  {
    ls == [] || (Can(w, ls[0]) && Interleaves(Step(w, ls[0]), ls[1..]))
  }

  function After(w: World, ls: seq<Label>): World
    requires Interleaves(w, ls)
    decreases |ls|
  {
    if ls == [] then w else After(Step(w, ls[0]), ls[1..])
  }

  /** The steps of one pipe, in order. */
  function Only(up: bool, ls: seq<Label>): seq<Label> {
    if ls == [] then [] else (if ls[0].up == up then [ls[0]] else []) + Only(up, ls[1..])
  }

  /** The same sockets and pipes, and the same reports in some order. */
  predicate Alike(v: World, w: World) {
    && v.client == w.client && v.target == w.target && v.up == w.up && v.down == w.down
    && multiset(v.done) == multiset(w.done)
  }

  // ---------- Steps of the two pipes commute ----------

  lemma StepsCommute(w: World, d: Label, u: Label)
    requires !d.up && u.up && Can(w, d) && Can(Step(w, d), u)
    ensures Can(w, u) && Can(Step(w, u), d)
    ensures Alike(Step(Step(w, d), u), Step(Step(w, u), d))
  {
  }

  lemma AlikeSteps(v: World, w: World, l: Label)
    requires Alike(v, w) && Can(v, l)
    ensures Can(w, l) && Alike(Step(v, l), Step(w, l))
  {
  }

  lemma {:induction false} AlikeRuns(v: World, w: World, ls: seq<Label>)
    requires Alike(v, w) && Interleaves(v, ls)
    ensures Interleaves(w, ls) && Alike(After(v, ls), After(w, ls))
    decreases |ls|
  {
    if ls != [] {
      AlikeSteps(v, w, ls[0]);
      AlikeRuns(Step(v, ls[0]), Step(w, ls[0]), ls[1..]);
    }
  }

  lemma StepThenRun(w: World, l: Label, ls: seq<Label>)
    ensures Interleaves(w, [l] + ls) <==> Can(w, l) && Interleaves(Step(w, l), ls)
    ensures Interleaves(w, [l] + ls) ==> After(w, [l] + ls) == After(Step(w, l), ls)
  {
    assert ([l] + ls)[1..] == ls;
  }

  lemma SwapFirst(w: World, d: Label, u: Label, rest: seq<Label>)
    requires !d.up && u.up && Can(w, d) && Interleaves(Step(w, d), [u] + rest)
    ensures Can(w, u) && Can(Step(w, u), d) && Interleaves(Step(Step(w, u), d), rest)
    ensures Alike(After(Step(w, d), [u] + rest), After(Step(Step(w, u), d), rest))
  {
    StepThenRun(Step(w, d), u, rest);
    StepsCommute(w, d, u);
    AlikeRuns(Step(Step(w, d), u), Step(Step(w, u), d), rest);
  }

  lemma NilAppend(ls: seq<Label>)
    ensures [] + ls == ls
  {
  }

  lemma ConsAppend(us: seq<Label>, ls: seq<Label>)
    requires us != []
    ensures us + ls == [us[0]] + (us[1..] + ls)
  {
  }

  /** A downward step can be put off until a run of upward ones is over. */
  lemma {:induction false} PutOff(w: World, d: Label, us: seq<Label>, rest: seq<Label>)
    requires !d.up && Can(w, d) && (forall u :: u in us ==> u.up) && Interleaves(Step(w, d), us + rest)
    ensures Interleaves(w, us + ([d] + rest))
    ensures Alike(After(Step(w, d), us + rest), After(w, us + ([d] + rest)))
    decreases |us|
  {
    if us == [] {
      NilAppend(rest);
      NilAppend([d] + rest);
      StepThenRun(w, d, rest);
    } else {
      var u, more := us[0], us[1..];
      ConsAppend(us, rest);
      ConsAppend(us, [d] + rest);
      SwapFirst(w, d, u, more + rest);
      PutOff(Step(w, u), d, more, rest);
      StepThenRun(w, u, more + ([d] + rest));
    }
  }

  function Sorted(ls: seq<Label>): seq<Label> { Only(true, ls) + Only(false, ls) }

  lemma SortedCons(l: Label, ls: seq<Label>)
    ensures l.up ==> Sorted([l] + ls) == [l] + Sorted(ls)
    ensures !l.up ==> Sorted([l] + ls) == Only(true, ls) + ([l] + Only(false, ls))
  {
    assert ([l] + ls)[1..] == ls;
    assert l.up ==> Only(false, [l] + ls) == Only(false, ls);
    assert !l.up ==> Only(true, [l] + ls) == Only(true, ls);
  }

  /**
   * However the two directions interleave, running first the one and then the other, with the same reads, writes
   * and errors, is possible and leaves the same sockets, the same bytes delivered and the same reports.
   */
  lemma {:induction false} OneAfterTheOther(w: World, ls: seq<Label>)
    requires Interleaves(w, ls)
    ensures Interleaves(w, Only(true, ls) + Only(false, ls))
    ensures Alike(After(w, ls), After(w, Only(true, ls) + Only(false, ls)))
    decreases |ls|
  {
    if ls == [] {
      assert Only(true, ls) + Only(false, ls) == [];
    } else {
      var l, rest := ls[0], ls[1..];
      assert ls == [l] + rest;
      OneAfterTheOther(Step(w, l), rest);
      SortedCons(l, rest);
      if l.up {
        StepThenRun(w, l, Sorted(rest));
      } else {
        OnlyThose(true, rest);
        PutOff(w, l, Only(true, rest), Only(false, rest));
      }
    }
  }

  /** However the two goroutines are scheduled, if each does the same the outcome is the same. */
  lemma AnySchedule(w: World, ls: seq<Label>, ms: seq<Label>)
    requires Interleaves(w, ls) && Interleaves(w, ms)
    requires Only(true, ls) == Only(true, ms) && Only(false, ls) == Only(false, ms)
    ensures Alike(After(w, ls), After(w, ms))
  {
    OneAfterTheOther(w, ls);
    OneAfterTheOther(w, ms);
  }

  lemma {:induction false} OnlyThose(up: bool, ls: seq<Label>)
    ensures forall l :: l in Only(up, ls) ==> l.up == up
  {
    if ls != [] { OnlyThose(up, ls[1..]); }
  }

  // ---------- What holds of every interleaving ----------

  function Reported(p: Pipe): multiset<Pipes.Result> {
    if p.phase.Done? then multiset{p.phase.result} else multiset{}
  }

  /** Both directions are sound, whatever the other does to the sockets, and each has reported once when done. */
  predicate Sound(w: World) {
    Inv(Side(w, true)) && Inv(Side(w, false)) && multiset(w.done) == Reported(w.up) + Reported(w.down)
  }

  /** A step of one pipe leaves the halves of the sockets that the other uses. */
  lemma OtherUntouched(w: World, l: Label)
    requires Can(w, l)
    ensures var s, t := Side(w, !l.up), Side(Step(w, l), !l.up);
      && t.src.incoming == s.src.incoming && t.src.pos == s.src.pos && t.src.readShut == s.src.readShut
      && t.dst.outgoing == s.dst.outgoing && t.dst.writeShut == s.dst.writeShut && t.pipe == s.pipe
  {
  }

  lemma StepKeepsSound(w: World, l: Label)
    requires Sound(w) && Can(w, l)
    ensures Sound(Step(w, l))
    ensures Step(w, l).client.incoming == w.client.incoming && Step(w, l).target.incoming == w.target.incoming
  {
    TakeKeepsInv(Side(w, l.up), l.action);
    OtherUntouched(w, l);
    assert Side(Step(w, l), l.up) == Take(Side(w, l.up), l.action);
    StepReports(w, l);
  }

  lemma TakeReports(s: State, a: Action)
    requires Enabled(s, a)
    ensures Reported(s.pipe) == multiset{}
    ensures Reported(Take(s, a).pipe) == if a.Report? then multiset{Take(s, a).pipe.phase.result} else multiset{}
  {
  }

  lemma StepReports(w: World, l: Label)
    requires Can(w, l) && multiset(w.done) == Reported(w.up) + Reported(w.down)
    ensures multiset(Step(w, l).done) == Reported(Step(w, l).up) + Reported(Step(w, l).down)
  {
    TakeReports(Side(w, l.up), l.action);
    OtherUntouched(w, l);
    assert Side(Step(w, l), l.up) == Take(Side(w, l.up), l.action);
  }

  lemma {:induction false} RunKeepsSound(w: World, ls: seq<Label>)
    requires Sound(w) && Interleaves(w, ls)
    ensures Sound(After(w, ls))
    ensures After(w, ls).client.incoming == w.client.incoming && After(w, ls).target.incoming == w.target.incoming
    decreases |ls|
  {
    if ls != [] {
      StepKeepsSound(w, ls[0]);
      RunKeepsSound(Step(w, ls[0]), ls[1..]);
    }
  }

  /** A proxied connection about to start. */
  predicate Fresh(w: World) {
    Starts(Side(w, true)) && Starts(Side(w, false)) && w.done == []
  }

  /**
   * At every point of every interleaving each side has been sent a prefix of what the other sent; once both pipes
   * are done the channel has exactly their two reports, and a report without error is of a whole stream.
   */
  lemma BothDirections(w: World, ls: seq<Label>)
    requires Fresh(w) && Interleaves(w, ls)
    ensures var v := After(w, ls);
      && v.target.outgoing <= w.client.incoming && v.client.outgoing <= w.target.incoming
      && (v.up.phase.Done? && v.down.phase.Done? ==>
        multiset(v.done) == multiset{v.up.phase.result, v.down.phase.result})
      && (v.up.phase.Done? && v.up.phase.result.err == None ==> v.target.outgoing == w.client.incoming)
      && (v.down.phase.Done? && v.down.phase.result.err == None ==> v.client.outgoing == w.target.incoming)
  {
    FreshIsSound(w);
    RunKeepsSound(w, ls);
    SoundMeans(After(w, ls));
  }

  lemma FreshIsSound(w: World)
    requires Fresh(w)
    ensures Sound(w)
  {
  }

  lemma SoundMeans(w: World)
    requires Sound(w)
    ensures w.target.outgoing <= w.client.incoming && w.client.outgoing <= w.target.incoming
    ensures w.up.phase.Done? && w.down.phase.Done? ==>
      multiset(w.done) == multiset{w.up.phase.result, w.down.phase.result}
    ensures w.up.phase.Done? && w.up.phase.result.err == None ==> w.target.outgoing == w.client.incoming
    ensures w.down.phase.Done? && w.down.phase.result.err == None ==> w.client.outgoing == w.target.incoming
  {
    FlowMeans(w, true);
    FlowMeans(w, false);
  }

  lemma FlowMeans(w: World, up: bool)
    requires Inv(Side(w, up))
    ensures Side(w, up).dst.outgoing <= Side(w, up).src.incoming
    ensures Side(w, up).pipe.phase.Done? && Side(w, up).pipe.phase.result.err == None ==>
      Side(w, up).dst.outgoing == Side(w, up).src.incoming
  {
  }

  lemma {:induction false} InterleavingLowersRank(w: World, ls: seq<Label>)
    requires Interleaves(w, ls)
    ensures |ls| <= Rank(Side(w, true)) + Rank(Side(w, false))
    decreases |ls|
  {
    if ls != [] {
      var l := ls[0];
      StepLowersRank(w, l);
      InterleavingLowersRank(Step(w, l), ls[1..]);
    }
  }

  lemma StepLowersRank(w: World, l: Label)
    requires Can(w, l)
    ensures Rank(Side(Step(w, l), l.up)) < Rank(Side(w, l.up)) && Rank(Side(Step(w, l), !l.up)) == Rank(Side(w, !l.up))
  {
    OtherUntouched(w, l);
    assert Side(Step(w, l), l.up) == Take(Side(w, l.up), l.action);
    var s := Side(w, l.up);
    assert Rank(Take(s, l.action)) < Rank(s);
  }

  /** Waiting for both directions ends: at most two steps for each byte the two peers send, and ten more. */
  lemma BothEnd(w: World, ls: seq<Label>)
    requires Fresh(w) && Interleaves(w, ls)
    ensures |ls| <= 2 * (|w.client.incoming| + |w.target.incoming|) + 10
    ensures (forall l :: !Can(After(w, ls), l)) ==> After(w, ls).up.phase.Done? && After(w, ls).down.phase.Done?
  {
    InterleavingLowersRank(w, ls);
    RunKeepsSound(w, ls);
    var v := After(w, ls);
    NextIsPossible(Side(v, true));
    NextIsPossible(Side(v, false));
    assert Can(v, Label(true, NextAction(Side(v, true)))) == Enabled(Side(v, true), NextAction(Side(v, true)));
    assert Can(v, Label(false, NextAction(Side(v, false)))) == Enabled(Side(v, false), NextAction(Side(v, false)));
  }

  // ---------- Each direction by itself ----------

  function Actions(ls: seq<Label>): seq<Action> {
    if ls == [] then [] else [ls[0].action] + Actions(ls[1..])
  }

  /** The same pipe on the same halves of its two sockets, whatever the other halves are. */
  predicate SameHalves(s: State, t: State) {
    && s.pipe == t.pipe && s.src.incoming == t.src.incoming && s.src.pos == t.src.pos
    && s.src.readShut == t.src.readShut && s.dst.outgoing == t.dst.outgoing && s.dst.writeShut == t.dst.writeShut
  }

  lemma TakeSameHalves(s: State, t: State, a: Action)
    requires SameHalves(s, t) && Enabled(t, a)
    ensures Enabled(s, a) && SameHalves(Take(s, a), Take(t, a))
  {
  }

  /** The steps of one pipe in an interleaving are a run of it alone, to the same halves. */
  lemma {:induction false} RunsAlone(w: World, ls: seq<Label>, up: bool, s: State)
    requires Interleaves(w, ls) && SameHalves(s, Side(w, up))
    ensures CanRun(s, Actions(Only(up, ls)))
    ensures SameHalves(Run(s, Actions(Only(up, ls))), Side(After(w, ls), up))
    decreases |ls|
  {
    if ls != [] {
      var l, rest := ls[0], ls[1..];
      var v := Step(w, l);
      if l.up == up {
        TakeSameHalves(s, Side(w, up), l.action);
        assert Side(v, up) == Take(Side(w, up), l.action);
        RunsAlone(v, rest, up, Take(s, l.action));
        OnlyFirst(up, ls);
      } else {
        OtherUntouched(w, l);
        RunsAlone(v, rest, up, s);
        assert Only(up, ls) == Only(up, rest);
      }
    }
  }

  lemma OnlyFirst(up: bool, ls: seq<Label>)
    requires ls != [] && ls[0].up == up
    ensures var actions := Actions(Only(up, ls));
      actions != [] && actions[0] == ls[0].action && actions[1..] == Actions(Only(up, ls[1..]))
  {
    var only := Only(up, ls);
    assert only == [ls[0]] + Only(up, ls[1..]);
    assert only[1..] == Only(up, ls[1..]);
  }

  /** What is counted, sampled and made an event of, at every point of one direction. */
  predicate Captured(s: State) {
    && s.pipe.written <= |s.dst.outgoing|
    && if s.pipe.session.producer && s.pipe.session.payloadSize > 0 then
         var limit := s.pipe.session.payloadSize;
         && s.pipe.payload == s.dst.outgoing[..if s.pipe.written <= limit then s.pipe.written else limit]
         && (EventOf(s.pipe).Some? <==> s.pipe.written > 0)
         && (EventOf(s.pipe).Some? ==> EventOf(s.pipe).value.payload == s.pipe.payload)
         && (EventOf(s.pipe).Some? ==> EventOf(s.pipe).value.dir == s.pipe.dir)
         && (EventOf(s.pipe).Some? ==> (EventOf(s.pipe).value.truncated <==> s.pipe.written > limit))
       else s.pipe.payload == [] && EventOf(s.pipe) == None
  }

  lemma RunIsCaptured(s: State, actions: seq<Action>)
    requires Starts(s) && CanRun(s, actions)
    ensures Captured(Run(s, actions))
  {
    RunKeepsInv(s, actions);
    SourceStays(s, actions);
    if s.pipe.session.producer && s.pipe.session.payloadSize > 0 {
      CaptureIsPrefix(s, actions);
    } else {
      NoCapture(s, actions);
    }
  }

  /**
   * At every point of every interleaving and for both directions: the capture is of the counted bytes, counted and
   * delivered bytes differ by what a failed write delivered, and a report is of the first error of its own direction,
   * and without one exactly when nothing in it went wrong and all was counted; then both of its halves are closed.
   */
  lemma BothCapture(w: World, ls: seq<Label>, up: bool)
    requires Fresh(w) && Interleaves(w, ls)
    ensures var t, actions := Side(After(w, ls), up), Actions(Only(up, ls));
      && Captured(t) && |t.dst.outgoing| - t.pipe.written == Uncounted(actions)
      && (t.pipe.phase.Done? ==> t.src.readShut && t.dst.writeShut)
      && (t.pipe.phase.Done? ==> t.pipe.phase.result.err == FirstOf(Errors(actions)))
      && (t.pipe.phase.Done? ==>
            (t.pipe.phase.result.err == None <==>
               (forall a :: a in actions ==> Harmless(a)) && t.pipe.written == |t.src.incoming|))
  {
    var s, actions := Side(w, up), Actions(Only(up, ls));
    RunsAlone(w, ls, up, s);
    RunIsCaptured(s, actions);
    CountedButForLastWrite(s, actions);
    HalvesShut(s, actions);
    SourceStays(s, actions);
    if Run(s, actions).pipe.phase.Done? {
      NoErrorExactly(s, actions);
      FirstErrorIsReported(s, actions);
    }
  }

  // ---------- A run of each, as one interleaving ----------

  function Labels(up: bool, actions: seq<Action>): seq<Label> {
    if actions == [] then [] else [Label(up, actions[0])] + Labels(up, actions[1..])
  }

  /** The report that a run from s to t has made. */
  function NewReport(s: State, t: State): seq<Pipes.Result> {
    if t.pipe.phase.Done? && !s.pipe.phase.Done? then [t.pipe.phase.result] else []
  }

  /** A run of one pipe is an interleaving in which the other does nothing. */
  lemma {:induction false} RunsAsOne(w: World, up: bool, actions: seq<Action>)
    requires CanRun(Side(w, up), actions)
    ensures Interleaves(w, Labels(up, actions))
    ensures Side(After(w, Labels(up, actions)), up) == Run(Side(w, up), actions)
    ensures SameHalves(Side(After(w, Labels(up, actions)), !up), Side(w, !up))
    ensures After(w, Labels(up, actions)).done == w.done + NewReport(Side(w, up), Run(Side(w, up), actions))
    decreases |actions|
  {
    if actions != [] {
      var l := Label(up, actions[0]);
      assert Side(Step(w, l), up) == Take(Side(w, up), actions[0]);
      if l.action.Report? { DoneStays(Take(Side(w, up), l.action), actions[1..]); }
      OtherUntouched(w, l);
      RunsAsOne(Step(w, l), up, actions[1..]);
      StepThenRun(w, l, Labels(up, actions[1..]));
    }
  }

  lemma {:induction false} RunOn(w: World, ls: seq<Label>, ms: seq<Label>)
    requires Interleaves(w, ls) && Interleaves(After(w, ls), ms)
    ensures Interleaves(w, ls + ms) && After(w, ls + ms) == After(After(w, ls), ms)
    decreases |ls|
  {
    if ls == [] {
      NilAppend(ms);
    } else {
      RunOn(Step(w, ls[0]), ls[1..], ms);
      ConsAppend(ls, ms);
      StepThenRun(w, ls[0], ls[1..] + ms);
    }
  }
}
