/** What the state at the end of a run says about the run: every record goes back to the event that made it. */
module DemuxHistory {
  import opened GoBytes
  import opened Frame
  import opened Demux

  // ---------- frames ----------

  /** The frames readers drained, in the order in which they did. */
  function FramesRead(es: seq<Event>): seq<Event> {
    if es == [] then [] else
    var (before, e) := (FramesRead(es[..|es| - 1]), es[|es| - 1]);
    if e.Drain? then before + [e] else before
  }

  lemma {:induction false} ReadIsInRun(es: seq<Event>, e: Event)
    ensures e in FramesRead(es) <==> e in es && e.Drain?
    decreases |es|
  {
    if es != [] {
      ReadIsInRun(es[..|es| - 1], e);
      InRun(es, e);
    }
  }

  lemma InRun(es: seq<Event>, e: Event)
    requires es != []
    ensures e in es <==> e in es[..|es| - 1] || e == es[|es| - 1]
  {
    assert es == es[..|es| - 1] + [es[|es| - 1]];
  }

  predicate Records(f: Reply, e: Event, i: nat) {
    e.Drain? && f.clrID == e.clrID && f.result == e.result && f.origin == e.origin && f.reader == e.r && f.serial == i
  }

  /** The replies on record are the frames that were read, one for one, in order and with all that they held. */
  lemma {:induction false} DrainedIsRead(es: seq<Event>)
    requires Legal(es)
    ensures |Exec(es).drained| == |FramesRead(es)|
    ensures forall i | 0 <= i < |FramesRead(es)| :: Records(Exec(es).drained[i], FramesRead(es)[i], i)
    decreases |es|
  {
    if es != [] {
      var before := es[..|es| - 1];
      DrainedIsRead(before);
      DrainStep(Exec(before), es[|es| - 1]);
    }
  }

  lemma DrainStep(s: State, e: Event)
    requires Enabled(s, e)
    ensures !e.Drain? ==> Apply(s, e).drained == s.drained
    ensures e.Drain? ==> && |Apply(s, e).drained| == |s.drained| + 1
                         && Apply(s, e).drained[..|s.drained|] == s.drained
                         && Records(Apply(s, e).drained[|s.drained|], e, |s.drained|)
  {
  }

  // ---------- calls ----------

  /** The steps of call `t` alone. */
  predicate StepOf(e: Event, t: nat) {
    match e
    case Register(u) => u == t
    case Heal(u, _) => u == t
    case RegisterHealed(u) => u == t
    case PutOnWire(u) => u == t
    case WriteReturns(u) => u == t
    case WriteFails(u) => u == t
    case Receive(u) => u == t
    case Cancel(u) => u == t
    case Expire(u) => u == t
    case Cleanup(u) => u == t
    case Reconnect(u, _) => u == t
    case _ => false
  }

  /** The step by which a call gives up for this reason. */
  function Cause(why: Why, t: nat): Event {
    match why
    case WriteError => WriteFails(t)
    case Cancelled => Cancel(t)
    case TimedOut => Expire(t)
  }

  /** On the way out for this reason, or out. */
  predicate Leaves(pc: Pc, why: Why) {
    pc == Cleaning(why) || pc == Reconnecting(why) || pc == Returned(Failed(why))
  }

  /** Where a call stands on its way to the select is told by which of its steps the run has. */
  predicate Entry(es: seq<Event>, pc: Pc, written: bool, t: nat) {
    && (Register(t) in es <==> pc != Started)
    && (PutOnWire(t) in es <==> written)
    && (WriteReturns(t) in es ==> written && !pc.Started? && !pc.Registered? && !pc.OnWire?)
    && (pc.Waiting? || (pc.Returned? && pc.out.Got?) ==> WriteReturns(t) in es)
    && (pc.Started? || pc.Healing? || pc.Healed? || pc.Registered? ==> !written)
    && (pc.OnWire? || pc.Waiting? ==> written)
  }

  /** And so is how it leaves. */
  predicate Exit(es: seq<Event>, pc: Pc, t: nat) {
    && (forall why :: Cause(why, t) in es <==> Leaves(pc, why))
    && (Receive(t) in es <==> pc.Returned? && pc.out.Got?)
    && (Cleanup(t) in es <==> pc.Reconnecting? || (pc.Returned? && pc.out.Failed?))
    && (Reconnect(t, true) in es || Reconnect(t, false) in es <==>
          pc.Returned? && pc.out.Failed? && !pc.out.why.Cancelled?)
    && (pc.Reconnecting? ==> !pc.why.Cancelled?)
  }

  ghost predicate Life(es: seq<Event>, s: State, t: nat)
    requires t < |s.calls|
  {
    && Entry(es, s.calls[t].pc, t in s.written, t)
    && Exit(es, s.calls[t].pc, t)
    && (s.calls[t].fate.FailedOver? ==> exists r :: FailAll(r) in es)
  }

  lemma OwnEntryStep(es: seq<Event>, s: State, e: Event, t: nat)
    requires t < |s.calls| && StepOf(e, t) && Enabled(s, e) && Entry(es, s.calls[t].pc, t in s.written, t)
    ensures t < |Apply(s, e).calls| && Entry(es + [e], Apply(s, e).calls[t].pc, t in Apply(s, e).written, t)
  {
  }

  lemma OwnExitStep(es: seq<Event>, s: State, e: Event, t: nat)
    requires t < |s.calls| && StepOf(e, t) && Enabled(s, e) && Exit(es, s.calls[t].pc, t)
    ensures t < |Apply(s, e).calls| && Exit(es + [e], Apply(s, e).calls[t].pc, t)
  {
    var (pc, pc') := (s.calls[t].pc, Apply(s, e).calls[t].pc);
    forall why ensures Cause(why, t) in es + [e] <==> Leaves(pc', why) {
      assert Cause(why, t) in es <==> Leaves(pc, why);
    }
  }

  /** What others do does not move a call; only `failAll` fails it over. */
  lemma OthersStep(s: State, e: Event, t: nat)
    requires t < |s.calls| && Enabled(s, e)
    ensures t < |Apply(s, e).calls|
    ensures !StepOf(e, t) ==> Apply(s, e).calls[t].pc == s.calls[t].pc && (t in Apply(s, e).written <==> t in s.written)
    ensures Apply(s, e).calls[t].fate.FailedOver? ==> s.calls[t].fate.FailedOver? || e.FailAll?
  {
  }

  lemma NotOwn(es: seq<Event>, e: Event, t: nat, pc: Pc, written: bool)
    requires !StepOf(e, t) && Entry(es, pc, written, t) && Exit(es, pc, t)
    ensures Entry(es + [e], pc, written, t) && Exit(es + [e], pc, t)
  {
    forall why ensures Cause(why, t) in es + [e] <==> Leaves(pc, why) {
      assert Cause(why, t) in es <==> Leaves(pc, why);
      assert StepOf(Cause(why, t), t);
    }
  }

  lemma LifeStep(es: seq<Event>, s: State, e: Event, t: nat)
    requires t < |s.calls| && Life(es, s, t) && Enabled(s, e)
    ensures t < |Apply(s, e).calls| && Life(es + [e], Apply(s, e), t)
  {
    hide Apply, Enabled, Entry, Exit, StepOf;
    OthersStep(s, e, t);
    if StepOf(e, t) {
      OwnEntryStep(es, s, e, t);
      OwnExitStep(es, s, e, t);
    } else {
      NotOwn(es, e, t, s.calls[t].pc, t in s.written);
    }
    if s.calls[t].fate.FailedOver? {
      var r :| FailAll(r) in es;
      assert FailAll(r) in es + [e];
    } else if e.FailAll? {
      assert e in es + [e];
    }
  }

  lemma LifeBegins(es: seq<Event>, s: State)
    requires Enabled(s, Issue) && |s.calls| !in s.written
    requires forall e | e in es :: !StepOf(e, |s.calls|)
    ensures Life(es + [Issue], Apply(s, Issue), |s.calls|)
  {
    var t := |s.calls|;
    forall e | e in es + [Issue] ensures !StepOf(e, t) {
    }
    assert forall why :: StepOf(Cause(why, t), t);
    assert StepOf(Register(t), t) && StepOf(PutOnWire(t), t) && StepOf(WriteReturns(t), t) && StepOf(Receive(t), t);
    assert StepOf(Cleanup(t), t) && StepOf(Reconnect(t, true), t) && StepOf(Reconnect(t, false), t);
  }

  /** No call takes a step before it has its id. */
  lemma {:induction false} NoStepBeforeIssue(es: seq<Event>, t: nat)
    requires Legal(es) && t >= |Exec(es).calls|
    ensures t !in Exec(es).written
    ensures forall e | e in es :: !StepOf(e, t)
    decreases |es|
  {
    hide Apply, Enabled;
    if es != [] {
      var (before, e) := (es[..|es| - 1], es[|es| - 1]);
      OwnStep(Exec(before), e, t);
      NoStepBeforeIssue(before, t);
      forall x | x in es ensures !StepOf(x, t) { InRun(es, x); }
    }
  }

  lemma OwnStep(s: State, e: Event, t: nat)
    requires Enabled(s, e)
    ensures |Apply(s, e).calls| == |s.calls| + if e.Issue? then 1 else 0
    ensures StepOf(e, t) ==> t < |s.calls|
    ensures t >= |s.calls| ==> (t in Apply(s, e).written <==> t in s.written)
  {
  }

  /**
   * A call's place, and what it returns, are told by its own steps: it returns a result exactly when it received one,
   * and an error exactly when it gave up for that reason and cleaned up, after a reconnect unless it was cancelled.
   */
  lemma {:induction false} CallLife(es: seq<Event>, t: nat)
    requires Legal(es) && t < |Exec(es).calls|
    ensures Life(es, Exec(es), t)
    decreases |es|
  {
    hide Apply, Enabled, Life;
    if es != [] {
      var (before, e) := (es[..|es| - 1], es[|es| - 1]);
      assert es == before + [e];
      OwnStep(Exec(before), e, t);
      if t < |Exec(before).calls| {
        CallLife(before, t);
        LifeStep(before, Exec(before), e, t);
      } else {
        NoStepBeforeIssue(before, t);
        LifeBegins(before, Exec(before));
      }
    }
  }

  // ---------- readers ----------

  predicate IsDial(e: Event) {
    (e.Heal? || e.Reconnect?) && e.dialed
  }

  function Dials(es: seq<Event>): nat {
    if es == [] then 0 else Dials(es[..|es| - 1]) + if IsDial(es[|es| - 1]) then 1 else 0
  }

  predicate ReaderStepOf(e: Event, r: nat) {
    e == ReadFails(r) || e == FailAll(r) || e == Quit(r)
  }

  /** A reader that lost its connection goes on to fail everyone, and one that stopped did so or was told to quit. */
  predicate ReaderLife(es: seq<Event>, s: State, r: nat)
    requires r < |s.readers|
  {
    && (ReadFails(r) in es <==> s.readers[r].Failing? || FailAll(r) in es)
    && (s.readers[r].Stopped? <==> Quit(r) in es || FailAll(r) in es)
  }

  lemma ReaderStep(s: State, e: Event, r: nat)
    requires Enabled(s, e) && !Apply(s, e).crashed
    ensures !s.crashed && |Apply(s, e).readers| == |s.readers| + if IsDial(e) then 1 else 0
    ensures ReaderStepOf(e, r) ==> r < |s.readers|
    ensures r < |s.readers| ==>
              var (q, q') := (s.readers[r], Apply(s, e).readers[r]);
              && (e == ReadFails(r) ==> q.Reading? && q'.Failing?)
              && (e == FailAll(r) ==> q.Failing? && q'.Stopped?)
              && (e == Quit(r) ==> q.Reading? && q'.Stopped?)
              && (!ReaderStepOf(e, r) ==> (q'.Failing? <==> q.Failing?) && (q'.Stopped? <==> q.Stopped?))
    ensures r == |s.readers| < |Apply(s, e).readers| ==> Apply(s, e).readers[r].Reading?
  {
  }

  /** There is one reader to a successful dial, the first one's included, and each reads until it fails or quits. */
  lemma {:induction false} ReadersLife(es: seq<Event>)
    requires Legal(es) && !Exec(es).crashed
    ensures |Exec(es).readers| == 1 + Dials(es)
    ensures forall r | 0 <= r < |Exec(es).readers| :: ReaderLife(es, Exec(es), r)
    ensures forall e, r: nat | e in es && ReaderStepOf(e, r) :: r < |Exec(es).readers|
    decreases |es|
  {
    hide Apply, Enabled;
    if es == [] {
      assert Exec(es) == Init();
    } else {
      var (before, e) := (es[..|es| - 1], es[|es| - 1]);
      var (s, s') := (Exec(before), Exec(es));
      ReaderStep(s, e, 0);
      ReadersLife(before);
      forall x, r: nat | x in es && ReaderStepOf(x, r) ensures r < |s'.readers| {
        InRun(es, x);
        ReaderStep(s, e, r);
        assert x in before ==> r < |s.readers|;
      }
      forall r | 0 <= r < |s'.readers| ensures ReaderLife(es, s', r) {
        ReaderStep(s, e, r);
        InRun(es, ReadFails(r));
        InRun(es, FailAll(r));
        InRun(es, Quit(r));
        if r < |s.readers| {
          assert ReaderLife(before, s, r);
        } else {
          assert forall x | x in before :: !ReaderStepOf(x, r);
          assert s'.readers[r].Reading? && IsDial(e);
        }
      }
    }
  }
}
