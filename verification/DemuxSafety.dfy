/** What holds of every run of the demultiplexer, whatever the schedule. */
module DemuxSafety {
  import opened GoBytes
  import opened Frame
  import opened Demux
  import opened DemuxInvariant
  import opened DemuxHistory

  /** The states a run up to `Close` passes through. */
  ghost predicate Reachable(s: State) {
    exists es :: Legal(es) && OpenRun(es) && Exec(es) == s
  }

  lemma ReachableInv(s: State)
    requires Reachable(s)
    ensures Inv(s)
  {
    var es :| Legal(es) && OpenRun(es) && Exec(es) == s;
    RunKeepsInv(es);
  }

  // ---------- channels ----------

  /** Every channel is used once, no send blocks, and no run up to `Close` panics. */
  lemma ChannelLinearity(s: State)
    requires Reachable(s)
    ensures !s.crashed
    ensures forall t | t in s.core.chans ::
              var ch := s.core.chans[t]; ch.sends <= 1 && ch.closes <= 1 && |ch.buf| <= 1
    ensures forall r | 0 <= r < |s.readers| && s.readers[r].Sending? ::
              && s.readers[r].t in s.core.chans
              && s.core.chans[s.readers[r].t] == FRESH
    ensures forall r | 0 <= r < |s.readers| && s.readers[r].Closing? ::
              && s.readers[r].t in s.core.chans
              && !s.core.chans[s.readers[r].t].closed
    ensures forall t | t in s.core.demux.Values :: t in s.core.chans && s.core.chans[t] == FRESH
  {
    hide Reachable;
    ReachableInv(s);
    EntriesFresh(s);
    forall t | t in s.core.chans
      ensures var ch := s.core.chans[t]; ch.sends <= 1 && ch.closes <= 1 && |ch.buf| <= 1 {
      assert CallOk(s, t);
    }
    forall r | 0 <= r < |s.readers| && s.readers[r].Sending?
      ensures s.readers[r].t in s.core.chans && s.core.chans[s.readers[r].t] == FRESH {
      assert ReaderOk(s, r) && CallOk(s, s.readers[r].t);
    }
    forall r | 0 <= r < |s.readers| && s.readers[r].Closing?
      ensures s.readers[r].t in s.core.chans && !s.core.chans[s.readers[r].t].closed {
      assert ReaderOk(s, r) && CallOk(s, s.readers[r].t);
    }
  }

  /**
   * No step, whoever takes it, sends on or closes a channel that is closed already: that would panic, and what was
   * done to the channel would have changed.
   */
  lemma NoSendAfterClose(s: State, e: Event)
    requires Reachable(s) && Bounded(s) && Enabled(s, e) && !e.Close?
    ensures !Apply(s, e).crashed
    ensures e.Send? ==> !s.core.chans[s.readers[e.r].t].closed
    ensures e.CloseChan? ==> !s.core.chans[s.readers[e.r].t].closed
    ensures e.FailAll? ==> forall t | t in s.core.demux.Values :: t in s.core.chans && !s.core.chans[t].closed
    ensures forall t | t in s.core.chans && s.core.chans[t].closed ::
              var (ch, chans') := (s.core.chans[t], Apply(s, e).core.chans);
              t in chans' && chans'[t].closed && chans'[t].sends == ch.sends && chans'[t].closes == ch.closes
  {
    ChannelLinearity(s);
    hide Reachable;
    ReachableInv(s);
    forall t | t in s.core.chans && s.core.chans[t].closed
      ensures var (ch, chans') := (s.core.chans[t], Apply(s, e).core.chans);
              t in chans' && chans'[t].closed && chans'[t].sends == ch.sends && chans'[t].closes == ch.closes
    {
      ClosedChannelKept(s, e, t);
    }
    hide Inv, Bounded, Enabled, Apply;
    StepKeepsInv(s, e);
    NotCrashed(Apply(s, e));
  }

  lemma NotCrashed(s: State)
    requires Inv(s)
    ensures !s.crashed
  {
  }

  lemma ClosedChannelKept(s: State, e: Event, t: nat)
    requires Inv(s) && Enabled(s, e) && !e.Close? && t in s.core.chans && s.core.chans[t].closed
    ensures var (ch, chans') := (s.core.chans[t], Apply(s, e).core.chans);
            t in chans' && chans'[t].closed && chans'[t].sends == ch.sends && chans'[t].closes == ch.closes
  {
    NeverHealing(s);
    EntriesFresh(s);
    match e {
      case Register(u) => assert CallOk(s, u);
      case Send(r) => assert ReaderOk(s, r) && CallOk(s, s.readers[r].t);
      case CloseChan(r) => assert ReaderOk(s, r) && CallOk(s, s.readers[r].t);
      case _ =>
    }
  }

  // ---------- waiters ----------

  /** A call that has registered and not yet stopped waiting. */
  predicate Waits(c: Call) {
    c.pc.Registered? || c.pc.OnWire? || c.pc.Waiting?
  }

  predicate InMap(s: State, t: nat)
    requires t < |s.calls|
  {
    s.calls[t].id in s.core.demux && s.core.demux[s.calls[t].id] == t
  }

  predicate InHandOf(s: State, t: nat, r: nat) {
    r < |s.readers| && s.readers[r].Sending? && s.readers[r].t == t
  }

  ghost predicate Held(s: State, t: nat) {
    exists r :: InHandOf(s, t, r)
  }

  predicate HasValue(s: State, t: nat) {
    t in s.core.chans && s.core.chans[t].buf != []
  }

  lemma HeldByReader(s: State, t: nat)
    requires Inv(s) && t < |s.calls| && !s.calls[t].pc.Started?
    ensures s.calls[t].fate.InHand? ==> Held(s, t)
  {
    assert CallOk(s, t);
    if s.calls[t].fate.InHand? {
      assert InHandOf(s, t, s.calls[t].fate.f.reader);
    }
  }

  /** A waiter's channel is in exactly one place: the map, one reader's hand, or with its value buffered. */
  lemma WaitersConserved(s: State, t: nat)
    requires Reachable(s) && t < |s.calls| && Waits(s.calls[t])
    ensures InMap(s, t) || Held(s, t) || HasValue(s, t)
    ensures !(InMap(s, t) && Held(s, t))
    ensures !(InMap(s, t) && HasValue(s, t))
    ensures !(Held(s, t) && HasValue(s, t))
    ensures forall q, r | InHandOf(s, t, q) && InHandOf(s, t, r) :: q == r
  {
    hide Reachable;
    ReachableInv(s);
    assert CallOk(s, t);
    HeldByReader(s, t);
    forall r: nat | InHandOf(s, t, r) ensures s.calls[t].fate == InHand(s.readers[r].f) && r == s.readers[r].f.reader {
      assert ReaderOk(s, r);
    }
    if InMap(s, t) {
      assert EntryOk(s, s.calls[t].id);
    }
  }

  /** Every entry of the map belongs to one call still under way, under that call's id. */
  lemma EntriesOwned(s: State, id: u32)
    requires Reachable(s) && id in s.core.demux
    ensures var t := s.core.demux[id];
            t < |s.calls| && s.calls[t].id == id && (Waits(s.calls[t]) || s.calls[t].pc.Cleaning?)
    ensures forall id' | id' in s.core.demux && s.core.demux[id'] == s.core.demux[id] :: id' == id
  {
    hide Reachable;
    ReachableInv(s);
    assert EntryOk(s, id) && CallOk(s, s.core.demux[id]);
    forall id' | id' in s.core.demux && s.core.demux[id'] == s.core.demux[id] ensures id' == id {
      assert EntryOk(s, id');
    }
  }

  /** When every call has returned, by whatever route, the map is empty. */
  lemma NoEntryLeaks(s: State)
    requires Reachable(s)
    requires forall t | 0 <= t < |s.calls| :: s.calls[t].pc.Returned?
    ensures s.core.demux == map[]
  {
    hide Reachable;
    forall id | id in s.core.demux ensures false {
      EntriesOwned(s, id);
    }
  }

  /** A call's own next step when nobody answers it, and a reader's. */
  function CallStep(s: State, t: nat): Event
    requires t < |s.calls|
  {
    match s.calls[t].pc
    case Started => Register(t)
    case Healing => Heal(t, false)
    case Healed => RegisterHealed(t)
    case Registered => PutOnWire(t)
    case OnWire => WriteReturns(t)
    case Waiting => Expire(t)
    case Cleaning(_) => Cleanup(t)
    case Reconnecting(_) => Reconnect(t, false)
    case Returned(_) => Issue
  }

  function ReaderStep(s: State, r: nat): Event
    requires r < |s.readers|
  {
    match s.readers[r]
    case Reading => ReadFails(r)
    case Decoded(_) => Take(r)
    case Sending(_, _) => Send(r)
    case Closing(_, _) => CloseChan(r)
    case Failing => FailAll(r)
    case Stopped => Issue
  }

  /** Nobody is ever blocked by another: each call and each reader can take its next step in every state. */
  lemma NobodyBlocks(s: State)
    requires Reachable(s)
    ensures forall t | 0 <= t < |s.calls| :: Enabled(s, CallStep(s, t))
    ensures forall r | 0 <= r < |s.readers| :: Enabled(s, ReaderStep(s, r))
  {
    hide Reachable;
    ChannelLinearity(s);
    ReachableInv(s);
    forall r | 0 <= r < |s.readers| ensures Enabled(s, ReaderStep(s, r)) {
      assert ReaderOk(s, r);
    }
  }

  /** Nor is any other way on: every outcome of a write, a wait and a dial, and every frame, is possible. */
  lemma EveryWayOpen(s: State, t: nat, r: nat, clrID: u32, result: RawResult, origin: nat)
    requires Reachable(s) && t < |s.calls| && r < |s.readers|
    ensures s.calls[t].pc.Registered? || s.calls[t].pc.OnWire? ==> Enabled(s, WriteFails(t))
    ensures s.calls[t].pc.Waiting? ==> Enabled(s, Cancel(t)) && (HasValue(s, t) ==> Enabled(s, Receive(t)))
    ensures s.calls[t].pc.Reconnecting? ==> Enabled(s, Reconnect(t, true))
    ensures s.readers[r].Reading? ==> Enabled(s, Drain(r, clrID, result, origin)) && Enabled(s, Quit(r))
  {
    ReachableInv(s);
    NotCrashed(s);
  }

  // ---------- replies ----------

  /** A reply on record is a frame that a reader of the run drained. */
  lemma RecordIsRead(es: seq<Event>, f: Reply)
    requires Legal(es) && f in Exec(es).drained
    ensures Drain(f.reader, f.clrID, f.result, f.origin) in es
  {
    DrainedIsRead(es);
    var i :| 0 <= i < |Exec(es).drained| && Exec(es).drained[i] == f;
    var e := FramesRead(es)[i];
    assert Records(f, e, i);
    ReadIsInRun(es, e);
  }

  /**
   * What a call returns is the empty result with which a reader failed everyone, or the whole result of a frame of
   * the run that carries the call's own id.
   */
  lemma NoMisdelivery(es: seq<Event>, t: nat)
    requires Legal(es) && OpenRun(es) && t < |Exec(es).calls|
    requires Exec(es).calls[t].pc.Returned? && Exec(es).calls[t].pc.out.Got?
    ensures var (c, result) := (Exec(es).calls[t], Exec(es).calls[t].pc.out.result);
            && c.id == IdOf(t)
            && (|| (result == EMPTY && exists r :: FailAll(r) in es)
                || exists r, origin :: Drain(r, c.id, result, origin) in es)
  {
    RunKeepsInv(es);
    var c := Exec(es).calls[t];
    assert CallOk(Exec(es), t);
    CallLife(es, t);
    if c.fate.Buffered? || c.fate.Answered? {
      RecordIsRead(es, c.fate.f);
    }
  }

  lemma EntryPending(s: State, id: u32)
    requires Inv(s)
    ensures id in s.core.demux ==>
              var t := s.core.demux[id];
              t < |s.calls| && s.calls[t].id == id && s.calls[t].fate.Pending? && !s.calls[t].pc.Started?
  {
    assert id in s.core.demux ==> EntryOk(s, id);
  }

  /** A reply whose call has left, or was served already, is dropped without a trace. */
  lemma LateReplyDropped(s: State, r: nat)
    requires Reachable(s) && Enabled(s, Take(r))
    requires forall t | 0 <= t < |s.calls| && s.calls[t].id == s.readers[r].f.clrID ::
               s.calls[t].pc.Started? || !s.calls[t].fate.Pending?
    ensures Apply(s, Take(r)) == Now(s, r, Reading)
  {
    hide Reachable;
    ReachableInv(s);
    EntryPending(s, s.readers[r].f.clrID);
    assert s.core.demux - {s.readers[r].f.clrID} == s.core.demux;
  }

  /** A call's cleanup removes its own entry and nobody else's. */
  lemma CleanupRemovesOwnEntry(s: State, t: nat)
    requires Reachable(s) && Bounded(s) && Enabled(s, Cleanup(t))
    ensures var (before, after) := (s.core.demux, Apply(s, Cleanup(t)).core.demux);
            && t !in after.Values
            && forall id | id in before && before[id] != t :: id in after && after[id] == before[id]
  {
    hide Reachable;
    ReachableInv(s);
    OwnEntry(s, t);
    forall id | id in s.core.demux && s.core.demux[id] == t ensures id == s.calls[t].id {
      assert EntryOk(s, id);
    }
  }

  // ---------- a server that answers what it was asked ----------

  /** The server answers only requests whose bytes have left, under their own id, and each at most once. */
  predicate AnswersRequest(s: State, e: Event) {
    e.Drain? ==>
      && e.origin in s.written && e.origin < |s.calls| && s.calls[e.origin].id == e.clrID
      && forall i | 0 <= i < |s.drained| :: s.drained[i].origin != e.origin
  }

  /** No reply comes so late, or is held so long, that 2^32 ids are issued between its request and its lookup. */
  predicate Prompt(s: State) {
    forall r | 0 <= r < |s.readers| && s.readers[r].Decoded? :: |s.calls| - s.readers[r].f.origin <= TWO_32
  }

  ghost predicate HonestRun(es: seq<Event>)
    requires Legal(es)
    decreases |es|
  {
    es == [] ||
    (HonestRun(es[..|es| - 1]) && Prompt(Exec(es[..|es| - 1])) && AnswersRequest(Exec(es[..|es| - 1]), es[|es| - 1]))
  }

  predicate Carries(c: Call, f: Reply) {
    c.fate == InHand(f) || c.fate == Buffered(f) || c.fate == Answered(f)
  }

  /** The request behind `f` got `f`, or had been failed, or had given up. */
  predicate Settled(s: State, f: Reply)
    requires f.origin < |s.calls|
  {
    Carries(s.calls[f.origin], f) || s.calls[f.origin].fate.FailedOver? || s.calls[f.origin].fate.Abandoned?
  }

  ghost predicate ReplyOk(s: State, i: nat)
    requires i < |s.drained|
  {
    var f := s.drained[i];
    && f.serial == i && f.reader < |s.readers|
    && f.origin in s.written && f.origin < |s.calls| && s.calls[f.origin].id == f.clrID
    && (s.readers[f.reader] == Decoded(f) || Settled(s, f))
  }

  ghost predicate Lossless(s: State) {
    && (forall i | 0 <= i < |s.drained| :: ReplyOk(s, i))
    && (forall i, j | 0 <= i < j < |s.drained| :: s.drained[i].origin != s.drained[j].origin)
    && (forall t | 0 <= t < |s.calls| :: CarriesOwn(s.calls[t], t))
  }

  predicate CarriesOwn(c: Call, t: nat) {
    c.fate.InHand? || c.fate.Buffered? || c.fate.Answered? ==> c.fate.f.origin == t
  }

  /** A reader looking up a reply finds the very call the server answered, unless that call is settled. */
  lemma LookupFindsOrigin(s: State, r: nat)
    requires Inv(s) && Bounded(s) && Prompt(s) && Lossless(s) && Enabled(s, Take(r))
    ensures var f := s.readers[r].f;
            && f.origin < |s.calls|
            && (f.clrID in s.core.demux ==> s.core.demux[f.clrID] == f.origin)
            && (f.clrID in s.core.demux <==> s.calls[f.origin].fate.Pending?)
  {
    var f := s.readers[r].f;
    assert ReaderOk(s, r) && f in s.drained;
    var i :| 0 <= i < |s.drained| && s.drained[i] == f;
    assert ReplyOk(s, i) && CallOk(s, f.origin);
    if f.clrID in s.core.demux {
      var t := s.core.demux[f.clrID];
      assert EntryOk(s, f.clrID) && CallOk(s, t);
      SameId(t, f.origin);
    }
  }

  lemma TakeKeepsLossless(s: State, r: nat)
    requires Inv(s) && Bounded(s) && Prompt(s) && Lossless(s) && Enabled(s, Take(r))
    ensures Lossless(Apply(s, Take(r)))
  {
    var s' := Apply(s, Take(r));
    var f := s.readers[r].f;
    LookupFindsOrigin(s, r);
    assert ReaderOk(s, r) && CallOk(s, f.origin) && CarriesOwn(s.calls[f.origin], f.origin);
    forall t | 0 <= t < |s'.calls| ensures CarriesOwn(s'.calls[t], t) { assert CarriesOwn(s.calls[t], t); }
    forall i | 0 <= i < |s'.drained| ensures ReplyOk(s', i) { assert ReplyOk(s, i); }
  }

  lemma StepKeepsLossless(s: State, e: Event)
    requires Inv(s) && Bounded(s) && Prompt(s) && Lossless(s) && Enabled(s, e) && AnswersRequest(s, e) && !e.Close?
    ensures Lossless(Apply(s, e))
  {
    hide CallOk, Apply, Enabled;
    var s' := Apply(s, e);
    if e.Take? {
      TakeKeepsLossless(s, e.r);
    } else {
      OtherStepKeepsCarries(s, e);
      DrainedGrows(s, e);
      forall i | 0 <= i < |s.drained| ensures ReplyOk(s', i) { OtherStepKeepsReply(s, e, i); }
    }
  }

  /** Only a drain adds to what was drained, and what it adds is the answer to a request on the wire. */
  lemma DrainedGrows(s: State, e: Event)
    requires Inv(s) && Enabled(s, e) && AnswersRequest(s, e)
    ensures var s' := Apply(s, e);
            || s'.drained == s.drained
            || (e.Drain? && |s'.drained| == |s.drained| + 1 && s'.drained[..|s.drained|] == s.drained
                && ReplyOk(s', |s.drained|) && s'.drained[|s.drained|].origin == e.origin)
  {
    hide CallOk;
  }

  lemma OtherStepKeepsCarries(s: State, e: Event)
    requires Inv(s) && Lossless(s) && Enabled(s, e) && !e.Take? && !e.Close?
    ensures forall t | 0 <= t < |Apply(s, e).calls| :: CarriesOwn(Apply(s, e).calls[t], t)
  {
    hide CallOk;
    var s' := Apply(s, e);
    if e.Send? || e.CloseChan? {
      assert ReaderOk(s, e.r);
    }
    forall t | 0 <= t < |s'.calls| ensures CarriesOwn(s'.calls[t], t) {
      if t < |s.calls| { assert CarriesOwn(s.calls[t], t); }
    }
  }

  lemma OtherStepKeepsReply(s: State, e: Event, i: nat)
    requires Inv(s) && Lossless(s) && Enabled(s, e) && !e.Take? && !e.Close? && i < |s.drained|
    ensures i < |Apply(s, e).drained| && ReplyOk(Apply(s, e), i)
  {
    hide CallOk, FailEntries, CloseEntries, ReceiveOn, Registration, Removal, SendOn, ShutOn;
    assert ReplyOk(s, i);
    NeverHealing(s);
    EntriesFresh(s);
    var f := s.drained[i];
    if e.Send? || e.CloseChan? {
      assert ReaderOk(s, e.r);
    }
    if e.FailAll? && f.origin in s.core.demux.Values {
      var id :| id in s.core.demux && s.core.demux[id] == f.origin;
      assert EntryOk(s, id);
    }
  }

  lemma {:induction false} HonestRunLossless(es: seq<Event>)
    requires Legal(es) && OpenRun(es) && HonestRun(es)
    ensures Inv(Exec(es)) && Lossless(Exec(es))
    decreases |es|
  {
    RunKeepsInv(es);
    if es != [] {
      var before := es[..|es| - 1];
      HonestRunLossless(before);
      StepKeepsLossless(Exec(before), es[|es| - 1]);
    }
  }

  /** The states of runs in which the server keeps to its part. */
  ghost predicate HonestlyReachable(s: State) {
    exists es :: Legal(es) && OpenRun(es) && HonestRun(es) && Exec(es) == s
  }

  lemma HonestlyLossless(s: State)
    requires HonestlyReachable(s)
    ensures Inv(s) && Lossless(s)
  {
    var es :| Legal(es) && OpenRun(es) && HonestRun(es) && Exec(es) == s;
    HonestRunLossless(es);
  }

  /**
   * No reply is lost, however early it arrives: a drained reply is still with the reader that drained it, or its
   * request has it, or that request was failed over or gave up.
   */
  lemma NoReplyLost(s: State, f: Reply)
    requires HonestlyReachable(s) && f in s.drained
    ensures f.origin < |s.calls|
    ensures || (f.reader < |s.readers| && s.readers[f.reader] == Decoded(f))
            || Carries(s.calls[f.origin], f)
            || s.calls[f.origin].fate.FailedOver?
            || s.calls[f.origin].fate.Abandoned?
  {
    hide HonestlyReachable;
    HonestlyLossless(s);
    var i :| 0 <= i < |s.drained| && s.drained[i] == f;
    assert ReplyOk(s, i);
  }

  /** A call's fate, when it got a result or an error. */
  lemma AnswerOnRecord(s: State, t: nat)
    requires Inv(s) && Lossless(s) && t < |s.calls| && s.calls[t].pc.Returned?
    ensures var c := s.calls[t];
            || c.pc.out.Failed?
            || (c.fate.FailedOver? && c.pc.out == Got(EMPTY))
            || ((c.fate.Answered? || c.fate.Buffered?) && c.fate.f in s.drained
                && c.fate.f.origin == t && c.pc.out == Got(c.fate.f.result))
  {
    assert CallOk(s, t) && CarriesOwn(s.calls[t], t);
  }

  /**
   * A call returns the server's answer to it, whole, and to nothing else; or the empty result, when a reader failed
   * everyone; or the error of its own failed write, cancel or timeout.
   */
  lemma EveryCallGetsItsAnswer(es: seq<Event>, t: nat)
    requires Legal(es) && OpenRun(es) && HonestRun(es) && t < |Exec(es).calls| && Exec(es).calls[t].pc.Returned?
    ensures var out := Exec(es).calls[t].pc.out;
            && (out.Got? || out.Failed?)
            && (out.Got? ==>
                  || (out.result == EMPTY && exists r :: FailAll(r) in es)
                  || (&& (exists r, id :: Drain(r, id, out.result, t) in es)
                      && (forall e | e in es && e.Drain? && e.origin == t :: e.result == out.result)))
            && (out.Failed? ==> Cause(out.why, t) in es && Cleanup(t) in es)
  {
    HonestRunLossless(es);
    AnswerOnRecord(Exec(es), t);
    CallLife(es, t);
    var c := Exec(es).calls[t];
    if c.pc.out.Got? && !c.fate.FailedOver? {
      RecordIsRead(es, c.fate.f);
      forall e | e in es && e.Drain? && e.origin == t ensures e.result == c.pc.out.result {
        OneAnswer(es, e, c.fate.f);
      }
    }
  }

  /** The server answers a request at most once. */
  lemma OneAnswer(es: seq<Event>, e: Event, f: Reply)
    requires Legal(es) && Lossless(Exec(es)) && f in Exec(es).drained
    requires e in es && e.Drain? && e.origin == f.origin
    ensures e.result == f.result
  {
    hide Exec, Legal, ReplyOk, CarriesOwn;
    DrainedIsRead(es);
    ReadIsInRun(es, e);
    var i :| 0 <= i < |FramesRead(es)| && FramesRead(es)[i] == e;
    var j :| 0 <= j < |Exec(es).drained| && Exec(es).drained[j] == f;
    assert Records(Exec(es).drained[i], e, i);
  }

  // ---------- Close ----------

  /**
   * `Close` lets every waiter go, in the select already or still on its way there: its channel is ready to be
   * received from, or a reader is about to send on it.
   */
  lemma CloseUnblocks(s0: State, t: nat)
    requires Reachable(s0) && t < |s0.calls| && Waits(s0.calls[t])
    ensures Enabled(s0, Close)
    ensures var s := Apply(s0, Close);
            && !s.crashed && s.core.closed && t in s.core.chans
            && s.core.demux == s0.core.demux
            && (CanReceive(s.core.chans[t]) || (Held(s, t) && s.core.chans[t] == FRESH))
            && (s0.calls[t].pc.Waiting? && CanReceive(s.core.chans[t]) ==> Enabled(s, Receive(t)))
            && (InMap(s0, t) ==> s.core.chans[t] == Shut(FRESH))
  {
    hide Reachable;
    ReachableInv(s0);
    CloseFromInv(s0, t);
  }

  lemma CloseFromInv(s0: State, t: nat)
    requires Inv(s0) && t < |s0.calls| && Waits(s0.calls[t])
    ensures Enabled(s0, Close)
    ensures var s := Apply(s0, Close);
            && s.core == CloseEntries(s0.core) && !s.crashed && t in s.core.chans
            && (CanReceive(s.core.chans[t]) || (Held(s, t) && s.core.chans[t] == FRESH))
            && (s0.calls[t].pc.Waiting? && CanReceive(s.core.chans[t]) ==> Enabled(s, Receive(t)))
            && (InMap(s0, t) ==> s.core.chans[t] == Shut(FRESH))
  {
    var s := Apply(s0, Close);
    EntriesFresh(s0);
    assert CallOk(s0, t);
    match s0.calls[t].fate {
      case Pending => assert t in s0.core.demux.Values;
      case InHand(f) => assert InHandOf(s, t, f.reader); NotAnEntry(s0, t);
      case _ => NotAnEntry(s0, t);
    }
  }

  /** In every run at all, `Close` and any schedule included, the handler keeps a connection and nobody self-heals. */
  ghost predicate Connected(s: State) {
    s.core.conn && forall t | 0 <= t < |s.calls| :: !s.calls[t].pc.Healing? && !s.calls[t].pc.Healed?
  }

  lemma StepKeepsConnected(s: State, e: Event)
    requires Connected(s) && Enabled(s, e)
    ensures Connected(Apply(s, e))
  {
  }

  lemma {:induction false} SelfHealUnreachable(es: seq<Event>)
    requires Legal(es)
    ensures Connected(Exec(es))
    decreases |es|
  {
    hide Apply, Enabled;
    if es != [] {
      SelfHealUnreachable(es[..|es| - 1]);
      StepKeepsConnected(Exec(es[..|es| - 1]), es[|es| - 1]);
    }
  }

  /** After `Close` no call ever registers: no channel is made and no entry appears. */
  lemma {:induction false} NoRegistrationAfterClose(es: seq<Event>, more: seq<Event>)
    requires Legal(es) && Exec(es).core.closed && Legal(es + more)
    ensures Exec(es + more).core.closed
    ensures Exec(es + more).core.chans.Keys == Exec(es).core.chans.Keys
    ensures Exec(es + more).core.demux.Keys <= Exec(es).core.demux.Keys
    decreases |more|
  {
    hide Apply, Enabled, Connected;
    if more == [] {
      assert es + more == es;
    } else {
      var before := es + more[..|more| - 1];
      assert (es + more)[..|es + more| - 1] == before;
      NoRegistrationAfterClose(es, more[..|more| - 1]);
      SelfHealUnreachable(before);
      ClosedStays(Exec(before), more[|more| - 1]);
    }
  }

  lemma ClosedStays(s: State, e: Event)
    requires Connected(s) && s.core.closed && Enabled(s, e)
    ensures var c := Apply(s, e).core;
            c.closed && c.chans.Keys == s.core.chans.Keys && c.demux.Keys <= s.core.demux.Keys
  {
  }

  /** On a closed handler a call that starts is refused and nothing else happens, and closing again does nothing. */
  lemma ClosedRefuses(s: State, t: nat)
    requires s.core.closed && !s.crashed && AtPc(s, t, Started)
    ensures Enabled(s, Register(t))
    ensures var s' := Apply(s, Register(t));
            && s'.calls == s.calls[t := s.calls[t].(pc := Returned(Refused))]
            && s'.(calls := s.calls) == s
    ensures Enabled(s, Close) && Apply(s, Close) == s
  {
  }

  // ---------- why the claims about channels stop at Close ----------

  function Reopen(c: Call): Call {
    if c.pc == Returned(Refused) then c.(pc := Started) else c
  }

  /** The state as if it had never been closed, and the calls refused since had not begun. */
  function Reopened(s: State): State {
    s.(core := s.core.(closed := false),
       calls := seq(|s.calls|, t requires 0 <= t < |s.calls| => Reopen(s.calls[t])))
  }

  /** Closed with nothing registered. */
  ghost predicate Quiet(s: State) {
    s.core.closed && s.core.demux == map[] && Inv(Reopened(s))
  }

  lemma CloseIsQuiet(s: State)
    requires Inv(s) && s.core.demux == map[]
    ensures Enabled(s, Close) && Quiet(Apply(s, Close))
  {
    var s' := Apply(s, Close);
    assert s'.core.chans == s.core.chans;
    forall t | 0 <= t < |s.calls| ensures Reopen(s.calls[t]) == s.calls[t] { assert CallOk(s, t); }
    assert Reopened(s').calls == s.calls;
    assert Reopened(s') == s;
  }

  predicate ByReader(e: Event) {
    e.Drain? || e.Take? || e.Send? || e.CloseChan? || e.ReadFails? || e.FailAll? || e.Quit?
  }

  /** On a closed handler a registration is refused; any other step is what it would have been on an open one. */
  lemma QuietCommutes(s: State, e: Event)
    requires Quiet(s) && Enabled(s, e)
    ensures e.Register? || e.Close? ==> Reopened(Apply(s, e)) == Reopened(s)
    ensures !e.Register? && !e.Close? ==>
              Enabled(Reopened(s), e) && Reopened(Apply(s, e)) == Apply(Reopened(s), e)
  {
    hide Inv;
    if ByReader(e) {
      hide Enabled, Apply;
      QuietReader(s, e);
    } else if e.Register? || e.Close? {
      assert Reopened(Apply(s, e)).calls == Reopened(s).calls;
    } else {
      hide Enabled, Apply;
      QuietCall(s, e);
    }
  }

  lemma QuietReader(s: State, e: Event)
    requires Quiet(s) && Enabled(s, e) && ByReader(e)
    ensures Enabled(Reopened(s), e) && Reopened(Apply(s, e)) == Apply(Reopened(s), e)
  {
    hide Inv;
    assert Reopened(Apply(s, e)).calls == Apply(Reopened(s), e).calls;
  }

  lemma QuietCall(s: State, e: Event)
    requires Quiet(s) && Enabled(s, e) && !ByReader(e) && !e.Register? && !e.Close?
    ensures Enabled(Reopened(s), e) && Reopened(Apply(s, e)) == Apply(Reopened(s), e)
  {
    hide Inv, FailEntries, CloseEntries, FailCalls, SendOn, ShutOn, AnyClosed;
    assert Reopened(Apply(s, e)).calls == Apply(Reopened(s), e).calls;
  }

  lemma QuietStays(s: State, e: Event)
    requires Quiet(s) && Enabled(s, e)
    ensures Quiet(Apply(s, e))
  {
    QuietCommutes(s, e);
    NeverHealing(Reopened(s));
    QuietConnected(s);
    ClosedStays(s, e);
    hide Inv, Apply, Enabled, Reopened, Connected;
    NothingRegistered(s, Apply(s, e));
    if !e.Register? && !e.Close? {
      ReopenedCore(s);
      StepKeepsInv(Reopened(s), e);
    }
  }

  lemma ReopenedCore(s: State)
    ensures Reopened(s).core.demux == s.core.demux
  {
  }

  lemma NothingRegistered(s: State, s': State)
    requires s.core.demux == map[] && s'.core.demux.Keys <= s.core.demux.Keys
    ensures s'.core.demux == map[]
  {
  }

  lemma QuietConnected(s: State)
    requires Quiet(s)
    ensures Connected(s)
  {
    hide CallOk;
    NeverHealing(Reopened(s));
    forall t | 0 <= t < |s.calls| ensures !s.calls[t].pc.Healing? && !s.calls[t].pc.Healed? {
      assert Reopened(s).calls[t] == Reopen(s.calls[t]);
    }
  }

  /** When nothing was registered at `Close`, every channel is safe in whatever follows, on any schedule. */
  lemma {:induction false} QuietAfterClose(es: seq<Event>, more: seq<Event>)
    requires Legal(es) && OpenRun(es) && Exec(es).core.demux == map[] && Legal(es + [Close] + more)
    ensures Quiet(Exec(es + [Close] + more)) && !Exec(es + [Close] + more).crashed
    decreases |more|
  {
    hide Apply, Enabled, Quiet;
    if more == [] {
      RunKeepsInv(es);
      CloseIsQuiet(Exec(es));
      Extend(es, Close);
      assert es + [Close] + more == es + [Close];
    } else {
      var n := |more| - 1;
      var before := es + [Close] + more[..n];
      assert (es + [Close] + more)[..|es| + 1 + n] == before;
      QuietAfterClose(es, more[..n]);
      QuietStays(Exec(before), more[n]);
    }
    QuietIsSafe(Exec(es + [Close] + more));
  }

  lemma QuietIsSafe(s: State)
    requires Quiet(s)
    ensures !s.crashed
  {
  }

  /**
   * When something was, a reader whose connection fails, as `Close` makes it fail, panics: `failAll` finds the closed
   * channels still registered.
   */
  lemma FailAllAfterClose(s0: State, r: nat)
    requires Inv(s0) && r < |s0.readers| && s0.readers[r].Reading?
    ensures Enabled(s0, Close) && Enabled(Apply(s0, Close), ReadFails(r))
    ensures var s := Apply(Apply(s0, Close), ReadFails(r));
            Enabled(s, FailAll(r)) && (Apply(s, FailAll(r)).crashed <==> s0.core.demux != map[])
  {
    EntriesFresh(s0);
    hide CallOk, ReaderOk, EntryOk, Holds;
    var s := Apply(Apply(s0, Close), ReadFails(r));
    assert s.core == CloseEntries(s0.core);
    if s0.core.demux != map[] {
      var id :| id in s0.core.demux;
      var t := s0.core.demux[id];
      assert t in s.core.demux.Values && s.core.chans[t].closed;
    }
  }

  /** So with a reader on the connection, `Close` is safe whatever follows exactly when nothing is registered. */
  lemma CloseSafeIff(es: seq<Event>, r: nat)
    requires Legal(es) && OpenRun(es) && r < |Exec(es).readers| && Exec(es).readers[r].Reading?
    ensures (forall more: seq<Event> | Legal(es + [Close] + more) :: !Exec(es + [Close] + more).crashed)
            <==> Exec(es).core.demux == map[]
  {
    RunKeepsInv(es);
    if Exec(es).core.demux == map[] {
      forall more: seq<Event> | Legal(es + [Close] + more) ensures !Exec(es + [Close] + more).crashed {
        QuietAfterClose(es, more);
      }
    } else {
      hide Exec, Legal, OpenRun, Inv, Apply, Enabled;
      FailAllAfterClose(Exec(es), r);
      Extend(es, Close);
      Extend(es + [Close], ReadFails(r));
      Extend(es + [Close] + [ReadFails(r)], FailAll(r));
      var more := [ReadFails(r), FailAll(r)];
      assert es + [Close] + more == es + [Close] + [ReadFails(r)] + [FailAll(r)];
    }
  }

  // ---------- why the bound on ids ----------

  /** Registering keeps the invariant exactly when the id is free, which is what the bound buys. */
  lemma RegisterSafeIff(s: State, t: nat)
    requires Inv(s) && Enabled(s, Register(t))
    ensures Inv(Apply(s, Register(t))) <==> s.calls[t].id !in s.core.demux
    ensures Bounded(s) ==> s.calls[t].id !in s.core.demux
  {
    var id := s.calls[t].id;
    if id !in s.core.demux {
      RegisterKeepsInv(s, t);
    } else {
      var u, s' := s.core.demux[id], Apply(s, Register(t));
      assert EntryOk(s, id) && CallOk(s, u) && CallOk(s, t);
      assert !CallOk(s', u);
    }
    if Bounded(s) {
      IdFree(s, t);
    }
  }

  /** One call registers, writes and waits. */
  const ONE_WAITER: seq<Event> := [Issue, Register(0), PutOnWire(0), WriteReturns(0)]

  function Issues(n: nat): seq<Event> {
    seq(n, _ => Issue)
  }

  lemma Extend(es: seq<Event>, e: Event)
    requires Legal(es) && Enabled(Exec(es), e)
    ensures Legal(es + [e]) && Exec(es + [e]) == Apply(Exec(es), e)
    ensures OpenRun(es) && Bounded(Exec(es)) && !e.Close? ==> OpenRun(es + [e])
  {
    hide Enabled, Apply;
    assert (es + [e])[..|es|] == es;
  }

  lemma OneWaiterWaits()
    ensures Legal(ONE_WAITER) && OpenRun(ONE_WAITER)
    ensures Exec(ONE_WAITER) == State(Core(1, true, false, map[1 := 0], map[0 := FRESH]),
                                     [Call(1, Waiting, Pending)], [Reading], {0}, [], false)
  {
    hide Exec, Legal, OpenRun;
    NoEvents();
    var e1, e2, e3 := [Issue], [Issue, Register(0)], [Issue, Register(0), PutOnWire(0)];
    assert e1 == [] + [Issue] && e2 == e1 + [Register(0)] && e3 == e2 + [PutOnWire(0)];
    assert ONE_WAITER == e3 + [WriteReturns(0)];
    Extend([], Issue);
    Extend(e1, Register(0));
    Extend(e2, PutOnWire(0));
    Extend(e3, WriteReturns(0));
  }

  lemma NoEvents()
    ensures Legal([]) && Exec([]) == Init() && OpenRun([])
  {
  }

  lemma {:induction false} IssuesOnly(n: nat)
    ensures Legal(ONE_WAITER + Issues(n))
    ensures var s := Exec(ONE_WAITER + Issues(n));
            && s.core == Core(ToU32(1 + n), true, false, map[1 := 0], map[0 := FRESH])
            && |s.calls| == 1 + n && s.calls[0] == Call(1, Waiting, Pending)
            && s.readers == [Reading] && !s.crashed
            && (n > 0 ==> s.calls[n] == Call(ToU32(1 + n), Started, Pending))
  {
    hide Exec, Legal, OpenRun;
    OneWaiterWaits();
    if n == 0 {
      assert ONE_WAITER + Issues(0) == ONE_WAITER;
    } else {
      IssuesOnly(n - 1);
      Extend(ONE_WAITER + Issues(n - 1), Issue);
      assert ONE_WAITER + Issues(n - 1) + [Issue] == ONE_WAITER + Issues(n);
      Wrap(1, n);
    }
  }

  /** The bound is exact: the 2^32nd later id comes round, and its registration strands the waiter. */
  lemma WrapStrandsWaiter()
    ensures var es := ONE_WAITER + Issues(TWO_32) + [Register(TWO_32)];
            && Legal(es) && Waits(Exec(es).calls[0])
            && !InMap(Exec(es), 0) && !Held(Exec(es), 0) && !HasValue(Exec(es), 0)
  {
    hide Exec, Legal, OpenRun;
    IssuesOnly(TWO_32);
    Extend(ONE_WAITER + Issues(TWO_32), Register(TWO_32));
  }
}
