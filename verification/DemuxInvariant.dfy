/** The inductive invariant of the demultiplexer, kept by every step of every caller and reader up to `Close`. */
module DemuxInvariant {
  import opened GoBytes
  import opened Frame
  import opened Demux

  function IdOf(t: nat): u32 {
    (t + 1) % TWO_32
  }

  /** What a receive already took out of the channel is the call's result; otherwise the value is still buffered. */
  predicate Holds(ch: Chan, pc: Pc, result: RawResult, shut: bool) {
    && ch.sends == 1 && ch.closed == shut && ch.closes == (if shut then 1 else 0)
    && if pc.Returned? && pc.out.Got? then ch.buf == [] && pc.out.result == result else ch.buf == [result]
  }

  predicate Untouched(ch: Chan, pc: Pc) {
    ch == FRESH && !(pc.Returned? && pc.out.Got?)
  }

  predicate Replies(s: State, c: Call, f: Reply) {
    f in s.drained && f.clrID == c.id
  }

  ghost predicate CallOk(s: State, t: nat)
    requires t < |s.calls|
  {
    var c := s.calls[t];
    && c.id == IdOf(t)
    && !c.pc.Healing? && !c.pc.Healed? && c.pc != Returned(Refused) && c.pc != Returned(DialError)
    && (c.pc.Started? <==> t !in s.core.chans)
    && (t in s.written ==> !c.pc.Started?)
    && (c.pc.OnWire? || c.pc.Waiting? ==> t in s.written)
    && if c.pc.Started? then c.fate.Pending? else
       var ch := s.core.chans[t];
       match c.fate
       case Pending => && c.id in s.core.demux && s.core.demux[c.id] == t && Untouched(ch, c.pc)
                       && !c.pc.Reconnecting? && !c.pc.Returned?
       case InHand(f) => && Replies(s, c, f) && Untouched(ch, c.pc)
                         && f.reader < |s.readers| && s.readers[f.reader] == Sending(t, f)
       case Buffered(f) => && Replies(s, c, f) && Holds(ch, c.pc, f.result, false)
                           && f.reader < |s.readers| && s.readers[f.reader] == Closing(t, f)
       case Answered(f) => Replies(s, c, f) && Holds(ch, c.pc, f.result, true)
       case FailedOver => Holds(ch, c.pc, EMPTY, true)
       case Abandoned => Untouched(ch, c.pc) && (c.pc.Reconnecting? || c.pc.Returned?)
  }

  predicate ReaderOk(s: State, r: nat)
    requires r < |s.readers|
  {
    match s.readers[r]
    case Decoded(f) => f in s.drained && f.reader == r
    case Sending(t, f) => f.reader == r && t < |s.calls| && s.calls[t].fate == InHand(f) && !s.calls[t].pc.Started?
    case Closing(t, f) => f.reader == r && t < |s.calls| && s.calls[t].fate == Buffered(f) && !s.calls[t].pc.Started?
    case _ => true
  }

  predicate EntryOk(s: State, id: u32)
    requires id in s.core.demux
  {
    var t := s.core.demux[id];
    t < |s.calls| && s.calls[t].id == id && s.calls[t].fate.Pending? && !s.calls[t].pc.Started?
  }

  ghost predicate Inv(s: State) {
    && !s.crashed && !s.core.closed && s.core.conn
    && s.core.nextID == |s.calls| % TWO_32
    && (forall t | t in s.core.chans || t in s.written :: t < |s.calls|)
    && (forall t | 0 <= t < |s.calls| :: CallOk(s, t))
    && (forall r | 0 <= r < |s.readers| :: ReaderOk(s, r))
    && (forall id | id in s.core.demux :: EntryOk(s, id))
  }

  /** Within the bound, two calls under way never share an id. */
  lemma IdsDiffer(s: State, t: nat, u: nat)
    requires Bounded(s) && t < |s.calls| && u < |s.calls| && t != u
    requires Live(s.calls[t]) && Live(s.calls[u])
    ensures IdOf(t) != IdOf(u)
  {
    if t < u { Gap(t + 1, u - t); } else { Gap(u + 1, t - u); }
  }

  lemma Gap(a: nat, d: nat)
    requires 0 < d < TWO_32
    ensures (a + d) % TWO_32 != a % TWO_32
  {
    assert (a + d) / TWO_32 == a / TWO_32 || (a + d) / TWO_32 == a / TWO_32 + 1;
  }

  /** Tickets less than 2^32 apart have one id only if they are one. */
  lemma SameId(t: nat, u: nat)
    requires IdOf(t) == IdOf(u) && t - u < TWO_32 && u - t < TWO_32
    ensures t == u
  {
    if t < u { Gap(t + 1, u - t); }
    if u < t { Gap(u + 1, t - u); }
  }

  /** Ids cannot clash: none has come round, or nothing is registered that one could clash with. */
  ghost predicate NoClash(s: State) {
    Bounded(s) || s.core.demux == map[]
  }

  /** A call about to register finds its id free. */
  lemma IdFree(s: State, t: nat)
    requires Inv(s) && NoClash(s) && AtPc(s, t, Started)
    ensures s.calls[t].id !in s.core.demux
  {
    var id := s.calls[t].id;
    assert CallOk(s, t);
    if id in s.core.demux {
      var u := s.core.demux[id];
      assert EntryOk(s, id) && CallOk(s, u);
      IdsDiffer(s, t, u);
    }
  }

  /** A call that is cleaning up finds its own entry under its id, or none. */
  lemma OwnEntry(s: State, t: nat)
    requires Inv(s) && NoClash(s) && t < |s.calls| && s.calls[t].pc.Cleaning?
    ensures s.calls[t].id in s.core.demux ==> s.core.demux[s.calls[t].id] == t && s.calls[t].fate.Pending?
  {
    var id := s.calls[t].id;
    assert CallOk(s, t);
    if id in s.core.demux {
      var u := s.core.demux[id];
      assert EntryOk(s, id) && CallOk(s, u);
      if u != t {
        IdsDiffer(s, t, u);
      }
    }
  }

  /** What a step that only moves call `t` from one place to another has to keep. */
  lemma MoveKeepsInv(s: State, t: nat, pc: Pc)
    requires Inv(s) && t < |s.calls| && !s.calls[t].pc.Started? && !s.calls[t].pc.Returned?
    requires pc.Waiting? || pc.Cleaning? || (pc.OnWire? && t in s.written)
    requires pc.Waiting? ==> t in s.written
    requires !s.calls[t].pc.Reconnecting?
    ensures Inv(At(s, t, pc))
  {
    var s' := At(s, t, pc);
    assert CallOk(s, t);
    assert CallOk(s', t);
    KeepOthers(s, s', t);
  }

  /** Calls other than `t`, all readers and all entries are untouched by a step that changes call `t` alone. */
  lemma KeepOthers(s: State, s': State, t: nat)
    requires Inv(s) && t < |s.calls| == |s'.calls|
    requires s'.core == s.core && s'.readers == s.readers && s'.drained == s.drained && s'.crashed == s.crashed
    requires s'.written == s.written || s'.written == s.written + {t}
    requires forall u | 0 <= u < |s.calls| && u != t :: s'.calls[u] == s.calls[u]
    requires s'.calls[t].fate == s.calls[t].fate && s'.calls[t].id == s.calls[t].id
    requires s'.calls[t].pc.Started? == s.calls[t].pc.Started?
    requires CallOk(s', t)
    ensures Inv(s')
  {
    forall u | 0 <= u < |s'.calls| ensures CallOk(s', u) { assert CallOk(s, u); }
    forall r | 0 <= r < |s'.readers| ensures ReaderOk(s', r) { assert ReaderOk(s, r); }
    forall id | id in s'.core.demux ensures EntryOk(s', id) { assert EntryOk(s, id); }
  }

  /** The self-heal branch is never entered: no call ever finds the handler without a connection. */
  lemma NeverHealing(s: State)
    requires Inv(s)
    ensures forall t | 0 <= t < |s.calls| :: !s.calls[t].pc.Healing? && !s.calls[t].pc.Healed?
  {
    forall t | 0 <= t < |s.calls| ensures !s.calls[t].pc.Healing? && !s.calls[t].pc.Healed? {
      assert CallOk(s, t);
    }
  }

  lemma IssueKeepsInv(s: State)
    requires Inv(s) && Enabled(s, Issue)
    ensures Inv(Apply(s, Issue))
  {
    var s' := Apply(s, Issue);
    forall t | 0 <= t < |s'.calls| ensures CallOk(s', t) {
      if t < |s.calls| { assert CallOk(s, t); }
    }
    forall r | 0 <= r < |s'.readers| ensures ReaderOk(s', r) { assert ReaderOk(s, r); }
    forall id | id in s'.core.demux ensures EntryOk(s', id) { assert EntryOk(s, id); }
  }

  lemma RegisterKeepsInv(s: State, t: nat)
    requires Inv(s) && Enabled(s, Register(t)) && s.calls[t].id !in s.core.demux
    ensures Inv(Apply(s, Register(t)))
  {
    var s' := Apply(s, Register(t));
    assert CallOk(s, t);
    forall u | 0 <= u < |s'.calls| ensures CallOk(s', u) { assert CallOk(s, u); }
    forall r | 0 <= r < |s'.readers| ensures ReaderOk(s', r) { assert ReaderOk(s, r); }
    forall id | id in s'.core.demux ensures EntryOk(s', id) {
      if id in s.core.demux { assert EntryOk(s, id); }
    }
  }

  lemma PutOnWireKeepsInv(s: State, t: nat)
    requires Inv(s) && Enabled(s, PutOnWire(t))
    ensures Inv(Apply(s, PutOnWire(t)))
  {
    var s' := Apply(s, PutOnWire(t));
    assert CallOk(s, t);
    assert CallOk(s', t);
    KeepOthers(s, s', t);
  }

  lemma ReceiveKeepsInv(s: State, t: nat)
    requires Inv(s) && Enabled(s, Receive(t))
    ensures Inv(Apply(s, Receive(t)))
  {
    var s' := Apply(s, Receive(t));
    assert CallOk(s, t);
    forall u | 0 <= u < |s'.calls| ensures CallOk(s', u) { assert CallOk(s, u); }
    forall r | 0 <= r < |s'.readers| ensures ReaderOk(s', r) { assert ReaderOk(s, r); }
    forall id | id in s'.core.demux ensures EntryOk(s', id) { assert EntryOk(s, id); }
  }

  lemma CleanupKeepsInv(s: State, t: nat)
    requires Inv(s) && NoClash(s) && Enabled(s, Cleanup(t))
    ensures Inv(Apply(s, Cleanup(t)))
  {
    var s' := Apply(s, Cleanup(t));
    OwnEntry(s, t);
    assert CallOk(s, t);
    forall u | 0 <= u < |s'.calls| ensures CallOk(s', u) { assert CallOk(s, u); }
    forall r | 0 <= r < |s'.readers| ensures ReaderOk(s', r) { assert ReaderOk(s, r); }
    forall id | id in s'.core.demux ensures EntryOk(s', id) { assert EntryOk(s, id); }
  }

  lemma ReconnectKeepsInv(s: State, t: nat, dialed: bool)
    requires Inv(s) && Enabled(s, Reconnect(t, dialed))
    ensures Inv(Apply(s, Reconnect(t, dialed)))
  {
    var s' := Apply(s, Reconnect(t, dialed));
    forall u | 0 <= u < |s'.calls| ensures CallOk(s', u) { assert CallOk(s, u); }
    forall r | 0 <= r < |s'.readers| ensures ReaderOk(s', r) { if r < |s.readers| { assert ReaderOk(s, r); } }
    forall id | id in s'.core.demux ensures EntryOk(s', id) { assert EntryOk(s, id); }
  }

  lemma DrainKeepsInv(s: State, r: nat, clrID: u32, result: RawResult, origin: nat)
    requires Inv(s) && Enabled(s, Drain(r, clrID, result, origin))
    ensures Inv(Apply(s, Drain(r, clrID, result, origin)))
  {
    var s' := Apply(s, Drain(r, clrID, result, origin));
    assert forall f | f in s.drained :: f in s'.drained;
    forall u | 0 <= u < |s'.calls| ensures CallOk(s', u) { assert CallOk(s, u); }
    forall q | 0 <= q < |s'.readers| ensures ReaderOk(s', q) { assert ReaderOk(s, q); }
    forall id | id in s'.core.demux ensures EntryOk(s', id) { assert EntryOk(s, id); }
  }

  lemma TakeKeepsInv(s: State, r: nat)
    requires Inv(s) && Enabled(s, Take(r))
    ensures Inv(Apply(s, Take(r)))
  {
    var s' := Apply(s, Take(r));
    var f := s.readers[r].f;
    assert ReaderOk(s, r);
    if f.clrID in s.core.demux {
      assert EntryOk(s, f.clrID) && CallOk(s, s.core.demux[f.clrID]);
    }
    forall u | 0 <= u < |s'.calls| ensures CallOk(s', u) { assert CallOk(s, u); }
    forall q | 0 <= q < |s'.readers| ensures ReaderOk(s', q) { assert ReaderOk(s, q); }
    forall id | id in s'.core.demux ensures EntryOk(s', id) { assert EntryOk(s, id); }
  }

  lemma SendKeepsInv(s: State, r: nat)
    requires Inv(s) && Enabled(s, Send(r))
    ensures Inv(Apply(s, Send(r)))
  {
    var s' := Apply(s, Send(r));
    assert ReaderOk(s, r) && CallOk(s, s.readers[r].t);
    forall u | 0 <= u < |s'.calls| ensures CallOk(s', u) { assert CallOk(s, u); }
    forall q | 0 <= q < |s'.readers| ensures ReaderOk(s', q) { assert ReaderOk(s, q); }
    forall id | id in s'.core.demux ensures EntryOk(s', id) { assert EntryOk(s, id); }
  }

  lemma CloseChanKeepsInv(s: State, r: nat)
    requires Inv(s) && Enabled(s, CloseChan(r))
    ensures Inv(Apply(s, CloseChan(r)))
  {
    var s' := Apply(s, CloseChan(r));
    assert ReaderOk(s, r) && CallOk(s, s.readers[r].t);
    forall u | 0 <= u < |s'.calls| ensures CallOk(s', u) { assert CallOk(s, u); }
    forall q | 0 <= q < |s'.readers| ensures ReaderOk(s', q) { assert ReaderOk(s, q); }
    forall id | id in s'.core.demux ensures EntryOk(s', id) { assert EntryOk(s, id); }
  }

  /** Every registered channel is open and empty, so `failAll` and `Close` neither block nor panic. */
  lemma EntriesFresh(s: State)
    requires Inv(s)
    ensures forall t | t in s.core.demux.Values :: t in s.core.chans && s.core.chans[t] == FRESH
    ensures !AnyClosed(s.core)
  {
    forall t | t in s.core.demux.Values ensures t in s.core.chans && s.core.chans[t] == FRESH {
      var id :| id in s.core.demux && s.core.demux[id] == t;
      assert EntryOk(s, id) && CallOk(s, t);
    }
  }

  lemma FailAllKeepsInv(s: State, r: nat)
    requires Inv(s) && Enabled(s, FailAll(r))
    ensures Inv(Apply(s, FailAll(r)))
  {
    EntriesFresh(s);
    var s' := Apply(s, FailAll(r));
    forall u | 0 <= u < |s'.calls| ensures CallOk(s', u) {
      assert CallOk(s, u);
      if u in s.core.demux.Values {
        var id :| id in s.core.demux && s.core.demux[id] == u;
        assert EntryOk(s, id);
      }
    }
    forall q | 0 <= q < |s'.readers| ensures ReaderOk(s', q) {
      assert ReaderOk(s, q);
      match s.readers[q] {
        case Sending(t, _) => NotAnEntry(s, t);
        case Closing(t, _) => NotAnEntry(s, t);
        case _ =>
      }
    }
  }

  lemma NotAnEntry(s: State, t: nat)
    requires Inv(s) && t < |s.calls| && !s.calls[t].fate.Pending?
    ensures t !in s.core.demux.Values
  {
    forall id | id in s.core.demux ensures s.core.demux[id] != t { assert EntryOk(s, id); }
  }

  lemma ReaderMoveKeepsInv(s: State, r: nat, reader: Reader)
    requires Inv(s) && r < |s.readers| && s.readers[r].Reading?
    requires reader.Failing? || reader.Stopped?
    ensures Inv(Now(s, r, reader))
  {
    var s' := Now(s, r, reader);
    forall u | 0 <= u < |s'.calls| ensures CallOk(s', u) { assert CallOk(s, u); }
    forall q | 0 <= q < |s'.readers| ensures ReaderOk(s', q) { assert ReaderOk(s, q); }
    forall id | id in s'.core.demux ensures EntryOk(s', id) { assert EntryOk(s, id); }
  }

  /** Every step but `Close` keeps the invariant, whoever takes it. */
  lemma StepKeepsInv(s: State, e: Event)
    requires Inv(s) && NoClash(s) && Enabled(s, e) && !e.Close?
    ensures Inv(Apply(s, e))
  {
    NeverHealing(s);
    match e
    case Issue => IssueKeepsInv(s);
    case Register(t) => IdFree(s, t); RegisterKeepsInv(s, t);
    case Heal(t, _) =>
    case RegisterHealed(t) =>
    case PutOnWire(t) => PutOnWireKeepsInv(s, t);
    case WriteReturns(t) => assert CallOk(s, t); MoveKeepsInv(s, t, Waiting);
    case WriteFails(t) => MoveKeepsInv(s, t, Cleaning(WriteError));
    case Receive(t) => ReceiveKeepsInv(s, t);
    case Cancel(t) => MoveKeepsInv(s, t, Cleaning(Cancelled));
    case Expire(t) => MoveKeepsInv(s, t, Cleaning(TimedOut));
    case Cleanup(t) => CleanupKeepsInv(s, t);
    case Reconnect(t, dialed) => ReconnectKeepsInv(s, t, dialed);
    case Drain(r, clrID, result, origin) => DrainKeepsInv(s, r, clrID, result, origin);
    case Take(r) => TakeKeepsInv(s, r);
    case Send(r) => SendKeepsInv(s, r);
    case CloseChan(r) => CloseChanKeepsInv(s, r);
    case ReadFails(r) => ReaderMoveKeepsInv(s, r, Failing);
    case FailAll(r) => FailAllKeepsInv(s, r);
    case Quit(r) => ReaderMoveKeepsInv(s, r, Stopped);
  }

  /** The invariant holds wherever a run up to `Close` ends. */
  lemma {:induction false} RunKeepsInv(es: seq<Event>)
    requires Legal(es) && OpenRun(es)
    ensures Inv(Exec(es))
    decreases |es|
  {
    if es != [] {
      var before := es[..|es| - 1];
      RunKeepsInv(before);
      StepKeepsInv(Exec(before), es[|es| - 1]);
    }
  }
}
