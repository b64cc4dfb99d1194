/**
 * The request demultiplexer of internal/client/handler.go: what its critical sections and channel operations do
 * to the handler, and the machine in which any number of calls and readers interleave them.
 */
module Demux {
  import opened GoBytes
  import opened Frame

  // ---------- the handler's shared state ----------

  /** A Go channel of capacity one; `sends` and `closes` count what was done to it. */
  datatype Chan = Chan(buf: seq<RawResult>, closed: bool, sends: nat, closes: nat)

  const FRESH := Chan([], false, 0, 0)
  const EMPTY := RawResult([], [])

  function Sent(ch: Chan, r: RawResult): Chan {
    ch.(buf := ch.buf + [r], sends := ch.sends + 1)
  }

  function Shut(ch: Chan): Chan {
    ch.(closed := true, closes := ch.closes + 1)
  }

  /** The fields of the handler. A channel is named by the ticket of the call that made it. */
  datatype Core = Core(nextID: u32, conn: bool, closed: bool, demux: map<u32, nat>, chans: map<nat, Chan>)

  function NewCore(): Core {
    Core(0, true, false, map[], map[])
  }

  function Increment(id: u32): u32 {
    ToU32(id + 1)
  }

  function Registration(c: Core, id: u32, t: nat): Core {
    c.(demux := c.demux[id := t], chans := c.chans[t := FRESH])
  }

  function Removal(c: Core, id: u32): Core {
    c.(demux := c.demux - {id})
  }

  function SendOn(c: Core, t: nat, r: RawResult): Core
    requires t in c.chans
  {
    c.(chans := c.chans[t := Sent(c.chans[t], r)])
  }

  function ShutOn(c: Core, t: nat): Core
    requires t in c.chans
  {
    c.(chans := c.chans[t := Shut(c.chans[t])])
  }

  function ReceiveOn(c: Core, t: nat): (Core, RawResult)
    requires t in c.chans
  {
    var ch := c.chans[t];
    if ch.buf == [] then (c, EMPTY) else (c.(chans := c.chans[t := ch.(buf := ch.buf[1..])]), ch.buf[0])
  }

  /** `failAll`: every registered channel gets the empty result and is closed, and the map is emptied. */
  function FailEntries(c: Core): Core {
    c.(demux := map[],
       chans := map t | t in c.chans ::
         if t in c.demux.Values then Shut(Sent(c.chans[t], EMPTY)) else c.chans[t])
  }

  /** `Close`: every registered channel is closed but stays registered. */
  function CloseEntries(c: Core): Core {
    c.(closed := true,
       chans := map t | t in c.chans :: if t in c.demux.Values then Shut(c.chans[t]) else c.chans[t])
  }

  // ---------- calls, readers and what remains of the world ----------

  /**
   * A frame a reader drained. The rest is history: the ticket of the request the server answered with it, the
   * reader that drained it, and its place among all drained frames.
   */
  datatype Reply = Reply(clrID: u32, result: RawResult, origin: nat, reader: nat, serial: nat)

  datatype Why = WriteError | Cancelled | TimedOut

  datatype Outcome = Got(result: RawResult) | Refused | DialError | Failed(why: Why)

  /** Where a call of `Execute` stands. */
  datatype Pc =
    | Started             // has its id, not yet under the lock
    | Healing             // found no connection
    | Healed              // reconnected, about to register without looking at `closed` again
    | Registered          // its channel is in the map
    | OnWire              // its bytes have left, the write has not returned
    | Waiting             // in the select
    | Cleaning(why: Why)
    | Reconnecting(why: Why)
    | Returned(out: Outcome)

  /** What has become of a call's registration; history only. */
  datatype Fate =
    | Pending
    | InHand(f: Reply)     // taken by the reader of f, not yet sent
    | Buffered(f: Reply)   // sent, not yet closed
    | Answered(f: Reply)   // sent and closed
    | FailedOver           // served the empty result by failAll
    | Abandoned            // removed by its own cleanup

  datatype Call = Call(id: u32, pc: Pc, fate: Fate)

  datatype Reader =
    | Reading
    | Decoded(f: Reply)
    | Sending(t: nat, f: Reply)
    | Closing(t: nat, f: Reply)
    | Failing
    | Stopped

  /** Ticket `t` belongs to the call `calls[t]`. `written` and `drained` are history. */
  datatype State = State(
    core: Core, calls: seq<Call>, readers: seq<Reader>,
    written: set<nat>, drained: seq<Reply>, crashed: bool)

  function Init(): State {
    State(NewCore(), [], [Reading], {}, [], false)
  }

  // ---------- steps ----------

  datatype Event =
    | Issue                            // handler.go:183
    | Register(t: nat)                 // 185-202
    | Heal(t: nat, dialed: bool)       // 194-196
    | RegisterHealed(t: nat)           // 197-202
    | PutOnWire(t: nat)                // 213, the bytes leave
    | WriteReturns(t: nat)             // 213, without an error
    | WriteFails(t: nat)               // 213, with an error
    | Receive(t: nat)                  // 221
    | Cancel(t: nat)                   // 223
    | Expire(t: nat)                   // 226
    | Cleanup(t: nat)                  // 233-237
    | Reconnect(t: nat, dialed: bool)  // 114-131, from 215 and 228
    | Drain(r: nat, clrID: u32, result: RawResult, origin: nat)  // 247-256
    | Take(r: nat)                     // 258-261
    | Send(r: nat)                     // 264
    | CloseChan(r: nat)                // 265
    | ReadFails(r: nat)                // 248
    | FailAll(r: nat)                  // 270-281
    | Quit(r: nat)                     // 242-243
    | Close                            // 156-173

  predicate AtPc(s: State, t: nat, pc: Pc) {
    t < |s.calls| && s.calls[t].pc == pc
  }

  predicate CanReceive(ch: Chan) {
    ch.buf != [] || ch.closed
  }

  /** A send goes ahead on a channel with room, and panics at once on a closed one; otherwise it blocks. */
  predicate CanSend(ch: Chan) {
    ch.closed || ch.buf == []
  }

  predicate Enabled(s: State, e: Event) {
    !s.crashed &&
    match e
    case Issue => true
    case Register(t) => AtPc(s, t, Started)
    case Heal(t, _) => AtPc(s, t, Healing)
    case RegisterHealed(t) => AtPc(s, t, Healed)
    case PutOnWire(t) => AtPc(s, t, Registered)
    case WriteReturns(t) => AtPc(s, t, OnWire)
    case WriteFails(t) => AtPc(s, t, Registered) || AtPc(s, t, OnWire)
    case Receive(t) => AtPc(s, t, Waiting) && t in s.core.chans && CanReceive(s.core.chans[t])
    case Cancel(t) => AtPc(s, t, Waiting)
    case Expire(t) => AtPc(s, t, Waiting)
    case Cleanup(t) => t < |s.calls| && s.calls[t].pc.Cleaning?
    case Reconnect(t, _) => t < |s.calls| && s.calls[t].pc.Reconnecting?
    case Drain(r, _, _, _) => r < |s.readers| && s.readers[r].Reading?
    case Take(r) => r < |s.readers| && s.readers[r].Decoded?
    case Send(r) => r < |s.readers| && s.readers[r].Sending? &&
                    s.readers[r].t < |s.calls| && s.readers[r].t in s.core.chans &&
                    CanSend(s.core.chans[s.readers[r].t])
    case CloseChan(r) => r < |s.readers| && s.readers[r].Closing? &&
                         s.readers[r].t < |s.calls| && s.readers[r].t in s.core.chans
    case ReadFails(r) => r < |s.readers| && s.readers[r].Reading?
    case FailAll(r) => r < |s.readers| && s.readers[r].Failing? &&
                       forall t | t in s.core.demux.Values && t in s.core.chans :: CanSend(s.core.chans[t])
    case Quit(r) => r < |s.readers| && s.readers[r].Reading?
    case Close => true
  }

  /** Closing or sending on an already closed channel panics. */
  predicate AnyClosed(c: Core) {
    exists t | t in c.demux.Values && t in c.chans :: c.chans[t].closed
  }

  function At(s: State, t: nat, pc: Pc): State
    requires t < |s.calls|
  {
    s.(calls := s.calls[t := s.calls[t].(pc := pc)])
  }

  function Mark(s: State, t: nat, fate: Fate): State
    requires t < |s.calls|
  {
    s.(calls := s.calls[t := s.calls[t].(fate := fate)])
  }

  function Now(s: State, r: nat, reader: Reader): State
    requires r < |s.readers|
  {
    s.(readers := s.readers[r := reader])
  }

  /** `reconnect`: a dial that fails leaves the old connection, closed but not nil, in place. */
  function Dial(s: State, dialed: bool): State {
    if dialed then s.(core := s.core.(conn := true), readers := s.readers + [Reading]) else s
  }

  function Apply(s: State, e: Event): State
    requires Enabled(s, e)
  {
    match e
    case Issue =>
      var id := Increment(s.core.nextID);
      s.(core := s.core.(nextID := id), calls := s.calls + [Call(id, Started, Pending)])
    case Register(t) =>
      if s.core.closed then At(s, t, Returned(Refused))
      else if !s.core.conn then At(s, t, Healing)
      else At(s.(core := Registration(s.core, s.calls[t].id, t)), t, Registered)
    case Heal(t, dialed) =>
      if dialed then At(Dial(s, true), t, Healed) else At(s, t, Returned(DialError))
    case RegisterHealed(t) =>
      At(s.(core := Registration(s.core, s.calls[t].id, t)), t, Registered)
    case PutOnWire(t) => At(s.(written := s.written + {t}), t, OnWire)
    case WriteReturns(t) => At(s, t, Waiting)
    case WriteFails(t) => At(s, t, Cleaning(WriteError))
    case Receive(t) =>
      var (core, result) := ReceiveOn(s.core, t);
      At(s.(core := core), t, Returned(Got(result)))
    case Cancel(t) => At(s, t, Cleaning(Cancelled))
    case Expire(t) => At(s, t, Cleaning(TimedOut))
    case Cleanup(t) =>
      var why := s.calls[t].pc.why;
      var s1 := s.(core := Removal(s.core, s.calls[t].id));
      var s2 := if s.calls[t].fate.Pending? then Mark(s1, t, Abandoned) else s1;
      At(s2, t, if why.Cancelled? then Returned(Failed(why)) else Reconnecting(why))
    case Reconnect(t, dialed) =>
      At(Dial(s, dialed), t, Returned(Failed(s.calls[t].pc.why)))
    case Drain(r, clrID, result, origin) =>
      var f := Reply(clrID, result, origin, r, |s.drained|);
      Now(s.(drained := s.drained + [f]), r, Decoded(f))
    case Take(r) =>
      var f := s.readers[r].f;
      var s1 := s.(core := Removal(s.core, f.clrID));
      if f.clrID in s.core.demux && s.core.demux[f.clrID] < |s.calls| then
        var t := s.core.demux[f.clrID];
        Now(Mark(s1, t, InHand(f)), r, Sending(t, f))
      else Now(s1, r, Reading)
    case Send(r) =>
      var Sending(t, f) := s.readers[r];
      if s.core.chans[t].closed then s.(crashed := true)
      else Now(Mark(s.(core := SendOn(s.core, t, f.result)), t, Buffered(f)), r, Closing(t, f))
    case CloseChan(r) =>
      var Closing(t, f) := s.readers[r];
      if s.core.chans[t].closed then s.(crashed := true)
      else Now(Mark(s.(core := ShutOn(s.core, t)), t, Answered(f)), r, Reading)
    case ReadFails(r) => Now(s, r, Failing)
    case FailAll(r) =>
      if AnyClosed(s.core) then s.(crashed := true)
      else
        Now(s.(core := FailEntries(s.core), calls := FailCalls(s.calls, s.core.demux.Values)), r, Stopped)
    case Quit(r) => Now(s, r, Stopped)
    case Close =>
      if s.core.closed then s
      else if AnyClosed(s.core) then s.(crashed := true)
      else s.(core := CloseEntries(s.core))
  }

  function FailCalls(calls: seq<Call>, failed: set<nat>): seq<Call> {
    seq(|calls|, t requires 0 <= t < |calls| =>
      if t in failed then calls[t].(fate := FailedOver) else calls[t])
  }

  // ---------- runs ----------

  /** The events of a run, each possible when it happens. */
  predicate Legal(es: seq<Event>)
    decreases |es|, 0
  {
    es == [] || (Legal(es[..|es| - 1]) && Enabled(Exec(es[..|es| - 1]), es[|es| - 1]))
  }

  /** The state a run ends in. */
  function Exec(es: seq<Event>): State
    requires Legal(es)
    decreases |es|, 1
  {
    if es == [] then Init() else Apply(Exec(es[..|es| - 1]), es[|es| - 1])
  }

  predicate Live(c: Call) {
    !c.pc.Returned?
  }

  /** Fewer than 2^32 ids have been issued since any call still under way took its own. */
  ghost predicate Bounded(s: State) {
    forall t | 0 <= t < |s.calls| && Live(s.calls[t]) :: |s.calls| - t <= TWO_32
  }

  /** A run up to `Close` in which no call is outlived by 2^32 later ids. */
  ghost predicate OpenRun(es: seq<Event>)
    requires Legal(es)
    decreases |es|
  {
    es == [] ||
    (OpenRun(es[..|es| - 1]) && Bounded(Exec(es[..|es| - 1])) && !es[|es| - 1].Close?)
  }
}
