/**
 * The handler as the object it is: its fields, each critical section as a method, and each channel as an object.
 * Every method is proved to do to the handler's state what the step machine's functions say.
 */
module Handler {
  import opened GoBytes
  import opened Frame
  import opened Demux
  import opened DemuxInvariant

  /** `chan protocol.RawResult` with capacity one. */
  class GoChan {
    ghost const ticket: nat  // the call that made it
    var buf: seq<RawResult>
    var closed: bool
    ghost var sends: nat
    ghost var closes: nat

    constructor (ghost ticket: nat)
      ensures this.ticket == ticket && Value() == FRESH
    {
      this.ticket := ticket;
      buf, closed := [], false;
      sends, closes := 0, 0;
    }

    ghost function Value(): Chan
      reads this
    {
      Chan(buf, closed, sends, closes)
    }

    /** `ch <- r`: panics on a closed channel and blocks on a full one. */
    method Send(r: RawResult)
      requires !closed && buf == []
      modifies this
      ensures Value() == Sent(old(Value()), r)
    {
      buf := buf + [r];
      sends := sends + 1;
    }

    /** `close(ch)`: panics on a closed channel. */
    method Close()
      requires !closed
      modifies this
      ensures Value() == Shut(old(Value()))
    {
      closed := true;
      closes := closes + 1;
    }

    /** `<-ch`: blocks on an open channel with nothing in it. */
    method Receive() returns (r: RawResult)
      requires CanReceive(Value())
      modifies this
      ensures old(buf) == [] ==> r == EMPTY && Value() == old(Value())
      ensures old(buf) != [] ==> r == old(buf)[0] && Value() == old(Value()).(buf := old(buf)[1..])
    {
      if buf == [] {
        r := RawResult([], []);
      } else {
        r := buf[0];
        buf := buf[1..];
      }
    }
  }

  /** `*net.TCPConn`, as far as the handler closes it. */
  class Conn {
    var open: bool

    constructor ()
      ensures open
    {
      open := true;
    }

    method Close()
      modifies this
      ensures !open
    {
      open := false;
    }
  }

  class Handler {
    var conn: Conn?
    var nextID: u32
    var closed: bool
    var cancelled: bool     // whether h.ctx is done
    var keepalive: bool     // whether h.keepaliveStop is there and open
    var demux: map<u32, GoChan>
    ghost var chans: map<nat, GoChan>  // every channel ever made, by ticket
    ghost var readLoops: nat           // how many read loops have been started

    ghost predicate Valid()
      reads this
    {
      && (forall t | t in chans :: chans[t].ticket == t)
      && (forall id | id in demux :: demux[id].ticket in chans && chans[demux[id].ticket] == demux[id])
    }

    /** The handler's state as the step machine sees it. */
    ghost function View(): Core
      requires Valid()
      reads this, chans.Values
    {
      Core(nextID, conn != null, closed, Tickets(), Values())
    }

    ghost function Tickets(): map<u32, nat>
      reads this
    {
      map id | id in demux :: demux[id].ticket
    }

    ghost function Values(): map<nat, Chan>
      reads this, chans.Values
    {
      map t | t in chans :: chans[t].Value()
    }

    /** A handler exists only once its first dial has succeeded; in cluster mode it keeps the connection alive. */
    constructor (dialed: Conn, cluster: bool)
      ensures Valid() && View() == NewCore()
      ensures conn == dialed && !cancelled && keepalive == cluster && readLoops == 1
    {
      conn, nextID, closed := dialed, 0, false;
      cancelled, keepalive, readLoops := false, cluster, 1;
      demux, chans := map[], map[];
    }

    /** `NextID`: an atomic increment that wraps at 2^32. */
    method NextID() returns (id: u32)
      requires Valid()
      modifies this`nextID
      ensures Valid() && id == Increment(old(nextID)) && View() == old(View()).(nextID := id)
    {
      nextID := (nextID + 1) % TWO_32;
      id := nextID;
    }

    /** The critical section of `Execute` that registers a call (handler.go:185-202); `t` is the call's ticket. */
    method Register(id: u32, ghost t: nat) returns (ch: GoChan?)
      requires Valid() && conn != null && t !in chans
      modifies this`demux, this`chans
      ensures Valid()
      ensures ch == null <==> closed
      ensures View() == if closed then old(View()) else Registration(old(View()), id, t)
      ensures ch != null ==> fresh(ch) && ch.Value() == FRESH && demux == old(demux)[id := ch]
    {
      if closed {
        return null;
      }
      ghost var before := View();
      var made := new GoChan(t);
      demux := demux[id := made];
      chans := chans[t := made];
      assert Tickets() == before.demux[id := t];
      assert Values() == before.chans[t := FRESH];
      return made;
    }

    method Cleanup(id: u32)
      requires Valid()
      modifies this`demux
      ensures Valid() && View() == Removal(old(View()), id)
    {
      demux := demux - {id};
    }

    /** The critical section of the read loop (handler.go:258-261). */
    method Take(id: u32) returns (ch: GoChan?)
      requires Valid()
      modifies this`demux
      ensures Valid() && View() == Removal(old(View()), id)
      ensures ch != null <==> id in old(demux)
      ensures ch != null ==> ch == old(demux)[id] && ch.ticket == old(View()).demux[id] && chans[ch.ticket] == ch
    {
      ch := if id in demux then demux[id] else null;
      demux := demux - {id};
    }

    /** What the read loop does with a channel it took, outside the lock (handler.go:263-266). */
    method Deliver(ch: GoChan, r: RawResult)
      requires Valid() && ch.ticket in chans && chans[ch.ticket] == ch
      requires ch.Value() == FRESH
      modifies ch
      ensures Valid() && View() == ShutOn(SendOn(old(View()), ch.ticket, r), ch.ticket)
    {
      ch.Send(r);
      ch.Close();
      OthersUnchanged(ch);
    }

    /** Channels are told apart by their tickets. */
    lemma OthersUnchanged(ch: GoChan)
      requires Valid() && ch.ticket in chans && chans[ch.ticket] == ch
      ensures forall t | t in chans && t != ch.ticket :: chans[t] != ch
    {
    }

    /** The receive of the select (handler.go:221). */
    method Await(ch: GoChan) returns (r: RawResult)
      requires Valid() && ch.ticket in chans && chans[ch.ticket] == ch
      requires CanReceive(ch.Value())
      modifies ch
      ensures Valid() && (View(), r) == ReceiveOn(old(View()), ch.ticket)
    {
      r := ch.Receive();
      OthersUnchanged(ch);
      assert View().chans == ReceiveOn(old(View()), ch.ticket).0.chans;
    }

    /** The channels registered under the ids in `ids`. */
    ghost function Channels(ids: set<u32>): set<GoChan>
      requires ids <= demux.Keys
      reads this
    {
      set id | id in ids :: demux[id]
    }

    ghost predicate OneEntryEach()
      reads this
    {
      forall i, j | i in demux && j in demux && i != j :: demux[i] != demux[j]
    }

    /**
     * Wherever the machine can stand before `Close`, the methods of its steps may be called: there is a connection,
     * a call about to register has no channel yet, a call that can receive has one it can receive from, no two
     * entries share a channel, every registered channel is open and empty, and so is every channel a reader is about
     * to send on.
     */
    lemma ReadyForEveryStep(s: State)
      requires Valid() && Inv(s) && View() == s.core
      ensures conn != null && OneEntryEach()
      ensures forall t: nat | AtPc(s, t, Started) :: t !in chans
      ensures forall t: nat | Enabled(s, Receive(t)) :: t in chans && CanReceive(chans[t].Value())
      ensures forall id | id in demux :: demux[id].Value() == FRESH
      ensures forall r | 0 <= r < |s.readers| && s.readers[r].Sending? ::
                s.readers[r].t in chans && chans[s.readers[r].t].Value() == FRESH
    {
      EntriesFresh(s);
      forall t: nat | AtPc(s, t, Started) ensures t !in chans {
        assert CallOk(s, t) && (t in chans <==> t in s.core.chans);
      }
      forall t: nat | Enabled(s, Receive(t)) ensures t in chans && CanReceive(chans[t].Value()) {
        assert t in s.core.chans && s.core.chans[t] == chans[t].Value();
      }
      forall id | id in demux
        ensures demux[id].Value() == FRESH
        ensures demux[id].ticket < |s.calls| && s.calls[demux[id].ticket].id == id
      {
        assert EntryOk(s, id) && s.core.demux[id] == demux[id].ticket;
        assert s.core.chans[demux[id].ticket] == FRESH;
      }
      forall r | 0 <= r < |s.readers| && s.readers[r].Sending?
        ensures s.readers[r].t in chans && chans[s.readers[r].t].Value() == FRESH
      {
        assert ReaderOk(s, r) && CallOk(s, s.readers[r].t);
        assert s.readers[r].t in s.core.chans && s.core.chans[s.readers[r].t] == FRESH;
      }
    }

    /** The first loop of `failAll` (handler.go:274-277). */
    method ServeEntries()
      requires OneEntryEach() && forall id | id in demux :: demux[id].Value() == FRESH
      modifies demux.Values
      ensures forall id | id in demux :: demux[id].Value() == Shut(Sent(FRESH, EMPTY))
    {
      var todo := demux.Keys;
      while todo != {}
        invariant todo <= demux.Keys
        invariant forall id | id in todo :: demux[id].Value() == FRESH
        invariant forall id | id in demux && id !in todo :: demux[id].Value() == Shut(Sent(FRESH, EMPTY))
      {
        var id :| id in todo;
        demux[id].Send(EMPTY);
        demux[id].Close();
        todo := todo - {id};
      }
    }

    /** The second loop of `failAll` (handler.go:278-280). */
    method ClearEntries()
      modifies this`demux
      ensures demux == map[]
    {
      while demux.Keys != {}
        decreases |demux.Keys|
      {
        var id :| id in demux.Keys;
        ghost var before := demux.Keys;
        demux := demux - {id};
        assert demux.Keys == before - {id};
      }
    }

    /** `failAll`: serve the empty result on every registered channel, close it, then empty the map. */
    method FailAll()
      requires Valid() && OneEntryEach()
      requires forall id | id in demux :: demux[id].Value() == FRESH
      modifies this`demux, demux.Values
      ensures Valid() && View() == FailEntries(old(View()))
    {
      EntriesByTicket();
      ghost var want := FailEntries(View()).chans;
      ServeEntries();
      ClearEntries();
      forall t | t in chans ensures chans[t].Value() == want[t] {
        if chans[t] in old(demux).Values {
          var id :| id in old(demux) && old(demux)[id] == chans[t];
        }
      }
      assert Values() == want && Tickets() == map[];
    }

    /** The tickets of the map's entries are those of its channels. */
    lemma EntriesByTicket()
      requires Valid()
      ensures forall t | t in chans :: chans[t] in demux.Values <==> t in Tickets().Values
    {
      forall t | t in chans ensures chans[t] in demux.Values <==> t in Tickets().Values {
        if chans[t] in demux.Values {
          var id :| id in demux && demux[id] == chans[t];
          assert Tickets()[id] == t;
        }
        if t in Tickets().Values {
          var id :| id in demux && demux[id].ticket == t;
          assert demux[id] == chans[t];
        }
      }
    }

    /** The loop of `Close` (handler.go:168-170). */
    method ShutEntries()
      requires OneEntryEach() && forall id | id in demux :: !demux[id].closed
      modifies demux.Values
      ensures forall id | id in demux :: demux[id].Value() == Shut(old(demux[id].Value()))
    {
      var todo := demux.Keys;
      while todo != {}
        invariant todo <= demux.Keys
        invariant forall id | id in todo :: demux[id].Value() == old(demux[id].Value())
        invariant forall id | id in demux && id !in todo :: demux[id].Value() == Shut(old(demux[id].Value()))
      {
        var id :| id in todo;
        demux[id].Close();
        todo := todo - {id};
      }
    }

    /** What that loop does to the handler's state. */
    method ShutRegistered()
      requires Valid() && OneEntryEach() && forall id | id in demux :: !demux[id].closed
      modifies demux.Values
      ensures Valid() && View() == CloseEntries(old(View())).(closed := closed)
    {
      EntriesByTicket();
      ghost var before := View();
      ghost var want := CloseEntries(before).chans;
      ShutEntries();
      forall t | t in chans ensures chans[t].Value() == want[t] {
        if chans[t] in demux.Values {
          var id :| id in demux && demux[id] == chans[t];
        }
      }
      assert Values() == want && Tickets() == before.demux;
    }

    /**
     * `Close`: once only, end the context, the keepalive loop and the connection, and close every registered channel
     * but leave it registered.
     */
    method Close()
      requires Valid() && OneEntryEach()
      requires !closed ==> conn != null && forall id | id in demux :: !demux[id].closed
      modifies this`closed, this`cancelled, this`keepalive, conn, demux.Values
      ensures Valid() && View() == if old(closed) then old(View()) else CloseEntries(old(View()))
      ensures !old(closed) ==> cancelled && !keepalive && !conn.open
      ensures old(closed) ==> cancelled == old(cancelled) && keepalive == old(keepalive)
      ensures old(closed) && conn != null ==> conn.open == old(conn.open)
    {
      if closed {
        return;
      }
      End();
      ghost var ended := View();
      ShutRegistered();
      EndedFirst(old(View()), ended);
    }

    /** It makes no difference to the entries that the handler counts as closed already. */
    lemma EndedFirst(before: Core, ended: Core)
      requires ended == before.(closed := true)
      ensures CloseEntries(ended) == CloseEntries(before)
    {
    }

    /** The first half of `Close` (handler.go:163-166). */
    method End()
      requires Valid() && conn != null
      modifies this`closed, this`cancelled, this`keepalive, conn
      ensures Valid() && View() == old(View()).(closed := true)
      ensures cancelled && !keepalive && !conn.open
    {
      closed := true;
      cancelled := true;
      StopKeepalive();
      conn.Close();
    }

    method StopKeepalive()
      modifies this`keepalive
      ensures !keepalive
    {
      if keepalive {
        keepalive := false;
      }
    }

    /** `reconnect`: the old connection is closed; a dial that fails leaves it in place, and it is never cleared. */
    method Reconnect(dialed: Conn?)
      requires Valid() && (dialed != null ==> dialed.open && dialed != conn)
      modifies this`conn, this`readLoops, conn
      ensures Valid() && View() == old(View()).(conn := old(conn) != null || dialed != null)
      ensures old(conn) != null ==> !old(conn).open
      ensures conn == (if dialed != null then dialed else old(conn)) && (dialed != null ==> conn.open)
      ensures readLoops == old(readLoops) + if dialed != null then 1 else 0
    {
      if conn != null {
        conn.Close();
      }
      if dialed == null {
        return;
      }
      conn := dialed;
      readLoops := readLoops + 1;
    }
  }
}
