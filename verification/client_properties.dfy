/**
 * What every interleaving of worker steps keeps true: the slot table is never
 * overrun, no slot id is issued twice, every aggregate counter is the sum of
 * the per-slot ones, and a slot never records more replies than packets.
 */
module ClientProperties {
  import opened Wrappers
  import opened Slots
  import opened Client
  import Time
  import Backoff
  import Address
  import Bytes
  import Hostname

  /** The slot ids the workers currently own. */
  function ActiveIds(ws: seq<Phase>): set<nat>
  {
    set w | 0 <= w < |ws| && Active(ws[w]) :: ws[w].id
  }

  /** No two workers own the same slot. */
  ghost predicate DistinctOwners(ws: seq<Phase>)
  {
    forall v, w :: 0 <= v < |ws| && 0 <= w < |ws| && v != w && Active(ws[v]) && Active(ws[w]) ==>
      ws[v].id != ws[w].id
  }

  /** Worker `w` has sent on its slot and waits for the reply. */
  predicate AwaitingOn(s: State, w: int)
  {
    0 <= w < |s.workers| && s.workers[w].Running? && s.workers[w].awaitingReply &&
    s.workers[w].id < |s.table|
  }

  ghost predicate Shaped(c: Config, s: State)
  {
    && |s.table| == Capacity(c)
    && |s.workers| == c.nconn
    && (s.fatal.None? ==> s.cursor <= |s.table|)
  }

  /** Slots never issued are untouched. */
  ghost predicate Untouched(s: State)
  {
    forall i :: s.cursor <= i < |s.table| ==> s.table[i] == Unused
  }

  /** Issued slots carry their id and their start time. */
  ghost predicate Issued(s: State)
  {
    forall i :: 0 <= i < |s.table| && i < s.cursor ==> s.table[i].id == i && s.table[i].started.At?
  }

  /** A worker owns an issued slot that has not ended. */
  ghost predicate Owned(s: State)
  {
    forall w :: 0 <= w < |s.workers| && Active(s.workers[w]) ==>
      s.workers[w].id < s.cursor && s.workers[w].id < |s.table| &&
      s.table[s.workers[w].id].ended == Zero
  }

  /** Every aggregate packet counter is the sum of the per-slot counters. */
  ghost predicate Balanced(s: State)
  {
    forall k :: Total(s.totals, k) == Sum(s.table, k)
  }

  /** No slot has more replies than packets sent, and one that waits for a
      reply has strictly more packets. */
  ghost predicate Causal(s: State)
  {
    && (forall i :: 0 <= i < |s.table| ==> s.table[i].received <= s.table[i].sent)
    && (forall w :: AwaitingOn(s, w) ==>
          s.table[s.workers[w].id].received < s.table[s.workers[w].id].sent)
  }

  ghost predicate BackoffsValid(s: State)
  {
    forall w :: 0 <= w < |s.workers| && s.workers[w].Connecting? ==> Backoff.Valid(s.workers[w].backoff)
  }

  /** While the run is alive, an issued slot without an end stamp is owned. */
  ghost predicate Accounted(s: State)
  {
    s.fatal.None? ==>
      forall i :: 0 <= i < s.cursor && i < |s.table| && s.table[i].ended == Zero ==> i in ActiveIds(s.workers)
  }

  ghost predicate Inv(c: Config, s: State)
  {
    && Shaped(c, s)
    && Untouched(s)
    && Issued(s)
    && Owned(s)
    && DistinctOwners(s.workers)
    && Balanced(s)
    && Causal(s)
    && BackoffsValid(s)
    && Accounted(s)
  }

  lemma ActiveIdsUpdate(ws: seq<Phase>, w: nat, p: Phase, i: nat)
    requires w < |ws|
    requires DistinctOwners(ws)
    ensures i in ActiveIds(ws[w := p]) <==>
              (i in ActiveIds(ws) && !(Active(ws[w]) && ws[w].id == i)) || (Active(p) && p.id == i)
  {
    var ws' := ws[w := p];
    if i in ActiveIds(ws') {
      var v :| 0 <= v < |ws'| && Active(ws'[v]) && ws'[v].id == i;
      if v != w {
        assert i in ActiveIds(ws);
      }
    }
    if i in ActiveIds(ws) && !(Active(ws[w]) && ws[w].id == i) {
      var v :| 0 <= v < |ws| && Active(ws[v]) && ws[v].id == i;
      assert v != w && ws'[v] == ws[v];
      assert i in ActiveIds(ws');
    }
    if Active(p) && p.id == i {
      assert ws'[w] == p;
      assert i in ActiveIds(ws');
    }
  }

  /** Replacing a slot whose packet counters stay equal keeps every sum. */
  lemma SumsAfterUpdate(table: seq<Slot>, id: nat, x: Slot)
    requires id < |table|
    ensures forall k :: Sum(table[id := x], k) + Of(table[id], k) == Sum(table, k) + Of(x, k)
  {
    forall k ensures Sum(table[id := x], k) + Of(table[id], k) == Sum(table, k) + Of(x, k) {
      SumUpdate(table, id, x, k);
    }
  }

  lemma InitInv(c: Config)
    ensures Inv(c, Init(c))
  {
    var s := Init(c);
    forall k ensures Total(s.totals, k) == Sum(s.table, k) {
      SumOfUnused(s.table, k);
    }
  }

  /** Worker `w` claims the next slot, which is still within the table. */
  lemma ClaimInv(c: Config, s: State, w: nat, now: int, f: Option<Fatal>, connect: bool)
    requires Inv(c, s) && s.fatal.None?
    requires w < |s.workers| && s.workers[w] == Idle && s.cursor < |s.table|
    requires connect <==> f.None?
    ensures var id := s.cursor;
            var claimed := s.(cursor := id + 1,
                              table := s.table[id := s.table[id].(id := id, started := At(now))]);
            Inv(c, if connect then WithWorker(claimed, w, Connecting(id, Backoff.InitialBackoff))
                   else claimed.(fatal := f))
  {
    if connect {
      ClaimConnectInv(c, s, w, now);
    } else {
      ClaimFatalInv(c, s, now, f.value);
    }
  }

  /** A claim that goes on to connect: the new slot is owned by `w`. */
  lemma ClaimConnectInv(c: Config, s: State, w: nat, now: int)
    requires Inv(c, s) && s.fatal.None?
    requires w < |s.workers| && s.workers[w] == Idle && s.cursor < |s.table|
    ensures var id := s.cursor;
            var claimed := s.(cursor := id + 1,
                              table := s.table[id := s.table[id].(id := id, started := At(now))]);
            Inv(c, WithWorker(claimed, w, Connecting(id, Backoff.InitialBackoff)))
  {
    var id := s.cursor;
    var slot := s.table[id].(id := id, started := At(now));
    var claimed := s.(cursor := id + 1, table := s.table[id := slot]);
    ClaimTable(s, now);
    var p := Connecting(id, Backoff.InitialBackoff);
    var s' := WithWorker(claimed, w, p);
    forall i | 0 <= i < s'.cursor && i < |s'.table| && s'.table[i].ended == Zero
      ensures i in ActiveIds(s'.workers)
    {
      ActiveIdsUpdate(s.workers, w, p, i);
    }
    assert Shaped(c, s');
    assert Owned(s');
    assert DistinctOwners(s'.workers);
    assert Causal(s');
    assert BackoffsValid(s');
    assert Accounted(s');
  }

  /** Claiming the next slot stamps only that slot and keeps the table's
      invariants. */
  lemma ClaimTable(s: State, now: int)
    requires Untouched(s) && Issued(s) && Balanced(s) && Causal(s) && s.cursor < |s.table|
    ensures var id := s.cursor;
            var claimed := s.(cursor := id + 1,
                              table := s.table[id := s.table[id].(id := id, started := At(now))]);
            && Untouched(claimed) && Issued(claimed) && Balanced(claimed)
            && forall i :: 0 <= i < |claimed.table| ==> claimed.table[i].received <= claimed.table[i].sent
  {
    var id := s.cursor;
    var slot := s.table[id].(id := id, started := At(now));
    var claimed := s.(cursor := id + 1, table := s.table[id := slot]);
    SumsAfterUpdate(s.table, id, slot);
    assert forall k :: Of(slot, k) == Of(s.table[id], k) == 0;
    assert Untouched(claimed);
    assert Issued(claimed);
  }

  /** A claim that ends the run: the invariant holds of the halted state. */
  lemma ClaimFatalInv(c: Config, s: State, now: int, f: Fatal)
    requires Inv(c, s) && s.fatal.None? && s.cursor < |s.table|
    ensures var id := s.cursor;
            var claimed := s.(cursor := id + 1,
                              table := s.table[id := s.table[id].(id := id, started := At(now))]);
            Inv(c, claimed.(fatal := Some(f)))
  {
    var id := s.cursor;
    var slot := s.table[id].(id := id, started := At(now));
    var claimed := s.(cursor := id + 1, table := s.table[id := slot]);
    ClaimTable(s, now);
    var s' := claimed.(fatal := Some(f));
    assert Shaped(c, s');
    assert Owned(s');
    assert DistinctOwners(s'.workers);
    assert Causal(s');
    assert BackoffsValid(s');
  }

  /** Worker `w` moves to a phase that owns nothing, leaving the rest alone. */
  lemma ReleaseInv(c: Config, s: State, w: nat, p: Phase)
    requires Inv(c, s) && w < |s.workers| && !Active(s.workers[w]) && !Active(p)
    ensures Inv(c, WithWorker(s, w, p))
  {
    var s' := WithWorker(s, w, p);
    forall i | 0 <= i < s'.cursor && i < |s'.table| && s'.table[i].ended == Zero && s'.fatal.None?
      ensures i in ActiveIds(s'.workers)
    {
      ActiveIdsUpdate(s.workers, w, p, i);
    }
    assert Owned(s');
    assert DistinctOwners(s'.workers);
    assert Causal(s');
    assert BackoffsValid(s');
    assert Accounted(s');
  }

  lemma BeginInv(c: Config, s: State, w: nat, now: int, resolves: bool)
    requires Inv(c, s) && s.fatal.None?
    requires w < |s.workers| && s.workers[w] == Idle
    ensures Inv(c, BeginStep(c, s, w, now, resolves))
  {
    var id := s.cursor;
    if Deadline(c) - now < Margin(c) {
      ReleaseInv(c, s, w, Done);
    } else if id < |s.table| {
      var claimed := s.(cursor := id + 1,
                        table := s.table[id := s.table[id].(id := id, started := At(now))]);
      var connecting := WithWorker(claimed, w, Connecting(id, Backoff.InitialBackoff));
      var unsupported := c.transport == Tcp && c.ctype != "echo";
      var f := if unsupported then Some(UnsupportedClient(c.ctype)) else None;
      var ready := if unsupported then claimed.(fatal := f) else connecting;
      match c.pool
      case None =>
        ClaimInv(c, s, w, now, f, !unsupported);
        assert BeginStep(c, s, w, now, resolves) == ready;
      case Some(lines) =>
        var a := Address.Lookup(lines, id);
        if a == "" {
          ClaimInv(c, s, w, now, Some(OutOfSourceAddresses), false);
          assert BeginStep(c, s, w, now, resolves) == claimed.(fatal := Some(OutOfSourceAddresses));
        } else if !resolves {
          var f := Some(BadSourceAddress(Address.WithPort(a)));
          ClaimInv(c, s, w, now, f, false);
          assert BeginStep(c, s, w, now, resolves) == claimed.(fatal := f);
        } else {
          ClaimInv(c, s, w, now, f, !unsupported);
          assert BeginStep(c, s, w, now, resolves) == ready;
        }
    } else {
      var s' := BeginStep(c, s, w, now, resolves);
      assert s' == s.(cursor := id + 1, fatal := Some(TooManyReconnects(id)));
      assert Untouched(s');
      assert Issued(s');
      assert Owned(s');
    }
  }

  /** Worker `w` rewrites the slot it owns and moves to phase `p`; the
      caller's conditions say what the new slot and phase keep. */
  lemma OwnedUpdateInv(c: Config, s: State, w: nat, x: Slot, p: Phase, t: Totals)
    requires Inv(c, s) && s.fatal.None?
    requires w < |s.workers| && Active(s.workers[w])
    requires var id := s.workers[w].id;
             && x.id == s.table[id].id && x.started == s.table[id].started
             && x.received <= x.sent
             && (Active(p) ==> p.id == id && x.ended == Zero)
             && (!Active(p) ==> x.ended != Zero)
             && (p.Running? && p.awaitingReply ==> x.received < x.sent)
             && (p.Connecting? ==> Backoff.Valid(p.backoff))
             && forall k :: Total(t, k) + Of(s.table[id], k) == Total(s.totals, k) + Of(x, k)
    ensures var id := s.workers[w].id;
            Inv(c, s.(table := s.table[id := x], totals := t, workers := s.workers[w := p]))
  {
    var id := s.workers[w].id;
    var s' := s.(table := s.table[id := x], totals := t, workers := s.workers[w := p]);
    OwnedTable(s, id, x, t);
    OwnedAccounted(s, w, x, p);
    assert Accounted(s'.(totals := s.totals));
    assert Shaped(c, s');
    assert Owned(s');
    assert DistinctOwners(s'.workers);
    assert Causal(s');
    assert BackoffsValid(s');
    assert Accounted(s');
  }

  /** A worker that keeps its slot, or ends it as it lets go, leaves every
      open slot owned. */
  lemma OwnedAccounted(s: State, w: nat, x: Slot, p: Phase)
    requires Accounted(s) && DistinctOwners(s.workers) && s.fatal.None?
    requires w < |s.workers| && Active(s.workers[w]) && s.workers[w].id < |s.table|
    requires Active(p) ==> p.id == s.workers[w].id
    requires !Active(p) ==> x.ended != Zero
    ensures Accounted(s.(table := s.table[s.workers[w].id := x], workers := s.workers[w := p]))
  {
    var id := s.workers[w].id;
    var s' := s.(table := s.table[id := x], workers := s.workers[w := p]);
    forall i | 0 <= i < s'.cursor && i < |s'.table| && s'.table[i].ended == Zero
      ensures i in ActiveIds(s'.workers)
    {
      ActiveIdsUpdate(s.workers, w, p, i);
      if i != id {
        assert s.table[i] == s'.table[i];
        assert i in ActiveIds(s.workers);
      }
    }
  }

  /** Rewriting an issued slot, keeping its id and start and moving the totals
      by the slot's change, keeps the table's invariants. */
  lemma OwnedTable(s: State, id: nat, x: Slot, t: Totals)
    requires Untouched(s) && Issued(s) && Balanced(s) && Causal(s)
    requires id < s.cursor && id < |s.table|
    requires x.id == s.table[id].id && x.started == s.table[id].started && x.received <= x.sent
    requires forall k :: Total(t, k) + Of(s.table[id], k) == Total(s.totals, k) + Of(x, k)
    ensures var s' := s.(table := s.table[id := x], totals := t);
            && Untouched(s') && Issued(s') && Balanced(s')
            && forall i :: 0 <= i < |s'.table| ==> s'.table[i].received <= s'.table[i].sent
  {
    var s' := s.(table := s.table[id := x], totals := t);
    SumsAfterUpdate(s.table, id, x);
    assert Untouched(s');
    assert Issued(s');
    assert Balanced(s');
  }

  lemma DialedInv(c: Config, s: State, w: nat, id: nat, b: int, now: int, local: string, remote: string)
    requires Inv(c, s) && s.fatal.None? && w < |s.workers| && s.workers[w] == Connecting(id, b)
    ensures Inv(c, Step(c, s, w, Dialed(now, local, remote)))
  {
    var x := s.table[id].(connected := At(now), local := local, remote := remote);
    OwnedUpdateInv(c, s, w, x, Running(id, false), s.totals);
    assert Step(c, s, w, Dialed(now, local, remote))
        == s.(table := s.table[id := x], workers := s.workers[w := Running(id, false)]);
  }

  lemma DialErrorInv(c: Config, s: State, w: nat, id: nat, b: int, now: int, cancelled: bool, dest: bool)
    requires Inv(c, s) && s.fatal.None? && w < |s.workers| && s.workers[w] == Connecting(id, b)
    ensures Inv(c, Step(c, s, w, DialError(now, cancelled, dest)))
  {
    var s' := Step(c, s, w, DialError(now, cancelled, dest));
    var t := s.totals;
    if c.transport == Tcp {
      var x := s.table[id].(ended := At(Deadline(c)));
      if cancelled {
        var t' := t.(failedConnects := t.failedConnects + 1);
        OwnedUpdateInv(c, s, w, x, Done, t');
        assert s' == s.(table := s.table[id := x], totals := t', workers := s.workers[w := Done]);
      } else if Deadline(c) - now < 2 * Time.Second {
        OwnedUpdateInv(c, s, w, x, Done, t);
        assert s' == s.(table := s.table[id := x], workers := s.workers[w := Done]);
      } else {
        var t' := t.(failedConnects := t.failedConnects + 1);
        var p := Connecting(id, Backoff.Next(b));
        Backoff.NextValid(b);
        OwnedUpdateInv(c, s, w, s.table[id], p, t');
        assert s.table[id := s.table[id]] == s.table;
        assert s' == s.(totals := t', workers := s.workers[w := p]);
      }
    } else {
      assert s' == s.(fatal := Some(if dest then DialFailed else BadDestination));
    }
  }

  lemma SentInv(c: Config, s: State, w: nat, id: nat, drops: nat)
    requires Inv(c, s) && s.fatal.None? && w < |s.workers| && s.workers[w] == Running(id, false)
    ensures Inv(c, Step(c, s, w, Sent(drops)))
  {
    var slot := s.table[id];
    var t := s.totals;
    var x := slot.(sent := slot.sent + 1, dropped := slot.dropped + drops);
    var t' := t.(sent := t.sent + 1, dropped := t.dropped + drops);
    OwnedUpdateInv(c, s, w, x, Running(id, true), t');
    assert Step(c, s, w, Sent(drops))
        == s.(table := s.table[id := x], totals := t', workers := s.workers[w := Running(id, true)]);
  }

  lemma ReceivedInv(c: Config, s: State, w: nat, id: nat, packet: seq<Bytes.byte>)
    requires Inv(c, s) && s.fatal.None? && w < |s.workers| && s.workers[w] == Running(id, true)
    ensures Inv(c, Step(c, s, w, Received(packet)))
  {
    var slot := s.table[id];
    var t := s.totals;
    var host := if slot.received == 0 then Hostname.ExtractHost(packet, slot.host) else slot.host;
    var x := slot.(received := slot.received + 1, host := host);
    var t' := t.(received := t.received + 1);
    assert AwaitingOn(s, w);
    OwnedUpdateInv(c, s, w, x, Running(id, false), t');
    assert Step(c, s, w, Received(packet))
        == s.(table := s.table[id := x], totals := t', workers := s.workers[w := Running(id, false)]);
  }

  lemma ReadLostInv(c: Config, s: State, w: nat, id: nat)
    requires Inv(c, s) && s.fatal.None? && w < |s.workers| && s.workers[w] == Running(id, true)
    ensures Inv(c, Step(c, s, w, ReadLost))
  {
    if c.transport == Udp {
      OwnedUpdateInv(c, s, w, s.table[id], Running(id, false), s.totals);
      assert s.table[id := s.table[id]] == s.table;
      assert Step(c, s, w, ReadLost) == s.(workers := s.workers[w := Running(id, false)]);
    }
  }

  lemma ReturnedInv(c: Config, s: State, w: nat, id: nat, awaiting: bool, err: Option<string>, now: int)
    requires Inv(c, s) && s.fatal.None? && w < |s.workers| && s.workers[w] == Running(id, awaiting)
    ensures Inv(c, Step(c, s, w, Returned(err, now)))
  {
    var s' := Step(c, s, w, Returned(err, now));
    var t := s.totals;
    if !(awaiting && err.None?) {
      if err.None? {
        var x := s.table[id].(err := None, ended := At(Deadline(c)));
        OwnedUpdateInv(c, s, w, x, Done, t);
        assert s' == s.(table := s.table[id := x], workers := s.workers[w := Done]);
      } else {
        var x := s.table[id].(err := err, ended := At(now));
        match c.transport
        case Udp =>
          OwnedUpdateInv(c, s, w, x, Idle, t);
          assert s' == s.(table := s.table[id := x], workers := s.workers[w := Idle]);
        case Tcp =>
          var p := if c.reconnect then Idle else Done;
          var t' := t.(failedConnections := t.failedConnections + 1);
          OwnedUpdateInv(c, s, w, x, p, t');
          assert s' == s.(table := s.table[id := x], totals := t', workers := s.workers[w := p]);
      }
    }
  }

  /** Every step keeps the invariant. */
  lemma StepInv(c: Config, s: State, w: nat, e: Event)
    requires Inv(c, s) && w < |s.workers|
    ensures Inv(c, Step(c, s, w, e))
  {
    if s.fatal.None? {
      match (s.workers[w], e)
      case (Idle, Begin(now, resolves)) => BeginInv(c, s, w, now, resolves);
      case (Connecting(id, b), Dialed(now, local, remote)) => DialedInv(c, s, w, id, b, now, local, remote);
      case (Connecting(id, b), DialError(now, cancelled, dest)) => DialErrorInv(c, s, w, id, b, now, cancelled, dest);
      case (Running(id, false), Sent(drops)) => SentInv(c, s, w, id, drops);
      case (Running(id, true), Received(packet)) => ReceivedInv(c, s, w, id, packet);
      case (Running(id, true), ReadLost) => ReadLostInv(c, s, w, id);
      case (Running(id, awaiting), Returned(err, now)) => ReturnedInv(c, s, w, id, awaiting, err, now);
      case _ =>
    }
  }

  /** One scheduling decision: worker `worker` takes a step on `event`. */
  datatype Move = Move(worker: nat, event: Event)

  /** Any interleaving of worker steps; a move naming no worker is skipped. */
  function Execute(c: Config, s: State, moves: seq<Move>): (s': State)
    ensures |s'.table| == |s.table| && |s'.workers| == |s.workers|
    ensures s'.cursor >= s.cursor
    decreases |moves|
  {
    if |moves| == 0 then s
    else
      var m := moves[0];
      var next := if m.worker < |s.workers| then Step(c, s, m.worker, m.event) else s;
      Execute(c, next, moves[1..])
  }

  lemma {:induction false} ExecuteInv(c: Config, s: State, moves: seq<Move>)
    requires Inv(c, s)
    ensures Inv(c, Execute(c, s, moves))
    decreases |moves|
  {
    if |moves| > 0 {
      var m := moves[0];
      if m.worker < |s.workers| {
        StepInv(c, s, m.worker, m.event);
        ExecuteInv(c, Step(c, s, m.worker, m.event), moves[1..]);
      } else {
        ExecuteInv(c, s, moves[1..]);
      }
    }
  }

  /** Whatever the interleaving: the table is never overrun while the run is
      alive, slots past the cursor are never touched, the aggregate counters
      are the per-slot sums, and no slot has more replies than packets. */
  lemma RunAccounting(c: Config, moves: seq<Move>)
    ensures var s := Execute(c, Init(c), moves);
            && |s.table| == Capacity(c)
            && (s.fatal.None? ==> s.cursor <= Capacity(c))
            && (forall i :: s.cursor <= i < |s.table| ==> s.table[i] == Unused)
            && s.totals.sent == Sum(s.table, SentPackets)
            && s.totals.received == Sum(s.table, ReceivedPackets)
            && s.totals.dropped == Sum(s.table, DroppedPackets)
            && (forall i :: 0 <= i < |s.table| ==> s.table[i].received <= s.table[i].sent)
  {
    InitInv(c);
    ExecuteInv(c, Init(c), moves);
    var s := Execute(c, Init(c), moves);
    assert Balanced(s) && Causal(s);
    assert Total(s.totals, SentPackets) == Sum(s.table, SentPackets);
    assert Total(s.totals, ReceivedPackets) == Sum(s.table, ReceivedPackets);
    assert Total(s.totals, DroppedPackets) == Sum(s.table, DroppedPackets);
  }

  /** No counter ever decreases, on the aggregate or on any slot. */
  ghost predicate Grows(s: State, s': State)
  {
    && |s'.table| == |s.table|
    && s'.cursor >= s.cursor
    && s'.totals.sent >= s.totals.sent
    && s'.totals.received >= s.totals.received
    && s'.totals.dropped >= s.totals.dropped
    && s'.totals.failedConnections >= s.totals.failedConnections
    && s'.totals.failedConnects >= s.totals.failedConnects
    && forall i, k :: 0 <= i < |s.table| ==> Of(s'.table[i], k) >= Of(s.table[i], k)
  }

  lemma StepGrows(c: Config, s: State, w: nat, e: Event)
    requires w < |s.workers|
    ensures Grows(s, Step(c, s, w, e))
  {
    var s' := Step(c, s, w, e);
    forall i, k | 0 <= i < |s.table| ensures Of(s'.table[i], k) >= Of(s.table[i], k) {
      if i == Target(s, w) && i < |s.table| {
        match k
        case SentPackets =>
        case ReceivedPackets =>
        case DroppedPackets =>
      }
    }
  }

  lemma {:induction false} ExecuteGrows(c: Config, s: State, moves: seq<Move>)
    ensures Grows(s, Execute(c, s, moves))
    decreases |moves|
  {
    if |moves| > 0 {
      var m := moves[0];
      var next := if m.worker < |s.workers| then Step(c, s, m.worker, m.event) else s;
      if m.worker < |s.workers| {
        StepGrows(c, s, m.worker, m.event);
      }
      ExecuteGrows(c, next, moves[1..]);
    }
  }
}
