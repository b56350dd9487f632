/**
 * The per-step rules of a worker, one lemma per rule: how a slot is claimed,
 * how a failed dial is retried or abandoned, what each outcome of `Run`
 * stamps and counts, and how the packet counters move together.
 */
module ClientOutcomes {
  import opened Wrappers
  import opened Slots
  import opened Client
  import opened ClientProperties
  import Time
  import Backoff
  import Address
  import Bytes
  import Hostname

  /** Near the deadline a worker returns without claiming anything. */
  lemma StopNearDeadline(c: Config, s: State, w: nat, now: int, resolves: bool)
    requires s.fatal.None? && w < |s.workers| && s.workers[w] == Idle
    requires Deadline(c) - now < Margin(c)
    ensures var s' := Step(c, s, w, Begin(now, resolves));
            s'.workers[w] == Done && s'.cursor == s.cursor && s'.table == s.table && s'.totals == s.totals
  {
  }

  /** A claim issues the cursor's value and advances it by one. The id was
      never issued before: no worker owns it and its slot is untouched. An id
      at or past the table's end is fatal before the table is written. */
  lemma ClaimIsFresh(c: Config, s: State, w: nat, now: int, resolves: bool)
    requires Inv(c, s) && s.fatal.None? && w < |s.workers| && s.workers[w] == Idle
    requires Deadline(c) - now >= Margin(c)
    ensures var s' := Step(c, s, w, Begin(now, resolves));
            && s'.cursor == s.cursor + 1
            && (s.cursor >= |s.table| ==> s'.fatal == Some(TooManyReconnects(s.cursor)) && s'.table == s.table)
            && (s.cursor < |s.table| ==>
                  && s.table[s.cursor] == Unused
                  && s.cursor !in ActiveIds(s.workers)
                  && s'.table[s.cursor].id == s.cursor
                  && s'.table[s.cursor].started == At(now))
            && (s'.fatal.None? ==> s'.workers[w] == Connecting(s.cursor, Backoff.InitialBackoff))
  {
  }

  /** With a pool of non-empty lines, a claim within the table fails for lack
      of a source address exactly when the id reaches the pool's length. */
  lemma SourcePoolExhaustedAtLength(c: Config, s: State, w: nat, now: int, resolves: bool)
    requires s.fatal.None? && w < |s.workers| && s.workers[w] == Idle
    requires Deadline(c) - now >= Margin(c) && s.cursor < |s.table|
    requires c.pool.Some? && forall i :: 0 <= i < |c.pool.value| ==> c.pool.value[i] != ""
    ensures (Step(c, s, w, Begin(now, resolves)).fatal == Some(OutOfSourceAddresses)) <==>
            (s.cursor >= |c.pool.value|)
  {
    Address.LookupExhaustedExactlyAtLength(c.pool.value, s.cursor);
  }

  /** A dial that succeeds stamps `connected` and starts `Run`. */
  lemma DialSuccess(c: Config, s: State, w: nat, now: int, local: string, remote: string)
    requires s.fatal.None? && w < |s.workers| && s.workers[w].Connecting? && s.workers[w].id < |s.table|
    ensures var id := s.workers[w].id;
            var s' := Step(c, s, w, Dialed(now, local, remote));
            && s'.table[id].connected == At(now)
            && s'.workers[w] == Running(id, false)
            && s'.totals == s.totals
  {
  }

  /** A failed TCP dial: when the context is done the slot is stamped with the
      nominal end and one failed connect is counted; when less than two
      seconds remain the same stamp is made and nothing is counted; otherwise
      one failed connect is counted and the dial is retried with the next
      back-off. No failed connection is ever counted here. */
  lemma DialFailure(c: Config, s: State, w: nat, now: int, cancelled: bool, dest: bool)
    requires c.transport == Tcp
    requires s.fatal.None? && w < |s.workers| && s.workers[w].Connecting? && s.workers[w].id < |s.table|
    ensures var id := s.workers[w].id;
            var b := s.workers[w].backoff;
            var s' := Step(c, s, w, DialError(now, cancelled, dest));
            var t := s.totals;
            && s'.totals.failedConnections == t.failedConnections
            && s'.totals.sent == t.sent && s'.totals.received == t.received && s'.totals.dropped == t.dropped
            && (cancelled ==>
                  && s'.table[id].ended == At(Deadline(c))
                  && s'.totals.failedConnects == t.failedConnects + 1
                  && s'.workers[w] == Done)
            && (!cancelled && Deadline(c) - now < 2 * Time.Second ==>
                  && s'.table[id].ended == At(Deadline(c))
                  && s'.totals.failedConnects == t.failedConnects
                  && s'.workers[w] == Done)
            && (!cancelled && Deadline(c) - now >= 2 * Time.Second ==>
                  && s'.table == s.table
                  && s'.totals.failedConnects == t.failedConnects + 1
                  && s'.workers[w] == Connecting(id, Backoff.Next(b)))
  {
  }

  /** A UDP dial has no retry: an unresolvable destination or a failed dial
      is fatal. */
  lemma UdpDialFailure(c: Config, s: State, w: nat, now: int, cancelled: bool, dest: bool)
    requires c.transport == Udp
    requires s.fatal.None? && w < |s.workers| && s.workers[w].Connecting? && s.workers[w].id < |s.table|
    ensures Step(c, s, w, DialError(now, cancelled, dest)).fatal == Some(if dest then DialFailed else BadDestination)
  {
  }

  /** Without a source pool, a TCP claim within the table aborts exactly when
      the client type is not "echo", after the slot's start is stamped; UDP
      never checks the client type. */
  lemma UnsupportedClientIsFatal(c: Config, s: State, w: nat, now: int, resolves: bool)
    requires s.fatal.None? && w < |s.workers| && s.workers[w] == Idle
    requires Deadline(c) - now >= Margin(c) && s.cursor < |s.table| && c.pool.None?
    ensures var s' := Step(c, s, w, Begin(now, resolves));
            && (s'.fatal.Some? <==> c.transport == Tcp && c.ctype != "echo")
            && (s'.fatal.Some? ==> s'.fatal == Some(UnsupportedClient(c.ctype)))
            && s'.table[s.cursor].started == At(now)
  {
  }

  /** `Run` returning nil stamps the nominal end and stops the worker;
      returning an error stamps the current time and records the error. TCP
      then counts exactly one failed connection and loops back only when
      re-connecting is enabled; UDP counts nothing and always loops back. */
  lemma RunOutcome(c: Config, s: State, w: nat, err: Option<string>, now: int)
    requires s.fatal.None? && w < |s.workers| && s.workers[w].Running? && s.workers[w].id < |s.table|
    requires err.Some? || !s.workers[w].awaitingReply
    ensures var id := s.workers[w].id;
            var s' := Step(c, s, w, Returned(err, now));
            var t := s.totals;
            && s'.table[id].err == err
            && s'.totals.failedConnects == t.failedConnects
            && (err.None? ==>
                  && s'.table[id].ended == At(Deadline(c))
                  && s'.workers[w] == Done
                  && s'.totals == t)
            && (err.Some? ==> s'.table[id].ended == At(now))
            && (err.Some? && c.transport == Tcp ==>
                  && s'.totals.failedConnections == t.failedConnections + 1
                  && (s'.workers[w] == Idle <==> c.reconnect)
                  && (!c.reconnect ==> s'.workers[w] == Done))
            && (err.Some? && c.transport == Udp ==>
                  && s'.totals == t
                  && s'.workers[w] == Idle)
  {
  }

  /** Each packet sent bumps the slot's and the aggregate sent counter by one,
      and each drop bumps both dropped counters by one. */
  lemma SendCountsTogether(c: Config, s: State, w: nat, drops: nat)
    requires s.fatal.None? && w < |s.workers| && s.workers[w].Running? && !s.workers[w].awaitingReply
    requires s.workers[w].id < |s.table|
    ensures var id := s.workers[w].id;
            var s' := Step(c, s, w, Sent(drops));
            && s'.table[id].sent == s.table[id].sent + 1
            && s'.totals.sent == s.totals.sent + 1
            && s'.table[id].dropped == s.table[id].dropped + drops
            && s'.totals.dropped == s.totals.dropped + drops
            && s'.table[id].received == s.table[id].received
            && s'.totals.received == s.totals.received
            && s'.workers[w] == Running(id, true)
  {
  }

  /** Each reply bumps both received counters by one; only the first reply
      of a slot may set its hostname. */
  lemma ReceiveCountsTogether(c: Config, s: State, w: nat, packet: seq<Bytes.byte>)
    requires s.fatal.None? && w < |s.workers| && s.workers[w].Running? && s.workers[w].awaitingReply
    requires s.workers[w].id < |s.table|
    ensures var id := s.workers[w].id;
            var s' := Step(c, s, w, Received(packet));
            && s'.table[id].received == s.table[id].received + 1
            && s'.totals.received == s.totals.received + 1
            && s'.table[id].sent == s.table[id].sent
            && s'.totals.sent == s.totals.sent
            && (s.table[id].received == 0 ==> s'.table[id].host == Hostname.ExtractHost(packet, s.table[id].host))
            && (s.table[id].received > 0 ==> s'.table[id].host == s.table[id].host)
            && s'.workers[w] == Running(id, false)
  {
  }

  /** After all workers have returned without a fatal exit, every issued slot
      carries an end stamp. */
  lemma JoinedSlotsEnded(c: Config, s: State)
    requires Inv(c, s) && s.fatal.None?
    requires forall w :: 0 <= w < |s.workers| ==> s.workers[w] == Done
    ensures forall i :: 0 <= i < s.cursor ==> s.table[i].ended.At?
  {
    assert ActiveIds(s.workers) == {};

  }
}
