/**
 * The client engine of `client` / `udpClient` and the `Run` loops of
 * `echoConn` / `udpConn`, as a sequential state machine.
 *
 * Each worker goroutine is a `Phase`; one call of `Step` is one atomic step of
 * one worker, and an arbitrary sequence of (worker, event) pairs stands for
 * any interleaving of the goroutines. Everything the source learns from the
 * outside world (the clock, the dial result, the token bucket, the peer's
 * replies, cancellation) arrives as a field of the `Event`.
 */
module Client {
  import opened Wrappers
  import opened Slots
  import Time
  import Backoff
  import Address
  import Bytes
  import Hostname

  datatype Transport = Tcp | Udp

  /** The configuration a run is started with. */
  datatype Config = Config(
    transport: Transport,
    ctype: string,              // the client type; only "echo" is implemented
    nconn: nat,
    retries: nat,
    reconnect: bool,
    pool: Option<seq<string>>,  // lines of the source-address file, if any
    start: int,                 // `s.Started`, also the origin of the deadline
    duration: int)              // the configured timeout

  /** Size of the slot table: re-connects included for TCP, none for UDP. */
  function Capacity(c: Config): nat
  {
    match c.transport
    case Tcp => c.nconn * c.retries
    case Udp => c.nconn
  }

  /** The deadline, which is also the nominal end stamped on connections that
      last to the end of the test. */
  function Deadline(c: Config): int
  {
    c.start + c.duration
  }

  /** A worker stops starting new connections when less than this remains. */
  function Margin(c: Config): int
  {
    match c.transport
    case Tcp => 2 * Time.Second
    case Udp => Time.Second
  }

  /** Where one worker goroutine is in its loop. */
  datatype Phase =
    | Idle                                    // at the top of the loop
    | Connecting(id: nat, backoff: int)       // a dial of slot `id` is due
    | Running(id: nat, awaitingReply: bool)   // inside `Run` for slot `id`
    | Done                                    // the goroutine has returned

  predicate Active(p: Phase)
  {
    p.Connecting? || p.Running?
  }

  /** The `log.Fatal` exits of the client. */
  datatype Fatal =
    | TooManyReconnects(id: nat)
    | OutOfSourceAddresses
    | BadSourceAddress(adr: string)   // the address could not be resolved
    | UnsupportedClient(ctype: string)
    | BadDestination                  // the UDP destination could not be resolved
    | DialFailed                      // the UDP dial failed; UDP has no dial retry

  datatype State = State(
    table: seq<Slot>,
    cursor: nat,          // `nConn`: the next slot id to issue
    totals: Totals,
    workers: seq<Phase>,
    fatal: Option<Fatal>)

  /** What the outside world did during one step. */
  datatype Event =
    | Begin(now: int, resolves: bool)           // loop top; `resolves` tells whether the source address resolves
    | Dialed(now: int, local: string, remote: string)
    | DialError(now: int, cancelled: bool, destResolves: bool)
      // clock after the back-off sleep, `ctx.Err() != nil`, and (UDP only)
      // whether the destination address resolved
    | Sent(drops: nat)                          // one packet written; `drops` extra tokens were available
    | Received(packet: seq<Bytes.byte>)      // the packet buffer after a successful read
    | ReadLost                                  // UDP read timeout
    | Returned(err: Option<string>, now: int)   // `Run` returned

  /** The state right after `clientMain` / `udpClientMain` spawned the workers. */
  function Init(c: Config): (s: State)
    ensures |s.table| == Capacity(c) && |s.workers| == c.nconn
    ensures s.cursor == 0 && s.totals == NoTotals && s.fatal == None
  {
    State(seq(Capacity(c), _ => Unused), 0, NoTotals, seq(c.nconn, _ => Idle), None)
  }

  function WithWorker(s: State, w: nat, p: Phase): State
    requires w < |s.workers|
  {
    s.(workers := s.workers[w := p])
  }

  /** The slot a step of worker `w` may write: the one it owns, or the one it
      would claim next. */
  function Target(s: State, w: nat): nat
    requires w < |s.workers|
  {
    if Active(s.workers[w]) then s.workers[w].id else s.cursor
  }

  /** Top of the loop: stop near the deadline, else claim the next slot and
      pick its source address. */
  function BeginStep(c: Config, s: State, w: nat, now: int, resolves: bool): State
    requires w < |s.workers|
  {
    if Deadline(c) - now < Margin(c) then
      WithWorker(s, w, Done)
    else
      var id := s.cursor;
      if id >= |s.table| then
        s.(cursor := id + 1, fatal := Some(TooManyReconnects(id)))
      else
        var claimed := s.(cursor := id + 1,
                          table := s.table[id := s.table[id].(id := id, started := At(now))]);
        var connecting := WithWorker(claimed, w, Connecting(id, Backoff.InitialBackoff));
        // TCP picks the connection kind by client type; UDP has only one
        var ready := if c.transport == Tcp && c.ctype != "echo"
                      then claimed.(fatal := Some(UnsupportedClient(c.ctype)))
                      else connecting;
        match c.pool
        case None => ready
        case Some(lines) =>
          var a := Address.Lookup(lines, id);
          if a == "" then claimed.(fatal := Some(OutOfSourceAddresses))
          else if !resolves then claimed.(fatal := Some(BadSourceAddress(Address.WithPort(a))))
          else ready
  }

  function DialedStep(s: State, w: nat, id: nat, now: int, local: string, remote: string): State
    requires w < |s.workers|
  {
    if id < |s.table| then
      var slot := s.table[id].(connected := At(now), local := local, remote := remote);
      WithWorker(s.(table := s.table[id := slot]), w, Running(id, false))
    else s
  }

  /** A failed dial: UDP aborts, naming an unresolvable destination; TCP abandons the slot when cancelled or near
      the deadline, and otherwise backs off and retries. */
  function DialErrorStep(c: Config, s: State, w: nat, id: nat, backoff: int, now: int,
                         cancelled: bool, destResolves: bool): State
    requires w < |s.workers|
  {
    if id >= |s.table| then s
    else if c.transport == Udp then
      s.(fatal := Some(if destResolves then DialFailed else BadDestination))
    else
      var abandoned := s.(table := s.table[id := s.table[id].(ended := At(Deadline(c)))]);
      var t := s.totals;
      if cancelled then
        WithWorker(abandoned.(totals := t.(failedConnects := t.failedConnects + 1)), w, Done)
      else
        var next := Backoff.Next(backoff);
        if Deadline(c) - now < 2 * Time.Second then
          WithWorker(abandoned, w, Done)
        else
          WithWorker(s.(totals := t.(failedConnects := t.failedConnects + 1)), w, Connecting(id, next))
  }

  /** One packet written, and every extra token already in the bucket counted
      as a drop, on the slot and on the aggregate alike. */
  function SentStep(s: State, w: nat, id: nat, drops: nat): State
    requires w < |s.workers|
  {
    if id < |s.table| then
      var slot := s.table[id];
      var t := s.totals;
      WithWorker(s.(table := s.table[id := slot.(sent := slot.sent + 1, dropped := slot.dropped + drops)],
                    totals := t.(sent := t.sent + 1, dropped := t.dropped + drops)),
                 w, Running(id, true))
    else s
  }

  /** One reply read; only the first one may carry the peer's hostname. */
  function ReceivedStep(s: State, w: nat, id: nat, packet: seq<Bytes.byte>): State
    requires w < |s.workers|
  {
    if id < |s.table| then
      var slot := s.table[id];
      var host := if slot.received == 0 then Hostname.ExtractHost(packet, slot.host) else slot.host;
      var t := s.totals;
      WithWorker(s.(table := s.table[id := slot.(received := slot.received + 1, host := host)],
                    totals := t.(received := t.received + 1)),
                 w, Running(id, false))
    else s
  }

  /** `Run` returned: nil means the connection counts as lasting to the
      nominal end; an error ends it now and, for TCP, counts a failed
      connection and re-connects only when configured to. */
  function ReturnedStep(c: Config, s: State, w: nat, id: nat, err: Option<string>, now: int): State
    requires w < |s.workers|
  {
    if id >= |s.table| then s
    else if err.None? then
      var slot := s.table[id].(err := None, ended := At(Deadline(c)));
      WithWorker(s.(table := s.table[id := slot]), w, Done)
    else
      var slot := s.table[id].(err := err, ended := At(now));
      var ended := s.(table := s.table[id := slot]);
      match c.transport
      case Udp => WithWorker(ended, w, Idle)
      case Tcp =>
        var t := s.totals;
        WithWorker(ended.(totals := t.(failedConnections := t.failedConnections + 1)),
                   w, if c.reconnect then Idle else Done)
  }

  /** One atomic step of worker `w`. After a fatal exit nothing moves; an event
      that cannot happen in the worker's phase leaves the state unchanged. */
  function Step(c: Config, s: State, w: nat, e: Event): (s': State)
    requires w < |s.workers|
    ensures |s'.table| == |s.table| && |s'.workers| == |s.workers|
    ensures s'.cursor >= s.cursor
    ensures s.fatal.Some? ==> s' == s
    ensures forall v :: 0 <= v < |s.workers| && v != w ==> s'.workers[v] == s.workers[v]
    ensures forall i :: 0 <= i < |s.table| && i != Target(s, w) ==> s'.table[i] == s.table[i]
  {
    if s.fatal.Some? then s
    else
      match (s.workers[w], e)
      case (Idle, Begin(now, resolves)) => BeginStep(c, s, w, now, resolves)
      case (Connecting(id, _), Dialed(now, local, remote)) => DialedStep(s, w, id, now, local, remote)
      case (Connecting(id, b), DialError(now, cancelled, dest)) => DialErrorStep(c, s, w, id, b, now, cancelled, dest)
      case (Running(id, false), Sent(drops)) => SentStep(s, w, id, drops)
      case (Running(id, true), Received(p)) => ReceivedStep(s, w, id, p)
      case (Running(id, true), ReadLost) =>
        if c.transport == Udp then WithWorker(s, w, Running(id, false)) else s
      case (Running(id, awaiting), Returned(err, now)) =>
        if awaiting && err.None? then s else ReturnedStep(c, s, w, id, err, now)
      case _ => s
  }
}
