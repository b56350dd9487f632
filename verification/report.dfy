/**
 * The final statistics of a client run (`printStats` / `copyStats`): the
 * aggregate counters, and with verbosity "all" one record per issued slot
 * whose times are offsets from the start of the test.
 */
module Report {
  import opened Wrappers
  import opened Slots
  import Hostname

  /** The smallest `time.Duration`, where `Sub` saturates. */
  const MinDuration: int := -0x8000_0000_0000_0000

  /** One `connstats` record. */
  datatype ConnStats = ConnStats(
    started: int,
    connect: int,
    ended: int,
    err: string,
    sent: nat,
    received: nat,
    dropped: nat,
    local: string,
    remote: string,
    host: string)

  /** The zero-valued record. */
  const NoConnStats: ConnStats := ConnStats(0, 0, 0, "", 0, 0, 0, "", "", "")

  /** The statistics written at the end of a run. */
  datatype Stats = Stats(
    duration: int,            // real elapsed time of the run
    connections: nat,
    failedConnections: nat,
    sent: nat,
    received: nat,
    dropped: nat,
    failedConnects: nat,
    connStats: seq<ConnStats>)

  /** `t.Sub(base)` for a start instant `base`: the zero time lies further
      back than a Duration reaches, so its offset saturates. */
  function Since(t: Instant, base: int): int
  {
    match t
    case Zero => MinDuration
    case At(ns) => ns - base
  }

  /** The record of one slot; a slot that never connected keeps Connect 0. */
  function Record(slot: Slot, base: int): ConnStats
  {
    ConnStats(
      Since(slot.started, base),
      if slot.connected.Zero? then 0 else Since(slot.connected, base),
      Since(slot.ended, base),
      match slot.err case Some(e) => e case None => "",
      slot.sent, slot.received, slot.dropped,
      slot.local, slot.remote,
      Hostname.AsString(slot.host))
  }

  /** `copyStats` with verbosity "all": `cursor` records, the first ones copied
      from the table and any beyond its end left zero. */
  function CopyStats(table: seq<Slot>, cursor: nat, base: int): (rs: seq<ConnStats>)
    ensures |rs| == cursor
    ensures forall i :: 0 <= i < cursor && i < |table| ==>
              && rs[i].local == table[i].local
              && rs[i].remote == table[i].remote
              && rs[i].host == Hostname.AsString(table[i].host)
  {
    seq(cursor, i requires 0 <= i < cursor => if i < |table| then Record(table[i], base) else NoConnStats)
  }

  /** `printStats`: nothing for "none", the aggregate counters for any other
      verbosity, and the per-slot records too for "all". */
  function PrintStats(level: string, table: seq<Slot>, cursor: nat, totals: Totals,
                      connections: nat, base: int, now: int): (r: Option<Stats>)
    ensures r.None? <==> level == "none"
    ensures r.Some? ==>
              && r.value.duration == now - base
              && r.value.connections == connections
              && r.value.failedConnections == totals.failedConnections
              && r.value.failedConnects == totals.failedConnects
              && r.value.sent == totals.sent
              && r.value.received == totals.received
              && r.value.dropped == totals.dropped
              && (level == "all" ==> |r.value.connStats| == cursor)
              && (level != "all" ==> r.value.connStats == [])
  {
    if level == "none" then None
    else
      Some(Stats(now - base, connections, totals.failedConnections, totals.sent, totals.received,
                 totals.dropped, totals.failedConnects,
                 if level == "all" then CopyStats(table, cursor, base) else []))
  }

  function RecordsOf(rs: seq<ConnStats>, k: Counter): nat
  {
    if |rs| == 0 then 0
    else
      (match k
       case SentPackets => rs[0].sent
       case ReceivedPackets => rs[0].received
       case DroppedPackets => rs[0].dropped) + RecordsOf(rs[1..], k)
  }

  /** Copying keeps the per-slot counters: the records of the first `n` slots
      add up to the slots' own sum. */
  lemma {:induction false} CopiedPrefixSum(table: seq<Slot>, n: nat, base: int, k: Counter)
    requires n <= |table|
    ensures RecordsOf(CopyStats(table, n, base), k) == Sum(table[..n], k)
  {
    if n > 0 {
      assert CopyStats(table, n, base)[1..] == CopyStats(table[1..], n - 1, base);
      assert table[..n][1..] == table[1..][..n - 1];
      CopiedPrefixSum(table[1..], n - 1, base, k);
    }
  }

  /** When the cursor has run past the table (the flush after an
      overflowing claim), the zero records past the end add nothing: the
      records still sum to the whole table. */
  lemma {:induction false} CopiedOverrunSum(table: seq<Slot>, n: nat, base: int, k: Counter)
    requires n >= |table|
    ensures RecordsOf(CopyStats(table, n, base), k) == Sum(table, k)
  {
    if n > 0 {
      var rest := if |table| > 0 then table[1..] else [];
      assert CopyStats(table, n, base)[1..] == CopyStats(rest, n - 1, base);
      CopiedOverrunSum(rest, n - 1, base, k);
    }
  }

  /** Each record within the table holds its slot's counters, its times as
      offsets from the start, its error, addresses and hostname; the records
      sum to the table when the unissued slots are untouched, also in the
      flush after an overflowing claim. */
  lemma CopiedRecords(table: seq<Slot>, cursor: nat, base: int)
    requires forall i :: cursor <= i < |table| ==> table[i] == Unused
    ensures var rs := CopyStats(table, cursor, base);
            && |rs| == cursor
            && (forall k :: RecordsOf(rs, k) == Sum(table, k))
            && forall i :: 0 <= i < cursor && i < |table| ==>
                 && rs[i].sent == table[i].sent
                 && rs[i].received == table[i].received
                 && rs[i].dropped == table[i].dropped
                 && (table[i].started.At? ==> rs[i].started == table[i].started.ns - base)
                 && (table[i].ended.At? ==> rs[i].ended == table[i].ended.ns - base)
                 && (table[i].connected.Zero? ==> rs[i].connect == 0)
                 && (table[i].connected.At? ==> rs[i].connect == table[i].connected.ns - base)
                 && (table[i].err == Some(rs[i].err) || (table[i].err.None? && rs[i].err == ""))
                 && rs[i].local == table[i].local
                 && rs[i].remote == table[i].remote
                 && rs[i].host == Hostname.AsString(table[i].host)
  {
    forall k ensures RecordsOf(CopyStats(table, cursor, base), k) == Sum(table, k) {
      if cursor <= |table| {
        CopiedPrefixSum(table, cursor, base, k);
        SumOfClaimed(table, cursor, k);
      } else {
        CopiedOverrunSum(table, cursor, base, k);
      }
    }
  }

  /** Records past the table's end (a claim that overran it) are zero, so
      their end offset is 0. */
  lemma OverrunRecordsAreZero(table: seq<Slot>, cursor: nat, base: int)
    requires cursor > |table|
    ensures forall i :: |table| <= i < cursor ==> CopyStats(table, cursor, base)[i] == NoConnStats
    ensures CopyStats(table, cursor, base)[cursor - 1].ended == 0
  {
  }
}
