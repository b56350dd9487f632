/**
 * What the statistics of a client run say about the run: the per-connection
 * records add up to the aggregate counters, and the partial statistics
 * flushed when the slot table overflows end with a record that has no end
 * offset, which the connection analysis refuses.
 */
module RunReport {
  import opened Wrappers
  import opened Slots
  import opened Client
  import opened ClientProperties
  import opened Report
  import Analyze
  import Time

  /** With verbosity "all", after any interleaving that did not end fatally,
      each aggregate packet counter of the report is the sum of that counter
      over its per-connection records, one record per issued slot. */
  lemma ReportMatchesTotals(c: Config, moves: seq<Move>, now: int)
    ensures var s := Execute(c, Init(c), moves);
            var r := PrintStats("all", s.table, s.cursor, s.totals, c.nconn, c.start, now);
            s.fatal.None? ==>
              && r.Some?
              && |r.value.connStats| == s.cursor
              && r.value.sent == RecordsOf(r.value.connStats, SentPackets)
              && r.value.received == RecordsOf(r.value.connStats, ReceivedPackets)
              && r.value.dropped == RecordsOf(r.value.connStats, DroppedPackets)
  {
    var s := Execute(c, Init(c), moves);
    InitInv(c);
    ExecuteInv(c, Init(c), moves);
    if s.fatal.None? {
      CopiedRecords(s.table, s.cursor, c.start);
      assert Balanced(s);
      assert Total(s.totals, SentPackets) == Sum(s.table, SentPackets);
      assert Total(s.totals, ReceivedPackets) == Sum(s.table, ReceivedPackets);
      assert Total(s.totals, DroppedPackets) == Sum(s.table, DroppedPackets);
    }
  }

  /** A claim past the table's end is fatal, and the statistics flushed with
      verbosity "all" then hold a zero record, so analysing connections over
      a run longer than a second aborts. */
  lemma OverflowFlushCannotBeAnalyzed(c: Config, s: State, w: nat, now: int, resolves: bool, later: int)
    requires Inv(c, s) && s.fatal.None? && w < |s.workers| && s.workers[w] == Idle
    requires Deadline(c) - now >= Margin(c) && s.cursor == |s.table|
    requires later - c.start > Time.Second
    ensures var s' := Step(c, s, w, Begin(now, resolves));
            var r := PrintStats("all", s'.table, s'.cursor, s'.totals, c.nconn, c.start, later);
            && s'.fatal == Some(TooManyReconnects(|s.table|))
            && r.Some?
            && Analyze.AnalyzeConnections(r.value).Failure?
  {
    var s' := Step(c, s, w, Begin(now, resolves));
    assert s'.cursor == |s'.table| + 1;
    OverrunRecordsAreZero(s'.table, s'.cursor, c.start);
    var r := PrintStats("all", s'.table, s'.cursor, s'.totals, c.nconn, c.start, later);
    Analyze.AnalyzeConnectionsRows(r.value);
    assert r.value.connStats[s'.cursor - 1].ended == 0;
  }
}
