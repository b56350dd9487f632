/**
 * Offline analysis of recorded statistics: connection states per one-second
 * interval (`analyzeConnections`) and connections per peer hostname
 * (`analyzeHosts`, printed with `printKv`).
 */
module Analyze {
  import opened Wrappers
  import opened Report
  import Time
  import StringOrder

  /** The classes of records the analysis counts. */
  datatype Class =
    | LiveAt(i: int)                // started by i and not ended before it
    | ActiveAt(i: int)              // live at i and connected by i
    | ConnectingAt(i: int)          // live at i and not connected by i (Connect 0: never)
    | StartedIn(last: int, i: int)  // live at i and started after last
    | FailedIn(last: int, i: int)   // ended with an error in [last, i)
    | HasEnd                        // carries an end offset
    | Lost                          // has a hostname and an error
    | Lasting                       // has a hostname and no error
    | LostOn(host: string)          // `Lost` with this hostname
    | LastingOn(host: string)       // `Lasting` with this hostname
    | OnHost(host: string)          // has this non-empty hostname
    | Named                         // has a hostname

  predicate Holds(c: ConnStats, k: Class)
  {
    match k
    case LiveAt(i) => c.started <= i <= c.ended
    case ActiveAt(i) => c.started <= i <= c.ended && c.connect != 0 && c.connect <= i
    case ConnectingAt(i) => c.started <= i <= c.ended && !(c.connect != 0 && c.connect <= i)
    case StartedIn(last, i) => last < c.started <= i <= c.ended
    case FailedIn(last, i) => last <= c.ended < i && c.err != ""
    case HasEnd => c.ended != 0
    case Lost => c.host != "" && c.err != ""
    case Lasting => c.host != "" && c.err == ""
    case LostOn(h) => h != "" && c.host == h && c.err != ""
    case LastingOn(h) => h != "" && c.host == h && c.err == ""
    case OnHost(h) => h != "" && c.host == h
    case Named => c.host != ""
  }

  /** The number of records in class `k`. */
  function Count(cs: seq<ConnStats>, k: Class): nat
  {
    if |cs| == 0 then 0
    else Count(cs[..|cs| - 1], k) + (if Holds(cs[|cs| - 1], k) then 1 else 0)
  }

  lemma {:induction false} CountAtMost(cs: seq<ConnStats>, k: Class)
    ensures Count(cs, k) <= |cs|
    decreases |cs|
  {
    if |cs| > 0 {
      CountAtMost(cs[..|cs| - 1], k);
    }
  }

  /** Count of classes `a` and `b` together is that of `u` when every record
      is in `u` exactly when it is in one of `a`, `b`. */
  lemma {:induction false} CountSplit(cs: seq<ConnStats>, a: Class, b: Class, u: Class)
    requires forall c :: (Holds(c, u) <==> Holds(c, a) || Holds(c, b)) && !(Holds(c, a) && Holds(c, b))
    ensures Count(cs, a) + Count(cs, b) == Count(cs, u)
    decreases |cs|
  {
    if |cs| > 0 {
      CountSplit(cs[..|cs| - 1], a, b, u);
    }
  }

  /** A class inside another is no larger. */
  lemma {:induction false} CountMonotone(cs: seq<ConnStats>, a: Class, b: Class)
    requires forall c :: Holds(c, a) ==> Holds(c, b)
    ensures Count(cs, a) <= Count(cs, b)
    decreases |cs|
  {
    if |cs| > 0 {
      CountMonotone(cs[..|cs| - 1], a, b);
    }
  }

  // ----------------------------------------------------------------------
  // Connections per interval

  /** The four counts of one output line. */
  datatype Counts = Counts(active: nat, started: nat, failed: nat, connecting: nat)

  /** One output line: the middle of the interval and its counts. */
  datatype Row = Row(mid: int, counts: Counts)

  const NeverEnded: string := "A connection has never ended"

  /** The contribution of one record to the interval (last, i]. */
  function Contribution(c: ConnStats, last: int, i: int): Counts
  {
    if c.ended < last then Counts(0, 0, 0, 0)
    else if c.ended < i then Counts(0, 0, if c.err != "" then 1 else 0, 0)
    else if c.started > i then Counts(0, 0, 0, 0)
    else
      var isNew := if c.started > last then 1 else 0;
      if c.connect == 0 || c.connect > i then Counts(0, isNew, 0, 1)
      else Counts(1, isNew, 0, 0)
  }

  function Add(a: Counts, b: Counts): Counts
  {
    Counts(a.active + b.active, a.started + b.started, a.failed + b.failed, a.connecting + b.connecting)
  }

  /** The inner loop over all records for one interval; a record without an
      end offset aborts the analysis. */
  function Tally(cs: seq<ConnStats>, last: int, i: int): (r: Result<Counts, string>)
    ensures r.Failure? ==> r.error == NeverEnded
    ensures r.Success? ==>
              && r.value.started <= r.value.active + r.value.connecting
              && r.value.active + r.value.connecting + r.value.failed <= |cs|
  {
    if |cs| == 0 then Success(Counts(0, 0, 0, 0))
    else
      match Tally(cs[..|cs| - 1], last, i)
      case Failure(e) => Failure(e)
      case Success(t) =>
        var c := cs[|cs| - 1];
        if c.ended == 0 then Failure(NeverEnded)
        else Success(Add(t, Contribution(c, last, i)))
  }

  /** The lines for the intervals (last, last + 1 s], (last + 1 s, last + 2 s],
      ... while the interval's end is below the duration `d`. */
  function Buckets(cs: seq<ConnStats>, last: int, d: int): (r: Result<seq<Row>, string>)
    ensures r.Failure? ==> r.error == NeverEnded
    ensures last + Time.Second >= d ==> r == Success([])
    ensures r.Success? && |r.value| > 0 ==> r.value[0].mid == last + 500 * Time.Millisecond
    decreases d - last
  {
    var i := last + Time.Second;
    if i >= d then Success([])
    else
      match Tally(cs, last, i)
      case Failure(e) => Failure(e)
      case Success(t) =>
        match Buckets(cs, i, d)
        case Failure(e) => Failure(e)
        case Success(rows) => Success([Row(last + 500 * Time.Millisecond, t)] + rows)
  }

  /** `analyzeConnections`: one line per whole second of the run. */
  function AnalyzeConnections(s: Stats): (r: Result<seq<Row>, string>)
    ensures r.Failure? ==> r.error == NeverEnded
    ensures s.duration <= Time.Second ==> r == Success([])
  {
    Buckets(s.connStats, 0, s.duration)
  }

  /** What one record adds to each count is whether it is in that class. */
  lemma ContributionClasses(c: ConnStats, last: int, i: int)
    requires last < i
    ensures var t := Contribution(c, last, i);
            && t.active == (if Holds(c, ActiveAt(i)) then 1 else 0)
            && t.connecting == (if Holds(c, ConnectingAt(i)) then 1 else 0)
            && t.started == (if Holds(c, StartedIn(last, i)) then 1 else 0)
            && t.failed == (if Holds(c, FailedIn(last, i)) then 1 else 0)
  {
  }

  /** The counts of one interval, each as the number of records in its class;
      the interval aborts exactly when some record has no end offset. */
  lemma {:induction false} TallyCounts(cs: seq<ConnStats>, last: int, i: int)
    requires last < i
    ensures Tally(cs, last, i).Failure? <==> Count(cs, HasEnd) < |cs|
    ensures Tally(cs, last, i).Success? ==>
              var t := Tally(cs, last, i).value;
              && t.active == Count(cs, ActiveAt(i))
              && t.connecting == Count(cs, ConnectingAt(i))
              && t.started == Count(cs, StartedIn(last, i))
              && t.failed == Count(cs, FailedIn(last, i))
    decreases |cs|
  {
    if |cs| > 0 {
      var init := cs[..|cs| - 1];
      TallyCounts(init, last, i);
      CountAtMost(init, HasEnd);
      ContributionClasses(cs[|cs| - 1], last, i);
    }
  }

  /** In one interval, active and connecting split the live records, and the
      newly started ones are among them. */
  lemma IntervalClasses(cs: seq<ConnStats>, last: int, i: int)
    requires last < i && Tally(cs, last, i).Success?
    ensures var t := Tally(cs, last, i).value;
            && t.active + t.connecting == Count(cs, LiveAt(i))
            && t.started <= t.active + t.connecting
  {
    TallyCounts(cs, last, i);
    CountSplit(cs, ActiveAt(i), ConnectingAt(i), LiveAt(i));
    CountMonotone(cs, StartedIn(last, i), LiveAt(i));
  }

  /** Every record is in class `k` exactly when the count is the length. */
  lemma {:induction false} CountAll(cs: seq<ConnStats>, k: Class)
    ensures Count(cs, k) == |cs| <==> forall j :: 0 <= j < |cs| ==> Holds(cs[j], k)
    decreases |cs|
  {
    if |cs| > 0 {
      var init := cs[..|cs| - 1];
      CountAll(init, k);
      CountAtMost(init, k);
      assert forall j :: 0 <= j < |init| ==> init[j] == cs[j];
    }
  }

  /** The start of the interval a line reports on. */
  function Start(r: Row): int
  {
    r.mid - 500 * Time.Millisecond
  }

  /** Row `r` holds the class sizes of the interval (Start(r), Start(r) + 1 s]. */
  ghost predicate Describes(cs: seq<ConnStats>, r: Row)
  {
    var last := Start(r);
    var i := last + Time.Second;
    && r.counts.active == Count(cs, ActiveAt(i))
    && r.counts.connecting == Count(cs, ConnectingAt(i))
    && r.counts.started == Count(cs, StartedIn(last, i))
    && r.counts.failed == Count(cs, FailedIn(last, i))
  }

  /** Lines follow each other second by second from `last` on, each for an
      interval ending below `d`, until the next one would reach `d`. */
  ghost predicate Covers(rows: seq<Row>, last: int, d: int)
  {
    && (|rows| == 0 ==> last + Time.Second >= d)
    && (|rows| > 0 ==> Start(rows[0]) == last && Start(rows[|rows| - 1]) + 2 * Time.Second >= d)
    && (forall j :: 0 <= j < |rows| ==> Start(rows[j]) + Time.Second < d)
    && (forall j :: 0 <= j < |rows| - 1 ==> Start(rows[j + 1]) == Start(rows[j]) + Time.Second)
  }

  lemma ConsRow(cs: seq<ConnStats>, r: Row, rest: seq<Row>, last: int, d: int)
    requires Start(r) == last && last + Time.Second < d && Describes(cs, r)
    requires Covers(rest, last + Time.Second, d)
    requires forall j :: 0 <= j < |rest| ==> Describes(cs, rest[j])
    ensures Covers([r] + rest, last, d)
    ensures forall j :: 0 <= j < |rest| + 1 ==> Describes(cs, ([r] + rest)[j])
  {
    var rows := [r] + rest;
    assert forall j :: 0 < j < |rows| ==> rows[j] == rest[j - 1];
  }

  /** The interval loop aborts exactly when an interval remains and some
      record has no end offset. */
  lemma {:induction false} BucketsAbort(cs: seq<ConnStats>, last: int, d: int)
    ensures Buckets(cs, last, d).Failure? <==> last + Time.Second < d && Count(cs, HasEnd) < |cs|
    decreases d - last
  {
    var i := last + Time.Second;
    if i < d {
      TallyCounts(cs, last, i);
      BucketsAbort(cs, i, d);
      assert Tally(cs, last, i).Failure? ==> Buckets(cs, last, d).Failure?;
    }
  }

  /** Otherwise it yields one line per interval from `last` on, each holding
      its interval's class sizes. */
  lemma {:induction false} BucketsRows(cs: seq<ConnStats>, last: int, d: int)
    requires Buckets(cs, last, d).Success?
    ensures var rows := Buckets(cs, last, d).value;
            && Covers(rows, last, d)
            && forall j :: 0 <= j < |rows| ==> Describes(cs, rows[j])
    decreases d - last
  {
    var i := last + Time.Second;
    if i < d {
      var t := Tally(cs, last, i).value;
      TallyCounts(cs, last, i);
      var r := Row(last + 500 * Time.Millisecond, t);
      assert Buckets(cs, i, d).Success?;
      BucketsRows(cs, i, d);
      var rest := Buckets(cs, i, d).value;
      assert Buckets(cs, last, d).value == [r] + rest;
      ConsRow(cs, r, rest, last, d);
    }
  }

  /** `analyzeConnections` aborts exactly when the run lasted over a second
      and some record has no end offset. Otherwise it yields one line per
      whole second (0, 1 s], (1 s, 2 s], ... whose end lies below the
      duration, centred 500 ms into it, whose counts are the sizes of the
      classes: active and connecting split the records live at the interval's
      end, new ones started within it and are among the live ones, and failed
      ones ended with an error within it. */
  lemma AnalyzeConnectionsRows(s: Stats)
    ensures AnalyzeConnections(s).Failure? <==>
              Time.Second < s.duration && exists j :: 0 <= j < |s.connStats| && s.connStats[j].ended == 0
    ensures AnalyzeConnections(s).Success? ==>
              var rows := AnalyzeConnections(s).value;
              && Covers(rows, 0, s.duration)
              && forall j :: 0 <= j < |rows| ==>
                   && Describes(s.connStats, rows[j])
                   && rows[j].counts.active + rows[j].counts.connecting
                        == Count(s.connStats, LiveAt(Start(rows[j]) + Time.Second))
                   && rows[j].counts.started <= rows[j].counts.active + rows[j].counts.connecting
  {
    var cs := s.connStats;
    BucketsAbort(cs, 0, s.duration);
    CountAll(cs, HasEnd);
    CountAtMost(cs, HasEnd);
    if AnalyzeConnections(s).Success? {
      BucketsRows(cs, 0, s.duration);
      var rows := AnalyzeConnections(s).value;
      forall j | 0 <= j < |rows|
        ensures rows[j].counts.active + rows[j].counts.connecting
                  == Count(cs, LiveAt(Start(rows[j]) + Time.Second))
        ensures rows[j].counts.started <= rows[j].counts.active + rows[j].counts.connecting
      {
        var i := Start(rows[j]) + Time.Second;
        CountSplit(cs, ActiveAt(i), ConnectingAt(i), LiveAt(i));
        CountMonotone(cs, StartedIn(Start(rows[j]), i), LiveAt(i));
      }
    }
  }

  // ----------------------------------------------------------------------
  // Connections per host

  /** The two maps and two totals `analyzeHosts` builds. */
  datatype HostTally = HostTally(lost: map<string, nat>, nLost: nat, last: map<string, nat>, nLast: nat)

  /** A map lookup with Go's zero default. */
  function Get(m: map<string, nat>, k: string): nat
  {
    if k in m then m[k] else 0
  }

  /** Go's `m[k]++`. */
  function Bump(m: map<string, nat>, k: string): map<string, nat>
  {
    m[k := Get(m, k) + 1]
  }

  /** The loop of `analyzeHosts`: records with a hostname are counted as lost
      when they carry an error and as lasting otherwise. */
  function TallyHosts(cs: seq<ConnStats>): (t: HostTally)
    ensures "" !in t.lost && "" !in t.last
    ensures t.nLost + t.nLast <= |cs|
  {
    if |cs| == 0 then HostTally(map[], 0, map[], 0)
    else
      var t := TallyHosts(cs[..|cs| - 1]);
      var c := cs[|cs| - 1];
      if c.host == "" then t
      else if c.err == "" then t.(last := Bump(t.last, c.host), nLast := t.nLast + 1)
      else t.(lost := Bump(t.lost, c.host), nLost := t.nLost + 1)
  }

  /** The lost total and each lost entry are the sizes of their classes; a
      host is a key exactly when it has a lost record. */
  lemma {:induction false} LostCounts(cs: seq<ConnStats>)
    ensures var t := TallyHosts(cs);
            && t.nLost == Count(cs, Lost)
            && (forall h :: Get(t.lost, h) == Count(cs, LostOn(h)))
            && (forall h :: h in t.lost ==> t.lost[h] > 0)
    decreases |cs|
  {
    if |cs| > 0 {
      LostCounts(cs[..|cs| - 1]);
    }
  }

  /** The same for the lasting total and entries. */
  lemma {:induction false} LastingCounts(cs: seq<ConnStats>)
    ensures var t := TallyHosts(cs);
            && t.nLast == Count(cs, Lasting)
            && (forall h :: Get(t.last, h) == Count(cs, LastingOn(h)))
            && (forall h :: h in t.last ==> t.last[h] > 0)
    decreases |cs|
  {
    if |cs| > 0 {
      LastingCounts(cs[..|cs| - 1]);
    }
  }

  /** The lost and lasting records of a host are all its records, and the two
      totals together are all records with a hostname. */
  lemma HostPartition(cs: seq<ConnStats>)
    ensures var t := TallyHosts(cs);
            && t.nLost + t.nLast == Count(cs, Named)
            && forall h :: Get(t.lost, h) + Get(t.last, h) == Count(cs, OnHost(h))
  {
    LostCounts(cs);
    LastingCounts(cs);
    CountSplit(cs, Lost, Lasting, Named);
    forall h ensures Count(cs, LostOn(h)) + Count(cs, LastingOn(h)) == Count(cs, OnHost(h)) {
      CountSplit(cs, LostOn(h), LastingOn(h), OnHost(h));
    }
  }

  /** The keys of `m`, each once, in the order the map yields them. */
  method Keys(m: map<string, nat>) returns (keys: seq<string>)
    ensures |keys| == |m|
    ensures forall k :: k in keys <==> k in m
    ensures StringOrder.Distinct(keys)
  {
    keys := [];
    var rest := m.Keys;
    while rest != {}
      invariant rest <= m.Keys
      invariant forall k :: k in keys ==> k in m && k !in rest
      invariant StringOrder.Distinct(keys)
      invariant forall k :: k in m ==> k in rest || k in keys
      invariant |keys| + |rest| == |m.Keys|
      decreases |rest|
    {
      var k :| k in rest;
      keys := keys + [k];
      rest := rest - {k};
    }
  }

  /** One line per key, in the keys' order, each with the key's value. */
  function Lines(keys: seq<string>, m: map<string, nat>): (lines: seq<(string, nat)>)
    requires forall k :: k in keys ==> k in m
    ensures |lines| == |keys|
    ensures forall i :: 0 <= i < |keys| ==> lines[i].0 == keys[i] && lines[i].1 == m[keys[i]]
  {
    seq(|keys|, i requires 0 <= i < |keys| => (keys[i], m[keys[i]]))
  }

  /** `printKv`: the entries of `m`, one line each, in ascending key order. */
  method PrintKv(m: map<string, nat>) returns (lines: seq<(string, nat)>)
    ensures |lines| == |m|
    ensures forall i, j :: 0 <= i < j < |lines| ==> StringOrder.Le(lines[i].0, lines[j].0)
    ensures forall i, j :: 0 <= i < j < |lines| ==> lines[i].0 != lines[j].0
    ensures forall i :: 0 <= i < |lines| ==> lines[i].0 in m && lines[i].1 == m[lines[i].0]
    ensures forall k :: k in m ==> exists i :: 0 <= i < |lines| && lines[i].0 == k
  {
    var keys := Keys(m);
    var sorted := StringOrder.Sort(keys);
    StringOrder.SortedKeys(keys);
    lines := Lines(sorted, m);
    forall k | k in m ensures exists i :: 0 <= i < |lines| && lines[i].0 == k {
      var i :| 0 <= i < |sorted| && sorted[i] == k;
      assert lines[i].0 == k;
    }
  }

  /** The output of `analyzeHosts`: the lost total and lines, then the
      lasting total and lines. */
  datatype HostsReport = HostsReport(nLost: nat, lost: seq<(string, nat)>, nLast: nat, last: seq<(string, nat)>)

  /** `analyzeHosts`: per-host counts of lost and of lasting connections,
      each listed in ascending host order with every host that has one. */
  method AnalyzeHosts(s: Stats) returns (r: HostsReport)
    ensures r.nLost == Count(s.connStats, Lost) && r.nLast == Count(s.connStats, Lasting)
    ensures forall i, j :: 0 <= i < j < |r.lost| ==> StringOrder.Le(r.lost[i].0, r.lost[j].0)
    ensures forall i, j :: 0 <= i < j < |r.last| ==> StringOrder.Le(r.last[i].0, r.last[j].0)
    ensures forall i, j :: 0 <= i < j < |r.lost| ==> r.lost[i].0 != r.lost[j].0
    ensures forall i, j :: 0 <= i < j < |r.last| ==> r.last[i].0 != r.last[j].0
    ensures forall i :: 0 <= i < |r.lost| ==>
              r.lost[i].0 != "" && r.lost[i].1 == Count(s.connStats, LostOn(r.lost[i].0)) > 0
    ensures forall i :: 0 <= i < |r.last| ==>
              r.last[i].0 != "" && r.last[i].1 == Count(s.connStats, LastingOn(r.last[i].0)) > 0
    ensures forall h :: Count(s.connStats, LostOn(h)) > 0 ==> exists i :: 0 <= i < |r.lost| && r.lost[i].0 == h
    ensures forall h :: Count(s.connStats, LastingOn(h)) > 0 ==> exists i :: 0 <= i < |r.last| && r.last[i].0 == h
  {
    var t := TallyHosts(s.connStats);
    LostCounts(s.connStats);
    LastingCounts(s.connStats);
    var lost := PrintKv(t.lost);
    var last := PrintKv(t.last);
    r := HostsReport(t.nLost, lost, t.nLast, last);
    forall i | 0 <= i < |lost| ensures lost[i].0 != "" {
      assert Get(t.lost, lost[i].0) == Count(s.connStats, LostOn(lost[i].0));
      EmptyHostNeverCounted(s.connStats, lost[i].0);
    }
    forall i | 0 <= i < |last| ensures last[i].0 != "" {
      assert Get(t.last, last[i].0) == Count(s.connStats, LastingOn(last[i].0));
      EmptyHostNeverCounted(s.connStats, last[i].0);
    }
    forall h | Count(s.connStats, LostOn(h)) > 0
      ensures exists i :: 0 <= i < |lost| && lost[i].0 == h
    {
      assert Get(t.lost, h) > 0;
    }
    forall h | Count(s.connStats, LastingOn(h)) > 0
      ensures exists i :: 0 <= i < |last| && last[i].0 == h
    {
      assert Get(t.last, h) > 0;
    }
  }

  /** Records without a hostname are in no per-host class. */
  lemma EmptyHostNeverCounted(cs: seq<ConnStats>, h: string)
    ensures h == "" ==> Count(cs, LostOn(h)) == 0 && Count(cs, LastingOn(h)) == 0
  {
    if h == "" {
      CountMonotone(cs, LostOn(h), OnHost(h));
      CountMonotone(cs, LastingOn(h), OnHost(h));
      CountNone(cs, OnHost(h));
    }
  }

  lemma {:induction false} CountNone(cs: seq<ConnStats>, k: Class)
    requires forall c :: !Holds(c, k)
    ensures Count(cs, k) == 0
    decreases |cs|
  {
    if |cs| > 0 {
      CountNone(cs[..|cs| - 1], k);
    }
  }
}
