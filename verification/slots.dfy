/**
 * The client's connection table: one `connData` record per claimed slot, and
 * the process-wide counters that every worker bumps together with its own.
 */
module Slots {
  import opened Wrappers
  import Bytes
  import Hostname

  /** A `time.Time`: the zero value, or an instant in nanoseconds. */
  datatype Instant = Zero | At(ns: int)

  /** One `connData` entry. Go strings are byte strings, one char per byte;
      the discovered hostname is kept as the bytes it was cut from. */
  datatype Slot = Slot(
    id: nat,
    started: Instant,
    connected: Instant,
    ended: Instant,
    err: Option<string>,
    sent: nat,
    received: nat,
    dropped: nat,
    local: string,
    remote: string,
    host: seq<Bytes.byte>)

  /** The zero-valued entry every slot of the table starts as. */
  const Unused: Slot := Slot(0, Zero, Zero, Zero, None, 0, 0, 0, "", "", [])

  /** The aggregate counters of `statistics`. */
  datatype Totals = Totals(
    sent: nat,
    received: nat,
    dropped: nat,
    failedConnections: nat,
    failedConnects: nat)

  const NoTotals: Totals := Totals(0, 0, 0, 0, 0)

  /** The three packet counters a slot shares with the aggregate. */
  datatype Counter = SentPackets | ReceivedPackets | DroppedPackets

  function Of(s: Slot, k: Counter): nat
  {
    match k
    case SentPackets => s.sent
    case ReceivedPackets => s.received
    case DroppedPackets => s.dropped
  }

  function Total(t: Totals, k: Counter): nat
  {
    match k
    case SentPackets => t.sent
    case ReceivedPackets => t.received
    case DroppedPackets => t.dropped
  }

  /** The sum of one counter over a table. */
  function Sum(table: seq<Slot>, k: Counter): nat
  {
    if |table| == 0 then 0 else Of(table[0], k) + Sum(table[1..], k)
  }

  /** Replacing one slot changes the sum by the difference of that slot alone. */
  lemma {:induction false} SumUpdate(table: seq<Slot>, i: nat, x: Slot, k: Counter)
    requires i < |table|
    ensures Sum(table[i := x], k) + Of(table[i], k) == Sum(table, k) + Of(x, k)
  {
    if i == 0 {
      assert table[i := x][1..] == table[1..];
    } else {
      assert table[i := x][1..] == table[1..][i - 1 := x];
      SumUpdate(table[1..], i - 1, x, k);
    }
  }

  lemma {:induction false} SumAppend(a: seq<Slot>, b: seq<Slot>, k: Counter)
    ensures Sum(a + b, k) == Sum(a, k) + Sum(b, k)
  {
    if |a| > 0 {
      assert (a + b)[1..] == a[1..] + b;
      SumAppend(a[1..], b, k);
    } else {
      assert a + b == b;
    }
  }

  lemma {:induction false} SumOfUnused(table: seq<Slot>, k: Counter)
    requires forall i :: 0 <= i < |table| ==> table[i] == Unused
    ensures Sum(table, k) == 0
  {
    if |table| > 0 {
      SumOfUnused(table[1..], k);
    }
  }

  /** When every slot from `n` on is still unused, the claimed prefix carries
      the whole sum. */
  lemma SumOfClaimed(table: seq<Slot>, n: nat, k: Counter)
    requires n <= |table|
    requires forall i :: n <= i < |table| ==> table[i] == Unused
    ensures Sum(table[..n], k) == Sum(table, k)
  {
    assert table == table[..n] + table[n..];
    SumAppend(table[..n], table[n..], k);
    SumOfUnused(table[n..], k);
  }
}
