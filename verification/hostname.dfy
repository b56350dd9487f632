/**
 * Hostname stamping by the echo server and hostname discovery by the client.
 *
 * The TCP server reads a 64-byte probe, overwrites its start with its own
 * hostname (Go's `copy`, so at most 64 bytes), writes it back once and then
 * echoes bytes unchanged. The UDP server stamps every datagram the same way.
 * The client, on its first reply only, takes the bytes before the first NUL
 * as the peer's hostname, provided that prefix is not empty.
 */
module Hostname {
  import opened Wrappers
  import opened Bytes


  /** Size of the probe the TCP server reads before stamping. */
  const ProbeSize: nat := 64

  /** A zero-filled packet, as `make([]byte, n)` allocates it. */
  function Zeros(n: nat): (p: seq<byte>)
    ensures |p| == n && forall i :: 0 <= i < n ==> p[i] == 0
  {
    seq(n, _ => 0)
  }

  function Min(a: nat, b: nat): nat { if a <= b then a else b }

  /** Go's `copy(p, host)`: the first min(|p|, |host|) bytes of `p` are
      replaced by the start of `host`; the length and the rest are kept. */
  function Stamp(p: seq<byte>, host: seq<byte>): (r: seq<byte>)
    ensures |r| == |p|
    ensures forall i :: 0 <= i < |p| && i < |host| ==> r[i] == host[i]
    ensures forall i :: |host| <= i < |p| ==> r[i] == p[i]
  {
    var n := Min(|p|, |host|);
    host[..n] + p[n..]
  }

  /** The server's stamp of one packet; `os.Hostname()` failing (None) leaves
      the packet as it came. */
  function ServerStamp(p: seq<byte>, hostname: Option<seq<byte>>): (r: seq<byte>)
    ensures |r| == |p|
    ensures hostname.None? ==> r == p
    ensures hostname.Some? ==>
              && (forall i :: 0 <= i < |p| && i < |hostname.value| ==> r[i] == hostname.value[i])
              && (forall i :: |hostname.value| <= i < |p| ==> r[i] == p[i])
  {
    match hostname
    case Some(h) => Stamp(p, h)
    case None => p
  }

  /** The first full-size reply a TCP client reads: the stamped probe followed
      by the plain echo of the rest of its first packet. */
  function TcpFirstReply(sent: seq<byte>, hostname: Option<seq<byte>>): (r: seq<byte>)
    requires |sent| >= ProbeSize
    ensures |r| == |sent|
    ensures r[ProbeSize..] == sent[ProbeSize..]
  {
    ServerStamp(sent[..ProbeSize], hostname) + sent[ProbeSize..]
  }

  /** `bytes.IndexByte`: the index of the first `b` in `p`, or -1. */
  function IndexByte(p: seq<byte>, b: byte): (n: int)
    ensures n == -1 <==> b !in p
    ensures n != -1 ==> 0 <= n < |p| && p[n] == b && b !in p[..n]
  {
    if |p| == 0 then -1
    else if p[0] == b then 0
    else
      var n := IndexByte(p[1..], b);
      assert p == [p[0]] + p[1..];
      if n == -1 then -1
      else
        assert p[..n + 1] == [p[0]] + p[1..][..n];
        n + 1
  }

  /** The client's hostname after parsing a received packet: the bytes before
      the first NUL when that NUL is at a position n > 0, else `host` as it was. */
  function ExtractHost(p: seq<byte>, host: seq<byte>): (r: seq<byte>)
    ensures (|p| > 0 && p[0] != 0 && 0 in p) ==>
              0 < |r| < |p| && r == p[..|r|] && p[|r|] == 0 && 0 !in r
    ensures !(|p| > 0 && p[0] != 0 && 0 in p) ==> r == host
  {
    var n := IndexByte(p, 0);
    if n > 0 then p[..n] else host
  }

  /** Go's `string(b)`: one char per byte, no decoding. */
  function AsString(b: seq<byte>): (s: string)
    ensures |s| == |b| && forall i :: 0 <= i < |b| ==> s[i] as int == b[i] as int
  {
    seq(|b|, i requires 0 <= i < |b| => (b[i] as int) as char)
  }

  /** Distinct byte strings make distinct Go strings, so records grouped by
      their host string are grouped by the bytes the client recorded. */
  lemma AsStringInjective(a: seq<byte>, b: seq<byte>)
    ensures AsString(a) == AsString(b) <==> a == b
  {
  }

  /** A TCP peer whose hostname has 1 to 63 bytes and no NUL is recovered
      exactly from the reply to the client's zero-filled first packet. */
  lemma TcpHostnameRoundTrip(name: seq<byte>, psize: nat, host: seq<byte>)
    requires 0 < |name| < ProbeSize && 0 !in name
    requires psize >= ProbeSize
    ensures ExtractHost(TcpFirstReply(Zeros(psize), Some(name)), host) == name
  {
    var r := TcpFirstReply(Zeros(psize), Some(name));
    assert r[..|name|] == name;
    assert r[|name|] == 0;
    assert 0 in r;
  }

  /** A TCP peer name of 64 bytes or more is cut to 64 bytes when the packet
      has room for a following NUL, and is not recorded at all when the packet
      is exactly the 64-byte probe. */
  lemma TcpHostnameTruncated(name: seq<byte>, psize: nat, host: seq<byte>)
    requires |name| >= ProbeSize && 0 !in name
    requires psize >= ProbeSize
    ensures psize > ProbeSize ==>
              ExtractHost(TcpFirstReply(Zeros(psize), Some(name)), host) == name[..ProbeSize]
    ensures psize == ProbeSize ==>
              ExtractHost(TcpFirstReply(Zeros(psize), Some(name)), host) == host
  {
    var r := TcpFirstReply(Zeros(psize), Some(name));
    assert r[..ProbeSize] == name[..ProbeSize];
    if psize > ProbeSize {
      assert r[ProbeSize] == r[ProbeSize..][0] == Zeros(psize)[ProbeSize..][0] == 0;
      assert 0 in r;
    } else {
      assert r == name[..ProbeSize];
      assert forall i :: 0 <= i < |r| ==> r[i] == name[i];
      assert 0 !in r;
    }
  }

  /** A peer that stamps nothing (a legacy server, a failed `os.Hostname`, an
      empty name) leaves the client's hostname unchanged. */
  lemma NoHostnameKeepsHost(sent: seq<byte>, hostname: Option<seq<byte>>, host: seq<byte>)
    requires |sent| >= ProbeSize && sent[0] == 0
    requires hostname.None? || hostname.value == []
    ensures ExtractHost(TcpFirstReply(sent, hostname), host) == host
  {
  }

  /** Over UDP the whole datagram is stamped, so any NUL-free name shorter
      than the packet is recovered exactly. */
  lemma UdpHostnameRoundTrip(name: seq<byte>, psize: nat, host: seq<byte>)
    requires 0 < |name| < psize && 0 !in name
    ensures ExtractHost(ServerStamp(Zeros(psize), Some(name)), host) == name
  {
    var r := ServerStamp(Zeros(psize), Some(name));
    assert r[..|name|] == name;
    assert r[|name|] == 0;
    assert 0 in r;
  }
}
