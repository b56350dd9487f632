/**
 * Source-address helpers of the client: the ":0" port normaliser applied to
 * every source address, and the file-backed address pool indexed by slot.
 *
 * Go strings are byte strings; a `string` here stands for one, one char per byte.
 */
module Address {

  /** `t` occurs in `s` starting at offset `k`. */
  predicate OccursAt(s: string, t: string, k: int)
  {
    0 <= k && k + |t| <= |s| && s[k..k + |t|] == t
  }

  /** Substring search in the shape of `strings.Contains`. */
  function Contains(s: string, t: string): (r: bool)
    ensures r <==> exists k :: OccursAt(s, t, k)
    decreases |s|
  {
    if |t| > |s| then
      assert forall k :: !OccursAt(s, t, k);
      false
    else if s[..|t|] == t then
      assert OccursAt(s, t, 0);
      true
    else
      var rest := Contains(s[1..], t);
      assert forall k :: OccursAt(s[1..], t, k) <==> OccursAt(s, t, k + 1) by {
        forall k ensures OccursAt(s[1..], t, k) <==> OccursAt(s, t, k + 1) {
          if 0 <= k && k + |t| <= |s| - 1 {
            assert s[1..][k..k + |t|] == s[k + 1..k + 1 + |t|];
          }
        }
      }
      assert !OccursAt(s, t, 0);
      assert forall k :: OccursAt(s, t, k) ==> k >= 1 && OccursAt(s[1..], t, k - 1);
      rest
  }

  /** `strings.ContainsAny`: some char of `s` is one of `chars`. */
  predicate ContainsAny(s: string, chars: string)
  {
    exists i :: 0 <= i < |s| && s[i] in chars
  }

  /**
   * Appends the port ":0" to an address that does not carry one. A bracketed
   * (IPv6) address has a port when "]:" occurs in it; any other address has
   * one when it contains a colon.
   */
  function WithPort(adr: string): (r: string)
    ensures r == adr || r == adr + ":0"
    ensures r == adr <==>
              (ContainsAny(adr, "[]") && Contains(adr, "]:")) ||
              (!ContainsAny(adr, "[]") && ContainsAny(adr, ":"))
    ensures ContainsAny(r, ":")
  {
    if ContainsAny(adr, "[]") && Contains(adr, "]:") then
      var k :| OccursAt(adr, "]:", k);
      assert adr[k + 1] == adr[k..k + 2][1];
      adr
    else if !ContainsAny(adr, "[]") && ContainsAny(adr, ":") then
      adr
    else
      var r := adr + ":0";
      assert r[|adr|] == ':';
      assert |r| != |adr|;
      r
  }

  /**
   * `addrPool.GetIPStringIdx`: line `cursor` of the pool, or "" once the pool
   * is exhausted.
   */
  function Lookup(lines: seq<string>, cursor: nat): (a: string)
    ensures cursor < |lines| ==> a == lines[cursor]
    ensures cursor >= |lines| ==> a == ""
    ensures a == "" <==> cursor >= |lines| || lines[cursor] == ""
    ensures a == "" || a in lines
  {
    if cursor < |lines| then lines[cursor] else ""
  }

  /** A pool whose every line is non-empty hands out an address exactly for
      the slots below its length. */
  lemma LookupExhaustedExactlyAtLength(lines: seq<string>, cursor: nat)
    requires forall i :: 0 <= i < |lines| ==> lines[i] != ""
    ensures Lookup(lines, cursor) == "" <==> cursor >= |lines|
  {
  }
}
