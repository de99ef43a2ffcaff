/** The one paging iterator behind every fold of the ledger. */
module Paging {
  import opened Canvas

  const PAGE_SIZE := 4000
  const MAX_FRAME_PAGES := 50

  /** One query: at most `limit` transfers stamped at or after `from`, in order. */
  function QueryCanvasTransfers(l: seq<Transfer>, from: nat, limit: nat): seq<Transfer> {
    var i := CountBefore(l, from);
    l[i..if i + limit < |l| then i + limit else |l|]
  }

  /** The index of the first transfer the callback stops at, or the length if it stops at none. */
  function FirstStop(s: seq<Transfer>, stop: Transfer -> bool): (k: nat)
    ensures k <= |s|
    ensures forall i :: 0 <= i < k ==> !stop(s[i])
    ensures k < |s| ==> stop(s[k])
  {
    if s == [] || stop(s[0]) then 0 else 1 + FirstStop(s[1..], stop)
  }

  lemma {:induction false} FirstStopIs(s: seq<Transfer>, stop: Transfer -> bool, k: nat)
    requires k <= |s| && (forall i :: 0 <= i < k ==> !stop(s[i])) && (k < |s| ==> stop(s[k]))
    ensures FirstStop(s, stop) == k
  {
    if k > 0 {
      FirstStopIs(s[1..], stop, k - 1);
    }
  }

  /** A callback that never stops is handed everything. */
  lemma NeverStops(s: seq<Transfer>)
    ensures FirstStop(s, _ => false) == |s|
  {
    FirstStopIs(s, _ => false, |s|);
  }

  /** A callback that stops past an instant is handed exactly the transfers before it. */
  lemma StopsPast(l: seq<Transfer>, from: nat, to: nat)
    requires Ordered(l) && from <= to + 1
    ensures var i, j := CountBefore(l, from), CountBefore(l, to + 1);
            i <= j && FirstStop(l[i..], (t: Transfer) => t.timestamp > to) == j - i
  {
    CountBeforeMonotone(l, from, to + 1);
    CountBeforeSplits(l, to + 1);
    var i, j := CountBefore(l, from), CountBefore(l, to + 1);
    FirstStopIs(l[i..], (t: Transfer) => t.timestamp > to, j - i);
  }

  /** Hands the callback every transfer from `fromNs` on, once and in order, up to the one it stops
      at. `visited` is what the callback was handed; a positive `maxPages` bounds the queries. */
  method FoldFrom(l: seq<Transfer>, fromNs: nat, maxPages: nat, stop: Transfer -> bool)
      returns (visited: seq<Transfer>, pages: nat, tooBroad: bool)
    requires Ordered(l)
    ensures var s := l[CountBefore(l, fromNs)..];
            var k := FirstStop(s, stop);
            && (tooBroad <==> maxPages > 0 && maxPages * 4000 <= k)
            && (tooBroad ==> visited == s[..maxPages * 4000] && pages == maxPages)
            && (!tooBroad ==> visited == (if k < |s| then s[..k + 1] else s) && pages == k / 4000 + 1)
  {
    hide CountBefore, FirstStop, Ordered;
    var from: nat := fromNs;
    visited, pages, tooBroad := [], 0, false;
    ghost var base := CountBefore(l, fromNs);
    ghost var s := l[base..];
    while true
      invariant pages * PAGE_SIZE <= |s| && CountBefore(l, from) == base + pages * PAGE_SIZE
      invariant visited == s[..pages * PAGE_SIZE]
      invariant forall i :: 0 <= i < pages * PAGE_SIZE ==> !stop(s[i])
      invariant maxPages > 0 ==> pages < maxPages
      decreases |s| - pages * PAGE_SIZE
    {
      var page := QueryCanvasTransfers(l, from, PAGE_SIZE);
      ghost var done := pages * PAGE_SIZE;
      pages := pages + 1;
      for i := 0 to |page|
        invariant visited == s[..done + i]
        invariant forall j :: 0 <= j < done + i ==> !stop(s[j])
      {
        var t := page[i];
        assert t == s[done + i];
        visited := visited + [t];
        if stop(t) {
          FirstStopIs(s, stop, done + i);
          return;
        }
      }
      if |page| < PAGE_SIZE {
        FirstStopIs(s, stop, |s|);
        assert visited == s;
        return;
      }
      if maxPages > 0 && pages >= maxPages {
        tooBroad := true;
        return;
      }
      CountAfter(l, base + done + PAGE_SIZE - 1);
      from := page[|page| - 1].timestamp + 1;
    }
  }
}
