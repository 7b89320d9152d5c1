/**
 Where a job's fields stand in the header that is hashed, and what of it the share repeats.
 */
module HeaderLayout {
  import opened Powers
  import opened Hex
  import opened Stratum
  import opened ClassicWork
  import opened Workers
  import Blob

  /** The eight parts of a header, in order. */
  function Parts(job: MiningJob, extranonce2: string): seq<string> {
    [job.prevHash, job.coinbase1, job.extranonce1, extranonce2, job.coinbase2, job.version, job.bits, job.time]
  }

  /** Where part k begins: behind the lengths of those before it. */
  function Offset(parts: seq<string>, k: nat): nat
    requires k <= |parts|
  {
    if k == 0 then 0 else Offset(parts, k - 1) + |parts[k - 1]|
  }

  predicate LaysOut(header: string, parts: seq<string>) {
    && |header| == Offset(parts, |parts|)
    && forall k :: 0 <= k < |parts| ==> PartAt(header, Offset(parts, k), parts[k])
  }

  predicate PartAt(header: string, from: nat, part: string) {
    from + |part| <= |header| && header[from..from + |part|] == part
  }

  function SideBySide(parts: seq<string>): string {
    if parts == [] then "" else SideBySide(parts[..|parts| - 1]) + parts[|parts| - 1]
  }

  lemma {:induction false} OffsetOfPrefix(parts: seq<string>, part: string, k: nat)
    requires k <= |parts|
    ensures Offset(parts + [part], k) == Offset(parts, k)
  {
    if k > 0 {
      OffsetOfPrefix(parts, part, k - 1);
    }
  }

  lemma StillAt(header: string, more: string, from: nat, part: string)
    requires PartAt(header, from, part)
    ensures PartAt(header + more, from, part)
  {
    assert (header + more)[from..from + |part|] == header[from..from + |part|];
  }

  lemma LastAt(header: string, part: string)
    ensures PartAt(header + part, |header|, part)
  {
  }

  lemma AddPart(header: string, parts: seq<string>, part: string)
    requires LaysOut(header, parts)
    ensures LaysOut(header + part, parts + [part])
  {
    var all := parts + [part];
    OffsetOfPrefix(parts, part, |parts|);
    assert Offset(all, |all|) == Offset(all, |parts|) + |part|;
    LastAt(header, part);
    hide Offset, PartAt;
    forall k | 0 <= k < |all| ensures PartAt(header + part, Offset(all, k), all[k]) {
      if k < |parts| {
        OffsetOfPrefix(parts, part, k);
        assert PartAt(header, Offset(parts, k), parts[k]);
        StillAt(header, part, Offset(parts, k), parts[k]);
      }
    }
  }

  lemma {:induction false} SideBySideLaysOut(parts: seq<string>)
    ensures LaysOut(SideBySide(parts), parts)
  {
    hide LaysOut;
    if parts == [] {
      NothingLaysOut();
    } else {
      var init, last := parts[..|parts| - 1], parts[|parts| - 1];
      assert parts == init + [last];
      SideBySideLaysOut(init);
      AddPart(SideBySide(init), init, last);
    }
  }

  lemma NothingLaysOut()
    ensures LaysOut("", [])
  {
  }

  lemma OneMore(parts: seq<string>, part: string)
    ensures SideBySide(parts + [part]) == SideBySide(parts) + part
  {
    assert (parts + [part])[..|parts|] == parts;
  }

  lemma FirstFour(a: string, b: string, c: string, d: string)
    ensures SideBySide([a, b, c, d]) == a + b + c + d
  {
    hide SideBySide;
    NoParts();
    OneMore([], a);
    OneMore([a], b);
    OneMore([a, b], c);
    OneMore([a, b, c], d);
    assert [] + [a] == [a] && [a] + [b] == [a, b] && [a, b] + [c] == [a, b, c] && [a, b, c] + [d] == [a, b, c, d];
    assert "" + a == a;
  }

  lemma NoParts()
    ensures SideBySide([]) == ""
  {
  }

  lemma FourMore(front: seq<string>, e: string, f: string, g: string, h: string)
    ensures SideBySide(front + [e, f, g, h]) == SideBySide(front) + e + f + g + h
  {
    hide SideBySide;
    OneMore(front, e);
    OneMore(front + [e], f);
    OneMore(front + [e, f], g);
    OneMore(front + [e, f, g], h);
    assert front + [e] + [f] == front + [e, f] && front + [e, f] + [g] == front + [e, f, g];
    assert front + [e, f, g] + [h] == front + [e, f, g, h];
  }

  lemma JoinedParts(job: MiningJob, x: string)
    ensures SideBySide(Parts(job, x))
         == job.prevHash + job.coinbase1 + job.extranonce1 + x + job.coinbase2 + job.version + job.bits + job.time
  {
    hide SideBySide;
    FirstFour(job.prevHash, job.coinbase1, job.extranonce1, x);
    FourMore([job.prevHash, job.coinbase1, job.extranonce1, x], job.coinbase2, job.version, job.bits, job.time);
    assert Parts(job, x)
        == [job.prevHash, job.coinbase1, job.extranonce1, x] + [job.coinbase2, job.version, job.bits, job.time];
  }

  /** The header a hash is made of, and the extranonce2 its share repeats. */
  lemma HashedHeader(u: Setup, x: Tried)
    requires Placed(x) && Classic(x.job)
    ensures AttemptOf(u, x).HeaderAttempt? && ShareOf(u, x).ClassicShare?
    ensures AttemptOf(u, x).header == First200(SideBySide(Parts(x.job, ShareOf(u, x).extranonce2)))
  {
    HeaderOfJob(x.job, x.worker);
    JoinedParts(x.job, ShareOf(u, x).extranonce2);
    hide Header, First200, SideBySide, Parts, ToHex;
  }

  /**
   In what is hashed for a job that fits in 200 characters, its eight parts stand side by
   side, each behind those before it and the last one at the end.
   */
  lemma HeaderIsLaidOut(u: Setup, x: Tried)
    requires Placed(x) && Classic(x.job)
    requires |SideBySide(Parts(x.job, ShareOf(u, x).extranonce2))| <= 200
    ensures LaysOut(AttemptOf(u, x).header, Parts(x.job, ShareOf(u, x).extranonce2))
  {
    HashedHeader(u, x);
    hide AttemptOf, ShareOf, Placed, Parts, SideBySide, LaysOut;
    SideBySideLaysOut(Parts(x.job, ShareOf(u, x).extranonce2));
  }

  /** Of a longer one the first 200 characters are hashed. */
  lemma LongHeaderIsCut(u: Setup, x: Tried, i: nat)
    requires Placed(x) && Classic(x.job) && i < 200
    requires |SideBySide(Parts(x.job, ShareOf(u, x).extranonce2))| > 200
    ensures |AttemptOf(u, x).header| == 200
    ensures AttemptOf(u, x).header[i] == SideBySide(Parts(x.job, ShareOf(u, x).extranonce2))[i]
  {
    HashedHeader(u, x);
    hide AttemptOf, ShareOf, Placed, Parts, SideBySide;
  }

  /** The part between the extranonce and the second half of the coinbase names the worker. */
  lemma Extranonce2NamesWorker(u: Setup, x: Tried)
    requires Placed(x) && Classic(x.job) && x.job.extranonce2Size > 0 && x.worker < Power(16, x.job.extranonce2Size * 2)
    ensures var s := ShareOf(u, x).extranonce2;
            && AllHex(s) && HexValue(s) == x.worker && |s| == x.job.extranonce2Size * 2
            && |ShareOf(u, x).nonceHex| == 8 && AllHex(ShareOf(u, x).nonceHex)
            && HexValue(ShareOf(u, x).nonceHex) == x.nonce == AttemptOf(u, x).nonce
            && ShareOf(u, x).ntime == x.job.time && ShareOf(u, x).jobId == x.job.jobId
  {
    ToHexLength(x.worker, x.job.extranonce2Size * 2);
    ToHexValue(x.worker, x.job.extranonce2Size * 2);
    Blob.FitsEight(x.nonce);
    ToHexValue(x.nonce, 8);
    hide ToHex, HexValue, Header;
  }
}
