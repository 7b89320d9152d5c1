/**
 The classic branch of MinerEngine::workerLoop: the header each worker hands to the
 algorithm, how much of it the algorithm hashes, and when two workers, or two moments
 of one worker, hash the same.
 */
module ClassicWork {
  import opened Powers
  import opened Divisibility
  import opened Hex
  import opened Nonces
  import opened Octets
  import Sha256d
  import Cryptonight

  const HEADER_LIMIT: nat := 200

  /** The two algorithms the factory knows, under whichever of their names. */
  datatype Algorithm = Sha256d | Cryptonight

  /** How much of a header reaches the hash: all that is left of it, or 72 characters. */
  function Reach(a: Algorithm): nat {
    match a
    case Sha256d => HEADER_LIMIT
    case Cryptonight => Cryptonight.DATA_BYTES
  }

  /** What the job contributes before and after the worker's extranonce2. */
  datatype Template = Template(prefix: string, suffix: string, extranonce2Size: nat)

  function JobTemplate(prevHash: string, coinbase1: string, extranonce1: string, coinbase2: string,
                       version: string, bits: string, time: string, extranonce2Size: nat): Template {
    Template(prevHash + coinbase1 + extranonce1, coinbase2 + version + bits + time, extranonce2Size)
  }

  function Extranonce2(t: Template, worker: nat): string {
    ToHex(worker, t.extranonce2Size * 2)
  }

  function Cut(s: string, limit: nat): string {
    if |s| > limit then s[..limit] else s
  }

  /** The start of what the worker assembles. */
  function Seen(t: Template, worker: nat, limit: nat): string {
    Cut(t.prefix + Extranonce2(t, worker) + t.suffix, limit)
  }

  function Shorten(s: string): string {
    Cut(s, HEADER_LIMIT)
  }

  function Header(t: Template, worker: nat): string {
    Shorten(t.prefix + Extranonce2(t, worker) + t.suffix)
  }

  /** The extranonce2 width holds the worker index. */
  predicate Holds(t: Template, worker: nat) {
    t.extranonce2Size > 0 && worker < Power(16, t.extranonce2Size * 2)
  }

  /** How many characters of extranonce2 survive a cut. */
  function Visible(t: Template, limit: nat): nat {
    var width, room := t.extranonce2Size * 2, limit - |t.prefix|;
    if room <= 0 then 0 else if room < width then room else width
  }

  /** All of them do. */
  predicate Fits(t: Template, limit: nat) {
    |t.prefix| + t.extranonce2Size * 2 <= limit
  }

  lemma SameCut(p: string, x: string, y: string, s: string, limit: nat)
    requires |x| == |y|
    ensures var v := if limit <= |p| then 0 else if limit - |p| < |x| then limit - |p| else |x|;
            Cut(p + x + s, limit) == Cut(p + y + s, limit) <==> x[..v] == y[..v]
  {
    var v := if limit <= |p| then 0 else if limit - |p| < |x| then limit - |p| else |x|;
    var ca, cb := Cut(p + x + s, limit), Cut(p + y + s, limit);
    assert |ca| == |cb|;
    if x[..v] == y[..v] {
      forall i | 0 <= i < |ca| ensures ca[i] == cb[i] {
        if |p| <= i < |p| + |x| {
          assert x[..v][i - |p|] == y[..v][i - |p|];
        }
      }
    }
    if ca == cb {
      forall i | 0 <= i < v ensures x[i] == y[i] {
        assert ca[|p| + i] == x[i] && cb[|p| + i] == y[i];
      }
    }
  }

  /** Two workers' headers differ before a cut exactly when the surviving extranonce2 does. */
  lemma HeadersDiffer(t: Template, v: nat, w: nat, limit: nat)
    requires Holds(t, v) && Holds(t, w)
    ensures |Extranonce2(t, v)| == t.extranonce2Size * 2 && |Extranonce2(t, w)| == t.extranonce2Size * 2
    ensures Seen(t, v, limit) == Seen(t, w, limit)
       <==> Extranonce2(t, v)[..Visible(t, limit)] == Extranonce2(t, w)[..Visible(t, limit)]
  {
    ToHexLength(v, t.extranonce2Size * 2);
    ToHexLength(w, t.extranonce2Size * 2);
    hide Cut;
    SameCut(t.prefix, Extranonce2(t, v), Extranonce2(t, w), t.suffix, limit);
  }

  /** When the whole extranonce2 survives, distinct workers have distinct headers. */
  lemma HeadersInjective(t: Template, v: nat, w: nat, limit: nat)
    requires Holds(t, v) && Holds(t, w) && Fits(t, limit)
    ensures Seen(t, v, limit) == Seen(t, w, limit) <==> v == w
  {
    HeadersDiffer(t, v, w, limit);
    ToHexInjective(v, w, t.extranonce2Size * 2);
    hide ToHex, Seen;
    assert Extranonce2(t, v)[..Visible(t, limit)] == Extranonce2(t, v);
    assert Extranonce2(t, w)[..Visible(t, limit)] == Extranonce2(t, w);
  }

  /** A prefix as long as the cut leaves every worker with the same header. */
  lemma LongPrefixSharesHeader(t: Template, v: nat, w: nat, limit: nat)
    requires Holds(t, v) && Holds(t, w) && |t.prefix| >= limit
    ensures Seen(t, v, limit) == Seen(t, w, limit)
  {
    HeadersDiffer(t, v, w, limit);
  }

  /** Indices zero and one differ in their last digit only. */
  lemma FirstTwoWorkers(t: Template)
    requires Holds(t, 1)
    ensures var width := t.extranonce2Size * 2;
            && |Extranonce2(t, 0)| == |Extranonce2(t, 1)| == width
            && Extranonce2(t, 0)[..width - 1] == Extranonce2(t, 1)[..width - 1]
  {
    assert Digits(0) == "0" && Digits(1) == "1";
  }

  /** No two of n workers have the same header before the cut. */
  ghost predicate HeadersDistinct(t: Template, n: nat, limit: nat) {
    forall v, w :: 0 <= v < w < n ==> Seen(t, v, limit) != Seen(t, w, limit)
  }

  /** One character of extranonce2 cut is enough for two workers to share a header. */
  lemma HeadersDistinctIffFits(t: Template, n: nat, limit: nat)
    requires n >= 2 && Holds(t, n - 1)
    ensures HeadersDistinct(t, n, limit) <==> Fits(t, limit)
  {
    if Fits(t, limit) {
      forall v, w | 0 <= v < w < n ensures Seen(t, v, limit) != Seen(t, w, limit) {
        HeadersInjective(t, v, w, limit);
      }
    } else {
      FirstTwoShare(t, limit);
      assert Seen(t, 0, limit) == Seen(t, 1, limit);
    }
  }

  lemma FirstTwoShare(t: Template, limit: nat)
    requires Holds(t, 1) && !Fits(t, limit)
    ensures Seen(t, 0, limit) == Seen(t, 1, limit)
  {
    FirstTwoWorkers(t);
    HeadersDiffer(t, 0, 1, limit);
    hide Seen, Extranonce2;
    var width, kept := t.extranonce2Size * 2, Visible(t, limit);
    assert Extranonce2(t, 0)[..width - 1][..kept] == Extranonce2(t, 0)[..kept];
    assert Extranonce2(t, 1)[..width - 1][..kept] == Extranonce2(t, 1)[..kept];
  }

  // ------------------------------------------------------- the bytes hashed

  predicate ByteText(s: string) {
    forall i :: 0 <= i < |s| ==> s[i] as int < 256
  }

  function Bytes(s: string): (r: seq<bv8>)
    requires ByteText(s)
    ensures |r| == |s|
  {
    seq(|s|, i requires 0 <= i < |s| => Octet(s[i] as int))
  }

  lemma BytesInjective(s: string, t: string)
    requires ByteText(s) && ByteText(t)
    ensures Bytes(s) == Bytes(t) <==> s == t
  {
    if Bytes(s) == Bytes(t) {
      forall i | 0 <= i < |s| ensures s[i] == t[i] {
        assert Bytes(s)[i] == Bytes(t)[i];
        OctetValue(s[i] as int);
        OctetValue(t[i] as int);
      }
    }
  }

  lemma BytesOfCut(s: string, limit: nat)
    requires ByteText(s)
    ensures ByteText(Cut(s, limit))
    ensures Bytes(Cut(s, limit)) == if |s| > limit then Bytes(s)[..limit] else Bytes(s)
  {
    hide Octet;
  }

  /** The bytes an algorithm hashes when it is handed data and a nonce. */
  function HashInput(a: Algorithm, data: seq<bv8>, nonce: nat): seq<bv8>
    requires nonce < MODULUS
  {
    match a
    case Sha256d => data + Sha256d.NonceBytes(nonce)
    case Cryptonight => Cryptonight.Block(data, nonce)
  }

  lemma Sha256dInputs(c: seq<bv8>, m: nat, d: seq<bv8>, n: nat)
    requires m < MODULUS && n < MODULUS
    ensures HashInput(Sha256d, c, m) == HashInput(Sha256d, d, n) <==> c == d && m == n
  {
    Sha256d.NonceBytesInjective(m, n);
    hide Sha256d.NonceBytes;
    var a, b := HashInput(Sha256d, c, m), HashInput(Sha256d, d, n);
    if a == b {
      assert |a| == |c| + 4 && |b| == |d| + 4;
      assert a[..|c|] == c && b[..|d|] == d;
      assert a[|c|..] == Sha256d.NonceBytes(m) && b[|d|..] == Sha256d.NonceBytes(n);
    }
  }

  /** What the hash of a header and nonce depends on: as much of the header as it reaches, and the nonce. */
  lemma InputsAgree(a: Algorithm, h: string, m: nat, g: string, n: nat)
    requires ByteText(h) && ByteText(g) && m < MODULUS && n < MODULUS
    requires |h| == |g| <= HEADER_LIMIT
    ensures HashInput(a, Bytes(h), m) == HashInput(a, Bytes(g), n)
       <==> Cut(h, Reach(a)) == Cut(g, Reach(a)) && m == n
  {
    BytesOfCut(h, Reach(a));
    BytesOfCut(g, Reach(a));
    BytesInjective(Cut(h, Reach(a)), Cut(g, Reach(a)));
    hide Bytes, HashInput;
    match a
    case Sha256d =>
      Sha256dInputs(Bytes(h), m, Bytes(g), n);
    case Cryptonight =>
      CryptonightInputs(Bytes(h), m, Bytes(g), n);
  }

  lemma CryptonightInputs(c: seq<bv8>, m: nat, d: seq<bv8>, n: nat)
    requires |c| == |d| && m < MODULUS && n < MODULUS
    ensures HashInput(Cryptonight, c, m) == HashInput(Cryptonight, d, n)
       <==> Cryptonight.Start(c) == Cryptonight.Start(d) && m == n
  {
    Cryptonight.BlocksAgree(c, m, d, n);
  }

  /** Every header leaves room for the nonce in the 256-byte buffer, so sha256d hashes it. */
  lemma InputFits(t: Template, worker: nat, nonce: nat)
    requires ByteText(Header(t, worker)) && nonce < MODULUS
    ensures |HashInput(Sha256d, Bytes(Header(t, worker)), nonce)| <= HEADER_LIMIT + 4 <= 256
  {
  }

  predicate ByteTemplate(t: Template) {
    ByteText(t.prefix) && ByteText(t.suffix)
  }

  lemma HeaderIsBytes(t: Template, worker: nat)
    requires ByteTemplate(t)
    ensures ByteText(Header(t, worker))
  {
    ToHexValue(worker, t.extranonce2Size * 2);
    hide ToHex;
  }

  /** What worker w hashes at its k-th step. */
  function Work(a: Algorithm, t: Template, step: nat, worker: nat, k: nat): seq<bv8>
    requires ByteTemplate(t)
  {
    HeaderIsBytes(t, worker);
    HashInput(a, Bytes(Header(t, worker)), NonceAt(StartNonce(worker), step, k))
  }

  lemma CutTwice(s: string, outer: nat, inner: nat)
    requires inner <= outer
    ensures Cut(Cut(s, outer), inner) == Cut(s, inner)
  {
  }

  lemma HeaderSizes(t: Template, v: nat, w: nat)
    requires Holds(t, v) && Holds(t, w)
    ensures |Header(t, v)| == |Header(t, w)| <= HEADER_LIMIT
  {
    ToHexLength(v, t.extranonce2Size * 2);
    ToHexLength(w, t.extranonce2Size * 2);
    hide ToHex;
  }

  /** Two steps hash the same exactly when the headers agree as far as the hash reaches, and the nonces do. */
  lemma WorkAgrees(a: Algorithm, t: Template, step: nat, v: nat, j: nat, w: nat, k: nat)
    requires Holds(t, v) && Holds(t, w) && ByteTemplate(t)
    ensures Work(a, t, step, v, j) == Work(a, t, step, w, k)
       <==> Seen(t, v, Reach(a)) == Seen(t, w, Reach(a))
            && NonceAt(StartNonce(v), step, j) == NonceAt(StartNonce(w), step, k)
  {
    HeaderIsBytes(t, v);
    HeaderIsBytes(t, w);
    HeaderSizes(t, v, w);
    CutTwice(t.prefix + Extranonce2(t, v) + t.suffix, HEADER_LIMIT, Reach(a));
    CutTwice(t.prefix + Extranonce2(t, w) + t.suffix, HEADER_LIMIT, Reach(a));
    hide Cut, Extranonce2, HashInput, Bytes;
    InputsAgree(a, Header(t, v), NonceAt(StartNonce(v), step, j), Header(t, w), NonceAt(StartNonce(w), step, k));
  }

  /** No duplicated work: an input comes back only to its own worker, after whole periods. */
  lemma NoDuplicatedWork(a: Algorithm, t: Template, step: nat, v: nat, j: nat, w: nat, k: nat)
    requires 0 < step < MODULUS && Holds(t, v) && Holds(t, w) && Fits(t, Reach(a)) && ByteTemplate(t)
    ensures Work(a, t, step, v, j) == Work(a, t, step, w, k) <==> v == w && Divides(Period(step), j - k)
  {
    hide Seen, Work, Reach;
    WorkAgrees(a, t, step, v, j, w, k);
    HeadersInjective(t, v, w, Reach(a));
    WalkRepeats(StartNonce(v), step, j, k);
  }

  /** Worker v at some step and worker w at some step hash the same input. */
  ghost predicate Collide(a: Algorithm, t: Template, step: nat, v: nat, w: nat)
    requires ByteTemplate(t)
  {
    exists j: nat, k: nat :: Work(a, t, step, v, j) == Work(a, t, step, w, k)
  }

  /** Whether or not anything is cut: two workers meet if and only if header and residue class agree. */
  lemma CollideIff(a: Algorithm, t: Template, step: nat, v: nat, w: nat)
    requires 0 < step < MODULUS && Holds(t, v) && Holds(t, w) && ByteTemplate(t)
    ensures Collide(a, t, step, v, w)
       <==> Seen(t, v, Reach(a)) == Seen(t, w, Reach(a)) && InOrbit(StartNonce(w), step, StartNonce(v))
    ensures Collide(a, t, step, v, w) ==>
              exists k: nat :: k < Period(step) && Work(a, t, step, v, 0) == Work(a, t, step, w, k)
  {
    hide Seen, Period, Work, InOrbit, StartNonce, Reach;
    forall j: nat, k: nat | Work(a, t, step, v, j) == Work(a, t, step, w, k)
      ensures Seen(t, v, Reach(a)) == Seen(t, w, Reach(a)) && InOrbit(StartNonce(w), step, StartNonce(v))
    {
      WorkAgrees(a, t, step, v, j, w, k);
      StartIsNonce(v, step);
      SameOrbit(step, StartNonce(v), j, StartNonce(w), k);
    }
    if Seen(t, v, Reach(a)) == Seen(t, w, Reach(a)) && InOrbit(StartNonce(w), step, StartNonce(v)) {
      var k := WalkCovers(StartNonce(w), step, StartNonce(v));
      StartIsNonce(v, step);
      WorkAgrees(a, t, step, v, 0, w, k);
    }
  }

  lemma SameOrbit(step: nat, b: nat, j: nat, c: nat, k: nat)
    requires 0 < step < MODULUS && b < MODULUS && NonceAt(b, step, j) == NonceAt(c, step, k)
    ensures InOrbit(c, step, b)
  {
    WalkStays(b, step, j);
    WalkStays(c, step, k);
    hide NonceAt, Twos, Power;
  }

  /** With at most 24 factors of two in the step all starts are in one residue class. */
  lemma StartsAgree(step: nat, v: nat, w: nat)
    requires 0 < step < MODULUS && Twos(step) <= 24
    ensures InOrbit(StartNonce(w), step, StartNonce(v))
  {
    StartIsMultiple(Twos(step), v);
    StartIsMultiple(Twos(step), w);
  }

  lemma StartIsMultiple(k: nat, w: nat)
    requires k <= 24
    ensures StartNonce(w) % Power(2, k) == 0
  {
    ModulusIsPow2();
    Pow2Add(k, 24 - k);
    StartIs(w);
    MulAssoc(Power(2, k), Power(2, 24 - k), w % 256);
    hide Power, StartNonce;
    RemainderIs(StartNonce(w), Power(2, k), Power(2, 24 - k) * (w % 256), 0);
  }

  lemma StartIs(w: nat)
    ensures StartNonce(w) == WORKER_STRIDE * (w % 256)
  {
    RemainderIs(w * WORKER_STRIDE, MODULUS, w / 256, WORKER_STRIDE * (w % 256));
  }

  /** No two of n workers hash the same input within their first `limit` steps. */
  ghost predicate WorkDistinct(a: Algorithm, t: Template, step: nat, n: nat, limit: nat)
    requires ByteTemplate(t)
  {
    forall v: nat, w: nat, j: nat, k: nat :: v < w < n && j < limit && k < limit ==>
      Work(a, t, step, v, j) != Work(a, t, step, w, k)
  }

  /**
   The exact condition for the split between workers: over one period of steps or any
   longer stretch no input is hashed by two of them if and only if the whole of
   extranonce2 lies within what the algorithm hashes, 200 characters or 72.
   */
  lemma WorkDistinctIffFits(a: Algorithm, t: Template, step: nat, n: nat, limit: nat)
    requires 0 < step < MODULUS && Twos(step) <= 24 && n >= 2 && Holds(t, n - 1) && ByteTemplate(t)
    requires limit >= Period(step)
    ensures WorkDistinct(a, t, step, n, limit) <==> Fits(t, Reach(a))
  {
    hide Work, Seen, Reach;
    if Fits(t, Reach(a)) {
      forall v: nat, w: nat, j: nat, k: nat | v < w < n && j < limit && k < limit
        ensures Work(a, t, step, v, j) != Work(a, t, step, w, k)
      {
        NoDuplicatedWork(a, t, step, v, j, w, k);
      }
    } else {
      FirstTwoShare(t, Reach(a));
      StartsAgree(step, 0, 1);
      CollideIff(a, t, step, 0, 1);
      var k: nat :| k < Period(step) && Work(a, t, step, 0, 0) == Work(a, t, step, 1, k);
      assert 0 < limit;
    }
  }

  /** The job the program publishes until the pool answers. */
  function StandbyTemplate(): Template {
    JobTemplate(Zeros(64), "synthetic-coinbase1", "aabbccdd", "synthetic-coinbase2",
                "20000000", "1d00ffff", "00000000", 4)
  }

  function Zeros(n: nat): string {
    seq(n, i => '0')
  }

  lemma StandbySizes()
    ensures ByteTemplate(StandbyTemplate()) && |StandbyTemplate().prefix| == 91
  {
  }

  /**
   On the standby job the two algorithms differ: sha256d hashes each worker's own
   extranonce2, while CryptoNight hashes one block for all workers at equal nonces.
   */
  lemma StandbyWork(step: nat, v: nat, j: nat, w: nat, k: nat)
    requires 0 < step < MODULUS && Holds(StandbyTemplate(), v) && Holds(StandbyTemplate(), w)
    ensures ByteTemplate(StandbyTemplate())
    ensures Work(Sha256d, StandbyTemplate(), step, v, j) == Work(Sha256d, StandbyTemplate(), step, w, k)
       <==> v == w && Divides(Period(step), j - k)
    ensures Work(Cryptonight, StandbyTemplate(), step, v, j) == Work(Cryptonight, StandbyTemplate(), step, w, k)
       <==> NonceAt(StartNonce(v), step, j) == NonceAt(StartNonce(w), step, k)
  {
    StandbySizes();
    var t := StandbyTemplate();
    assert t.extranonce2Size == 4;
    hide StandbyTemplate, Work, Seen, NonceAt, Holds;
    NoDuplicatedWork(Sha256d, t, step, v, j, w, k);
    WorkAgrees(Cryptonight, t, step, v, j, w, k);
    LongPrefixSharesHeader(t, v, w, Reach(Cryptonight));
  }
}
