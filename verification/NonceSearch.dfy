/** The proof-of-work searches of the node and the desktop miner, and the target tests they use. */
module NonceSearch {
  import opened Basics

  const SAFETY_LIMIT: nat := 10_000_000_000
  const CPU_BATCH: nat := 50000

  // ---- Targets ----

  /** The number a byte string spells, most significant byte first. */
  function BigEndian(bs: seq<Byte>): nat {
    if bs == [] then 0 else BigEndian(bs[..|bs| - 1]) * 256 + bs[|bs| - 1]
  }

  /** Lexicographic order on byte strings, the comparison the node uses. */
  predicate LexLe(a: seq<Byte>, b: seq<Byte>) {
    a == [] || (b != [] && (a[0] < b[0] || (a[0] == b[0] && LexLe(a[1..], b[1..]))))
  }

  function Pow256(n: nat): (r: nat)
    ensures r >= 1
  {
    if n == 0 then 1 else 256 * Pow256(n - 1)
  }

  lemma ShiftByte(x: nat, p: nat, r: nat)
    ensures (x * p + r) * 256 == x * (256 * p) + r * 256
  {
  }

  lemma BigEndianLast(bs: seq<Byte>, last: Byte)
    ensures BigEndian(bs + [last]) == BigEndian(bs) * 256 + last
  {
    assert (bs + [last])[..|bs|] == bs;
  }

  lemma {:induction false} BigEndianFront(bs: seq<Byte>)
    requires bs != []
    ensures BigEndian(bs) == bs[0] * Pow256(|bs| - 1) + BigEndian(bs[1..])
  {
    var n := |bs|;
    if n > 1 {
      var mid, last := bs[1..n - 1], bs[n - 1];
      BigEndianFront(bs[..n - 1]);
      hide BigEndian;
      assert bs == bs[..n - 1] + [last] && bs[1..] == mid + [last] && bs[..n - 1][1..] == mid;
      BigEndianLast(bs[..n - 1], last);
      BigEndianLast(mid, last);
      ShiftByte(bs[0], Pow256(n - 2), BigEndian(mid));
    }
  }

  lemma {:induction false} BigEndianBound(bs: seq<Byte>)
    ensures BigEndian(bs) < Pow256(|bs|)
  {
    if bs != [] {
      BigEndianBound(bs[..|bs| - 1]);
    }
  }

  lemma LeadingByteDecides(x: Byte, y: Byte, p: nat, r: nat, s: nat)
    requires x < y && r < p
    ensures x * p + r < y * p + s
  {
    assert (x + 1) * p <= y * p;
  }

  /** On strings of one length, lexicographic order is the order of the numbers they spell. */
  lemma {:induction false} LexIsNumeric(a: seq<Byte>, b: seq<Byte>)
    requires |a| == |b|
    ensures LexLe(a, b) <==> BigEndian(a) <= BigEndian(b)
  {
    if a != [] {
      BigEndianFront(a);
      BigEndianFront(b);
      BigEndianBound(a[1..]);
      BigEndianBound(b[1..]);
      LexIsNumeric(a[1..], b[1..]);
      var p := Pow256(|a| - 1);
      if a[0] < b[0] {
        LeadingByteDecides(a[0], b[0], p, BigEndian(a[1..]), BigEndian(b[1..]));
      } else if b[0] < a[0] {
        LeadingByteDecides(b[0], a[0], p, BigEndian(b[1..]), BigEndian(a[1..]));
      }
    }
  }

  lemma {:induction false} EqualPrefix(a: seq<Byte>, b: seq<Byte>, n: nat)
    requires n <= |a| == |b| && a[..n] == b[..n]
    ensures LexLe(a, b) <==> LexLe(a[n..], b[n..])
  {
    if n > 0 {
      assert a[0] == a[..n][0] == b[..n][0] == b[0];
      assert a[1..][..n - 1] == a[..n][1..] == b[..n][1..] == b[1..][..n - 1];
      EqualPrefix(a[1..], b[1..], n - 1);
      assert a[1..][n - 1..] == a[n..] && b[1..][n - 1..] == b[n..];
    } else {
      assert a[0..] == a && b[0..] == b;
    }
  }

  /** The desktop miner's byte loop tests the same numeric condition as the node's comparison. */
  method MeetsTarget(hash: seq<Byte>, target: seq<Byte>) returns (ok: bool)
    requires |hash| == |target|
    ensures ok == (BigEndian(hash) <= BigEndian(target)) == LexLe(hash, target)
  {
    LexIsNumeric(hash, target);
    for i := 0 to |hash|
      invariant hash[..i] == target[..i]
    {
      EqualPrefix(hash, target, i);
      if hash[i] < target[i] {
        return true;
      }
      if hash[i] > target[i] {
        return false;
      }
    }
    assert hash == hash[..|hash|] && target == target[..|target|];
    return true;
  }

  // ---- The node's search ----

  datatype Header = Header(nonce: nat, extraNonce: nat, timestamp: nat)

  /** Where a header stands in the 128-bit space of nonce pairs. */
  function Position(h: Header): nat {
    h.extraNonce * U64 + h.nonce
  }

  /** The header after a failed hash: the next nonce, and on wrap-around the next extra nonce and a fresh
      timestamp. `clock` gives the time read when the n-th hash has failed and the nonce has just wrapped. */
  function Next(h: Header, clock: nat -> nat, hashes: nat): Header {
    var nonce := (h.nonce + 1) % U64;
    if nonce == 0 then Header(0, h.extraNonce + 1, clock(hashes)) else h.(nonce := nonce)
  }

  /** The header hashed after n failures. */
  function HeaderAt(start: Header, clock: nat -> nat, n: nat): Header {
    if n == 0 then start else Next(HeaderAt(start, clock, n - 1), clock, n)
  }

  /** Each hash is one position further on. */
  lemma {:induction false} PositionsRise(start: Header, clock: nat -> nat, n: nat)
    requires start.nonce < U64
    ensures HeaderAt(start, clock, n).nonce < U64
    ensures Position(HeaderAt(start, clock, n)) == Position(start) + n
  {
    if n > 0 {
      PositionsRise(start, clock, n - 1);
    }
  }

  /** No pair of nonce and extra nonce is hashed twice, however long the search goes on. */
  lemma NoPairTwice(start: Header, clock: nat -> nat, m: nat, n: nat)
    requires start.nonce < U64 && m != n
    ensures var a, b := HeaderAt(start, clock, m), HeaderAt(start, clock, n);
            a.nonce != b.nonce || a.extraNonce != b.extraNonce
  {
    PositionsRise(start, clock, m);
    PositionsRise(start, clock, n);
  }

  lemma NextSteps(h: Header, clock: nat -> nat, hashes: nat)
    requires h.nonce < U64
    ensures Next(h, clock, hashes) ==
            if h.nonce + 1 == U64 then Header(0, h.extraNonce + 1, clock(hashes)) else h.(nonce := h.nonce + 1)
  {
  }

  /** The timestamp is the one the search started with until the nonce first wraps, and from then on the clock's
      reading at the latest wrap. */
  lemma {:induction false} TimestampIsLatestWrap(start: Header, clock: nat -> nat, n: nat)
    requires start.nonce < U64
    ensures
      var h := HeaderAt(start, clock, n);
      if start.nonce + n < U64 then h.nonce == start.nonce + n && h.timestamp == start.timestamp
      else h.nonce <= n && h.timestamp == clock(n - h.nonce)
  {
    if n > 0 {
      TimestampIsLatestWrap(start, clock, n - 1);
      PositionsRise(start, clock, n - 1);
      NextSteps(HeaderAt(start, clock, n - 1), clock, n);
      hide Next;
      hide Position;
    }
  }

  datatype Outcome = Mined(header: Header) | MiningTimeout

  predicate Good(powHash: Header -> seq<Byte>, target: seq<Byte>, h: Header) {
    LexLe(powHash(h), target)
  }

  /** On hashes as long as the target, a header is good exactly when its hash is at most the target. */
  lemma GoodIsNumeric(powHash: Header -> seq<Byte>, target: seq<Byte>, h: Header)
    requires |powHash(h)| == |target|
    ensures Good(powHash, target, h) <==> BigEndian(powHash(h)) <= BigEndian(target)
  {
    LexIsNumeric(powHash(h), target);
  }

  method Search(powHash: Header -> seq<Byte>, target: seq<Byte>, clock: nat -> nat, start: Header)
    returns (outcome: Outcome, hashes: nat)
    requires start.nonce < U64
    ensures 1 <= hashes <= 10_000_000_001
    ensures forall n :: 0 <= n < hashes - 1 ==> !Good(powHash, target, HeaderAt(start, clock, n))
    ensures outcome.Mined? ==>
              outcome.header == HeaderAt(start, clock, hashes - 1) && Good(powHash, target, outcome.header)
    ensures outcome.MiningTimeout? <==>
              forall n :: 0 <= n <= 10_000_000_000 ==> !Good(powHash, target, HeaderAt(start, clock, n))
  {
    var header := start;
    hashes := 0;
    while true
      invariant hashes <= SAFETY_LIMIT && header == HeaderAt(start, clock, hashes)
      invariant forall n :: 0 <= n < hashes ==> !Good(powHash, target, HeaderAt(start, clock, n))
      decreases SAFETY_LIMIT + 1 - hashes
    {
      var hash := powHash(header);
      hashes := hashes + 1;
      if LexLe(hash, target) {
        assert Good(powHash, target, HeaderAt(start, clock, hashes - 1));
        return Mined(header), hashes;
      }
      header := header.(nonce := (header.nonce + 1) % U64);
      if header.nonce == 0 {
        header := header.(extraNonce := header.extraNonce + 1, timestamp := clock(hashes));
      }
      if hashes > SAFETY_LIMIT {
        return MiningTimeout, hashes;
      }
    }
  }

  // ---- The desktop miner's CPU fallback ----

  function NonceAt(start: nat, i: nat): nat {
    (start + i) % U64
  }

  /** The first nonce of the batch, counted from the start with wrap-around, whose hash meets the target. */
  method MineBatch(hashOf: nat -> seq<Byte>, target: seq<Byte>, start: nat, batchSize: nat)
    returns (found: Option<nat>, i: nat)
    requires forall n :: |hashOf(n)| == |target|
    ensures i <= batchSize && i <= 50000
    ensures forall n :: 0 <= n < i ==> BigEndian(hashOf(NonceAt(start, n))) > BigEndian(target)
    ensures found.Some? ==>
              && found.value == (start + i) % 0x1_0000_0000_0000_0000
              && BigEndian(hashOf(found.value)) <= BigEndian(target)
    ensures found.None? ==> i == if batchSize < 50000 then batchSize else 50000
  {
    var limit := if batchSize < CPU_BATCH then batchSize else CPU_BATCH;
    i := 0;
    while i < limit
      invariant i <= limit
      invariant forall n :: 0 <= n < i ==> BigEndian(hashOf(NonceAt(start, n))) > BigEndian(target)
    {
      var nonce := NonceAt(start, i);
      var ok := MeetsTarget(hashOf(nonce), target);
      if ok {
        return Some(nonce), i;
      }
      i := i + 1;
    }
    return None, i;
  }
}
