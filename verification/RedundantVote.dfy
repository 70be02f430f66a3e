/** N-of-M redundant verification: counting worker results and comparing the output with the winner. */
module RedundantVote {

  type Hash = string
  datatype WorkerResult = WorkerResult(worker: string, outputHash: Hash)
  type Results = map<string, seq<WorkerResult>>

  datatype Verdict = InvalidConfig | NoResults | InsufficientResults | Decided(accepted: bool)

  // ---- Counting ----

  function Hashes(rs: seq<WorkerResult>): (hs: seq<Hash>)
    ensures |hs| == |rs|
  {
    seq(|rs|, n requires 0 <= n < |rs| => rs[n].outputHash)
  }

  /** How often each hash occurs. */
  function Tally(hs: seq<Hash>): map<Hash, nat> {
    map h | h in hs :: multiset(hs)[h]
  }

  /** The winner over an iteration order of the tally: among the most frequent hashes, the last one met. */
  function Winner(tally: map<Hash, nat>, order: seq<Hash>): (Hash, nat)
    requires forall h <- order :: h in tally
  {
    if order == [] then ("", 0)
    else
      var best, last := Winner(tally, order[..|order| - 1]), order[|order| - 1];
      if tally[last] >= best.1 then (last, tally[last]) else best
  }

  predicate Accepts(tally: map<Hash, nat>, order: seq<Hash>, output: Hash, n: nat)
    requires forall h <- order :: h in tally
  {
    var (hash, count) := Winner(tally, order);
    count >= n && output == hash
  }

  /** An iteration order meets every key of the tally once. */
  ghost predicate Enumerates(order: seq<Hash>, tally: map<Hash, nat>) {
    && (forall h :: h in order <==> h in tally)
    && (forall a, b :: 0 <= a < b < |order| ==> order[a] != order[b])
  }

  // ---- The verifier ----

  class Verifier {
    var results: Results

    constructor ()
      ensures results == map[]
    {
      results := map[];
    }

    method SubmitWorkerResult(job: string, r: WorkerResult)
      modifies this
      ensures results == old(results)[job := (if job in old(results) then old(results)[job] else []) + [r]]
    {
      var before := if job in results then results[job] else [];
      results := results[job := before + [r]];
    }

    /** The table of counts is iterated in an order the program does not choose. */
    method VerifyRedundant(job: string, output: Hash, n: nat, m: nat) returns (v: Verdict)
      ensures v == InvalidConfig <==> n > m
      ensures v == NoResults <==> n <= m && job !in results
      ensures v == InsufficientResults <==> n <= m && job in results && |results[job]| < m
      ensures v.Decided? ==>
                var tally := Tally(Hashes(results[job])[..m]);
                exists order :: Enumerates(order, tally) && v.accepted == Accepts(tally, order, output, n)
      ensures v.Decided? && 2 * n > m ==>
                (v.accepted <==> |set k: nat | k < m && results[job][k].outputHash == output| >= n)
    {
      if n > m {
        return InvalidConfig;
      }
      if job !in results {
        return NoResults;
      }
      if |results[job]| < m {
        return InsufficientResults;
      }
      var counts := CountHashes(results[job], m);
      var hash, count := MostCommon(counts);
      v := Decided(count >= n && output == hash);
      ghost var hs := Hashes(results[job])[..m];
      ghost var order :| Enumerates(order, Tally(hs)) && (hash, count) == Winner(Tally(hs), order);
      if 2 * n > m {
        MajorityDecides(hs, order, output, n);
        CountedByPosition(hs, output);
        assert (set k: nat | k < m && results[job][k].outputHash == output) == Positions(hs, output);
      }
    }
  }

  function Positions(hs: seq<Hash>, h: Hash): set<nat> {
    set k: nat | k < |hs| && hs[k] == h
  }

  lemma {:induction false} CountedByPosition(hs: seq<Hash>, h: Hash)
    ensures multiset(hs)[h] == |Positions(hs, h)|
  {
    if hs != [] {
      var ini, last := hs[..|hs| - 1], |hs| - 1;
      CountedByPosition(ini, h);
      assert hs == ini + [hs[last]];
      if hs[last] == h {
        assert Positions(hs, h) == Positions(ini, h) + {last};
      } else {
        assert Positions(hs, h) == Positions(ini, h);
      }
    }
  }

  lemma TallyAppend(hs: seq<Hash>, h: Hash)
    ensures Tally([]) == map[]
    ensures Tally(hs + [h]) == Tally(hs)[h := (if h in Tally(hs) then Tally(hs)[h] else 0) + 1]
  {
  }

  method CountHashes(rs: seq<WorkerResult>, m: nat) returns (counts: map<Hash, nat>)
    requires m <= |rs|
    ensures counts == Tally(Hashes(rs)[..m])
  {
    counts := map[];
    assert Hashes(rs)[..0] == [];
    for k := 0 to m
      invariant counts == Tally(Hashes(rs)[..k])
    {
      var h := rs[k].outputHash;
      assert Hashes(rs)[..k + 1] == Hashes(rs)[..k] + [h];
      TallyAppend(Hashes(rs)[..k], h);
      hide Tally;
      counts := counts[h := (if h in counts then counts[h] else 0) + 1];
    }
  }

  method MostCommon(counts: map<Hash, nat>) returns (hash: Hash, count: nat)
    ensures exists order :: Enumerates(order, counts) && (hash, count) == Winner(counts, order)
  {
    hash, count := "", 0;
    var left := counts.Keys;
    ghost var order := [];
    while left != {}
      invariant left <= counts.Keys
      invariant forall h :: h in order <==> h in counts && h !in left
      invariant forall a, b :: 0 <= a < b < |order| ==> order[a] != order[b]
      invariant (hash, count) == Winner(counts, order)
      decreases left
    {
      var h :| h in left;
      ghost var before := order;
      order := order + [h];
      assert order[..|before|] == before;
      if counts[h] >= count {
        hash, count := h, counts[h];
      }
      left := left - {h};
    }
    assert Enumerates(order, counts);
  }

  // ---- What a verdict means ----

  /** No other hash is more frequent. */
  predicate IsMostCommon(tally: map<Hash, nat>, h: Hash) {
    h in tally && forall k <- tally :: tally[k] <= tally[h]
  }

  lemma {:induction false} WinnerIsMostCommon(tally: map<Hash, nat>, order: seq<Hash>)
    requires forall h <- order :: h in tally
    ensures var (hash, count) := Winner(tally, order);
            && (order != [] ==> hash in order && count == tally[hash])
            && (forall h <- order :: tally[h] <= count)
  {
    if order != [] {
      var ini, last := order[..|order| - 1], order[|order| - 1];
      WinnerIsMostCommon(tally, ini);
      assert order == ini + [last];
      var before, after := Winner(tally, ini), Winner(tally, order);
      assert before.1 <= after.1 && tally[last] <= after.1;
      forall h | h in order
        ensures tally[h] <= after.1
      {
        assert h in ini || h == last;
      }
    }
  }

  /** Two different hashes cannot both have more than half of the results. */
  lemma {:induction false} CountsAddUp(hs: seq<Hash>, a: Hash, b: Hash)
    requires a != b
    ensures multiset(hs)[a] + multiset(hs)[b] <= |hs|
  {
    if hs != [] {
      CountsAddUp(hs[..|hs| - 1], a, b);
      assert hs == hs[..|hs| - 1] + [hs[|hs| - 1]];
    }
  }

  /** When n is more than half of m, whatever the iteration order, the output is accepted exactly when at
      least n of the m counted results carry its hash. */
  lemma MajorityDecides(hs: seq<Hash>, order: seq<Hash>, output: Hash, n: nat)
    requires Enumerates(order, Tally(hs)) && 2 * n > |hs|
    ensures Accepts(Tally(hs), order, output, n) <==> multiset(hs)[output] >= n
  {
    var tally := Tally(hs);
    WinnerIsMostCommon(tally, order);
    var (hash, count) := Winner(tally, order);
    hide Winner;
    if multiset(hs)[output] >= n {
      assert output in hs;
      assert output in order;
      if hash != output {
        CountsAddUp(hs, output, hash);
      }
    }
  }

  /** The output is one of several most frequent hashes, and they are frequent enough. */
  predicate Tied(tally: map<Hash, nat>, output: Hash, n: nat) {
    && IsMostCommon(tally, output) && tally[output] >= n
    && exists h :: h in tally && h != output && IsMostCommon(tally, h)
  }

  ghost predicate SameForAllOrders(tally: map<Hash, nat>, output: Hash, n: nat) {
    forall o, p :: Enumerates(o, tally) && Enumerates(p, tally) ==>
      Accepts(tally, o, output, n) == Accepts(tally, p, output, n)
  }

  lemma {:induction false} SomeOrder(keys: set<Hash>) returns (order: seq<Hash>)
    ensures forall h :: h in order <==> h in keys
    ensures forall a, b :: 0 <= a < b < |order| ==> order[a] != order[b]
  {
    if keys == {} {
      order := [];
    } else {
      var h :| h in keys;
      order := SomeOrder(keys - {h});
      order := order + [h];
    }
  }

  /** Some iteration order meets a given most frequent hash last, and then it wins. */
  lemma OrderFor(tally: map<Hash, nat>, h: Hash) returns (order: seq<Hash>)
    requires IsMostCommon(tally, h)
    ensures Enumerates(order, tally) && Winner(tally, order) == (h, tally[h])
  {
    var front := SomeOrder(tally.Keys - {h});
    order := front + [h];
    WinnerIsMostCommon(tally, front);
    assert order[..|front|] == front;
    if front != [] {
      assert Winner(tally, front).0 in front;
    }
  }

  lemma UniqueWinner(tally: map<Hash, nat>, order: seq<Hash>, output: Hash, n: nat)
    requires Enumerates(order, tally) && IsMostCommon(tally, output) && tally[output] >= n && !Tied(tally, output, n)
    ensures Accepts(tally, order, output, n)
  {
    WinnerIsMostCommon(tally, order);
    var (hash, count) := Winner(tally, order);
    hide Winner;
    assert output in order;
    assert IsMostCommon(tally, hash);
  }

  /** The verdict is the same for every iteration order if and only if the output is not tied with another
      hash at the top. */
  lemma OrderMattersIffTied(tally: map<Hash, nat>, output: Hash, n: nat)
    ensures SameForAllOrders(tally, output, n) <==> !Tied(tally, output, n)
  {
    if Tied(tally, output, n) {
      var h :| h in tally && h != output && IsMostCommon(tally, h);
      var o := OrderFor(tally, output);
      var p := OrderFor(tally, h);
      assert Accepts(tally, o, output, n) && !Accepts(tally, p, output, n);
    } else {
      forall o, p | Enumerates(o, tally) && Enumerates(p, tally)
        ensures Accepts(tally, o, output, n) == Accepts(tally, p, output, n)
      {
        if tally == map[] {
          WinnerIsMostCommon(tally, o);
          WinnerIsMostCommon(tally, p);
        } else if IsMostCommon(tally, output) && tally[output] >= n {
          UniqueWinner(tally, o, output, n);
          UniqueWinner(tally, p, output, n);
        } else {
          NotAccepted(tally, o, output, n);
          NotAccepted(tally, p, output, n);
        }
      }
    }
  }

  lemma NotAccepted(tally: map<Hash, nat>, order: seq<Hash>, output: Hash, n: nat)
    requires Enumerates(order, tally) && tally != map[] && !(IsMostCommon(tally, output) && tally[output] >= n)
    ensures !Accepts(tally, order, output, n)
  {
    WinnerIsMostCommon(tally, order);
    var h :| h in tally;
    assert h in order;
  }

  // ---- What can be known before any result arrives ----

  /** Whatever the m counted results and the output are, the verdict does not depend on the iteration order. */
  ghost predicate OrderNeverMatters(n: nat, m: nat) {
    forall hs: seq<Hash>, output: Hash :: |hs| == m ==> SameForAllOrders(Tally(hs), output, n)
  }

  function Copies(h: Hash, c: nat): (hs: seq<Hash>)
    ensures |hs| == c
    ensures multiset(hs) == multiset{}[h := c]
  {
    if c == 0 then []
    else
      var rest := Copies(h, c - 1);
      assert multiset(rest + [h]) == multiset(rest) + multiset{h};
      rest + [h]
  }

  lemma HalvesAndRest(c: nat, r: nat) returns (hs: seq<Hash>)
    ensures |hs| == c + c + r
    ensures multiset(hs)["a"] == multiset(hs)["b"] == c && multiset(hs)["c"] == r
    ensures forall h <- hs :: h == "a" || h == "b" || h == "c"
  {
    hs := Copies("a", c) + Copies("b", c) + Copies("c", r);
    assert multiset(hs) == multiset{}["a" := c] + multiset{}["b" := c] + multiset{}["c" := r];
    forall h | h in hs
      ensures h == "a" || h == "b" || h == "c"
    {
      assert h in multiset(hs);
    }
  }

  /** A list of m results whose two most frequent hashes are equally frequent. */
  lemma TiedList(n: nat, m: nat) returns (hs: seq<Hash>)
    requires 2 * n <= m && m >= 2
    ensures |hs| == m && Tied(Tally(hs), "a", n)
  {
    hs := HalvesAndRest(m / 2, m % 2);
    assert "a" in multiset(hs) && "b" in multiset(hs);
    assert IsMostCommon(Tally(hs), "b");
  }

  lemma UntiedList(hs: seq<Hash>, output: Hash, n: nat)
    requires 2 * n > |hs| || |hs| < 2
    ensures !Tied(Tally(hs), output, n)
  {
    var tally := Tally(hs);
    if Tied(tally, output, n) {
      var h :| h in tally && h != output && IsMostCommon(tally, h);
      assert output in hs && h in hs;
      CountsAddUp(hs, output, h);
    }
  }

  /** A caller who fixes n and m gets a verdict that never depends on the iteration order if and only if n is
      more than half of m, or at most one result is counted. */
  lemma {:induction false} OrderNeverMattersIff(n: nat, m: nat)
    ensures OrderNeverMatters(n, m) <==> 2 * n > m || m < 2
  {
    if 2 * n > m || m < 2 {
      forall hs: seq<Hash>, output: Hash | |hs| == m
        ensures SameForAllOrders(Tally(hs), output, n)
      {
        UntiedList(hs, output, n);
        OrderMattersIffTied(Tally(hs), output, n);
      }
    } else {
      var hs := TiedList(n, m);
      OrderMattersIffTied(Tally(hs), "a", n);
    }
  }

  /** Once m results are in, later submissions do not enter the count. */
  lemma LaterResultsDoNotCount(rs: seq<WorkerResult>, later: seq<WorkerResult>, m: nat)
    requires m <= |rs|
    ensures Tally(Hashes(rs + later)[..m]) == Tally(Hashes(rs)[..m])
  {
    assert Hashes(rs + later)[..m] == Hashes(rs)[..m];
  }
}
