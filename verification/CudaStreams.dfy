/** The nonce pipeline of CUDAMiner::search: streams launched one after the other on consecutive batches,
    and each collected and relaunched in turn until there is other work. */
module CudaStreams {
  import opened Arith
  import opened FastMod
  import Nonces

  const MAX_SEARCH_RESULTS := 4

  // What the host sees in one pass over the streams: new work at its beginning, a pause, the request
  // to stop as each stream completes, and the same request at the end.
  datatype Pass = Pass(newWork: bool, paused: bool, stops: seq<bool>, stopAtEnd: bool)

  // The first stream whose completion finds the request to stop, or their number.
  function FirstStop(stops: seq<bool>): (k: nat)
    ensures k <= |stops| && (k < |stops| ==> stops[k]) && forall i :: 0 <= i < k ==> !stops[i]
  {
    if |stops| == 0 || stops[0] then 0 else 1 + FirstStop(stops[1..])
  }

  // The pass is the last one.
  predicate Ends(pass: Pass) {
    pass.newWork || pass.paused || pass.stopAtEnd || FirstStop(pass.stops) < |pass.stops|
  }

  // How many batches are on the devices when a pass is over: none after new work or a pause, which are seen before
  // any stream is launched again, and after a stop those launched in the pass before it.
  function Running(pass: Pass): nat { if pass.newWork || pass.paused then 0 else FirstStop(pass.stops) }

  // The first nonce of the i-th batch.
  function BatchBase(start: nat, batch: nat, i: nat): nat { (start + i * batch) % TWO64 }

  function Bases(start: nat, batch: nat, n: nat): (r: seq<nat>)
    ensures |r| == n
  {
    seq(n, i requires 0 <= i < n => BatchBase(start, batch, i))
  }

  // The nonces to submit for a batch in which the kernel found the given work items.
  function BatchSolutions(base: nat, gids: seq<nat>): (r: seq<nat>)
    ensures |r| == |gids|
  {
    seq(|gids|, i requires 0 <= i < |gids| => (base + gids[i]) % TWO64)
  }

  function Kept(gids: seq<nat>): seq<nat> {
    if |gids| <= MAX_SEARCH_RESULTS then gids else gids[..MAX_SEARCH_RESULTS]
  }

  // The solutions of the first n batches in order.
  function Solutions(start: nat, batch: nat, found: nat -> seq<nat>, n: nat): seq<nat> {
    if n == 0 then []
    else
      Solutions(start, batch, found, n - 1)
      + BatchSolutions(BatchBase(start, batch, n - 1), Kept(found(BatchBase(start, batch, n - 1))))
  }

  // Nonce n is submitted for the k-th work item that the kernel reports of the i-th batch.
  ghost predicate Submits(start: nat, batch: nat, found: nat -> seq<nat>, i: nat, k: nat, n: nat) {
    var hits := found((start + i * batch) % TWO64);
    k < 4 && k < |hits| && n == (start + i * batch + hits[k]) % TWO64
  }

  // The nonces of the i-th batch have the places from `from` up to `to`, in the order of its reports; they are as many as
  // there are reports, but no more than four.
  ghost predicate BatchAt(start: nat, batch: nat, found: nat -> seq<nat>, i: nat, solutions: seq<nat>, from: nat, to: nat) {
    var hits := |found((start + i * batch) % TWO64)|;
    && to == from + (if hits < 4 then hits else 4) && to <= |solutions|
    && forall p :: from <= p < to ==> Submits(start, batch, found, i, p - from, solutions[p])
  }

  // The submitted nonces are those of batches 0 to c - 1, one batch after the other, those of batch i from place at[i] on.
  ghost predicate InOrder(start: nat, batch: nat, found: nat -> seq<nat>, c: nat, solutions: seq<nat>, at: seq<nat>) {
    && |at| == c + 1 && at[0] == 0 && at[c] == |solutions|
    && forall i :: 0 <= i < c ==> BatchAt(start, batch, found, i, solutions, at[i], at[i + 1])
  }

  /** In every run: the passes go on until one ends the search, the batches launched are the first n consecutive ones,
      those collected are the first c, each submitted nonce is the base of its own batch plus the work item, and the
      batches not collected are those that the last pass left running. A nonce is submitted exactly when one of the
      first four work items reported of a collected batch stands for it. found says what the kernel finds when it is
      launched at a base. */
  method Search(start: nat, streams: nat, batch: nat, found: nat -> seq<nat>, passes: seq<Pass>)
    returns (launches: seq<nat>, solutions: seq<nat>, ghost c: nat, ghost ran: nat, ghost at: seq<nat>)
    requires start < TWO64 && streams * batch < TWO32
    requires forall p :: 0 <= p < |passes| ==> |passes[p].stops| == streams
    ensures launches == Bases(start, batch, |launches|) && solutions == Solutions(start, batch, found, c)
    ensures ran <= |passes| && c == ran * streams
    ensures forall p :: 0 <= p < ran - 1 ==> !Ends(passes[p])
    ensures ran < |passes| ==> ran > 0 && Ends(passes[ran - 1])
    ensures |launches| == c + if ran == 0 then streams else Running(passes[ran - 1])
    ensures InOrder(start, batch, found, c, solutions, at)
    ensures forall n :: n in solutions <==> exists i: nat, k: nat :: i < c && Submits(start, batch, found, i, k, n)
  {
    hide BatchBase, Solutions, FirstStop, InOrder, Submits;
    var startNonce: nat := start;
    var buffers: seq<nat> := [];  // the base that each stream was last launched with
    launches := [];
    solutions := [];
    StartBase(start, batch);
    for k := 0 to streams
      invariant buffers == launches == Bases(start, batch, k) && startNonce == BatchBase(start, batch, k)
    {
      launches := launches + [startNonce];
      buffers := buffers + [startNonce];
      NextBase(start, batch, k);
      startNonce := (startNonce + batch) % TWO64;
    }
    c, ran := 0, 0;
    NoSolutions(start, batch, found);
    var done, p := false, 0;
    while !done && p < |passes|
      invariant p == ran <= |passes| && c == ran * streams
      invariant done || InFlight(start, batch, streams, launches, buffers, startNonce, c)
      invariant launches == Bases(start, batch, |launches|) && solutions == Solutions(start, batch, found, c)
      invariant forall q :: 0 <= q < ran - 1 ==> !Ends(passes[q])
      invariant if done then ran > 0 && Ends(passes[ran - 1]) else ran > 0 ==> !Ends(passes[ran - 1])
      invariant |launches| == c + if ran == 0 then streams else Running(passes[ran - 1])
      decreases |passes| - p
    {
      done := passes[p].newWork;
      if !done {
        done := passes[p].paused;
      }
      OneMore(ran, streams);
      ran := ran + 1;
      launches, solutions, buffers, startNonce, done, c :=
        RunPass(start, streams, batch, found, passes[p], launches, solutions, buffers, startNonce, done, c);
      if passes[p].stopAtEnd {
        break;
      }
      p := p + 1;
    }
    at := SolutionsInOrder(start, batch, found, c);
    forall n ensures n in solutions <==> exists i: nat, k: nat :: i < c && Submits(start, batch, found, i, k, n) {
      Submitted(start, batch, found, c, n);
    }
  }

  lemma OneMore(n: nat, streams: nat)
    ensures (n + 1) * streams == n * streams + streams
  {
  }

  // Between passes every stream runs, on the last batches launched.
  ghost predicate InFlight(start: nat, batch: nat, streams: nat, launches: seq<nat>, buffers: seq<nat>,
                           startNonce: nat, c: nat)
  {
    && |launches| == c + streams && |buffers| == streams
    && startNonce == BatchBase(start, batch, c + streams)
    && forall k :: 0 <= k < streams ==> buffers[k] == BatchBase(start, batch, c + k)
  }

  /** One pass over the streams: each is collected, and launched again on the next batch until the search is done. */
  method RunPass(ghost start: nat, streams: nat, batch: nat, found: nat -> seq<nat>, pass: Pass, launches0: seq<nat>,
                 solutions0: seq<nat>, buffers0: seq<nat>, startNonce0: nat, done0: bool, ghost c0: nat)
    returns (launches: seq<nat>, solutions: seq<nat>, buffers: seq<nat>, startNonce: nat, done: bool, ghost c: nat)
    requires |pass.stops| == streams && streams * batch < TWO32
    requires InFlight(start, batch, streams, launches0, buffers0, startNonce0, c0)
    requires launches0 == Bases(start, batch, |launches0|)
    requires solutions0 == Solutions(start, batch, found, c0)
    ensures launches == Bases(start, batch, |launches|) && solutions == Solutions(start, batch, found, c)
    ensures c == c0 + streams && |launches| == c + if done0 then 0 else FirstStop(pass.stops)
    ensures done <==> done0 || FirstStop(pass.stops) < streams
    ensures done || InFlight(start, batch, streams, launches, buffers, startNonce, c)
  {
    hide BatchBase, Solutions, FirstStop;
    launches, solutions, buffers, startNonce, done := launches0, solutions0, buffers0, startNonce0, done0;
    c := c0;
    ghost var stop := FirstStop(pass.stops);
    for k := 0 to streams
      invariant c == c0 + k && startNonce == BatchBase(start, batch, c + streams) && |buffers| == streams
      invariant launches == Bases(start, batch, |launches|)
      invariant solutions == Solutions(start, batch, found, c)
      invariant done <==> done0 || stop < k
      invariant |launches| == c0 + streams + if done0 then 0 else if stop < k then stop else k
      invariant forall j :: k <= j < streams ==> buffers[j] == BatchBase(start, batch, c0 + j)
      invariant !done ==> forall j :: 0 <= j < k ==> buffers[j] == BatchBase(start, batch, c0 + streams + j)
    {
      if pass.stops[k] {
        done := true;
      }
      var gids := Kept(found(buffers[k]));
      if !done {
        launches := launches + [startNonce];
        buffers := buffers[k := startNonce];
      }
      var nonceBase := (startNonce - streams * batch) % TWO64;
      EarlierBase(start, batch, c, streams);
      SolutionsStep(start, batch, found, c);
      solutions := solutions + BatchSolutions(nonceBase, gids);
      NextBase(start, batch, c + streams);
      startNonce := (startNonce + batch) % TWO64;
      c := c + 1;
    }
  }

  lemma StartBase(start: nat, batch: nat)
    requires start < TWO64
    ensures BatchBase(start, batch, 0) == start
  {
  }

  lemma NoSolutions(start: nat, batch: nat, found: nat -> seq<nat>)
    ensures Solutions(start, batch, found, 0) == []
  {
  }

  lemma SolutionsStep(start: nat, batch: nat, found: nat -> seq<nat>, n: nat)
    ensures var base := BatchBase(start, batch, n);
      Solutions(start, batch, found, n + 1)
      == Solutions(start, batch, found, n) + BatchSolutions(base, Kept(found(base)))
  {
  }

  lemma KeptWords(gids: seq<nat>)
    ensures var kept := Kept(gids); |kept| == (if |gids| < 4 then |gids| else 4) && forall k :: 0 <= k < |kept| ==> kept[k] == gids[k]
  {
  }

  // What one batch submits.
  lemma BatchSubmits(start: nat, batch: nat, found: nat -> seq<nat>, i: nat)
    ensures var hits, base := found((start + i * batch) % TWO64), BatchBase(start, batch, i);
      var more := BatchSolutions(base, Kept(found(base)));
      && |more| == (if |hits| < 4 then |hits| else 4)
      && (forall k :: 0 <= k < |more| ==> Submits(start, batch, found, i, k, more[k]))
      && (forall k: nat, n :: Submits(start, batch, found, i, k, n) ==> k < |more| && more[k] == n)
  {
    var hits := found((start + i * batch) % TWO64);
    KeptWords(hits);
    forall k | 0 <= k < |hits| ensures ((start + i * batch) % TWO64 + hits[k]) % TWO64 == (start + i * batch + hits[k]) % TWO64 {
      ModAdd(start + i * batch, hits[k]);
    }
  }

  lemma EarlierStays(start: nat, batch: nat, found: nat -> seq<nat>, i: nat, solutions: seq<nat>, more: seq<nat>, from: nat, to: nat)
    requires BatchAt(start, batch, found, i, solutions, from, to)
    ensures BatchAt(start, batch, found, i, solutions + more, from, to)
  {
    hide Submits;
  }

  lemma LaterJoins(start: nat, batch: nat, found: nat -> seq<nat>, i: nat, solutions: seq<nat>)
    ensures var base := BatchBase(start, batch, i);
      var more := BatchSolutions(base, Kept(found(base)));
      BatchAt(start, batch, found, i, solutions + more, |solutions|, |solutions + more|)
  {
    hide BatchBase, BatchSolutions, Kept, Submits;
    BatchSubmits(start, batch, found, i);
  }

  lemma {:induction false} SolutionsInOrder(start: nat, batch: nat, found: nat -> seq<nat>, n: nat) returns (at: seq<nat>)
    ensures InOrder(start, batch, found, n, Solutions(start, batch, found, n), at)
    decreases n
  {
    hide BatchBase, BatchSolutions, Kept, BatchAt;
    if n == 0 {
      at := [0];
    } else {
      var before := SolutionsInOrder(start, batch, found, n - 1);
      var solutions := Solutions(start, batch, found, n - 1);
      var base := BatchBase(start, batch, n - 1);
      var more := BatchSolutions(base, Kept(found(base)));
      LaterJoins(start, batch, found, n - 1, solutions);
      at := before + [|solutions + more|];
      forall i | 0 <= i < n ensures BatchAt(start, batch, found, i, solutions + more, at[i], at[i + 1]) {
        if i < n - 1 {
          assert before[i] == at[i] && before[i + 1] == at[i + 1];
          EarlierStays(start, batch, found, i, solutions, more, at[i], at[i + 1]);
        }
      }
    }
  }

  lemma {:induction false} Submitted(start: nat, batch: nat, found: nat -> seq<nat>, c: nat, n: nat)
    ensures n in Solutions(start, batch, found, c) <==> exists i: nat, k: nat :: i < c && Submits(start, batch, found, i, k, n)
    decreases c
  {
    hide BatchBase, BatchSolutions, Kept, Submits;
    if c > 0 {
      Submitted(start, batch, found, c - 1, n);
      BatchSubmits(start, batch, found, c - 1);
    }
  }

  lemma NextBase(start: nat, batch: nat, i: nat)
    ensures (BatchBase(start, batch, i) + batch) % TWO64 == BatchBase(start, batch, i + 1)
  {
    assert (i + 1) * batch == i * batch + batch;
    ModAdd(start + i * batch, batch);
  }

  // The base of the batch that a stream was launched with, one round of the streams earlier.
  lemma EarlierBase(start: nat, batch: nat, i: nat, streams: nat)
    requires streams * batch < TWO32
    ensures (BatchBase(start, batch, i + streams) - streams * batch) % TWO64 == BatchBase(start, batch, i)
  {
    var d := streams * batch;
    assert (i + streams) * batch == i * batch + d;
    ModSub(start + i * batch + d, d);
  }

  lemma ModAdd(a: nat, b: nat)
    ensures (a % TWO64 + b) % TWO64 == (a + b) % TWO64
  {
  }

  lemma ModSub(a: nat, b: nat)
    requires b <= a
    ensures (a % TWO64 - b) % TWO64 == (a - b) % TWO64
  {
  }

  /** The nonces of different batches are different, as long as the batches fit the nonce space. */
  lemma BatchesDisjoint(start: nat, batch: nat, n: nat, i: nat, a: nat, j: nat, b: nat)
    requires i < j < n && n * batch <= TWO64 && a < batch && b < batch
    ensures (BatchBase(start, batch, i) + a) % TWO64 != (BatchBase(start, batch, j) + b) % TWO64
  {
    Nonces.Apart(batch, n, i, a, j, b);
    Distinct(start, i * batch, a, j * batch, b);
  }

  lemma Distinct(start: nat, x: nat, a: nat, y: nat, b: nat)
    requires x + a < y + b < x + a + TWO64
    ensures ((start + x) % TWO64 + a) % TWO64 != ((start + y) % TWO64 + b) % TWO64
  {
    ModAdd(start + x, a);
    ModAdd(start + y, b);
    ModDiffer(start + y + b, start + x + a, TWO64);
  }
}
