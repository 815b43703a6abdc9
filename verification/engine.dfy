/**
 The reduction engine of linedd: a hierarchical, batched delta-debugging
 loop over the `enabled` selection of the original lines.

 Rounds repeat while the previous round removed something. A round runs one
 stride pass per stride of its schedule (the number of enabled window lines,
 halved by floor division down to 1, or just 1 in linear mode). A pass walks
 the window `[first, last)` upwards (downwards when `backward`), gathers
 enabled indices into a batch, tentatively disables each, and hands every
 batch of `stride` members, and at the end the one smaller leftover batch, to
 the oracle. The batch stays disabled only if the verdict is `expect`;
 otherwise every member is enabled again.

 The external command is the parameter `oracle`, a deterministic function
 from the materialized file content to a verdict. The output file is the
 history `written` of every content written to it.
 */
module Engine {
  import opened Materializer

  /** The resolved settings of one run. */
  datatype Config = Config(
    lines: seq<string>,
    first: int,
    last: int,
    expected: int,
    backward: bool,
    linear: bool)
  {
    /** The window is a sub-range of the line indices. */
    predicate Valid()
    {
      0 <= first <= last <= |lines|
    }

    predicate InWindow(i: int)
    {
      first <= i < last
    }
  }

  /** linedd's `num_enabled`, `num_left` and `nremoved`. */
  datatype Counters = Counters(numEnabled: int, numLeft: int, nremoved: int)

  /** The counters describe the committed selection `e`, and `e` keeps every
      line outside the window. */
  predicate Consistent(cfg: Config, e: seq<bool>, c: Counters)
    requires cfg.Valid()
  {
    && |e| == |cfg.lines|
    && (forall i :: 0 <= i < |e| && !cfg.InWindow(i) ==> e[i])
    && c.numEnabled == Count(e)
    && c.numLeft == CountIn(e, cfg.first, cfg.last)
    && c.nremoved == |e| - c.numEnabled
  }

  /** Every content written to the output file got the verdict `expect`; the
      last one is the committed selection `e`, and if nothing was written yet
      then nothing has been removed. */
  predicate Persisted(cfg: Config, oracle: seq<string> -> int, written: seq<seq<string>>, e: seq<bool>)
    requires |e| == |cfg.lines|
  {
    && (forall k :: 0 <= k < |written| ==> oracle(written[k]) == cfg.expected)
    && (|written| == 0 ==> e == AllTrue(|e|))
    && (|written| > 0 ==> written[|written| - 1] == WriteTo(cfg.lines, e))
  }

  /** 1-minimality: removing any single enabled window line alone changes
      the verdict. */
  predicate OneMinimal(cfg: Config, oracle: seq<string> -> int, e: seq<bool>)
    requires |e| == |cfg.lines|
  {
    forall i :: cfg.first <= i < cfg.last && 0 <= i < |e| && e[i] ==>
      oracle(WriteTo(cfg.lines, e[i := false])) != cfg.expected
  }

  /** The index visited at step `k` of a pass. */
  function Visit(cfg: Config, k: int): int
  {
    if cfg.backward then cfg.last - 1 - k else cfg.first + k
  }

  /** Index `i` was visited in the first `k` steps of a pass. */
  predicate Seen(cfg: Config, k: int, i: int)
  {
    if cfg.backward then cfg.last - k <= i < cfg.last else cfg.first <= i < cfg.first + k
  }

  /** Step `k` visits exactly one new index, and it lies in the window. */
  lemma SeenStep(cfg: Config, k: int)
    requires 0 <= k < cfg.last - cfg.first
    ensures cfg.InWindow(Visit(cfg, k)) && !Seen(cfg, k, Visit(cfg, k))
    ensures forall x :: Seen(cfg, k + 1, x) <==> Seen(cfg, k, x) || x == Visit(cfg, k)
  {
  }

  /** The enabled window indices of `e` met in the first `k` steps of a pass,
      in the order they are met. */
  function VisitOrder(cfg: Config, e: seq<bool>, k: int): seq<int>
    requires cfg.Valid() && |e| == |cfg.lines| && 0 <= k <= cfg.last - cfg.first
  {
    if k == 0 then []
    else
      var i := Visit(cfg, k - 1);
      VisitOrder(cfg, e, k - 1) + (if e[i] then [i] else [])
  }

  /** The visit order after `k` steps holds exactly the enabled window
      indices visited so far, ascending, or descending when `backward`. */
  lemma {:induction false} VisitOrderFacts(cfg: Config, e: seq<bool>, k: int)
    requires cfg.Valid() && |e| == |cfg.lines| && 0 <= k <= cfg.last - cfg.first
    ensures var r := VisitOrder(cfg, e, k);
      && (forall j :: 0 <= j < |r| ==> cfg.InWindow(r[j]) && Seen(cfg, k, r[j]) && e[r[j]])
      && (forall i :: cfg.InWindow(i) && Seen(cfg, k, i) && e[i] ==> i in r)
      && (forall a, b :: 0 <= a < b < |r| ==> if cfg.backward then r[a] > r[b] else r[a] < r[b])
  {
    if k > 0 {
      VisitOrderFacts(cfg, e, k - 1);
      SeenStep(cfg, k - 1);
    }
  }

  /** The batches of a pass laid end to end. */
  function Flatten(bs: seq<seq<int>>): seq<int>
  {
    if |bs| == 0 then [] else Flatten(bs[..|bs| - 1]) + bs[|bs| - 1]
  }

  lemma FlattenAppend(bs: seq<seq<int>>, b: seq<int>)
    ensures Flatten(bs + [b]) == Flatten(bs) + b
  {
    assert (bs + [b])[..|bs|] == bs;
  }

  /** An index of the laid-out batches belongs to one of them. */
  lemma {:induction false} FlattenMember(bs: seq<seq<int>>, x: int) returns (j: int)
    requires x in Flatten(bs)
    ensures 0 <= j < |bs| && x in bs[j]
  {
    var last := bs[|bs| - 1];
    if x in last {
      j := |bs| - 1;
    } else {
      j := FlattenMember(bs[..|bs| - 1], x);
    }
  }

  /** The enable-again loop of a rejected batch: every member of `batch` is
      switched back on and nothing else changes. */
  method RevertBatch(enabled: seq<bool>, batch: seq<int>) returns (r: seq<bool>)
    requires forall j :: 0 <= j < |batch| ==> 0 <= batch[j] < |enabled|
    ensures |r| == |enabled|
    ensures forall i :: 0 <= i < |r| ==> (r[i] <==> enabled[i] || i in batch)
  {
    r := enabled;
    var j := 0;
    while j < |batch|
      invariant 0 <= j <= |batch|
      invariant |r| == |enabled|
      invariant forall i :: 0 <= i < |r| ==> (r[i] <==> enabled[i] || i in batch[..j])
    {
      r := r[batch[j] := true];
      assert batch[..j + 1] == batch[..j] + [batch[j]];
      j := j + 1;
    }
    assert batch[..j] == batch;
  }

  /** The accept/revert rule for one batch. `enabled` is the committed
      selection with `batch` tentatively disabled. The candidate is
      materialized and judged; on `expect` the removal stands, the output
      file is rewritten and the counters drop by the batch size, otherwise
      the selection is exactly the committed one again. */
  method TestBatch(
    cfg: Config, oracle: seq<string> -> int, enabled: seq<bool>, batch: seq<int>,
    ghost committed: seq<bool>, c: Counters, written: seq<seq<string>>)
    returns (next: seq<bool>, c': Counters, written': seq<seq<string>>, accepted: bool)
    requires cfg.Valid()
    requires Consistent(cfg, committed, c) && Persisted(cfg, oracle, written, committed)
    requires |batch| > 0 && Distinct(batch)
    requires forall j :: 0 <= j < |batch| ==> cfg.InWindow(batch[j]) && committed[batch[j]]
    requires enabled == Disable(committed, batch)
    ensures accepted <==> oracle(WriteTo(cfg.lines, enabled)) == cfg.expected
    ensures accepted ==>
      && next == enabled
      && written' == written + [WriteTo(cfg.lines, enabled)]
      && c'.numEnabled == c.numEnabled - |batch|
      && c'.numLeft == c.numLeft - |batch|
      && c'.nremoved == c.nremoved + |batch|
    ensures !accepted ==> next == committed && written' == written && c' == c
    ensures Consistent(cfg, next, c') && Persisted(cfg, oracle, written', next)
  {
    var candidate := WriteTo(cfg.lines, enabled);
    var ret := oracle(candidate);
    if ret == cfg.expected {
      accepted := true;
      next := enabled;
      written' := written + [candidate];
      CountDisable(committed, batch, cfg.first, cfg.last);
      CountDisable(committed, batch, 0, |committed|);
      c' := Counters(c.numEnabled - |batch|, c.numLeft - |batch|, c.nremoved + |batch|);
    } else {
      accepted := false;
      next := RevertBatch(enabled, batch);
      assert next == committed;
      written' := written;
      c' := c;
    }
  }

  /** The strides a round runs through, starting from `start`. */
  function Schedule(start: int): seq<int>
    decreases start
  {
    if start < 1 then []
    else if start == 1 then [1]
    else [start] + Schedule(start / 2)
  }

  /** The stride schedule starts at `start`, halves by floor division while
      above 1, so each stride is at least 1 and strictly below the one
      before, and ends with the stride-1 pass; it is empty when `start` is
      below 1, and has at most `start` entries. */
  lemma {:induction false} ScheduleShape(start: int)
    ensures var r := Schedule(start);
      && (start < 1 ==> r == [])
      && (start >= 1 ==> |r| >= 1 && r[0] == start && r[|r| - 1] == 1)
      && (forall j :: 0 <= j < |r| ==> r[j] >= 1)
      && (forall j :: 0 < j < |r| ==> r[j] == r[j - 1] / 2 && r[j] < r[j - 1])
      && |r| <= (if start < 1 then 0 else start)
    decreases start
  {
    if start > 1 {
      ScheduleShape(start / 2);
    }
  }

  /** `s` cut into consecutive batches of `k` members, the last of which
      may be shorter. */
  function Chunks(s: seq<int>, k: int): seq<seq<int>>
    requires k >= 1
    decreases |s|
  {
    if |s| == 0 then []
    else if |s| <= k then [s]
    else [s[..k]] + Chunks(s[k..], k)
  }

  lemma {:induction false} FlattenFront(b: seq<int>, bs: seq<seq<int>>)
    ensures Flatten([b] + bs) == b + Flatten(bs)
    decreases |bs|
  {
    if |bs| > 0 {
      var init := bs[..|bs| - 1];
      assert ([b] + bs)[..|bs|] == [b] + init;
      FlattenFront(b, init);
    } else {
      assert [b] + bs == [b];
      assert [b][..0] == [];
    }
  }

  /** Batches that lay `s` out end to end, each with `k` members except the
      last, which has between one and `k`, are `s` cut into chunks of `k`. */
  lemma {:induction false} ChunksOf(bs: seq<seq<int>>, s: seq<int>, k: int)
    requires k >= 1 && Flatten(bs) == s
    requires forall j :: 0 <= j < |bs| - 1 ==> |bs[j]| == k
    requires |bs| > 0 ==> 0 < |bs[|bs| - 1]| <= k
    ensures bs == Chunks(s, k)
    decreases |bs|
  {
    if |bs| == 1 {
      assert bs[..0] == [];
      var none: seq<seq<int>> := [];
      assert Flatten(none) == [];
      assert Flatten(bs) == Flatten(none) + bs[0];
      assert s == bs[0];
      assert bs == [bs[0]];
    } else if |bs| > 1 {
      var rest := bs[1..];
      assert bs == [bs[0]] + rest;
      FlattenFront(bs[0], rest);
      assert |Flatten(rest)| >= |rest[|rest| - 1]|;
      assert s[..k] == bs[0] && s[k..] == Flatten(rest);
      ChunksOf(rest, s[k..], k);
    }
  }

  /** Every member of a chunk is a member of the cut sequence. */
  lemma {:induction false} ChunkMember(s: seq<int>, k: int, j: int, x: int)
    requires k >= 1 && 0 <= j < |Chunks(s, k)| && x in Chunks(s, k)[j]
    ensures x in s
    decreases |s|
  {
    if |s| > k && j > 0 {
      ChunkMember(s[k..], k, j - 1, x);
    }
  }

  /** The first stride of a round that starts from the selection `e`. */
  function Start(cfg: Config, e: seq<bool>): int
    requires cfg.Valid() && |e| == |cfg.lines|
  {
    if cfg.linear then 1 else CountIn(e, cfg.first, cfg.last)
  }

  /** Every batch a pass of stride `stride` cuts from `e` is rejected when
      it is disabled in `e` itself. */
  predicate PassRejects(cfg: Config, oracle: seq<string> -> int, e: seq<bool>, stride: int)
    requires cfg.Valid() && |e| == |cfg.lines| && stride >= 1
  {
    forall b :: b in Chunks(VisitOrder(cfg, e, cfg.last - cfg.first), stride) ==>
      oracle(WriteTo(cfg.lines, Disable(e, b))) != cfg.expected
  }

  /** A round from `e` can remove nothing: every batch of every stride of
      its schedule is rejected against `e`. */
  predicate Stable(cfg: Config, oracle: seq<string> -> int, e: seq<bool>)
    requires cfg.Valid() && |e| == |cfg.lines|
  {
    forall s :: s in Schedule(Start(cfg, e)) && s >= 1 ==> PassRejects(cfg, oracle, e, s)
  }

  /** The committed selection after the batches `bs` were tested in turn
      from `e0`, where `vs[j]` says whether batch `j` was accepted. */
  function Replay(e0: seq<bool>, bs: seq<seq<int>>, vs: seq<bool>): (r: seq<bool>)
    requires |bs| == |vs|
    ensures |r| == |e0|
    decreases |bs|
  {
    if |bs| == 0 then e0
    else
      var prev := Replay(e0, bs[..|bs| - 1], vs[..|vs| - 1]);
      if vs[|vs| - 1] then Disable(prev, bs[|bs| - 1]) else prev
  }

  /** Verdict `j` of `vs` is the oracle's judgement on the selection batch
      `j` was tested on: the committed selection of the batches before it,
      with batch `j` disabled. */
  predicate JudgedAt(
    cfg: Config, oracle: seq<string> -> int, e0: seq<bool>, bs: seq<seq<int>>, vs: seq<bool>, j: int)
    requires |e0| == |cfg.lines| && |bs| == |vs| && 0 <= j < |bs|
  {
    vs[j] <==> oracle(WriteTo(cfg.lines, Disable(Replay(e0, bs[..j], vs[..j]), bs[j]))) == cfg.expected
  }

  /** Every verdict of `vs` is the oracle's judgement on its batch. */
  predicate Judged(
    cfg: Config, oracle: seq<string> -> int, e0: seq<bool>, bs: seq<seq<int>>, vs: seq<bool>)
    requires |e0| == |cfg.lines|
  {
    && |bs| == |vs|
    && forall j :: 0 <= j < |bs| ==> JudgedAt(cfg, oracle, e0, bs, vs, j)
  }

  /** Testing one more batch extends the judged history by its verdict. */
  lemma ReplayAppend(
    cfg: Config, oracle: seq<string> -> int, e0: seq<bool>,
    bs: seq<seq<int>>, vs: seq<bool>, b: seq<int>, v: bool)
    requires |e0| == |cfg.lines| && Judged(cfg, oracle, e0, bs, vs)
    requires v <==> oracle(WriteTo(cfg.lines, Disable(Replay(e0, bs, vs), b))) == cfg.expected
    ensures Judged(cfg, oracle, e0, bs + [b], vs + [v])
    ensures Replay(e0, bs + [b], vs + [v]) ==
              if v then Disable(Replay(e0, bs, vs), b) else Replay(e0, bs, vs)
  {
    assert (bs + [b])[..|bs|] == bs && (vs + [v])[..|vs|] == vs;
    assert JudgedAt(cfg, oracle, e0, bs + [b], vs + [v], |bs|);
    forall j | 0 <= j < |bs|
      ensures JudgedAt(cfg, oracle, e0, bs + [b], vs + [v], j)
    {
      assert (bs + [b])[..j] == bs[..j] && (vs + [v])[..j] == vs[..j];
      assert JudgedAt(cfg, oracle, e0, bs, vs, j);
    }
  }

  /** A prefix of a judged history is judged. */
  lemma JudgedPrefix(
    cfg: Config, oracle: seq<string> -> int, e0: seq<bool>, bs: seq<seq<int>>, vs: seq<bool>, n: int)
    requires |e0| == |cfg.lines| && Judged(cfg, oracle, e0, bs, vs) && 0 <= n <= |bs|
    ensures Judged(cfg, oracle, e0, bs[..n], vs[..n])
  {
    forall j | 0 <= j < n
      ensures JudgedAt(cfg, oracle, e0, bs[..n], vs[..n], j)
    {
      assert bs[..n][..j] == bs[..j] && vs[..n][..j] == vs[..j];
      assert JudgedAt(cfg, oracle, e0, bs, vs, j);
    }
  }

  /** When every batch is rejected against `e0` itself, no verdict is an
      acceptance and the committed selection stays `e0`. */
  lemma {:induction false} ReplayRejected(
    cfg: Config, oracle: seq<string> -> int, e0: seq<bool>, bs: seq<seq<int>>, vs: seq<bool>)
    requires |e0| == |cfg.lines| && Judged(cfg, oracle, e0, bs, vs)
    requires forall b :: b in bs ==> oracle(WriteTo(cfg.lines, Disable(e0, b))) != cfg.expected
    ensures Replay(e0, bs, vs) == e0 && true !in vs
    decreases |bs|
  {
    if |bs| > 0 {
      var n := |bs| - 1;
      JudgedPrefix(cfg, oracle, e0, bs, vs, n);
      ReplayRejected(cfg, oracle, e0, bs[..n], vs[..n]);
      assert JudgedAt(cfg, oracle, e0, bs, vs, n);
      assert vs == vs[..n] + [vs[n]];
    }
  }

  /** The selection a pass that tests the batches `bs` in turn from `e`
      ends at, computed without recorded verdicts: each batch stays disabled
      exactly when the candidate with it disabled gets the expected verdict. */
  function PassResult(cfg: Config, oracle: seq<string> -> int, e: seq<bool>, bs: seq<seq<int>>): (r: seq<bool>)
    requires |e| == |cfg.lines|
    ensures |r| == |e|
    decreases |bs|
  {
    if |bs| == 0 then e
    else
      var prev := PassResult(cfg, oracle, e, bs[..|bs| - 1]);
      var cand := Disable(prev, bs[|bs| - 1]);
      if oracle(WriteTo(cfg.lines, cand)) == cfg.expected then cand else prev
  }

  /** What that pass writes to the output file: for each accepted batch, in
      order, the candidate it was accepted on. */
  function PassWrites(cfg: Config, oracle: seq<string> -> int, e: seq<bool>, bs: seq<seq<int>>): seq<seq<string>>
    requires |e| == |cfg.lines|
    decreases |bs|
  {
    if |bs| == 0 then []
    else
      var prev := PassResult(cfg, oracle, e, bs[..|bs| - 1]);
      var cand := WriteTo(cfg.lines, Disable(prev, bs[|bs| - 1]));
      PassWrites(cfg, oracle, e, bs[..|bs| - 1]) + (if oracle(cand) == cfg.expected then [cand] else [])
  }

  /** Testing one more batch: it stays disabled, and its candidate is
      written, exactly when the candidate gets the expected verdict. */
  lemma PassAppend(cfg: Config, oracle: seq<string> -> int, e: seq<bool>, bs: seq<seq<int>>, b: seq<int>)
    requires |e| == |cfg.lines|
    ensures var prev := PassResult(cfg, oracle, e, bs);
      var cand := Disable(prev, b);
      var ok := oracle(WriteTo(cfg.lines, cand)) == cfg.expected;
      && PassResult(cfg, oracle, e, bs + [b]) == (if ok then cand else prev)
      && PassWrites(cfg, oracle, e, bs + [b]) ==
           PassWrites(cfg, oracle, e, bs) + (if ok then [WriteTo(cfg.lines, cand)] else [])
  {
    assert (bs + [b])[..|bs|] == bs;
  }

  /** A judged history replays to the selection the verdict-free pass
      reaches: recorded verdicts add nothing to what the oracle decides. */
  lemma {:induction false} ReplayPass(
    cfg: Config, oracle: seq<string> -> int, e0: seq<bool>, bs: seq<seq<int>>, vs: seq<bool>)
    requires |e0| == |cfg.lines| && Judged(cfg, oracle, e0, bs, vs)
    ensures Replay(e0, bs, vs) == PassResult(cfg, oracle, e0, bs)
    decreases |bs|
  {
    if |bs| > 0 {
      var n := |bs| - 1;
      JudgedPrefix(cfg, oracle, e0, bs, vs, n);
      ReplayPass(cfg, oracle, e0, bs[..n], vs[..n]);
      assert JudgedAt(cfg, oracle, e0, bs, vs, n);
    }
  }

  /** The contents a pass with the judged history `bs`, `vs` wrote to the
      output file: after each accepted batch, the replayed selection. */
  function Accepted(cfg: Config, e0: seq<bool>, bs: seq<seq<int>>, vs: seq<bool>): seq<seq<string>>
    requires |e0| == |cfg.lines| && |bs| == |vs|
    decreases |bs|
  {
    if |bs| == 0 then []
    else
      Accepted(cfg, e0, bs[..|bs| - 1], vs[..|vs| - 1])
        + (if vs[|vs| - 1] then [WriteTo(cfg.lines, Replay(e0, bs, vs))] else [])
  }

  /** What a judged history wrote is what the verdict-free pass writes. */
  lemma {:induction false} AcceptedPass(
    cfg: Config, oracle: seq<string> -> int, e0: seq<bool>, bs: seq<seq<int>>, vs: seq<bool>)
    requires |e0| == |cfg.lines| && Judged(cfg, oracle, e0, bs, vs)
    ensures Accepted(cfg, e0, bs, vs) == PassWrites(cfg, oracle, e0, bs)
    decreases |bs|
  {
    if |bs| > 0 {
      var n := |bs| - 1;
      JudgedPrefix(cfg, oracle, e0, bs, vs, n);
      AcceptedPass(cfg, oracle, e0, bs[..n], vs[..n]);
      ReplayPass(cfg, oracle, e0, bs[..n], vs[..n]);
      assert JudgedAt(cfg, oracle, e0, bs, vs, n);
    }
  }

  /** For the batches of a pass of stride `stride`, a judged history's
      replay and its accepted writes are what `StrideResult` and
      `StrideWrites` compute from the oracle. */
  lemma StrideFolds(
    cfg: Config, oracle: seq<string> -> int, stride: int, e0: seq<bool>, w0: seq<seq<string>>,
    bs: seq<seq<int>>, vs: seq<bool>)
    requires cfg.Valid() && |e0| == |cfg.lines| && stride >= 1
    requires bs == Chunks(VisitOrder(cfg, e0, cfg.last - cfg.first), stride) && Judged(cfg, oracle, e0, bs, vs)
    ensures Replay(e0, bs, vs) == PassResult(cfg, oracle, e0, bs) == StrideResult(cfg, oracle, e0, stride)
    ensures w0 + Accepted(cfg, e0, bs, vs) == w0 + PassWrites(cfg, oracle, e0, bs) == w0 + StrideWrites(cfg, oracle, e0, stride)
  {
    ReplayPass(cfg, oracle, e0, bs, vs);
    AcceptedPass(cfg, oracle, e0, bs, vs);
  }

  /** The variables of a pass in flight: the selection with the current
      batch tentatively disabled, the counters, the output file history,
      whether anything was kept, the batches tested so far with their
      verdicts, and the batch being gathered (linedd's `disabledSet`, here in
      visiting order). */
  datatype PassState = PassState(
    e: seq<bool>,
    c: Counters,
    w: seq<seq<string>>,
    changed: bool,
    batches: seq<seq<int>>,
    verdicts: seq<bool>,
    batch: seq<int>)

  /** What holds of the committed side of a pass that started from `e0`:
      the counters and output file follow `committed`, lines only ever go
      off, `committed` is the replay of the judged batches, and while nothing
      was kept every tested batch was rejected against `e0` itself. */
  ghost predicate PassCommitted(
    cfg: Config, oracle: seq<string> -> int, e0: seq<bool>, c0: Counters, w0: seq<seq<string>>,
    c: Counters, w: seq<seq<string>>, changed: bool,
    batches: seq<seq<int>>, verdicts: seq<bool>, committed: seq<bool>)
    requires cfg.Valid() && |e0| == |cfg.lines|
  {
    && Consistent(cfg, committed, c) && Persisted(cfg, oracle, w, committed)
    && Judged(cfg, oracle, e0, batches, verdicts)
    && committed == Replay(e0, batches, verdicts)
    && (changed <==> true in verdicts)
    && (forall i :: 0 <= i < |committed| && committed[i] ==> e0[i])
    && (changed ==> c.numEnabled < c0.numEnabled)
    && (!changed ==> committed == e0 && c == c0 && w == w0)
    && (!changed ==> forall b :: b in batches ==>
          oracle(WriteTo(cfg.lines, Disable(e0, b))) != cfg.expected)
  }

  /** What holds of the batch side of a pass after `k` visiting steps: the
      tested batches and the current one lay out the visit order so far, the
      current batch is tentatively disabled in `e`, and the indices not yet
      visited are as in `e0`. */
  ghost predicate PassBatch(
    cfg: Config, e0: seq<bool>, k: int, stride: int,
    e: seq<bool>, batches: seq<seq<int>>, batch: seq<int>, committed: seq<bool>)
    requires cfg.Valid() && |e0| == |cfg.lines|
  {
    && 0 <= k <= cfg.last - cfg.first
    && |committed| == |e0|
    && e == Disable(committed, batch)
    && |batch| <= stride
    && Flatten(batches) + batch == VisitOrder(cfg, e0, k)
    && (forall j :: 0 <= j < |batch| ==> 0 <= batch[j] < |committed| && committed[batch[j]])
    && (forall i :: 0 <= i < |committed| && cfg.InWindow(i) && !Seen(cfg, k, i) ==> committed[i] == e0[i])
  }

  ghost predicate PassInv(
    cfg: Config, oracle: seq<string> -> int, stride: int,
    e0: seq<bool>, c0: Counters, w0: seq<seq<string>>,
    k: int, st: PassState, committed: seq<bool>)
    requires cfg.Valid() && |e0| == |cfg.lines|
  {
    && PassCommitted(cfg, oracle, e0, c0, w0, st.c, st.w, st.changed, st.batches, st.verdicts, committed)
    && PassBatch(cfg, e0, k, stride, st.e, st.batches, st.batch, committed)
  }

  /** The pass invariant together with what the traversal keeps between
      visiting steps: the output file gained the replayed selection after
      each accepted batch, the batch being gathered is not yet full, and
      every tested batch was full. */
  ghost predicate Walking(
    cfg: Config, oracle: seq<string> -> int, stride: int,
    e0: seq<bool>, c0: Counters, w0: seq<seq<string>>,
    k: int, st: PassState, committed: seq<bool>)
    requires cfg.Valid() && |e0| == |cfg.lines|
  {
    && PassInv(cfg, oracle, stride, e0, c0, w0, k, st, committed)
    && st.w == w0 + Accepted(cfg, e0, st.batches, st.verdicts)
    && |st.batch| < stride
    && (forall j :: 0 <= j < |st.batches| ==> |st.batches[j]| == stride)
  }

  /** Visiting step `k` of a pass (the body of linedd's `for` loop up to
      the batch test): an enabled index joins the batch and is tentatively
      disabled, a disabled one is skipped. */
  method Gather(
    cfg: Config, oracle: seq<string> -> int, stride: int,
    e0: seq<bool>, c0: Counters, w0: seq<seq<string>>,
    k: int, st: PassState, ghost committed: seq<bool>)
    returns (st': PassState)
    requires cfg.Valid() && |e0| == |cfg.lines| && stride >= 1
    requires PassInv(cfg, oracle, stride, e0, c0, w0, k, st, committed)
    requires k < cfg.last - cfg.first && |st.batch| < stride
    ensures PassInv(cfg, oracle, stride, e0, c0, w0, k + 1, st', committed)
    ensures st'.batches == st.batches && st'.verdicts == st.verdicts && st'.changed == st.changed
    ensures st'.c == st.c && st'.w == st.w
    ensures |st.batch| <= |st'.batch| <= |st.batch| + 1
  {
    var i := Visit(cfg, k);
    GatherStep(cfg, e0, k, stride, st.e, st.batches, st.batch, committed);
    if st.e[i] {
      st' := st.(e := st.e[i := false], batch := st.batch + [i]);
    } else {
      st' := st;
    }
  }

  /** The batch side of one visiting step. */
  lemma GatherStep(
    cfg: Config, e0: seq<bool>, k: int, stride: int,
    e: seq<bool>, batches: seq<seq<int>>, batch: seq<int>, committed: seq<bool>)
    requires cfg.Valid() && |e0| == |cfg.lines|
    requires PassBatch(cfg, e0, k, stride, e, batches, batch, committed)
    requires k < cfg.last - cfg.first && |batch| < stride
    ensures 0 <= Visit(cfg, k) < |e|
    ensures e[Visit(cfg, k)] ==>
      PassBatch(cfg, e0, k + 1, stride, e[Visit(cfg, k) := false], batches, batch + [Visit(cfg, k)], committed)
    ensures !e[Visit(cfg, k)] ==> PassBatch(cfg, e0, k + 1, stride, e, batches, batch, committed)
  {
    var i := Visit(cfg, k);
    SeenStep(cfg, k);
    assert VisitOrder(cfg, e0, k + 1) == VisitOrder(cfg, e0, k) + (if e0[i] then [i] else []);
    assert i !in batch by {
      BatchSeen(cfg, e0, k, Flatten(batches), batch);
    }
    assert e[i] == e0[i];
    if e[i] {
      assert Disable(committed, batch + [i]) == e[i := false];
      assert Flatten(batches) + (batch + [i]) == VisitOrder(cfg, e0, k + 1);
    }
  }

  /** The members of a batch cut from the visit order were visited. */
  lemma BatchSeen(cfg: Config, e0: seq<bool>, k: int, done: seq<int>, batch: seq<int>)
    requires cfg.Valid() && |e0| == |cfg.lines| && 0 <= k <= cfg.last - cfg.first
    requires done + batch == VisitOrder(cfg, e0, k)
    ensures forall j :: 0 <= j < |batch| ==> cfg.InWindow(batch[j]) && Seen(cfg, k, batch[j])
  {
    VisitOrderFacts(cfg, e0, k);
    var r := VisitOrder(cfg, e0, k);
    forall j | 0 <= j < |batch| ensures cfg.InWindow(batch[j]) && Seen(cfg, k, batch[j]) {
      assert batch[j] == r[|done| + j];
    }
  }

  /** A batch cut from the visit order holds no index twice. */
  lemma BatchDistinct(cfg: Config, e0: seq<bool>, k: int, done: seq<int>, batch: seq<int>)
    requires cfg.Valid() && |e0| == |cfg.lines| && 0 <= k <= cfg.last - cfg.first
    requires done + batch == VisitOrder(cfg, e0, k)
    ensures Distinct(batch)
    ensures forall j :: 0 <= j < |batch| ==> cfg.InWindow(batch[j])
  {
    VisitOrderFacts(cfg, e0, k);
    var r := VisitOrder(cfg, e0, k);
    forall a, b | 0 <= a < b < |batch| ensures batch[a] != batch[b] {
      assert batch[a] == r[|done| + a] && batch[b] == r[|done| + b];
    }
    forall j | 0 <= j < |batch| ensures cfg.InWindow(batch[j]) {
      assert batch[j] == r[|done| + j];
    }
  }

  /** Testing the gathered batch (linedd's full-batch test inside the
      loop and the leftover test after it share this logic): the batch is
      judged by `TestBatch`, recorded as tested, and emptied. */
  method Flush(
    cfg: Config, oracle: seq<string> -> int, stride: int,
    e0: seq<bool>, c0: Counters, w0: seq<seq<string>>,
    k: int, st: PassState, ghost committed: seq<bool>)
    returns (st': PassState, ghost committed': seq<bool>)
    requires cfg.Valid() && |e0| == |cfg.lines| && stride >= 1
    requires PassInv(cfg, oracle, stride, e0, c0, w0, k, st, committed)
    requires |st.batch| > 0
    requires st.w == w0 + Accepted(cfg, e0, st.batches, st.verdicts)
    ensures PassInv(cfg, oracle, stride, e0, c0, w0, k, st', committed')
    ensures st'.batch == [] && st'.batches == st.batches + [st.batch]
    ensures st'.e == committed'
    ensures st'.w == w0 + Accepted(cfg, e0, st'.batches, st'.verdicts)
  {
    BatchDistinct(cfg, e0, k, Flatten(st.batches), st.batch);
    var next, c, w, accepted := TestBatch(cfg, oracle, st.e, st.batch, committed, st.c, st.w);
    FlushBatch(cfg, e0, k, stride, st.e, st.batches, st.batch, committed, next);
    FlushCommitted(cfg, oracle, e0, c0, w0, st, committed, next, c, w, accepted);
    FlushWrites(cfg, e0, w0, st.batches, st.verdicts, st.batch, accepted, st.w, w);
    st' := PassState(next, c, w, st.changed || accepted, st.batches + [st.batch], st.verdicts + [accepted], []);
    committed' := next;
  }

  /** The committed side of testing the current batch: the verdict joins
      the judged history, the selection is its replay, and a first
      acceptance is one against `e0` itself. */
  lemma FlushCommitted(
    cfg: Config, oracle: seq<string> -> int, e0: seq<bool>, c0: Counters, w0: seq<seq<string>>,
    st: PassState, committed: seq<bool>,
    next: seq<bool>, c: Counters, w: seq<seq<string>>, accepted: bool)
    requires cfg.Valid() && |e0| == |cfg.lines|
    requires PassCommitted(cfg, oracle, e0, c0, w0, st.c, st.w, st.changed, st.batches, st.verdicts, committed)
    requires accepted <==> oracle(WriteTo(cfg.lines, Disable(committed, st.batch))) == cfg.expected
    requires accepted ==> next == Disable(committed, st.batch) && c.numEnabled < st.c.numEnabled
    requires !accepted ==> next == committed && w == st.w && c == st.c
    requires Consistent(cfg, next, c) && Persisted(cfg, oracle, w, next)
    ensures PassCommitted(
      cfg, oracle, e0, c0, w0, c, w, st.changed || accepted,
      st.batches + [st.batch], st.verdicts + [accepted], next)
  {
    ReplayAppend(cfg, oracle, e0, st.batches, st.verdicts, st.batch, accepted);
  }

  /** The output-file side of testing the current batch: an accepted
      batch's candidate joins the pass's writes, a rejected one adds
      nothing. */
  lemma FlushWrites(
    cfg: Config, e0: seq<bool>, w0: seq<seq<string>>,
    bs: seq<seq<int>>, vs: seq<bool>, b: seq<int>, accepted: bool,
    w: seq<seq<string>>, w': seq<seq<string>>)
    requires |e0| == |cfg.lines| && |bs| == |vs|
    requires w == w0 + Accepted(cfg, e0, bs, vs)
    requires accepted ==> w' == w + [WriteTo(cfg.lines, Disable(Replay(e0, bs, vs), b))]
    requires !accepted ==> w' == w
    ensures w' == w0 + Accepted(cfg, e0, bs + [b], vs + [accepted])
  {
    var bs', vs' := bs + [b], vs + [accepted];
    assert bs'[..|bs|] == bs && vs'[..|vs|] == vs;
    assert Accepted(cfg, e0, bs', vs') ==
      Accepted(cfg, e0, bs, vs) + (if accepted then [WriteTo(cfg.lines, Replay(e0, bs', vs'))] else []);
  }

  /** The batch side of testing the current batch: whichever verdict, the
      batch joins the tested ones and the selection has no tentative
      removal left. */
  lemma FlushBatch(
    cfg: Config, e0: seq<bool>, k: int, stride: int,
    e: seq<bool>, batches: seq<seq<int>>, batch: seq<int>, committed: seq<bool>, next: seq<bool>)
    requires cfg.Valid() && |e0| == |cfg.lines|
    requires PassBatch(cfg, e0, k, stride, e, batches, batch, committed)
    requires next == e || next == committed
    ensures PassBatch(cfg, e0, k, stride, next, batches + [batch], [], next)
  {
    FlattenAppend(batches, batch);
    BatchSeen(cfg, e0, k, Flatten(batches), batch);
    assert Disable(next, []) == next;
    assert Flatten(batches + [batch]) + [] == VisitOrder(cfg, e0, k);
  }

  /** One iteration of the pass loop: visit index `k` and, when the batch
      reaches `stride` members, test it. */
  method Step(
    cfg: Config, oracle: seq<string> -> int, stride: int,
    e0: seq<bool>, c0: Counters, w0: seq<seq<string>>,
    k: int, st: PassState, ghost committed: seq<bool>)
    returns (st': PassState, ghost committed': seq<bool>)
    requires cfg.Valid() && |e0| == |cfg.lines| && stride >= 1
    requires Walking(cfg, oracle, stride, e0, c0, w0, k, st, committed)
    requires k < cfg.last - cfg.first
    ensures Walking(cfg, oracle, stride, e0, c0, w0, k + 1, st', committed')
  {
    st' := Gather(cfg, oracle, stride, e0, c0, w0, k, st, committed);
    committed' := committed;
    if |st'.batch| == stride {
      FullBatches(st'.batches, st'.batch, stride);
      st', committed' := Flush(cfg, oracle, stride, e0, c0, w0, k + 1, st', committed);
    }
  }

  /** Adding a full batch to full batches leaves every batch full. */
  lemma FullBatches(bs: seq<seq<int>>, b: seq<int>, stride: int)
    requires forall j :: 0 <= j < |bs| ==> |bs[j]| == stride
    requires |b| == stride
    ensures forall j :: 0 <= j < |bs + [b]| ==> |(bs + [b])[j]| == stride
  {
  }

  /** The state a pass starts in satisfies the pass invariant. */
  lemma PassStart(
    cfg: Config, oracle: seq<string> -> int, stride: int,
    e0: seq<bool>, c0: Counters, w0: seq<seq<string>>)
    requires cfg.Valid() && stride >= 1
    requires Consistent(cfg, e0, c0) && Persisted(cfg, oracle, w0, e0)
    ensures Walking(cfg, oracle, stride, e0, c0, w0, 0, PassState(e0, c0, w0, false, [], [], []), e0)
  {
    assert Disable(e0, []) == e0;
    assert w0 + Accepted(cfg, e0, [], []) == w0;
  }

  /** At the end of a pass, with no batch pending, the selection is the
      committed one and the tested batches lay out the whole visit order. */
  lemma PassDone(
    cfg: Config, oracle: seq<string> -> int, stride: int,
    e0: seq<bool>, c0: Counters, w0: seq<seq<string>>, k: int, st: PassState, committed: seq<bool>)
    requires cfg.Valid() && |e0| == |cfg.lines| && k == cfg.last - cfg.first
    requires PassInv(cfg, oracle, stride, e0, c0, w0, k, st, committed)
    requires st.batch == []
    ensures st.e == committed
    ensures Flatten(st.batches) == VisitOrder(cfg, e0, cfg.last - cfg.first)
  {
    assert Disable(committed, []) == committed;
    assert Flatten(st.batches) + [] == Flatten(st.batches);
  }

  /** The end of a pass: the leftover batch, smaller than `stride`, is
      tested exactly once, and then no batch is pending. */
  method Finish(
    cfg: Config, oracle: seq<string> -> int, stride: int,
    e0: seq<bool>, c0: Counters, w0: seq<seq<string>>,
    k: int, st: PassState, ghost committed: seq<bool>)
    returns (st': PassState)
    requires cfg.Valid() && |e0| == |cfg.lines| && stride >= 1 && k == cfg.last - cfg.first
    requires Walking(cfg, oracle, stride, e0, c0, w0, k, st, committed)
    ensures st'.batch == []
    ensures Consistent(cfg, st'.e, st'.c) && Persisted(cfg, oracle, st'.w, st'.e)
    ensures forall i :: 0 <= i < |st'.e| && st'.e[i] ==> e0[i]
    ensures st'.changed ==> st'.c.numEnabled < c0.numEnabled
    ensures !st'.changed ==> st'.e == e0 && st'.c == c0 && st'.w == w0
    ensures Flatten(st'.batches) == VisitOrder(cfg, e0, cfg.last - cfg.first)
    ensures forall j :: 0 <= j < |st'.batches| - 1 ==> |st'.batches[j]| == stride
    ensures |st'.batches| > 0 ==> 0 < |st'.batches[|st'.batches| - 1]| <= stride
    ensures !st'.changed ==> forall b :: b in st'.batches ==>
              oracle(WriteTo(cfg.lines, Disable(e0, b))) != cfg.expected
    ensures Judged(cfg, oracle, e0, st'.batches, st'.verdicts) && st'.e == Replay(e0, st'.batches, st'.verdicts)
    ensures st'.w == w0 + Accepted(cfg, e0, st'.batches, st'.verdicts)
    ensures st'.changed <==> true in st'.verdicts
  {
    ghost var committed' := committed;
    st' := st;
    if |st.batch| > 0 {
      st', committed' := Flush(cfg, oracle, stride, e0, c0, w0, k, st, committed);
    }
    PassDone(cfg, oracle, stride, e0, c0, w0, k, st', committed');
  }

  /** The traversal of a pass (linedd's `for` loop over the window): every
      index is visited, every full batch is tested, and a batch smaller than
      `stride` may be left pending. */
  method Traverse(
    cfg: Config, oracle: seq<string> -> int, stride: int,
    e0: seq<bool>, c0: Counters, w0: seq<seq<string>>)
    returns (st: PassState, ghost committed: seq<bool>)
    requires cfg.Valid() && stride >= 1
    requires Consistent(cfg, e0, c0) && Persisted(cfg, oracle, w0, e0)
    ensures Walking(cfg, oracle, stride, e0, c0, w0, cfg.last - cfg.first, st, committed)
  {
    var n := cfg.last - cfg.first;
    st := PassState(e0, c0, w0, false, [], [], []);
    committed := e0;
    PassStart(cfg, oracle, stride, e0, c0, w0);
    var k := 0;
    while k < n
      invariant k <= n
      invariant Walking(cfg, oracle, stride, e0, c0, w0, k, st, committed)
    {
      st, committed := Step(cfg, oracle, stride, e0, c0, w0, k, st, committed);
      k := k + 1;
    }
  }

  /** One stride pass over the window. The tested batches are the enabled
      window indices of the starting selection `e0`, in visiting order, cut
      into chunks of `stride`: every chunk but the last is full and the last
      is tested once. Each verdict is the oracle's judgement on the committed
      selection so far with that batch disabled, and the result is `e0`
      with exactly the accepted batches disabled, which is also the
      selection the verdict-free `PassResult` reaches; the output file gains
      the accepted candidates in order. The counters follow the committed
      selection. The pass keeps nothing exactly
      when every chunk is rejected against `e0` itself. */
  method StridePass(
    cfg: Config, oracle: seq<string> -> int, stride: int,
    e0: seq<bool>, c0: Counters, w0: seq<seq<string>>)
    returns (e: seq<bool>, c: Counters, w: seq<seq<string>>, changed: bool,
             batches: seq<seq<int>>, verdicts: seq<bool>)
    requires cfg.Valid() && stride >= 1
    requires Consistent(cfg, e0, c0) && Persisted(cfg, oracle, w0, e0)
    ensures Consistent(cfg, e, c) && Persisted(cfg, oracle, w, e)
    ensures forall i :: 0 <= i < |e| && e[i] ==> e0[i]
    ensures changed ==> c.numEnabled < c0.numEnabled
    ensures !changed ==> e == e0 && c == c0 && w == w0
    ensures Flatten(batches) == VisitOrder(cfg, e0, cfg.last - cfg.first)
    ensures forall j :: 0 <= j < |batches| - 1 ==> |batches[j]| == stride
    ensures |batches| > 0 ==> 0 < |batches[|batches| - 1]| <= stride
    ensures !changed ==> forall b :: b in batches ==>
              oracle(WriteTo(cfg.lines, Disable(e0, b))) != cfg.expected
    ensures batches == Chunks(VisitOrder(cfg, e0, cfg.last - cfg.first), stride)
    ensures Judged(cfg, oracle, e0, batches, verdicts) && e == Replay(e0, batches, verdicts)
    ensures changed <==> true in verdicts
    ensures e == PassResult(cfg, oracle, e0, batches) && w == w0 + PassWrites(cfg, oracle, e0, batches)
    ensures e == StrideResult(cfg, oracle, e0, stride) && w == w0 + StrideWrites(cfg, oracle, e0, stride)
    ensures !changed <==> PassRejects(cfg, oracle, e0, stride)
    ensures stride == 1 && !changed ==> OneMinimal(cfg, oracle, e0)
  {
    var st;
    ghost var committed;
    st, committed := Traverse(cfg, oracle, stride, e0, c0, w0);
    st := Finish(cfg, oracle, stride, e0, c0, w0, cfg.last - cfg.first, st, committed);
    e, c, w, changed, batches, verdicts := st.e, st.c, st.w, st.changed, st.batches, st.verdicts;
    PassOutcome(cfg, oracle, stride, e0, changed, batches, verdicts);
    StrideFolds(cfg, oracle, stride, e0, w0, batches, verdicts);
  }

  /** What the tested batches and their verdicts say about a finished pass:
      the batches are the chunks of the visit order, the pass keeps nothing
      exactly when every chunk is rejected against `e0`, and a stride-1 pass
      that keeps nothing shows `e0` 1-minimal. */
  lemma PassOutcome(
    cfg: Config, oracle: seq<string> -> int, stride: int, e0: seq<bool>,
    changed: bool, batches: seq<seq<int>>, verdicts: seq<bool>)
    requires cfg.Valid() && |e0| == |cfg.lines| && stride >= 1
    requires Flatten(batches) == VisitOrder(cfg, e0, cfg.last - cfg.first)
    requires forall j :: 0 <= j < |batches| - 1 ==> |batches[j]| == stride
    requires |batches| > 0 ==> 0 < |batches[|batches| - 1]| <= stride
    requires Judged(cfg, oracle, e0, batches, verdicts)
    requires changed <==> true in verdicts
    requires !changed ==> forall b :: b in batches ==>
               oracle(WriteTo(cfg.lines, Disable(e0, b))) != cfg.expected
    ensures batches == Chunks(VisitOrder(cfg, e0, cfg.last - cfg.first), stride)
    ensures !changed <==> PassRejects(cfg, oracle, e0, stride)
    ensures stride == 1 && !changed ==> OneMinimal(cfg, oracle, e0)
  {
    ChunksOf(batches, VisitOrder(cfg, e0, cfg.last - cfg.first), stride);
    KeptNothing(cfg, oracle, stride, e0, changed, batches, verdicts);
    if stride == 1 && !changed {
      SinglesMinimal(cfg, oracle, e0, batches);
    }
  }

  /** A pass over the chunks of the visit order kept nothing exactly when
      every chunk is rejected against `e0`. */
  lemma KeptNothing(
    cfg: Config, oracle: seq<string> -> int, stride: int, e0: seq<bool>,
    changed: bool, batches: seq<seq<int>>, verdicts: seq<bool>)
    requires cfg.Valid() && |e0| == |cfg.lines| && stride >= 1
    requires batches == Chunks(VisitOrder(cfg, e0, cfg.last - cfg.first), stride)
    requires Judged(cfg, oracle, e0, batches, verdicts)
    requires changed <==> true in verdicts
    requires !changed ==> forall b :: b in batches ==>
               oracle(WriteTo(cfg.lines, Disable(e0, b))) != cfg.expected
    ensures !changed <==> PassRejects(cfg, oracle, e0, stride)
  {
    if PassRejects(cfg, oracle, e0, stride) {
      ReplayRejected(cfg, oracle, e0, batches, verdicts);
    }
  }

  /** In a pass of singleton batches, each enabled window line of `e0` was
      the whole of one batch. */
  lemma SingletonBatch(cfg: Config, e0: seq<bool>, batches: seq<seq<int>>, i: int) returns (j: int)
    requires cfg.Valid() && |e0| == |cfg.lines|
    requires Flatten(batches) == VisitOrder(cfg, e0, cfg.last - cfg.first)
    requires forall j :: 0 <= j < |batches| - 1 ==> |batches[j]| == 1
    requires |batches| > 0 ==> 0 < |batches[|batches| - 1]| <= 1
    requires cfg.first <= i < cfg.last && e0[i]
    ensures 0 <= j < |batches| && batches[j] == [i]
  {
    VisitOrderFacts(cfg, e0, cfg.last - cfg.first);
    assert Seen(cfg, cfg.last - cfg.first, i);
    j := FlattenMember(batches, i);
    assert |batches[j]| == 1;
  }

  /** A stride-1 pass that kept nothing shows 1-minimality: it tested every
      enabled window line alone, with all other lines as in `e0`, and every
      such test was rejected. */
  lemma SinglesMinimal(
    cfg: Config, oracle: seq<string> -> int, e0: seq<bool>, batches: seq<seq<int>>)
    requires cfg.Valid() && |e0| == |cfg.lines|
    requires Flatten(batches) == VisitOrder(cfg, e0, cfg.last - cfg.first)
    requires forall j :: 0 <= j < |batches| - 1 ==> |batches[j]| == 1
    requires |batches| > 0 ==> 0 < |batches[|batches| - 1]| <= 1
    requires forall b :: b in batches ==>
               oracle(WriteTo(cfg.lines, Disable(e0, b))) != cfg.expected
    ensures OneMinimal(cfg, oracle, e0)
  {
    forall i | cfg.first <= i < cfg.last && 0 <= i < |e0| && e0[i]
      ensures oracle(WriteTo(cfg.lines, e0[i := false])) != cfg.expected
    {
      var j := SingletonBatch(cfg, e0, batches, i);
      assert Disable(e0, batches[j]) == e0[i := false];
    }
  }

  /** The selection one pass of stride `s` from `e` ends at: the visit
      order of `e` cut into chunks of `s`, each judged by the oracle alone. */
  function StrideResult(cfg: Config, oracle: seq<string> -> int, e: seq<bool>, s: int): (r: seq<bool>)
    requires cfg.Valid() && |e| == |cfg.lines| && s >= 1
    ensures |r| == |e|
  {
    PassResult(cfg, oracle, e, Chunks(VisitOrder(cfg, e, cfg.last - cfg.first), s))
  }

  /** What that pass writes to the output file. */
  function StrideWrites(cfg: Config, oracle: seq<string> -> int, e: seq<bool>, s: int): seq<seq<string>>
    requires cfg.Valid() && |e| == |cfg.lines| && s >= 1
  {
    PassWrites(cfg, oracle, e, Chunks(VisitOrder(cfg, e, cfg.last - cfg.first), s))
  }

  /** The selection a round from `e` ends at after the passes of `strides`
      in turn, each starting from where the previous one left off. */
  function RoundResult(cfg: Config, oracle: seq<string> -> int, e: seq<bool>, strides: seq<int>): (r: seq<bool>)
    requires cfg.Valid() && |e| == |cfg.lines|
    ensures |r| == |e|
    decreases |strides|
  {
    if |strides| == 0 then e
    else
      var prev := RoundResult(cfg, oracle, e, strides[..|strides| - 1]);
      if strides[|strides| - 1] < 1 then prev else StrideResult(cfg, oracle, prev, strides[|strides| - 1])
  }

  /** The output file's contents after those passes, when it held `w`
      before them: each pass appends what it writes. */
  function RoundWrites(cfg: Config, oracle: seq<string> -> int, e: seq<bool>, w: seq<seq<string>>, strides: seq<int>): seq<seq<string>>
    requires cfg.Valid() && |e| == |cfg.lines|
    decreases |strides|
  {
    if |strides| == 0 then w
    else
      var prev := RoundResult(cfg, oracle, e, strides[..|strides| - 1]);
      var before := RoundWrites(cfg, oracle, e, w, strides[..|strides| - 1]);
      if strides[|strides| - 1] < 1 then before else before + StrideWrites(cfg, oracle, prev, strides[|strides| - 1])
  }

  /** Running one more pass of stride `s` continues the round from where
      the earlier passes left it. */
  lemma RoundAppend(cfg: Config, oracle: seq<string> -> int, e: seq<bool>, w: seq<seq<string>>, strides: seq<int>, s: int)
    requires cfg.Valid() && |e| == |cfg.lines| && s >= 1
    ensures RoundResult(cfg, oracle, e, strides + [s]) == StrideResult(cfg, oracle, RoundResult(cfg, oracle, e, strides), s)
    ensures RoundWrites(cfg, oracle, e, w, strides + [s])
      == RoundWrites(cfg, oracle, e, w, strides) + StrideWrites(cfg, oracle, RoundResult(cfg, oracle, e, strides), s)
  {
    assert (strides + [s])[..|strides|] == strides;
  }

  /** A pass from where the round stands, ending where `StrideResult`
      says and writing what `StrideWrites` says, carries the round one
      stride further. */
  lemma RoundStep(
    cfg: Config, oracle: seq<string> -> int, e0: seq<bool>, w0: seq<seq<string>>,
    strides: seq<int>, stride: int, e: seq<bool>, w: seq<seq<string>>, e': seq<bool>, w': seq<seq<string>>)
    requires cfg.Valid() && |e0| == |cfg.lines| && stride >= 1
    requires e == RoundResult(cfg, oracle, e0, strides) && w == RoundWrites(cfg, oracle, e0, w0, strides)
    requires e' == StrideResult(cfg, oracle, e, stride) && w' == w + StrideWrites(cfg, oracle, e, stride)
    ensures e' == RoundResult(cfg, oracle, e0, strides + [stride])
    ensures w' == RoundWrites(cfg, oracle, e0, w0, strides + [stride])
  {
    RoundAppend(cfg, oracle, e0, w0, strides, stride);
  }

  /** What holds of a round from `e0` after the passes of the strides
      `strides`: the counters and output file follow the selection, lines
      only ever go off, a round that kept something lowered the enabled
      count after some stride had a chunk accepted against `e0`, and a
      round that kept nothing is still at `e0` and found every chunk of
      every stride so far rejected against it. */
  ghost predicate RoundSoFar(
    cfg: Config, oracle: seq<string> -> int, e0: seq<bool>, c0: Counters, w0: seq<seq<string>>,
    strides: seq<int>, e: seq<bool>, c: Counters, w: seq<seq<string>>, changed: bool)
    requires cfg.Valid() && |e0| == |cfg.lines|
  {
    && Consistent(cfg, e, c) && Persisted(cfg, oracle, w, e)
    && (forall i :: 0 <= i < |e| && e[i] ==> e0[i])
    && (changed ==> c.numEnabled < c0.numEnabled)
    && (!changed ==> e == e0 && c == c0 && w == w0)
    && (!changed ==> forall s :: s in strides ==> s >= 1 && PassRejects(cfg, oracle, e0, s))
    && (changed ==> exists s :: s in strides && s >= 1 && !PassRejects(cfg, oracle, e0, s))
  }

  /** One pass of a round, run on the round's current selection `e`. While
      the round has kept nothing, `e` is the round's starting selection
      `e0`, so the round has kept something after this pass exactly when it
      had before or some chunk of this stride is accepted against `e0`. */
  method RoundPass(
    cfg: Config, oracle: seq<string> -> int, stride: int,
    e0: seq<bool>, c0: Counters, w0: seq<seq<string>>, strides: seq<int>,
    e: seq<bool>, c: Counters, w: seq<seq<string>>, changed: bool)
    returns (e': seq<bool>, c': Counters, w': seq<seq<string>>, changed': bool, strides': seq<int>)
    requires cfg.Valid() && stride >= 1 && Consistent(cfg, e0, c0)
    requires RoundSoFar(cfg, oracle, e0, c0, w0, strides, e, c, w, changed)
    requires e == RoundResult(cfg, oracle, e0, strides) && w == RoundWrites(cfg, oracle, e0, w0, strides)
    ensures strides' == strides + [stride]
    ensures RoundSoFar(cfg, oracle, e0, c0, w0, strides', e', c', w', changed')
    ensures e' == RoundResult(cfg, oracle, e0, strides') && w' == RoundWrites(cfg, oracle, e0, w0, strides')
    ensures changed' <==> changed || !PassRejects(cfg, oracle, e0, stride)
    ensures stride == 1 && !changed' ==> OneMinimal(cfg, oracle, e0)
  {
    var passChanged, batches, verdicts;
    e', c', w', passChanged, batches, verdicts := StridePass(cfg, oracle, stride, e, c, w);
    changed' := changed || passChanged;
    strides' := strides + [stride];
    assert forall s :: s in strides' <==> s in strides || s == stride;
    RoundStep(cfg, oracle, e0, w0, strides, stride, e, w, e', w');
  }

  /** A round that ran the passes of the whole schedule of `e0` kept
      something exactly when `e0` is not stable. */
  lemma RoundStable(
    cfg: Config, oracle: seq<string> -> int, e0: seq<bool>, strides: seq<int>, changed: bool)
    requires cfg.Valid() && |e0| == |cfg.lines| && strides == Schedule(Start(cfg, e0))
    requires !changed ==> forall s :: s in strides ==> s >= 1 && PassRejects(cfg, oracle, e0, s)
    requires changed ==> exists s :: s in strides && s >= 1 && !PassRejects(cfg, oracle, e0, s)
    ensures changed <==> !Stable(cfg, oracle, e0)
  {
  }

  /** One round of the outer loop: a stride pass for every stride of the
      schedule, starting from the number of enabled window lines, or from 1
      in linear mode. A round keeps something exactly when its starting
      selection is not stable. The result and the output file's new
      contents are those of `RoundResult` and `RoundWrites` over the
      schedule, so every stride's pass ran, each from where the previous one
      left off. A round that keeps nothing leaves the
      selection as it was and proves it 1-minimal; a round that keeps
      something lowers the enabled count. */
  method Round(
    cfg: Config, oracle: seq<string> -> int,
    e0: seq<bool>, c0: Counters, w0: seq<seq<string>>)
    returns (e: seq<bool>, c: Counters, w: seq<seq<string>>, changed: bool, strides: seq<int>)
    requires cfg.Valid()
    requires Consistent(cfg, e0, c0) && Persisted(cfg, oracle, w0, e0)
    ensures Consistent(cfg, e, c) && Persisted(cfg, oracle, w, e)
    ensures forall i :: 0 <= i < |e| && e[i] ==> e0[i]
    ensures strides == Schedule(if cfg.linear then 1 else c0.numLeft)
    ensures changed ==> c.numEnabled < c0.numEnabled
    ensures !changed ==> e == e0 && c == c0 && w == w0 && OneMinimal(cfg, oracle, e0)
    ensures changed <==> !Stable(cfg, oracle, e0)
    ensures e == RoundResult(cfg, oracle, e0, strides) && w == RoundWrites(cfg, oracle, e0, w0, strides)
  {
    e, c, w, changed, strides := RoundPasses(cfg, oracle, e0, c0, w0);
    if !changed && |strides| == 0 {
      // Only a hierarchical round over an empty window runs no pass at all.
      CountZero(e0, cfg.first, cfg.last);
    }
    RoundStable(cfg, oracle, e0, strides, changed);
  }

  /** Running the pass of `stride` moves it from the schedule still to run
      to the strides already run. */
  lemma ScheduleNext(strides: seq<int>, stride: int, start: int)
    requires stride >= 1 && strides + Schedule(stride) == Schedule(start)
    ensures stride == 1 ==> strides + [stride] == Schedule(start)
    ensures stride > 1 ==> strides + [stride] + Schedule(stride / 2) == Schedule(start)
  {
    assert Schedule(stride) == if stride == 1 then [1] else [stride] + Schedule(stride / 2);
    assert strides + [stride] + Schedule(stride / 2) == strides + ([stride] + Schedule(stride / 2));
  }

  /** The loop of a round: the passes of the schedule in turn, the last of
      stride 1, each from where the previous one left off. */
  method RoundPasses(
    cfg: Config, oracle: seq<string> -> int,
    e0: seq<bool>, c0: Counters, w0: seq<seq<string>>)
    returns (e: seq<bool>, c: Counters, w: seq<seq<string>>, changed: bool, strides: seq<int>)
    requires cfg.Valid()
    requires Consistent(cfg, e0, c0) && Persisted(cfg, oracle, w0, e0)
    ensures RoundSoFar(cfg, oracle, e0, c0, w0, strides, e, c, w, changed)
    ensures e == RoundResult(cfg, oracle, e0, strides) && w == RoundWrites(cfg, oracle, e0, w0, strides)
    ensures strides == Schedule(Start(cfg, e0)) == Schedule(if cfg.linear then 1 else c0.numLeft)
    ensures |strides| == 0 ==> Start(cfg, e0) < 1
    ensures |strides| > 0 && !changed ==> OneMinimal(cfg, oracle, e0)
  {
    e, c, w, changed := e0, c0, w0, false;
    var stride := if cfg.linear then 1 else c.numLeft;
    ghost var start := stride;
    assert start == Start(cfg, e0);
    strides := [];
    while stride >= 1
      invariant RoundSoFar(cfg, oracle, e0, c0, w0, strides, e, c, w, changed)
      invariant e == RoundResult(cfg, oracle, e0, strides) && w == RoundWrites(cfg, oracle, e0, w0, strides)
      invariant strides + Schedule(stride) == Schedule(start)
      invariant stride < 1 ==> start < 1
      decreases stride
    {
      ghost var before := strides;
      e, c, w, changed, strides := RoundPass(cfg, oracle, stride, e0, c0, w0, strides, e, c, w, changed);
      ScheduleNext(before, stride, start);
      if stride == 1 {
        break;
      }
      stride := stride / 2;
    }
  }

  /** The selection after `k` rounds from the whole file, each round
      running the full stride schedule of the selection it starts from. */
  function Rounds(cfg: Config, oracle: seq<string> -> int, k: nat): (r: seq<bool>)
    requires cfg.Valid()
    ensures |r| == |cfg.lines|
    decreases k
  {
    if k == 0 then AllTrue(|cfg.lines|)
    else
      var prev := Rounds(cfg, oracle, k - 1);
      RoundResult(cfg, oracle, prev, Schedule(Start(cfg, prev)))
  }

  /** The output file's contents after those `k` rounds, starting empty. */
  function RoundsWrites(cfg: Config, oracle: seq<string> -> int, k: nat): seq<seq<string>>
    requires cfg.Valid()
    decreases k
  {
    if k == 0 then []
    else
      var prev := Rounds(cfg, oracle, k - 1);
      RoundWrites(cfg, oracle, prev, RoundsWrites(cfg, oracle, k - 1), Schedule(Start(cfg, prev)))
  }

  /** `e` and `w` are the selection and the output file's contents after
      `rounds` rounds, every round but the last changed the selection and
      the last left it as it was: the fixed point of linedd's outer loop. */
  ghost predicate Reached(cfg: Config, oracle: seq<string> -> int, rounds: nat, e: seq<bool>, w: seq<seq<string>>)
    requires cfg.Valid()
  {
    && rounds >= 1
    && e == Rounds(cfg, oracle, rounds) && w == RoundsWrites(cfg, oracle, rounds)
    && Rounds(cfg, oracle, rounds - 1) == e
    && (forall k :: 0 < k < rounds ==> Rounds(cfg, oracle, k) != Rounds(cfg, oracle, k - 1))
  }

  /** A round that starts after `k` rounds and runs its full schedule is
      round `k + 1`; it changed something exactly when it moved the
      selection. */
  lemma RoundsNext(
    cfg: Config, oracle: seq<string> -> int, k: nat, e0: seq<bool>, c0: Counters, w0: seq<seq<string>>,
    strides: seq<int>, e: seq<bool>, w: seq<seq<string>>, changed: bool)
    requires cfg.Valid() && Consistent(cfg, e0, c0)
    requires e0 == Rounds(cfg, oracle, k) && w0 == RoundsWrites(cfg, oracle, k)
    requires strides == Schedule(if cfg.linear then 1 else c0.numLeft)
    requires e == RoundResult(cfg, oracle, e0, strides) && w == RoundWrites(cfg, oracle, e0, w0, strides)
    requires changed ==> Count(e) < Count(e0)
    requires !changed ==> e == e0
    ensures e == Rounds(cfg, oracle, k + 1) && w == RoundsWrites(cfg, oracle, k + 1)
    ensures changed <==> Rounds(cfg, oracle, k + 1) != Rounds(cfg, oracle, k)
  {
  }

  /** The outer fixed-point loop: rounds repeat while the previous round
      kept something. It ends, because every such round lowers the enabled
      count, and the last round kept nothing, so the final selection is
      stable and 1-minimal; the window's outside is untouched and the output
      file holds the final selection whenever it was written at all. A file
      that is stable as it stands is left whole after one round, with
      nothing written. The selection and the file's contents are those
      after `rounds` rounds as `Rounds` and `RoundsWrites` compute them:
      every round but the last changed the selection and the last left it
      as it was. */
  method Reduce(cfg: Config, oracle: seq<string> -> int)
    returns (e: seq<bool>, c: Counters, w: seq<seq<string>>, rounds: nat)
    requires cfg.Valid()
    ensures Consistent(cfg, e, c) && Persisted(cfg, oracle, w, e)
    ensures OneMinimal(cfg, oracle, e)
    ensures Stable(cfg, oracle, e)
    ensures Stable(cfg, oracle, AllTrue(|cfg.lines|)) ==>
              e == AllTrue(|cfg.lines|) && w == [] && rounds == 1
    ensures rounds >= 1
    ensures Reached(cfg, oracle, rounds, e, w)
  {
    var n := |cfg.lines|;
    e := AllTrue(n);
    CountAllTrue(n, 0, n);
    CountAllTrue(n, cfg.first, cfg.last);
    c := Counters(n, cfg.last - cfg.first, 0);
    w := [];
    rounds := 0;
    var changed := true;
    while changed
      invariant Consistent(cfg, e, c) && Persisted(cfg, oracle, w, e)
      invariant !changed ==> OneMinimal(cfg, oracle, e) && Stable(cfg, oracle, e) && rounds >= 1
      invariant rounds == 0 ==> changed && e == AllTrue(n) && w == []
      invariant Stable(cfg, oracle, AllTrue(n)) && rounds >= 1 ==>
                  !changed && e == AllTrue(n) && w == [] && rounds == 1
      invariant e == Rounds(cfg, oracle, rounds) && w == RoundsWrites(cfg, oracle, rounds)
      invariant rounds > 0 ==> (changed <==> Rounds(cfg, oracle, rounds) != Rounds(cfg, oracle, rounds - 1))
      invariant forall k :: 0 < k < rounds ==> Rounds(cfg, oracle, k) != Rounds(cfg, oracle, k - 1)
      decreases c.numEnabled + (if changed then 1 else 0)
    {
      var strides;
      ghost var e0, c0, w0 := e, c, w;
      e, c, w, changed, strides := Round(cfg, oracle, e, c, w);
      RoundsNext(cfg, oracle, rounds, e0, c0, w0, strides, e, w, changed);
      rounds := rounds + 1;
    }
  }
}
