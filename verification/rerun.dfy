/**
 linedd run a second time on its own output. When the window runs to the end
 of the file and the second run keeps the first line, the expected verdict,
 the direction and the mode, its window holds exactly the window lines the
 first run kept. Its passes cut the same chunks of them in the same order, so
 every candidate it writes has the same content as one that the first run's
 last round rejected, and it removes nothing.
 */
module Rerun {
  import opened Materializer
  import opened Engine

  /** The settings of a run on the output of a run with settings `cfg` that
      ended at the selection `e`: the same first line, expected verdict,
      direction and mode, and the window up to the end of the new file. */
  function RerunConfig(cfg: Config, e: seq<bool>): Config
    requires |e| == |cfg.lines|
  {
    var out := WriteTo(cfg.lines, e);
    Config(out, cfg.first, |out|, cfg.expected, cfg.backward, cfg.linear)
  }

  /** The number of lines of `e` the first `k` steps of a pass meet, which
      is the number of steps the second run's pass needs to meet them. */
  function Steps(cfg: Config, e: seq<bool>, k: int): int
    requires cfg.Valid() && |e| == |cfg.lines| && 0 <= k <= cfg.last - cfg.first
  {
    if cfg.backward then CountIn(e, cfg.last - k, cfg.last) else CountIn(e, cfg.first, cfg.first + k)
  }

  /** One more step of the first run's pass adds one step to the second
      run's exactly when the line it meets is kept, and that line sits in
      the output at the position the second run's new step meets. */
  lemma StepRank(cfg: Config, cfg2: Config, e: seq<bool>, m: int)
    requires cfg.Valid() && cfg.last == |cfg.lines| && |e| == |cfg.lines|
    requires forall i :: 0 <= i < cfg.first ==> e[i]
    requires cfg2.first == cfg.first && cfg2.backward == cfg.backward
    requires cfg2.last == |cfg2.lines| == Count(e)
    requires 0 <= m < cfg.last - cfg.first
    ensures Steps(cfg, e, m + 1) == Steps(cfg, e, m) + (if e[Visit(cfg, m)] then 1 else 0)
    ensures e[Visit(cfg, m)] ==> Rank(e, Visit(cfg, m)) == Visit(cfg2, Steps(cfg, e, m))
  {
    var i := Visit(cfg, m);
    CountSplit(e, 0, cfg.first, cfg.last);
    CountFull(e, 0, cfg.first);
    if cfg.backward {
      CountSplit(e, i, i + 1, cfg.last);
      CountSplit(e, 0, i, cfg.last);
    } else {
      CountSplit(e, 0, cfg.first, i);
    }
  }

  /** The second run's window holds the kept window lines, and `k` steps of
      the first run's pass meet at most all of them. */
  lemma StepsBound(cfg: Config, cfg2: Config, e: seq<bool>, k: int)
    requires cfg.Valid() && cfg.last == |cfg.lines| && |e| == |cfg.lines|
    requires forall i :: 0 <= i < cfg.first ==> e[i]
    requires cfg2.first == cfg.first && cfg2.last == |cfg2.lines| == Count(e)
    requires 0 <= k <= cfg.last - cfg.first
    ensures cfg2.Valid()
    ensures 0 <= Steps(cfg, e, k) <= cfg2.last - cfg2.first
    ensures k == cfg.last - cfg.first ==> Steps(cfg, e, k) == cfg2.last - cfg2.first
  {
    CountSplit(e, 0, cfg.first, cfg.last);
    CountFull(e, 0, cfg.first);
    if cfg.backward {
      CountSplit(e, cfg.first, cfg.last - k, cfg.last);
    } else {
      CountSplit(e, cfg.first, cfg.first + k, cfg.last);
    }
  }

  /** A pass of the second run over its untouched file meets the output
      positions of the lines a pass of the first run over `e` meets, in the
      same order. */
  lemma {:induction false} VisitOrderRank(cfg: Config, cfg2: Config, e: seq<bool>, k: int)
    requires cfg.Valid() && cfg.last == |cfg.lines| && |e| == |cfg.lines|
    requires forall i :: 0 <= i < cfg.first ==> e[i]
    requires cfg2.first == cfg.first && cfg2.backward == cfg.backward
    requires cfg2.last == |cfg2.lines| == Count(e)
    requires 0 <= k <= cfg.last - cfg.first
    ensures cfg2.Valid()
    ensures 0 <= Steps(cfg, e, k) <= cfg2.last - cfg2.first
    ensures MapRank(e, VisitOrder(cfg, e, k)) == VisitOrder(cfg2, AllTrue(Count(e)), Steps(cfg, e, k))
    decreases k
  {
    StepsBound(cfg, cfg2, e, k);
    if k > 0 {
      var m := k - 1;
      VisitOrderRank(cfg, cfg2, e, m);
      StepRank(cfg, cfg2, e, m);
      var i := Visit(cfg, m);
      var c := Steps(cfg, e, m);
      var all := AllTrue(Count(e));
      var tail := if e[i] then [i] else [];
      assert VisitOrder(cfg, e, k) == VisitOrder(cfg, e, m) + tail;
      MapRankAppend(e, VisitOrder(cfg, e, m), tail);
      if e[i] {
        assert VisitOrder(cfg2, all, c + 1) == VisitOrder(cfg2, all, c) + [Visit(cfg2, c)];
      }
    }
  }

  /** Cutting the output positions of a sequence of lines into chunks gives
      the output positions of its chunks. */
  lemma {:induction false} ChunksMap(e: seq<bool>, s: seq<int>, k: int)
    requires k >= 1
    ensures |Chunks(MapRank(e, s), k)| == |Chunks(s, k)|
    ensures forall j :: 0 <= j < |Chunks(s, k)| ==> Chunks(MapRank(e, s), k)[j] == MapRank(e, Chunks(s, k)[j])
    decreases |s|
  {
    if |s| > k {
      assert MapRank(e, s)[..k] == MapRank(e, s[..k]);
      assert MapRank(e, s)[k..] == MapRank(e, s[k..]);
      ChunksMap(e, s[k..], k);
    }
  }

  /** Disabling the output positions of kept lines in the untouched output
      writes the same content as disabling those lines in the original. */
  lemma RerunCandidate(lines: seq<string>, e: seq<bool>, b: seq<int>)
    requires |e| == |lines|
    requires forall t :: 0 <= t < |b| ==> 0 <= b[t] < |e| && e[b[t]]
    ensures WriteTo(WriteTo(lines, e), Disable(AllTrue(Count(e)), MapRank(e, b))) == WriteTo(lines, Disable(e, b))
  {
    ComposeDisable(e, b);
    WriteToCompose(lines, e, Disable(AllTrue(Count(e)), MapRank(e, b)));
  }

  /** Every member of a chunk of a pass is a kept line of `e`. */
  lemma ChunkKept(cfg: Config, e: seq<bool>, stride: int, j: int)
    requires cfg.Valid() && |e| == |cfg.lines| && stride >= 1
    requires 0 <= j < |Chunks(VisitOrder(cfg, e, cfg.last - cfg.first), stride)|
    ensures var b := Chunks(VisitOrder(cfg, e, cfg.last - cfg.first), stride)[j];
      forall t :: 0 <= t < |b| ==> 0 <= b[t] < |e| && e[b[t]]
  {
    var s := VisitOrder(cfg, e, cfg.last - cfg.first);
    var b := Chunks(s, stride)[j];
    VisitOrderFacts(cfg, e, cfg.last - cfg.first);
    forall t | 0 <= t < |b|
      ensures 0 <= b[t] < |e| && e[b[t]]
    {
      ChunkMember(s, stride, j, b[t]);
    }
  }

  /** If every chunk of a stride is rejected against `e`, every chunk of the
      same stride is rejected in the second run's untouched file. */
  lemma RerunPassRejects(cfg: Config, oracle: seq<string> -> int, e: seq<bool>, stride: int)
    requires cfg.Valid() && cfg.last == |cfg.lines| && |e| == |cfg.lines| && stride >= 1
    requires forall i :: 0 <= i < cfg.first ==> e[i]
    requires PassRejects(cfg, oracle, e, stride)
    ensures RerunConfig(cfg, e).Valid()
    ensures PassRejects(RerunConfig(cfg, e), oracle, AllTrue(Count(e)), stride)
  {
    var cfg2 := RerunConfig(cfg, e);
    var all := AllTrue(Count(e));
    var n := cfg.last - cfg.first;
    var s := VisitOrder(cfg, e, n);
    VisitOrderRank(cfg, cfg2, e, n);
    StepsBound(cfg, cfg2, e, n);
    ChunksMap(e, s, stride);
    var bs := Chunks(s, stride);
    var bs2 := Chunks(MapRank(e, s), stride);
    assert VisitOrder(cfg2, all, cfg2.last - cfg2.first) == MapRank(e, s);
    forall b2 | b2 in bs2
      ensures oracle(WriteTo(cfg2.lines, Disable(all, b2))) != cfg2.expected
    {
      var j :| 0 <= j < |bs2| && bs2[j] == b2;
      var b := bs[j];
      ChunkKept(cfg, e, stride, j);
      RerunCandidate(cfg.lines, e, b);
      assert b in bs;
    }
  }

  /** A run that ends stable leaves a file on which a second run with the
      same settings starts stable. */
  lemma RerunStable(cfg: Config, oracle: seq<string> -> int, e: seq<bool>)
    requires cfg.Valid() && cfg.last == |cfg.lines| && |e| == |cfg.lines|
    requires forall i :: 0 <= i < cfg.first ==> e[i]
    requires Stable(cfg, oracle, e)
    ensures RerunConfig(cfg, e).Valid()
    ensures Stable(RerunConfig(cfg, e), oracle, AllTrue(Count(e)))
  {
    var cfg2 := RerunConfig(cfg, e);
    var all := AllTrue(Count(e));
    CountSplit(e, 0, cfg.first, cfg.last);
    CountFull(e, 0, cfg.first);
    CountAllTrue(Count(e), cfg.first, Count(e));
    assert Start(cfg2, all) == Start(cfg, e);
    forall s | s in Schedule(Start(cfg2, all)) && s >= 1
      ensures PassRejects(cfg2, oracle, all, s)
    {
      RerunPassRejects(cfg, oracle, e, s);
    }
  }

  /** linedd run again on its own output, with the window up to the end of
      the file and the same first line, expected verdict, direction and
      mode, keeps every line: it ends after one round that writes nothing,
      and its output is the first run's output. */
  method ReduceTwice(cfg: Config, oracle: seq<string> -> int)
    returns (e: seq<bool>, e2: seq<bool>, w2: seq<seq<string>>, rounds2: nat)
    requires cfg.Valid() && cfg.last == |cfg.lines|
    ensures |e| == |cfg.lines| && OneMinimal(cfg, oracle, e)
    ensures e2 == AllTrue(Count(e)) && w2 == [] && rounds2 == 1
    ensures WriteTo(WriteTo(cfg.lines, e), e2) == WriteTo(cfg.lines, e)
  {
    var c, w, rounds;
    e, c, w, rounds := Reduce(cfg, oracle);
    RerunStable(cfg, oracle, e);
    var c2;
    e2, c2, w2, rounds2 := Reduce(RerunConfig(cfg, e), oracle);
    WriteToAll(WriteTo(cfg.lines, e));
  }
}
