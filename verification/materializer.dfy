/**
 The file materializer of linedd: a selection of the original lines is a
 boolean per line ("enabled"), and materializing it writes exactly the
 enabled lines, in their original order, with nothing added.

 This module also holds the counting of enabled lines that the engine's
 counters track, and `Disable`, the tentative removal of a batch of lines.
 */
module Materializer {

  /** The selection before any line has been removed: every line enabled. */
  function AllTrue(n: nat): (r: seq<bool>)
    ensures |r| == n
    ensures forall i :: 0 <= i < n ==> r[i]
  {
    seq(n, _ => true)
  }

  /** Number of enabled positions among the indices `lo .. hi-1`. */
  function CountIn(e: seq<bool>, lo: int, hi: int): nat
    requires 0 <= lo <= hi <= |e|
    decreases hi - lo
  {
    if lo == hi then 0 else CountIn(e, lo, hi - 1) + (if e[hi - 1] then 1 else 0)
  }

  /** Number of enabled lines in the whole selection. */
  function Count(e: seq<bool>): nat
  {
    CountIn(e, 0, |e|)
  }

  /** The selection `e` with every index of `batch` switched off. */
  function Disable(e: seq<bool>, batch: seq<int>): (r: seq<bool>)
    ensures |r| == |e|
  {
    seq(|e|, i requires 0 <= i < |e| => e[i] && i !in batch)
  }

  /** The lines emitted by the first `n` iterations of the write loop. */
  function Emit(lines: seq<string>, e: seq<bool>, n: nat): (out: seq<string>)
    requires |e| == |lines| && n <= |lines|
    ensures |out| == CountIn(e, 0, n)
  {
    if n == 0 then []
    else Emit(lines, e, n - 1) + (if e[n - 1] then [lines[n - 1]] else [])
  }

  /** The content `writeTo` puts into a file: the enabled lines in order. */
  function WriteTo(lines: seq<string>, e: seq<bool>): (out: seq<string>)
    requires |e| == |lines|
    ensures |out| == Count(e)
  {
    Emit(lines, e, |lines|)
  }

  /** The enabled indices below `n`, in increasing order. */
  function EnabledIndices(e: seq<bool>, n: nat): (r: seq<int>)
    requires n <= |e|
    ensures |r| == CountIn(e, 0, n)
    ensures forall j :: 0 <= j < |r| ==> 0 <= r[j] < n && e[r[j]]
    ensures forall j1, j2 :: 0 <= j1 < j2 < |r| ==> r[j1] < r[j2]
    ensures forall i :: 0 <= i < n && e[i] ==> i in r
  {
    if n == 0 then []
    else EnabledIndices(e, n - 1) + (if e[n - 1] then [n - 1] else [])
  }

  /** The output of the first `n` write iterations is `lines` read at the
      enabled indices below `n`. */
  lemma {:induction false} EmitSelects(lines: seq<string>, e: seq<bool>, n: nat)
    requires |e| == |lines| && n <= |lines|
    ensures |Emit(lines, e, n)| == |EnabledIndices(e, n)|
    ensures forall j :: 0 <= j < |Emit(lines, e, n)| ==>
              Emit(lines, e, n)[j] == lines[EnabledIndices(e, n)[j]]
  {
    if n > 0 {
      EmitSelects(lines, e, n - 1);
    }
  }

  /** The materialized file is exactly the subsequence of `lines` at the
      enabled indices: one entry per enabled index, in increasing index
      order, and every enabled index contributes its line. */
  lemma WriteToSelects(lines: seq<string>, e: seq<bool>)
    requires |e| == |lines|
    ensures var idx := EnabledIndices(e, |e|);
            && |WriteTo(lines, e)| == |idx|
            && (forall j :: 0 <= j < |idx| ==> WriteTo(lines, e)[j] == lines[idx[j]])
            && (forall j1, j2 :: 0 <= j1 < j2 < |idx| ==> idx[j1] < idx[j2])
            && (forall i :: 0 <= i < |e| ==> (e[i] <==> i in idx))
  {
    EmitSelects(lines, e, |lines|);
  }

  /** With every line enabled, the emitted prefix is the original prefix. */
  lemma {:induction false} EmitAll(lines: seq<string>, n: nat)
    requires n <= |lines|
    ensures Emit(lines, AllTrue(|lines|), n) == lines[..n]
  {
    if n > 0 {
      EmitAll(lines, n - 1);
      assert lines[..n] == lines[..n - 1] + [lines[n - 1]];
    }
  }

  /** Materializing the untouched selection reproduces the original lines. */
  lemma WriteToAll(lines: seq<string>)
    ensures WriteTo(lines, AllTrue(|lines|)) == lines
  {
    EmitAll(lines, |lines|);
  }

  /** An all-true range has as many enabled positions as it is long. */
  lemma {:induction false} CountAllTrue(n: nat, lo: int, hi: int)
    requires 0 <= lo <= hi <= n
    ensures CountIn(AllTrue(n), lo, hi) == hi - lo
    decreases hi - lo
  {
    if lo < hi {
      CountAllTrue(n, lo, hi - 1);
    }
  }

  /** A range with no enabled position has every position disabled. */
  lemma {:induction false} CountZero(e: seq<bool>, lo: int, hi: int)
    requires 0 <= lo <= hi <= |e|
    requires CountIn(e, lo, hi) == 0
    ensures forall i :: lo <= i < hi ==> !e[i]
    decreases hi - lo
  {
    if lo < hi {
      CountZero(e, lo, hi - 1);
    }
  }

  /** Switching one enabled position off lowers the count of every range
      holding it by one and leaves the other ranges' counts alone. */
  lemma {:induction false} CountClear(e: seq<bool>, x: int, lo: int, hi: int)
    requires 0 <= lo <= hi <= |e| && 0 <= x < |e| && e[x]
    ensures CountIn(e[x := false], lo, hi) == CountIn(e, lo, hi) - (if lo <= x < hi then 1 else 0)
    decreases hi - lo
  {
    if lo < hi {
      CountClear(e, x, lo, hi - 1);
    }
  }

  /** No index occurs twice in `s`. */
  predicate Distinct(s: seq<int>)
  {
    forall a, b :: 0 <= a < b < |s| ==> s[a] != s[b]
  }

  /** Disabling a batch of distinct enabled positions inside a range lowers
      that range's count by exactly the batch size. */
  lemma {:induction false} CountDisable(e: seq<bool>, batch: seq<int>, lo: int, hi: int)
    requires 0 <= lo <= hi <= |e|
    requires Distinct(batch)
    requires forall j :: 0 <= j < |batch| ==> lo <= batch[j] < hi && e[batch[j]]
    ensures CountIn(Disable(e, batch), lo, hi) == CountIn(e, lo, hi) - |batch|
    decreases |batch|
  {
    if batch == [] {
      assert Disable(e, batch) == e;
    } else {
      var x := batch[|batch| - 1];
      var rest := batch[..|batch| - 1];
      assert batch == rest + [x];
      CountDisable(e, rest, lo, hi);
      assert Disable(e, batch) == Disable(e, rest)[x := false];
      CountClear(Disable(e, rest), x, lo, hi);
    }
  }

  /** A range's count is the sum of the counts of its two halves. */
  lemma {:induction false} CountSplit(e: seq<bool>, lo: int, mid: int, hi: int)
    requires 0 <= lo <= mid <= hi <= |e|
    ensures CountIn(e, lo, hi) == CountIn(e, lo, mid) + CountIn(e, mid, hi)
    decreases hi - mid
  {
    if mid < hi {
      CountSplit(e, lo, mid, hi - 1);
    }
  }

  /** A range whose every position is enabled counts its full length. */
  lemma {:induction false} CountFull(e: seq<bool>, lo: int, hi: int)
    requires 0 <= lo <= hi <= |e|
    requires forall i :: lo <= i < hi ==> e[i]
    ensures CountIn(e, lo, hi) == hi - lo
    decreases hi - lo
  {
    if lo < hi {
      CountFull(e, lo, hi - 1);
    }
  }

  /** The position line `i` takes in the file written from `e`: the number
      of enabled lines before it. */
  function Rank(e: seq<bool>, i: int): nat
  {
    if 0 <= i <= |e| then CountIn(e, 0, i) else 0
  }

  /** The positions the lines `s` take in the file written from `e`. */
  function MapRank(e: seq<bool>, s: seq<int>): (r: seq<int>)
    ensures |r| == |s|
  {
    seq(|s|, j requires 0 <= j < |s| => Rank(e, s[j]))
  }

  lemma MapRankAppend(e: seq<bool>, a: seq<int>, b: seq<int>)
    ensures MapRank(e, a + b) == MapRank(e, a) + MapRank(e, b)
  {
  }

  /** An enabled line comes strictly before every later position in the
      written file, so distinct enabled lines take distinct positions. */
  lemma RankStrict(e: seq<bool>, x: int, y: int)
    requires 0 <= x < y <= |e| && e[x]
    ensures Rank(e, x) < Rank(e, y)
  {
    CountSplit(e, 0, x, y);
    CountSplit(e, x, x + 1, y);
  }

  /** The first `m` write iterations emit a prefix of what the first `hi`
      emit. */
  lemma {:induction false} EmitPrefix(lines: seq<string>, e: seq<bool>, m: nat, hi: nat)
    requires |e| == |lines| && m <= hi <= |lines|
    ensures |Emit(lines, e, m)| <= |Emit(lines, e, hi)|
    ensures Emit(lines, e, hi)[..|Emit(lines, e, m)|] == Emit(lines, e, m)
    decreases hi - m
  {
    if m < hi {
      EmitPrefix(lines, e, m, hi - 1);
    } else {
      assert Emit(lines, e, hi)[..|Emit(lines, e, hi)|] == Emit(lines, e, hi);
    }
  }

  /** An enabled line sits at its rank in the written file. */
  lemma WriteToAt(lines: seq<string>, e: seq<bool>, i: int)
    requires |e| == |lines| && 0 <= i < |e| && e[i]
    ensures Rank(e, i) < |WriteTo(lines, e)| && WriteTo(lines, e)[Rank(e, i)] == lines[i]
  {
    EmitPrefix(lines, e, i + 1, |lines|);
  }

  /** The selection of the original lines that amounts to selecting `f` from
      the file written from `e`. */
  function Compose(e: seq<bool>, f: seq<bool>): (r: seq<bool>)
    ensures |r| == |e|
  {
    seq(|e|, i requires 0 <= i < |e| => e[i] && Rank(e, i) < |f| && f[Rank(e, i)])
  }

  lemma {:induction false} EmitCompose(lines: seq<string>, e: seq<bool>, f: seq<bool>, n: nat)
    requires |e| == |lines| && n <= |lines| && |f| == Count(e)
    ensures Rank(e, n) <= |f|
    ensures Emit(WriteTo(lines, e), f, Rank(e, n)) == Emit(lines, Compose(e, f), n)
  {
    CountSplit(e, 0, n, |e|);
    if n > 0 {
      EmitCompose(lines, e, f, n - 1);
      if e[n - 1] {
        WriteToAt(lines, e, n - 1);
      }
    }
  }

  /** Writing the selection `f` of a written file gives the same content as
      writing the composed selection of the original lines. */
  lemma WriteToCompose(lines: seq<string>, e: seq<bool>, f: seq<bool>)
    requires |e| == |lines| && |f| == Count(e)
    ensures WriteTo(WriteTo(lines, e), f) == WriteTo(lines, Compose(e, f))
  {
    EmitCompose(lines, e, f, |lines|);
  }

  /** Disabling, in the file written from `e`, the positions of some enabled
      lines is the same as disabling those lines in `e`. */
  lemma ComposeDisable(e: seq<bool>, b: seq<int>)
    requires forall j :: 0 <= j < |b| ==> 0 <= b[j] < |e| && e[b[j]]
    ensures Compose(e, Disable(AllTrue(Count(e)), MapRank(e, b))) == Disable(e, b)
  {
    var f := Disable(AllTrue(Count(e)), MapRank(e, b));
    forall i | 0 <= i < |e|
      ensures Compose(e, f)[i] == Disable(e, b)[i]
    {
      if e[i] {
        RankStrict(e, i, |e|);
        if i in b {
          var j :| 0 <= j < |b| && b[j] == i;
          assert MapRank(e, b)[j] == Rank(e, i);
        } else {
          forall j | 0 <= j < |b|
            ensures MapRank(e, b)[j] != Rank(e, i)
          {
            if b[j] < i {
              RankStrict(e, b[j], i);
            } else {
              RankStrict(e, i, b[j]);
            }
          }
        }
      }
    }
  }
}
