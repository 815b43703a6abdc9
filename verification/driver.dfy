/**
 The run of linedd around the reduction engine: resolving the expected
 verdict (given, or the verdict on the input file), the sanity check on the
 untouched selection, the default end of the window, and the final rewrite of
 the output file once the fixed point is reached.
 */
module Driver {
  import opened Materializer
  import opened Engine

  datatype Option<T> = None | Some(value: T)

  datatype Result<T, E> = Success(value: T) | Failure(error: E)

  /** The one fatal outcome the engine itself can reach: the untouched
      selection does not reproduce the expected verdict. */
  datatype RunError = SanityMismatch(verdict: int, expected: int)

  /** What a finished run leaves behind: the final selection, the final
      content of the output file, every content written to it (one per
      accepted batch, then the final rewrite), the kept and removed line
      counts and the number of rounds. */
  datatype Report = Report(
    enabled: seq<bool>,
    output: seq<string>,
    written: seq<seq<string>>,
    kept: int,
    removed: int,
    rounds: nat)

  /** A negative `last` stands for "up to the end of the file". */
  function ResolveLast(last: int, n: nat): int
  {
    if last < 0 then n else last
  }

  /** The verdict to preserve: the one given, or else the verdict the
      command gave on the input file. */
  function Expected(expectArg: Option<int>, inputVerdict: int): int
  {
    match expectArg
    case Some(v) => v
    case None => inputVerdict
  }

  /** A whole run. `inputVerdict` is the command's verdict on the input file
      itself, only consulted when no verdict is given. The sanity check runs
      only when no verdict is given and fails exactly when the rewritten,
      untouched file gets another verdict; it then writes nothing. Otherwise
      the result keeps every line outside the window and is 1-minimal. Every
      content written for an accepted batch had the expected verdict. The
      final rewrite is the final selection: it repeats the last accepted
      candidate, or is the untouched file when none was accepted, so it has
      the expected verdict whenever the untouched file has it. The final
      selection is the one `Rounds` reaches after the reported number of
      rounds, each but the last of which changed it, and the file received
      exactly what `RoundsWrites` says those rounds write, then the final
      rewrite; a reversed window runs one round that writes nothing. */
  method Run(
    lines: seq<string>, first: int, last: int, expectArg: Option<int>, inputVerdict: int,
    backward: bool, linear: bool, oracle: seq<string> -> int)
    returns (r: Result<Report, RunError>)
    requires 0 <= first && last <= |lines|
    ensures r.Failure? <==> expectArg.None? && oracle(lines) != inputVerdict
    ensures r.Failure? ==> r.error == SanityMismatch(oracle(lines), inputVerdict)
    ensures r.Success? ==>
      var rep := r.value;
      var expected := Expected(expectArg, inputVerdict);
      var cfg := Config(lines, first, ResolveLast(last, |lines|), expected, backward, linear);
      && |rep.enabled| == |lines|
      && rep.output == WriteTo(lines, rep.enabled)
      && (forall i :: 0 <= i < |lines| && !cfg.InWindow(i) ==> rep.enabled[i])
      && |rep.written| >= 1 && rep.written[|rep.written| - 1] == rep.output
      && (forall k :: 0 <= k < |rep.written| - 1 ==> oracle(rep.written[k]) == expected)
      && (|rep.written| >= 2 ==> rep.written[|rep.written| - 2] == rep.output)
      && (|rep.written| == 1 ==> rep.output == lines)
      && OneMinimal(cfg, oracle, rep.enabled)
      && (oracle(lines) == expected ==> oracle(rep.output) == expected)
      && rep.kept == Count(rep.enabled)
      && rep.removed == |lines| - rep.kept
      && rep.rounds >= 1
      && (cfg.first <= cfg.last ==>
            Reached(cfg, oracle, rep.rounds, rep.enabled, rep.written[..|rep.written| - 1]))
      && (cfg.first > cfg.last ==>
            rep.enabled == AllTrue(|lines|) && rep.written == [rep.output] && rep.rounds == 1)
  {
    var n := |lines|;
    var expected := Expected(expectArg, inputVerdict);
    var all := AllTrue(n);
    WriteToAll(lines);
    if expectArg.None? {
      var ret := oracle(WriteTo(lines, all));
      if ret != expected {
        return Failure(SanityMismatch(ret, expected));
      }
    }
    var lastR := ResolveLast(last, n);
    var cfg := Config(lines, first, lastR, expected, backward, linear);
    if first > lastR {
      // An empty window reversed: a single round that tests nothing.
      CountAllTrue(n, 0, n);
      r := Success(Report(all, WriteTo(lines, all), [WriteTo(lines, all)], n, 0, 1));
    } else {
      var e, c, w, rounds := Reduce(cfg, oracle);
      // The final rewrite of the output file.
      var output := WriteTo(lines, e);
      FinalRewrite(cfg, oracle, e, w, rounds);
      r := Success(Report(e, output, w + [output], c.numEnabled, c.nremoved, rounds));
    }
  }

  /** Appending the final rewrite to the contents the rounds wrote: every
      earlier content had the expected verdict, the one before the rewrite
      (if any) is the same selection, a history of the rewrite alone means
      nothing was removed, and the rounds' part is left as it was. */
  lemma FinalRewrite(cfg: Config, oracle: seq<string> -> int, e: seq<bool>, w: seq<seq<string>>, rounds: nat)
    requires cfg.Valid() && |e| == |cfg.lines|
    requires Persisted(cfg, oracle, w, e) && Reached(cfg, oracle, rounds, e, w)
    ensures var h := w + [WriteTo(cfg.lines, e)];
      && h[|h| - 1] == WriteTo(cfg.lines, e)
      && (forall k :: 0 <= k < |h| - 1 ==> oracle(h[k]) == cfg.expected)
      && (|h| >= 2 ==> h[|h| - 2] == WriteTo(cfg.lines, e))
      && (|h| == 1 ==> e == AllTrue(|e|))
      && Reached(cfg, oracle, rounds, e, h[..|h| - 1])
  {
    assert (w + [WriteTo(cfg.lines, e)])[..|w|] == w;
  }

  /** When exactly one window line decides the verdict (the verdict is the
      expected one precisely when line `k` is kept), a 1-minimal selection
      that still has the expected verdict keeps line `k` and no other window
      line, whatever the traversal direction or stride schedule. */
  lemma SoleNeededLine(cfg: Config, oracle: seq<string> -> int, e: seq<bool>, k: int)
    requires cfg.Valid() && |e| == |cfg.lines| && cfg.first <= k < cfg.last
    requires forall s :: |s| == |cfg.lines| ==> (oracle(WriteTo(cfg.lines, s)) == cfg.expected <==> s[k])
    requires oracle(WriteTo(cfg.lines, e)) == cfg.expected
    requires OneMinimal(cfg, oracle, e)
    ensures forall i :: cfg.first <= i < cfg.last ==> (e[i] <==> i == k)
  {
    assert e[k];
    forall i | cfg.first <= i < cfg.last && i != k
      ensures !e[i]
    {
      var s := e[i := false];
      assert s[k];
      assert oracle(WriteTo(cfg.lines, s)) == cfg.expected;
    }
  }

  /** When the verdict never depends on the content, a 1-minimal selection
      has no window line left. */
  lemma NothingNeeded(cfg: Config, oracle: seq<string> -> int, e: seq<bool>)
    requires cfg.Valid() && |e| == |cfg.lines|
    requires forall s :: |s| == |cfg.lines| ==> oracle(WriteTo(cfg.lines, s)) == cfg.expected
    requires OneMinimal(cfg, oracle, e)
    ensures forall i :: cfg.first <= i < cfg.last ==> !e[i]
  {
    forall i | cfg.first <= i < cfg.last
      ensures !e[i]
    {
      assert oracle(WriteTo(cfg.lines, e[i := false])) == cfg.expected;
    }
  }
}
