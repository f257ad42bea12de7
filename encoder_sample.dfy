/**
 * The end-to-end vector of the source's tests (src/lib.rs:197-204), traced
 * through the pipeline one input byte at a time: for each byte, what the
 * finder reports on the extended buffers, then the state after the byte.
 */
module EncoderSample {
  import opened Types
  import opened BitWidthEncoder
  import opened TokenEncoder
  import opened MatchFinder
  import opened Encoder

  /** The input of the source's end-to-end test. */
  const Sample: seq<byte> := [10, 20, 30, 40, 50, 10, 20, 30, 40, 60]

  /** Byte 5 (10): the first byte of the buffer matches it, a one-byte run. */
  lemma SampleFind6()
    ensures Find([10, 20, 30, 40, 50, 10], [10], 5, 0) == Some(Match(1, 5, 1))
  {
    var sb: seq<byte> := [10, 20, 30, 40, 50, 10];
    var pending: seq<byte> := [10];
    assert sb[0..1] == pending[..1];
    FindFirstFit(sb, pending, 5, 0, 0, 1);
  }

  /** Byte 6 (20): the run `10 20` at the start of the buffer covers all pending bytes. */
  lemma SampleFind7()
    ensures Find([10, 20, 30, 40, 50, 10, 20], [10, 20], 6, 0) == Some(Match(2, 6, 2))
  {
    var sb: seq<byte> := [10, 20, 30, 40, 50, 10, 20];
    var pending: seq<byte> := [10, 20];
    assert sb[0..2] == pending[..2];
    FindFirstFit(sb, pending, 6, 0, 0, 2);
  }

  /**
   * Byte 7 (30): from the cursor 2 the slice is `30 40 50 10 20 30`; the run
   * `10 20 30` ends the slice, so the stop index is its last position, 5.
   */
  lemma SampleFind8()
    ensures Find([10, 20, 30, 40, 50, 10, 20, 30], [10, 20, 30], 7, 2) == Some(Match(3, 5, 5))
  {
    var sb: seq<byte> := [10, 20, 30, 40, 50, 10, 20, 30];
    var pending: seq<byte> := [10, 20, 30];
    var s := sb[2..];
    assert s == [30, 40, 50, 10, 20, 30];
    assert s[3..6] == pending[..3];
    FindFirstFit(sb, pending, 7, 2, 3, 3);
  }

  /**
   * Byte 8 (40): from the cursor 5 the slice is `10 20 30 40`; all four
   * pending bytes match, at distance 8 + 4 - 3 = 9.
   */
  lemma SampleFind9()
    ensures Find([10, 20, 30, 40, 50, 10, 20, 30, 40], [10, 20, 30, 40], 8, 5) == Some(Match(4, 9, 3))
  {
    var sb: seq<byte> := [10, 20, 30, 40, 50, 10, 20, 30, 40];
    var pending: seq<byte> := [10, 20, 30, 40];
    var s := sb[5..];
    assert s == pending;
    assert s[0..4] == pending[..4];
    FindFirstFit(sb, pending, 8, 5, 0, 4);
  }

  /** Byte 9 (60): from the cursor 3 it only matches itself, at the end of the slice. */
  lemma SampleFind10()
    ensures Find([10, 20, 30, 40, 50, 10, 20, 30, 40, 60], [60], 9, 3) == Some(Match(1, 4, 6))
  {
    var sb: seq<byte> := [10, 20, 30, 40, 50, 10, 20, 30, 40, 60];
    var pending: seq<byte> := [60];
    var s := sb[3..];
    assert s == [40, 50, 10, 20, 30, 40, 60];
    assert s[6..7] == pending[..1];
    FindFirstFit(sb, pending, 9, 3, 6, 1);
  }

  /** The token written for the repeat: `4:9`. */
  lemma SampleToken()
    ensures Token(4, 9) == [4, 58, 9]
  {
    assert ShortBe(4) == [4] && ShortBe(9) == [9];
    assert Token(4, 9) == [4] + [Separator] + [9];
  }

  /** The state after the seed, and after each further byte of `Sample`. */
  const After5: State := State([10, 20, 30, 40, 50], [], [10, 20, 30, 40, 50], 0, false)
  const After6: State := State([10, 20, 30, 40, 50, 10], [10], [10, 20, 30, 40, 50], 0, true)
  const After7: State := State([10, 20, 30, 40, 50, 10, 20], [10, 20], [10, 20, 30, 40, 50], 2, true)
  const After8: State := State([10, 20, 30, 40, 50, 10, 20, 30], [10, 20, 30], [10, 20, 30, 40, 50], 5, true)
  const After9: State := State([10, 20, 30, 40, 50, 10, 20, 30, 40], [], [10, 20, 30, 40, 50, 4, 58, 9], 3, true)
  const After10: State := State([10, 20, 30, 40, 50, 10, 20, 30, 40, 60], [60], [10, 20, 30, 40, 50, 4, 58, 9], 6, true)

  /** Consuming byte `b` at position `n` moves from `before` to `after`. */
  predicate StepsTo(before: State, n: nat, b: byte, after: State)
  {
    |before.searchBuf| == n && before.searchCursor <= n && Step(before, n, b) == after
  }

  /** Byte 5 (10) matches one byte: nothing written, the match flag set. */
  lemma SampleStep6()
    ensures StepsTo(After5, 5, 10, After6)
  {
    assert After5.searchBuf + [10] == [10, 20, 30, 40, 50, 10];
    assert After5.currentBuf + [10] == [10];
    SampleFind6();
  }

  /** Byte 6 (20) extends the run: the cursor moves to the stop index 2. */
  lemma SampleStep7()
    ensures StepsTo(After6, 6, 20, After7)
  {
    assert After6.searchBuf + [20] == [10, 20, 30, 40, 50, 10, 20];
    assert After6.currentBuf + [20] == [10, 20];
    SampleFind7();
  }

  /** Byte 7 (30) extends the run: the cursor moves to the stop index 5. */
  lemma SampleStep8()
    ensures StepsTo(After7, 7, 30, After8)
  {
    assert After7.searchBuf + [30] == [10, 20, 30, 40, 50, 10, 20, 30];
    assert After7.currentBuf + [30] == [10, 20, 30];
    SampleFind8();
  }

  /** Byte 8 (40) completes a four-byte run: the token `4:9` is written. */
  lemma SampleStep9()
    ensures StepsTo(After8, 8, 40, After9)
  {
    assert After8.searchBuf + [40] == [10, 20, 30, 40, 50, 10, 20, 30, 40];
    assert After8.currentBuf + [40] == [10, 20, 30, 40];
    SampleFind9();
    SampleToken();
  }

  /** Byte 9 (60) only matches itself: nothing written, 60 stays pending. */
  lemma SampleStep10()
    ensures StepsTo(After9, 9, 60, After10)
  {
    assert After9.searchBuf + [60] == [10, 20, 30, 40, 50, 10, 20, 30, 40, 60];
    assert After9.currentBuf + [60] == [60];
    SampleFind10();
  }

  /**
   * `trace` lists the state after the seed and after each further byte of
   * `data`, each one `Step` from the one before.
   */
  predicate Traces(data: seq<byte>, trace: seq<State>)
  {
    && 1 <= |trace| && SeedLength + |trace| - 1 <= |data|
    && trace[0] == Seed(data)
    && forall i :: 0 <= i < |trace| - 1 ==> StepsTo(trace[i], SeedLength + i, data[SeedLength + i], trace[i + 1])
  }

  /** A trace ends in the state `Run` reaches after the same bytes. */
  lemma {:induction false} TraceRun(data: seq<byte>, trace: seq<State>)
    requires Traces(data, trace)
    ensures Run(data, SeedLength + |trace| - 1) == trace[|trace| - 1]
    decreases |trace|
  {
    if |trace| > 1 {
      var prefix := trace[..|trace| - 1];
      assert Traces(data, prefix) by {
        forall i | 0 <= i < |prefix| - 1
          ensures StepsTo(prefix[i], SeedLength + i, data[SeedLength + i], prefix[i + 1])
        {
          assert StepsTo(trace[i], SeedLength + i, data[SeedLength + i], trace[i + 1]);
        }
      }
      TraceRun(data, prefix);
      var n := SeedLength + |prefix| - 1;
      assert StepsTo(trace[|prefix| - 1], n, data[n], trace[|prefix|]);
      RunStep(data, n);
    }
  }

  /** The trace of `Sample`. */
  lemma SampleTrace()
    ensures Traces(Sample, [After5, After6, After7, After8, After9, After10])
  {
    var trace := [After5, After6, After7, After8, After9, After10];
    assert Sample[..5] == After5.searchBuf;
    forall i | 0 <= i < |trace| - 1
      ensures StepsTo(trace[i], SeedLength + i, Sample[SeedLength + i], trace[i + 1])
    {
      if i == 0 {
        SampleStep6();
      } else if i == 1 {
        SampleStep7();
      } else if i == 2 {
        SampleStep8();
      } else if i == 3 {
        SampleStep9();
      } else {
        SampleStep10();
      }
    }
  }

  /**
   * The end-to-end vector: the repeat `10 20 30 40` becomes the token `4:9`
   * and the final 60 is never written, so the output is not the
   * `10 20 30 40 50 4 58 4 60` the source's test expects.
   */
  lemma SampleEncoding()
    ensures Encode(Sample) == [10, 20, 30, 40, 50, 4, 58, 9]
    ensures Encode(Sample) != [10, 20, 30, 40, 50, 4, 58, 4, 60]
  {
    SampleTrace();
    TraceRun(Sample, [After5, After6, After7, After8, After9, After10]);
  }
}
