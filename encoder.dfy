/**
 * The encoder pipeline (`find_repeat_elements`, src/lib.rs:109-156).
 *
 * The first five input bytes are copied to the output and to the search
 * buffer. Every further byte is appended to the search buffer and to the
 * pending buffer, and the match finder is run on them from the search
 * cursor. A match longer than 3 bytes at a distance greater than 3 is
 * written as a token and clears the pending buffer; a shorter or closer
 * match writes nothing; no match writes the byte itself and resets the
 * cursor. The cursor is moved to the finder's stop index, which is relative
 * to the slice the finder scanned, only when the previous step also matched.
 */
module Encoder {
  import opened Types
  import opened BitWidthEncoder
  import opened TokenEncoder
  import opened MatchFinder

  /** Bytes copied verbatim before any match is attempted. */
  const SeedLength: nat := 5
  /** A token is written only for a match longer than this... */
  const MinLength: nat := 3
  /** ...and further away than this. */
  const MinDistance: nat := 3
  /** Largest input modelled: keeps every length and distance within `MaxValue`. */
  const MaxInput: nat := 0x8000_0000

  /** The local state of `find_repeat_elements` between two input bytes. */
  datatype State = State(
    searchBuf: seq<byte>,
    currentBuf: seq<byte>,
    out: seq<byte>,
    searchCursor: nat,
    isPrevMatch: bool)

  /** A match that is written as a token. */
  predicate Emits(m: Match)
  {
    m.length > MinLength && m.distance > MinDistance
  }

  /** The state after the seed. */
  function Seed(data: seq<byte>): State
    requires SeedLength <= |data|
  {
    State(data[..SeedLength], [], data[..SeedLength], 0, false)
  }

  /**
   * One iteration of the loop, for the byte `b`, given what the finder
   * reported for the extended buffers.
   */
  function Next(st: State, b: byte, found: Option<Match>): State
  {
    match found
    case Some(m) =>
      State(
        st.searchBuf + [b],
        if Emits(m) then [] else st.currentBuf + [b],
        if Emits(m) then st.out + Token(m.length, m.distance) else st.out,
        if st.isPrevMatch then m.stop else st.searchCursor,
        true)
    case None =>
      State(st.searchBuf + [b], st.currentBuf + [b], st.out + [b], 0, false)
  }

  /** One iteration of the loop, for the byte `b` at input position `offset`. */
  function Step(st: State, offset: nat, b: byte): State
    requires |st.searchBuf| == offset && st.searchCursor <= offset
  {
    Next(st, b, Find(st.searchBuf + [b], st.currentBuf + [b], offset, st.searchCursor))
  }

  /**
   * What holds between iterations once the first `n` input bytes are
   * consumed: the search buffer is exactly those bytes, the cursor lies
   * inside it (and is 0 unless the last step matched), the pending bytes
   * are the latest input bytes, and the output starts with the seed.
   */
  predicate Inv(data: seq<byte>, n: nat, st: State)
    requires SeedLength <= n <= |data|
  {
    && st.searchBuf == data[..n]
    && st.searchCursor < n
    && (!st.isPrevMatch ==> st.searchCursor == 0)
    && |st.currentBuf| <= n - SeedLength
    && st.currentBuf == data[n - |st.currentBuf|..n]
    && SeedLength <= |st.out| && st.out[..SeedLength] == data[..SeedLength]
  }

  /** The state after the first `n` input bytes. */
  function Run(data: seq<byte>, n: nat): (st: State)
    requires SeedLength <= n <= |data|
    ensures Inv(data, n, st)
    decreases n
  {
    if n == SeedLength then Seed(data)
    else
      var prev := Run(data, n - 1);
      StepKeepsInv(data, n, prev);
      Step(prev, n - 1, data[n - 1])
  }

  /** What `find_repeat_elements(data)` returns. */
  function Encode(data: seq<byte>): seq<byte>
    requires SeedLength <= |data|
  {
    Run(data, |data|).out
  }

  /** `find_repeat_elements`: the seed, then one `Advance` per further input byte. */
  method FindRepeatElements(data: seq<byte>) returns (out: seq<byte>)
    requires SeedLength <= |data| <= MaxInput
    ensures out == Encode(data)
    ensures out[..SeedLength] == data[..SeedLength]
  {
    var st := State(data[..SeedLength], [], data[..SeedLength], 0, false);
    for offset := SeedLength to |data|
      invariant st == Run(data, offset)
    {
      st := Advance(data, st, offset);
    }
    out := st.out;
  }

  /**
   * The body of the loop of `find_repeat_elements` for the byte `b` at
   * input position `offset`: push `b` onto both buffers, run the finder from
   * the cursor, then write a token, nothing or the byte.
   */
  method Advance(data: seq<byte>, st: State, offset: nat) returns (next: State)
    requires SeedLength <= offset < |data| <= MaxInput
    requires st == Run(data, offset)
    ensures next == Run(data, offset + 1)
  {
    RunStep(data, offset);
    var b := data[offset];
    var searchBuf := st.searchBuf + [b];
    var currentBuf := st.currentBuf + [b];
    var out := st.out;
    var searchCursor := st.searchCursor;
    var isPrevMatch := st.isPrevMatch;
    var found := FindRepeatElement(searchBuf, currentBuf, offset, searchCursor);
    FindBounds(searchBuf, currentBuf, offset, searchCursor);
    match found {
      case Some(m) =>
        if Emits(m) {
          var code := ToCode(m.length, m.distance);
          out := out + code;
          currentBuf := [];
        }
        if isPrevMatch {
          searchCursor := m.stop;
        }
        isPrevMatch := true;
      case None =>
        searchCursor := 0;
        isPrevMatch := false;
        out := out + [searchBuf[offset]];
    }
    next := State(searchBuf, currentBuf, out, searchCursor, isPrevMatch);
  }

  /** `Run` one byte further is one more `Step`. */
  lemma RunStep(data: seq<byte>, n: nat)
    requires SeedLength <= n < |data|
    ensures Run(data, n + 1) == Step(Run(data, n), n, data[n])
  {
  }

  /** Each iteration keeps `Inv`: consuming input byte `n - 1` moves from `n - 1` bytes to `n`. */
  lemma StepKeepsInv(data: seq<byte>, n: nat, st: State)
    requires SeedLength < n <= |data| && Inv(data, n - 1, st)
    ensures Inv(data, n, Step(st, n - 1, data[n - 1]))
  {
    var searchBuf := st.searchBuf + [data[n - 1]];
    var currentBuf := st.currentBuf + [data[n - 1]];
    FindBounds(searchBuf, currentBuf, n - 1, st.searchCursor);
    assert searchBuf == data[..n];
    assert currentBuf == data[n - |currentBuf|..n];
    var next := Step(st, n - 1, data[n - 1]);
    assert next.out[..SeedLength] == st.out[..SeedLength];
  }

  /**
   * Inside the pipeline the offset check of the finder always passes, so
   * it reports a match exactly when the first pending byte occurs in the
   * searched slice.
   */
  lemma FindInPipeline(searchBuf: seq<byte>, pending: seq<byte>, offset: nat, cursor: nat)
    requires |searchBuf| == offset + 1 && cursor <= offset && pending != []
    ensures Find(searchBuf, pending, offset, cursor).Some? <==> pending[0] in searchBuf[cursor..]
  {
    var s := searchBuf[cursor..];
    if pending[0] in s {
      FirstIndexOfSpec(s, pending[0]);
      var p := FirstIndexOf(s, pending[0]);
      CommonPrefixSpec(s[p..], pending);
      assert s[p..][0] == pending[0];
    } else {
      FindNone(searchBuf, pending, offset, cursor);
    }
  }

  /**
   * With an empty pending buffer the next byte writes nothing: it is the
   * last byte of the searched slice, so it always matches itself, as a
   * one-byte run that is too short for a token.
   */
  lemma EmptyPendingWritesNothing(data: seq<byte>, n: nat)
    requires SeedLength <= n < |data|
    requires Run(data, n).currentBuf == []
    ensures Run(data, n + 1).out == Run(data, n).out
    ensures Run(data, n + 1).currentBuf == [data[n]]
  {
    var st := Run(data, n);
    RunStep(data, n);
    var searchBuf := st.searchBuf + [data[n]];
    var pending := st.currentBuf + [data[n]];
    assert pending == [data[n]];
    assert searchBuf[st.searchCursor..][n - st.searchCursor] == data[n];
    FindInPipeline(searchBuf, pending, n, st.searchCursor);
    FindBounds(searchBuf, pending, n, st.searchCursor);
    var found := Find(searchBuf, pending, n, st.searchCursor);
    assert found.Some? && found.value.length == 1;
    assert Run(data, n + 1) == Next(st, data[n], found);
  }

  /**
   * Each iteration writes exactly one of, as the finder decides: the input
   * byte, when the first pending byte does not occur from the cursor on,
   * with the cursor reset and the match flag cleared; the token of the
   * finder's own match, when it is longer than 3 and further than 3, with
   * the pending buffer cleared; or nothing, the byte staying pending.
   */
  lemma StepOutcome(data: seq<byte>, n: nat)
    requires SeedLength <= n < |data|
    ensures var before, after := Run(data, n), Run(data, n + 1);
      var pending := before.currentBuf + [data[n]];
      var found := Find(data[..n + 1], pending, n, before.searchCursor);
      || (&& found.None? && pending[0] !in data[before.searchCursor..n + 1]
          && after.out == before.out + [data[n]] && after.searchCursor == 0 && !after.isPrevMatch
          && after.currentBuf == pending)
      || (&& found.Some? && MinLength < found.value.length <= |pending| && found.value.distance > MinDistance
          && after.out == before.out + Token(found.value.length, found.value.distance)
          && after.currentBuf == [] && after.isPrevMatch)
      || (&& found.Some? && !Emits(found.value)
          && after.out == before.out && after.currentBuf == pending && after.isPrevMatch)
  {
    var before := Run(data, n);
    RunStep(data, n);
    var searchBuf := before.searchBuf + [data[n]];
    var pending := before.currentBuf + [data[n]];
    assert searchBuf == data[..n + 1];
    assert searchBuf[before.searchCursor..] == data[before.searchCursor..n + 1];
    FindInPipeline(searchBuf, pending, n, before.searchCursor);
    FindBounds(searchBuf, pending, n, before.searchCursor);
  }

  /** The output starts with the seed; a five-byte input comes back unchanged. */
  lemma EncodeSeed(data: seq<byte>)
    requires SeedLength <= |data|
    ensures Encode(data)[..SeedLength] == data[..SeedLength]
    ensures |data| == SeedLength ==> Encode(data) == data
  {
  }

  /** A six-byte input loses its last byte: the pending byte never becomes a literal. */
  lemma SixthByteDropped(data: seq<byte>)
    requires |data| == 6
    ensures Encode(data) == data[..SeedLength]
  {
    EmptyPendingWritesNothing(data, SeedLength);
  }
}
