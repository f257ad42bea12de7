# deflate-rs encoder core in Dafny

A model of the LZ77-style encoder in `src/lib.rs` of deflate-rs, with proofs
about it. Each function of the crate is modelled in one module:

| source function | module | file |
|---|---|---|
| `next_pow2`, `short_be_bytes` | `BitWidthEncoder` | `bit_width_encoder.dfy` |
| `to_code` | `TokenEncoder` | `token_encoder.dfy` |
| `find_repeat_element` | `MatchFinder` | `match_finder.dfy` |
| `find_repeat_elements` | `Encoder` | `encoder.dfy` |

Two more modules support them: `Types` (`types.dfy`) holds the byte type
and `Option`, and `Bits` (`bits.dfy`) the bit arithmetic on naturals that
`next_pow2` needs (shift, OR, single bits, bit length). `EncoderSample`
(`encoder_sample.dfy`) is the trace of the source's end-to-end test.

- `next_pow2` rounds a number up to a power of two by OR-ing it with
  itself shifted right by 1, 2, 4, 8 and 16. `short_be_bytes` writes a
  number as big-endian bytes, with a byte count derived from that power
  of two. Both are methods with the source's loops. They are proved
  against the functions `Pow2(BitLen(n - 1))` and `ShortBe`, built from an
  independent byte count `ByteCount` and a big-endian reading `BeValue`.
- `to_code` writes a token: the length's bytes, the separator `:` (58)
  and the distance's bytes.
- `find_repeat_element` is the first-fit, single-candidate match finder.
  It is a method with the source's `for` loop, `break` and `continue`,
  proved equal to the function `Find`. `Find` is written with "first
  occurrence" and "common prefix", and its meaning is proved in lemmas.
- `find_repeat_elements` is the pipeline. It copies 5 bytes, then for
  every further byte runs the finder. It then writes a token, nothing, or
  the byte. The method keeps the source's local buffers as a `State`
  value. Its loop is proved against `Run`, the state after the first `n`
  bytes, which carries the loop invariant. `Encode(data)` is
  `Run(data, |data|).out`.
- The test trace follows the end-to-end input one byte at a time: what
  the finder reports, then the state after the byte.

The model follows the code where its comments or tests say otherwise:

- **The byte count is not minimal.** `short_be_bytes` takes
  `(k + 8) / 8` bytes, where `2^k` is the next power of two, at least 2.
  So 129..255 take two bytes, the first of them 0 (`ShortBeVectors`).
- **The cursor is relative.** The pipeline stores the finder's stop
  index, which counts from the start of the scanned slice, and passes it
  back as an absolute offset.
- **Some bytes are never written.** A match too short or too close for a
  token writes nothing and leaves the byte pending. A literal write does
  not clear the pending bytes. Bytes still pending at the end are never
  written (`SixthByteDropped`).
- **The end-to-end test vector is not met.** The test at
  src/lib.rs:197-204 expects `[10, 20, 30, 40, 50, 4, 58, 4, 60]` for the
  input `[10, 20, 30, 40, 50, 10, 20, 30, 40, 60]`. The code yields
  `[10, 20, 30, 40, 50, 4, 58, 9]`: the distance is 9 and the final 60
  stays pending (`SampleEncoding`). The test does not say what the
  intended encoding is, so no corrected pipeline is offered.

Panics become preconditions:

- `next_pow2(0)` underflows.
- `short_be_bytes(0)` underflows inside `next_pow2`.
- Slicing past the buffer end panics.
- `find_repeat_elements` needs at least 5 bytes.

Values are bounded by 2^32 (`MaxValue`), and inputs by 2^31 bytes
(`MaxInput`). Under these bounds no `usize` arithmetic wraps.

## Model

| member | source | states |
|---|---|---|
| BitWidthEncoder.NextPow2 | src/lib.rs:1-11 | for 1 <= n <= 2^32 the result is 2^BitLen(n - 1), at least n, and at most every power of two that is at least n: the least power of two >= n |
| BitWidthEncoder.SmearStep | src/lib.rs:5-8 | one `n \|= n >> s` step on a value below 2^len whose top s bits are set stays below 2^len and has its top 2s bits set |
| BitWidthEncoder.NextPow2Vectors | src/lib.rs:1-11 | the least power of two >= n is 1, 32, 256 and 512 for n = 1, 20, 256 and 257 |
| BitWidthEncoder.ShortBeBytes | src/lib.rs:21-58 | the halving loop, the copy of the low little-endian bytes and the reverse return ByteCount(d) bytes that read back, most significant first, as d |
| BitWidthEncoder.ByteCountBounds | src/lib.rs:36-43 | ByteCount(d) is the least w with d <= 2^(8w - 1): d fits and, when w > 1, d > 2^(8w - 9) |
| BitWidthEncoder.ByteCountFormula | src/lib.rs:22-43 | the byte count as the source computes it from the next power of two, BitLen(d - 1) / 8 + 1, equals ByteCount(d) |
| BitWidthEncoder.ShortBeValue | src/lib.rs:25-57 | the encoding is never empty, has ByteCount(d) bytes and reads back as d |
| BitWidthEncoder.BeDigitsValue | src/lib.rs:55-57 | w big-endian digits of any d < 2^(8w) read back as d |
| BitWidthEncoder.LeBytesPrefix | src/lib.rs:48-53 | the first k of the eight little-endian bytes are the k least significant bytes |
| BitWidthEncoder.ReverseLeBytes | src/lib.rs:55-56 | reversing the w least significant bytes gives the w big-endian digits |
| BitWidthEncoder.ShortBeVectors | src/lib.rs:21-58 | 1..128 give one byte, 129..255 give two bytes with a leading 0, 256 gives [1, 0], 20 gives [20] |
| TokenEncoder.ToCode | src/lib.rs:13-19 | the token is the length's encoding, the separator 58 and the distance's encoding |
| TokenEncoder.TokenLayout | src/lib.rs:13-19 | a token splits back into its parts: the first ByteCount(length) bytes read as the length, then the separator, then bytes that read as the distance |
| TokenEncoder.TokenVectors | src/lib.rs:162-170 | to_code(256, 20) is [1, 0, 58, 20] and to_code(1, 1) is [1, 58, 1] |
| MatchFinder.FindRepeatElement | src/lib.rs:64-107 | the loop with break and continue returns exactly Find: the first-fit run and its stop index, or None |
| MatchFinder.FirstIndexOfSpec | src/lib.rs:76-97 | the run starts at the first position holding data[0], and none exists when the index is the slice length |
| MatchFinder.CommonPrefixSpec | src/lib.rs:85-94 | the run length is a common prefix of the slice from the start and of data, ended by a mismatch or by the end of either |
| MatchFinder.FindBounds | src/lib.rs:99-104 | a reported match has 1 <= length <= \|data\|, a stop index inside the slice and below offset + length, and distance offset + length - stop >= 1 |
| MatchFinder.FindFirstFit | src/lib.rs:76-104 | when p is the first position of data[0] in the slice and l bytes agree up to a mismatch, the end of data or the end of the slice, the result is (l, offset + l - stop, stop) if offset + l > stop, else None |
| MatchFinder.FindNone | src/lib.rs:99-106 | empty data, or data[0] absent from the slice, gives None |
| MatchFinder.FirstIndexOfUnique | src/lib.rs:76-97 | the first position of a byte is determined by "holds it, and no earlier position does" |
| MatchFinder.CommonPrefixUnique | src/lib.rs:85-94 | the run length is determined by "prefixes agree, ended by a mismatch or an end" |
| MatchFinder.FindVectorWholeRun | src/lib.rs:174-177 | the finder test's first vector gives (4, 4, 4) |
| MatchFinder.FindVectorBrokenRun | src/lib.rs:179-183 | the second vector gives (2, 9, 2): the run breaks after two bytes |
| MatchFinder.FindVectorRunAtEnd | src/lib.rs:185-189 | the third vector gives (3, 4, 9) |
| MatchFinder.FindVectorOneByteRun | src/lib.rs:191-194 | the fourth vector gives (1, 4, 7) |
| Encoder.FindRepeatElements | src/lib.rs:109-156 | the output is Encode(data), and it starts with the first five input bytes |
| Encoder.Advance | src/lib.rs:126-153 | one iteration of the loop moves the state from Run(data, offset) to Run(data, offset + 1) |
| Encoder.Run | src/lib.rs:113-153 | after n bytes: the search buffer is data[..n], the cursor lies inside it and is 0 unless the last step matched, the pending bytes are the latest input bytes, and the output starts with the seed |
| Encoder.StepKeepsInv | src/lib.rs:126-153 | each iteration keeps the invariant of Run |
| Encoder.FindInPipeline | src/lib.rs:133-134 | inside the pipeline the offset check always passes, so the finder reports a match exactly when the first pending byte occurs in the slice from the cursor |
| Encoder.EmptyPendingWritesNothing | src/lib.rs:126-147 | after a token the next byte always matches itself as a one-byte run: nothing is written and the byte is pending |
| Encoder.StepOutcome | src/lib.rs:133-152 | each iteration does exactly one of three things, as the finder decides: no match, which happens only when the first pending byte does not occur from the cursor on, writes the byte, resets the cursor and clears the flag; the finder's own match, when longer than 3 (and at most the pending length) and further than 3, is written as its token and clears the pending bytes; any other match writes nothing and keeps the byte pending |
| Encoder.EncodeSeed | src/lib.rs:111-116 | the output starts with data[..5], and a five-byte input comes back unchanged |
| Encoder.SixthByteDropped | src/lib.rs:126-155 | a six-byte input is encoded as its first five bytes: the sixth stays pending and is never written |
| EncoderSample.SampleEncoding | src/lib.rs:197-204 | the end-to-end input is encoded as [10, 20, 30, 40, 50, 4, 58, 9], not as the vector the test asserts |

## Left out

- Machine integers: `usize` is modelled as an unbounded natural. The panics
  of `next_pow2(0)`, `short_be_bytes(0)` and out-of-range slices become
  preconditions, so wrap-around and panics are not modelled.
- Values above 2^32 for `next_pow2` and `short_be_bytes` are excluded. The
  OR-and-shift steps only smear 32 bits, so above 2^32 `next_pow2` may
  return a value that is not a power of two (2^33 - 1 for 2^32 + 1), and
  then the halving loop of `short_be_bytes` does not end.
- Inputs longer than 2^31 bytes are excluded. Shorter inputs keep every
  length and distance inside that bound.
- `d.to_le_bytes()` is modelled for a 64-bit `usize`, as eight bytes.
  `Vec::reverse` is modelled as a function on sequences.
- BitWidthEncoder.ShortBeBytes: the vector `res` is a sequence that is
  rebuilt at each write, not a buffer written in place.
- Encoder.FindRepeatElements: the growing vectors `search_buf`,
  `current_buf` and `out` are sequences in a `State` value. The body of
  the loop is the separate method `Advance`, so pushes and `clear` are not
  modelled as in-place updates.
- No decoder and no round trip of the encoder output. The crate has no
  decoder, and the output cannot be decoded: a literal 58 looks like a
  separator, and pending bytes can be lost.
