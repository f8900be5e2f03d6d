# Entropy coding core of CELT, verified

A Dafny model of the integer part of the CELT layer of Opus (RFC 6716): the range
coder of sections 4.1 and 5.1 in both directions, the pyramid codebook of section
4.3.4.2, the bit allocator of section 4.3.3, and the probability models coded on top:
Laplace, coarse energy, time-frequency flags, band boosts, split angles, trial encoding
with rollback, and the redundancy coder's frames in both directions.  `dafny verify
dfyconfig.toml` checks all of it.

How it fits together:

- `Interval`, `Flush` and `Patch` describe an ideal coder: an interval of unbounded
  integers narrowed by each symbol and rescaled by bytes, the shortest code word that
  ends it, and what changing the first flags does to it.  A packet *carries* a run of
  steps when its code value lies in every symbol's part and its raw bits agree.
- `EntCode` holds the context shared by encoder and decoder as a class whose methods
  update it in place.  A ghost field records the history; validity says that written
  bytes, buffered byte, pending 0xFF bytes, `val` and `rng` denote the ideal interval
  of that history exactly.  A decoder is valid at a span of its packet.
- `Stream` composes whole streams.  `Duplex` lets routines that serve both directions
  be described by the steps they code or read.
- `Rate` and `Alloc` are the allocator as functions, with its ledger; `Allocator` is
  the code over arrays, with the stopping rule of an encoder, and `AllocCost` what its
  side information takes of the stream.  `Pvq` is the table-driven codebook, `PvqSmall`
  the one that steps a row.
- `Laplace` has the model's intervals, `LaplaceTail` and `LaplaceRanges` why its tail
  always fits, `LaplaceCoder` the searches.  `SplitAngle` has the arithmetic of a split,
  `Angle` the models of its levels, `Theta` both sides of it.  `LaplaceP0`, `Tf`,
  `Viterbi`, `Boosts`, `Trial`, `Dred` and `DredDecoder` follow the routines they are
  named after.
- `Energy` has what both sides of the coarse energy share, and the decoder;
  `EnergyPass` defines every value, step, level and error of one encoder pass as a
  function of its input, `EnergyEncoder` is the loop that computes them, `EnergyTrial`
  the choice between two passes, `Distortion` what that choice remembers, and
  `EnergyLockstep` what both sides agree on; `EnergyAbove` runs them out of step.
- `FrameHeader` is everything a frame holds before the allocation, and `FrameCoding`
  sends header and allocation through a packet that is cut to size between the two;
  `PatchFailure` runs the coder into the one state patching cannot handle.
- Lockstep is always proved the same way: a routine's contract says that what went
  through the coder is one valid content and that the results follow from it, and a
  lemma says that one packet carries only one such content.
- What both sides share (models, weights, predictions, thresholds) is besides pinned by
  laws of its own: widths and shares of symbols, closed forms, the value a search ends
  on, which side of a split is favoured, or a few values worked out by hand.

What the code does where its comments say otherwise, or where a promise fails:

- `cwrs.c:117-119` and the table have U(0,0) = 1 and U(0,K) = 0; the macro's comment at
  `cwrs.c:199` gives the opposite values for N = 0.  The model follows the table.
- `quant_coarse_energy_impl` sends any value below zero as a set bit when one bit is
  left (`quant_bands.c:238-242`), and keeps its own value.  In the first band, where no
  rule raises it, that value can be below -1, and then the decoder's energy differs:
  `EnergyPass.SentExactly` is the exact condition, `EnergyLockstep.OneStepApart` runs
  both sides into it.
- Only the decoder bounds coarse energies from above (`quant_bands.c:488`);
  `EnergyLockstep.Lockstep` says exactly when that shows, and `EnergyAbove.AboveBound`
  shows it.
- Patching the first flags fails in one state, the first byte pending as 0xFF
  (`entenc.c:239`): `PatchInitialBits` says that no change of the flags can then
  succeed, and `PatchFailure.SilentFailure` that it can go unreported and what the
  decoder then reads.
- The comment at `laplace.c:43` allows decays up to 11456; `LaplaceRanges.AllTailsFit`
  says that the coder is right for all below 16384.
- The redundancy decoder stops when less than a byte is left (`dred_decoder.c:110-112`),
  as its comment regrets: `DredDecoder.ReadBack` says exactly when it misses chunks that
  were sent, and `DredDecoder.EmptyMissed` that a last one with nothing to code always is.
- With both quantizers 14 and a slope, the redundancy encoder stays at 14 and the decoder,
  which is not told, goes on to 15 (`dred_encoder.c:324-333`): the one case in which
  `DredDecoder.SameQuantizer` finds them apart.
- For the `_p0` coder a p0 of zero gives the value 0 no width, so p0 > 0 is asked for.

## Model

| member | source | states |
|---|---|---|
| `Interval.StepTell` | opus-1.6.1/celt/entcode.h:105-113 | a symbol of an n-bit model raises `ec_tell` by between 0 and n bits, in every coder state |
| `Interval.RunTellMono` | opus-1.6.1/celt/entcode.h:105-113 | `ec_tell` never goes down along any run |
| `Interval.CarriesIff` | opus-1.6.1/celt/entdec.c:34-90 | a packet selects every step of a run if and only if its code value lies in the run's final interval and its raw bits are the run's raw bits |
| `Interval.PointedInside` | opus-1.6.1/celt/entdec.c:139-145 | the value `ec_decode` returns lies in [fl, fh) exactly when the code value lies in that symbol's part of the range, rounding included |
| `Interval.ReadOnce` | opus-1.6.1/celt/entdec.c:153-160 | two symbols of one model that do not overlap are never both selected by a packet |
| `Interval.UintOnce` | opus-1.6.1/celt/entdec.c:219-244 | a packet selects at most one value of a uniform integer, also when it is split into a symbol and raw bits |
| `Interval.FlagIsIcdf` | opus-1.6.1/celt/entenc.c:151-173 | a flag is the second symbol of the table {1, 0}: a one has exactly one part of 2^logp, at the top of the range |
| `Interval.IcdfParts` | opus-1.6.1/celt/entenc.c:164-184 | the symbols of an inverse cumulative table have the widths between its entries and follow one another from 0 to the total without a gap |
| `Interval.UintWhole` | opus-1.6.1/celt/entenc.c:186-202 | symbol and raw bits of a uniform integer give the value back; totals up to 256 are one symbol, and beyond that the symbol has more than 128 parts and no more than hold all values |
| `Flush.FlushSafe` | opus-1.6.1/celt/entenc.c:255-268 | the code word `ec_enc_done` ends with stays inside the final interval whatever bits follow it |
| `Flush.SafeCarries` | opus-1.6.1/celt/entenc.c:259-277 | a packet that starts with a safe code word and holds the right raw bits carries the whole run, whatever the rest of it holds |
| `Flush.FlushMinimal` | opus-1.6.1/celt/entenc.c:255-268 | no block named by fewer bits lies inside the final interval |
| `Flush.UnsafeFails` | opus-1.6.1/celt/entenc.c:259-277 | a code word that is not safe has a continuation, the run's raw bits included, whose symbols the decoder does not read as this run |
| `Flush.ShorterFails` | opus-1.6.1/celt/entenc.c:259-277 | the flush is minimal: for every run and every code word with fewer bits there is a packet that starts with it, holds the run's raw bits and lies outside the run's interval, so that a symbol decodes wrongly |
| `Flush.TellFits` | opus-1.6.1/celt/entcode.h:105-113 | the finished stream takes `ec_tell` bits or one fewer, so a stream whose `ec_tell` fits the buffer fits it |
| `Flush.SafeContains` | opus-1.6.1/celt/entenc.c:255-277 | a packet that starts with a safe code word is inside the interval, whatever the rest of the packet holds, raw bits in its last byte included |
| `Flush.PacketCarries` | opus-1.6.1/celt/entenc.c:255-305 | the finished packet carries exactly the steps it was made from |
| `Registers.CarryValue` | opus-1.6.1/celt/entenc.c:82-99 | a nine-bit digit joins the bytes written, `rem` and the pending 0xFF bytes as exact arithmetic: the carry ripples through all of them |
| `Registers.Rescale` | opus-1.6.1/celt/entenc.c:101-110 | taking the top digit out of `val` and rescaling keeps the big integer that digits and `val` denote |
| `Registers.PackShared` | opus-1.6.1/celt/entenc.c:283-303 | raw bits or-ed into the free low bits of the last range byte change neither number |
| `EntCode.EcCtx.EncInit` | opus-1.6.1/celt/entenc.c:112-126 | a fresh encoder stands for the empty history |
| `EntCode.EcCtx.CarryOut` | opus-1.6.1/celt/entenc.c:82-99 | bytes, `rem` and pending bytes denote 256 times what they did plus the digit; a digit 0xFF changes nothing already buffered; a failed write is reported and means the buffer is full; a carry is only ever passed when a byte is there to take it |
| `EntCode.EcCtx.EncNormalize` | opus-1.6.1/celt/entenc.c:101-110 | after renormalization the registers denote the low end of the ideal, rescaled interval, exactly |
| `EntCode.EcCtx.Encode` | opus-1.6.1/celt/entenc.c:128-137 | the history grows by exactly this symbol; validity says that written bytes, `rem`, `ext`, `val` and `rng` denote the ideal interval of the whole history |
| `EntCode.EcCtx.EncodeBin` | opus-1.6.1/celt/entenc.c:139-149 | the same for a power-of-two total |
| `EntCode.EcCtx.EncBitLogp` | opus-1.6.1/celt/entenc.c:151-162 | the same for one flag |
| `EntCode.EcCtx.EncIcdf` | opus-1.6.1/celt/entenc.c:164-184 | the same for an inverse cumulative table, 8 or 16 bit |
| `EntCode.EcCtx.EncUint` | opus-1.6.1/celt/entenc.c:186-202 | the same for a uniform integer, split when it is wide |
| `EntCode.EcCtx.EncBits` | opus-1.6.1/celt/entenc.c:204-223 | raw bits join the other end: window and end bytes denote all raw bits so far |
| `EntCode.EcCtx.PatchInitialBits` | opus-1.6.1/celt/entenc.c:225-246 | the encoder becomes the one that coded the new flags and then the same symbols, in every state but one: with the first byte pending as 0xFF (`rem < 0`, `ext > 0`) no change of the flags can succeed, and the call reports no error exactly when a byte is buffered or `rng` is at most 2^31 / 2^k |
| `PatchFailure.SilentFailure` | opus-1.6.1/celt/entenc.c:225-246 | that state reached: nine flags of value one are coded and the first is patched to zero; there is no error, and the decoder finds the first flag still one and the ninth zero |
| `Patch.FlagsHead` | opus-1.6.1/celt/entenc.c:225-246 | k flags coded by `ec_enc_bit_logp(., 1)` occupy exactly the block that patching replaces |
| `Patch.PlaceholderHead` | opus-1.6.1/silk/enc_API.c:355-362 | so does the placeholder symbol of total 256 that the SILK encoder puts there |
| `Patch.RestMoved` | opus-1.6.1/celt/entenc.c:225-246 | symbols coded after the flags move with the flags: the two histories have the same range and scale, and lows that differ by a whole number of blocks |
| `EntCode.EcCtx.Shrink` | opus-1.6.1/celt/entenc.c:248-253 | shrinking the buffer between calls moves the raw bytes and changes nothing else |
| `EntCode.EcCtx.FlushRange` | opus-1.6.1/celt/entenc.c:255-277 | the bytes at the front become exactly the shortest safe code word, its unused low bits zero |
| `EntCode.EcCtx.Done` | opus-1.6.1/celt/entenc.c:255-305 | no error, whatever happened before, if and only if code word and raw bits fit; then the packet, as a number, is the code word on top and the raw bits at the bottom, and it carries the whole history |
| `EntCode.EcCtx.DecInit` | opus-1.6.1/celt/entdec.c:119-137 | a fresh decoder is at the start span of its packet |
| `EntCode.EcCtx.Decode` | opus-1.6.1/celt/entdec.c:139-151 | for any packet, a value below the total, namely where the code value points |
| `EntCode.EcCtx.DecUpdate` | opus-1.6.1/celt/entdec.c:153-160 | the decoder moves to the span the encoder had after this symbol |
| `EntCode.EcCtx.DecBitLogp` | opus-1.6.1/celt/entdec.c:162-175 | the flag the packet holds; then the span after it |
| `EntCode.EcCtx.DecIcdf` | opus-1.6.1/celt/entdec.c:177-217 | the search stops at a symbol of nonzero width, the one the packet holds |
| `EntCode.EcCtx.DecUint` | opus-1.6.1/celt/entdec.c:219-244 | a value below the total for any packet; it is the one the packet holds, or an error is flagged and the packet holds none |
| `EntCode.EcCtx.DecBits` | opus-1.6.1/celt/entdec.c:246-266 | the raw bits of the packet at this position, zeros past its end |
| `EntCode.EcCtx.DecState` | opus-1.6.1/celt/entdec.c:34-90 | in every reachable decoder state: 2^23 < `rng` <= 2^31, `val` < `rng` is the distance from the top of the range to the code value, less one |
| `Stream.EncodeAll` | opus-1.6.1/celt/entenc.c:128-253 | any sequence of calls, with the buffer shrunk in between, leaves the history of exactly those calls, and the range and bit count shown after each are functions of the calls alone |
| `Stream.DecodeAll` | opus-1.6.1/celt/entdec.c:139-266 | reading a packet that carries the calls gives their values and, after every call, the encoder's range and bit count |
| `Stream.RoundTrip` | opus-1.6.1/celt/entenc.c:60-305 | for every sequence of legal calls: finishing reports no error exactly when code word and raw bits fit, and so while `ec_tell` does; then the decoder sees the same values and the same `rng` and `nbits_total` after every call |
| `Stream.ReadSymbol` | opus-1.6.1/celt/entdec.c:139-160 | for any packet and any cumulative table, zero widths included, the look-up between `ec_decode` and `ec_dec_update` finds the one symbol the packet holds |
| `Stream.SamePacket` | opus-1.6.1/celt/entenc.c:255-305 | the finished packet depends on the history and its size only |
| `TellFrac.TableIsSquare` | opus-1.6.1/celt/entcode.c:69-114 | the correction table gives the same three fraction bits as repeated squaring, for every 16-bit mantissa |
| `TellFrac.EcTellFrac` | opus-1.6.1/celt/entcode.c:69-84 | the table form computes the eighth-bit count that three squarings define |
| `TellFrac.EcTellFracReference` | opus-1.6.1/celt/entcode.c:86-114 | the squaring loop computes the same count |
| `TellFrac.LogFrom` | opus-1.6.1/celt/entcode.c:69-114 | a range reaches a given number of eighths exactly from one least range on |
| `TellFrac.TellOfEighths` | opus-1.6.1/celt/entcode.h:105-113 | `ec_tell` is the eighth-bit count rounded up to whole bits |
| `TellFrac.RunEighthsMono` | opus-1.6.1/celt/entcode.c:69-114 | the count never decreases along any run |
| `TellFrac.StepEighths` | opus-1.6.1/celt/entcode.c:69-114 | one symbol of an n-bit model, n <= 8, adds at most 8n |
| `IntMath.EcIlog` | opus-1.6.1/celt/entcode.c:41-62 | the halving search is the bit length, for every 32-bit word |
| `IntMath.CeltUdiv` | opus-1.6.1/celt/entcode.h:124-138 | division by the reciprocal table with one correction is exact for every 32-bit dividend and every divisor |
| `IntMath.Isqrt32` | opus-1.6.1/celt/mathops.c:45-68 | the floor of the square root of every positive 32-bit word; no intermediate product leaves 32 bits |
| `IntMath.RootUnique` | opus-1.6.1/celt/mathops.c:45-68 | there is one such root |
| `Pvq.Symmetric` | opus-1.6.1/celt/cwrs.c:117-119 | U(N,K) = U(K,N) |
| `Pvq.IndexRange` | opus-1.6.1/celt/cwrs.c:444-460 | every integer vector of N elements and K pulses has an index below V(N,K) |
| `Pvq.VectorOfIndex` | opus-1.6.1/celt/cwrs.c:444-541 | decoding the index of a vector gives the vector back |
| `Pvq.IndexOfVector` | opus-1.6.1/celt/cwrs.c:444-541 | every index below V(N,K) is decoded to a vector of N elements and K pulses, and that vector has this index |
| `Pvq.Bijection` | opus-1.6.1/celt/cwrs.c:444-541 | vectors of equal length and pulse count have equal indices if and only if they are equal |
| `Pvq.IndexOrder` | opus-1.6.1/celt/cwrs.c:444-460 | the index is the vector's rank: one index is below another if and only if at the first difference its element comes sooner in the order K, ..., 1, 0, -K, ..., -1 |
| `Pvq.Icwrs` | opus-1.6.1/celt/cwrs.c:444-460 | the loop from the last element computes the index; its partial sums stay in 32 bits |
| `Pvq.ManyPulses` | opus-1.6.1/celt/cwrs.c:477-498 | the lots-of-pulses branch finds sign, count and remainder of the first element, reading only table entries on or above the diagonal that fit a word |
| `Pvq.ManyDimensions` | opus-1.6.1/celt/cwrs.c:499-522 | so does the lots-of-dimensions branch |
| `Pvq.CwrsiTable` | opus-1.6.1/celt/cwrs.c:467-541 | the two-branch decoder with its unrolled last two elements stores the vector of the index and returns exactly the sum of squares |
| `Pvq.EncodePulses` | opus-1.6.1/celt/cwrs.c:462-465 | the vector's index goes out as a uniform integer below V(N,K) |
| `Pvq.DecodePulses` | opus-1.6.1/celt/cwrs.c:543-545 | from any packet, a vector of K pulses and its energy; the vector sent, if one was |
| `PvqSmall.PrevUndoesNext` | opus-1.6.1/celt/cwrs.c:552-579 | `uprev` undoes `unext`, whatever wraps on the way |
| `PvqSmall.NextUndoesPrev` | opus-1.6.1/celt/cwrs.c:552-579 | and the other way round |
| `PvqSmall.Unext` | opus-1.6.1/celt/cwrs.c:552-563 | the row is replaced in place by its successor, the rest of the array kept |
| `PvqSmall.Uprev` | opus-1.6.1/celt/cwrs.c:568-579 | the row is replaced in place by its predecessor |
| `PvqSmall.NcwrsUrow` | opus-1.6.1/celt/cwrs.c:583-602 | the array ends as row U(N, 0..K+1) and the result is V(N,K) |
| `PvqSmall.CwrsiSmall` | opus-1.6.1/celt/cwrs.c:609-634 | the row-stepping decoder stores the same vector as the table decoder, for every index |
| `PvqSmall.IcwrsSmall` | opus-1.6.1/celt/cwrs.c:640-672 | the row-stepping encoder computes the same index, and V(N,K) |
| `Rate.CurveSearchFits` | opus-1.6.1/celt/rate.c:587-619 | the first search ends between an allocation curve that fits the budget and one that does not |
| `Rate.MixLargest` | opus-1.6.1/celt/rate.c:270-294 | the second search ends on the largest step: it is below 64, and it is 63 or the next one no longer fits; and the curve above the one interpolated from, if there is one, does not fit |
| `Rate.MixPath` | opus-1.6.1/celt/rate.c:276 | the 64 steps lead every band from the lower curve up to the next one, or to its cap after the last, without going down, each a 64th of the way but for the rounding |
| `Rate.CurveUnits` | opus-1.6.1/celt/rate.c:580-597 | an allocation vector counts in 1/32 bit a coefficient: so much a band of several coefficients gets with a neutral trim, and the last band always; a higher trim gives lower bands no less, a lower one no more |
| `Rate.ThreshRate` | opus-1.6.1/celt/rate.c:578 | a band is worth pulses from 1.5 eighth-bits a coefficient on, and not below a bit a channel |
| `Rate.GrantCases` | opus-1.6.1/celt/rate.c:278-312 | the last band that reaches its threshold divides the bands: up to it every target counts within its cap, above it a target is a bit a channel or nothing |
| `Rate.HeldBack` | opus-1.6.1/celt/rate.c:550-569 | the reservations and the budget add up to max(total, 0); the skip bit, the intensity cost and the dual stereo bit are held exactly where each still fits, the last two in stereo only |
| `Rate.TableLeast` | opus-1.6.1/celt/rate.c:36-42 | entry i of the logarithm table is the least number of eighth-bits that tells i + 1 values apart: it is rounded up, and by less than one |
| `Rate.SettledFits` | opus-1.6.1/celt/rate.c:270-294 | both searches settle on an allocation that fits, whatever the curves, offsets and caps |
| `Rate.FirstBitsFit` | opus-1.6.1/celt/rate.c:295-313 | the bits handed out before skipping are within the budget |
| `Alloc.SkippedKeeps` | opus-1.6.1/celt/rate.c:315-392 | skipping a band keeps the running sum exact and within the budget, reservations refunded and flags paid |
| `Alloc.FlagPaid` | opus-1.6.1/celt/rate.c:340-372 | the flag that ends the skipping is paid for by the bit reserved for it |
| `Alloc.SharedSum` | opus-1.6.1/celt/rate.c:423-434 | sharing out hands out all bits left, none more |
| `Alloc.BandShare` | opus-1.6.1/celt/rate.c:333-341 | the skip loop measures a band by exactly what sharing out would leave it with if the skipping stopped there |
| `Alloc.FineNearest` | opus-1.6.1/celt/rate.c:473-484 | short of the band's bits and of eight the fine bits are the whole number nearest to the share |
| `Alloc.OffsetFalls` | opus-1.6.1/celt/rate.c:458-471 | the more bits a band has the lower its offset, by at most a quarter of its log size |
| `Alloc.WorkedBands` | opus-1.6.1/celt/rate.c:458-584 | three stereo bands worked out by hand: sizes, trim offsets, and the fine-energy offset on both sides of each of its limits |
| `Alloc.SplitBounds` | opus-1.6.1/celt/rate.c:437-531 | no band gets negative pulses or fine bits, nor more than eight fine bits; a coded band of several coefficients stays within its cap |
| `Alloc.Conservation` | opus-1.6.1/celt/rate.c:249-533 | pulses, fine energy in every channel, the balance passed on, one bit for every skip flag in the stream and the stereo reservations finally held add up to max(total, 0), for every choice an encoder can make |
| `Alloc.FlagsCounted` | opus-1.6.1/celt/rate.c:337-372 | the ledger's count of zero flags is the number of them in the stream |
| `AllocCost.SymbolCost` | opus-1.6.1/celt/rate.c:36-42 | the logarithm table bounds what a symbol costs: one of i + 1 equal parts, i < 24, adds at most entry i to `ec_tell_frac`, from every range |
| `AllocCost.SideCost` | opus-1.6.1/celt/rate.c:249-421 | everything the allocator codes raises `ec_tell_frac` by at most a bit a flag and the reservations held |
| `AllocCost.WithinTotal` | opus-1.6.1/celt/rate.c:249-421 | so the allocator never uses more than it was given, and codes nothing when it was given nothing |
| `Alloc.AllocOnce` | opus-1.6.1/celt/rate.c:340-421 | one packet supports one allocation: any two valid sets of choices it carries give the same coded bands, intensity, dual stereo, pulses, fine bits, priorities and balance |
| `Allocator.StartBits` | opus-1.6.1/celt/rate.c:549-640 | both searches and the interpolation, in place over arrays, give the starting bits, their sum and the first band that may be skipped |
| `Allocator.SkipBands` | opus-1.6.1/celt/rate.c:315-392 | the skip loop, coding or reading its flags, ends in the state of one valid stopping point; an encoder's is the first band from the top that has a flag and that its hysteresis keeps |
| `Allocator.StopFirst` | opus-1.6.1/celt/rate.c:315-376 | an encoder stops at the highest band that has a flag and that it keeps, or where nothing below may be skipped |
| `Allocator.Hysteresis` | opus-1.6.1/celt/rate.c:353-365 | above the 17th band one coded before is kept exactly above 7/16 bit a coefficient and a new one above 9/16, a lower one with any bits, and none beyond the signal's bandwidth |
| `Allocator.HysteresisMono` | opus-1.6.1/celt/rate.c:353-365 | more bits, or having been coded before, never make a band skipped that was kept |
| `Allocator.CodeStereo` | opus-1.6.1/celt/rate.c:394-421 | intensity and dual stereo are coded or read exactly when bits are held for them |
| `Allocator.ShareOut` | opus-1.6.1/celt/rate.c:423-434 | the two sharing loops leave every band its share |
| `Allocator.SplitCoded` | opus-1.6.1/celt/rate.c:437-518 | the rebalancing loop leaves every coded band its pulses, fine bits and priority, and returns the final balance |
| `Allocator.ComputeAllocation` | opus-1.6.1/celt/rate.c:535-646 | whichever side runs it, the result arrays, the returned values and what went through the coder are those of one valid set of choices; an encoder's choices follow from its arguments |
| `Laplace.BaseBound` | opus-1.6.1/celt/laplace.c:44-74 | the decaying part never takes more than the peak leaves: magnitude i begins at or below 32736 + 2(i-1), for every peak and decay |
| `Laplace.DecayingShare` | opus-1.6.1/celt/laplace.c:44-74 | and no less but for one part a magnitude: frequencies fall by the factor decay/16384, from the one that makes the sum over all magnitudes and both signs what the peak leaves |
| `Laplace.SignsAlike` | opus-1.6.1/celt/laplace.c:86-91 | a magnitude's two signs are neighbours of equal width, the next magnitude follows, and only the end of the line cuts an interval short |
| `Laplace.SixteenCodable` | opus-1.6.1/celt/laplace.c:38-42 | every value of magnitude up to sixteen has an interval, in every model |
| `Laplace.Disjoint` | opus-1.6.1/celt/laplace.c:51-92 | intervals of different values are disjoint, in a fixed order |
| `Laplace.LaplaceOnce` | opus-1.6.1/celt/laplace.c:94-134 | a packet holds at most one Laplace value |
| `Laplace.ClampedSame` | opus-1.6.1/celt/laplace.c:76-84 | only a value with no interval of its own is changed |
| `Laplace.ClampedOnce` | opus-1.6.1/celt/laplace.c:75-84 | the value a magnitude out of range becomes is unique: the last codable one on its side |
| `LaplaceP0.ValueOnce` | opus-1.6.1/celt/laplace.c:136-192 | the escape form is uniquely readable: two integers carried by one packet are equal, for every legal p0 and decay |
| `LaplaceP0.SignShares` | opus-1.6.1/celt/laplace.c:139-144 | the sign symbol gives zero exactly p0 of 32768 and each sign half of the rest, to within one part |
| `LaplaceP0.AboveGeometric` | opus-1.6.1/celt/laplace.c:149-155 | entry i of the magnitude table is power i + 1 of the decay, to within i parts of rounding or the 7 - i parts kept for the symbols beyond |
| `LaplaceP0.MagnitudeShares` | opus-1.6.1/celt/laplace.c:149-156 | a magnitude's symbol owns exactly what lies between two such entries |
| `LaplaceP0.EncodeP0` | opus-1.6.1/celt/laplace.c:136-162 | any integer goes out as a sign and a run of sevens with its remainder |
| `LaplaceP0.DecodeP0` | opus-1.6.1/celt/laplace.c:164-192 | from any packet, the integer it holds |
| `LaplaceP0.DecodeRun` | opus-1.6.1/celt/laplace.c:184-189 | the escape loop stops on every packet: past the packet's end the code value runs out of room |
| `LaplaceTail.RangeFits` | opus-1.6.1/celt/laplace.c:44-84 | for all decays of a range at once: few steps lead to small frequencies, and from there on a table of what is still taken says that the tail fits |
| `LaplaceTail.SlowFits` | opus-1.6.1/celt/laplace.c:44-84 | for the slowest decays, from 15360 on, by how fast frequencies fall |
| `LaplaceRanges.AllTailsFit` | opus-1.6.1/celt/laplace.c:38-92 | for every peak up to 32736 and every decay below 16384, beyond the 11456 the comment asks for, the flat tail starts early enough for both signs of its first magnitude |
| `LaplaceCoder.SendsNearest` | opus-1.6.1/celt/laplace.c:51-92 | so in every model the encoder writes the interval of the value it reports, inside the line as it asserts, and reports the codable value nearest to the one asked for |
| `LaplaceCoder.EcLaplaceEncode` | opus-1.6.1/celt/laplace.c:51-92 | the codable value nearest to the one asked for is coded and handed back; magnitudes up to sixteen are never changed |
| `LaplaceCoder.FindValue` | opus-1.6.1/celt/laplace.c:94-130 | every point of the line lies in some value's interval, and the search finds it: the intervals partition the line |
| `LaplaceCoder.EcLaplaceDecode` | opus-1.6.1/celt/laplace.c:94-134 | from any packet, the codable value it holds |
| `EnergyModel.TableFits` | opus-1.6.1/celt/quant_bands.c:72-140 | every model of the coarse energy has a peak and is one the Laplace coder may be called with |
| `Energy.ModelShares` | opus-1.6.1/celt/quant_bands.c:226-232 | the table counts in 256ths: zero has its entry's share of the line, magnitudes decay by the other's, and the 21st pair serves all later bands |
| `Energy.FirstModels` | opus-1.6.1/celt/quant_bands.c:72-92 | the models of the first band of the shortest frames, inter and intra |
| `Energy.FoldedSign` | opus-1.6.1/celt/quant_bands.c:234-236 | the three small values in the order 0, -1, 1, with two, one and one parts of four |
| `Energy.WithinBudget` | opus-1.6.1/celt/quant_bands.c:450-482 | whatever the values, the bit count after any number of them is at most max(its value before, the budget) |
| `Energy.EnergyOnce` | opus-1.6.1/celt/quant_bands.c:450-482 | a packet supports one sequence of energy values |
| `Energy.FilledAt` | opus-1.6.1/celt/quant_bands.c:484-491 | after a frame every band's entry is the level of its value |
| `Energy.FilledElsewhere` | opus-1.6.1/celt/quant_bands.c:484-491 | and every other entry of the array is as it was |
| `Energy.LevelsAgree` | opus-1.6.1/celt/quant_bands.c:249-254 | from equal energies and equal values both sides end with equal arrays exactly when no level is above the bound only the decoder applies |
| `Energy.LevelClosed` | opus-1.6.1/celt/quant_bands.c:249-256 | a band's level in closed form: the share of the old energy that frame size and intra flag decide, none when intra, the fixed multiple of the earlier values of its channel, and its own value, bounded on each side as that side does; no product of values in eight bits is rounded |
| `Energy.EntryForgets` | opus-1.6.1/celt/quant_bands.c:165-174 | two sides that go on from different energies agree after an intra frame in every coded band; after any other, the difference has shrunk to its leak share, at most 29440/32768, and one unit of rounding |
| `Energy.IntraRecovers` | opus-1.6.1/celt/quant_bands.c:431-493 | one intra packet, two decoders that lost different frames before: they read the same values and end with equal energies in every coded band |
| `Energy.ReadIntraTwice` | opus-1.6.1/celt/quant_bands.c:431-493 | so do the two decoders' routines, called on one packet with any two arrays |
| `Energy.UnquantCoarseEnergy` | opus-1.6.1/celt/quant_bands.c:431-493 | for any packet: the values it holds, the whole array they give, and a bit count of at most max(its value on entry, 8 storage) |
| `EnergyPass.CodedFits` | opus-1.6.1/celt/quant_bands.c:175-258 | every value the encoder chooses can be coded with the bits left at that point |
| `EnergyPass.HeldUpNear` | opus-1.6.1/celt/quant_bands.c:194-211 | the step chosen is the nearest one; only where the energy would fall below its bound is it raised, not above zero, and short of that to within one and a half steps of the bound |
| `EnergyPass.SparedCases` | opus-1.6.1/celt/quant_bands.c:213-225 | only after the first band, with fewer than 24 bits to spare, is a value lowered, to one, and with fewer than 16 raised, to minus one; from the third band on a low-frequency frame has none above zero |
| `EnergyPass.MissesHalf` | opus-1.6.1/celt/quant_bands.c:192-245 | a value that is the nearest step misses its band by at most half a step, unless it was held up because the energy fell too fast |
| `EnergyPass.BadnessZero` | opus-1.6.1/celt/quant_bands.c:246-257 | the badness is zero exactly when no value was changed by the budget |
| `EnergyPass.SentExactly` | opus-1.6.1/celt/quant_bands.c:213-242 | what is sent is what the encoder goes on with exactly when no first-band value is lost: one bit left and a wish below -1 |
| `EnergyEncoder.QuantCoarseEnergyImpl` | opus-1.6.1/celt/quant_bands.c:156-258 | the loops code the steps, store the energies and errors and return the badness of the pass, a function of the coder's span, the bands, the old energies and the arguments alone |
| `EnergyLockstep.Lockstep` | opus-1.6.1/celt/quant_bands.c:484-491 | the decoder reads the values sent; if none was lost, both sides' whole arrays agree if and only if the encoder's energies stay within the bound only the decoder applies |
| `EnergyLockstep.OneStepApart` | opus-1.6.1/celt/quant_bands.c:238-242 | both sides run on a one-byte packet: a first band two steps below its prediction with one bit left ends two steps down at the encoder and one at the decoder, with no error |
| `EnergyAbove.AboveBound` | opus-1.6.1/celt/quant_bands.c:249-254 | both sides run on a three-byte packet: a band at 29 steps that was at 28 loses no value and reports no error, and the encoder goes on above the decoder's bound of 28, the decoder at it |
| `EnergyTrial.QuantCoarseEnergy` | opus-1.6.1/celt/quant_bands.c:260-358 | whatever the two passes code, coder, energies and errors end as those of the pass kept alone; that is the intra pass if and only if the flag fits and intra is asked for, or both are tried and intra has less badness, or as much and not so many more eighth-bits; the memory of the distortion follows from the pass kept and the energies before |
| `Distortion.LossDistortion` | opus-1.6.1/celt/quant_bands.c:142-154 | the loops over channels and bands, wrapping at every addition, give the capped sum of squared 16-bit differences |
| `Distortion.LossRange` | opus-1.6.1/celt/quant_bands.c:142-154 | for up to 21 bands whose energies moved by at most 55 steps no addition wraps and the distortion is between 0 and 200 |
| `Distortion.OneBandLoss` | opus-1.6.1/celt/quant_bands.c:142-154 | one band that moved by d steps counts d squared, up to 200 |
| `Distortion.DelayedBounded` | opus-1.6.1/celt/quant_bands.c:351-355 | over any number of frames `delayedIntra` stays between 0 and 1037 |
| `Distortion.BiasExact` | opus-1.6.1/celt/quant_bands.c:277 | so for every packet size and loss rate the unsigned product behind the intra bias does not wrap |
| `Tf.FlagsWithinBudget` | opus-1.6.1/celt/celt_encoder.c:824-861 | whatever the flags, the bit count stays within max(its value before, the budget) |
| `Tf.TfOnce` | opus-1.6.1/celt/celt_decoder.c:513-549 | a packet supports one set of flags: what the encoder ends up with is what a decoder reads |
| `Tf.AllHad` | opus-1.6.1/celt/celt_encoder.c:833-847 | with five bits a flag to spend every flag wanted is had |
| `Tf.ChangeRange` | opus-1.6.1/celt/celt.c:320-326 | without a flag a long frame keeps its resolution and a transient one gains all that its short transforms lost, or one step if selected otherwise; a flag always lowers it |
| `Tf.TfEncode` | opus-1.6.1/celt/celt_encoder.c:824-861 | the flags that fit are coded as changes, the others repeat, and the array ends with the resolutions the decoder will have |
| `Tf.TfDecode` | opus-1.6.1/celt/celt_decoder.c:513-549 | for any packet, the resolutions it holds, within max(entry, 8 storage) bits |
| `Viterbi.NoneBetter` | opus-1.6.1/celt/celt_encoder.c:753-766 | no sequence of flags costs less than the running cost of its last flag |
| `Viterbi.TraceCost` | opus-1.6.1/celt/celt_encoder.c:774-812 | the path followed back costs exactly that |
| `Viterbi.CostParts` | opus-1.6.1/celt/celt_encoder.c:755-765 | the cost searched over is the bands' own and lambda for every change of the flag, where a first set flag is a change except in a transient |
| `Viterbi.CostZero` | opus-1.6.1/celt/celt_encoder.c:755-765 | it is zero exactly for a sequence that never changes, is free to start and gives every band the resolution it prefers, the metric counting half steps |
| `Viterbi.TfSearch` | opus-1.6.1/celt/celt_encoder.c:751-821 | for every metric, importance and lambda: the flags found cost least of all 2^len sequences, that cost is the first pass's cost for the chosen `tf_select`, and `tf_select` is one exactly for a transient where that is cheaper |
| `Angle.Partition` | opus-1.6.1/celt/bands.c:779-822 | under each of the three models the levels follow one another without gap or overlap from 0 to the total |
| `Angle.LevelWidths` | opus-1.6.1/celt/bands.c:779-822 | a level has three parts of the step model up to the middle and one above it, one of the uniform model, and of the triangular one as many as its distance from the nearer end, counted from one |
| `Angle.InsideOnce` | opus-1.6.1/celt/bands.c:779-822 | a point of the line lies in one level only |
| `Angle.TriRoot` | opus-1.6.1/celt/bands.c:818-836 | the integer square root inverts the triangle numbers |
| `Angle.UpperHalf` | opus-1.6.1/celt/bands.c:831-836 | the decoder's formula for the upper half finds level, start and size from any point |
| `Angle.LowerHalf` | opus-1.6.1/celt/bands.c:825-830 | and so does the one for the lower half |
| `Angle.AngleOnce` | opus-1.6.1/celt/bands.c:777-840 | a packet holds one angle under each of the models |
| `Angle.EncodeAngle` | opus-1.6.1/celt/bands.c:777-822 | a level goes out under its model |
| `Angle.DecodeAngle` | opus-1.6.1/celt/bands.c:777-840 | for any packet, a level of at most qn; the one it holds, unless the uniform model of 257 levels meets a packet that holds none and flags it |
| `SplitAngle.ComputeQn` | opus-1.6.1/celt/bands.c:638-662 | the number of steps is that of the bits for the angle, by a division that truncates |
| `SplitAngle.StepsAre` | opus-1.6.1/celt/bands.c:654-660 | it is one, or even and at most 256 as asserted: always a number the angle's models are made for |
| `SplitAngle.StepsPower` | opus-1.6.1/celt/bands.c:640-659 | the steps are as many as qb eighth-bits tell apart, rounded to an even number: the eighth powers of one fewer and one more enclose 2^qb |
| `SplitAngle.NearestOfAll` | opus-1.6.1/celt/bands.c:751 | the level chosen is one of the qn + 1, and no other is nearer |
| `SplitAngle.LevelKept` | opus-1.6.1/celt/bands.c:749-751 | the angle of a level is quantized to that level again |
| `SplitAngle.BelowAbove` | opus-1.6.1/celt/bands.c:766-775 | the two one-sided roundings are neighbouring levels around the angle, up to the bias towards the two ends |
| `SplitAngle.CosineAsserts` | opus-1.6.1/celt/bands.c:66-78 | both assertions of `bitexact_cos` hold if and only if its argument is between 64 and 16383; then up to 16320, which no inner level of at most 256 steps exceeds, the cosine is positive and fits 16 bits |
| `SplitAngle.LevelHasGains` | opus-1.6.1/celt/bands.c:904-924 | every level is an end or has both its cosine and its sine in that range |
| `SplitAngle.Log2TanOdd` | opus-1.6.1/celt/bands.c:80-92 | exchanging mid and side changes the sign of the logarithm exactly |
| `SplitAngle.DeltaSign` | opus-1.6.1/celt/bands.c:904-921 | for every usable angle and up to 256 coefficients the louder of mid and side gets no fewer bits: below 8192 the mid is louder and the difference not positive, at 8192 both are equal and it is zero, above it the side is louder and it is not negative |
| `SplitAngle.QuarterGains` | opus-1.6.1/celt/bands.c:66-92 | at 4096 the gains are 30274 and 12540, and for 16 coefficients the mid gets 153 eighth-bits more |
| `SplitAngle.GainsSwap` | opus-1.6.1/celt/bands.c:917-918 | opposite angles exchange mid and side |
| `SplitAngle.QuietedEnd` | opus-1.6.1/celt/bands.c:753-764 | with bits to spend the override sends a level only to the end of the louder side: one of the lower half to zero, one of the upper half to the last, the middle never |
| `SplitAngle.Quantize` | opus-1.6.1/celt/bands.c:749-775 | rounding to the nearest, below or above, and the override that sends a starved split to its end, give the level they should, always within 0 to qn |
| `Theta.ThetaOnce` | opus-1.6.1/celt/bands.c:744-902 | one packet, one split: level or inversion flag, and all that follows from them |
| `Theta.SameContext` | opus-1.6.1/celt/bands.c:745-902 | the decoder, which has no angle of its own, ends with the encoder's context if and only if the split is stereo, or has more than one step, or the encoder's angle was zero |
| `Theta.ContextBits` | opus-1.6.1/celt/bands.c:902-932 | bits left and bits coded are the bits given, and the context's gains and bit difference favour the louder side |
| `Theta.MaskHalves` | opus-1.6.1/celt/bands.c:908-914 | the fill mask's low half stays with the mid and its high half with the side; together they are the mask |
| `Theta.EncodeTheta` | opus-1.6.1/celt/bands.c:700-936 | the encoder codes the level of its angle or the inversion flag, and ends with the context they make: gains, bit difference, bits left, fill mask |
| `Theta.DecodeTheta` | opus-1.6.1/celt/bands.c:700-936 | for any packet a usable angle and its gains; the context of the split the packet holds, if it holds one |
| `Trial.BytesKept` | opus-1.6.1/celt/entenc.c:60-99 | bytes once final are never rewritten, so they are still there when a copy of the coder is put back |
| `Trial.TryBoth` | opus-1.6.1/celt/bands.c:1808-1894 | whatever the two alternatives code, with the bytes saved and put back the encoder ends as one that only ever coded the alternative kept |
| `Trial.TrialInvisible` | opus-1.6.1/celt/bands.c:1808-1894 | two encoders with the same calls before and after, one trying both alternatives and one coding only the kept one, finish without error in the same cases and with the same packet |
| `EntCode.EcCtx.Save` | opus-1.6.1/celt/quant_bands.c:295-320 | a copy of the context is a snapshot of the whole history |
| `EntCode.EcCtx.Restore` | opus-1.6.1/celt/quant_bands.c:332-345 | a snapshot put back over its final bytes is a valid encoder for that history |
| `Dred.ChunkLoop` | opus-1.6.1/dnn/dred_encoder.c:345-376 | the copy kept stands for the chunks up to the last active one, or the one after it, that still fit |
| `Dred.KeptLast` | opus-1.6.1/dnn/dred_encoder.c:367-372 | the chunks kept end with one that is active or follows an active one, and no chunk dropped is either |
| `Dred.CodedFit` | opus-1.6.1/dnn/dred_encoder.c:346-366 | the chunks coded all fit, and the next, if there is one, does not |
| `Dred.LatentsOnce` | opus-1.6.1/dnn/dred_decoder.c:42-50 | under given models a packet holds one sequence of latents |
| `Dred.HeaderOnce` | opus-1.6.1/dnn/dred_decoder.c:69-97 | and one header: first quantizer, slope, offset with its form, and the last quantizer up to 15 where it is coded |
| `Dred.ContentOnce` | opus-1.6.1/dnn/dred_decoder.c:69-125 | so it determines header, state and as many chunks as are read of it |
| `Dred.EncodeSilkFrame` | opus-1.6.1/dnn/dred_encoder.c:310-381 | exactly when something is worth sending, the packet has (tell+7)/8 bytes, finishes without error, and is the one an encoder makes that only ever coded the chunks kept, which `Dred.ContentOnce` says are all it can be read as |
| `DredDecoder.QuantizerRises` | opus-1.6.1/dnn/dred_coding.c:39-44 | chunks start at the first quantizer and get no finer; slope 7 is a level a chunk, slope 5 half of that, slope 0 none |
| `DredDecoder.SameQuantizer` | opus-1.6.1/dnn/dred_coding.c:39-44 | the quantizer of a chunk is the same on both sides if and only if not both first and last quantizer are 14 and the slope has reached half a level |
| `DredDecoder.DecodeLatents` | opus-1.6.1/dnn/dred_decoder.c:42-50 | for any packet, the latents it holds under the models given, zeros where nothing is coded |
| `DredDecoder.DecodeHeader` | opus-1.6.1/dnn/dred_decoder.c:69-97 | for any packet, the header it holds, the last quantizer 15 where none is coded |
| `DredDecoder.DredEcDecode` | opus-1.6.1/dnn/dred_decoder.c:52-129 | for any packet, header, state and chunks it holds, each chunk under the quantizer of its place, up to the first point with less than a byte left or the number asked for |
| `DredDecoder.ReadBack` | opus-1.6.1/dnn/dred_decoder.c:107-128 | of a packet sent, the decoder reads header, state and chunks as they were coded, never more chunks than were sent, and all of them if and only if it asks for them and a byte or more was left before the last |
| `DredDecoder.EmptyMissed` | opus-1.6.1/dnn/dred_decoder.c:110-112 | a last chunk with nothing to code is always missed |
| `DredDecoder.RoundTrip` | opus-1.6.1/dnn/dred_encoder.c:310-381 | so it is with encoder and decoder called one after the other, for every frame sent |
| `Boosts.BoostsWithin` | opus-1.6.1/celt/celt_decoder.c:1409-1438 | whatever the boosts, their flags stay within the bits not promised to boosted bands |
| `Boosts.FirstLogp` | opus-1.6.1/celt/celt_encoder.c:2356-2387 | a band's first flag costs six bits, one less for every band boosted before it, but at least two |
| `Boosts.LaterLogp` | opus-1.6.1/celt/celt_encoder.c:2370-2384 | the other flags of a band cost one bit each |
| `Boosts.BoostsOnce` | opus-1.6.1/celt/celt_decoder.c:1409-1438 | one packet, one number of boosts for every band |
| `Boosts.BoostsSame` | opus-1.6.1/celt/celt_encoder.c:2356-2389 | with six bits to spare besides what the boosts promise, the flags do not depend on the size of the packet |
| `Boosts.CodeBoosts` | opus-1.6.1/celt/celt_encoder.c:2356-2389 | the nested loops, coding or reading, leave the boosts of one valid content in `offsets`, and the bits not promised; an encoder's band is boosted as often as wanted while there is room |
| `FrameHeader.HeaderOnce` | opus-1.6.1/celt/celt_decoder.c:1359-1443 | one packet, one header: energy values, resolutions, spread, boosts and trim |
| `FrameHeader.HeaderWithin` | opus-1.6.1/celt/celt_decoder.c:1359-1443 | from a point within the packet the header ends within it, whatever it holds |
| `FrameHeader.HeaderSame` | opus-1.6.1/celt/celt_encoder.c:2424-2434 | the packet may be cut after its header to any size the encoder allows itself: energies, flags, spread, boosts and trim mean the same, bit for bit, to a decoder that only knows the smaller size |
| `FrameHeader.MinAllowedIs` | opus-1.6.1/celt/celt_encoder.c:2428 | the least size is the fewest bytes that hold what is used and promised, and two more |
| `FrameHeader.Quanta` | opus-1.6.1/celt/celt_encoder.c:2367-2369 | a boost is between one and eight eighth-bits a sample, six bits if they are within that, else the nearer end |
| `FrameCoding.FrameOnce` | opus-1.6.1/celt/celt_decoder.c:1359-1453 | one packet, one frame: header and allocation are determined by it |
| `FrameCoding.FrameWithin` | opus-1.6.1/celt/celt_decoder.c:1359-1453 | whatever the frame holds, its bit count stays within the packet |
| `FrameCoding.TotalParts` | opus-1.6.1/celt/celt_encoder.c:2602-2605 | what is used, what the allocator gets, one part more and a bit for the anti-collapse flag of a long transient frame, where there is room for it, are the whole packet |
| `FrameCoding.CutPacket` | opus-1.6.1/celt/celt_encoder.c:2424-2532 | the packet is cut to max(least allowed size, target), if that is smaller, and header and encoder stay valid in it |
| `FrameCoding.EncodeFrame` | opus-1.6.1/celt/celt_encoder.c:2295-2630 | two-pass coarse energy, resolutions, spread, boosts, trim, the cut and the allocation are one valid content of the cut packet; the energies are those of the pass the choice rule decides, the rest what was wanted as far as the bits go |
| `FrameCoding.DecodeFrame` | opus-1.6.1/celt/celt_decoder.c:1359-1453 | from any packet, one valid content and the results that go with it |
| `FrameCoding.RoundTrip` | opus-1.6.1/celt/celt_decoder.c:1359-1453 | for every nonempty packet finishing reports no error, and the decoder's resolutions, boosts, spread, trim and allocation end equal to the encoder's although the packet was cut in between; from equal old energies, and if no first-band value is lost, the energies do so if and only if the encoder's stay within the decoder's bound |

## Left out

- Signal processing, the pulse search and spreading, rate control, transient and tone analysis: their decisions are inputs here.
- The QEXT extension, custom modes, fuzzing, SIMD variants, the floating-point build.
- The literal U(N,K) table: an entry is its recurrence value, with the bounds the look-ups rely on.
- `ec_dec_icdf` tables whose first entry equals the total: the first symbol must have a width, as in every table of the code.
- Integer widths beyond the coder registers: `nbits_total`, `ext`, allocation sums, and `prev` and `tmp` of the energies, are unbounded here; `SHL32` of an energy value and the 16-bit cast of a pulse count do wrap.
- Shifts and masks are written as division and remainder by powers of two; the only or-operations are those whose disjointness is proved.
- `ec_enc_bits` and `ec_dec_bits` with more than 25 bits, which the code asserts away.
- `EntCode.EcCtx.PatchInitialBits`: the bits or-ed in are those of flags already coded, not of an unwritten first byte.
- `EnergyPass.MissesHalf`: leaves out values outside [-128, 128), where `SHL32` wraps.
- `Energy.LevelClosed`: the same values.
- `SplitAngle.DeltaSign`: splits of more than 256 coefficients a side, where `(N-1)<<7` leaves 16 bits.
- `Distortion.LossRange`: energies that move by more than 55 steps in a frame, where the 32-bit sum can wrap.
- `Theta.EncodeTheta`: the signals themselves (`stereo_split`, `intensity_stereo`) and the extension's finer angle; the angle of a mono split with a single step, which is not coded, must be an end or within 64 and 16320, where `bitexact_cos` is defined.
- `Theta.SameContext`: whether a mono split can come without an angle is up to the threshold in `quant_partition`, which is not part of this model.
- `Trial.TryBoth`: the alternatives are any two sequences of coder calls; the band state saved beside the coder is left out.
- `Dred.EncodeSilkFrame`: latents, quantizer tables and voice activity are inputs; entries of the zero-probability table are positive where a latent is coded.
- `DredDecoder.DredEcDecode`: the offset is the one coded, not yet turned into a position; latents are the integers read, before they are scaled.
- `DredDecoder.RoundTrip`: the last quantizer is at most 15, the last row of the tables, and not the one case of `DredDecoder.SameQuantizer`.
- `FrameCoding.EncodeFrame`: silence, post-filter and transient flags before the header, the fine energy, pulses and anti-collapse flag after the allocation, and the extra bytes a hybrid frame keeps; the target size is an input.
