/** The redundancy encoder's loop over chunks: it codes as many as fit, keeps a copy of
    the coder after the last one worth sending, and returns to it. */
module Dred {
  import opened Arith
  import opened Interval
  import opened Flush
  import opened Registers
  import opened EntCode
  import opened LaplaceP0
  import opened Trial

  /** One latent and its model, as in the quantizer tables. */
  datatype Latent = Latent(q: int, p0: nat, r: nat)

  predicate Unused(l: Latent) { l.r == 0 || l.p0 == 255 }

  predicate LegalLatent(l: Latent) { l.r <= 255 && l.p0 <= 255 && (!Unused(l) ==> l.p0 > 0) }

  predicate AllLatents(ls: seq<Latent>) { forall i :: 0 <= i < |ls| ==> LegalLatent(ls[i]) }

  predicate AllChunks(cs: seq<seq<Latent>>) { forall j :: 0 <= j < |cs| ==> AllLatents(cs[j]) }

  function LatentOps(l: Latent): (ops: seq<Op>)
    requires LegalLatent(l)
    ensures AllLegal(ops)
  {
    if Unused(l) then [] else ValueOps(128 * l.p0, 128 * l.r, l.q)
  }

  function LatentsOps(ls: seq<Latent>, n: nat): (ops: seq<Op>)
    requires AllLatents(ls) && n <= |ls|
    ensures AllLegal(ops)
  {
    if n == 0 then [] else LatentsOps(ls, n - 1) + LatentOps(ls[n - 1])
  }

  /** The frame's parameters; `wide` says in which of its two forms the offset stands. */
  datatype Header = Header(q0: nat, dQ: nat, wide: bool, totalOffset: nat, qmax: nat)

  predicate LegalHeader(h: Header) {
    && h.q0 < 16 && h.dQ < 8 && h.totalOffset < 8192 && (h.wide || h.totalOffset < 32)
    && h.q0 <= h.qmax && (QmaxCoded(h) ==> h.q0 < h.qmax)
  }

  /** An encoder uses the long form only where it must. */
  predicate EncoderHeader(h: Header) { LegalHeader(h) && (h.wide <==> h.totalOffset > 31) }

  predicate QmaxCoded(h: Header) { h.q0 < 14 && h.dQ > 0 }

  function OffsetOps(wide: bool, t: nat): (ops: seq<Op>)
    requires t < 8192 && (wide || t < 32)
    ensures AllLegal(ops)
  {
    if wide then UintOps(1, 2) + UintOps(t / 32, 256) + UintOps(t % 32, 32) else UintOps(0, 2) + UintOps(t, 32)
  }

  /** Half of the range is for 15 or more, the rest in equal parts for what is between. */
  function QmaxOp(q0: nat, qmax: nat): (op: Op)
    requires q0 < 14 && q0 < qmax
    ensures Legal(op) && op.Sym?
  {
    var nvals := 14 - q0;
    if qmax >= 15 then Sym(true, 0, nvals, 2 * nvals)
    else Sym(false, nvals + qmax - (q0 + 1), nvals + qmax - q0, 2 * nvals)
  }

  function QmaxOps(h: Header): (ops: seq<Op>)
    requires LegalHeader(h)
    ensures AllLegal(ops)
  {
    if QmaxCoded(h) then [QmaxOp(h.q0, h.qmax)] else []
  }

  function HeaderOps(h: Header): (ops: seq<Op>)
    requires LegalHeader(h)
    ensures AllLegal(ops)
  {
    UintOps(h.q0, 16) + UintOps(h.dQ, 8) + OffsetOps(h.wide, h.totalOffset) + QmaxOps(h)
  }

  /** Header, state and the first n chunks. */
  function DredOps(h: Header, state: seq<Latent>, chunks: seq<seq<Latent>>, n: nat): (ops: seq<Op>)
    requires LegalHeader(h) && AllLatents(state) && AllChunks(chunks) && n <= |chunks|
    ensures AllLegal(ops)
  {
    if n == 0 then HeaderOps(h) + LatentsOps(state, |state|)
    else DredOps(h, state, chunks, n - 1) + LatentsOps(chunks[n - 1], |chunks[n - 1]|)
  }

  /** The span after that. */
  function Span0(h: Header, state: seq<Latent>, chunks: seq<seq<Latent>>, n: nat): (sp: Span)
    requires LegalHeader(h) && AllLatents(state) && AllChunks(chunks) && n <= |chunks|
    ensures Proper(sp)
  {
    StartProper();
    Run(START, DredOps(h, state, chunks, n))
  }

  /** How many chunks are coded before one no longer fits (or they run out). */
  function ChunksCoded(h: Header, state: seq<Latent>, chunks: seq<seq<Latent>>, bytes: nat, n: nat): (r: nat)
    requires LegalHeader(h) && AllLatents(state) && AllChunks(chunks) && n <= |chunks|
    ensures n <= r <= |chunks|
    decreases |chunks| - n
  {
    if n == |chunks| || Tell(Span0(h, state, chunks, n + 1)) > 8 * bytes then n
    else ChunksCoded(h, state, chunks, bytes, n + 1)
  }

  /** Of the first n chunks, those up to the last that is active or follows one. */
  function Kept(active: seq<bool>, n: nat): (k: nat)
    requires n <= |active|
    ensures k <= n
  {
    if n == 0 then 0
    else if active[n - 1] || (n >= 2 && active[n - 2]) then n
    else Kept(active, n - 1)
  }

  // ------------------------------------------------------------- uniqueness

  predicate SameModels(a: seq<Latent>, b: seq<Latent>) {
    |a| == |b| && forall i :: 0 <= i < |a| ==> a[i].p0 == b[i].p0 && a[i].r == b[i].r
  }

  /** Equal where anything was coded. */
  predicate SameLatents(a: seq<Latent>, b: seq<Latent>) {
    SameModels(a, b) && forall i :: 0 <= i < |a| ==> Unused(a[i]) || a[i].q == b[i].q
  }

  lemma LatentOnce(buf: seq<byte>, sp: Span, a: Latent, b: Latent)
    requires Proper(sp) && LegalLatent(a) && LegalLatent(b) && a.p0 == b.p0 && a.r == b.r
    requires Carries(buf, sp, LatentOps(a)) && Carries(buf, sp, LatentOps(b))
    ensures Unused(a) || a.q == b.q
    ensures LatentOps(a) == LatentOps(b)
  {
    hide Carries, ValueOps;
    if !Unused(a) { ValueOnce(buf, sp, 128 * a.p0, 128 * a.r, a.q, b.q); }
  }

  /** One packet, one sequence of latents under given models. */
  lemma {:induction false} LatentsOnce(buf: seq<byte>, sp: Span, a: seq<Latent>, b: seq<Latent>, n: nat)
    requires Proper(sp) && AllLatents(a) && AllLatents(b) && SameModels(a, b) && n <= |a|
    requires Carries(buf, sp, LatentsOps(a, n)) && Carries(buf, sp, LatentsOps(b, n))
    ensures forall i :: 0 <= i < n ==> Unused(a[i]) || a[i].q == b[i].q
    ensures LatentsOps(a, n) == LatentsOps(b, n)
  {
    hide Carries, LatentOps, Run;
    if n > 0 {
      CarriesConcat(buf, sp, LatentsOps(a, n - 1), LatentOps(a[n - 1]));
      CarriesConcat(buf, sp, LatentsOps(b, n - 1), LatentOps(b[n - 1]));
      LatentsOnce(buf, sp, a, b, n - 1);
      LatentOnce(buf, Run(sp, LatentsOps(a, n - 1)), a[n - 1], b[n - 1]);
    }
  }

  lemma QmaxOnce(buf: seq<byte>, sp: Span, q0: nat, a: nat, b: nat)
    requires Proper(sp) && q0 < 14 && q0 < a && q0 < b
    requires ReadsOp(buf, sp, QmaxOp(q0, a)) && ReadsOp(buf, sp, QmaxOp(q0, b))
    ensures Min(a, 15) == Min(b, 15)
  {
    hide ReadsOp;
    if Min(a, 15) < Min(b, 15) {
      QmaxLess(buf, sp, q0, a, b);
    } else if Min(b, 15) < Min(a, 15) {
      QmaxLess(buf, sp, q0, b, a);
    }
  }

  lemma QmaxLess(buf: seq<byte>, sp: Span, q0: nat, a: nat, b: nat)
    requires Proper(sp) && q0 < 14 && q0 < a && q0 < b && Min(a, 15) < Min(b, 15)
    ensures !(ReadsOp(buf, sp, QmaxOp(q0, a)) && ReadsOp(buf, sp, QmaxOp(q0, b)))
  {
    hide ReadsOp;
    if b >= 15 {
      ReadOnce(buf, sp, QmaxOp(q0, b), QmaxOp(q0, a));
    } else {
      ReadOnce(buf, sp, QmaxOp(q0, a), QmaxOp(q0, b));
    }
  }

  lemma OffsetOnce(buf: seq<byte>, sp: Span, w: bool, a: nat, x: bool, b: nat)
    requires Proper(sp) && a < 8192 && (w || a < 32) && b < 8192 && (x || b < 32)
    requires Carries(buf, sp, OffsetOps(w, a)) && Carries(buf, sp, OffsetOps(x, b))
    ensures w == x && a == b
  {
    hide Carries, UintOps, Run;
    var form := UintOps(if w then 1 else 0, 2);
    FormFirst(buf, sp, w, a);
    FormFirst(buf, sp, x, b);
    UintOnce(buf, sp, if w then 1 else 0, if x then 1 else 0, 2);
    var rest := Run(sp, form);
    if w {
      CarriesConcat(buf, sp, form + UintOps(a / 32, 256), UintOps(a % 32, 32));
      CarriesConcat(buf, sp, form + UintOps(b / 32, 256), UintOps(b % 32, 32));
      CarriesConcat(buf, sp, form, UintOps(a / 32, 256));
      CarriesConcat(buf, sp, form, UintOps(b / 32, 256));
      UintOnce(buf, rest, a / 32, b / 32, 256);
      UintOnce(buf, Run(sp, form + UintOps(a / 32, 256)), a % 32, b % 32, 32);
    } else {
      CarriesConcat(buf, sp, form, UintOps(a, 32));
      CarriesConcat(buf, sp, form, UintOps(b, 32));
      UintOnce(buf, rest, a, b, 32);
    }
  }

  lemma FormFirst(buf: seq<byte>, sp: Span, w: bool, a: nat)
    requires Proper(sp) && a < 8192 && (w || a < 32) && Carries(buf, sp, OffsetOps(w, a))
    ensures Carries(buf, sp, UintOps(if w then 1 else 0, 2))
  {
    hide Carries, UintOps, Run;
    if w {
      CarriesConcat(buf, sp, UintOps(1, 2) + UintOps(a / 32, 256), UintOps(a % 32, 32));
      CarriesConcat(buf, sp, UintOps(1, 2), UintOps(a / 32, 256));
    } else {
      CarriesConcat(buf, sp, UintOps(0, 2), UintOps(a, 32));
    }
  }

  /** What a decoder can tell of a header. */
  predicate SameHeader(a: Header, b: Header) {
    && a.q0 == b.q0 && a.dQ == b.dQ && a.wide == b.wide && a.totalOffset == b.totalOffset
    && (QmaxCoded(a) ==> Min(a.qmax, 15) == Min(b.qmax, 15))
  }

  /** The header's fields stand one after the other. */
  lemma HeaderParts(buf: seq<byte>, sp: Span, h: Header)
    requires Proper(sp) && LegalHeader(h) && Carries(buf, sp, HeaderOps(h))
    ensures Carries(buf, sp, UintOps(h.q0, 16)) && Carries(buf, Run(sp, UintOps(h.q0, 16)), UintOps(h.dQ, 8))
    ensures var r := UintOps(h.q0, 16) + UintOps(h.dQ, 8);
      && AllLegal(r) && AllLegal(r + OffsetOps(h.wide, h.totalOffset))
      && Carries(buf, Run(sp, r), OffsetOps(h.wide, h.totalOffset))
      && Carries(buf, Run(sp, r + OffsetOps(h.wide, h.totalOffset)), QmaxOps(h))
  {
    hide Carries, UintOps, OffsetOps, QmaxOps, Run;
    var r := UintOps(h.q0, 16) + UintOps(h.dQ, 8);
    CarriesConcat(buf, sp, r + OffsetOps(h.wide, h.totalOffset), QmaxOps(h));
    CarriesConcat(buf, sp, r, OffsetOps(h.wide, h.totalOffset));
    CarriesConcat(buf, sp, UintOps(h.q0, 16), UintOps(h.dQ, 8));
  }

  /** One packet, one header. */
  lemma HeaderOnce(buf: seq<byte>, sp: Span, a: Header, b: Header)
    requires Proper(sp) && LegalHeader(a) && LegalHeader(b)
    requires Carries(buf, sp, HeaderOps(a)) && Carries(buf, sp, HeaderOps(b))
    ensures SameHeader(a, b) && HeaderOps(a) == HeaderOps(b)
  {
    hide Carries, UintOps, OffsetOps, QmaxOp, Run, ReadsOp;
    HeaderParts(buf, sp, a);
    HeaderParts(buf, sp, b);
    UintOnce(buf, sp, a.q0, b.q0, 16);
    UintOnce(buf, Run(sp, UintOps(a.q0, 16)), a.dQ, b.dQ, 8);
    var r := UintOps(a.q0, 16) + UintOps(a.dQ, 8);
    OffsetOnce(buf, Run(sp, r), a.wide, a.totalOffset, b.wide, b.totalOffset);
    if QmaxCoded(a) {
      var s := Run(sp, r + OffsetOps(a.wide, a.totalOffset));
      CarriesOne(buf, s, QmaxOp(a.q0, a.qmax));
      CarriesOne(buf, s, QmaxOp(b.q0, b.qmax));
      QmaxOnce(buf, s, a.q0, a.qmax, b.qmax);
      SameQmaxOp(a.q0, a.qmax, b.qmax);
    }
  }

  lemma SameQmaxOp(q0: nat, a: nat, b: nat)
    requires q0 < 14 && q0 < a && q0 < b && Min(a, 15) == Min(b, 15)
    ensures QmaxOp(q0, a) == QmaxOp(q0, b)
  {
  }

  /** What one packet determines: header, state and chunks under given models. */
  lemma {:induction false} ContentOnce(buf: seq<byte>, g: Header, s: seq<Latent>, a: seq<seq<Latent>>,
                                       h: Header, t: seq<Latent>, b: seq<seq<Latent>>, n: nat)
    requires Proper(START) && LegalHeader(g) && AllLatents(s) && AllChunks(a) && n <= |a|
    requires LegalHeader(h) && AllLatents(t) && AllChunks(b) && n <= |b|
    requires SameModels(s, t) && forall j :: 0 <= j < n ==> SameModels(a[j], b[j])
    requires Carries(buf, START, DredOps(g, s, a, n)) && Carries(buf, START, DredOps(h, t, b, n))
    ensures SameHeader(g, h) && SameLatents(s, t) && forall j :: 0 <= j < n ==> SameLatents(a[j], b[j])
    ensures DredOps(g, s, a, n) == DredOps(h, t, b, n)
  {
    hide Carries, HeaderOps, LatentsOps, LegalHeader, LegalLatent, Run, SameHeader;
    if n == 0 {
      CarriesConcat(buf, START, HeaderOps(g), LatentsOps(s, |s|));
      CarriesConcat(buf, START, HeaderOps(h), LatentsOps(t, |t|));
      HeaderOnce(buf, START, g, h);
      LatentsOnce(buf, Run(START, HeaderOps(g)), s, t, |s|);
    } else {
      CarriesConcat(buf, START, DredOps(g, s, a, n - 1), LatentsOps(a[n - 1], |a[n - 1]|));
      CarriesConcat(buf, START, DredOps(h, t, b, n - 1), LatentsOps(b[n - 1], |b[n - 1]|));
      ContentOnce(buf, g, s, a, h, t, b, n - 1);
      LatentsOnce(buf, Run(START, DredOps(g, s, a, n - 1)), a[n - 1], b[n - 1], |a[n - 1]|);
    }
  }

  // -------------------------------------------------------------- the encoder

  /** The chunks coded are those that fit, up to the first that does not. */
  lemma {:induction false} CodedFit(h: Header, state: seq<Latent>, chunks: seq<seq<Latent>>, bytes: nat, n: nat, i: nat)
    requires LegalHeader(h) && AllLatents(state) && AllChunks(chunks) && n <= |chunks|
    ensures var r := ChunksCoded(h, state, chunks, bytes, n);
      && (n < i <= r ==> Tell(Span0(h, state, chunks, i)) <= 8 * bytes)
      && (r < |chunks| ==> Tell(Span0(h, state, chunks, r + 1)) > 8 * bytes)
    decreases |chunks| - n
  {
    hide Tell, Span0, LegalHeader, AllLatents, AllChunks;
    if n < |chunks| && Tell(Span0(h, state, chunks, n + 1)) <= 8 * bytes {
      CodedFit(h, state, chunks, bytes, n + 1, i);
    }
  }

  /** Those kept end with the last that is active or follows an active one; what is dropped
      is neither. */
  lemma {:induction false} KeptLast(active: seq<bool>, n: nat, i: nat)
    requires n <= |active|
    ensures var k := Kept(active, n);
      && (k > 0 ==> active[k - 1] || (k >= 2 && active[k - 2]))
      && (k <= i < n ==> !active[i] && (i > 0 ==> !active[i - 1]))
  {
    if n > 0 { KeptLast(active, n - 1, i); }
  }

  /** dred_encode_latents: the entries a table makes impossible are not coded. */
  method EncodeLatents(enc: EcCtx, ls: seq<Latent>)
    requires enc.ValidEnc() && AllLatents(ls)
    modifies enc, enc.buf
    ensures enc.ValidEnc() && enc.ops == old(enc.ops) + LatentsOps(ls, |ls|) && enc.storage == old(enc.storage)
    ensures old(enc.front) <= enc.front && enc.tail == old(enc.tail)
  {
    hide EcCtx.ValidEnc, ValueOps;
    assert enc.ops + [] == enc.ops;
    for i := 0 to |ls|
      invariant enc.ValidEnc() && enc.ops == old(enc.ops) + LatentsOps(ls, i) && enc.storage == old(enc.storage)
      invariant old(enc.front) <= enc.front && enc.tail == old(enc.tail)
    {
      OpsAssoc(old(enc.ops), LatentsOps(ls, i), LatentOps(ls[i]));
      if Unused(ls[i]) {
        assert LatentsOps(ls, i) + [] == LatentsOps(ls, i);
      } else {
        EncodeP0(enc, ls[i].q, 128 * ls[i].p0, 128 * ls[i].r);
      }
    }
  }

  method EncodeOffset(enc: EcCtx, t: nat)
    requires enc.ValidEnc() && t < 8192
    modifies enc, enc.buf
    ensures enc.ValidEnc() && enc.ops == old(enc.ops) + OffsetOps(t > 31, t) && enc.storage == old(enc.storage)
  {
    hide EcCtx.ValidEnc, UintOps;
    if t > 31 {
      enc.EncUint(1, 2);
      enc.EncUint(t / 32, 256);
      enc.EncUint(t % 32, 32);
    } else {
      enc.EncUint(0, 2);
      enc.EncUint(t, 32);
    }
  }

  method EncodeHeader(enc: EcCtx, h: Header)
    requires enc.ValidEnc() && EncoderHeader(h)
    modifies enc, enc.buf
    ensures enc.ValidEnc() && enc.ops == old(enc.ops) + HeaderOps(h) && enc.storage == old(enc.storage)
  {
    hide EcCtx.ValidEnc, UintOps, OffsetOps;
    enc.EncUint(h.q0, 16);
    enc.EncUint(h.dQ, 8);
    EncodeOffset(enc, h.totalOffset);
    if h.q0 < 14 && h.dQ > 0 {
      var nvals := 15 - (h.q0 + 1);
      enc.Encode(if h.qmax >= 15 then 0 else nvals + h.qmax - (h.q0 + 1),
                 if h.qmax >= 15 then nvals else nvals + h.qmax - h.q0, 2 * nvals);
    }
  }

  /** The bytes already final fit in the bits counted. */
  lemma BytesFit(e: EcCtx)
    requires e.ValidEnc()
    ensures 8 * (e.offs + e.endOffs) <= Tell(e.Where())
  {
    hide Num, Digits, Run, ILog, Pow2;
    RunRaw(START, e.ops);
    RangeBits(e.Where());
  }

  /** The copy kept stands for the chunks worth sending so far. */
  ghost predicate Backup(s: Saved, g: Trace, e: EcCtx, h: Header, state: seq<Latent>, chunks: seq<seq<Latent>>, k: nat,
                         bytes: nat)
    reads e
    requires LegalHeader(h) && AllLatents(state) && AllChunks(chunks) && k <= |chunks|
  {
    && Snapshot(s, g) && g.ops == DredOps(h, state, chunks, k) && s.storage == e.storage == bytes
    && g.front <= e.front && e.tail == g.tail && Tell(Span0(h, state, chunks, k)) <= 8 * bytes
  }

  /** One chunk, then the decision whether to keep a copy. */
  method TryChunk(enc: EcCtx, chunk: seq<Latent>, j: nat, maxBytes: nat, ghost h: Header, ghost state: seq<Latent>,
                  ghost chunks: seq<seq<Latent>>, s0: Saved, ghost g0: Trace, worth: bool, ghost k0: nat)
    returns (fits: bool, s: Saved, ghost g: Trace)
    requires LegalHeader(h) && AllLatents(state) && AllChunks(chunks) && j < |chunks| && chunk == chunks[j] && k0 <= j
    requires enc.ValidEnc() && enc.ops == DredOps(h, state, chunks, j)
    requires Backup(s0, g0, enc, h, state, chunks, k0, maxBytes)
    modifies enc, enc.buf
    ensures enc.ValidEnc() && enc.ops == DredOps(h, state, chunks, j + 1)
    ensures fits == (Tell(Span0(h, state, chunks, j + 1)) <= 8 * maxBytes)
    ensures Backup(s, g, enc, h, state, chunks, if fits && worth then j + 1 else k0, maxBytes)
  {
    hide EcCtx.ValidEnc, LatentsOps, Snapshot, Tell, Run, HeaderOps;
    EncodeLatents(enc, chunk);
    enc.EncState();
    fits := enc.EcTell() <= 8 * maxBytes;
    s, g := s0, g0;
    if fits && worth { s, g := enc.Save(); }
  }

  /** What is sent: the copy kept, shrunk to the bytes it needs and finished. */
  method Finish(enc: EcCtx, s: Saved, maxBytes: nat, ghost g: Trace, ghost h: Header, ghost state: seq<Latent>,
                ghost chunks: seq<seq<Latent>>, ghost k: nat) returns (fill: nat)
    requires LegalHeader(h) && AllLatents(state) && AllChunks(chunks) && k <= |chunks|
    requires enc.ValidEnc() && Backup(s, g, enc, h, state, chunks, k, maxBytes)
    modifies enc, enc.buf
    ensures fill == (Tell(Span0(h, state, chunks, k)) + 7) / 8 <= maxBytes <= enc.buf.Length && enc.error == 0
    ensures PacketOf(enc.buf[..fill], h, state, chunks, k)
  {
    hide EcCtx.ValidEnc, DredOps, Snapshot, Tell, Run, Num, Carries, RawOf, FlushLen, CodeWord;
    SuffixSelf(enc.tail);
    BytesKept(enc, s, g);
    enc.Restore(s, g);
    enc.EncState();
    BytesFit(enc);
    fill := (enc.EcTell() + 7) / 8;
    TellFits(enc.Where(), fill);
    TellFits(enc.Where(), maxBytes);
    enc.Shrink(fill);
    enc.Done();
  }

  lemma SuffixSelf(a: seq<byte>)
    ensures Suffix(a, a)
  {
  }

  /** The packet is the one an encoder makes that coded just k chunks, and a decoder
      reads exactly those. */
  ghost predicate PacketOf(packet: seq<byte>, h: Header, state: seq<Latent>, chunks: seq<seq<Latent>>, k: nat)
    requires LegalHeader(h) && AllLatents(state) && AllChunks(chunks) && k <= |chunks|
  {
    var ops := DredOps(h, state, chunks, k);
    && Proper(START) && Flush.Fits(Run(START, ops), |packet|)
    && Num(packet) == PacketNum(Run(START, ops), RawOf(ops), |packet|) && Carries(packet, START, ops)
  }

  /** The loop over chunks; returns how many bytes' worth of chunks is kept, twice over. */
  method ChunkLoop(enc: EcCtx, maxBytes: nat, active: seq<bool>, s0: Saved, ghost g0: Trace,
                   chunks: seq<seq<Latent>>, ghost h: Header, ghost state: seq<Latent>)
    returns (dredEncoded: nat, s: Saved, ghost g: Trace)
    requires LegalHeader(h) && AllLatents(state) && AllChunks(chunks) && |active| == |chunks|
    requires enc.ValidEnc() && enc.ops == DredOps(h, state, chunks, 0)
    requires Backup(s0, g0, enc, h, state, chunks, 0, maxBytes)
    modifies enc, enc.buf
    ensures enc.ValidEnc()
    ensures var k := Kept(active, ChunksCoded(h, state, chunks, maxBytes, 0));
      dredEncoded == 2 * k && Backup(s, g, enc, h, state, chunks, k, maxBytes)
  {
    hide EcCtx.ValidEnc, LatentsOps, Tell, Run, LegalHeader, DredOps, Backup, LegalLatent;
    s, g := s0, g0;
    dredEncoded := 0;
    var prevActive, j := false, 0;
    while j < |chunks|
      invariant 0 <= j <= |chunks| && enc.ValidEnc() && enc.ops == DredOps(h, state, chunks, j)
      invariant dredEncoded == 2 * Kept(active, j) && prevActive == (j > 0 && active[j - 1])
      invariant Backup(s, g, enc, h, state, chunks, Kept(active, j), maxBytes)
      invariant ChunksCoded(h, state, chunks, maxBytes, 0) == ChunksCoded(h, state, chunks, maxBytes, j)
    {
      var worth := active[j] || prevActive;
      var fits;
      fits, s, g := TryChunk(enc, chunks[j], j, maxBytes, h, state, chunks, s, g, worth, Kept(active, j));
      if !fits { break; }  // with j == 0 nothing is kept, and nothing is sent
      if worth { dredEncoded := 2 * (j + 1); }
      prevActive := active[j];
      j := j + 1;
    }
  }

  /** What comes before the chunks. */
  method StartFrame(buf: array<byte>, maxBytes: nat, h: Header, state: seq<Latent>, ghost chunks: seq<seq<Latent>>)
    returns (enc: EcCtx)
    requires maxBytes <= buf.Length && EncoderHeader(h) && AllLatents(state) && AllChunks(chunks)
    modifies buf
    ensures fresh(enc) && enc.buf == buf && enc.storage == maxBytes && enc.ValidEnc()
    ensures enc.ops == DredOps(h, state, chunks, 0)
  {
    hide EcCtx.ValidEnc, LatentsOps, HeaderOps, LegalHeader, AllChunks;
    enc := new EcCtx.EncInit(buf, maxBytes);
    EncodeHeader(enc, h);
    EncodeLatents(enc, state);
    assert [] + HeaderOps(h) + LatentsOps(state, |state|) == DredOps(h, state, chunks, 0);
  }

  /** dred_encode_silk_frame from the coder's initialization on: `active` says which
      chunks have voice activity, `extra` whether silence was skipped before them. */
  method EncodeSilkFrame(buf: array<byte>, maxBytes: nat, h: Header, state: seq<Latent>, chunks: seq<seq<Latent>>,
                     active: seq<bool>, extra: bool) returns (fill: nat)
    requires maxBytes <= buf.Length && EncoderHeader(h) && AllLatents(state) && AllChunks(chunks)
    requires |active| == |chunks|
    modifies buf
    ensures var k := Kept(active, ChunksCoded(h, state, chunks, maxBytes, 0));
      if Tell(Span0(h, state, chunks, 0)) <= 8 * maxBytes && k > 0 && !(k == 1 && extra) then
        fill == (Tell(Span0(h, state, chunks, k)) + 7) / 8 <= maxBytes && PacketOf(buf[..fill], h, state, chunks, k)
      else fill == 0
  {
    hide EcCtx.ValidEnc, Snapshot, Tell, Run, LegalHeader, AllChunks, PacketOf, DredOps, ChunksCoded, Kept;
    var enc := StartFrame(buf, maxBytes, h, state, chunks);
    enc.EncState();
    if enc.EcTell() > 8 * maxBytes { return 0; }
    var s, g := enc.Save();
    var dredEncoded;
    dredEncoded, s, g := ChunkLoop(enc, maxBytes, active, s, g, chunks, h, state);
    if dredEncoded == 0 || (dredEncoded <= 2 && extra) { return 0; }
    fill := Finish(enc, s, maxBytes, g, h, state, chunks, Kept(active, ChunksCoded(h, state, chunks, maxBytes, 0)));
  }
}
