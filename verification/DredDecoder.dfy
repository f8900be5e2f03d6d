/** The redundancy decoder: it reads header, state and chunks until less than a byte of the
    packet is left, and so reads what the encoder kept. */
module DredDecoder {
  import opened Arith
  import opened Interval
  import Flush
  import opened EntCode
  import opened Duplex
  import opened LaplaceP0
  import opened Dred

  const DQ_TABLE: seq<nat> := [0, 2, 3, 4, 6, 8, 12, 16]

  /** How many levels, times sixteen, chunk i is coarser than the first. */
  function Slope(h: Header, i: nat): nat
    requires LegalHeader(h)
  {
    MulNat(DQ_TABLE[h.dQ], i);
    DQ_TABLE[h.dQ] * i
  }

  /** compute_quantizer */
  function Quantizer(h: Header, i: nat): (q: nat)
    requires LegalHeader(h)
    ensures h.q0 <= q <= h.qmax
  {
    Min(h.q0 + (Slope(h, i) + 8) / 16, h.qmax)
  }

  /** The chunks start at the first quantizer and get no finer; the steepest slope is a level
      a chunk, the sixth half of that, and slope zero stays. */
  lemma QuantizerRises(h: Header, i: nat, j: nat)
    requires LegalHeader(h) && i <= j
    ensures Quantizer(h, 0) == h.q0 && Quantizer(h, i) <= Quantizer(h, j)
    ensures h.dQ == 0 ==> Quantizer(h, i) == h.q0
    ensures h.dQ == 5 ==> Quantizer(h, i) == Min(h.q0 + (i + 1) / 2, h.qmax)
    ensures h.dQ == 7 ==> Quantizer(h, i) == Min(h.q0 + i, h.qmax)
    ensures forall d: nat :: d < h.dQ ==> DQ_TABLE[d] < DQ_TABLE[h.dQ]
  {
    MulMono(i, j, DQ_TABLE[h.dQ]);
    assert Slope(h, i) == i * DQ_TABLE[h.dQ] && Slope(h, j) == j * DQ_TABLE[h.dQ];
    assert h.dQ == 0 ==> Slope(h, i) == 0;
    assert h.dQ == 5 ==> Slope(h, i) == 8 * i;
    assert h.dQ == 7 ==> Slope(h, i) == 16 * i;
    hide Slope;
  }

  /** One entry of the quantizer tables, and its rows for state and latents. */
  datatype Cell = Cell(p0: nat, r: nat)

  datatype Tables = Tables(state: seq<seq<Cell>>, latents: seq<seq<Cell>>)

  predicate LegalCells(cs: seq<Cell>) { forall i :: 0 <= i < |cs| ==> LegalLatent(Latent(0, cs[i].p0, cs[i].r)) }

  predicate ValidTables(t: Tables) {
    && |t.state| == |t.latents| == 16
    && forall q :: 0 <= q < 16 ==> LegalCells(t.state[q]) && LegalCells(t.latents[q])
  }

  predicate HasModels(ls: seq<Latent>, cs: seq<Cell>) {
    |ls| == |cs| && forall i :: 0 <= i < |ls| ==> ls[i].p0 == cs[i].p0 && ls[i].r == cs[i].r
  }

  /** Both sides take the models from the tables, row by quantizer. */
  predicate OnTables(t: Tables, h: Header, state: seq<Latent>, chunks: seq<seq<Latent>>, n: nat) {
    && ValidTables(t) && LegalHeader(h) && h.qmax <= 15 && HasModels(state, t.state[h.q0]) && n <= |chunks|
    && forall i :: 0 <= i < n ==> HasModels(chunks[i], t.latents[Quantizer(h, i)])
  }

  /** What is not coded is read as zero. */
  predicate Zeroed(ls: seq<Latent>) { forall i :: 0 <= i < |ls| ==> Unused(ls[i]) ==> ls[i].q == 0 }

  /** Without a symbol for it a decoder takes the largest quantizer. */
  predicate Plain(h: Header) { LegalHeader(h) && h.qmax <= 15 && (!QmaxCoded(h) ==> h.qmax == 15) }

  /** A header's quantizers mean the same to a decoder, but for one combination: first and
      last quantizer 14 and a slope, which only the encoder can see has nowhere to go. */
  lemma SameQuantizer(g: Header, h: Header, i: nat)
    requires LegalHeader(g) && g.qmax <= 15 && Plain(h) && SameHeader(g, h)
    ensures Quantizer(g, i) == Quantizer(h, i) <==> !(g.q0 == g.qmax == 14 && Slope(g, i) >= 8)
  {
    if g.dQ == 0 { assert Slope(g, i) == 0; }
    hide Slope;
    assert Slope(g, i) == Slope(h, i) by { SameSlope(g, h, i); }
  }

  lemma SameSlope(g: Header, h: Header, i: nat)
    requires LegalHeader(g) && LegalHeader(h) && g.dQ == h.dQ
    ensures Slope(g, i) == Slope(h, i)
  {
  }

  // --------------------------------------------------------------- the decoder

  lemma {:induction false} LatentsPrefix(a: seq<Latent>, b: seq<Latent>, n: nat)
    requires AllLatents(a) && AllLatents(b) && n <= |a| && n <= |b| && a[..n] == b[..n]
    ensures LatentsOps(a, n) == LatentsOps(b, n)
  {
    hide LatentOps;
    if n > 0 {
      assert a[..n][n - 1] == b[..n][n - 1];
      assert a[..n - 1] == a[..n][..n - 1] && b[..n - 1] == b[..n][..n - 1];
      LatentsPrefix(a, b, n - 1);
    }
  }

  /** One latent. */
  method DecodeLatent(dec: EcCtx, c: Cell, ghost from: Origin, ghost steps: seq<Op>) returns (l: Latent)
    requires At(dec, false, from, steps) && LegalLatent(Latent(0, c.p0, c.r))
    modifies dec
    ensures LegalLatent(l) && l.p0 == c.p0 && l.r == c.r && (Unused(l) ==> l.q == 0)
    ensures At(dec, false, from, steps + LatentOps(l))
  {
    hide Run, Carries, EcCtx.ValidDec, ValueOps;
    l := Latent(0, c.p0, c.r);
    if Unused(l) {
      assert steps + LatentOps(l) == steps;
    } else {
      var q := DecodeP0(dec, 128 * c.p0, 128 * c.r);
      l := Latent(q, c.p0, c.r);
      CarriesConcat(from.data, from.sp, steps, LatentOps(l));
      RunConcat(from.sp, steps, LatentOps(l));
    }
  }

  /** dred_decode_latents */
  method DecodeLatents(dec: EcCtx, cs: seq<Cell>, ghost from: Origin, ghost steps: seq<Op>) returns (ls: seq<Latent>)
    requires At(dec, false, from, steps) && LegalCells(cs)
    modifies dec
    ensures AllLatents(ls) && HasModels(ls, cs) && Zeroed(ls)
    ensures At(dec, false, from, steps + LatentsOps(ls, |ls|))
  {
    hide At, LatentOps, LegalLatent, Unused;
    ls := [];
    assert steps + LatentsOps(ls, 0) == steps;
    for i := 0 to |cs|
      invariant |ls| == i && AllLatents(ls) && HasModels(ls, cs[..i]) && Zeroed(ls)
      invariant At(dec, false, from, steps + LatentsOps(ls, |ls|))
    {
      ghost var before := ls;
      var l := DecodeLatent(dec, cs[i], from, steps + LatentsOps(ls, |ls|));
      ls := ls + [l];
      assert ls[..i] == before[..i];
      LatentsPrefix(ls, before, i);
      OpsAssoc(steps, LatentsOps(before, i), LatentOps(l));
    }
    assert cs[..|cs|] == cs;
  }

  /** The symbol for the largest quantizer: the lower half of the range stands for 15. */
  method DecodeQmax(dec: EcCtx, q0: nat, ghost from: Origin, ghost steps: seq<Op>) returns (qmax: nat)
    requires At(dec, false, from, steps) && q0 < 14
    modifies dec
    ensures q0 < qmax <= 15 && At(dec, false, from, steps + [QmaxOp(q0, qmax)])
  {
    hide Run, Carries, EcCtx.ValidDec, ReadsOp, PointedAt, Step;
    var nvals := 15 - (q0 + 1);
    var ft := 2 * nvals;
    var s := dec.Decode(ft);
    if s >= nvals {
      qmax := q0 + (s - nvals) + 1;
      dec.DecodedIn(s, s + 1, ft);
      dec.DecUpdate(s, s + 1, ft);
    } else {
      qmax := 15;
      dec.DecodedIn(0, nvals, ft);
      dec.DecUpdate(0, nvals, ft);
    }
    CarriesSnoc(from.data, from.sp, steps, QmaxOp(q0, qmax));
    RunSnoc(from.sp, steps, QmaxOp(q0, qmax));
  }

  method DecodeOffset(dec: EcCtx, ghost from: Origin, ghost steps: seq<Op>) returns (wide: bool, t: nat)
    requires At(dec, false, from, steps)
    modifies dec, dec.buf
    ensures t < 8192 && (wide || t < 32) && At(dec, false, from, steps + OffsetOps(wide, t))
  {
    hide At, UintOps;
    var flag := CodeUint(dec, false, 0, 2, from, steps);
    wide := flag != 0;
    var extra := 0;
    ghost var form := UintOps(flag, 2);
    if wide {
      extra := CodeUint(dec, false, 0, 256, from, steps + form);
      OpsAssoc(steps, form, UintOps(extra, 256));
      form := form + UintOps(extra, 256);
    }
    var low := CodeUint(dec, false, 0, 32, from, steps + form);
    OpsAssoc(steps, form, UintOps(low, 32));
    t := 32 * extra + low;
    DivUnique(t, 32, extra, low);
  }

  method DecodeHeader(dec: EcCtx, ghost from: Origin) returns (h: Header)
    requires At(dec, false, from, [])
    modifies dec, dec.buf
    ensures Plain(h) && At(dec, false, from, HeaderOps(h))
  {
    hide At, UintOps, OffsetOps, QmaxOp;
    var q0 := CodeUint(dec, false, 0, 16, from, []);
    var dQ := CodeUint(dec, false, 0, 8, from, [] + UintOps(q0, 16));
    assert [] + UintOps(q0, 16) == UintOps(q0, 16);
    ghost var r := UintOps(q0, 16) + UintOps(dQ, 8);
    var wide, t := DecodeOffset(dec, from, r);
    var qmax := 15;
    if q0 < 14 && dQ > 0 {
      qmax := DecodeQmax(dec, q0, from, r + OffsetOps(wide, t));
    }
    h := Header(q0, dQ, wide, t, qmax);
    assert !QmaxCoded(h) ==> r + OffsetOps(wide, t) + QmaxOps(h) == r + OffsetOps(wide, t);
  }

  /** How many chunks a caller can ask for. */
  function Limit(minFeatureFrames: nat): nat { (Min(52, (minFeatureFrames + 1) / 2) + 1) / 2 }

  /** Less than a byte is left after n chunks. */
  predicate Full(size: nat, h: Header, state: seq<Latent>, chunks: seq<seq<Latent>>, n: nat)
    requires LegalHeader(h) && AllLatents(state) && AllChunks(chunks) && n <= |chunks|
  {
    8 * size - Tell(Span0(h, state, chunks, n)) <= 7
  }

  /** Before none of the chunks. */
  predicate NoneFull(size: nat, h: Header, state: seq<Latent>, chunks: seq<seq<Latent>>)
    requires LegalHeader(h) && AllLatents(state) && AllChunks(chunks)
  {
    forall n :: 0 <= n < |chunks| ==> !Full(size, h, state, chunks, n)
  }

  predicate AllZeroed(chunks: seq<seq<Latent>>) { forall i :: 0 <= i < |chunks| ==> Zeroed(chunks[i]) }

  /** What a decoder that has read these chunks knows. */
  ghost predicate Read(data: seq<byte>, t: Tables, h: Header, state: seq<Latent>, chunks: seq<seq<Latent>>) {
    && Plain(h) && AllLatents(state) && AllChunks(chunks) && OnTables(t, h, state, chunks, |chunks|)
    && Zeroed(state) && AllZeroed(chunks)
    && Proper(START) && Carries(data, START, DredOps(h, state, chunks, |chunks|))
    && NoneFull(|data|, h, state, chunks)
  }

  lemma {:induction false} DredPrefix(h: Header, state: seq<Latent>, a: seq<seq<Latent>>, b: seq<seq<Latent>>, n: nat)
    requires LegalHeader(h) && AllLatents(state) && AllChunks(a) && AllChunks(b) && n <= |a| && n <= |b|
    requires a[..n] == b[..n]
    ensures DredOps(h, state, a, n) == DredOps(h, state, b, n)
  {
    hide LatentsOps, HeaderOps, LegalHeader;
    if n > 0 {
      assert a[..n][n - 1] == b[..n][n - 1];
      assert a[..n - 1] == a[..n][..n - 1] && b[..n - 1] == b[..n][..n - 1];
      DredPrefix(h, state, a, b, n - 1);
    }
  }

  /** The origin of a decoder of this packet. */
  ghost function PacketStart(data: seq<byte>): Origin { Origin([], data, START) }

  /** One more chunk. */
  lemma ReadMore(data: seq<byte>, t: Tables, h: Header, state: seq<Latent>, chunks: seq<seq<Latent>>, c: seq<Latent>,
                 dec: EcCtx)
    requires Read(data, t, h, state, chunks) && !Full(|data|, h, state, chunks, |chunks|)
    requires AllLatents(c) && HasModels(c, t.latents[Quantizer(h, |chunks|)]) && Zeroed(c)
    requires At(dec, false, PacketStart(data), DredOps(h, state, chunks, |chunks|) + LatentsOps(c, |c|))
    ensures Read(data, t, h, state, chunks + [c])
    ensures At(dec, false, PacketStart(data), DredOps(h, state, chunks + [c], |chunks| + 1))
  {
    hide *;
    ReadParts(data, t, h, state, chunks);
    MoreLegal(chunks, c);
    MoreOnTables(t, h, state, chunks, c);
    MoreOps(h, state, chunks, c);
    MoreNoneFull(|data|, h, state, chunks, c);
    MoreZeroed(chunks, c);
    CarriedAt(dec, data, DredOps(h, state, chunks + [c], |chunks| + 1));
    ReadJoined(data, t, h, state, chunks + [c]);
  }

  lemma ReadParts(data: seq<byte>, t: Tables, h: Header, state: seq<Latent>, chunks: seq<seq<Latent>>)
    requires Read(data, t, h, state, chunks)
    ensures Plain(h) && LegalHeader(h) && AllLatents(state) && AllChunks(chunks) && Zeroed(state) && AllZeroed(chunks)
    ensures OnTables(t, h, state, chunks, |chunks|) && NoneFull(|data|, h, state, chunks)
    ensures Quantizer(h, |chunks|) < |t.latents|
  {
    hide AllLatents, AllChunks, Zeroed, AllZeroed, NoneFull, HasModels, LegalCells, Run, Carries, DredOps, QmaxCoded;
  }

  lemma ReadJoined(data: seq<byte>, t: Tables, h: Header, state: seq<Latent>, chunks: seq<seq<Latent>>)
    requires Plain(h) && LegalHeader(h) && AllLatents(state) && AllChunks(chunks) && Zeroed(state) && AllZeroed(chunks)
    requires OnTables(t, h, state, chunks, |chunks|) && NoneFull(|data|, h, state, chunks)
    requires Proper(START) && Carries(data, START, DredOps(h, state, chunks, |chunks|))
    ensures Read(data, t, h, state, chunks)
  {
    hide Plain, LegalHeader, AllLatents, AllChunks, Zeroed, AllZeroed, NoneFull, OnTables, Run, Carries, DredOps;
  }

  lemma CarriedAt(dec: EcCtx, data: seq<byte>, ops: seq<Op>)
    requires At(dec, false, PacketStart(data), ops)
    ensures Proper(START) && AllLegal(ops) && Carries(data, START, ops)
  {
    hide Run, Carries, EcCtx.ValidDec;
  }

  lemma MoreZeroed(chunks: seq<seq<Latent>>, c: seq<Latent>)
    requires AllZeroed(chunks) && Zeroed(c)
    ensures AllZeroed(chunks + [c])
  {
    hide Zeroed;
  }

  lemma MoreNoneFull(size: nat, h: Header, state: seq<Latent>, chunks: seq<seq<Latent>>, c: seq<Latent>)
    requires LegalHeader(h) && AllLatents(state) && AllChunks(chunks) && AllChunks(chunks + [c])
    requires NoneFull(size, h, state, chunks) && !Full(size, h, state, chunks, |chunks|)
    ensures NoneFull(size, h, state, chunks + [c])
  {
    hide LegalHeader, AllLatents, AllChunks, Full;
    forall m | 0 <= m <= |chunks| ensures !Full(size, h, state, chunks + [c], m) {
      assert (chunks + [c])[..m] == chunks[..m];
      FullPrefix(size, h, state, chunks + [c], chunks, m);
    }
  }

  lemma MoreOnTables(t: Tables, h: Header, state: seq<Latent>, chunks: seq<seq<Latent>>, c: seq<Latent>)
    requires OnTables(t, h, state, chunks, |chunks|) && LegalHeader(h) && Quantizer(h, |chunks|) < |t.latents|
    requires HasModels(c, t.latents[Quantizer(h, |chunks|)])
    ensures OnTables(t, h, state, chunks + [c], |chunks| + 1)
  {
    hide HasModels, Quantizer, LegalCells, LegalHeader;
  }

  lemma MoreLegal(chunks: seq<seq<Latent>>, c: seq<Latent>)
    requires AllChunks(chunks) && AllLatents(c)
    ensures AllChunks(chunks + [c])
  {
    hide AllLatents;
  }

  lemma FullPrefix(size: nat, h: Header, state: seq<Latent>, a: seq<seq<Latent>>, b: seq<seq<Latent>>, m: nat)
    requires LegalHeader(h) && AllLatents(state) && AllChunks(a) && AllChunks(b) && m <= |a| && m <= |b|
    requires a[..m] == b[..m]
    ensures Full(size, h, state, a, m) == Full(size, h, state, b, m)
  {
    hide AllLatents, AllChunks, LegalHeader, Run, Tell, DredOps;
    DredPrefix(h, state, a, b, m);
  }

  lemma MoreOps(h: Header, state: seq<Latent>, chunks: seq<seq<Latent>>, c: seq<Latent>)
    requires LegalHeader(h) && AllLatents(state) && AllChunks(chunks) && AllLatents(c) && AllChunks(chunks + [c])
    ensures DredOps(h, state, chunks + [c], |chunks| + 1) == DredOps(h, state, chunks, |chunks|) + LatentsOps(c, |c|)
  {
    hide *;
    var more, n := chunks + [c], |chunks|;
    assert more[..n] == chunks[..n];
    DredPrefix(h, state, more, chunks, n);
    OpsMore(h, state, more, n);
  }

  lemma OpsMore(h: Header, state: seq<Latent>, chunks: seq<seq<Latent>>, n: nat)
    requires LegalHeader(h) && AllLatents(state) && AllChunks(chunks) && n < |chunks|
    ensures AllLatents(chunks[n])
    ensures DredOps(h, state, chunks, n + 1) == DredOps(h, state, chunks, n) + LatentsOps(chunks[n], |chunks[n]|)
  {
    hide AllLatents, LatentsOps, HeaderOps, LegalHeader;
  }

  /** One chunk, under the quantizer of its place. */
  method DecodeChunk(dec: EcCtx, t: Tables, n: nat, ghost data: seq<byte>, h: Header, ghost state: seq<Latent>,
                     chunks: seq<seq<Latent>>) returns (more: seq<seq<Latent>>)
    requires Read(data, t, h, state, chunks) && !Full(|data|, h, state, chunks, |chunks|) && n == |chunks|
    requires At(dec, false, PacketStart(data), DredOps(h, state, chunks, |chunks|))
    modifies dec, dec.buf
    ensures |more| == |chunks| + 1 && Read(data, t, h, state, more)
    ensures At(dec, false, PacketStart(data), DredOps(h, state, more, |more|))
  {
    hide At, DredOps, LatentsOps, HeaderOps, HasModels, Zeroed, LegalCells, Full, LegalLatent, Tell, Run, Quantizer;
    RowHere(data, t, h, state, chunks);
    var c := DecodeLatents(dec, t.latents[Quantizer(h, n)], PacketStart(data), DredOps(h, state, chunks, |chunks|));
    ReadMore(data, t, h, state, chunks, c, dec);
    more := chunks + [c];
  }

  /** What comes before the chunks. */
  method DecodeStart(buf: array<byte>, size: nat, t: Tables)
    returns (dec: EcCtx, h: Header, state: seq<Latent>)
    requires size <= buf.Length && ValidTables(t)
    modifies buf
    ensures fresh(dec) && dec.buf == buf && Read(old(buf[..size]), t, h, state, [])
    ensures At(dec, false, PacketStart(old(buf[..size])), DredOps(h, state, [], 0))
  {
    hide At, LatentsOps, HeaderOps, HasModels, Zeroed, LegalCells, Read, LegalLatent, DredOps;
    dec := new EcCtx.DecInit(buf, size);
    ghost var data := buf[..size];
    FreshAt(dec, data);
    h := DecodeHeader(dec, PacketStart(data));
    state := DecodeLatents(dec, t.state[h.q0], PacketStart(data), HeaderOps(h));
    ReadNone(data, t, h, state, dec);
  }

  /** dred_ec_decode */
  method DredEcDecode(buf: array<byte>, size: nat, t: Tables, minFeatureFrames: nat)
    returns (h: Header, state: seq<Latent>, chunks: seq<seq<Latent>>)
    requires size <= buf.Length && ValidTables(t)
    modifies buf
    ensures Read(old(buf[..size]), t, h, state, chunks) && |chunks| <= Limit(minFeatureFrames)
    ensures LegalHeader(h) && AllLatents(state) && AllChunks(chunks)
    ensures |chunks| == Limit(minFeatureFrames) || Full(size, h, state, chunks, |chunks|)
  {
    ghost var data := buf[..size];
    hide At, DredOps, Read, Full, LegalHeader, AllLatents, AllChunks, ValidTables;
    var dec;
    dec, h, state := DecodeStart(buf, size, t);
    chunks := [];
    var i := 0;
    ReadFacts(data, t, h, state, chunks);
    while i < Min(52, (minFeatureFrames + 1) / 2)
      invariant i == 2 * |chunks| && |chunks| <= Limit(minFeatureFrames)
      invariant fresh(dec) && dec.buf == buf
      invariant Read(data, t, h, state, chunks) && LegalHeader(h) && AllLatents(state) && AllChunks(chunks)
      invariant At(dec, false, PacketStart(data), DredOps(h, state, chunks, |chunks|))
    {
      FullHere(dec, data, h, state, chunks);
      if 8 * size - dec.EcTell() <= 7 { break; }
      chunks := DecodeChunk(dec, t, i / 2, data, h, state, chunks);
      ReadFacts(data, t, h, state, chunks);
      i := i + 2;
    }
  }

  lemma FreshAt(dec: EcCtx, data: seq<byte>)
    requires dec.ValidDec() && dec.data == data && dec.pos == START
    ensures At(dec, false, PacketStart(data), [])
  {
    StartProper();
    RunNothing(data, START);
    hide EcCtx.ValidDec;
  }

  lemma ReadNone(data: seq<byte>, t: Tables, h: Header, state: seq<Latent>, dec: EcCtx)
    requires ValidTables(t) && Plain(h) && AllLatents(state) && HasModels(state, t.state[h.q0]) && Zeroed(state)
    requires At(dec, false, PacketStart(data), HeaderOps(h) + LatentsOps(state, |state|))
    ensures Read(data, t, h, state, []) && At(dec, false, PacketStart(data), DredOps(h, state, [], 0))
  {
    hide LatentsOps, HeaderOps, LegalLatent, HasModels, Zeroed, Run, Carries, EcCtx.ValidDec;
  }

  lemma FullHere(dec: EcCtx, data: seq<byte>, h: Header, state: seq<Latent>, chunks: seq<seq<Latent>>)
    requires LegalHeader(h) && AllLatents(state) && AllChunks(chunks)
    requires At(dec, false, PacketStart(data), DredOps(h, state, chunks, |chunks|))
    ensures Full(|data|, h, state, chunks, |chunks|) <==> 8 * |data| - dec.EcTell() <= 7
  {
    hide DredOps, Tell, Run, LegalHeader;
    TellAt(dec, false, PacketStart(data), DredOps(h, state, chunks, |chunks|));
  }

  lemma RowHere(data: seq<byte>, t: Tables, h: Header, state: seq<Latent>, chunks: seq<seq<Latent>>)
    requires Read(data, t, h, state, chunks)
    ensures LegalHeader(h) && ValidTables(t) && Quantizer(h, |chunks|) < 16 == |t.latents|
    ensures LegalCells(t.latents[Quantizer(h, |chunks|)])
  {
    hide LatentsOps, DredOps, LegalLatent, HasModels, Zeroed, LegalCells, Carries, Tell, Run;
  }

  // --------------------------------------------------------------- both sides

  /** What the encoder sent: k chunks in a packet of just the bytes they need. */
  ghost predicate SentPacket(data: seq<byte>, t: Tables, g: Header, s: seq<Latent>, a: seq<seq<Latent>>, k: nat) {
    && AllLatents(s) && AllChunks(a) && OnTables(t, g, s, a, k) && PacketOf(data, g, s, a, k)
    && |data| == (Tell(Span0(g, s, a, k)) + 7) / 8
  }

  /** The quantizer is to rise above 14, where the encoder's header allows none. */
  predicate Stuck(g: Header, k: nat)
    requires LegalHeader(g)
  {
    g.q0 == g.qmax == 14 && k > 0 && Slope(g, k - 1) >= 8
  }

  lemma {:induction false} DredFirst(data: seq<byte>, h: Header, state: seq<Latent>, a: seq<seq<Latent>>, k: nat,
                                     n: nat)
    requires Proper(START) && LegalHeader(h) && AllLatents(state) && AllChunks(a) && n <= k <= |a|
    requires Carries(data, START, DredOps(h, state, a, k))
    ensures Carries(data, START, DredOps(h, state, a, n))
    ensures Tell(Span0(h, state, a, n)) <= Tell(Span0(h, state, a, k))
    decreases k
  {
    hide LatentsOps, HeaderOps, LegalHeader, Carries, Run, Tell;
    if n < k {
      var last := LatentsOps(a[k - 1], |a[k - 1]|);
      CarriesConcat(data, START, DredOps(h, state, a, k - 1), last);
      RunConcat(START, DredOps(h, state, a, k - 1), last);
      RunTellMono(Span0(h, state, a, k - 1), last);
      DredFirst(data, h, state, a, k - 1, n);
    }
  }

  lemma SameHead(data: seq<byte>, g: Header, s: seq<Latent>, a: seq<seq<Latent>>, h: Header, t: seq<Latent>,
                 b: seq<seq<Latent>>)
    requires Proper(START) && LegalHeader(g) && AllLatents(s) && AllChunks(a)
    requires LegalHeader(h) && AllLatents(t) && AllChunks(b)
    requires Carries(data, START, DredOps(g, s, a, 0)) && Carries(data, START, DredOps(h, t, b, 0))
    ensures SameHeader(g, h)
  {
    hide LatentsOps, HeaderOps, LegalHeader, Carries, Run, SameHeader;
    CarriesConcat(data, START, HeaderOps(g), LatentsOps(s, |s|));
    CarriesConcat(data, START, HeaderOps(h), LatentsOps(t, |t|));
    HeaderOnce(data, START, g, h);
  }

  lemma SameRows(t: Tables, g: Header, a: seq<seq<Latent>>, h: Header, b: seq<seq<Latent>>, s: seq<Latent>,
                 state: seq<Latent>, k: nat, m: nat, i: nat)
    requires OnTables(t, g, s, a, k) && OnTables(t, h, state, b, m) && Plain(h) && SameHeader(g, h)
    requires i < k && i < m && !Stuck(g, k)
    ensures SameModels(a[i], b[i])
  {
    MulMono(i, k - 1, DQ_TABLE[g.dQ]);
    assert Slope(g, i) <= Slope(g, k - 1);
    SameQuantizer(g, h, i);
    hide Quantizer, Slope, LegalCells;
  }

  /** As far as both went, they agree. */
  lemma SameSoFar(data: seq<byte>, t: Tables, g: Header, s: seq<Latent>, a: seq<seq<Latent>>, k: nat,
                  h: Header, state: seq<Latent>, chunks: seq<seq<Latent>>, n: nat)
    requires SentPacket(data, t, g, s, a, k) && Read(data, t, h, state, chunks) && !Stuck(g, k)
    requires n <= k && n <= |chunks|
    ensures SameHeader(g, h) && SameLatents(s, state)
    ensures forall i :: 0 <= i < n ==> SameLatents(a[i], chunks[i])
    ensures Span0(g, s, a, n) == Span0(h, state, chunks, n)
  {
    hide LatentsOps, DredOps, LegalHeader, LegalLatent, SameHeader, LegalCells, Carries, Run, Tell, SameLatents,
      SameModels, Stuck, Quantizer, Zeroed, Full, Plain, Flush.PacketNum, Flush.Fits, Num, RawOf, QmaxCoded;
    DredFirst(data, g, s, a, k, 0);
    DredFirst(data, h, state, chunks, |chunks|, 0);
    SameHead(data, g, s, a, h, state, chunks);
    DredFirst(data, g, s, a, k, n);
    DredFirst(data, h, state, chunks, |chunks|, n);
    forall j | 0 <= j < n ensures SameModels(a[j], chunks[j]) {
      SameRows(t, g, a, h, chunks, s, state, k, |chunks|, j);
    }
    SameStates(t, g, s, h, state);
    ContentOnce(data, g, s, a, h, state, chunks, n);
  }

  lemma SameStates(t: Tables, g: Header, s: seq<Latent>, h: Header, state: seq<Latent>)
    requires ValidTables(t) && LegalHeader(g) && LegalHeader(h) && SameHeader(g, h)
    requires HasModels(s, t.state[g.q0]) && HasModels(state, t.state[h.q0])
    ensures SameModels(s, state)
  {
    hide LegalCells;
  }

  /** A decoder reads the header and the chunks sent, no more than were sent, and all that
      it asks for unless the last ones took less than the last byte: it misses the last if
      and only if less than a byte was left before it. */
  lemma ReadBack(data: seq<byte>, t: Tables, g: Header, s: seq<Latent>, a: seq<seq<Latent>>, k: nat,
                 h: Header, state: seq<Latent>, chunks: seq<seq<Latent>>, limit: nat)
    requires SentPacket(data, t, g, s, a, k) && Read(data, t, h, state, chunks) && !Stuck(g, k)
    requires LegalHeader(h) && AllLatents(state) && AllChunks(chunks) && LegalHeader(g) && AllLatents(s) && AllChunks(a)
    requires |chunks| <= limit && (|chunks| == limit || Full(|data|, h, state, chunks, |chunks|)) && k <= |a|
    ensures SameHeader(g, h) && SameLatents(s, state)
    ensures |chunks| <= k && forall i :: 0 <= i < |chunks| ==> SameLatents(a[i], chunks[i])
    ensures |chunks| == k <==> k <= limit && (k == 0 || !Full(|data|, g, s, a, k - 1))
  {
    hide *;
    var m := |chunks|;
    SentFacts(data, t, g, s, a, k);
    ReadFacts(data, t, h, state, chunks);
    SameSoFar(data, t, g, s, a, k, h, state, chunks, if m < k then m else k);
    if m > k {
      SameFull(|data|, g, s, a, h, state, chunks, k);
      assert false;
    } else if m == k {
      if k > 0 {
        SameSoFar(data, t, g, s, a, k, h, state, chunks, k - 1);
        SameFull(|data|, g, s, a, h, state, chunks, k - 1);
        assert !Full(|data|, h, state, chunks, k - 1);
      }
    } else {
      SameFull(|data|, g, s, a, h, state, chunks, m);
      DredFirst(data, g, s, a, k, k - 1);
      DredFirst(data, g, s, a, k - 1, m);
      FullLater(|data|, g, s, a, m, k - 1);
    }
  }

  lemma SentFacts(data: seq<byte>, t: Tables, g: Header, s: seq<Latent>, a: seq<seq<Latent>>, k: nat)
    requires SentPacket(data, t, g, s, a, k)
    ensures Proper(START) && LegalHeader(g) && AllLatents(s) && AllChunks(a) && k <= |a|
    ensures Carries(data, START, DredOps(g, s, a, k)) && Full(|data|, g, s, a, k)
  {
    hide DredOps, LegalHeader, LegalLatent, Carries, Run, Tell, Flush.PacketNum, Flush.Fits, Num, RawOf, HasModels,
      LegalCells, Quantizer;
  }

  lemma ReadFacts(data: seq<byte>, t: Tables, h: Header, state: seq<Latent>, chunks: seq<seq<Latent>>)
    requires Read(data, t, h, state, chunks)
    ensures LegalHeader(h) && AllLatents(state) && AllChunks(chunks)
    ensures forall n :: 0 <= n < |chunks| ==> !Full(|data|, h, state, chunks, n)
  {
    hide DredOps, LegalHeader, LegalLatent, Carries, Run, Full, HasModels, LegalCells, Quantizer, Zeroed, QmaxCoded;
  }

  lemma SameFull(size: nat, g: Header, s: seq<Latent>, a: seq<seq<Latent>>, h: Header, state: seq<Latent>,
                 chunks: seq<seq<Latent>>, n: nat)
    requires LegalHeader(g) && AllLatents(s) && AllChunks(a) && n <= |a|
    requires LegalHeader(h) && AllLatents(state) && AllChunks(chunks) && n <= |chunks|
    requires Span0(g, s, a, n) == Span0(h, state, chunks, n)
    ensures Full(size, g, s, a, n) == Full(size, h, state, chunks, n)
  {
    hide Span0, Tell, LegalHeader, LegalLatent;
  }

  lemma FullLater(size: nat, g: Header, s: seq<Latent>, a: seq<seq<Latent>>, m: nat, n: nat)
    requires LegalHeader(g) && AllLatents(s) && AllChunks(a) && m <= n <= |a|
    requires Tell(Span0(g, s, a, m)) <= Tell(Span0(g, s, a, n))
    ensures Full(size, g, s, a, m) ==> Full(size, g, s, a, n)
  {
    hide Span0, Tell, LegalHeader, LegalLatent;
  }

  predicate AllUnused(ls: seq<Latent>) { forall i :: 0 <= i < |ls| ==> Unused(ls[i]) }

  /** So a last chunk with nothing to code is always missed. */
  lemma EmptyMissed(data: seq<byte>, t: Tables, g: Header, s: seq<Latent>, a: seq<seq<Latent>>, k: nat)
    requires SentPacket(data, t, g, s, a, k) && 0 < k <= |a| && AllUnused(a[k - 1])
    ensures LegalHeader(g) && AllLatents(s) && AllChunks(a) && Full(|data|, g, s, a, k - 1)
  {
    hide *;
    SentFacts(data, t, g, s, a, k);
    OpsMore(g, s, a, k - 1);
    NothingCoded(a[k - 1], |a[k - 1]|);
    assert DredOps(g, s, a, k - 1) + [] == DredOps(g, s, a, k - 1);
    SameOpsFull(|data|, g, s, a, k);
  }

  lemma SameOpsFull(size: nat, g: Header, s: seq<Latent>, a: seq<seq<Latent>>, k: nat)
    requires LegalHeader(g) && AllLatents(s) && AllChunks(a) && 0 < k <= |a|
    requires DredOps(g, s, a, k) == DredOps(g, s, a, k - 1)
    ensures Full(size, g, s, a, k - 1) == Full(size, g, s, a, k)
  {
    hide LegalHeader, AllLatents, AllChunks, DredOps, Run, Tell;
  }

  lemma {:induction false} NothingCoded(ls: seq<Latent>, n: nat)
    requires AllLatents(ls) && n <= |ls| && AllUnused(ls)
    ensures LatentsOps(ls, n) == []
  {
    hide Unused, LatentOps, LegalLatent;
    if n > 0 {
      NothingCoded(ls, n - 1);
      UnusedCoded(ls[n - 1]);
    }
  }

  lemma UnusedCoded(l: Latent)
    requires LegalLatent(l) && Unused(l)
    ensures LatentOps(l) == []
  {
    hide ValueOps, LegalLatent;
  }

  /** Encoder and decoder: what the decoder reads of the packet, if one is sent. */
  method RoundTrip(buf: array<byte>, maxBytes: nat, g: Header, s: seq<Latent>, a: seq<seq<Latent>>, active: seq<bool>,
                   extra: bool, t: Tables, minFeatureFrames: nat)
    returns (fill: nat, h: Header, state: seq<Latent>, chunks: seq<seq<Latent>>)
    requires maxBytes <= buf.Length && EncoderHeader(g) && AllLatents(s) && AllChunks(a) && |active| == |a|
    requires OnTables(t, g, s, a, |a|) && !Stuck(g, |a|)
    modifies buf
    ensures fill > 0 ==>
      var k := Kept(active, ChunksCoded(g, s, a, maxBytes, 0));
      && k > 0 && SameHeader(g, h) && SameLatents(s, state)
      && |chunks| <= k && (forall i :: 0 <= i < |chunks| ==> SameLatents(a[i], chunks[i]))
      && (|chunks| == k <==> k <= Limit(minFeatureFrames) && !Full(fill, g, s, a, k - 1))
  {
    hide *;
    Given(t, g, s, a);
    fill := EncodeSilkFrame(buf, maxBytes, g, s, a, active, extra);
    ghost var k := Kept(active, ChunksCoded(g, s, a, maxBytes, 0));
    h, state, chunks := g, s, [];
    if fill > 0 {
      ghost var data := buf[..fill];
      assert SentPacket(data, t, g, s, a, k) by { FewerSent(data, t, g, s, a, |a|, k); }
      h, state, chunks := DredEcDecode(buf, fill, t, minFeatureFrames);
      LessStuck(g, |a|, k);
      ReadBack(data, t, g, s, a, k, h, state, chunks, Limit(minFeatureFrames));
    }
  }

  lemma Given(t: Tables, g: Header, s: seq<Latent>, a: seq<seq<Latent>>)
    requires OnTables(t, g, s, a, |a|)
    ensures ValidTables(t) && LegalHeader(g)
  {
  }

  lemma FewerSent(data: seq<byte>, t: Tables, g: Header, s: seq<Latent>, a: seq<seq<Latent>>, n: nat, k: nat)
    requires LegalHeader(g) && AllLatents(s) && AllChunks(a) && OnTables(t, g, s, a, n) && k <= n
    requires PacketOf(data, g, s, a, k) && |data| == (Tell(Span0(g, s, a, k)) + 7) / 8
    ensures SentPacket(data, t, g, s, a, k)
  {
    hide PacketOf, Span0, Tell, HasModels, Quantizer, LegalHeader, LegalCells, LegalLatent;
  }

  lemma LessStuck(g: Header, n: nat, k: nat)
    requires LegalHeader(g) && k <= n && !Stuck(g, n)
    ensures !Stuck(g, k)
  {
    if k > 0 { MulMono(k - 1, n - 1, DQ_TABLE[g.dQ]); }
    assert k > 0 ==> Slope(g, k - 1) == (k - 1) * DQ_TABLE[g.dQ];
    assert n > 0 ==> Slope(g, n - 1) == (n - 1) * DQ_TABLE[g.dQ];
  }
}
