/** Whole streams: any sequence of coder calls, written, finished and read back. */
module Stream {
  import opened Arith
  import opened Interval
  import opened Flush
  import opened Patch
  import opened EntCode

  /** What a reader knows of a call: its kind and the probability model. */
  datatype CallModel =
    | Encode(cum: seq<nat>)
    | Bin(cum: seq<nat>, bits: nat)
    | Bit(logp: nat)
    | Icdf(icdf: seq<nat>, ftb: nat)
    | Uint(total: nat)
    | Bits(count: nat)

  /** What the writer adds: symbols of a table are named by their number, a flag is 0 or
      1. */
  datatype Call = Call(model: CallModel, value: nat)

  /** Symbol s has [cum[s], cum[s + 1]); symbols of no width are allowed. */
  predicate Cumulative(cum: seq<nat>, ft: nat) {
    && |cum| >= 2 && cum[0] == 0 && cum[|cum| - 1] == ft
    && forall i, j :: 0 <= i <= j < |cum| ==> cum[i] <= cum[j]
  }

  predicate HasInterval(s: nat, cum: seq<nat>) { s + 1 < |cum| && cum[s] < cum[s + 1] }

  predicate LegalModel(m: CallModel) {
    match m
    case Encode(cum) => |cum| >= 2 && 0 < cum[|cum| - 1] <= BOT && Cumulative(cum, cum[|cum| - 1])
    case Bin(cum, bits) => bits <= 23 && Cumulative(cum, Pow2(bits))
    case Bit(logp) => 1 <= logp <= 23
    case Icdf(icdf, ftb) => IcdfTable(icdf, ftb)
    case Uint(total) => 2 <= total < 0x1_0000_0000
    case Bits(count) => 1 <= count <= 25
  }

  /** The values a call may have under the model. */
  predicate LegalValue(m: CallModel, v: nat) {
    match m
    case Encode(cum) => HasInterval(v, cum)
    case Bin(cum, _) => HasInterval(v, cum)
    case Bit(_) => v <= 1
    case Icdf(icdf, ftb) => HasWidth(icdf, v, ftb)
    case Uint(total) => v < total
    case Bits(count) => v < Pow2(count)
  }

  predicate LegalCall(c: Call) { LegalModel(c.model) && LegalValue(c.model, c.value) }

  function SymbolOp(s: nat, cum: seq<nat>, ft: nat): (op: Op)
    requires HasInterval(s, cum) && Cumulative(cum, ft) && ft <= BOT
    ensures Legal(op)
  {
    assert cum[s + 1] <= cum[|cum| - 1];
    Sym(cum[s] == 0, cum[s], cum[s + 1], ft)
  }

  function CallOps(c: Call): (ops: seq<Op>)
    requires LegalCall(c)
    ensures AllLegal(ops)
  {
    match c.model
    case Encode(cum) => [SymbolOp(c.value, cum, cum[|cum| - 1])]
    case Bin(cum, bits) => BinLegal(bits); [SymbolOp(c.value, cum, Pow2(bits))]
    case Bit(logp) => [BitOp(c.value == 1, logp)]
    case Icdf(icdf, ftb) => [IcdfOp(c.value, icdf, ftb)]
    case Uint(total) => UintOps(c.value, total)
    case Bits(count) => [Raw(c.value, count)]
  }

  /** Codes one call. */
  method Write(e: EcCtx, c: Call)
    requires e.ValidEnc() && LegalCall(c)
    modifies e, e.buf
    ensures e.ValidEnc() && e.ops == old(e.ops) + CallOps(c) && e.storage == old(e.storage)
    ensures e.Keeps(old(e.front), old(e.tail))
  {
    var s := c.value;
    match c.model
    case Encode(cum) =>
      assert cum[s + 1] <= cum[|cum| - 1];
      e.Encode(cum[s], cum[s + 1], cum[|cum| - 1]);
    case Bin(cum, bits) =>
      assert cum[s + 1] <= cum[|cum| - 1];
      e.EncodeBin(cum[s], cum[s + 1], bits);
    case Bit(logp) => e.EncBitLogp(s == 1, logp);
    case Icdf(icdf, ftb) => e.EncIcdf(s, icdf, ftb);
    case Uint(total) => e.EncUint(s, total);
    case Bits(count) => e.EncBits(s, count);
  }

  /** The value of the call that the packet holds here. */
  ghost predicate HeldValue(data: seq<byte>, sp: Span, m: CallModel, v: nat)
    requires Proper(sp) && LegalModel(m)
  {
    LegalValue(m, v) && Carries(data, sp, CallOps(Call(m, v)))
  }

  /** There is at most one. */
  lemma HeldOnce(data: seq<byte>, sp: Span, m: CallModel, v: nat, w: nat)
    requires Proper(sp) && LegalModel(m) && HeldValue(data, sp, m, v) && HeldValue(data, sp, m, w)
    ensures v == w
  {
    hide Carries, Run, Num, Pow2, RawField, Prefix, ReadsOp, Legal;
    match m
    case Encode(cum) => SymbolOnce(data, sp, cum, cum[|cum| - 1], v, w);
    case Bin(cum, bits) =>
      BinLegal(bits);
      SymbolOnce(data, sp, cum, Pow2(bits), v, w);
    case Bit(logp) =>
      CarriesOne(data, sp, BitOp(v == 1, logp));
      CarriesOne(data, sp, BitOp(w == 1, logp));
      BitOnce(data, sp, v == 1, w == 1, logp);
    case Icdf(icdf, ftb) =>
      CarriesOne(data, sp, IcdfOp(v, icdf, ftb));
      CarriesOne(data, sp, IcdfOp(w, icdf, ftb));
      IcdfOnce(data, sp, v, w, icdf, ftb);
    case Uint(total) => UintOnce(data, sp, v, w, total);
    case Bits(count) => RawOnce(data, sp, v, w, count);
  }

  lemma RawOnce(data: seq<byte>, sp: Span, v: nat, w: nat, count: nat)
    requires Proper(sp) && count <= 25 && v < Pow2(count) && w < Pow2(count)
    requires Carries(data, sp, [Raw(v, count)]) && Carries(data, sp, [Raw(w, count)])
    ensures v == w
  {
    CarriesOne(data, sp, Raw(v, count));
    CarriesOne(data, sp, Raw(w, count));
  }

  lemma SymbolOnce(data: seq<byte>, sp: Span, cum: seq<nat>, ft: nat, v: nat, w: nat)
    requires Proper(sp) && Cumulative(cum, ft) && 0 < ft <= BOT && HasInterval(v, cum) && HasInterval(w, cum)
    requires Carries(data, sp, [SymbolOp(v, cum, ft)]) && Carries(data, sp, [SymbolOp(w, cum, ft)])
    ensures v == w
  {
    hide Carries, Run, ReadsOp;
    CarriesOne(data, sp, SymbolOp(v, cum, ft));
    CarriesOne(data, sp, SymbolOp(w, cum, ft));
    if v < w {
      assert cum[v + 1] <= cum[w];
      ReadOnce(data, sp, SymbolOp(v, cum, ft), SymbolOp(w, cum, ft));
    }
    if w < v {
      assert cum[w + 1] <= cum[v];
      ReadOnce(data, sp, SymbolOp(w, cum, ft), SymbolOp(v, cum, ft));
    }
  }

  /** The caller's look-up: the symbol whose interval holds fm. */
  method LookUp(cum: seq<nat>, ft: nat, fm: nat) returns (k: nat)
    requires Cumulative(cum, ft) && fm < ft
    ensures HasInterval(k, cum) && cum[k] <= fm < cum[k + 1]
    ensures forall s :: 0 <= s < |cum| - 1 && cum[s] <= fm < cum[s + 1] ==> s == k
  {
    k := 0;
    while fm >= cum[k + 1]
      invariant k + 1 < |cum| && cum[k] <= fm
      decreases |cum| - k
    {
      k := k + 1;
    }
  }

  /** ec_decode, the look-up, ec_dec_update: one symbol of the table is read, and the
      packet holds no other here. */
  method ReadSymbol(d: EcCtx, cum: seq<nat>, ft: nat) returns (k: nat)
    requires d.ValidDec() && Cumulative(cum, ft) && 0 < ft <= BOT
    modifies d
    ensures d.ValidDec() && d.data == old(d.data)
    ensures HasInterval(k, cum) && ReadsOp(d.data, old(d.pos), SymbolOp(k, cum, ft))
    ensures d.pos == Step(old(d.pos), SymbolOp(k, cum, ft))
    ensures forall s :: HasInterval(s, cum) && ReadsOp(d.data, old(d.pos), SymbolOp(s, cum, ft)) ==> s == k
  {
    hide Num, Pow2, RawField, PointedAt, Prefix, Near, Far, EcCtx.ValidDec, ReadsOp, Step;
    var fm := d.Decode(ft);
    k := LookUp(cum, ft, fm);
    assert SymbolOp(k, cum, ft) == Sym(cum[k] == 0, cum[k], cum[k + 1], ft) && cum[k + 1] <= ft;
    d.DecodedIn(cum[k], cum[k + 1], ft);
    forall s: nat | HasInterval(s, cum) && ReadsOp(d.data, d.pos, SymbolOp(s, cum, ft)) ensures s == k {
      assert SymbolOp(s, cum, ft) == Sym(cum[s] == 0, cum[s], cum[s + 1], ft) && cum[s + 1] <= ft;
      d.DecodedIn(cum[s], cum[s + 1], ft);
    }
    d.DecUpdate(cum[k], cum[k + 1], ft);
  }

  /** A uniform integer: the packet may hold none. */
  method ReadUint(d: EcCtx, total: nat) returns (value: nat)
    requires d.ValidDec() && LegalModel(Uint(total))
    modifies d
    ensures d.ValidDec() && d.data == old(d.data) && LegalValue(Uint(total), value)
    ensures (exists v :: HeldValue(d.data, old(d.pos), Uint(total), v)) ==>
              HeldValue(d.data, old(d.pos), Uint(total), value)
    ensures HeldValue(d.data, old(d.pos), Uint(total), value) ==> d.pos == Run(old(d.pos), UintOps(value, total))
  {
    hide Carries, Run, UintOps, EcCtx.ValidDec;
    value := d.DecUint(total);
  }

  /** Raw bits. */
  method ReadBits(d: EcCtx, count: nat) returns (value: nat)
    requires d.ValidDec() && LegalModel(Bits(count))
    modifies d
    ensures d.ValidDec() && d.data == old(d.data)
    ensures LegalValue(Bits(count), value) && ReadsOp(d.data, old(d.pos), Raw(value, count))
    ensures d.pos == Step(old(d.pos), Raw(value, count))
  {
    hide EcCtx.ValidDec, RawField, Pow2;
    value := d.DecBits(count);
  }

  /** Any other call is one step. */
  method ReadOne(d: EcCtx, m: CallModel) returns (value: nat)
    requires d.ValidDec() && LegalModel(m) && !m.Uint?
    modifies d
    ensures d.ValidDec() && d.data == old(d.data) && LegalValue(m, value)
    ensures |CallOps(Call(m, value))| == 1 && ReadsOp(d.data, old(d.pos), CallOps(Call(m, value))[0])
    ensures d.pos == Step(old(d.pos), CallOps(Call(m, value))[0])
  {
    hide ReadsOp, EcCtx.ValidDec, Cumulative, IcdfTable, HasWidth, HasInterval, Step, Pow2;
    match m
    case Encode(cum) => value := ReadSymbol(d, cum, cum[|cum| - 1]);
    case Bin(cum, bits) =>
      BinLegal(bits);
      value := ReadSymbol(d, cum, Pow2(bits));
    case Bit(logp) =>
      var b := d.DecBitLogp(logp);
      value := if b then 1 else 0;
    case Icdf(icdf, ftb) => value := d.DecIcdf(icdf, ftb);
    case Bits(count) => value := ReadBits(d, count);
  }

  /** Reads one call under its model: the value the packet holds, if it holds one. */
  method Read(d: EcCtx, m: CallModel) returns (value: nat)
    requires d.ValidDec() && LegalModel(m)
    modifies d
    ensures d.ValidDec() && d.data == old(d.data) && LegalValue(m, value)
    ensures !m.Uint? ==> HeldValue(d.data, old(d.pos), m, value)
    ensures forall v :: HeldValue(d.data, old(d.pos), m, v) ==>
              v == value && d.pos == Run(old(d.pos), CallOps(Call(m, v)))
  {
    hide Carries, Run, ReadsOp, LegalModel, LegalValue, UintOps, EcCtx.ValidDec;
    ghost var sp, data := d.pos, d.data;
    d.DecState();
    if m.Uint? {
      value := ReadUint(d, m.total);
    } else {
      value := ReadOne(d, m);
      CarriesOne(data, sp, CallOps(Call(m, value))[0]);
      OneOp(CallOps(Call(m, value)));
    }
    hide CallOps;
    assert (exists v :: HeldValue(data, sp, m, v)) ==> HeldValue(data, sp, m, value);
    hide HeldValue;
    forall v | HeldValue(data, sp, m, v) ensures v == value {
      HeldOnce(data, sp, m, v, value);
    }
  }

  lemma OneOp(ops: seq<Op>)
    requires |ops| == 1
    ensures ops == [ops[0]]
  {
  }

  predicate AllLegalCalls(calls: seq<Call>) {
    forall i :: 0 <= i < |calls| ==> LegalCall(calls[i])
  }

  /** All steps of the first n calls. */
  function StreamOps(calls: seq<Call>, n: nat): (ops: seq<Op>)
    requires AllLegalCalls(calls) && n <= |calls|
    ensures AllLegal(ops)
  {
    if n == 0 then [] else StreamOps(calls, n - 1) + CallOps(calls[n - 1])
  }

  /** What either side can observe after a call: the value, and the state that
      ec_tell and ec_tell_frac depend on. */
  datatype Mark = Mark(value: nat, rng: nat, nbitsTotal: int)

  function SpanMark(value: nat, sp: Span): Mark {
    Mark(value, sp.rng, 33 + 8 * sp.n + sp.nraw)
  }

  ghost function SpanAfter(calls: seq<Call>, n: nat): (sp: Span)
    requires AllLegalCalls(calls) && n <= |calls|
    ensures Proper(sp)
  {
    StartProper();
    Run(START, StreamOps(calls, n))
  }

  /** The marks the first n calls must show, on both sides. */
  ghost function Marks(calls: seq<Call>, n: nat): (m: seq<Mark>)
    requires AllLegalCalls(calls) && n <= |calls|
  {
    if n == 0 then []
    else Marks(calls, n - 1) + [SpanMark(calls[n - 1].value, SpanAfter(calls, n))]
  }

  /** The packet carries the first n calls. */
  ghost predicate CarriesCalls(buf: seq<byte>, calls: seq<Call>, n: nat)
    requires AllLegalCalls(calls) && n <= |calls|
  {
    StartProper();
    Carries(buf, START, StreamOps(calls, n))
  }

  /** One more call is carried when the first n are and then it is. */
  lemma CarriesCall(buf: seq<byte>, calls: seq<Call>, n: nat)
    requires AllLegalCalls(calls) && n < |calls|
    ensures CarriesCalls(buf, calls, n + 1) <==>
            CarriesCalls(buf, calls, n) && Carries(buf, SpanAfter(calls, n), CallOps(calls[n]))
    ensures SpanAfter(calls, n + 1) == Run(SpanAfter(calls, n), CallOps(calls[n]))
  {
    StartProper();
    hide Carries, Run, CallOps;
    CarriesConcat(buf, START, StreamOps(calls, n), CallOps(calls[n]));
    RunConcat(START, StreamOps(calls, n), CallOps(calls[n]));
  }

  lemma {:induction false} CarriesFewer(buf: seq<byte>, calls: seq<Call>, m: nat, n: nat)
    requires AllLegalCalls(calls) && m <= n <= |calls| && CarriesCalls(buf, calls, n)
    ensures CarriesCalls(buf, calls, m)
    decreases n
  {
    hide *;
    if m < n {
      CarriesCall(buf, calls, n - 1);
      CarriesFewer(buf, calls, m, n - 1);
    }
  }

  /** What reading call i of a stream that is carried must give. */
  lemma CarriesNext(buf: seq<byte>, calls: seq<Call>, i: nat)
    requires AllLegalCalls(calls) && i < |calls| && CarriesCalls(buf, calls, |calls|)
    ensures LegalModel(calls[i].model) && HeldValue(buf, SpanAfter(calls, i), calls[i].model, calls[i].value)
    ensures SpanAfter(calls, i + 1) == Run(SpanAfter(calls, i), CallOps(calls[i]))
    ensures Marks(calls, i + 1) == Marks(calls, i) + [SpanMark(calls[i].value, SpanAfter(calls, i + 1))]
  {
    hide Carries, CarriesCalls, Run, CallOps, StreamOps, SpanAfter, LegalModel, LegalValue;
    CarriesFewer(buf, calls, i + 1, |calls|);
    CarriesCall(buf, calls, i);
  }

  /** Shrinking happens between calls and after the last: sizes[i], if it is a legal
      smaller size, before call i. */
  method EncodeAll(e: EcCtx, calls: seq<Call>, sizes: seq<nat>) returns (sent: seq<Mark>)
    requires e.ValidEnc() && e.ops == [] && AllLegalCalls(calls) && |sizes| == |calls| + 1
    modifies e, e.buf
    ensures e.ValidEnc() && e.ops == StreamOps(calls, |calls|) && e.storage <= old(e.storage)
    ensures sent == Marks(calls, |calls|)
  {
    hide Run, Carries, Tell, CallOps, EcCtx.ValidEnc, LegalCall;
    sent := [];
    for i := 0 to |calls|
      invariant e.ValidEnc() && e.storage <= old(e.storage)
      invariant e.ops == StreamOps(calls, i) && sent == Marks(calls, i)
    {
      ShrinkTo(e, sizes[i]);
      var mark := WriteMark(e, calls, i);
      sent := sent + [mark];
    }
    ShrinkTo(e, sizes[|calls|]);
  }

  /** ec_enc_shrink, where its assertion holds. */
  method ShrinkTo(e: EcCtx, size: nat)
    requires e.ValidEnc()
    modifies e, e.buf
    ensures e.ValidEnc() && e.ops == old(e.ops) && e.storage <= old(e.storage)
  {
    hide EcCtx.ValidEnc;
    if e.offs + e.endOffs <= size <= e.storage { e.Shrink(size); }
  }

  /** Codes the next call and notes what can be observed. */
  method WriteMark(e: EcCtx, calls: seq<Call>, i: nat) returns (mark: Mark)
    requires e.ValidEnc() && AllLegalCalls(calls) && i < |calls| && e.ops == StreamOps(calls, i)
    modifies e, e.buf
    ensures e.ValidEnc() && e.ops == StreamOps(calls, i + 1) && e.storage == old(e.storage)
    ensures mark == SpanMark(calls[i].value, SpanAfter(calls, i + 1))
  {
    hide Run, Tell, CallOps, EcCtx.ValidEnc, LegalCall;
    Write(e, calls[i]);
    e.EncState();
    mark := Mark(calls[i].value, e.rng, e.nbitsTotal);
  }

  /** Reads the next call and notes what can be observed. */
  method ReadMark(d: EcCtx, m: CallModel) returns (mark: Mark)
    requires d.ValidDec() && LegalModel(m)
    modifies d
    ensures d.ValidDec() && d.data == old(d.data)
    ensures forall v :: HeldValue(d.data, old(d.pos), m, v) ==>
              d.pos == Run(old(d.pos), CallOps(Call(m, v))) && mark == SpanMark(v, d.pos)
  {
    hide Run, Carries, CallOps, LegalValue, LegalModel, HeldValue, EcCtx.ValidDec;
    d.DecState();
    var value := Read(d, m);
    d.DecState();
    mark := Mark(value, d.rng, d.nbitsTotal);
  }

  /** Reads a packet under the models of the calls that made it. */
  method DecodeAll(d: EcCtx, models: seq<CallModel>, ghost calls: seq<Call>) returns (got: seq<Mark>)
    requires d.ValidDec() && d.pos == START && AllLegalCalls(calls)
    requires |models| == |calls| && forall i :: 0 <= i < |calls| ==> models[i] == calls[i].model
    modifies d
    ensures d.ValidDec()
    ensures CarriesCalls(old(d.data), calls, |calls|) ==> got == Marks(calls, |calls|)
  {
    ghost var data, good := d.data, CarriesCalls(d.data, calls, |calls|);
    got := [];
    assert SpanAfter(calls, 0) == START && Marks(calls, 0) == [];
    hide *;
    for i := 0 to |models|
      invariant d.ValidDec() && d.data == data
      invariant good ==> d.pos == SpanAfter(calls, i) && got == Marks(calls, i)
    {
      LegalAt(calls, i);
      if good { CarriesNext(data, calls, i); }
      var mark := ReadMark(d, models[i]);
      got := got + [mark];
    }
  }

  lemma LegalAt(calls: seq<Call>, i: nat)
    requires AllLegalCalls(calls) && i < |calls|
    ensures LegalCall(calls[i]) && LegalModel(calls[i].model) && LegalValue(calls[i].model, calls[i].value)
    ensures calls[i] == Call(calls[i].model, calls[i].value)
  {
    hide LegalModel, LegalValue;
  }

  /** Whole-stream round trip: whenever finishing reports no error, which is exactly when
      the flushed range and the raw bits fit, and so whenever ec_tell does, the reader
      sees the same values and the same coder state after every call. */
  method RoundTrip(calls: seq<Call>, sizes: seq<nat>, size: nat)
    returns (error: int, final: nat, sent: seq<Mark>, got: seq<Mark>)
    requires AllLegalCalls(calls) && |sizes| == |calls| + 1
    ensures final <= size && sent == Marks(calls, |calls|)
    ensures error == 0 ==> got == sent
    ensures error == 0 <==> Fits(SpanAfter(calls, |calls|), final)
    ensures Tell(SpanAfter(calls, |calls|)) <= 8 * final ==> error == 0
  {
    hide Run, Carries, Tell, Num, StreamOps, Marks, CallOps, LegalCall, EcCtx.ValidEnc, EcCtx.ValidDec;
    var b := new byte[size];
    var e := new EcCtx.EncInit(b, size);
    sent := EncodeAll(e, calls, sizes);
    e.EncState();
    TellFits(e.Where(), e.storage);
    e.Done();
    error, final := e.error, e.storage;
    var d := new EcCtx.DecInit(b, final);
    got := DecodeAll(d, seq(|calls|, i requires 0 <= i < |calls| => calls[i].model), calls);
  }

  /** The finished packet is a function of the steps coded and of its size. */
  lemma SamePacket(a: seq<byte>, b: seq<byte>, ops: seq<Op>)
    requires AllLegal(ops) && Proper(START) && |a| == |b| && Fits(Run(START, ops), |a|)
    requires Num(a) == PacketNum(Run(START, ops), RawOf(ops), |a|)
    requires Num(b) == PacketNum(Run(START, ops), RawOf(ops), |b|)
    ensures a == b
  {
    NumInjective(a, b);
  }
}
