/** Code shared by the two directions: routines that take an encode flag, or that
    exist once for each side, are described by the steps they code or read. */
module Duplex {
  import opened Arith
  import opened Interval
  import opened EntCode

  /** Where a routine starts: the encoder's history or the decoder's packet, and
      the span both are at. */
  datatype Origin = Origin(ops: seq<Op>, data: seq<byte>, sp: Span)

  ghost predicate Placed(from: Origin, encode: bool) {
    Proper(from.sp) && Proper(START) && (encode ==> AllLegal(from.ops) && Run(START, from.ops) == from.sp)
  }

  /** The coder has coded, or has read, exactly these steps since `from`. */
  ghost predicate At(ec: EcCtx, encode: bool, from: Origin, steps: seq<Op>)
    reads ec, ec.buf
  {
    && Placed(from, encode) && AllLegal(steps)
    && if encode then
         ec.ValidEnc() && ec.ops == from.ops + steps
       else
         ec.ValidDec() && ec.data == from.data && Carries(from.data, from.sp, steps) && ec.pos == Run(from.sp, steps)
  }

  ghost function Here(ec: EcCtx, encode: bool): (from: Origin)
    reads ec, ec.buf
    requires if encode then ec.ValidEnc() else ec.ValidDec()
    ensures At(ec, encode, from, [])
  {
    StartProper();
    assert ec.ops + [] == ec.ops;
    if encode then Origin(ec.ops, [], ec.Where()) else Origin([], ec.data, ec.pos)
  }

  /** Both sides show the bit count of the span they have reached. */
  lemma TellAt(ec: EcCtx, encode: bool, from: Origin, steps: seq<Op>)
    requires At(ec, encode, from, steps)
    ensures ec.EcTell() == Tell(Run(from.sp, steps)) && ec.rng == Run(from.sp, steps).rng
  {
    hide Run, Carries, Tell, EcCtx.ValidEnc, EcCtx.ValidDec;
    if encode {
      RunConcat(START, from.ops, steps);
      ec.EncState();
    } else {
      ec.DecState();
    }
  }

  /** The span reached is a proper one. */
  lemma SpanReached(ec: EcCtx, encode: bool, from: Origin, steps: seq<Op>) returns (sp: Span)
    requires At(ec, encode, from, steps)
    ensures Proper(from.sp) && AllLegal(steps) && sp == Run(from.sp, steps) && Proper(sp)
  {
    sp := Run(from.sp, steps);
  }

  /** A bit, coded or read. */
  method CodeBit(ec: EcCtx, encode: bool, v: bool, logp: nat, ghost from: Origin, ghost steps: seq<Op>)
    returns (r: bool)
    requires At(ec, encode, from, steps) && 1 <= logp <= 23
    modifies ec, ec.buf
    ensures At(ec, encode, from, steps + [BitOp(r, logp)]) && (encode ==> r == v)
    ensures ec.storage == old(ec.storage)
    ensures old(ec.front) <= ec.front && ec.tail == old(ec.tail)
  {
    hide Run, Carries, EcCtx.ValidEnc, EcCtx.ValidDec, ReadsOp;
    if encode {
      r := v;
      ec.EncBitLogp(v, logp);
      assert from.ops + (steps + [BitOp(r, logp)]) == from.ops + steps + [BitOp(r, logp)];
    } else {
      r := ec.DecBitLogp(logp);
      CarriesSnoc(from.data, from.sp, steps, BitOp(r, logp));
      RunSnoc(from.sp, steps, BitOp(r, logp));
    }
  }

  /** A symbol of an inverse cumulative table, coded or read. */
  method CodeIcdf(ec: EcCtx, encode: bool, s: nat, icdf: seq<nat>, ftb: nat, ghost from: Origin, ghost steps: seq<Op>)
    returns (r: nat)
    requires At(ec, encode, from, steps) && IcdfTable(icdf, ftb) && (encode ==> HasWidth(icdf, s, ftb))
    modifies ec, ec.buf
    ensures HasWidth(icdf, r, ftb) && At(ec, encode, from, steps + [IcdfOp(r, icdf, ftb)]) && (encode ==> r == s)
    ensures ec.storage == old(ec.storage)
    ensures old(ec.front) <= ec.front && ec.tail == old(ec.tail)
  {
    hide Run, Carries, EcCtx.ValidEnc, EcCtx.ValidDec, ReadsOp, IcdfTable, HasWidth, IcdfOp;
    if encode {
      r := s;
      ec.EncIcdf(s, icdf, ftb);
      assert from.ops + (steps + [IcdfOp(r, icdf, ftb)]) == from.ops + steps + [IcdfOp(r, icdf, ftb)];
    } else {
      r := ec.DecIcdf(icdf, ftb);
      CarriesSnoc(from.data, from.sp, steps, IcdfOp(r, icdf, ftb));
      RunSnoc(from.sp, steps, IcdfOp(r, icdf, ftb));
    }
  }

  /** A uniform integer of at most eight bits, coded or read. */
  method CodeUint(ec: EcCtx, encode: bool, v: nat, total: nat, ghost from: Origin, ghost steps: seq<Op>)
    returns (r: nat)
    requires At(ec, encode, from, steps) && 2 <= total <= 256 && (encode ==> v < total)
    modifies ec, ec.buf
    ensures r < total && At(ec, encode, from, steps + UintOps(r, total)) && (encode ==> r == v)
    ensures ec.storage == old(ec.storage)
  {
    hide Run, Carries, EcCtx.ValidEnc, EcCtx.ValidDec, ReadsOp, UintOps;
    if encode {
      r := v;
      ec.EncUint(v, total);
      assert from.ops + (steps + UintOps(r, total)) == from.ops + steps + UintOps(r, total);
    } else {
      ByteWide(total);
      r := ec.DecUint(total);
      CarriesConcat(from.data, from.sp, steps, UintOps(r, total));
      RunConcat(from.sp, steps, UintOps(r, total));
    }
  }

  lemma ByteWide(total: nat)
    requires 2 <= total <= 256
    ensures ILog(total - 1) <= 8
  {
    ILogMono(total - 1, 255);
    ILogUnique(255, 8);
  }
}
