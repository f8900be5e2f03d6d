/** The coder context shared by encoder and decoder (struct ec_ctx), with the
    operations of both directions as methods that update it in place. */
module EntCode {
  import opened Arith
  import opened Interval
  import opened Flush
  import opened Patch
  import opened Registers

  class EcCtx {
    const buf: array<byte>
    var storage: nat
    var endOffs: nat
    var endWindow: nat
    var nendBits: nat
    var nbitsTotal: int
    var offs: nat
    var rng: nat
    var val: nat
    var ext: nat
    var rem: int
    var error: int
    ghost var ops: seq<Op>       // encoder: every step coded so far
    ghost var front: seq<byte>   // encoder: the bytes written at the front
    ghost var tail: seq<byte>    // encoder: the bytes written at the end
    ghost var data: seq<byte>    // decoder: the packet
    ghost var pos: Span          // decoder: the span reached

    ghost predicate Stored()
      reads `storage, `offs, `endOffs, `front, `tail, buf
    {
      && offs == |front| && endOffs == |tail| && offs + endOffs <= storage <= buf.Length
      && buf[..offs] == front && buf[storage - endOffs..storage] == tail
    }

    ghost function Written(): seq<byte>
      reads `front, `rem, `ext
      requires -1 <= rem <= 255
    {
      Digits(front, rem, ext, 255)
    }

    ghost function Registers(): Register
      reads `rem, `ext, `val, `rng
    {
      Register(rem, ext, val, rng)
    }

    ghost function Pending(): nat
      reads `rem, `ext
    {
      (if rem >= 0 then 1 else 0) + ext
    }

    /** The range coder half of the encoder state stands for span sp. */
    ghost predicate Front(sp: Span)
      reads `front, `rem, `ext, `rng, `val, `nbitsTotal, `error
    {
      && -1 <= rem <= 255 && (rem < 0 ==> front == [])
      && rng == sp.rng && nbitsTotal == 33 + 8 * sp.n + sp.nraw
      && |front| + Pending() <= sp.n
      // no carry can pass a byte that cannot absorb it
      && val + rng < 2 * TOP && (rem < 0 || rem == 255 ==> val + rng <= TOP)
      && (rng == TOP ==> val < TOP)
      && (error == 0 ==> |front| + Pending() == sp.n && Num(Written()) * TOP + val == sp.low)
    }

    /** The raw-bit half: bytes at the end of the buffer and the window. */
    ghost predicate Back(steps: seq<Op>)
      reads `nendBits, `endWindow, `tail, `error
    {
      && nendBits <= 32 && endWindow < Pow2(nendBits)
      && nendBits + 8 * |tail| <= RawBits(steps)
      && (error == 0 ==> nendBits + 8 * |tail| == RawBits(steps) &&
                         RawTotal(tail, endWindow) == RawOf(steps))
    }

    ghost function Where(): (sp: Span)
      reads `ops
      requires AllLegal(ops)
      ensures Proper(sp)
    {
      StartProper();
      Run(START, ops)
    }

    /** The encoder stands for exactly the steps `ops`; while the bits behind fit
        the buffer no write can have failed. */
    ghost predicate ValidEnc()
      reads this, buf
    {
      && Stored()
      && AllLegal(ops)
      && Front(Where())
      && Back(ops)
      && (error == 0 ==> Num(Written()) == Emitted(ops))
      && (Spent(Where()) <= 8 * storage ==> error == 0)
    }

    lemma Room()
      requires Stored()
      ensures |front| + |tail| <= storage <= buf.Length && offs == |front| && endOffs == |tail|
    {
    }

    /** What callers of a valid encoder rely on. */
    lemma EncState()
      requires ValidEnc()
      ensures AllLegal(ops) && rng == Where().rng && nbitsTotal == 33 + 8 * Where().n + Where().nraw
      ensures EcTell() == Tell(Where()) && storage <= buf.Length && (EcTell() <= 8 * storage ==> error == 0)
    {
      SpentTell(Where());
    }

    /** The bytes written so far hold no more than the bits behind. */
    lemma BytesBehind()
      requires ValidEnc()
      ensures AllLegal(ops) && offs == |front| && endOffs == |tail| && 8 * (offs + endOffs) <= Spent(Where())
      ensures offs + endOffs <= storage
    {
      hide Num, Digits, Emitted, Run, RawBits, RawOf, RawTotal, Pow2;
      RunRaw(START, ops);
    }

    /** Bytes once final stay: writing only adds bytes between these two strings. */
    ghost predicate Keeps(front0: seq<byte>, tail0: seq<byte>)
      reads `front, `tail
    {
      && front0 <= front
      && Suffix(tail0, tail)
    }

    // -------------------------------------------------------------- encoder

    /** ec_enc_init */
    constructor EncInit(b: array<byte>, size: nat)
      requires size <= b.Length
      ensures buf == b && storage == size && ValidEnc() && ops == [] && error == 0
    {
      buf := b;
      endOffs := 0;
      endWindow := 0;
      nendBits := 0;
      nbitsTotal := 33;
      offs := 0;
      rng := TOP;
      rem := -1;
      val := 0;
      ext := 0;
      storage := size;
      error := 0;
      ops, front, tail, data, pos := [], [], [], [], START;
      new;
      StartValid();
    }

    lemma Started()
      requires ValidEnc() && ops == []
      ensures Front(START) && error == 0
    {
      hide Front, Back, Stored, Written, Emitted, Num;
      assert Where() == START;
    }

    lemma StartValid()
      requires ops == [] && front == [] && tail == [] && offs == endOffs == endWindow == nendBits == 0 && error == 0
      requires nbitsTotal == 33 && rng == TOP && rem == -1 && val == ext == 0 && storage <= buf.Length
      ensures ValidEnc()
    {
      PowZero();
      assert Where() == START;
      hide Run, ILog;
    }

    method WriteByte(value: byte) returns (err: int)
      requires Stored()
      modifies this`offs, this`front, buf
      ensures Stored() && |front| + |tail| <= storage
      ensures err == if |old(front)| + |tail| >= storage then -1 else 0
      ensures front == if err == 0 then old(front) + [value] else old(front)
    {
      if offs + endOffs >= storage { return -1; }
      buf[offs] := value;
      offs := offs + 1;
      front := front + [value];
      return 0;
    }

    method WriteByteAtEnd(value: byte) returns (err: int)
      requires Stored()
      modifies this`endOffs, this`tail, buf
      ensures Stored()
      ensures err == if |front| + |old(tail)| >= storage then -1 else 0
      ensures tail == if err == 0 then [value] + old(tail) else old(tail)
    {
      if offs + endOffs >= storage { return -1; }
      endOffs := endOffs + 1;
      buf[storage - endOffs] := value;
      tail := [value] + tail;
      return 0;
    }

    /** The pending bytes become final, all with the same value. */
    method WritePending(sym: byte)
      requires Stored()
      modifies this`offs, this`front, this`ext, this`error, buf
      ensures Stored() && ext == 0 && old(front) <= front
      ensures |front| <= |old(front)| + old(ext) && |front| + |tail| <= storage
      ensures error == 0 ==> old(error) == 0 && front == old(front) + Fill(old(ext), sym)
      ensures error != 0 && old(error) == 0 ==> |front| + |tail| == storage && |front| < |old(front)| + old(ext)
    {
      hide *;
      Room();
      FillNone(sym);
      ghost var done := 0;
      while ext > 0
        invariant Stored() && done + ext == old(ext) && old(front) <= front
        invariant |front| <= |old(front)| + done && |front| + |tail| <= storage
        invariant error == 0 ==> old(error) == 0 && front == old(front) + Fill(done, sym)
        invariant error != 0 && old(error) == 0 ==> |front| + |tail| == storage && |front| < |old(front)| + done
      {
        FillMore(done, sym);
        ghost var was := front;
        var err := WriteByte(sym);
        if err != 0 { error := -1; }
        assert error == 0 ==> front == was + [sym];
        ext := ext - 1;
        done := done + 1;
      }
    }

    /** The byte awaiting a carry and the pending 0xFF bytes become final. */
    method Settle(carry: nat)
      requires Stored() && carry <= 1
      requires -1 <= rem <= 255 && (rem < 0 ==> front == []) && (carry == 1 ==> 0 <= rem < 255)
      modifies this`offs, this`front, this`ext, this`error, buf
      ensures Stored() && ext == 0 && old(front) <= front
      ensures |front| <= |old(front)| + old(Pending())
      ensures error == 0 ==> old(error) == 0
      ensures error == 0 ==>
        front == Digits(old(front), if rem >= 0 then rem + carry else rem, old(ext), (255 + carry) % 256)
      ensures error != 0 && old(error) == 0 ==>
                |front| + |tail| == storage && |front| < |old(front)| + old(Pending())
    {
      hide Fill, Stored;
      if rem >= 0 {
        var err := WriteByte((rem + carry) % 256);
        if err != 0 { error := -1; }
      }
      assert error == 0 ==> front == old(front) + (if rem >= 0 then [rem + carry] else []);
      WritePending((255 + carry) % 256);
    }

    /** ec_enc_carry_out: hands over one digit of nine bits, carry included.
        A digit other than 0xFF settles the buffered bytes; 0xFF joins them. */
    method CarryOut(c: nat)
      requires Stored() && c < 512
      requires -1 <= rem <= 255 && (rem < 0 ==> front == [])
      requires c >= 256 ==> 0 <= rem < 255
      modifies this`offs, this`front, this`ext, this`rem, this`error, buf
      ensures Stored() && old(front) <= front
      ensures rem == if c == 255 then old(rem) else c % 256
      ensures rem < 0 ==> front == []
      ensures |front| + Pending() <= |old(front)| + old(Pending()) + 1
      ensures error == 0 ==>
                && old(error) == 0 && |front| + Pending() == |old(front)| + old(Pending()) + 1
                && Num(Written()) == Num(old(Written())) * 256 + c
      ensures error != 0 && old(error) == 0 ==> |front| + |tail| == storage && rem >= 0
      ensures error != 0 && old(error) == 0 ==> |front| + Pending() <= |old(front)| + old(Pending())
      ensures ext == if c == 255 then old(ext) + 1 else 0
    {
      hide Num, Stored;
      if c != 255 {
        CarryValue(front, rem, ext, c);
        Settle(c / 256);
        rem := c % 256;
        assert Written() == front + [c % 256];
      } else {
        FillMore(ext, 255);
        assert Digits(front, rem, ext + 1, 255) == Written() + [255];
        NumSnoc(Written(), 255);
        ext := ext + 1;
      }
    }

    /** One turn of the renormalization loop: a digit moves out of val. */
    method ShiftOut(ghost sp: Span)
      requires Stored() && 0 < sp.rng <= BOT && Front(sp)
      modifies this`offs, this`front, this`ext, this`rem, this`error, this`val, this`rng, this`nbitsTotal, buf
      ensures Stored() && old(front) <= front && val < TOP && (old(rem) >= 0 ==> rem >= 0)
      ensures Registers() == ShiftedOnce(old(Registers()))
      ensures Front(Span(sp.low * 256, sp.rng * 256, sp.n + 1, sp.nraw))
      ensures error == 0 ==> old(error) == 0
      ensures error != 0 && old(error) == 0 ==> |front| + |tail| == storage && rem >= 0
    {
      hide Num, Digits, Stored;
      Rescale(Num(Written()), val, rng);
      CarryOut(val / BOT);
      assert error == 0 ==> Num(Written()) * TOP + val * 256 % TOP == sp.low * 256;
      val := (val * 256) % TOP;
      rng := rng * 256;
      nbitsTotal := nbitsTotal + 8;
    }

    /** The renormalization loop: digits move out while the range is small. */
    method EncNormalize(ghost sp: Span)
      requires Stored() && 0 < sp.rng <= TOP && Front(sp)
      modifies this`offs, this`front, this`ext, this`rem, this`error, this`val, this`rng, this`nbitsTotal, buf
      ensures Stored() && old(front) <= front && Front(Norm(sp))
      ensures Registers() == Shifted(old(Registers()))
      ensures Norm(sp).n > sp.n ==> val < TOP
      ensures Norm(sp).n <= sp.n ==> Written() == old(Written())
      ensures error == 0 ==> old(error) == 0
      ensures error != 0 && old(error) == 0 ==> |front| + |tail| == storage && rem >= 0
    {
      hide Num, Digits, Stored;
      Room();
      ghost var cur := sp;
      while rng <= BOT
        invariant Stored() && old(front) <= front && 0 < cur.rng <= TOP && Front(cur)
        invariant |front| + |tail| <= storage
        invariant Norm(cur) == Norm(sp) && cur.n >= sp.n && cur.rng == rng
        invariant Shifted(Registers()) == Shifted(old(Registers()))
        invariant cur.n > sp.n ==> val < TOP
        invariant cur.n == sp.n ==> Written() == old(Written())
        invariant error == 0 ==> old(error) == 0
        invariant error != 0 && old(error) == 0 ==> |front| + |tail| == storage && rem >= 0
        decreases TOP - rng
      {
        ShiftOut(cur);
        Room();
        cur := Span(cur.low * 256, cur.rng * 256, cur.n + 1, cur.nraw);
      }
    }

    /** The state between narrowing the range by op and renormalizing. */
    ghost predicate Narrowed(op: Op)
      reads this, buf
    {
      && Stored()
      && AllLegal(ops) && Legal(op) && op.Sym?
      && Front(Narrow(Where(), op))
      && Back(ops)
      && (error == 0 ==> Num(Written()) == Emitted(ops))
      && (Spent(Where()) <= 8 * storage ==> error == 0)
    }

    /** ec_enc_normalize, completing step op. */
    method Complete(ghost op: Op)
      requires Narrowed(op)
      modifies this`offs, this`front, this`ext, this`rem, this`error, this`val, this`rng, this`nbitsTotal, this`ops, buf
      ensures ValidEnc() && ops == old(ops) + [op] && Where() == Step(old(Where()), op)
      ensures Keeps(old(front), old(tail)) && Registers() == Shifted(old(Registers()))
    {
      hide Num, Digits, Tell, Run, Norm, Shifted, RawBits, RawOf, Emitted, Stored;
      RunSnoc(START, ops, op);
      RawSnoc(ops, op);
      EmittedSnoc(ops, op);
      StepTellMono(Where(), op);
      ghost var w := Narrow(Where(), op);
      NormTell(w);
      EncNormalize(w);
      ops := ops + [op];
      if error != 0 && old(error) == 0 { SpentFull(); }
    }

    /** A front and an end that meet leave no room for the bits already counted. */
    lemma SpentFull()
      requires AllLegal(ops) && Front(Where()) && Back(ops)
      requires rem >= 0 && |front| + |tail| == storage
      ensures Spent(Where()) > 8 * storage
    {
      hide Num, Digits, Run;
      RunRaw(START, ops);
    }

    /** ec_encode */
    method Encode(fl: nat, fh: nat, ft: nat)
      requires ValidEnc() && fl < fh <= ft <= BOT
      modifies this, buf
      ensures ValidEnc() && ops == old(ops) + [Sym(fl == 0, fl, fh, ft)]
      ensures storage == old(storage) && Keeps(old(front), old(tail)) && tail == old(tail)
    {
      hide Num, Digits, Stored, Back, Emitted, Run, Tell, Near;
      ghost var op := Sym(fl == 0, fl, fh, ft);
      EndsInside(rng, op);
      Ends(rng, op);
      var r := rng / ft;
      if fl > 0 {
        val := val + (rng - r * (ft - fl));
        rng := r * (fh - fl);
      } else {
        rng := rng - r * (ft - fh);
      }
      Complete(op);
    }

    /** ec_encode_bin */
    method EncodeBin(fl: nat, fh: nat, bits: nat)
      requires ValidEnc() && bits <= 23 && fl < fh <= Pow2(bits)
      modifies this, buf
      ensures Pow2(bits) <= BOT
      ensures ValidEnc() && ops == old(ops) + [Sym(fl == 0, fl, fh, Pow2(bits))]
      ensures storage == old(storage) && Keeps(old(front), old(tail)) && tail == old(tail)
    {
      hide Num, Digits, Stored, Back, Emitted, Run, Tell, Near, Pow2;
      BinLegal(bits);
      ghost var op := Sym(fl == 0, fl, fh, Pow2(bits));
      EndsInside(rng, op);
      Ends(rng, op);
      var r := rng / Pow2(bits);
      if fl > 0 {
        val := val + (rng - r * (Pow2(bits) - fl));
        rng := r * (fh - fl);
      } else {
        rng := rng - r * (Pow2(bits) - fh);
      }
      Complete(op);
    }

    /** ec_enc_bit_logp */
    method EncBitLogp(v: bool, logp: nat)
      requires ValidEnc() && 1 <= logp <= 23
      modifies this, buf
      ensures ValidEnc() && ops == old(ops) + [BitOp(v, logp)]
      ensures storage == old(storage) && Keeps(old(front), old(tail)) && tail == old(tail)
      ensures Registers() == Shifted(FlagRegister(old(Registers()), v, logp))
    {
      hide Num, Digits, Stored, Back, Emitted, Run, Tell, Near, Pow2, Shifted;
      ghost var op := BitOp(v, logp);
      EndsInside(rng, op);
      Ends(rng, op);
      FlagShare(rng, logp);
      var r, l := rng, val;
      var s := r / Pow2(logp);
      assert s * (Pow2(logp) - (Pow2(logp) - 1)) == s;
      r := r - s;
      if v { val := l + r; }
      rng := if v then s else r;
      assert Registers() == FlagRegister(old(Registers()), v, logp);
      Complete(op);
    }

    /** ec_enc_icdf and ec_enc_icdf16 */
    method EncIcdf(s: nat, icdf: seq<nat>, ftb: nat)
      requires ValidEnc() && IcdfTable(icdf, ftb) && HasWidth(icdf, s, ftb)
      modifies this, buf
      ensures ValidEnc() && ops == old(ops) + [IcdfOp(s, icdf, ftb)]
      ensures storage == old(storage) && Keeps(old(front), old(tail)) && tail == old(tail)
    {
      hide Num, Digits, Stored, Back, Emitted, Run, Tell, Near, Pow2, IcdfTable;
      ghost var op := IcdfOp(s, icdf, ftb);
      EndsInside(rng, op);
      Ends(rng, op);
      var r := rng / Pow2(ftb);
      if s > 0 {
        val := val + (rng - r * icdf[s - 1]);
        rng := r * (icdf[s - 1] - icdf[s]);
      } else {
        rng := rng - r * icdf[s];
      }
      Complete(op);
    }

    /** One whole byte of the raw-bit window goes to the end of the buffer. */
    method FlushByte(window: nat, ghost used: nat)
      requires Stored() && 8 <= used && window < Pow2(used)
      modifies this`endOffs, this`tail, this`error, buf
      ensures Stored() && window / 256 < Pow2(used - 8)
      ensures forall t :: Suffix(t, old(tail)) ==> Suffix(t, tail)
      ensures error == 0 ==> old(error) == 0
      ensures |tail| == |old(tail)| + (if |front| + |old(tail)| < storage then 1 else 0)
      ensures old(error) == 0 ==> (error == 0 <==> |front| + |old(tail)| < storage)
      ensures error == 0 ==> RawTotal(tail, window / 256) == RawTotal(old(tail), window)
    {
      hide Pow2, Stored, RawTotal, Suffix;
      TailByte(tail, window, used);
      forall t | Suffix(t, tail) ensures Suffix(t, [window % 256] + tail) { SuffixCons(t, tail, window % 256); }
      var err := WriteByteAtEnd(window % 256);
      if err != 0 { error := -1; }
    }

    /** The loop writing whole bytes of the raw-bit window to the end. */
    method FlushWindow(w: nat, u: nat) returns (window: nat, used: nat)
      requires Stored() && w < Pow2(u)
      modifies this`endOffs, this`tail, this`error, buf
      ensures Stored() && |front| + |tail| <= storage && Suffix(old(tail), tail)
      ensures used == u % 8 && window < Pow2(used)
      ensures used + 8 * |tail| <= u + 8 * |old(tail)|
      ensures error == 0 ==> old(error) == 0 && used + 8 * |tail| == u + 8 * |old(tail)|
      ensures error == 0 ==> RawTotal(tail, window) == RawTotal(old(tail), w)
      ensures error != 0 && old(error) == 0 ==>
                |front| + |tail| == storage && used + 8 * |tail| + 8 <= u + 8 * |old(tail)|
    {
      Room();
      assert Suffix(tail, tail);
      hide Pow2, Stored, RawTotal, Suffix;
      window, used := w, u;
      ghost var k := 0;
      while used >= 8
        invariant Stored() && |front| + |tail| <= storage && Suffix(old(tail), tail)
        invariant 0 <= used && used + 8 * k == u && window < Pow2(used)
        invariant |tail| <= |old(tail)| + k
        invariant error == 0 ==> old(error) == 0 && |tail| == |old(tail)| + k
        invariant error == 0 ==> RawTotal(tail, window) == RawTotal(old(tail), w)
        invariant error != 0 && old(error) == 0 ==> |front| + |tail| == storage && |tail| < |old(tail)| + k
      {
        FlushByte(window, used);
        window := window / 256;
        used := used - 8;
        k := k + 1;
      }
    }

    /** Room for more bits in the window: full bytes leave it at the end. */
    method MakeRoom(bits: nat) returns (window: nat, used: nat)
      requires ValidEnc() && bits <= 25
      modifies this`endOffs, this`tail, this`error, buf
      ensures Stored() && |front| + |tail| <= storage && Suffix(old(tail), tail)
      ensures used + bits <= 32 && window < Pow2(used) && used + 8 * |tail| <= RawBits(ops)
      ensures error == 0 ==> old(error) == 0 && used + 8 * |tail| == RawBits(ops)
      ensures error == 0 ==> RawTotal(tail, window) == RawOf(ops)
      ensures error != 0 && old(error) == 0 ==>
                |front| + |tail| == storage && used + 8 * |tail| + 8 <= RawBits(ops)
    {
      hide Num, Digits, Stored, Emitted, Run, Tell, Pow2, RawBits, RawOf, RawTotal, Front;
      Room();
      window, used := endWindow, nendBits;
      if used + bits > 32 { window, used := FlushWindow(window, used); }
    }

    /** ec_enc_bits */
    method EncBits(v: nat, bits: nat)
      requires ValidEnc() && 1 <= bits <= 25 && v < Pow2(bits)
      modifies this, buf
      ensures ValidEnc() && ops == old(ops) + [Raw(v, bits)]
      ensures storage == old(storage) && Keeps(old(front), old(tail)) && front == old(front)
    {
      hide Num, Digits, Stored, Emitted, Run, Tell, Pow2, RawBits, RawOf, RawTotal, Written;
      ghost var op := Raw(v, bits);
      RunSnoc(START, ops, op);
      RawSnoc(ops, op);
      EmittedSnoc(ops, op);
      StepTellMono(Where(), op);
      var window, used := MakeRoom(bits);
      if error != 0 && old(error) == 0 { SpentRawFull(used); }
      MulNat(v, Pow2(used));
      WindowAdd(window, used, v, bits);
      WindowValue(tail, window, v, used);
      window := Or(v * Pow2(used), window);
      used := used + bits;
      endWindow := window;
      nendBits := used;
      nbitsTotal := nbitsTotal + bits;
      ops := ops + [op];
    }

    lemma SpentRawFull(used: nat)
      requires AllLegal(ops) && |front| + |tail| == storage
      requires |front| <= Where().n && used + 8 * |tail| + 8 <= RawBits(ops)
      ensures Spent(Where()) > 8 * storage
    {
      hide Run;
      RunRaw(START, ops);
    }

    /** ec_enc_uint */
    method EncUint(v: nat, total: nat)
      requires ValidEnc() && 2 <= total < 0x1_0000_0000 && v < total
      modifies this, buf
      ensures ValidEnc() && ops == old(ops) + UintOps(v, total)
      ensures storage == old(storage) && Keeps(old(front), old(tail))
    {
      hide ValidEnc, Pow2, ILog;
      var last := total - 1;
      var ftb := ILog(last);
      if ftb > 8 {
        UintSplit(v, total);
        ftb := ftb - 8;
        var ft := last / Pow2(ftb) + 1;
        var fl := v / Pow2(ftb);
        Encode(fl, fl + 1, ft);
        EncBits(v % Pow2(ftb), ftb);
        assert ops == old(ops) + ([UintHead(v, total, Pow2(ftb))] + [Raw(v % Pow2(ftb), ftb)]);
      } else {
        SmallUint(total);
        Encode(v, v + 1, last + 1);
      }
    }

    /** The numbers a patched encoder must show for the new history. */
    ghost predicate Shows(steps: seq<Op>)
      reads `front, `rem, `ext, `val, `rng
      requires AllLegal(steps)
    {
      && Proper(START) && -1 <= rem <= 255
      && Num(Written()) == Emitted(steps) && Num(Written()) * TOP + val == Run(START, steps).low
      && (rem < 0 || rem == 255 ==> val + rng <= TOP)
    }

    /** Changing only the digits, or only val, so that they show the new history,
        makes the encoder stand for it. */
    lemma PatchedValid(v: nat, v': nat, k: nat, head: seq<Op>, head': seq<Op>, rest: seq<Op>)
      requires FlagHead(head, v, k) && FlagHead(head', v', k) && AllLegal(rest) && AllLegal(head' + rest)
      requires ops == head' + rest && error == 0 && Stored() && Shows(head' + rest)
      requires -1 <= rem <= 255 && (rem < 0 ==> front == []) && val + rng < 2 * TOP && (rng == TOP ==> val < TOP)
      requires AllLegal(head + rest) && var sp := Run(START, head + rest);
        && rng == sp.rng && nbitsTotal == 33 + 8 * sp.n + sp.nraw && |front| + Pending() == sp.n
      requires Back(head + rest)
      ensures ValidEnc()
    {
      hide Num, Digits, Emitted, Run, Stored, RawBits, RawOf, RawTotal, Pow2, FlagHead;
      RestMoved(head, head', rest, v, v', k);
      HeadRaw(head, v, k);
      HeadRaw(head', v', k);
      RestRaw(head, head', rest);
    }

    /** Digits w, patched in their first byte, show the new history. */
    lemma ShowsPatched(w: seq<byte>, v: nat, v': nat, k: nat, head: seq<Op>, head': seq<Op>, rest: seq<Op>)
      requires FlagHead(head, v, k) && FlagHead(head', v', k) && AllLegal(rest) && AllLegal(head + rest)
      requires var sp := Run(START, head + rest);
        w != [] && |w| == sp.n && Num(w) == Emitted(head + rest) && Num(w) * TOP + val == sp.low
      requires -1 <= rem <= 255
      requires Written() == [Replace(w[0], v', k) % 256] + w[1..]
      ensures AllLegal(head' + rest) && Proper(START)
      ensures Num(Written()) == Emitted(head' + rest)
      ensures Num(Written()) * TOP + val == Run(START, head' + rest).low
    {
      hide *;
      StartProper();
      assert w == [w[0]] + w[1..];
      HeadFits(head', v', k);
      ReplaceBound(w[0], v', k);
      FirstFlags(head, rest, v, k, w[0], w[1..]);
      FirstPatched(head, head', rest, v, v', k, w[0], w[1..]);
      RestMoved(head, head', rest, v, v', k);
      LowMoved(Num(w), Num(Written()), val, Run(START, head + rest), Run(START, head' + rest), v, v', k);
    }

    /** The first byte of the buffer gets the new flags. */
    method PatchFront(v': nat, k: nat)
      requires Stored() && offs > 0 && k <= 8 && v' < Pow2(k)
      modifies this`front, buf
      ensures Stored() && front == old(front)[0 := Replace(old(front[0]), v', k) % 256]
    {
      hide Or, Pow2, LowBits, Replace;
      OrReplace(front[0], v', k);
      assert buf[0] == buf[..offs][0];
      buf[0] := Or(v' * Pow2(8 - k), LowBits(buf[0], 8 - k)) % 256;
      front := front[0 := Replace(front[0], v', k) % 256];
      assert buf[..offs] == front;
    }

    /** The buffered byte, still awaiting its carry, gets the new flags. */
    method PatchRem(v': nat, k: nat)
      requires k <= 8 && v' < Pow2(k) && 0 <= rem <= 255
      modifies this`rem
      ensures 0 <= rem <= 255 && rem == Replace(old(rem), v', k) % 256
    {
      hide Or, Pow2, LowBits, Replace;
      OrReplace(rem, v', k);
      rem := Or(v' * Pow2(8 - k), LowBits(rem, 8 - k)) % 256;
    }

    /** A buffered byte 0xFF with only 0xFF behind it cannot receive a carry. */
    lemma LastCarry(sp: Span)
      requires Proper(sp) && front == [] && rem == 255 && 1 + ext == sp.n && rng == sp.rng
      requires Num(Written()) * TOP + val == sp.low
      ensures val + rng <= TOP
    {
      hide Num;
      DigitsValue(front, 255, ext);
      assert Num(front) == 0 by { NumBound(front); PowZero(); }
      Pow2Byte(ext);
    }

    ghost predicate Patchable(v: nat, v': nat, k: nat, head: seq<Op>, head': seq<Op>, rest: seq<Op>)
      reads this, buf
    {
      ValidEnc() && error == 0 && ops == head + rest
      && FlagHead(head, v, k) && FlagHead(head', v', k) && AllLegal(rest)
    }

    /** The first byte is final: it is rewritten in the buffer. */
    method PatchFinal(v': nat, k: nat, ghost v: nat, ghost head: seq<Op>, ghost head': seq<Op>, ghost rest: seq<Op>)
      requires Patchable(v, v', k, head, head', rest) && k <= 8 && v' < Pow2(k) && offs > 0
      modifies this`front, this`ops, buf
      ensures ValidEnc() && error == 0 && ops == head' + rest
    {
      hide Emitted, Run, RawBits, RawOf, RawTotal, Pow2, FlagHead, Num, Replace, LowBits, Digits, Or, Back, Stored;
      RestMoved(head, head', rest, v, v', k);
      Room();
      ghost var w := Written();
      DigitsCount(front, rem, ext);
      DigitsHead(front, rem, ext, Replace(front[0], v', k) % 256);
      PatchFront(v', k);
      ops := head' + rest;
      ShowsPatched(w, v, v', k, head, head', rest);
      PatchedValid(v, v', k, head, head', rest);
    }

    /** The first byte awaits its carry: it is rewritten where it waits. */
    method PatchWaiting(v': nat, k: nat, ghost v: nat, ghost head: seq<Op>, ghost head': seq<Op>, ghost rest: seq<Op>)
      requires Patchable(v, v', k, head, head', rest) && k <= 8 && v' < Pow2(k) && front == [] && rem >= 0
      modifies this`rem, this`ops
      ensures ValidEnc() && error == 0 && ops == head' + rest
    {
      hide Emitted, Run, RawBits, RawOf, RawTotal, Pow2, FlagHead, Num, Replace, LowBits, Digits, Or, Back, Stored;
      RestMoved(head, head', rest, v, v', k);
      ghost var w := Written();
      DigitsCount(front, rem, ext);
      DigitsRem(rem, ext, Replace(rem, v', k) % 256);
      PatchRem(v', k);
      ops := head' + rest;
      ShowsPatched(w, v, v', k, head, head', rest);
      if rem == 255 { LastCarry(Run(START, head' + rest)); }
      PatchedValid(v, v', k, head, head', rest);
    }

    /** No digit is out yet: the flags are rewritten in val. */
    method PatchLow(v': nat, k: nat, ghost v: nat, ghost head: seq<Op>, ghost head': seq<Op>, ghost rest: seq<Op>)
      requires Patchable(v, v', k, head, head', rest) && k <= 8 && v' < Pow2(k) && rem < 0 && ext == 0
      modifies this`val, this`ops
      ensures ValidEnc() && error == 0 && ops == head' + rest
    {
      hide Emitted, Run, RawBits, RawOf, RawTotal, FlagHead, Num, LowBits, Digits, Or, Back, Stored, Pow2;
      RestMoved(head, head', rest, v, v', k);
      UnscaledPatched(head, head', rest, v, v', k);
      PowZero();
      Settled(front);
      NumEmpty();
      LowPart(val, v', 31 - k, k);
      OrLowBits(val, v', 31 - k);
      val := Or(v' * Pow2(31 - k), LowBits(val, 31 - k));
      ops := head' + rest;
      PatchedValid(v, v', k, head, head', rest);
    }

    /** ec_enc_patch_initial_bits: the stream becomes the one that coded the flags
        v' instead of v.  A first byte still pending as 0xFF is out of reach: then
        no change of the flags can succeed. */
    method PatchInitialBits(v': nat, k: nat, ghost v: nat, ghost head: seq<Op>, ghost head': seq<Op>,
                            ghost rest: seq<Op>)
      requires Patchable(v, v', k, head, head', rest)
      modifies this`front, this`rem, this`val, this`error, this`ops, buf
      ensures AllLegal(head' + rest)
      ensures !(old(rem) < 0 && old(ext) > 0) ==> ValidEnc() && error == 0 && ops == head' + rest
      ensures old(rem) < 0 && old(ext) > 0 && v' != v ==> error != 0 || !Shows(head' + rest)
      ensures old(rem) < 0 && old(ext) > 0 ==> Stored() && front == old(front) && rem == old(rem) && ops == old(ops)
      ensures old(rem) < 0 && old(ext) > 0 && error == 0 ==> val == Or(v' * Pow2(31 - k), LowBits(old(val), 31 - k))
      ensures error == 0 <==> old(offs) > 0 || old(rem) >= 0 || old(rng) <= TOP / Pow2(k)
    {
      hide Emitted, Run, RawBits, RawOf, RawTotal, Pow2, FlagHead, Num, Replace, LowBits, Digits, Or, Back, Stored;
      RestMoved(head, head', rest, v, v', k);
      HeadFits(head', v', k);
      Room();
      if offs > 0 {
        PatchFinal(v', k, v, head, head', rest);
      } else if rem >= 0 {
        PatchWaiting(v', k, v, head, head', rest);
      } else if rng <= TOP / Pow2(k) {
        if ext == 0 {
          PatchLow(v', k, v, head, head', rest);
        } else {
          DigitsCount(front, rem, ext);
          if v' != v { DeltaNonzero(v, v', k, Where().n); }
          val := Or(v' * Pow2(31 - k), LowBits(val, 31 - k));
        }
      } else {
        if ext == 0 { UnscaledPatched(head, head', rest, v, v', k); }
        error := -1;
      }
    }

    /** memmove of the raw bytes; the two areas may overlap. */
    method MoveTail(size: nat)
      requires Stored() && offs + endOffs <= size <= storage
      modifies buf
      ensures buf[..offs] == front && buf[size - endOffs..size] == tail
    {
      var from, to, n := storage - endOffs, size - endOffs, endOffs;
      ghost var was := buf[..];
      assert was[..offs] == front && was[from..from + n] == tail;
      hide *;
      forall i | to <= i < to + n {
        buf[i] := buf[i - to + from];
      }
      assert buf[..offs] == was[..offs];
      assert buf[to..to + n] == was[from..from + n];
    }

    /** ec_enc_shrink: the raw bytes move to the end of the smaller buffer. */
    method Shrink(size: nat)
      requires ValidEnc() && offs + endOffs <= size <= storage
      modifies this`storage, buf
      ensures ValidEnc() && storage == size
    {
      Room();
      MoveTail(size);
      hide Num, Digits, Emitted, Run, Tell, Front, Back;
      storage := size;
    }

    /** The code word to end with, aligned to its last bit: the first aligned
        block from val on if it fits in the range, else half that block. */
    method ChooseEnd() returns (l: nat, end: nat)
      requires ValidEnc()
      ensures l <= 9 && val <= end && end + Pow2(31 - l) <= val + rng
      ensures l == 0 ==> end < TOP
      ensures error == 0 ==> l == FlushLen(Where())
      ensures error == 0 ==> Num(Written()) * TOP + end == FlushEnd(Where())
    {
      hide Num, Digits, Stored, Back, Emitted, Run, Tell, RawOf, RawTotal, Pow2, ILog, RoundUp;
      RangeBits(Where());
      ILogBounds(rng);
      Pow2Values();
      l := 32 - ILog(rng);
      var size := Pow2(31 - l);  // msk + 1
      ghost var num := Num(Written());
      Aligned(num, l, val);
      end := RoundUp(val, size);
      if end + (size - 1) >= val + rng {
        l := l + 1;
        HalfBlock(32 - l);
        size := size / 2;
        Aligned(num, l, val);
        end := RoundUp(val, size);
      }
    }

    method EmitDigit(end: nat) returns (next: nat)
      requires Stored() && end < 2 * TOP
      requires -1 <= rem <= 255 && (rem < 0 ==> front == []) && (end >= TOP ==> 0 <= rem < 255)
      modifies this`offs, this`front, this`ext, this`rem, this`error, buf
      ensures Stored() && |front| + |tail| <= storage && old(front) <= front
      ensures -1 <= rem <= 255 && (rem < 0 ==> front == []) && next < TOP
      ensures |front| + Pending() <= |old(front)| + old(Pending()) + 1
      ensures error == 0 ==>
                && old(error) == 0 && |front| + Pending() == |old(front)| + old(Pending()) + 1
                && Num(Written()) * TOP + next == (Num(old(Written())) * TOP + end) * 256
      ensures error != 0 && old(error) == 0 ==>
                |front| + |tail| == storage && |front| + Pending() <= |old(front)| + old(Pending())
    {
      hide Num, Digits, Stored;
      Rescale(Num(Written()), end, 1);
      CarryOut(end / BOT);
      next := end * 256 % TOP;
      Room();
    }

    /** The code word moves out, byte by byte. */
    method EmitEnd(l0: nat, end0: nat) returns (spare: nat, ghost bytes: nat, ghost low: nat)
      requires Stored() && l0 <= 9 && end0 < 2 * TOP
      requires -1 <= rem <= 255 && (rem < 0 ==> front == []) && (end0 >= TOP ==> 0 <= rem < 255)
      modifies this`offs, this`front, this`ext, this`rem, this`error, buf
      ensures Stored() && old(front) <= front && -1 <= rem <= 255 && (rem < 0 ==> front == [])
      ensures l0 + spare == 8 * bytes && spare < 8
      ensures error == 0 ==> old(error) == 0 && |front| + Pending() == |old(front)| + old(Pending()) + bytes
      ensures if bytes == 0 then low == end0 else low < TOP
      ensures error == 0 ==>
        Num(Written()) * TOP + low == Scaled(Num(old(Written())) * TOP + end0, bytes)
      ensures error != 0 && old(error) == 0 ==>
                |front| + |tail| == storage && |front| + Pending() < |old(front)| + old(Pending()) + bytes
    {
      hide Num, Digits, Stored, Scaled, Pending, Written;
      Room();
      NextByte(Num(Written()) * TOP + end0, 0);
      var l: int, end: nat := l0, end0;
      bytes := 0;
      ghost var e := Num(Written()) * TOP + end0;
      while l > 0
        invariant Stored() && |front| + |tail| <= storage && old(front) <= front
        invariant -1 <= rem <= 255 && (rem < 0 ==> front == []) && (end >= TOP ==> 0 <= rem < 255)
        invariant l == l0 - 8 * bytes && -8 < l && end < 2 * TOP
        invariant if bytes == 0 then end == end0 else end < TOP
        invariant error == 0 ==> old(error) == 0 && |front| + Pending() == |old(front)| + old(Pending()) + bytes
        invariant error == 0 ==> Num(Written()) * TOP + end == Scaled(e, bytes)
        invariant error != 0 && old(error) == 0 ==>
                    |front| + |tail| == storage && |front| + Pending() < |old(front)| + old(Pending()) + bytes
      {
        NextByte(e, bytes);
        end := EmitDigit(end);
        l := l - 8;
        bytes := bytes + 1;
      }
      spare, low := -l, end;
    }

    /** The front holds exactly the code word of sp, `spare` zero bits after it. */
    ghost predicate RangeDone(sp: Span, spare: nat)
      reads `front
      requires Proper(sp)
    {
      && 8 * |front| == CodeBits(sp) + spare
      && Num(front) == CodeWord(sp) * Pow2(spare) && LowBits(Num(front), spare) == 0
    }

    /** The first half of ec_enc_done: the shortest safe code word, then every
        buffered byte.  Returns how many low bits of the last byte are free. */
    method FlushRange() returns (spare: nat)
      requires ValidEnc()
      modifies this`offs, this`front, this`ext, this`rem, this`error, buf
      ensures Stored() && old(front) <= front && spare < 8
      ensures error == 0 ==> old(error) == 0 && RangeDone(Where(), spare)
      ensures error != 0 && old(error) == 0 ==>
                |front| + |tail| == storage && 8 * |front| + 8 <= CodeBits(Where()) + spare
    {
      hide Num, Stored, Digits, Back, Emitted, Run, Tell, RawOf, RawTotal, Pow2, FlushLen, FlushEnd, CodeWord, LowBits;
      Room();
      var l, end := ChooseEnd();
      ghost var bytes, low;
      ghost var sp := Where();
      spare, bytes, low := EmitEnd(l, end);
      if error == 0 {
        LastDigits(sp, Num(Written()), low, bytes, spare);
        LowBitsNone(CodeWord(sp), spare);
      }
      if rem >= 0 || ext > 0 {
        CarryOut(0);
        Room();
      }
      Settled(front);
    }

    ghost function Cleared(): seq<byte>
      reads `storage, `front, `tail
      requires |front| + |tail| <= storage
    {
      front + Fill(storage - |front| - |tail|, 0) + tail
    }

    /** The unused bytes between front and tail become zero. */
    method ClearGap()
      requires Stored()
      modifies buf
      ensures Stored() && |front| + |tail| <= storage && buf[..storage] == Cleared()
    {
      forall i | offs <= i < storage - endOffs {
        buf[i] := 0;
      }
      FillZeros(storage - endOffs - offs);
    }

    /** The packet as a number, once `window` is all that is left to write. */
    ghost function Whole(window: nat): nat
      reads `storage, `front, `tail
      requires |front| <= storage
    {
      Num(front) * Pow2(8 * (storage - |front|)) + RawTotal(tail, window)
    }

    /** What the last partial byte of raw bits makes of the packet. */
    lemma Packed(spare: nat, w: nat)
      requires |front| + |tail| <= storage && w < 256 && spare < 8 && LowBits(Num(front), spare) == 0
      requires RoomFor(spare, w)
      ensures var i := storage - |tail| - 1;
        && |Cleared()| == storage && Or(Cleared()[i], w) < 256
        && Num(Cleared()[i := Or(Cleared()[i], w) as byte]) == Whole(w)
    {
      var g := storage - |front| - |tail|;
      var i := storage - |tail| - 1;
      FillZeros(g);
      if g > 0 {
        assert Cleared()[i] == 0 && Or(0, w) == w;
        hide Num, Or, Pow2;
        FillZeros(g - 1);
        assert Cleared()[i := w as byte] == front + Fill(g - 1, 0) + [w] + tail;
        PackGap(front, g - 1, w, tail);
      } else {
        hide Num, Or, Pow2;
        PackShared(front, w, tail, spare);
        var k := |front| - 1;
        assert Cleared()[i := (front[k] + w) as byte] == front[..k] + [(front[k] + w) as byte] + tail;
      }
    }

    lemma PackedWhole()
      requires |front| + |tail| <= storage
      ensures Num(Cleared()) == Whole(0)
    {
      hide Num, Fill, Pow2;
      PackWhole(front, storage - |front| - |tail|, tail);
    }

    /** There is a byte, or enough of one, for these remaining raw bits. */
    ghost predicate RoomFor(spare: nat, w: nat)
      reads `storage, `front, `tail
    {
      |front| + |tail| < storage || (front != [] && |tail| < storage && w < Pow2(spare))
    }

    method SetByte(i: nat, v: byte)
      requires i < storage <= buf.Length
      modifies buf
      ensures buf[..storage] == old(buf[..storage])[i := v]
    {
      buf[i] := v;
    }

    method OrByte(ghost spare: nat, w: nat)
      requires Stored() && |front| + |tail| <= storage <= buf.Length && buf[..storage] == Cleared()
      requires |tail| < storage && w < 256 && spare < 8 && LowBits(Num(front), spare) == 0
      modifies buf
      ensures RoomFor(spare, w) ==> Num(buf[..storage]) == Whole(w)
    {
      hide Num, Cleared, Pow2, Stored, Or, Whole, LowBits, RoomFor;
      Room();
      var i := storage - endOffs - 1;
      ghost var was := buf[..storage];
      assert buf[i] == was[i];
      var v := Or(buf[i], w) % 256;
      SetByte(i, v);
      if RoomFor(spare, w) { PackedByte(was, i, v, spare, w); }
    }

    lemma PackedByte(was: seq<byte>, i: nat, v: nat, spare: nat, w: nat)
      requires |front| + |tail| <= storage && w < 256 && spare < 8 && LowBits(Num(front), spare) == 0
      requires RoomFor(spare, w) && was == Cleared() && i == storage - |tail| - 1 && i < |was|
      requires v == Or(was[i], w) % 256
      ensures Num(was[i := v as byte]) == Whole(w)
    {
      hide Num, Cleared, Pow2, Or, Whole, LowBits, RoomFor;
      Packed(spare, w);
    }

    lemma FitsByte(spare: nat, w: nat, used: nat)
      requires 0 < used < 8 && w < Pow2(used) && (front == [] ==> spare == 0)
      requires |tail| < storage && (|front| + |tail| >= storage ==> used <= spare)
      ensures w < 256 && RoomFor(spare, w)
    {
      Pow2Mono(used, 8);
      Pow2Values();
      if used <= spare { Pow2Mono(used, spare); }
    }

    /** The remaining raw bits join the byte before the tail, which may be the
        last range coder byte. */
    method AddRaw(spare: nat, window0: nat, used: nat)
      requires Stored() && error == 0 && |front| + |tail| <= storage <= buf.Length && buf[..storage] == Cleared()
      requires 0 < used < 8 && window0 < Pow2(used) && spare < 8 && (front == [] ==> spare == 0)
      requires LowBits(Num(front), spare) == 0
      modifies this`error, buf
      ensures error == 0 <==> 8 * |front| - spare + 8 * |tail| + used <= 8 * storage
      ensures error == 0 ==> Num(buf[..storage]) == Whole(window0)
    {
      hide Num, Cleared, Pow2, Stored, Whole, LowBits, RoomFor;
      Room();
      if endOffs >= storage {
        error := -1;
      } else {
        var window := window0;
        if offs + endOffs >= storage && spare < used {
          window := LowBits(window, spare);
          error := -1;
        } else {
          FitsByte(spare, window, used);
        }
        OrByte(spare, window % 256);
      }
    }

    /** The last part of ec_enc_done: clear the gap, then add the raw bits left. */
    method Pack(spare: nat, window: nat, used: nat)
      requires Stored() && error == 0
      requires used < 8 && window < Pow2(used) && spare < 8 && (front == [] ==> spare == 0)
      requires LowBits(Num(front), spare) == 0
      modifies this`error, buf
      ensures error == 0 <==> 8 * |front| - spare + 8 * |tail| + used <= 8 * storage
      ensures |front| <= storage <= buf.Length && (error == 0 ==> Num(buf[..storage]) == Whole(window))
    {
      Room();
      PowZero();
      hide Num, Cleared, Pow2, Stored, Whole, LowBits;
      ClearGap();
      PackedWhole();
      if used > 0 { AddRaw(spare, window, used); }
    }

    lemma RangeBytes(sp: Span, spare: nat)
      requires Proper(sp) && RangeDone(sp, spare)
      ensures 8 * |front| == CodeBits(sp) + spare && LowBits(Num(front), spare) == 0
    {
    }

    lemma WholePacket(sp: Span, spare: nat, window: nat)
      requires Proper(sp) && |front| <= storage && Fits(sp, storage)
      requires RangeDone(sp, spare)
      ensures Whole(window) == PacketNum(sp, RawTotal(tail, window), storage)
    {
      hide Num, FlushLen, CodeWord, Pow2, RawTotal;
      PacketTop(CodeWord(sp), spare, 8 * (storage - |front|));
    }

    /** The second half of ec_enc_done: the raw bits still in the window. */
    method FlushRaw(spare: nat, ghost sp: Span)
      requires Stored() && spare < 8 && endWindow < Pow2(nendBits) && Proper(sp)
      requires error == 0 ==> RangeDone(sp, spare) && nendBits + 8 * |tail| == sp.nraw
      modifies this`endOffs, this`tail, this`error, buf
      ensures storage <= buf.Length
      ensures error == 0 <==> old(error) == 0 && Fits(sp, storage)
      ensures error == 0 ==>
        Num(buf[..storage]) == PacketNum(sp, RawTotal(old(tail), endWindow), storage)
    {
      hide Num, Stored, RawTotal, Pow2, FlushLen, FlushEnd, CodeWord, LowBits, Whole, PacketNum, RangeDone;
      if error == 0 { RangeBytes(sp, spare); }
      var window, used := FlushWindow(endWindow, nendBits);
      Room();
      if error == 0 {
        Pack(spare, window, used);
        if error == 0 { WholePacket(sp, spare, window); }
      }
    }

    /** ec_enc_done: the packet is complete, or an error says it did not fit. */
    method Done()
      requires ValidEnc()
      modifies this, buf
      ensures storage == old(storage) <= buf.Length
      ensures error == 0 <==> Fits(old(Where()), storage)
      ensures error == 0 ==> Num(buf[..storage]) == PacketNum(old(Where()), RawOf(old(ops)), storage)
      ensures error == 0 ==> Carries(buf[..storage], START, old(ops))
    {
      hide Num, Stored, Digits, Emitted, Run, Tell, RawOf, RawTotal, Pow2, FlushLen, FlushEnd, CodeWord, Carries,
        LowBits, Whole, PacketNum, RangeDone;
      ghost var sp := Where();
      RunRaw(START, ops);
      TellFits(sp, storage);
      Room();
      var spare := FlushRange();
      FlushRaw(spare, sp);
      if error == 0 { PacketCarries(buf[..storage], ops); }
    }

    // -------------------------------------------------------------- decoder

    /** After i bytes of the packet: val is the distance of the code value from
        the top of the interval [low, low + r). */
    ghost predicate Reading(low: nat, r: nat, i: nat)
      reads `storage, `data, `offs, `rem, `rng, `val
    {
      && i > 0 && rng == r && val < r
      && val == low + r - 1 - Prefix(data, i) / 2
      && |data| == storage && offs == Min(i, storage) && rem == ByteAt(data, i - 1)
    }

    ghost predicate Source()
      reads `storage, `data, buf
    {
      storage <= buf.Length && buf[..storage] == data
    }

    /** The raw-bit window holds the bits from `from` on. */
    ghost predicate Holding(from: nat)
      reads `storage, `data, `endOffs, `endWindow, `nendBits
    {
      && nendBits <= 32 && (from + nendBits) % 8 == 0 && |data| == storage
      && endOffs == Min((from + nendBits) / 8, storage)
      && endWindow == RawField(data, from, nendBits)
    }

    /** The decoder has read up to span pos of the packet. */
    ghost predicate ValidDec()
      reads this, buf
    {
      && Source() && Proper(pos)
      && Reading(pos.low, pos.rng, pos.n + 4) && Holding(pos.nraw)
      && nbitsTotal == 33 + 8 * pos.n + pos.nraw
    }

    /** The decoder is inside its interval and val is what Below says. */
    lemma DecState()
      requires ValidDec()
      ensures Proper(pos) && Contains(data, pos) && val == Below(data, pos) && BOT < rng <= TOP
      ensures rng == pos.rng && nbitsTotal == 33 + 8 * pos.n + pos.nraw && EcTell() == Tell(pos)
      ensures |data| == storage
    {
    }

    method ReadByte(ghost i: nat) returns (b: byte)
      requires Source() && |data| == storage && offs == Min(i, storage)
      modifies this`offs
      ensures b == ByteAt(data, i) && offs == Min(i + 1, storage)
    {
      if offs < storage {
        b := buf[offs];
        assert b == buf[..storage][offs];
        offs := offs + 1;
      } else {
        b := 0;
      }
    }

    method ReadByteFromEnd(ghost k: nat) returns (b: byte)
      requires Source() && |data| == storage && endOffs == Min(k, storage)
      modifies this`endOffs
      ensures b == RawField(data, 8 * k, 8) && endOffs == Min(k + 1, storage)
    {
      RawByte(data, k);
      if endOffs < storage {
        endOffs := endOffs + 1;
        b := buf[storage - endOffs];
        assert b == buf[..storage][storage - endOffs];
      } else {
        b := 0;
      }
    }

    /** One turn of the decoder's renormalization: eight more code bits. */
    method TakeIn(ghost low: nat, ghost i: nat)
      requires Source() && 0 < rng <= BOT && Reading(low, rng, i)
      modifies this`nbitsTotal, this`rng, this`rem, this`val, this`offs
      ensures Reading(low * 256, old(rng) * 256, i + 1) && nbitsTotal == old(nbitsTotal) + 8
    {
      hide Prefix, ByteAt;
      PrefixNext(data, i);
      DistanceNext(low, rng, val, Prefix(data, i) / 2, (rem * 256 + ByteAt(data, i)) / 2 % 256);
      nbitsTotal := nbitsTotal + 8;
      rng := rng * 256;
      var sym := rem;
      rem := ReadByte(i);
      sym := (sym * 256 + rem) / 2;
      val := (val * 256 + (255 - sym % 256)) % TOP;
    }

    /** The distance from the top of the range, one byte further. */
    static lemma DistanceNext(low: nat, r: nat, val: nat, p: nat, b: nat)
      requires val < r <= BOT && val == low + r - 1 - p && b < 256
      ensures val * 256 + (255 - b) == low * 256 + r * 256 - 1 - (p * 256 + b)
      ensures val * 256 + (255 - b) < r * 256 <= TOP
      ensures (val * 256 + (255 - b)) % TOP == val * 256 + (255 - b)
    {
    }

    /** ec_dec_normalize: takes in code bytes while the range is small. */
    method DecNormalize(ghost low: nat, ghost i: nat) returns (ghost last: Span)
      requires Source() && 0 < rng <= TOP && Reading(low, rng, i)
      modifies this`nbitsTotal, this`rng, this`rem, this`val, this`offs
      ensures last == Norm(Span(low, old(rng), i, 0)) && last.n >= i
      ensures Reading(last.low, last.rng, last.n)
      ensures nbitsTotal == old(nbitsTotal) + 8 * (last.n - i)
    {
      hide Prefix, ByteAt;
      last := Span(low, rng, i, 0);
      while rng <= BOT
        invariant 0 < last.rng <= TOP && Reading(last.low, last.rng, last.n) && last.n >= i
        invariant Norm(last) == Norm(Span(low, old(rng), i, 0)) && last.nraw == 0
        invariant nbitsTotal == old(nbitsTotal) + 8 * (last.n - i)
        decreases TOP - rng
      {
        TakeIn(last.low, last.n);
        last := Span(last.low * 256, last.rng * 256, last.n + 1, 0);
      }
    }

    /** ec_dec_init */
    constructor DecInit(b: array<byte>, size: nat)
      requires size <= b.Length
      ensures buf == b && storage == size && error == 0
      ensures ValidDec() && data == b[..size] && pos == START
    {
      buf := b;
      storage := size;
      endOffs := 0;
      endWindow := 0;
      nendBits := 0;
      nbitsTotal := 9;
      offs := 0;
      rng := 128;
      rem := 0;
      val := 0;
      ext := 0;
      error := 0;
      ops, front, tail, data, pos := [], [], [], b[..size], START;
      new;
      hide Num;
      rem := ReadByte(0);
      val := rng - 1 - rem / 2;
      assert Prefix(data, 1) == ByteAt(data, 0);
      ghost var last := DecNormalize(0, 1);
      assert last == Span(0, TOP, 4, 0);
      PowZero();
    }

    /** ec_dec_normalize, completing step op. */
    method Advance(ghost op: Op)
      requires Legal(op) && op.Sym? && Proper(pos) && Source() && Holding(pos.nraw)
      requires nbitsTotal == 33 + 8 * pos.n + pos.nraw
      requires var w := Narrow(pos, op); Reading(w.low, w.rng, pos.n + 4)
      modifies this`nbitsTotal, this`rng, this`rem, this`val, this`offs, this`pos
      ensures ValidDec() && pos == Step(old(pos), op)
    {
      ghost var w := Narrow(pos, op);
      ghost var last := DecNormalize(w.low, pos.n + 4);
      NormShift(w.low, w.rng, w.n, w.nraw, 4, 0);
      pos := Step(pos, op);
    }

    /** ec_decode: where in [0, ft) the code value points. */
    method Decode(ft: nat) returns (fm: nat)
      requires ValidDec() && 0 < ft <= BOT
      modifies this`ext
      ensures ValidDec() && ext == rng / ft && val < rng
      ensures fm == PointedAt(val, rng, ft) < ft
    {
      hide PointedAt;
      ext := rng / ft;
      var s := val / ext;
      fm := ft - Min(s + 1, ft);
      PointedValue(val, rng, ft);
    }

    /** The value ec_decode returned lies in [fl, fh) exactly when the packet
        carries that symbol next. */
    lemma DecodedIn(fl: nat, fh: nat, ft: nat)
      requires ValidDec() && fl < fh <= ft <= BOT
      ensures fl <= PointedAt(val, rng, ft) < fh <==> ReadsOp(data, pos, Sym(fl == 0, fl, fh, ft))
    {
      hide PointedAt, Near, Far, Num, Prefix;
      PointedInside(val, rng, Sym(fl == 0, fl, fh, ft));
    }

    /** ec_dec_update */
    method DecUpdate(fl: nat, fh: nat, ft: nat)
      requires ValidDec() && fl < fh <= ft <= BOT && ext == rng / ft
      requires ReadsOp(data, pos, Sym(fl == 0, fl, fh, ft))
      modifies this`nbitsTotal, this`rng, this`rem, this`val, this`offs, this`pos
      ensures ValidDec() && pos == Step(old(pos), Sym(fl == 0, fl, fh, ft))
    {
      hide Num, Prefix, Norm, Near, Holding;
      ghost var op := Sym(fl == 0, fl, fh, ft);
      EndsInside(rng, op);
      Ends(rng, op);
      var s := ext * (ft - fh);
      val := val - s;
      rng := if fl > 0 then ext * (fh - fl) else rng - s;
      Advance(op);
    }

    /** ec_dec_bit_logp */
    method DecBitLogp(logp: nat) returns (ret: bool)
      requires ValidDec() && 1 <= logp <= 23
      modifies this`nbitsTotal, this`rng, this`rem, this`val, this`offs, this`pos
      ensures ValidDec() && ReadsOp(data, old(pos), BitOp(ret, logp)) && pos == Step(old(pos), BitOp(ret, logp))
    {
      hide Num, Prefix, Norm, Near, Pow2, Holding;
      var r, d := rng, val;
      var s := r / Pow2(logp);
      assert s * (Pow2(logp) - (Pow2(logp) - 1)) == s;
      EndsInside(rng, BitOp(true, logp));
      Ends(rng, BitOp(true, logp));
      EndsInside(rng, BitOp(false, logp));
      Ends(rng, BitOp(false, logp));
      ret := d < s;
      if !ret { val := d - s; }
      rng := if ret then s else r - s;
      Advance(BitOp(ret, logp));
    }

    /** ec_dec_icdf and ec_dec_icdf16 */
    method DecIcdf(icdf: seq<nat>, ftb: nat) returns (ret: nat)
      requires ValidDec() && IcdfTable(icdf, ftb)
      modifies this`nbitsTotal, this`rng, this`rem, this`val, this`offs, this`pos
      ensures ValidDec() && HasWidth(icdf, ret, ftb)
      ensures ReadsOp(data, old(pos), IcdfOp(ret, icdf, ftb)) && pos == Step(old(pos), IcdfOp(ret, icdf, ftb))
    {
      hide Num, Prefix, Norm, Near, Pow2, Holding;
      BinLegal(ftb);
      var d := val;
      var r := rng / Pow2(ftb);
      DivGe(rng, Pow2(ftb), 1);
      var t := rng;
      ret := 0;
      var s := r * icdf[0];
      while d < s
        invariant ret < |icdf| && s == r * icdf[ret] && d < t
        invariant t == if ret == 0 then rng else r * icdf[ret - 1]
        decreases |icdf| - ret
      {
        ret := ret + 1;
        t := s;
        s := r * icdf[ret];
      }
      IcdfFound(d, rng, icdf, ret, ftb);
      ghost var op := IcdfOp(ret, icdf, ftb);
      EndsInside(rng, op);
      Ends(rng, op);
      val := d - s;
      rng := t - s;
      Advance(op);
    }

    /** The refill loop of ec_dec_bits. */
    method Refill(have: nat, ghost from: nat) returns (window: nat, available: nat)
      requires Source() && Holding(from) && have == nendBits <= 24
      modifies this`endOffs
      ensures 24 < available <= 32 && (from + available) % 8 == 0
      ensures endOffs == Min((from + available) / 8, storage) && window == RawField(data, from, available)
    {
      hide Num, Pow2, RawField, ByteAt, Or;
      window, available := endWindow, have;
      while available <= 24
        invariant Source() && |data| == storage && (from + available) % 8 == 0
        invariant available <= 32 && endOffs == Min((from + available) / 8, storage)
        invariant window == RawField(data, from, available)
        decreases 32 - available
      {
        var b := ReadByteFromEnd((from + available) / 8);
        WindowTake(data, from, available, b);
        window := Or(b * Pow2(available), window);
        available := available + 8;
      }
    }

    /** ec_dec_bits */
    method DecBits(bits: nat) returns (ret: nat)
      requires ValidDec() && bits <= 25
      modifies this`endOffs, this`endWindow, this`nendBits, this`nbitsTotal, this`pos
      ensures ValidDec() && ret == RawField(data, old(pos).nraw, bits) < Pow2(bits)
      ensures pos == Step(old(pos), Raw(ret, bits))
    {
      hide Num, Pow2, RawField, Prefix, ByteAt, Or;
      var window, available := endWindow, nendBits;
      if available < bits {
        window, available := Refill(available, pos.nraw);
      }
      RawFieldTake(data, pos.nraw, available, bits);
      RawFieldBound(data, pos.nraw, bits);
      ret := window % Pow2(bits);
      endWindow := window / Pow2(bits);
      nendBits := available - bits;
      nbitsTotal := nbitsTotal + bits;
      pos := pos.(nraw := pos.nraw + bits);
    }

    /** The head symbol and the low bits of a wide uniform integer. */
    method DecWide(total: nat) returns (s: nat, b: nat)
      requires ValidDec() && 2 <= total < 0x1_0000_0000 && ILog(total - 1) > 8
      modifies this`nbitsTotal, this`rng, this`rem, this`val, this`offs, this`pos, this`ext,
        this`endOffs, this`endWindow, this`nendBits
      ensures ValidDec() && ReadWide(data, old(pos), s, b, total) && AfterWide(old(pos), s, b, total, pos)
    {
      hide Num, Pow2, RawField, Prefix, ByteAt, ILog, PointedAt, Reading, Holding, Near, Far, Norm;
      var last := total - 1;
      UintSplit(last, total);
      var ftb := ILog(last) - 8;
      var ft := last / Pow2(ftb) + 1;
      s := Decode(ft);
      DecodedIn(s, s + 1, ft);
      DecUpdate(s, s + 1, ft);
      b := DecBits(ftb);
    }

    /** ec_dec_uint: a value below total, whatever the packet; an error says that
        the packet holds no such value. */
    method DecUint(total: nat) returns (ret: nat)
      requires ValidDec() && 2 <= total < 0x1_0000_0000
      modifies this`nbitsTotal, this`rng, this`rem, this`val, this`offs, this`pos, this`ext, this`error,
        this`endOffs, this`endWindow, this`nendBits
      ensures ValidDec() && ret < total && Tell(pos) >= Tell(old(pos))
      ensures error == old(error) || error == 1
      ensures Carries(data, old(pos), UintOps(ret, total)) ==>
                error == old(error) && pos == Run(old(pos), UintOps(ret, total))
      ensures !Carries(data, old(pos), UintOps(ret, total)) ==>
                error == 1 && forall v: nat | v < total :: !Carries(data, old(pos), UintOps(v, total))
      ensures ILog(total - 1) <= 8 ==> Carries(data, old(pos), UintOps(ret, total))
    {
      hide Num, Pow2, RawField, Prefix, ByteAt, ILog, Carries, Run, PointedAt, ReadsOp, Tell, Reading, Holding,
        ReadWide, Or, UintOps;
      var last := total - 1;
      var ftb := ILog(last);
      ghost var sp := pos;
      if ftb > 8 {
        var s, b := DecWide(total);
        ftb := ftb - 8;
        ghost var head := Sym(s == 0, s, s + 1, last / Pow2(ftb) + 1);
        StepTellMono(sp, head);
        StepTellMono(Step(sp, head), Raw(b, ftb));
        MulNat(s, Pow2(ftb));
        OrLow(s, b, ftb);
        var t := Or(s * Pow2(ftb), b);
        forall v: nat | v < total && Carries(data, sp, UintOps(v, total))
          ensures v == t
        {
          WideNone(data, sp, s, b, v, total);
        }
        if t <= last {
          WideSome(data, sp, s, b, t, total);
          return t;
        }
        error := 1;
        return last;
      } else {
        ret := DecNarrow(total);
        ghost var op := Sym(ret == 0, ret, ret + 1, total);
        CarriesOne(data, sp, op);
        StepTellMono(sp, op);
      }
    }

    /** A uniform integer small enough for one symbol. */
    method DecNarrow(total: nat) returns (ret: nat)
      requires ValidDec() && 2 <= total && ILog(total - 1) <= 8
      modifies this`nbitsTotal, this`rng, this`rem, this`val, this`offs, this`pos, this`ext
      ensures ValidDec() && ret < total
      ensures var op := Sym(ret == 0, ret, ret + 1, total);
        && Legal(op) && UintOps(ret, total) == [op] && ReadsOp(data, old(pos), op) && pos == Step(old(pos), op)
    {
      hide Num, Pow2, ILog, RawField, Prefix, ByteAt, PointedAt, ReadsOp, ValidDec, Step;
      SmallUint(total);
      DecState();
      ret := Decode(total);
      DecodedIn(ret, ret + 1, total);
      DecUpdate(ret, ret + 1, total);
    }

    // ---------------------------------------------- common to both directions

    /** ec_tell */
    function EcTell(): int
      reads `nbitsTotal, `rng
    {
      nbitsTotal - ILog(rng)
    }

    /** `*enc` copied to a variable: every field, but not the buffer's bytes. */
    method Save() returns (s: Saved, ghost g: Trace)
      requires ValidEnc()
      ensures Snapshot(s, g) && g == Trace(ops, front, tail)
      ensures s.storage == storage && s.offs == offs && Keeps(front, tail)
    {
      hide Num, Run, Digits, Emitted, Tell, RawBits, RawOf, RawTotal, Pow2, ValidEnc, Snapshot;
      s := Saved(storage, endOffs, endWindow, nendBits, nbitsTotal, offs, rng, val, ext, rem, error);
      g := Trace(ops, front, tail);
      ToSnapshot(s, g);
    }

    ghost predicate Equals(s: Saved, g: Trace)
      reads this
    {
      && storage == s.storage && endOffs == s.endOffs && endWindow == s.endWindow && nendBits == s.nendBits
      && nbitsTotal == s.nbitsTotal && offs == s.offs && rng == s.rng && val == s.val && ext == s.ext
      && rem == s.rem && error == s.error && ops == g.ops && front == g.front && tail == g.tail
    }

    lemma ToSnapshot(s: Saved, g: Trace)
      requires ValidEnc() && Equals(s, g)
      ensures Snapshot(s, g)
    {
      hide Num, Run, Digits, Emitted, Tell, RawBits, RawOf, RawTotal, Pow2;
      StartProper();
      assert Front(Where());
    }

    lemma FromSnapshot(s: Saved, g: Trace)
      requires Snapshot(s, g) && Equals(s, g) && Stored()
      ensures ValidEnc()
    {
      hide Num, Run, Digits, Emitted, Tell, RawBits, RawOf, RawTotal, Pow2, Stored;
      assert Front(Where());
    }

    /** `*enc` assigned from a saved copy; the bytes that were final then must
        still be in the buffer. */
    method Restore(s: Saved, ghost g: Trace)
      requires Snapshot(s, g) && s.storage <= buf.Length
      requires buf[..s.offs] == g.front && buf[s.storage - s.endOffs..s.storage] == g.tail
      modifies this
      ensures ValidEnc() && ops == g.ops && front == g.front && tail == g.tail
      ensures storage == s.storage && offs == s.offs
    {
      hide Num, Run, Digits, Emitted, Tell, RawBits, RawOf, RawTotal, Pow2, ValidEnc, Snapshot;
      SnapshotSizes(s, g);
      storage, endOffs, endWindow, nendBits := s.storage, s.endOffs, s.endWindow, s.nendBits;
      nbitsTotal, offs, rng, val, ext, rem, error := s.nbitsTotal, s.offs, s.rng, s.val, s.ext, s.rem, s.error;
      ops, front, tail := g.ops, g.front, g.tail;
      FromSnapshot(s, g);
    }
  }

  /** A saved copy of the context, and the history it stands for. */
  datatype Saved = Saved(storage: nat, endOffs: nat, endWindow: nat, nendBits: nat, nbitsTotal: int,
                         offs: nat, rng: nat, val: nat, ext: nat, rem: int, error: int)

  datatype Trace = Trace(ops: seq<Op>, front: seq<byte>, tail: seq<byte>)

  lemma SnapshotSizes(s: Saved, g: Trace)
    requires Snapshot(s, g)
    ensures s.offs == |g.front| && s.endOffs == |g.tail| && s.offs + s.endOffs <= s.storage
  {
  }

  /** The saved copy is that of a valid encoder, its bytes aside. */
  ghost predicate Snapshot(s: Saved, g: Trace) {
    && s.offs == |g.front| && s.endOffs == |g.tail| && s.offs + s.endOffs <= s.storage
    && AllLegal(g.ops)
    && -1 <= s.rem <= 255 && (s.rem < 0 ==> g.front == [])
    && s.nendBits <= 32 && s.endWindow < Pow2(s.nendBits)
    && s.nendBits + 8 * |g.tail| <= RawBits(g.ops)
    && s.val + s.rng < 2 * TOP && (s.rem < 0 || s.rem == 255 ==> s.val + s.rng <= TOP)
    && (s.rng == TOP ==> s.val < TOP)
    && Proper(START)
    && var sp, digits := Run(START, g.ops), Digits(g.front, s.rem, s.ext, 255);
    && s.rng == sp.rng && s.nbitsTotal == 33 + 8 * sp.n + sp.nraw
    && s.offs + (if s.rem >= 0 then 1 else 0) + s.ext <= sp.n
    && (Spent(sp) <= 8 * s.storage ==> s.error == 0)
    && (s.error == 0 ==>
          && s.offs + (if s.rem >= 0 then 1 else 0) + s.ext == sp.n
          && Num(digits) * TOP + s.val == sp.low && Num(digits) == Emitted(g.ops)
          && s.nendBits + 8 * |g.tail| == RawBits(g.ops) && RawTotal(g.tail, s.endWindow) == RawOf(g.ops))
  }
}
