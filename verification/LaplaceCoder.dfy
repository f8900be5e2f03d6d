/** Coding with the Laplace model: the search for a value's interval, and back. */
module LaplaceCoder {
  import opened Arith
  import opened Interval
  import opened EntCode
  import opened Laplace
  import opened LaplaceRanges

  /** The encoder's search of the decaying part. */
  method FindMagnitude(fs0: nat, decay: nat, val: nat) returns (i: nat, fl: nat, fs: nat)
    requires Model(fs0, decay) && val >= 1
    ensures 1 <= i <= val && fl == Base(fs0, decay, i) && fs == Freq(fs0, decay, i)
    ensures fs > 0 ==> i == val
    ensures fs == 0 ==> i == TailFrom(fs0, decay, 1)
  {
    hide Freq, Base, FirstFreq, Decay, TailFrom;
    FirstOf(fs0, decay);
    fl := fs0;
    fs := FirstFreq(fs0, decay);
    i := 1;
    while fs > 0 && i < val
      invariant 1 <= i <= val && fl == Base(fs0, decay, i) && fs == Freq(fs0, decay, i)
      invariant forall j :: 1 <= j < i ==> Freq(fs0, decay, j) > 0
      decreases val - i
    {
      NextOf(fs0, decay, i);
      fl := fl + (2 * fs + 2);
      fs := Decay(fs, decay);  // 2 fs times decay, shifted
      i := i + 1;
    }
    if fs == 0 { TailFirst(fs0, decay, 1, i); }
  }

  /** What the encoder makes of a value: an interval, and the value it writes back. */
  datatype Sending = Sending(fl: int, fs: int, value: int)

  /** Its escape from the tail's start on. */
  function Escape(base: int, k: nat, v: int): Sending {
    var s := if v < 0 then -1 else 0;
    var di := Min(Abs(v) - k, (FT - base - s) / 2 - 1);
    var fl := base + (2 * di + 1 + s);
    Sending(fl, Min(1, FT - fl), if v < 0 then -(k + di) else k + di)
  }

  function Sends(fs0: nat, decay: nat, v: int): Sending
    requires Model(fs0, decay)
  {
    var k := TailFrom(fs0, decay, 1);
    if v == 0 then Sending(0, fs0, 0)
    else if k <= Abs(v) then Escape(Base(fs0, decay, k), k, v)
    else Sending(Low(fs0, decay, v), Freq(fs0, decay, Abs(v)) + 1, v)
  }

  /** The interval is the one of the value written back. */
  predicate Agreed(fs0: nat, decay: nat, s: Sending)
    requires Model(fs0, decay)
  {
    Codable(fs0, decay, s.value) && s.fl == Low(fs0, decay, s.value) && s.fl + s.fs == High(fs0, decay, s.value)
  }

  /** How far the escape goes into the tail. */
  function EscapeSteps(base: int, k: nat, v: int): int {
    Min(Abs(v) - k, (FT - base - if v < 0 then -1 else 0) / 2 - 1)
  }

  /** The interval n magnitudes into the tail, on the side of v. */
  lemma TailInterval(fs0: nat, decay: nat, v: int, n: nat)
    requires Model(fs0, decay) && TailFrom(fs0, decay, 1) <= Abs(v) && v != 0
    ensures var k, s := TailFrom(fs0, decay, 1), if v < 0 then -1 else 0;
      var c := if v < 0 then -(k + n) else k + n;
      && c != 0 && Low(fs0, decay, c) == Base(fs0, decay, k) + (2 * n + 1 + s)
      && High(fs0, decay, c) == Min(Low(fs0, decay, c) + 1, FT)
  {
    var k := TailFrom(fs0, decay, 1);
    hide Freq, Base, TailFrom;
    Flat(fs0, decay, k, k + n);
  }

  lemma EscapeIs(fs0: nat, decay: nat, v: int)
    requires Model(fs0, decay) && TailFrom(fs0, decay, 1) <= Abs(v)
    ensures var k, s := TailFrom(fs0, decay, 1), if v < 0 then -1 else 0;
      var base := Base(fs0, decay, k);
      var di := EscapeSteps(base, k, v);
      var fl := base + (2 * di + 1 + s);
      v != 0 && Sends(fs0, decay, v) == Sending(fl, Min(1, FT - fl), if v < 0 then -(k + di) else k + di)
  {
    hide Freq, Base, TailFrom;
  }

  lemma StepsRange(base: int, k: nat, v: int)
    requires 0 <= base <= FT - 2 && k <= Abs(v)
    ensures var s, di := if v < 0 then -1 else 0, EscapeSteps(base, k, v);
      && 0 <= di && base + 2 * di + 1 + s < FT && k + di <= Abs(v)
      && (k + di < Abs(v) ==> base + 2 * di + 3 + s >= FT)
  {
  }

  /** The escape stops at the last codable value, in its interval. */
  lemma EscapeFits(fs0: nat, decay: nat, v: int)
    requires Model(fs0, decay) && TailFits(fs0, decay) && TailFrom(fs0, decay, 1) <= Abs(v)
    ensures Agreed(fs0, decay, Sends(fs0, decay, v)) && Clamped(fs0, decay, v, Sends(fs0, decay, v).value)
  {
    EscapeIs(fs0, decay, v);
    var k := TailFrom(fs0, decay, 1);
    hide Freq, Base, TailFrom, Low, High, Sends, EscapeSteps;
    StepsRange(Base(fs0, decay, k), k, v);
    var di := EscapeSteps(Base(fs0, decay, k), k, v);
    TailInterval(fs0, decay, v, di);
    TailInterval(fs0, decay, v, di + 1);
  }

  /** Before the tail every value has its whole interval. */
  lemma InnerFits(fs0: nat, decay: nat, v: int)
    requires Model(fs0, decay) && TailFits(fs0, decay) && 0 < Abs(v) < TailFrom(fs0, decay, 1)
    ensures Agreed(fs0, decay, Sends(fs0, decay, v)) && Sends(fs0, decay, v).value == v
  {
    hide Freq, Base, TailFrom;
    NextOf(fs0, decay, Abs(v));
    BaseGrows(fs0, decay, Abs(v), TailFrom(fs0, decay, 1));
  }

  /** Whatever the model, the encoder writes the interval of the value it reports, and
      reports the codable value nearest to the one asked for. */
  lemma SendsNearest(fs0: nat, decay: nat, v: int)
    requires Model(fs0, decay) && (v == 0 ==> fs0 > 0)
    ensures Agreed(fs0, decay, Sends(fs0, decay, v))
    ensures Sends(fs0, decay, v).value == Nearest(fs0, decay, v)
  {
    hide Freq, Base, TailFrom, TailFits, Nearest;
    AllTailsFit(fs0, decay);
    if v == 0 {
      ZeroLow(fs0, decay);
    } else if Abs(v) < TailFrom(fs0, decay, 1) {
      InnerFits(fs0, decay, v);
    } else {
      EscapeFits(fs0, decay, v);
    }
    hide Sends, Agreed, Codable;
    ClampedOnce(fs0, decay, v, Sends(fs0, decay, v).value, Nearest(fs0, decay, v));
  }

  lemma ZeroLow(fs0: nat, decay: nat)
    requires Model(fs0, decay) && fs0 > 0
    ensures Agreed(fs0, decay, Sends(fs0, decay, 0)) && Sends(fs0, decay, 0).value == 0
  {
  }

  /** The encoder's search for the interval. */
  method FindInterval(fs0: nat, decay: nat, value: int) returns (r: Sending)
    requires Model(fs0, decay)
    ensures r == Sends(fs0, decay, value)
  {
    hide Freq, Base, TailFrom;
    if value == 0 { return Sending(0, fs0, 0); }
    var i, fl, fs := FindMagnitude(fs0, decay, Abs(value));
    BeforeTail(fs0, decay, i);
    var s := if value < 0 then -1 else 0;
    if fs == 0 {
      var ndiMax := (FT - fl - s) / 2;
      var di := Min(Abs(value) - i, ndiMax - 1);
      var low := fl + (2 * di + 1 + s);
      r := Sending(low, Min(1, FT - low), if value < 0 then -(i + di) else i + di);
    } else {
      r := Sending(fl + if value < 0 then 0 else fs + 1, fs + 1, value);
    }
  }

  /** ec_laplace_encode: codes the value, or the last codable one on its side, and
      says which. */
  method EcLaplaceEncode(enc: EcCtx, value: int, fs0: nat, decay: nat) returns (coded: int)
    requires enc.ValidEnc() && Model(fs0, decay) && (value == 0 ==> fs0 > 0)
    modifies enc, enc.buf
    ensures coded == Nearest(fs0, decay, value) && (Abs(value) <= 16 ==> coded == value)
    ensures enc.ValidEnc() && enc.ops == old(enc.ops) + [LaplaceOp(fs0, decay, coded)]
    ensures enc.storage == old(enc.storage) && old(enc.front) <= enc.front && enc.tail == old(enc.tail)
  {
    hide Freq, Base, TailFrom, EcCtx.ValidEnc, Pow2, Nearest;
    Pow2Values();
    var r := FindInterval(fs0, decay, value);
    SendsNearest(fs0, decay, value);
    hide Sends;
    coded := r.value;
    if Abs(value) <= 16 {
      SixteenCodable(fs0, decay, value);
      ClampedSame(fs0, decay, value, coded);
    }
    enc.EncodeBin(r.fl, r.fl + r.fs, 15);
  }

  /** A point of the line lies in the interval of this value. */
  predicate HoldsPoint(fs0: nat, decay: nat, v: int, fm: nat)
    requires Model(fs0, decay)
  {
    Low(fs0, decay, v) <= fm < High(fs0, decay, v)
  }

  lemma HoldsCodable(fs0: nat, decay: nat, v: int, fm: nat)
    requires Model(fs0, decay) && fm < FT && HoldsPoint(fs0, decay, v, fm)
    ensures Codable(fs0, decay, v)
  {
    hide Freq, Base;
  }

  /** The decoder's search: every point of the line lies in some value's interval. */
  method FindValue(fs0: nat, decay: nat, fm: nat) returns (val: int, fl: nat, fs: nat)
    requires Model(fs0, decay) && fm < FT
    ensures HoldsPoint(fs0, decay, val, fm)
    ensures fl == Low(fs0, decay, val) && Min(fl + fs, FT) == High(fs0, decay, val)
  {
    hide Freq, Base, FirstFreq, Decay;
    val, fl, fs := 0, 0, fs0;
    if fm >= fs0 {
      FirstOf(fs0, decay);
      val, fl, fs := 1, fs0, FirstFreq(fs0, decay) + 1;
      while fs > 1 && fm >= fl + 2 * fs
        invariant val >= 1 && fl == Base(fs0, decay, val) <= fm && fs == Freq(fs0, decay, val) + 1
        decreases fs
      {
        NextOf(fs0, decay, val);
        DecayShrinks(fs - 1, decay);
        fs := fs * 2;
        fl := fl + fs;
        fs := Decay((fs - 2) / 2, decay);
        fs := fs + 1;
        val := val + 1;
      }
      if fs <= 1 {
        var di := (fm - fl) / 2;
        Flat(fs0, decay, val, val + di);
        val := val + di;
        fl := fl + 2 * di;
      }
      if fm < fl + fs {
        val := -val;
      } else {
        fl := fl + fs;
      }
    }
  }

  /** ec_laplace_decode */
  method EcLaplaceDecode(dec: EcCtx, fs0: nat, decay: nat) returns (val: int)
    requires dec.ValidDec() && Model(fs0, decay)
    modifies dec
    ensures dec.ValidDec() && dec.data == old(dec.data) && dec.storage == old(dec.storage)
    ensures dec.front == old(dec.front) && dec.tail == old(dec.tail)
    ensures Codable(fs0, decay, val)
    ensures ReadsOp(dec.data, old(dec.pos), LaplaceOp(fs0, decay, val))
    ensures dec.pos == Step(old(dec.pos), LaplaceOp(fs0, decay, val))
  {
    hide Freq, Base, EcCtx.ValidDec, PointedAt, ReadsOp, Low, High;
    var fm := dec.Decode(FT);
    var fl, fs;
    val, fl, fs := FindValue(fs0, decay, fm);
    HoldsCodable(fs0, decay, val, fm);
    var fh := Min(fl + fs, FT);
    dec.DecodedIn(fl, fh, FT);
    dec.DecUpdate(fl, fh, FT);
  }
}
