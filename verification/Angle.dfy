/** The three models of a split angle with qn + 1 levels, qn even: a step, a
    uniform and a triangular distribution. */
module Angle {
  import opened Arith
  import opened Interval
  import opened EntCode
  import opened Duplex
  import opened IntMath

  datatype Pdf = StepPdf | UniformPdf | TrianglePdf

  predicate Levels(qn: nat) { qn >= 2 && qn % 2 == 0 }

  function Tri(n: nat): (t: nat)
    ensures 2 * t == n * (n + 1)
  {
    TriEven(n);
    n * (n + 1) / 2
  }

  lemma TriEven(n: nat)
    ensures n * (n + 1) % 2 == 0 && n * (n + 1) >= 0
  {
    var h := n / 2;
    if n % 2 == 0 {
      assert n == 2 * h;
      assert n * (n + 1) == 2 * (h * (n + 1));
    } else {
      assert n + 1 == 2 * (h + 1);
      assert n * (n + 1) == 2 * (n * (h + 1));
    }
    MulNat(n, n + 1);
  }

  lemma TriNext(n: nat)
    ensures Tri(n + 1) == Tri(n) + n + 1
  {
    assert (n + 1) * (n + 2) == n * (n + 1) + 2 * (n + 1);
  }

  lemma {:induction false} TriMono(a: nat, b: nat)
    requires a <= b
    ensures Tri(a) <= Tri(b)
    decreases b
  {
    hide Tri;
    if a < b {
      TriNext(b - 1);
      TriMono(a, b - 1);
    }
  }

  /** Two neighbouring triangles make a square. */
  lemma TriPair(h: nat)
    ensures Tri(h) + Tri(h + 1) == (h + 1) * (h + 1)
  {
    assert h * (h + 1) + (h + 1) * (h + 2) == 2 * ((h + 1) * (h + 1));
  }

  function LevelTotal(pdf: Pdf, qn: nat): (ft: nat) {
    var h := qn / 2;
    match pdf
    case StepPdf => 3 * (h + 1) + h
    case UniformPdf => qn + 1
    case TrianglePdf => MulNat(h + 1, h + 1); (h + 1) * (h + 1)
  }

  /** Where level x begins, as the encoder computes it. */
  function LevelStart(pdf: Pdf, qn: nat, x: nat): int
    requires x <= qn
  {
    var h := qn / 2;
    match pdf
    case StepPdf => if x <= h then 3 * x else x - 1 - h + (h + 1) * 3
    case UniformPdf => x
    case TrianglePdf => if x <= h then Tri(x) else LevelTotal(pdf, qn) - Tri(qn + 1 - x)
  }

  function LevelEnd(pdf: Pdf, qn: nat, x: nat): int
    requires x <= qn
  {
    var h := qn / 2;
    match pdf
    case StepPdf => if x <= h then 3 * (x + 1) else x - h + (h + 1) * 3
    case UniformPdf => x + 1
    case TrianglePdf => LevelStart(pdf, qn, x) + if x <= h then x + 1 else qn + 1 - x
  }

  /** The levels follow one another without gap or overlap, from 0 to the total. */
  lemma Partition(pdf: Pdf, qn: nat, x: nat)
    requires Levels(qn) && x <= qn
    ensures LevelStart(pdf, qn, x) < LevelEnd(pdf, qn, x)
    ensures x == 0 ==> LevelStart(pdf, qn, x) == 0
    ensures if x < qn then LevelEnd(pdf, qn, x) == LevelStart(pdf, qn, x + 1) else LevelEnd(pdf, qn,
                                                                                            x) == LevelTotal(pdf, qn)
  {
    if pdf.TrianglePdf? {
      hide Tri;
      var h := qn / 2;
      assert qn == 2 * h;
      assert Tri(0) == 0 && Tri(1) == 1 by { TriZero(); }
      if x <= h {
        TriNext(x);
        TriPair(h);
      } else {
        TriNext(qn - x);
      }
    }
  }

  /** What a level's part is: under the step model three for the lower half and one above it;
      one each under the uniform one; rising by one to the middle and falling again under the
      triangular one. */
  lemma LevelWidths(pdf: Pdf, qn: nat, x: nat)
    requires Levels(qn) && x <= qn
    ensures LevelEnd(pdf, qn, x) - LevelStart(pdf, qn, x)
            == match pdf
               case StepPdf => if 2 * x <= qn then 3 else 1
               case UniformPdf => 1
               case TrianglePdf => Min(x + 1, qn + 1 - x)
    ensures LevelStart(pdf, qn, 0) == 0 && LevelEnd(pdf, qn, qn) == LevelTotal(pdf, qn)
  {
    Partition(pdf, qn, 0);
    Partition(pdf, qn, qn);
    hide Tri;
  }

  lemma TriZero()
    ensures Tri(0) == 0 && Tri(1) == 1
  {
  }

  lemma {:induction false} LevelsOrdered(pdf: Pdf, qn: nat, x: nat, y: nat)
    requires Levels(qn) && x <= y <= qn
    ensures 0 <= LevelStart(pdf, qn, x) <= LevelStart(pdf, qn, y) && LevelEnd(pdf, qn, y) <= LevelTotal(pdf, qn)
    ensures x < y ==> LevelEnd(pdf, qn, x) <= LevelStart(pdf, qn, y)
    decreases y - x
  {
    hide LevelStart, LevelEnd, LevelTotal;
    LowNonneg(pdf, qn, x);
    HighBound(pdf, qn, y);
    if x < y {
      Partition(pdf, qn, x);
      LevelsOrdered(pdf, qn, x + 1, y);
    }
  }

  lemma {:induction false} LowNonneg(pdf: Pdf, qn: nat, x: nat)
    requires Levels(qn) && x <= qn
    ensures LevelStart(pdf, qn, x) >= 0
  {
    hide LevelStart, LevelEnd, LevelTotal;
    Partition(pdf, qn, x);
    if x > 0 {
      Partition(pdf, qn, x - 1);
      LowNonneg(pdf, qn, x - 1);
    }
  }

  lemma {:induction false} HighBound(pdf: Pdf, qn: nat, x: nat)
    requires Levels(qn) && x <= qn
    ensures LevelEnd(pdf, qn, x) <= LevelTotal(pdf, qn)
    decreases qn - x
  {
    hide LevelStart, LevelEnd, LevelTotal;
    Partition(pdf, qn, x);
    if x < qn {
      Partition(pdf, qn, x + 1);
      HighBound(pdf, qn, x + 1);
    }
  }

  predicate InLevel(pdf: Pdf, qn: nat, x: nat, fm: int) {
    x <= qn && LevelStart(pdf, qn, x) <= fm < LevelEnd(pdf, qn, x)
  }

  /** A point lies in one level only. */
  lemma InsideOnce(pdf: Pdf, qn: nat, x: nat, y: nat, fm: int)
    requires Levels(qn) && InLevel(pdf, qn, x, fm) && InLevel(pdf, qn, y, fm)
    ensures x == y
  {
    hide LevelStart, LevelEnd, LevelTotal;
    if x < y { LevelsOrdered(pdf, qn, x, y); }
    if y < x { LevelsOrdered(pdf, qn, y, x); }
  }

  // ------------------------------------------------ the decoder's look-up

  /** The square root inverts the triangle numbers. */
  lemma TriRoot(r: nat, g: nat)
    requires IsRoot(g, 8 * r + 1)
    ensures g >= 1 && Tri((g - 1) / 2) <= r < Tri((g - 1) / 2 + 1)
  {
    var y := (g - 1) / 2;
    TriSquare(y);
    TriNext(y);
    if g % 2 == 1 {
      assert g == 2 * y + 1;
    } else {
      assert g == 2 * y + 2;
      Squares(2 * y + 1, g);
    }
    hide Tri;
    assert (2 * y + 3) * (2 * y + 3) == 8 * Tri(y) + 8 * y + 9;
    assert g + 1 <= 2 * y + 3;
    Squares(g + 1, 2 * y + 3);
    Squares(2 * y + 1, g);
  }

  lemma TriSquare(y: nat)
    ensures (2 * y + 1) * (2 * y + 1) == 8 * Tri(y) + 1
    ensures (2 * y + 3) * (2 * y + 3) == 8 * Tri(y) + 8 * y + 9
  {
    assert (2 * y + 1) * (2 * y + 1) == 4 * (y * (y + 1)) + 1;
    assert (2 * y + 3) * (2 * y + 3) == (2 * y + 1) * (2 * y + 1) + 8 * y + 8;
  }

  /** The decoder's formula below the middle ... */
  lemma LowerHalf(qn: nat, fm: nat, g: nat)
    requires Levels(qn) && fm < Tri(qn / 2) && IsRoot(g, 8 * fm + 1)
    ensures g >= 1 && InLevel(TrianglePdf, qn, (g - 1) / 2, fm) && (g - 1) / 2 < qn / 2
    ensures LevelStart(TrianglePdf, qn, (g - 1) / 2) == Tri((g - 1) / 2)
  {
    TriRoot(fm, g);
    hide Tri, IsRoot;
    var x := (g - 1) / 2;
    if x >= qn / 2 { TriMono(qn / 2, x); }
    TriNext(x);
  }

  /** ... and from the middle up. */
  lemma UpperHalf(qn: nat, fm: nat, g: nat)
    requires Levels(qn) && Tri(qn / 2) <= fm < LevelTotal(TrianglePdf, qn)
    requires IsRoot(g, 8 * (LevelTotal(TrianglePdf, qn) - fm - 1) + 1)
    ensures g <= 2 * (qn + 1)
    ensures var x := (2 * (qn + 1) - g) / 2;
      && qn / 2 <= x <= qn && InLevel(TrianglePdf, qn, x, fm)
      && LevelStart(TrianglePdf, qn, x) == LevelTotal(TrianglePdf, qn) - Tri(qn + 1 - x)
      && LevelEnd(TrianglePdf, qn, x) == LevelStart(TrianglePdf, qn, x) + (qn + 1 - x)
  {
    var h, ft := qn / 2, LevelTotal(TrianglePdf, qn);
    var r := ft - fm - 1;
    TriRoot(r, g);
    hide Tri, IsRoot;
    TriPair(h);
    var y := (g - 1) / 2;
    if y >= h + 1 { TriMono(h + 1, y); }
    assert qn == 2 * h && ft == Tri(h) + Tri(h + 1);
    var x := (2 * (qn + 1) - g) / 2;
    assert x == qn - y;
    TriNext(y);
    if x == h { TriNext(h); }
  }

  // ---------------------------------------------------------------- coding

  lemma TotalFits(pdf: Pdf, qn: nat)
    requires Levels(qn) && qn <= 256
    ensures 2 <= LevelTotal(pdf, qn) <= 16641
  {
    var h := qn / 2;
    MulMono(h + 1, 129, h + 1);
    MulMono(h + 1, 129, 129);
    MulMono(2, h + 1, h + 1);
  }

  function AngleOps(pdf: Pdf, qn: nat, x: nat): (ops: seq<Op>)
    requires Levels(qn) && qn <= 256 && x <= qn
    ensures AllLegal(ops)
  {
    TotalFits(pdf, qn);
    LevelsOrdered(pdf, qn, x, x);
    Partition(pdf, qn, x);
    if pdf == UniformPdf then UintOps(x, qn + 1) else [AngleOp(pdf, qn, x)]
  }

  function AngleOp(pdf: Pdf, qn: nat, x: nat): (op: Op)
    requires Levels(qn) && qn <= 256 && x <= qn
    ensures op.Sym? && Legal(op) && op.ft == LevelTotal(pdf, qn) && op.fl == LevelStart(pdf, qn, x)
    ensures op.fh == LevelEnd(pdf, qn, x)
    ensures op.first == (op.fl == 0)
  {
    TotalFits(pdf, qn);
    LevelsOrdered(pdf, qn, x, x);
    Partition(pdf, qn, x);
    hide LevelStart, LevelEnd, LevelTotal;
    Sym(LevelStart(pdf, qn, x) == 0, LevelStart(pdf, qn, x), LevelEnd(pdf, qn, x), LevelTotal(pdf, qn))
  }

  lemma AngleLess(buf: seq<byte>, sp: Span, pdf: Pdf, qn: nat, x: nat, y: nat)
    requires Levels(qn) && qn <= 256 && x < y <= qn && Proper(sp)
    ensures !(ReadsOp(buf, sp, AngleOp(pdf, qn, x)) && ReadsOp(buf, sp, AngleOp(pdf, qn, y)))
  {
    LevelsOrdered(pdf, qn, x, y);
    Partition(pdf, qn, x);
    hide LevelStart, LevelEnd, LevelTotal, ReadsOp;
    ReadOnce(buf, sp, AngleOp(pdf, qn, x), AngleOp(pdf, qn, y));
  }

  /** A packet holds one angle, under each of the models. */
  lemma AngleOnce(buf: seq<byte>, sp: Span, pdf: Pdf, qn: nat, x: nat, y: nat)
    requires Levels(qn) && qn <= 256 && x <= qn && y <= qn && Proper(sp)
    requires Carries(buf, sp, AngleOps(pdf, qn, x)) && Carries(buf, sp, AngleOps(pdf, qn, y))
    ensures x == y
  {
    hide LevelStart, LevelEnd, LevelTotal, ReadsOp, Carries, UintOps, AngleOp;
    if pdf == UniformPdf {
      UintOnce(buf, sp, x, y, qn + 1);
    } else {
      CarriesOne(buf, sp, AngleOp(pdf, qn, x));
      CarriesOne(buf, sp, AngleOp(pdf, qn, y));
      if x < y { AngleLess(buf, sp, pdf, qn, x, y); }
      if y < x { AngleLess(buf, sp, pdf, qn, y, x); }
    }
  }

  /** The decoder's look-up: the level a point lies in, and its interval. */
  method Lookup(pdf: Pdf, qn: nat, fm: nat) returns (x: nat, fl: nat, fh: nat)
    requires Levels(qn) && qn <= 256 && pdf != UniformPdf && fm < LevelTotal(pdf, qn)
    ensures x <= qn && fl == LevelStart(pdf, qn, x) <= fm < fh == LevelEnd(pdf, qn, x)
  {
    var h := qn / 2;
    match pdf
    case StepPdf =>
      x := if fm < (h + 1) * 3 then fm / 3 else h + 1 + (fm - (h + 1) * 3);
      fl := if x <= h then 3 * x else x - 1 - h + (h + 1) * 3;
      fh := if x <= h then 3 * (x + 1) else x - h + (h + 1) * 3;
    case TrianglePdf =>
      x, fl, fh := LookupTriangle(qn, fm);
  }

  method LookupTriangle(qn: nat, fm: nat) returns (x: nat, fl: nat, fh: nat)
    requires Levels(qn) && qn <= 256 && fm < LevelTotal(TrianglePdf, qn)
    ensures x <= qn && fl == LevelStart(TrianglePdf, qn, x) <= fm < fh == LevelEnd(TrianglePdf, qn, x)
  {
    TotalFits(TrianglePdf, qn);
    hide Tri, LevelStart, LevelEnd, LevelTotal, IsRoot;
    var ft := LevelTotal(TrianglePdf, qn);
    var h := qn / 2;
    if fm < Tri(h) {
      var g := Isqrt32(8 * fm + 1);
      LowerHalf(qn, fm, g);
      x := (g - 1) / 2;
      fl := Tri(x);
      fh := fl + (x + 1);
      LowerSize(qn, x);
    } else {
      var g := Isqrt32(8 * (ft - fm - 1) + 1);
      UpperHalf(qn, fm, g);
      x := (2 * (qn + 1) - g) / 2;
      LowNonneg(TrianglePdf, qn, x);
      fl := ft - Tri(qn + 1 - x);
      fh := fl + (qn + 1 - x);
    }
  }

  lemma LowerSize(qn: nat, x: nat)
    requires x <= qn / 2
    ensures LevelEnd(TrianglePdf, qn, x) == LevelStart(TrianglePdf, qn, x) + (x + 1)
  {
    hide Tri;
  }

  /** The angle of compute_theta, coded under one of the models. */
  method EncodeAngle(enc: EcCtx, pdf: Pdf, qn: nat, itheta: nat)
    requires enc.ValidEnc() && Levels(qn) && qn <= 256 && itheta <= qn
    modifies enc, enc.buf
    ensures enc.ValidEnc() && enc.ops == old(enc.ops) + AngleOps(pdf, qn, itheta)
    ensures enc.storage == old(enc.storage)
  {
    hide EcCtx.ValidEnc, UintOps, LevelStart, LevelEnd, LevelTotal, AngleOps, Levels;
    AngleParts(pdf, qn, itheta);
    if pdf == UniformPdf {
      enc.EncUint(itheta, qn + 1);
    } else {
      enc.Encode(LevelStart(pdf, qn, itheta), LevelEnd(pdf, qn, itheta), LevelTotal(pdf, qn));
    }
  }

  lemma AngleParts(pdf: Pdf, qn: nat, x: nat)
    requires Levels(qn) && qn <= 256 && x <= qn
    ensures 2 <= qn + 1 <= 257
    ensures var fl, fh, ft := LevelStart(pdf, qn, x), LevelEnd(pdf, qn, x), LevelTotal(pdf, qn);
      && 0 <= fl < fh <= ft <= 16641
      && AngleOps(pdf, qn, x) == if pdf == UniformPdf then UintOps(x, qn + 1) else [Sym(fl == 0, fl, fh, ft)]
  {
    TotalFits(pdf, qn);
    LevelsOrdered(pdf, qn, x, x);
    Partition(pdf, qn, x);
    hide LevelStart, LevelEnd, LevelTotal, UintOps;
  }

  /** ... and read.  Only the uniform model of 257 levels can meet a packet that
      holds no angle; the coder then flags an error. */
  method DecodeAngle(dec: EcCtx, pdf: Pdf, qn: nat) returns (itheta: nat)
    requires dec.ValidDec() && Levels(qn) && qn <= 256
    modifies dec
    ensures dec.ValidDec() && dec.data == old(dec.data) && itheta <= qn
    ensures Carries(dec.data, old(dec.pos), AngleOps(pdf, qn, itheta)) ==>
              dec.pos == Run(old(dec.pos), AngleOps(pdf, qn, itheta)) && dec.error == old(dec.error)
    ensures !Carries(dec.data, old(dec.pos), AngleOps(pdf, qn, itheta)) ==>
              && pdf == UniformPdf && qn == 256 && dec.error == 1
              && forall v: nat | v <= qn :: !Carries(dec.data, old(dec.pos), AngleOps(pdf, qn, v))
  {
    hide LevelStart, LevelEnd, LevelTotal, EcCtx.ValidDec, UintOps, Carries, Run, ReadsOp, PointedAt, AngleOp;
    if pdf == UniformPdf {
      dec.DecState();
      if qn < 256 { ByteWide(qn + 1); }
      itheta := dec.DecUint(qn + 1);
    } else {
      itheta := DecodeShaped(dec, pdf, qn);
    }
  }

  /** A triangular or stepped density: looked up, and always found. */
  method DecodeShaped(dec: EcCtx, pdf: Pdf, qn: nat) returns (itheta: nat)
    requires dec.ValidDec() && Levels(qn) && qn <= 256 && pdf != UniformPdf
    modifies dec
    ensures dec.ValidDec() && dec.data == old(dec.data) && itheta <= qn && dec.error == old(dec.error)
    ensures Carries(dec.data, old(dec.pos), AngleOps(pdf, qn, itheta))
    ensures dec.pos == Run(old(dec.pos), AngleOps(pdf, qn, itheta))
  {
    TotalFits(pdf, qn);
    hide LevelStart, LevelEnd, LevelTotal, EcCtx.ValidDec, UintOps, Carries, Run, ReadsOp, PointedAt, AngleOp;
    dec.DecState();
    ghost var sp, data := dec.pos, dec.data;
    var ft := LevelTotal(pdf, qn);
    var fm := dec.Decode(ft);
    var fl, fh;
    itheta, fl, fh := Lookup(pdf, qn, fm);
    LevelsOrdered(pdf, qn, itheta, itheta);
    dec.DecodedIn(fl, fh, ft);
    dec.DecUpdate(fl, fh, ft);
    CarriesOne(data, sp, AngleOp(pdf, qn, itheta));
  }
}
