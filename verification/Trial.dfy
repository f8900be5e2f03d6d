/** Trial encoding: the coder is copied, an alternative is coded, and the copy (and
    the bytes, where they may have changed) is put back. */
module Trial {
  import opened Arith
  import opened Interval
  import opened Flush
  import opened Registers
  import opened EntCode
  import opened Stream

  lemma BytesShown(e: EcCtx)
    requires e.ValidEnc()
    ensures e.offs == |e.front| && e.endOffs == |e.tail| && e.offs + e.endOffs <= e.storage <= e.buf.Length
    ensures e.buf[..e.offs] == e.front && e.buf[e.storage - e.endOffs..e.storage] == e.tail
  {
    hide EcCtx.Front, EcCtx.Back, Run, Num, Digits;
  }

  /** The bytes that were final when the copy was made still are. */
  lemma BytesKept(e: EcCtx, s: Saved, g: Trace)
    requires e.ValidEnc() && Snapshot(s, g) && s.storage == e.storage && e.Keeps(g.front, g.tail)
    ensures s.storage <= e.buf.Length
    ensures e.buf[..s.offs] == g.front && e.buf[s.storage - s.endOffs..s.storage] == g.tail
  {
    hide EcCtx.ValidEnc, Snapshot;
    BytesShown(e);
    SnapshotSizes(s, g);
    assert e.buf[..e.offs][..s.offs] == e.buf[..s.offs];
    var t := e.buf[e.storage - e.endOffs..e.storage];
    assert t[|t| - s.endOffs..] == e.buf[s.storage - s.endOffs..s.storage];
  }

  lemma KeepsTrans(a: seq<byte>, b: seq<byte>, c: seq<byte>)
    requires Suffix(a, b) && Suffix(b, c)
    ensures Suffix(a, c)
  {
    assert c[|c| - |a|..] == c[|c| - |b|..][|b| - |a|..];
  }

  /** Any sequence of calls. */
  method WriteAll(e: EcCtx, calls: seq<Call>)
    requires e.ValidEnc() && AllLegalCalls(calls)
    modifies e, e.buf
    ensures e.ValidEnc() && e.ops == old(e.ops) + StreamOps(calls, |calls|) && e.storage == old(e.storage)
    ensures e.Keeps(old(e.front), old(e.tail))
  {
    hide EcCtx.ValidEnc, CallOps, Suffix, StreamOps, LegalCall;
    NoneYet(e.ops, e.tail, calls);
    for i := 0 to |calls|
      invariant e.ValidEnc() && e.ops == old(e.ops) + StreamOps(calls, i) && e.storage == old(e.storage)
      invariant old(e.front) <= e.front && Suffix(old(e.tail), e.tail)
    {
      ghost var tail := e.tail;
      Write(e, calls[i]);
      KeepsTrans(old(e.tail), tail, e.tail);
      OneMoreCall(old(e.ops), calls, i);
    }
  }

  lemma NoneYet(ops: seq<Op>, tail: seq<byte>, calls: seq<Call>)
    requires AllLegalCalls(calls)
    ensures ops + StreamOps(calls, 0) == ops && Suffix(tail, tail)
  {
  }

  lemma OneMoreCall(ops: seq<Op>, calls: seq<Call>, i: nat)
    requires AllLegalCalls(calls) && i < |calls|
    ensures ops + StreamOps(calls, i + 1) == ops + StreamOps(calls, i) + CallOps(calls[i])
  {
    hide CallOps;
  }

  /** OPUS_COPY back into the buffer. */
  method PutBytes(buf: array<byte>, at: nat, bytes: seq<byte>)
    requires at + |bytes| <= buf.Length
    modifies buf
    ensures buf[..at] == old(buf[..at]) && buf[at..at + |bytes|] == bytes
    ensures buf[at + |bytes|..] == old(buf[at + |bytes|..])
  {
    forall i | 0 <= i < |bytes| {
      buf[at + i] := bytes[i];
    }
  }

  /** What is put back shows the second copy's bytes. */
  lemma BytesPut(now: seq<byte>, first: seq<byte>, bytes: seq<byte>, n: nat, s: Saved, g: Trace)
    requires n == |first| <= s.offs == |g.front| && s.endOffs == |g.tail|
    requires s.offs + s.endOffs <= s.storage == |now| == n + |bytes|
    requires now[..n] == first && now[n..] == bytes && first <= g.front
    requires bytes[..s.offs - n] == g.front[n..] && bytes[|bytes| - s.endOffs..] == g.tail
    ensures now[..s.offs] == g.front && now[s.storage - s.endOffs..] == g.tail
  {
    assert now[..s.offs] == now[..n] + now[n..][..s.offs - n];
    assert g.front == g.front[..n] + g.front[n..] && g.front[..n] == first;
    assert now[s.storage - s.endOffs..] == now[n..][|bytes| - s.endOffs..];
  }

  /** The trial of quant_all_bands: round down, keep the bytes, round up, and return to
      the first if it was better.  Whatever the two alternatives code, the encoder
      ends as one that only ever coded the alternative kept. */
  method TryBoth(e: EcCtx, down: seq<Call>, up: seq<Call>, keepDown: bool)
    requires e.ValidEnc() && AllLegalCalls(down) && AllLegalCalls(up)
    modifies e, e.buf
    ensures e.ValidEnc() && e.storage == old(e.storage)
    ensures e.ops == old(e.ops) + if keepDown then StreamOps(down, |down|) else StreamOps(up, |up|)
    ensures e.Keeps(old(e.front), old(e.tail))
  {
    hide EcCtx.ValidEnc, CallOps, StreamOps, Snapshot, Suffix;
    var s0, g0 := e.Save();
    WriteAll(e, down);
    var s1, g1 := e.Save();
    SaveFacts(e, s0, g0);
    var n := s0.offs;
    var bytes := e.buf[n..s0.storage];
    ghost var was := e.buf[..s0.storage];
    SavedBytes(e, s1, g1);
    BytesKept(e, s0, g0);
    e.Restore(s0, g0);
    WriteAll(e, up);
    if keepDown { PutBack(e, s0, s1, bytes, g0, g1, was); }
  }

  /** Back to the second copy, with the bytes kept from then. */
  method PutBack(e: EcCtx, s0: Saved, s1: Saved, bytes: seq<byte>, ghost g0: Trace, ghost g1: Trace,
                 ghost was: seq<byte>)
    requires e.ValidEnc() && Snapshot(s0, g0) && Snapshot(s1, g1) && s0.storage == s1.storage == e.storage
    requires e.Keeps(g0.front, g0.tail) && g0.front <= g1.front && |was| == s0.storage
    requires s0.offs <= |was| && bytes == was[s0.offs..] && s1.offs + s1.endOffs <= |was|
    requires was[..s1.offs] == g1.front && was[s1.storage - s1.endOffs..] == g1.tail
    modifies e, e.buf
    ensures e.ValidEnc() && e.ops == g1.ops && e.front == g1.front && e.tail == g1.tail && e.storage == old(e.storage)
  {
    hide *;
    SaveFacts(e, s0, g0);
    SaveFacts(e, s1, g1);
    BytesKept(e, s0, g0);
    var n := s0.offs;
    PutBytes(e.buf, n, bytes);
    ghost var now := e.buf[..s0.storage];
    assert now[..n] == e.buf[..n] && now[n..] == e.buf[n..n + |bytes|];
    BytesAgain(was, bytes, n, s1, g1);
    BytesPut(now, g0.front, bytes, n, s1, g1);
    assert e.buf[..s1.offs] == now[..s1.offs];
    assert e.buf[s1.storage - s1.endOffs..s1.storage] == now[s1.storage - s1.endOffs..];
    e.Restore(s1, g1);
  }

  /** The bytes kept end as the second copy does. */
  lemma BytesAgain(was: seq<byte>, bytes: seq<byte>, n: nat, s: Saved, g: Trace)
    requires n <= s.offs && s.offs + s.endOffs <= s.storage == |was| && bytes == was[n..] && |g.front| == s.offs
    requires was[..s.offs] == g.front && was[s.storage - s.endOffs..] == g.tail
    ensures bytes[..s.offs - n] == g.front[n..] && bytes[|bytes| - s.endOffs..] == g.tail
  {
    assert bytes[..s.offs - n] == was[..s.offs][n..];
    assert bytes[|bytes| - s.endOffs..] == was[s.storage - s.endOffs..];
  }

  lemma SaveFacts(e: EcCtx, s: Saved, g: Trace)
    requires e.ValidEnc() && Snapshot(s, g) && s.storage == e.storage
    ensures s.offs == |g.front| && s.endOffs == |g.tail| && s.offs + s.endOffs <= s.storage <= e.buf.Length
  {
  }

  /** A copy just made shows the bytes of the buffer. */
  lemma SavedBytes(e: EcCtx, s: Saved, g: Trace)
    requires e.ValidEnc() && Snapshot(s, g) && s.storage == e.storage && e.Keeps(g.front, g.tail)
    ensures s.storage <= e.buf.Length && s.offs == |g.front| && s.endOffs == |g.tail| && s.offs + s.endOffs <= s.storage
    ensures var was := e.buf[..s.storage];
      was[..s.offs] == g.front && was[s.storage - s.endOffs..] == g.tail
  {
    SaveFacts(e, s, g);
    hide Snapshot, EcCtx.ValidEnc, Suffix;
    BytesKept(e, s, g);
    var was := e.buf[..s.storage];
    assert was[..s.offs] == e.buf[..s.offs];
    assert was[s.storage - s.endOffs..] == e.buf[s.storage - s.endOffs..s.storage];
  }

  /** One encoder tries both, another only ever codes the alternative kept, with the same
      calls before and after: both finish or neither does, and with the same packet. */
  method TrialInvisible(size: nat, before: seq<Call>, down: seq<Call>, up: seq<Call>, keepDown: bool, after: seq<Call>)
    returns (errorTried: int, errorKept: int, tried: seq<byte>, kept: seq<byte>)
    requires AllLegalCalls(before) && AllLegalCalls(down) && AllLegalCalls(up) && AllLegalCalls(after)
    ensures errorTried == 0 <==> errorKept == 0
    ensures errorTried == 0 ==> tried == kept
  {
    hide *;
    ghost var ops, same;
    errorTried, tried, ops := WriteParts(size, before, down, up, keepDown, after, true);
    errorKept, kept, same := WriteParts(size, before, down, up, keepDown, after, false);
    if errorTried == 0 { SamePacket(tried, kept, ops); }
  }

  /** A whole packet around the alternative kept, found by trial or known. */
  method WriteParts(size: nat, before: seq<Call>, down: seq<Call>, up: seq<Call>, keepDown: bool, after: seq<Call>,
                    trial: bool)
    returns (error: int, packet: seq<byte>, ghost ops: seq<Op>)
    requires AllLegalCalls(before) && AllLegalCalls(down) && AllLegalCalls(up) && AllLegalCalls(after)
    ensures AllLegal(ops) && Proper(START) && |packet| == size
    ensures ops == StreamOps(before, |before|)
                   + (if keepDown then StreamOps(down, |down|) else StreamOps(up, |up|)) + StreamOps(after, |after|)
    ensures error == 0 <==> Fits(Run(START, ops), size)
    ensures error == 0 ==> Num(packet) == PacketNum(Run(START, ops), RawOf(ops), size)
  {
    hide *;
    StartProper();
    var buf := new byte[size];
    var e := new EcCtx.EncInit(buf, size);
    WriteAll(e, before);
    assert [] + StreamOps(before, |before|) == StreamOps(before, |before|);
    if trial {
      TryBoth(e, down, up, keepDown);
    } else {
      WriteAll(e, if keepDown then down else up);
    }
    WriteAll(e, after);
    ops := e.ops;
    e.EncState();
    WhereIs(e);
    e.Done();
    error, packet := e.error, buf[..size];
  }

  lemma WhereIs(e: EcCtx)
    requires e.ValidEnc()
    ensures AllLegal(e.ops) && Proper(START) && e.Where() == Run(START, e.ops)
  {
    hide EcCtx.ValidEnc, Run;
    e.EncState();
    StartProper();
  }
}
