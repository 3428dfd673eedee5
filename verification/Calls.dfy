/**
 * The decoder's outer calls, LzmaDec_DecodeToDic and LzmaDec_DecodeToBuf: input and
 * output come in pieces of any size. What is left of an unfinished symbol is put by in
 * a buffer of 20 bytes, and a symbol is only decoded when it is known to be there.
 */
module Calls {
  import opened Options
  import opened Bytes
  import opened RangeCoder
  import opened Symbols
  import opened Lz
  import opened LzRoundTrip
  import opened Margin
  import opened Dummy
  import opened LzmaDecoder

  /** ELzmaStatus */
  datatype Status = NotSpecified | FinishedWithMark | NotFinished | NeedsMoreInput | MaybeFinishedWithoutMark

  /* ---------- what holds between calls ---------- */

  /** A decoder somewhere in the compressed form of data, or behind its end. */
  ghost predicate Sound(d: Decoder, data: seq<byte>)
    reads d, d.probs, d.dic
  {
    d.Valid() && d.buf <= |d.src| &&
    if d.remainLen < FINISHED then OnTrack(d.D(), d.src, data, d.dicBufSize)
    else d.remainLen == FINISHED && d.hist == data && d.code == 0
  }

  /** stash bytes behind those decoded are in the buffer because they do not hold a whole symbol. */
  ghost predicate Stashed(d: Decoder, stash: nat)
    requires d.Valid() && d.buf + stash <= |d.src|
    reads d, d.probs, d.dic
  {
    stash > 0 ==>
      stash < REQUIRED_INPUT && d.remainLen == 0 && Peek(d.D(), d.src, d.buf + stash, d.dicBufSize).None?
  }

  /** The next symbol is not all there in the first avail bytes of the stream. */
  ghost predicate Wanting(d: Decoder, avail: nat)
    requires d.Valid() && d.buf <= avail <= |d.src|
    reads d, d.probs, d.dic
  {
    d.remainLen == 0 && Peek(d.D(), d.src, avail, d.dicBufSize).None?
  }

  /** k more bytes of output can be decoded from the first avail bytes of the stream. */
  ghost predicate Supply(d: LzDec, s: seq<byte>, dictSize: nat, avail: nat, k: nat)
    requires DecOk(d, dictSize)
  {
    var p := DecodeN(d, s, dictSize, k);
    p.More? && p.d.rd.rc.pos <= avail
  }

  /** The decoder is where the byte-by-byte decoder d0 is after as many bytes as were written since. */
  ghost predicate Came(d0: LzDec, d: Decoder)
    requires d.dicBufSize >= 1 && DecOk(d0, d.dicBufSize)
    reads d, d.probs
  {
    |d0.hist| <= |d.hist| &&
    var p := DecodeN(d0, d.src, d.dicBufSize, |d.hist| - |d0.hist|);
    p.More? && if d.remainLen < FINISHED then p.d == d.D() else p.d.rd.rc.pos <= d.buf && p.d.hist == d.hist
  }

  lemma NextMoves(d: LzDec, s: seq<byte>, dictSize: nat)
    requires DecOk(d, dictSize)
    ensures !Next(d, s, dictSize).Failed? ==> d.rd.rc.pos <= Next(d, s, dictSize).d.rd.rc.pos
  {
    hide ReadToken, ReaderOk;
    if d.rem == 0 && ReadSymbol(d, s, dictSize).Some? { SymbolTakesTwenty(d, s, dictSize); }
  }

  lemma {:induction false} SupplyFewer(d: LzDec, s: seq<byte>, dictSize: nat, avail: nat, j: nat, k: nat)
    requires DecOk(d, dictSize) && Supply(d, s, dictSize, avail, k) && j <= k
    ensures Supply(d, s, dictSize, avail, j)
    decreases k
  {
    hide DecOk, Next;
    if j < k {
      NextMoves(DecodeN(d, s, dictSize, k - 1).d, s, dictSize);
      SupplyFewer(d, s, dictSize, avail, j, k - 1);
    }
  }

  /** What a decoder on track reads lies inside the stream. */
  lemma OnTrackInside(d: LzDec, s: seq<byte>, data: seq<byte>, dictSize: nat)
    requires OnTrack(d, s, data, dictSize)
    ensures d.rd.rc.pos <= |s|
  {
    hide ParseSteps, ValidParse, DecOk, Repeats, ReaderOk;
  }

  /** With all of the stream supplied, what is left of the data can be decoded, and no more. */
  lemma SupplyAll(d: LzDec, s: seq<byte>, data: seq<byte>, dictSize: nat, k: nat)
    requires DecOk(d, dictSize) && OnTrack(d, s, data, dictSize)
    ensures Supply(d, s, dictSize, |s|, k) <==> |d.hist| + k <= |data|
  {
    hide OnTrack, DecOk, Next;
    OnTrackHist(d, s, data, dictSize);
    if DecodeN(d, s, dictSize, k).More? {
      CallOnTrack(d, s, data, dictSize, k);
      OnTrackInside(DecodeN(d, s, dictSize, k).d, s, data, dictSize);
    } else if |d.hist| + k <= |data| {
      DecodeNOnTrack(d, s, data, dictSize, k);
    }
  }

  lemma EndKeepsHist(d: LzDec, s: seq<byte>, dictSize: nat)
    requires DecOk(d, dictSize)
    ensures Next(d, s, dictSize).Finished? ==> Next(d, s, dictSize).d.hist == d.hist
  {
  }

  lemma OnTrackHist(d: LzDec, s: seq<byte>, data: seq<byte>, dictSize: nat)
    requires OnTrack(d, s, data, dictSize)
    ensures |d.hist| <= |data| && d.hist == data[..|d.hist|]
  {
    hide Ready, ParseSteps, ValidParse, DecOk, Repeats, ReaderOk;
  }

  lemma Prefixes(data: seq<byte>, n: nat, m: nat)
    requires n + m <= |data|
    ensures data[..n] <= data[..n + m] <= data
  {
  }

  /** Between symbols there is a next one, if only the end marker. */
  lemma SymbolIsThere(d: LzDec, s: seq<byte>, data: seq<byte>, dictSize: nat)
    requires DecOk(d, dictSize) && OnTrack(d, s, data, dictSize) && d.rem == 0
    ensures ReadSymbol(d, s, dictSize).Some?
    ensures ReadSymbol(d, s, dictSize).value.1.EndToken? <==> d.hist == data
    ensures ReadSymbol(d, s, dictSize).value.0.rd.rc.pos <= |s|
  {
    hide OnTrack, ReadSymbol, DecOk;
    OnTrackHist(d, s, data, dictSize);
    NextOnTrack(d, s, data, dictSize);
    if |d.hist| < |data| { OnTrackInside(Next(d, s, dictSize).d, s, data, dictSize); }
  }

  lemma CameThen(d0: LzDec, d1: LzDec, d: Decoder)
    requires d.dicBufSize >= 1 && DecOk(d0, d.dicBufSize) && DecOk(d1, d.dicBufSize) && Came(d1, d)
    requires |d0.hist| <= |d1.hist| && DecodeN(d0, d.src, d.dicBufSize, |d1.hist| - |d0.hist|) == More(d1)
    ensures Came(d0, d)
  {
    hide DecOk, DecodeN;
    DecodeSum(d0, d.src, d.dicBufSize, |d1.hist| - |d0.hist|, |d.hist| - |d1.hist|);
  }

  /** n bytes on, or behind the end marker that follows them. */
  lemma Continues(d0: LzDec, s: seq<byte>, data: seq<byte>, dictSize: nat, n: nat, d1: LzDec, finished: bool)
    requires DecOk(d0, dictSize) && OnTrack(d0, s, data, dictSize) && DecodeN(d0, s, dictSize, n).More?
    requires var p := DecodeN(d0, s, dictSize, n);
             if finished then Next(p.d, s, dictSize) == Finished(d1) else p.d == d1
    ensures d0.hist <= d1.hist <= data && |d1.hist| == |d0.hist| + n && d1.rd.rc.pos <= |s|
    ensures if finished then d1.hist == data && d1.rd.rc.code == 0 else OnTrack(d1, s, data, dictSize)
    ensures var p := DecodeN(d0, s, dictSize, n);
            p.d.hist == d1.hist && p.d.rd.rc.pos <= d1.rd.rc.pos
  {
    hide OnTrack, Next, DecodeN, DecOk;
    OnTrackHist(d0, s, data, dictSize);
    CallOnTrack(d0, s, data, dictSize, n);
    var last := DecodeN(d0, s, dictSize, n).d;
    OnTrackInside(last, s, data, dictSize);
    EndKeepsHist(last, s, dictSize);
    NextOnTrack(last, s, data, dictSize);
    NextMoves(last, s, dictSize);
    Prefixes(data, |d0.hist|, n);
  }

  /** Decoding from d0 with the dictionary at p0 has come to d, and taken nothing behind avail. */
  ghost predicate Decoded(d0: LzDec, p0: nat, d: Decoder, limit: nat, avail: nat, data: seq<byte>)
    reads d, d.probs, d.dic
  {
    && Sound(d, data) && DecOk(d0, d.dicBufSize) && Came(d0, d)
    && d0.rd.rc.pos <= d.buf <= avail && p0 <= d.dicPos <= limit
    && |d.hist| - |d0.hist| == d.dicPos - p0 && d0.hist <= d.hist <= data
  }

  /** The symbol at d, the shift behind it included, ends no later than at. */
  ghost predicate SymbolEnds(d: LzDec, s: seq<byte>, dictSize: nat, at: nat)
    requires DecOk(d, dictSize)
  {
    ReadSymbol(d, s, dictSize).Some? && ReadSymbol(d, s, dictSize).value.0.rd.rc.pos <= at
  }

  lemma UnderGuard(d0: LzDec, rc: Dec, s: seq<byte>, dictSize: nat, bufLimit: nat, avail: nat)
    requires DecOk(d0, dictSize) && avail <= |s|
    requires Underway(d0, rc, s, dictSize, bufLimit, avail) && Guard(d0, s, dictSize, bufLimit, avail)
    ensures SymbolEnds(d0, s, dictSize, EndOf(rc)) && d0.rd.rc.pos <= EndOf(rc) <= avail
  {
    hide ReadToken;
  }

  lemma CameHere(d0: LzDec, d: Decoder)
    requires d.dicBufSize >= 1 && DecOk(d0, d.dicBufSize) && Came(d0, d) && d.remainLen < FINISHED
    ensures DecodeN(d0, d.src, d.dicBufSize, |d.hist| - |d0.hist|) == More(d.D())
  {
  }

  /* ---------- one call of LzmaDec_DecodeReal2 ---------- */

  /**
   * With a symbol there, and bytes for any other that is begun, decoding succeeds and
   * takes nothing behind avail. Without room it succeeds exactly when the symbol is the
   * end marker.
   */
  method DecodeMore(d: Decoder, limit: nat, bufLimit: nat, avail: nat, ghost data: seq<byte>) returns (ok: bool)
    requires Sound(d, data) && d.remainLen == 0 && d.dicPos <= limit <= d.dicBufSize && (d.dicPos < limit || d.ExpectsMatch())
    requires Guard(d.D(), d.src, d.dicBufSize, bufLimit, avail) && avail <= |d.src|
    modifies d, d.probs, d.dic
    ensures ok <==> old(d.dicPos) < limit || old(d.hist) == data
    ensures ok ==> Decoded(old(d.D()), old(d.dicPos), d, limit, avail, data)
    ensures ok ==> SymbolEnds(old(d.D()), d.src, d.dicBufSize, d.buf)
    ensures ok && d.remainLen != FINISHED ==> old(d.dicPos) < d.dicPos && (d.remainLen == 0 || d.dicPos == limit)
    ensures !ok ==> d.DictOk() && d.hist == old(d.hist) && d.dicPos == old(d.dicPos)
  {
    hide OnTrack, Next, DecodeN, ReadToken, Guard, Underway, StateOk, ReaderOk, Decoder.DictOk, Decoder.CountOk, Decoder.FlagOk;
    ghost var d0 := d.D();
    OnTrackHist(d0, d.src, data, d.dicBufSize);
    if d.dicPos < limit || d.hist == data { NeverFails(d0, d.src, data, d.dicBufSize, limit - d.dicPos); }
    ok := d.DecodeReal2(limit, bufLimit, avail);
    if ok {
      UnderGuard(d0, d.Rd().rc, d.src, d.dicBufSize, bufLimit, avail);
      Continues(d0, d.src, data, d.dicBufSize, |d.hist| - |d0.hist|, d.D(), d.remainLen >= FINISHED);
    }
  }

  /* ---------- one turn of LzmaDec_DecodeToDic ---------- */

  datatype Turn = GoOn | Return(ok: bool, status: Status)

  /** A match, as the dummy found it, is at least two bytes long or the end marker. */
  lemma MatchExpected(d: Decoder, lim: nat)
    requires d.Valid() && d.remainLen == 0 && d.buf <= lim <= |d.src|
    requires ReadSymbol(d.D(), d.src, d.dicBufSize).Some? && Peek(d.D(), d.src, lim, d.dicBufSize) == Some(MatchKind)
    ensures d.ExpectsMatch()
  {
    hide Peek, ReadToken;
    DummyTells(d.D(), d.src, lim, d.dicBufSize);
    MatchIsLong(d.D(), d.src, d.dicBufSize);
  }

  /** What the dummy says of the symbol at d. */
  lemma DummySays(d: Decoder, lim: nat, data: seq<byte>)
    requires Sound(d, data) && d.remainLen == 0 && d.buf <= lim <= |d.src|
    ensures d.buf + REQUIRED_INPUT <= lim ==> Peek(d.D(), d.src, lim, d.dicBufSize).Some?
    ensures Peek(d.D(), d.src, lim, d.dicBufSize).Some? <==> SymbolEnds(d.D(), d.src, d.dicBufSize, lim)
    ensures Peek(d.D(), d.src, lim, d.dicBufSize).Some? ==> Fits(d.D(), d.src, d.dicBufSize, lim)
    ensures Peek(d.D(), d.src, lim, d.dicBufSize) == Some(MatchKind) ==> d.ExpectsMatch()
    ensures d.hist == data && Peek(d.D(), d.src, lim, d.dicBufSize).Some? ==>
              Peek(d.D(), d.src, lim, d.dicBufSize) == Some(MatchKind)
  {
    hide Peek, ReadToken, OnTrack, Decoder.DictOk, Decoder.CountOk;
    SymbolIsThere(d.D(), d.src, data, d.dicBufSize);
    DummyTells(d.D(), d.src, lim, d.dicBufSize);
    if d.buf + REQUIRED_INPUT <= lim { TwentyAreEnough(d.D(), d.src, lim, d.dicBufSize); }
    if Peek(d.D(), d.src, lim, d.dicBufSize) == Some(MatchKind) { MatchExpected(d, lim); }
  }

  /** The turn that reads from the input at hand; what is not a whole symbol goes into the buffer. */
  method FromInput(d: Decoder, limit: nat, avail: nat, checkEndMark: bool, ghost data: seq<byte>) returns (turn: Turn, stash: nat)
    requires Sound(d, data) && d.remainLen == 0 && d.dicPos <= limit <= d.dicBufSize && d.buf <= avail <= |d.src|
    requires checkEndMark <==> d.dicPos == limit
    modifies d, d.probs, d.dic
    ensures turn.GoOn? ==> Decoded(old(d.D()), old(d.dicPos), d, limit, avail, data) && stash == 0 && old(d.buf) <= d.buf
                           && (d.remainLen == FINISHED || (old(d.dicPos) < d.dicPos && (d.remainLen == 0 || d.dicPos == limit)))
    ensures turn.Return? && turn.ok ==>
              && turn.status == NeedsMoreInput && unchanged(d) && unchanged(d.probs) && unchanged(d.dic)
              && d.buf + stash == avail && Stashed(d, stash) && Wanting(d, avail)
    ensures turn.Return? && !turn.ok ==>
              checkEndMark && d.DictOk() && old(d.hist) != data && d.hist == old(d.hist) && d.dicPos == old(d.dicPos)
  {
    hide Sound, Peek, Decoder.ExpectsMatch, DecOk, Fits, SymbolEnds;
    SoundIs(d, data);
    var inSize := avail - d.buf;
    var bufLimit := d.buf;
    DummySays(d, avail, data);
    if inSize < REQUIRED_INPUT || checkEndMark {
      var dummy := d.TryDummy(avail);
      if dummy.None? { return Return(true, NeedsMoreInput), inSize; }
      if checkEndMark && dummy != Some(MatchKind) { return Return(false, NotFinished), 0; }
    } else {
      bufLimit := avail - REQUIRED_INPUT;
    }
    var ok := DecodeMore(d, limit, bufLimit, avail, data);
    turn, stash := if ok then GoOn else Return(false, NotSpecified), 0;
  }

  lemma SoundIs(d: Decoder, data: seq<byte>)
    requires Sound(d, data)
    ensures d.Valid() && d.SymbolPre() == (d.remainLen == 0) && d.buf <= |d.src|
    ensures d.remainLen >= FINISHED ==> d.remainLen == FINISHED && d.hist == data && d.code == 0
  {
  }

  lemma SoundTracks(d: Decoder, data: seq<byte>)
    requires Sound(d, data) && d.remainLen != FINISHED
    ensures OnTrack(d.D(), d.src, data, d.dicBufSize)
  {
    hide OnTrack;
  }

  /** In the middle of a copy there is more to come. */
  lemma CopyIsLess(d: Decoder, data: seq<byte>)
    requires Sound(d, data) && 0 < d.remainLen < FINISHED
    ensures d.hist != data
  {
    hide Decoder.DictOk, Decoder.CountOk;
    var z, ops :| Tracks(d.D(), d.src, data, z, ops, d.dicBufSize);
    CopyTracks(d.D(), d.src, data, z, ops, d.dicBufSize);
  }

  /**
   * The turn that reads from the buffer, topped up to 20 bytes. The symbol there takes
   * all that had been put by, so that what it does not take can be given back to the
   * input: lookAhead does not run below 0.
   */
  method FromStash(d: Decoder, limit: nat, avail: nat, stashed: nat, checkEndMark: bool, ghost data: seq<byte>)
    returns (turn: Turn, stash: nat, lookAhead: nat)
    requires Sound(d, data) && d.remainLen == 0 && d.dicPos <= limit <= d.dicBufSize && d.buf + stashed <= avail <= |d.src|
    requires stashed > 0 && Stashed(d, stashed)
    requires checkEndMark <==> d.dicPos == limit
    modifies d, d.probs, d.dic
    ensures turn.GoOn? ==> Decoded(old(d.D()), old(d.dicPos), d, limit, avail, data) && stash == 0
                           && d.buf == old(d.buf) + stashed + lookAhead
                           && (d.remainLen == FINISHED || (old(d.dicPos) < d.dicPos && (d.remainLen == 0 || d.dicPos == limit)))
    ensures turn.Return? && turn.ok ==>
              && turn.status == NeedsMoreInput && unchanged(d) && unchanged(d.probs) && unchanged(d.dic)
              && d.buf + stash == avail && Stashed(d, stash) && Wanting(d, avail)
              && stash == stashed + lookAhead
    ensures turn.Return? && !turn.ok ==>
              checkEndMark && d.DictOk() && old(d.hist) != data && d.hist == old(d.hist) && d.dicPos == old(d.dicPos)
  {
    hide Sound, Peek, Decoder.ExpectsMatch, DecOk, Fits, SymbolEnds;
    SoundIs(d, data);
    var inSize, rem, start := avail - d.buf - stashed, stashed, d.buf;
    lookAhead := 0;
    while rem < REQUIRED_INPUT && lookAhead < inSize
      invariant rem == stashed + lookAhead <= REQUIRED_INPUT && lookAhead <= inSize
    {
      rem, lookAhead := rem + 1, lookAhead + 1;
    }
    stash := rem;
    DummySays(d, d.buf + stashed, data);
    DummySays(d, d.buf + rem, data);
    if rem < REQUIRED_INPUT || checkEndMark {
      var dummy := d.TryDummy(d.buf + rem);
      if dummy.None? { return Return(true, NeedsMoreInput), stash, lookAhead; }
      if checkEndMark && dummy != Some(MatchKind) { return Return(false, NotFinished), stash, lookAhead; }
    }
    ghost var d0 := d.D();
    var ok := DecodeMore(d, limit, d.buf, d.buf + rem, data);
    if !ok { return Return(false, NotSpecified), stash, lookAhead; }
    TakesTheStash(d0, d.src, d.dicBufSize, start + stashed, d.buf);
    lookAhead := lookAhead - (rem - (d.buf - start));
    turn, stash := GoOn, 0;
  }

  lemma TakesTheStash(d0: LzDec, s: seq<byte>, dictSize: nat, lim: nat, at: nat)
    requires DecOk(d0, dictSize) && SymbolEnds(d0, s, dictSize, at) && !SymbolEnds(d0, s, dictSize, lim)
    ensures lim < at
  {
    hide ReadSymbol;
  }

  /* ---------- LzmaDec_DecodeToDic ---------- */

  /** A copy that an earlier call cut short is finished as far as there is room. */
  method FinishCopy(d: Decoder, limit: nat, avail: nat, ghost data: seq<byte>)
    requires Sound(d, data) && d.dicPos <= limit <= d.dicBufSize && d.buf <= avail
    modifies d, d.dic
    ensures Decoded(old(d.D()), old(d.dicPos), d, limit, avail, data) && d.buf == old(d.buf)
    ensures d.remainLen == 0 || d.remainLen == FINISHED || d.dicPos == limit
    ensures old(d.remainLen) == 0 ==> d.remainLen == 0 && d.D() == old(d.D())
    ensures d.remainLen == FINISHED <==> old(d.remainLen) == FINISHED
  {
    hide OnTrack, Next, DecodeN, ReadToken, StateOk, ReaderOk, Decoder.DictOk, Decoder.CountOk, Decoder.FlagOk;
    ghost var d0 := d.D();
    d.WriteRem(limit);
    if d.remainLen < FINISHED {
      Continues(d0, d.src, data, d.dicBufSize, |d.hist| - |d0.hist|, d.D(), false);
    } else {
      DecodeZero(d0, d.src, d.dicBufSize);
    }
  }

  lemma DecodedThen(d0: LzDec, p0: nat, d1: LzDec, p1: nat, d: Decoder, limit: nat, avail: nat, data: seq<byte>)
    requires d.dicBufSize >= 1 && DecOk(d0, d.dicBufSize) && DecOk(d1, d.dicBufSize)
    requires d0.hist <= d1.hist && d0.rd.rc.pos <= d1.rd.rc.pos && p0 <= p1 && |d1.hist| - |d0.hist| == p1 - p0
    requires DecodeN(d0, d.src, d.dicBufSize, |d1.hist| - |d0.hist|) == More(d1)
    requires Decoded(d1, p1, d, limit, avail, data)
    ensures Decoded(d0, p0, d, limit, avail, data)
  {
    hide Sound, DecOk, DecodeN;
    CameThen(d0, d1, d);
  }

  lemma DecodedHere(d0: LzDec, p0: nat, d: Decoder, limit: nat, avail: nat, data: seq<byte>)
    requires Decoded(d0, p0, d, limit, avail, data) && d.remainLen < FINISHED
    ensures d.Valid() && Sound(d, data) && d.dicBufSize >= 1 && DecOk(d0, d.dicBufSize) && DecOk(d.D(), d.dicBufSize)
    ensures d0.hist <= d.D().hist && d0.rd.rc.pos <= d.buf && p0 <= d.dicPos <= limit && |d.hist| - |d0.hist| == d.dicPos - p0
    ensures DecodeN(d0, d.src, d.dicBufSize, |d.D().hist| - |d0.hist|) == More(d.D())
  {
    hide DecOk, OnTrack;
    CameHere(d0, d);
  }

  /** One turn of the loop, from the buffer if anything is in it; taken counts the bytes of input that left it. */
  method Advance(d: Decoder, limit: nat, avail: nat, stashed: nat, checkEndMark: bool, ghost d0: LzDec, ghost p0: nat, ghost data: seq<byte>)
    returns (turn: Turn, stash: nat, taken: nat)
    requires Decoded(d0, p0, d, limit, avail, data) && d.remainLen == 0 && limit <= d.dicBufSize
    requires d.buf + stashed <= avail <= |d.src| && Stashed(d, stashed)
    requires checkEndMark <==> d.dicPos == limit
    modifies d, d.probs, d.dic
    ensures turn.GoOn? ==> Decoded(d0, p0, d, limit, avail, data) && stash == 0 && d.buf == old(d.buf) + stashed + taken
                           && (d.remainLen == FINISHED || (old(d.dicPos) < d.dicPos && (d.remainLen == 0 || d.dicPos == limit)))
    ensures turn.Return? && turn.ok ==>
              && turn.status == NeedsMoreInput && unchanged(d) && unchanged(d.probs) && unchanged(d.dic)
              && d.buf + stash == avail && Stashed(d, stash) && Wanting(d, avail)
              && stash == stashed + taken
    ensures turn.Return? && !turn.ok ==>
              checkEndMark && d.DictOk() && old(d.hist) != data && d.hist == old(d.hist) && d.dicPos == old(d.dicPos)
  {
    hide Sound, Came, Peek, DecOk, DecodeN, Decoded, Stashed, Wanting, Decoder.Valid;
    DecodedHere(d0, p0, d, limit, avail, data);
    ghost var d1, p1 := d.D(), d.dicPos;
    if stashed == 0 {
      var before := d.buf;
      turn, stash := FromInput(d, limit, avail, checkEndMark, data);
      taken := stash;
      if turn.GoOn? { taken := d.buf - before; }
    } else {
      turn, stash, taken := FromStash(d, limit, avail, stashed, checkEndMark, data);
    }
    if turn.GoOn? { DecodedThen(d0, p0, d1, p1, d, limit, avail, data); }
  }

  /**
   * LzmaDec_DecodeToDic: decode up to limit, the first avail bytes of the stream having
   * been supplied. used is how many bytes the call has taken from its input, those it
   * has put by included.
   */
  method DecodeToDic(d: Decoder, limit: nat, avail: nat, stashed: nat, finishAny: bool, ghost data: seq<byte>)
    returns (ok: bool, status: Status, stash: nat, used: nat)
    requires Sound(d, data) && d.dicPos <= limit <= d.dicBufSize
    requires d.buf + stashed <= avail <= |d.src| && Stashed(d, stashed)
    modifies d, d.probs, d.dic
    ensures finishAny ==> ok
    ensures d.DictOk() && old(d.dicPos) <= d.dicPos <= limit && old(d.hist) <= d.hist <= data
    ensures |d.hist| - |old(d.hist)| == d.dicPos - old(d.dicPos)
    ensures ok ==> Decoded(old(d.D()), old(d.dicPos), d, limit, avail, data)
    ensures ok ==> d.buf + stash == old(d.buf) + stashed + used <= avail && Stashed(d, stash)
    ensures ok ==> if d.remainLen == FINISHED then status == FinishedWithMark else status in {NeedsMoreInput, NotFinished, MaybeFinishedWithoutMark}
    ensures ok && status == NeedsMoreInput ==> d.buf + stash == avail && Wanting(d, avail)
    ensures ok && status in {NotFinished, MaybeFinishedWithoutMark} ==> d.dicPos == limit
    ensures ok && status == MaybeFinishedWithoutMark ==> d.remainLen == 0 && d.code == 0
    ensures ok && status == NotFinished ==> finishAny
    ensures !ok ==> d.dicPos == limit && d.hist != data
  {
    hide Sound, Came, Peek, DecOk;
    SoundIs(d, data);
    ghost var d0, p0, b0 := d.D(), d.dicPos, d.buf;
    FinishCopy(d, limit, avail, data);
    SoundIs(d, data);
    stash, used := stashed, 0;
    while d.remainLen != FINISHED
      invariant d.Valid() && Decoded(d0, p0, d, limit, avail, data) && Sound(d, data)
      invariant d.remainLen <= FINISHED && (d.remainLen == 0 || d.remainLen == FINISHED || d.dicPos == limit)
      invariant d.buf + stash == b0 + stashed + used <= avail && Stashed(d, stash)
      decreases limit - d.dicPos, if d.remainLen != FINISHED then 1 else 0
    {
      var checkEndMark := false;
      if d.dicPos >= limit {
        if d.remainLen == 0 && d.code == 0 { return true, MaybeFinishedWithoutMark, stash, used; }
        if finishAny { return true, NotFinished, stash, used; }
        if d.remainLen != 0 {
          CopyIsLess(d, data);
          return false, NotFinished, stash, used;
        }
        checkEndMark := true;
      }
      var turn, taken;
      turn, stash, taken := Advance(d, limit, avail, stash, checkEndMark, d0, p0, data);
      used := used + taken;
      if turn.Return? { return turn.ok, turn.status, stash, used; }
      SoundIs(d, data);
    }
    SoundIs(d, data);
    ok := d.code == 0;
    status := if ok then FinishedWithMark else NotSpecified;
  }

  /* ---------- LzmaDec_DecodeToBuf ---------- */

  /** Nothing can be delivered, or all that is asked for fits before the dictionary's end and can be decoded. */
  ghost predicate AllOrNothing(d0: LzDec, s: seq<byte>, dictSize: nat, room: nat, avail: nat, outSize: nat)
    requires DecOk(d0, dictSize)
  {
    !Supply(d0, s, dictSize, avail, 1) || (outSize <= room && Supply(d0, s, dictSize, avail, outSize))
  }

  /** m bytes were delivered, and the call ended at its limit or for want of more. */
  lemma Outcome(d0: LzDec, s: seq<byte>, dictSize: nat, room: nat, avail: nat, outSize: nat, m: nat)
    requires DecOk(d0, dictSize) && room >= 1 && m <= room && m <= outSize && Supply(d0, s, dictSize, avail, m)
    requires m == room || m == outSize || !Supply(d0, s, dictSize, avail, m + 1)
    ensures m == 0 || m == outSize <==> AllOrNothing(d0, s, dictSize, room, avail, outSize)
  {
    hide Supply, DecOk;
    if m > 0 { SupplyFewer(d0, s, dictSize, avail, 1, m); }
    if m < outSize && Supply(d0, s, dictSize, avail, outSize) { SupplyFewer(d0, s, dictSize, avail, m + 1, outSize); }
  }

  /** Behind the end marker, or before a symbol that is not all there, no further byte can be decoded. */
  lemma NoMore(d0: LzDec, d: Decoder, avail: nat, data: seq<byte>)
    requires Sound(d, data) && DecOk(d0, d.dicBufSize) && Came(d0, d) && OnTrack(d0, d.src, data, d.dicBufSize)
    requires d.buf <= avail <= |d.src|
    requires d.remainLen == FINISHED || Wanting(d, avail)
    ensures !Supply(d0, d.src, d.dicBufSize, avail, |d.hist| - |d0.hist| + 1)
  {
    hide OnTrack, Next, Peek, StateOk, ReaderOk, Decoder.DictOk, Decoder.CountOk, Decoder.FlagOk;
    var m := |d.hist| - |d0.hist|;
    CallOnTrack(d0, d.src, data, d.dicBufSize, m);
    var last := DecodeN(d0, d.src, d.dicBufSize, m).d;
    NextOnTrack(last, d.src, data, d.dicBufSize);
    if d.remainLen == 0 && d.hist != data {
      DummySays(d, avail, data);
      SymbolIsThere(last, d.src, data, d.dicBufSize);
      NextTakesSymbol(last, d.src, d.dicBufSize);
    }
  }

  lemma NextTakesSymbol(d: LzDec, s: seq<byte>, dictSize: nat)
    requires DecOk(d, dictSize) && d.rem == 0 && ReadSymbol(d, s, dictSize).Some?
    ensures !Next(d, s, dictSize).Failed?
    ensures Next(d, s, dictSize).d.rd.rc.pos == ReadSymbol(d, s, dictSize).value.0.rd.rc.pos
  {
    hide ReadSymbol, ReaderOk;
  }

  lemma CameSupplies(d0: LzDec, d: Decoder, avail: nat)
    requires d.dicBufSize >= 1 && DecOk(d0, d.dicBufSize) && Came(d0, d) && d.buf <= avail
    ensures Supply(d0, d.src, d.dicBufSize, avail, |d.hist| - |d0.hist|)
  {
    hide DecodeN, DecOk;
  }

  lemma AllSupplied(d0: LzDec, s: seq<byte>, data: seq<byte>, dictSize: nat, room: nat, outSize: nat)
    requires DecOk(d0, dictSize) && OnTrack(d0, s, data, dictSize)
    ensures AllOrNothing(d0, s, dictSize, room, |s|, outSize)
            <==> d0.hist == data || (outSize <= room && |d0.hist| + outSize <= |data|)
  {
    hide OnTrack, Supply, DecOk;
    OnTrackHist(d0, s, data, dictSize);
    SupplyAll(d0, s, data, dictSize, 1);
    SupplyAll(d0, s, data, dictSize, outSize);
  }

  /** The bytes a call has written, copied out of the dictionary. */
  method Written(d: Decoder, start: nat) returns (piece: seq<byte>)
    requires d.DictOk() && start <= d.dicPos
    ensures |d.hist| >= d.dicPos - start && piece == d.hist[|d.hist| - (d.dicPos - start)..]
  {
    piece := d.dic[start..d.dicPos];
    var n := d.dicPos - start;
    assert forall j :: 0 <= j < n ==> piece[j] == d.hist[d.lap + start + j];
  }

  /** A full dictionary is filled again from its start. */
  method Rewind(d: Decoder, stashed: nat, avail: nat, ghost data: seq<byte>)
    requires Sound(d, data) && d.buf + stashed <= avail <= |d.src| && Stashed(d, stashed)
    modifies d`dicPos, d`lap
    ensures Sound(d, data) && Stashed(d, stashed) && d.D() == old(d.D())
    ensures d.dicPos == (if old(d.dicPos) == d.dicBufSize then 0 else old(d.dicPos)) < d.dicBufSize
  {
    hide OnTrack, Peek, Decoder.CountOk, Decoder.FlagOk;
    d.WrapIfFull();
  }

  /** The room before the end of the dictionary, once a full one was rewound. */
  function Room(d: Decoder): nat
    reads d`dicPos
    requires d.dicPos <= d.dicBufSize
  {
    d.dicBufSize - if d.dicPos == d.dicBufSize then 0 else d.dicPos
  }

  /**
   * LzmaDec_DecodeToBuf: the next bytes of the data are delivered. With finishAny the
   * call reports success exactly when nothing could be delivered, or all that was
   * asked for fitted before the dictionary's end and could be decoded from what was
   * supplied. Otherwise it reports failure, however sound the stream and the bytes
   * delivered are. Once all of the stream is supplied this means: success exactly when
   * nothing is left, or what was asked for is left and fits before the dictionary's end.
   */
  method DecodeToBuf(d: Decoder, outSize: nat, avail: nat, stashed: nat, finishAny: bool, ghost data: seq<byte>)
    returns (ok: bool, status: Status, piece: seq<byte>, stash: nat, used: nat)
    requires Sound(d, data) && d.buf + stashed <= avail <= |d.src| && Stashed(d, stashed)
    modifies d, d.probs, d.dic
    ensures d.hist == old(d.hist) + piece <= data && |piece| <= outSize
    ensures finishAny || ok ==> Sound(d, data) && d.buf + stash == old(d.buf) + stashed + used <= avail && Stashed(d, stash)
    ensures finishAny && d.remainLen != FINISHED && piece == [] && outSize > 0 ==>
              d.buf + stash == avail && Wanting(d, avail)
    ensures var able := old(d.remainLen) == FINISHED || old(AllOrNothing(d.D(), d.src, d.dicBufSize, Room(d), avail, outSize));
            && (ok ==> able)
            && (able && (finishAny || |old(d.hist)| + outSize >= |data|) ==> ok)
    ensures finishAny && avail == |d.src| && old(d.remainLen) != FINISHED ==>
              (ok <==> old(d.hist) == data || (outSize <= old(Room(d)) && |old(d.hist)| + outSize <= |data|))
  {
    hide Sound, Came, Peek, DecOk, Stashed, Supply, OnTrack, AllOrNothing;
    SoundIs(d, data);
    ghost var d0, room, done := d.D(), Room(d), d.remainLen == FINISHED;
    if !done {
      SoundTracks(d, data);
      AllSupplied(d0, d.src, data, d.dicBufSize, room, outSize);
    }
    Rewind(d, stashed, avail, data);
    SoundIs(d, data);
    var start := d.dicPos;
    var limit, any := start + outSize, finishAny;
    if outSize > d.dicBufSize - start { limit, any := d.dicBufSize, true; }
    ok, status, stash, used := DecodeToDic(d, limit, avail, stashed, any, data);
    piece := Written(d, start);
    assert d.hist == d0.hist + d.hist[|d0.hist|..];
    if !ok { return; }
    Ended(d0, done, d, room, avail, outSize, data, status);
    ok := |piece| == 0 || |piece| == outSize;
  }

  lemma Ended(d0: LzDec, done: bool, d: Decoder, room: nat, avail: nat, outSize: nat, data: seq<byte>, status: Status)
    requires Sound(d, data) && DecOk(d0, d.dicBufSize) && Came(d0, d) && d.buf <= avail <= |d.src|
    requires d.hist <= data && room >= 1 && |d.hist| - |d0.hist| <= room && |d.hist| - |d0.hist| <= outSize
    requires if done then d0.hist == data else OnTrack(d0, d.src, data, d.dicBufSize)
    requires d.remainLen == FINISHED || |d.hist| - |d0.hist| == room || |d.hist| - |d0.hist| == outSize
             || Wanting(d, avail)
    ensures var m := |d.hist| - |d0.hist|;
            m == 0 || m == outSize <==> done || AllOrNothing(d0, d.src, d.dicBufSize, room, avail, outSize)
  {
    hide Sound, Peek, DecOk, Supply, OnTrack, AllOrNothing;
    SoundIs(d, data);
    if !done {
      var m := |d.hist| - |d0.hist|;
      CameSupplies(d0, d, avail);
      if m != room && m != outSize { NoMore(d0, d, avail, data); }
      Outcome(d0, d.src, d.dicBufSize, room, avail, outSize, m);
    }
  }

  /* ---------- a whole stream ---------- */

  lemma AllIsThere(d: Decoder, data: seq<byte>)
    requires Sound(d, data)
    ensures !Wanting(d, |d.src|)
  {
    hide Peek, OnTrack, DecOk;
    if d.remainLen == 0 {
      DummySays(d, |d.src|, data);
      SymbolIsThere(d.D(), d.src, data, d.dicBufSize);
    }
  }

  /**
   * Decoding to the end marker with output taken and input supplied in pieces of any
   * size, one more byte at least when a call asks for it: what is delivered is the data.
   */
  method Decompress(s: seq<byte>, dictSize: nat, room: nat -> nat, supply: nat -> nat, ghost data: seq<byte>) returns (out: seq<byte>)
    requires |s| >= 5 && s[0] == 0 && 1 <= dictSize < TWO32
    requires InitDec(s).Some? && OnTrack(InitDec(s).value, s, data, dictSize)
    ensures out == data
  {
    hide Sound, Peek, OnTrack, DecOk, Stashed, Wanting, AllOrNothing;
    var d := new Decoder(s, dictSize);
    FreshIsSound(d, data);
    out := [];
    var calls, avail, stash, needsMore := 0, 5, 0, false;
    while d.remainLen != FINISHED
      invariant Sound(d, data) && fresh(d) && fresh(d.probs) && fresh(d.dic) && d.src == s && d.dicBufSize == dictSize
      invariant out == d.hist <= data
      invariant d.Valid() && d.buf + stash <= avail <= |s| && Stashed(d, stash)
      invariant needsMore && d.remainLen != FINISHED ==> Wanting(d, avail)
      decreases |data| - |d.hist|, if d.remainLen == FINISHED then 0 else 1, |s| - avail, if needsMore then 0 else 1
    {
      if needsMore { AllIsThere(d, data); }
      var more := supply(calls) + if needsMore then 1 else 0;
      avail := if more <= |s| - avail then avail + more else |s|;
      var ok, status, piece, used;
      ok, status, piece, stash, used := DecodeToBuf(d, 1 + room(calls), avail, stash, true, data);
      SoundIs(d, data);
      needsMore := piece == [];
      out := out + piece;
      calls := calls + 1;
    }
    SoundIs(d, data);
  }

  lemma FreshIsSound(d: Decoder, data: seq<byte>)
    requires d.Valid() && d.buf <= |d.src| && d.remainLen == 0 && OnTrack(d.D(), d.src, data, d.dicBufSize)
    ensures Sound(d, data) && Stashed(d, 0)
  {
    hide OnTrack;
  }
}
