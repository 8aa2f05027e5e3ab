/** The streaming interface of lib/kcapi-asym.c: metadata, input chunks sent
    either zero-copy or buffered, and the receive of the result. */
module Stream {
  import opened Transport

  /** kcapi_akcipher_stream_init_{enc,dec,sgn,vfy}: operation metadata for
      `op`, with "more data follows". */
  function StreamInit(s: HandleState, op: OpKind, iov: IovRef, len: uint32): (o: Outcome)
    ensures o.ret == NextReply(s).ret
    ensures o.calls == [Event(SendMeta(iov, len, op, true), NextReply(s))]
    ensures o.st.processedSg == s.processedSg && o.st.completedReads == s.completedReads
    ensures o.st.answers == s.answers && o.st.next == s.next + 1
  {
    Invoke(s, SendMeta(iov, len, op, true))
  }

  /** A chunk submission: the zero-copy or the buffered primitive, passing the
      caller's vector through. */
  predicate SubmitsChunk(c: Call, iov: IovRef, len: uint32, more: bool)
  {
    (c.VmspliceIov? || c.SendData?) && c.iov == iov && c.len == len && c.more == more
  }

  /** kcapi_akcipher_stream_update: zero-copy while the handle has pinned fewer
      pages than alg_max_pages, buffered otherwise, with "more data follows". */
  function StreamUpdate(cfg: Flags, s: HandleState, iov: IovRef, len: uint32): (o: Outcome)
    ensures o.ret == NextReply(s).ret
    ensures |o.calls| == 1 && o.calls[0].reply == NextReply(s)
    ensures SubmitsChunk(o.calls[0].call, iov, len, true)
    ensures o.calls[0].call.VmspliceIov? <==> s.processedSg < cfg.algMaxPages
  {
    if s.processedSg < cfg.algMaxPages then Invoke(s, VmspliceIov(iov, len, true))
    else Invoke(s, SendData(iov, len, true))
  }

  /** kcapi_akcipher_stream_update_last: the same choice of primitive, without
      "more data follows", which ends the input. */
  function StreamUpdateLast(cfg: Flags, s: HandleState, iov: IovRef, len: uint32): (o: Outcome)
    ensures o.ret == NextReply(s).ret
    ensures |o.calls| == 1 && o.calls[0].reply == NextReply(s)
    ensures SubmitsChunk(o.calls[0].call, iov, len, false)
    ensures o.calls[0].call.VmspliceIov? <==> s.processedSg < cfg.algMaxPages
  {
    if s.processedSg < cfg.algMaxPages then Invoke(s, VmspliceIov(iov, len, false))
    else Invoke(s, SendData(iov, len, false))
  }

  /** kcapi_akcipher_stream_op: a NULL or empty output vector is refused with
      -EINVAL before any I/O; otherwise the receive result is returned as is. */
  function StreamOp(s: HandleState, iov: IovRef, len: uint32): (o: Outcome)
    ensures (iov.NullIov? || len == 0) ==> o.ret == -EINVAL && o.st == s && o.calls == []
    ensures !(iov.NullIov? || len == 0) ==>
              o.ret == NextReply(s).ret && o.calls == [Event(RecvData(iov, len), NextReply(s))]
  {
    if iov.NullIov? || len == 0 then Outcome(-EINVAL, s, [])
    else Invoke(s, RecvData(iov, len))
  }

  /** The two update calls make the same decision and differ only in the
      "more data follows" marker. */
  lemma UpdateLastDiffersOnlyInMore(cfg: Flags, s: HandleState, iov: IovRef, len: uint32)
    ensures var u, l := StreamUpdate(cfg, s, iov, len), StreamUpdateLast(cfg, s, iov, len);
      && u.ret == l.ret
      && u.st == l.st
      && |u.calls| == |l.calls| == 1
      && u.calls[0].call == l.calls[0].call.(more := true)
      && u.calls[0].reply == l.calls[0].reply
  {
  }

  /** Once the handle has pinned alg_max_pages pages, both update calls take
      the buffered path: with exactly that many pages the next chunk is
      buffered, and one page fewer still splices. */
  lemma ThresholdIsExclusive(cfg: Flags, s: HandleState, iov: IovRef, len: uint32)
    requires cfg.algMaxPages > 0
    ensures var at := s.(processedSg := cfg.algMaxPages);
            var below := s.(processedSg := cfg.algMaxPages - 1);
      && StreamUpdate(cfg, at, iov, len).calls[0].call == SendData(iov, len, true)
      && StreamUpdateLast(cfg, at, iov, len).calls[0].call == SendData(iov, len, false)
      && StreamUpdate(cfg, below, iov, len).calls[0].call == VmspliceIov(iov, len, true)
      && StreamUpdateLast(cfg, below, iov, len).calls[0].call == VmspliceIov(iov, len, false)
  {
  }
}
