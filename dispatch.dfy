/** The public entry points of lib/kcapi-asym.c built on the drivers: the
    one-shot encrypt/decrypt/sign/verify wrappers, the sequential fallback used
    when AIO is unavailable, and the *_aio dispatchers. */
module Dispatch {
  import opened Transport
  import opened Stream
  import opened Aio

  /** kcapi_akcipher_{encrypt,decrypt,sign,verify}: one cipher call with the
      operation's ALG_OP_* code, whose result is returned as is. */
  function Crypt(s: HandleState, op: OpKind, inLen: uint32, outLen: uint32, access: int): (o: Outcome)
    ensures o.ret == NextReply(s).ret
    ensures o.calls == [Event(CipherCrypt(op, inLen, outLen, access), NextReply(s))]
    ensures o.st == s.(next := s.next + 1)
  {
    Invoke(s, CipherCrypt(op, inLen, outLen, access))
  }

  // ---------------------------------------------------------------------
  // The sequential fallback

  /** The p-th call of a fallback loop that starts at pair i over the arrays
      `inv` and `outv`: even calls end the input with the input cursor of pair
      i + p/2 (zero-copy or buffered), odd calls receive into the output
      cursor of the same pair. */
  predicate FallbackCall(inv: IovArray, outv: IovArray, i: nat, p: nat, c: Call)
  {
    if p % 2 == 0 then SubmitsChunk(c, Cursor(inv, i + p / 2), 1, false)
    else c == RecvData(Cursor(outv, i + p / 2), 1)
  }

  ghost predicate FollowsFallback(es: seq<Event>, inv: IovArray, outv: IovArray, i: nat)
  {
    forall p :: 0 <= p < |es| ==> FallbackCall(inv, outv, i, p, es[p].call)
  }

  /** One iteration of the fallback's for loop on pair i: end the input with
      the input cursor, zero-copy while the handle has pinned fewer than
      alg_max_pages pages and buffered otherwise; then, unless that failed,
      refuse a NULL output cursor with -EINVAL, or receive into it.  The
      receive result is the iteration's result. */
  function FallbackStep(cfg: Flags, s: HandleState, inv: IovArray, outv: IovArray, i: nat): Outcome
  {
    var a := NextReply(s);
    var c := if s.processedSg < cfg.algMaxPages then VmspliceIov(Cursor(inv, i), 1, false)
             else SendData(Cursor(inv, i), 1, false);
    var st := s.(processedSg := if c.VmspliceIov? then s.processedSg + a.count else s.processedSg, next := s.next + 1);
    if a.ret < 0 then Outcome(a.ret, st, [Event(c, a)])
    else if Cursor(outv, i).NullIov? then Outcome(-EINVAL, st, [Event(c, a)])
    else
      var b := NextReply(st);
      Outcome(b.ret, st.(next := st.next + 1), [Event(c, a), Event(RecvData(Cursor(outv, i), 1), b)])
  }

  /** The iteration is exactly stream_update_last on the input cursor
      followed, if that succeeded, by stream_op on the output cursor. */
  lemma FallbackStepIsUpdateLastThenOp(cfg: Flags, s: HandleState, inv: IovArray, outv: IovArray, i: nat)
    ensures var u := StreamUpdateLast(cfg, s, Cursor(inv, i), 1);
            var o := FallbackStep(cfg, s, inv, outv, i);
      && (u.ret < 0 ==> o == u)
      && (u.ret >= 0 ==>
            var r := StreamOp(u.st, Cursor(outv, i), 1);
            o == Outcome(r.ret, r.st, u.calls + r.calls))
  {
  }

  /** stream_op refuses an iteration's receive with -EINVAL, after the input
      was sent, exactly when the caller's output array is NULL, the iteration
      is the first, and update_last succeeded. */
  lemma FallbackStepRefusesOnlyNullOutput(cfg: Flags, s: HandleState, inv: IovArray, outv: IovArray, i: nat)
    ensures var o := FallbackStep(cfg, s, inv, outv, i);
      (o.ret == -EINVAL && |o.calls| == 1 && o.calls[0].reply.ret >= 0)
        <==> (outv.NullArray? && i == 0 && NextReply(s).ret >= 0)
  {
  }

  /** An iteration ends the input with the input cursor of pair i and
      receives into the output cursor only if that succeeded and the output
      cursor is not NULL; its result is that of its receive, the failure of
      its send, or -EINVAL. */
  lemma FallbackStepShape(cfg: Flags, s: HandleState, inv: IovArray, outv: IovArray, i: nat)
    ensures var o := FallbackStep(cfg, s, inv, outv, i);
      && 1 <= |o.calls| <= 2 && FallbackCall(inv, outv, i, 0, o.calls[0].call)
      && (|o.calls| == 2 <==> o.calls[0].reply.ret >= 0 && Cursor(outv, i).IovAt?)
      && (|o.calls| == 2 ==>
            FallbackCall(inv, outv, i, 1, o.calls[1].call) && SucceededUpTo(o.calls, 1)
            && o.ret == o.calls[1].reply.ret)
      && (|o.calls| == 1 ==>
            o.ret == if o.calls[0].reply.ret < 0 then o.calls[0].reply.ret as int else -EINVAL)
      && (o.ret >= 0 ==> |o.calls| == 2)
  {
  }

  /** A successful iteration yields the bytes its receive reports. */
  lemma FallbackStepSum(cfg: Flags, s: HandleState, inv: IovArray, outv: IovArray, i: nat)
    ensures var o := FallbackStep(cfg, s, inv, outv, i);
      o.ret >= 0 ==> o.ret == Total(o.calls, RecvBytes)
  {
    var o := FallbackStep(cfg, s, inv, outv, i);
    if o.ret >= 0 {
      assert TotalUpTo(o.calls, 1, RecvBytes) == 0;
    }
  }

  /** The for loop of the fallback, from pair i on, adding the bytes each
      iteration receives; the first failure is returned at once. */
  function FallbackLoop(cfg: Flags, s: HandleState, inv: IovArray, outv: IovArray,
                        i: nat, n: uint32, ret: int): Outcome
    decreases n - i
  {
    if i >= n then Outcome(ret, s, [])
    else
      var step := FallbackStep(cfg, s, inv, outv, i);
      if step.ret < 0 then step
      else
        var rest := FallbackLoop(cfg, step.st, inv, outv, i + 1, n, ret + step.ret);
        Outcome(rest.ret, rest.st, step.calls + rest.calls)
  }

  /** A failing iteration ends the loop with its own outcome. */
  lemma FallbackLoopStops(cfg: Flags, s: HandleState, inv: IovArray, outv: IovArray,
                          i: nat, n: uint32, ret: int)
    requires i < n && FallbackStep(cfg, s, inv, outv, i).ret < 0
    ensures FallbackLoop(cfg, s, inv, outv, i, n, ret) == FallbackStep(cfg, s, inv, outv, i)
  {
  }

  /** Past the last pair the loop returns its running sum and makes no call. */
  lemma FallbackLoopDone(cfg: Flags, s: HandleState, inv: IovArray, outv: IovArray,
                         i: nat, n: uint32, ret: int)
    requires i >= n
    ensures FallbackLoop(cfg, s, inv, outv, i, n, ret) == Outcome(ret, s, [])
  {
  }

  /** After a successful iteration, the loop from pair i on, behind calls
      `done`, is the loop from pair i+1 on behind `done` and the iteration's
      calls. */
  lemma FallbackLoopResumes(cfg: Flags, s: HandleState, inv: IovArray, outv: IovArray,
                            i: nat, n: uint32, ret: int, done: seq<Event>)
    requires i < n && FallbackStep(cfg, s, inv, outv, i).ret >= 0
    ensures var step, o := FallbackStep(cfg, s, inv, outv, i), FallbackLoop(cfg, s, inv, outv, i, n, ret);
            var rest := FallbackLoop(cfg, step.st, inv, outv, i + 1, n, ret + step.ret);
      Outcome(o.ret, o.st, done + o.calls) == Outcome(rest.ret, rest.st, (done + step.calls) + rest.calls)
  {
    var step := FallbackStep(cfg, s, inv, outv, i);
    var rest := FallbackLoop(cfg, step.st, inv, outv, i + 1, n, ret + step.ret);
    assert done + (step.calls + rest.calls) == (done + step.calls) + rest.calls;
  }

  /** _kcapi_akcipher_{encrypt,decrypt,sign,verify}_aio_fallback: the four
      copies differ only in the operation that stream_init announces, which is
      sent with a NULL, empty vector. */
  function AioFallback(cfg: Flags, s: HandleState, op: OpKind, inv: IovArray, outv: IovArray, n: uint32): Outcome
  {
    var init := StreamInit(s, op, NullIov, 0);
    if init.ret < 0 then init
    else
      var loop := FallbackLoop(cfg, init.st, inv, outv, 0, n, init.ret);
      Outcome(loop.ret, loop.st, init.calls + loop.calls)
  }

  /** One iteration in front of calls that follow the pattern from pair i+1 on. */
  lemma StepThenFallback(inv: IovArray, outv: IovArray, i: nat, step: seq<Event>, rest: seq<Event>)
    requires |step| == 2 && FallbackCall(inv, outv, i, 0, step[0].call) && FallbackCall(inv, outv, i, 1, step[1].call)
    requires FollowsFallback(rest, inv, outv, i + 1)
    ensures FollowsFallback(step + rest, inv, outv, i)
  {
    var es := step + rest;
    forall p | 0 <= p < |es|
      ensures FallbackCall(inv, outv, i, p, es[p].call)
    {
      if p >= 2 {
        assert es[p] == rest[p - 2];
        assert FallbackCall(inv, outv, i + 1, p - 2, es[p].call);
      }
    }
  }

  lemma {:induction false} FallbackLoopInOrder(cfg: Flags, s: HandleState, inv: IovArray, outv: IovArray,
                                               i: nat, n: uint32, ret: int)
    ensures FollowsFallback(FallbackLoop(cfg, s, inv, outv, i, n, ret).calls, inv, outv, i)
    decreases n - i
  {
    if i < n {
      var step := FallbackStep(cfg, s, inv, outv, i);
      FallbackStepShape(cfg, s, inv, outv, i);
      if step.ret >= 0 {
        var rest := FallbackLoop(cfg, step.st, inv, outv, i + 1, n, ret + step.ret);
        FallbackLoopInOrder(cfg, step.st, inv, outv, i + 1, n, ret + step.ret);
        StepThenFallback(inv, outv, i, step.calls, rest.calls);
      }
    }
  }

  /** Past the first pair, or with a caller's output array, no primitive is
      called once one has failed, and a failure is returned unchanged. */
  lemma {:induction false} FallbackLoopAborts(cfg: Flags, s: HandleState, inv: IovArray, outv: IovArray,
                                              i: nat, n: uint32, ret: int)
    requires ret >= 0
    ensures var o := FallbackLoop(cfg, s, inv, outv, i, n, ret);
      (outv.CallerArray? || i > 0) ==> AbortsOnFirstError(o.calls, o.ret)
    decreases n - i
  {
    if i < n && (outv.CallerArray? || i > 0) {
      var step := FallbackStep(cfg, s, inv, outv, i);
      FallbackStepShape(cfg, s, inv, outv, i);
      if step.ret >= 0 {
        var rest := FallbackLoop(cfg, step.st, inv, outv, i + 1, n, ret + step.ret);
        FallbackLoopAborts(cfg, step.st, inv, outv, i + 1, n, ret + step.ret);
        AbortsPrefix(step.calls, rest.calls, rest.ret);
        assert FallbackLoop(cfg, s, inv, outv, i, n, ret) == Outcome(rest.ret, rest.st, step.calls + rest.calls);
      }
    }
  }

  lemma {:induction false} FallbackLoopSum(cfg: Flags, s: HandleState, inv: IovArray, outv: IovArray,
                                           i: nat, n: uint32, ret: int)
    requires i <= n
    ensures var o := FallbackLoop(cfg, s, inv, outv, i, n, ret);
      && |o.calls| <= 2 * (n - i)
      && (o.ret >= 0 && ret >= 0 ==> o.ret == ret + Total(o.calls, RecvBytes) && |o.calls| == 2 * (n - i))
    decreases n - i
  {
    if i < n {
      var step := FallbackStep(cfg, s, inv, outv, i);
      FallbackStepShape(cfg, s, inv, outv, i);
      FallbackStepSum(cfg, s, inv, outv, i);
      if step.ret >= 0 {
        var rest := FallbackLoop(cfg, step.st, inv, outv, i + 1, n, ret + step.ret);
        FallbackLoopSum(cfg, step.st, inv, outv, i + 1, n, ret + step.ret);
        TotalAppend(step.calls, rest.calls, RecvBytes);
      }
    }
  }

  /** The fallback announces the operation with an empty metadata call, then
      ends the input and receives the output pair by pair, in index order. */
  lemma AioFallbackInOrder(cfg: Flags, s: HandleState, op: OpKind, inv: IovArray, outv: IovArray, n: uint32)
    ensures var o := AioFallback(cfg, s, op, inv, outv, n);
      && o.calls[0].call == SendMeta(NullIov, 0, op, true)
      && forall p :: 1 <= p < |o.calls| ==> FallbackCall(inv, outv, 0, p - 1, o.calls[p].call)
  {
    var o := AioFallback(cfg, s, op, inv, outv, n);
    var init := StreamInit(s, op, NullIov, 0);
    if init.ret >= 0 {
      var loop := FallbackLoop(cfg, init.st, inv, outv, 0, n, init.ret);
      FallbackLoopInOrder(cfg, init.st, inv, outv, 0, n, init.ret);
      forall p | 1 <= p < |o.calls|
        ensures FallbackCall(inv, outv, 0, p - 1, o.calls[p].call)
      {
        assert o.calls[p] == loop.calls[p - 1];
      }
    }
  }

  /** With a caller's output array, no primitive is called once one has
      failed, and a failure is returned unchanged.  With a NULL output array
      the same holds, except that stream_op may refuse the first receive with
      -EINVAL after init and the first update_last both succeeded. */
  lemma AioFallbackAborts(cfg: Flags, s: HandleState, op: OpKind, inv: IovArray, outv: IovArray, n: uint32)
    ensures var o := AioFallback(cfg, s, op, inv, outv, n);
      && (outv.CallerArray? ==> AbortsOnFirstError(o.calls, o.ret))
      && (outv.NullArray? ==>
            AbortsOnFirstError(o.calls, o.ret)
            || (o.ret == -EINVAL && |o.calls| == 2 && SucceededUpTo(o.calls, 2)))
  {
    var o := AioFallback(cfg, s, op, inv, outv, n);
    var init := StreamInit(s, op, NullIov, 0);
    if init.ret >= 0 {
      var loop := FallbackLoop(cfg, init.st, inv, outv, 0, n, init.ret);
      assert SucceededUpTo(init.calls, 1);
      if outv.CallerArray? || n == 0 {
        FallbackLoopAborts(cfg, init.st, inv, outv, 0, n, init.ret);
        AbortsPrefix(init.calls, loop.calls, o.ret);
      } else {
        var step := FallbackStep(cfg, init.st, inv, outv, 0);
        FallbackStepShape(cfg, init.st, inv, outv, 0);
        if step.calls[0].reply.ret < 0 {
          assert SucceededUpTo(step.calls, 0);
          AbortsPrefix(init.calls, loop.calls, o.ret);
        } else {
          assert o.calls == init.calls + step.calls;
          assert SucceededUpTo(o.calls, 1);
        }
      }
    } else {
      assert SucceededUpTo(init.calls, 0);
    }
  }

  /** With a NULL output array and at least one pair the fallback never
      succeeds: it stops after at most init and one update_last, and when
      both succeeded its result is stream_op's -EINVAL. */
  lemma NullOutputNeverSucceeds(cfg: Flags, s: HandleState, op: OpKind, inv: IovArray, outv: IovArray, n: uint32)
    requires outv.NullArray? && n > 0
    ensures var o := AioFallback(cfg, s, op, inv, outv, n);
      && o.ret < 0 && |o.calls| <= 2
      && (o.calls[0].reply.ret >= 0 && |o.calls| == 2 && o.calls[1].reply.ret >= 0 ==> o.ret == -EINVAL)
  {
    var init := StreamInit(s, op, NullIov, 0);
    if init.ret >= 0 {
      FallbackStepShape(cfg, init.st, inv, outv, 0);
    }
  }

  /** On success the fallback returns the result of stream_init plus the bytes
      of every receive; the bytes update_last sends are never added.  It then
      made one call for the init and two per pair. */
  lemma AioFallbackSum(cfg: Flags, s: HandleState, op: OpKind, inv: IovArray, outv: IovArray, n: uint32)
    ensures var o := AioFallback(cfg, s, op, inv, outv, n);
      o.ret >= 0 ==> o.ret == o.calls[0].reply.ret + Total(o.calls, RecvBytes) && |o.calls| == 1 + 2 * n
  {
    var init := StreamInit(s, op, NullIov, 0);
    if init.ret >= 0 {
      var loop := FallbackLoop(cfg, init.st, inv, outv, 0, n, init.ret);
      FallbackLoopSum(cfg, init.st, inv, outv, 0, n, init.ret);
      TotalCons(init.calls[0], loop.calls, RecvBytes);
    }
  }

  /** The four fallbacks behave identically except for the operation their
      first call announces. */
  lemma FallbacksDifferOnlyInInit(cfg: Flags, s: HandleState, op: OpKind, op': OpKind,
                                  inv: IovArray, outv: IovArray, n: uint32)
    ensures var a, b := AioFallback(cfg, s, op, inv, outv, n), AioFallback(cfg, s, op', inv, outv, n);
      && a.ret == b.ret && a.st == b.st && |a.calls| == |b.calls|
      && a.calls[1..] == b.calls[1..]
      && a.calls[0] == Event(SendMeta(NullIov, 0, op, true), NextReply(s))
      && b.calls[0] == Event(SendMeta(NullIov, 0, op', true), NextReply(s))
  {
    var a, b := AioFallback(cfg, s, op, inv, outv, n), AioFallback(cfg, s, op', inv, outv, n);
    var ia, ib := StreamInit(s, op, NullIov, 0), StreamInit(s, op', NullIov, 0);
    assert ia.st == ib.st && ia.ret == ib.ret;
    if ia.ret >= 0 {
      var loop := FallbackLoop(cfg, ia.st, inv, outv, 0, n, ia.ret);
      assert a.calls[1..] == loop.calls == b.calls[1..];
    }
  }

  // ---------------------------------------------------------------------
  // The dispatchers

  /** What a dispatcher does with its driver's outcome `d`: return it,
      unless it is -EOPNOTSUPP, in which case run the sequential fallback on
      the handle as the driver left it. */
  function FallBackAfter(cfg: Flags, d: Outcome, op: OpKind, inv: IovArray, outv: IovArray, n: uint32): Outcome
  {
    if d.ret != -EOPNOTSUPP then d
    else
      var fb := AioFallback(cfg, d.st, op, inv, outv, n);
      Outcome(fb.ret, fb.st, d.calls + fb.calls)
  }

  /** kcapi_akcipher_{encrypt,decrypt,sign,verify}_aio as written: the AIO
      driver as written, then the fallback on -EOPNOTSUPP. */
  function AioDispatch(cfg: Flags, s: HandleState, op: OpKind, inv: IovArray, outv: IovArray,
                       n: uint32, access: int): Outcome
  {
    FallBackAfter(cfg, CryptAio(cfg, s, n, access, op), op, inv, outv, n)
  }

  /** The same entry points over the bounded driver of the Findings. */
  function AioDispatchBounded(cfg: Flags, s: HandleState, op: OpKind, inv: IovArray, outv: IovArray,
                              n: uint32, access: int): Outcome
  {
    FallBackAfter(cfg, CryptAioBounded(cfg, s, n, access, op), op, inv, outv, n)
  }

  /** Whatever the driver's outcome, the dispatcher starts with the driver's
      calls, goes on to the fallback's metadata call if and only if the
      driver returned exactly -EOPNOTSUPP, and otherwise returns the driver's
      result and handle unchanged. */
  lemma FallsBackExactlyOnNotSupported(cfg: Flags, d: Outcome, op: OpKind, inv: IovArray, outv: IovArray, n: uint32)
    ensures var o := FallBackAfter(cfg, d, op, inv, outv, n);
      && |d.calls| <= |o.calls| && o.calls[..|d.calls|] == d.calls
      && (|o.calls| > |d.calls| <==> d.ret == -EOPNOTSUPP)
      && (d.ret == -EOPNOTSUPP ==> o.calls[|d.calls|].call == SendMeta(NullIov, 0, op, true))
      && (d.ret != -EOPNOTSUPP ==> o.ret == d.ret && o.st == d.st)
  {
    if d.ret == -EOPNOTSUPP {
      var fb := AioFallback(cfg, d.st, op, inv, outv, n);
      AioFallbackInOrder(cfg, d.st, op, inv, outv, n);
      assert (d.calls + fb.calls)[|d.calls|] == fb.calls[0];
    }
  }

  /** The entry points as written fall back if and only if
      _kcapi_akcipher_crypt_aio returned exactly -EOPNOTSUPP; any other result
      is returned unchanged. */
  lemma DispatchFallsBackExactlyOnNotSupported(cfg: Flags, s: HandleState, op: OpKind, inv: IovArray, outv: IovArray,
                                               n: uint32, access: int)
    ensures var d, o := CryptAio(cfg, s, n, access, op), AioDispatch(cfg, s, op, inv, outv, n, access);
      && |d.calls| <= |o.calls| && o.calls[..|d.calls|] == d.calls
      && (|o.calls| > |d.calls| <==> d.ret == -EOPNOTSUPP)
      && (d.ret == -EOPNOTSUPP ==> o.calls[|d.calls|].call == SendMeta(NullIov, 0, op, true))
      && (d.ret != -EOPNOTSUPP ==> o.ret == d.ret && o.st == d.st)
  {
    FallsBackExactlyOnNotSupported(cfg, CryptAio(cfg, s, n, access, op), op, inv, outv, n);
  }

  /** The same for the entry points over the bounded driver. */
  lemma BoundedDispatchFallsBackExactlyOnNotSupported(cfg: Flags, s: HandleState, op: OpKind, inv: IovArray,
                                                      outv: IovArray, n: uint32, access: int)
    ensures var d, o := CryptAioBounded(cfg, s, n, access, op), AioDispatchBounded(cfg, s, op, inv, outv, n, access);
      && |d.calls| <= |o.calls| && o.calls[..|d.calls|] == d.calls
      && (|o.calls| > |d.calls| <==> d.ret == -EOPNOTSUPP)
      && (d.ret == -EOPNOTSUPP ==> o.calls[|d.calls|].call == SendMeta(NullIov, 0, op, true))
      && (d.ret != -EOPNOTSUPP ==> o.ret == d.ret && o.st == d.st)
  {
    FallsBackExactlyOnNotSupported(cfg, CryptAioBounded(cfg, s, n, access, op), op, inv, outv, n);
  }

  /** With AIO disabled both dispatchers are exactly the fallback: the driver
      makes no call and leaves the handle as it was. */
  lemma DisabledRunsFallbackOnly(cfg: Flags, s: HandleState, op: OpKind, inv: IovArray, outv: IovArray,
                                 n: uint32, access: int)
    requires cfg.aioDisable
    ensures AioDispatch(cfg, s, op, inv, outv, n, access) == AioFallback(cfg, s, op, inv, outv, n)
    ensures AioDispatchBounded(cfg, s, op, inv, outv, n, access) == AioFallback(cfg, s, op, inv, outv, n)
  {
    DriversStartWithAccept(cfg, s, n, access, op);
    assert [] + AioFallback(cfg, s, op, inv, outv, n).calls == AioFallback(cfg, s, op, inv, outv, n).calls;
  }

  /** When every per-iteration read observes the request it follows, the
      entry points as written and over the bounded driver agree. */
  lemma DispatchersAgreeWhenReadsKeepPace(cfg: Flags, s: HandleState, op: OpKind, inv: IovArray, outv: IovArray,
                                          n: uint32, access: int)
    requires !cfg.aioDisable && NextReply(s).ret == 0 ==> ReadsKeepPace(s.answers, s.next + 1, n)
    ensures AioDispatch(cfg, s, op, inv, outv, n, access) == AioDispatchBounded(cfg, s, op, inv, outv, n, access)
  {
    BoundedAgreesWhenReadsKeepPace(cfg, s, n, access, op);
  }

  /** A read that fails with -EOPNOTSUPP after iovec 0 has been submitted also
      falls back, so the fallback submits pair 0 a second time. */
  lemma PartialSubmissionFallsBack()
    ensures var k := Script([Reply(0, 0), Reply(0, 0), Reply(-EOPNOTSUPP as int32, 0), Reply(0, 0), Reply(16, 0), Reply(16, 0)]);
            var o := AioDispatch(Flags(0, false), HandleState(0, 0, k, 0), Encrypt, CallerArray, CallerArray, 1, 0);
      && |o.calls| == 6
      && o.calls[1].call == AioSendIov(0, 1, 0, Encrypt)
      && o.calls[3].call == SendMeta(NullIov, 0, Encrypt, true)
      && o.calls[4].call == SendData(IovAt(0), 1, false)
      && o.calls[5].call == RecvData(IovAt(0), 1)
      && o.ret == 16
  {
    var k := Script([Reply(0, 0), Reply(0, 0), Reply(-EOPNOTSUPP as int32, 0), Reply(0, 0), Reply(16, 0), Reply(16, 0)]);
    var s := HandleState(0, 0, k, 0);
    var d := CryptAio(Flags(0, false), s, 1, 0, Encrypt);
    assert SendAndRead(k, 1, 0, 0, 0, Encrypt).ret == -EOPNOTSUPP;
    assert d.ret == -EOPNOTSUPP && |d.calls| == 3 && d.st.next == 3;
    var init := StreamInit(d.st, Encrypt, NullIov, 0);
    assert init.ret == 0 && init.st.next == 4;
    var step := FallbackStep(Flags(0, false), init.st, CallerArray, CallerArray, 0);
    assert step.ret == 16 && |step.calls| == 2;
  }
}
