/** The akcipher handle as the C code uses it: an object whose counters the
    library updates in place while it drives the kernel.  Every method is
    proved to leave the handle, its call trace and its result exactly as the
    value-level definitions in Stream, Aio and Dispatch say. */
module Akcipher {
  import opened Transport
  import Stream
  import Aio
  import Dispatch

  class Handle {
    /** handle->flags: alg_max_pages and aio.disable. */
    const flags: Flags
    /** The kernel's answers for this run, consumed one per primitive call. */
    const kernel: Script
    /** handle->processed_sg. */
    var processedSg: nat
    /** handle->aio.completed_reads. */
    var completedReads: uint32
    /** How many primitive calls have been answered. */
    var next: nat
    /** Every primitive call made on the handle so far, with its reply. */
    var trace: seq<Event>

    /** The handle as a value. */
    function State(): HandleState
      reads this
    {
      HandleState(processedSg, completedReads, kernel, next)
    }

    /** The handle now is `o`'s final state, `ret` is `o`'s result, and the
        trace grew by exactly `o`'s calls. */
    ghost predicate Reflects(o: Outcome, ret: int, before: seq<Event>)
      reads this
    {
      ret == o.ret && State() == o.st && trace == before + o.calls
    }

    constructor(flags: Flags, kernel: Script)
      ensures this.flags == flags && State() == HandleState(0, 0, kernel, 0) && trace == []
    {
      this.flags := flags;
      this.kernel := kernel;
      processedSg := 0;
      completedReads := 0;
      next := 0;
      trace := [];
    }

    /** One transport primitive: the kernel answers it and the handle's
        counters move as the primitive's kind says. */
    method Primitive(c: Call) returns (rc: int32)
      modifies this
      ensures Reflects(Transport.Invoke(old(State()), c), rc, old(trace))
    {
      var o := Transport.Invoke(State(), c);
      processedSg, completedReads, next := o.st.processedSg, o.st.completedReads, o.st.next;
      trace := trace + o.calls;
      rc := o.ret;
    }

    /** kcapi_akcipher_{encrypt,decrypt,sign,verify}. */
    method Crypt(op: OpKind, inLen: uint32, outLen: uint32, access: int) returns (ret: int32)
      modifies this
      ensures Reflects(Dispatch.Crypt(old(State()), op, inLen, outLen, access), ret, old(trace))
    {
      ret := Primitive(CipherCrypt(op, inLen, outLen, access));
    }

    /** kcapi_akcipher_stream_init_{enc,dec,sgn,vfy}. */
    method StreamInit(op: OpKind, iov: IovRef, len: uint32) returns (ret: int32)
      modifies this
      ensures Reflects(Stream.StreamInit(old(State()), op, iov, len), ret, old(trace))
    {
      ret := Primitive(SendMeta(iov, len, op, true));
    }

    /** kcapi_akcipher_stream_update. */
    method StreamUpdate(iov: IovRef, len: uint32) returns (ret: int32)
      modifies this
      ensures Reflects(Stream.StreamUpdate(flags, old(State()), iov, len), ret, old(trace))
    {
      if processedSg < flags.algMaxPages {
        ret := Primitive(VmspliceIov(iov, len, true));
      } else {
        ret := Primitive(SendData(iov, len, true));
      }
    }

    /** kcapi_akcipher_stream_update_last. */
    method StreamUpdateLast(iov: IovRef, len: uint32) returns (ret: int32)
      modifies this
      ensures Reflects(Stream.StreamUpdateLast(flags, old(State()), iov, len), ret, old(trace))
    {
      if processedSg < flags.algMaxPages {
        ret := Primitive(VmspliceIov(iov, len, false));
      } else {
        ret := Primitive(SendData(iov, len, false));
      }
    }

    /** kcapi_akcipher_stream_op. */
    method StreamOp(iov: IovRef, len: uint32) returns (ret: int32)
      modifies this
      ensures Reflects(Stream.StreamOp(old(State()), iov, len), ret, old(trace))
    {
      if iov.NullIov? || len == 0 {
        return -EINVAL as int32;
      }
      ret := Primitive(RecvData(iov, len));
    }

    /** One iteration of the AIO submission loop: submit iovec i as its own
        request and, unless that fails, read its result. */
    method SendAndRead(i: nat, access: int, op: OpKind) returns (rc: int32)
      modifies this
      ensures var r := Aio.SendAndRead(kernel, old(next), old(completedReads), i, access, op);
        && rc == r.ret && completedReads == r.cr && next == r.next
        && processedSg == old(processedSg) && trace == old(trace) + r.calls
      ensures rc >= 0 ==> old(next) + 2 == next <= |kernel.replies| + 1
    {
      rc := Primitive(AioSendIov(i, 1, access, op));
      if rc < 0 {
        return;
      }
      rc := Primitive(AioReadIov(i, 1));
    }

    /** One iteration of the loop as written, from a point where the rest of
        the loop, behind the calls `done` already made, is `goal`: afterwards
        the loop either stopped with `goal` or goes on with tosend recomputed
        as iovlen - completed_reads. */
    method LoopIteration(n: uint32, access: int, op: OpKind, i: nat, tosend: uint32, ret: int,
                         ghost t0: seq<Event>, ghost goal: Aio.Run, ghost done: seq<Event>)
      returns (rc: int32, ghost done': seq<Event>)
      modifies this
      requires tosend != 0 && trace == t0 + done
      requires var r := Aio.SubmitLoop(kernel, n, access, op, next, completedReads, i, tosend, ret);
        goal == Aio.Run(r.ret, r.cr, r.next, done + r.calls)
      ensures processedSg == old(processedSg) && trace == t0 + done'
      ensures rc < 0 ==> goal == Aio.Run(rc, completedReads, next, done')
      ensures rc >= 0 ==> old(next) + 2 == next <= |kernel.replies| + 1
      ensures rc >= 0 ==>
        var r := Aio.SubmitLoop(kernel, n, access, op, next, completedReads, i + 1, Wrap32(n - completedReads), ret + rc);
        goal == Aio.Run(r.ret, r.cr, r.next, done' + r.calls)
    {
      ghost var p0, c0 := next, completedReads;
      ghost var step := Aio.SendAndRead(kernel, p0, c0, i, access, op);
      rc := SendAndRead(i, access, op);
      done' := done + step.calls;
      if rc < 0 {
        Aio.SubmitLoopStops(kernel, n, access, op, p0, c0, i, tosend, ret);
      } else {
        Aio.SubmitLoopResumes(kernel, n, access, op, p0, c0, i, tosend, ret, done);
      }
    }

    /** The submission loop of _kcapi_akcipher_crypt_aio as written: while
        tosend = iovlen - completed_reads is not zero, submit and read one
        iovec, advancing the iovec cursor i once per iteration. */
    method SubmitLoop(n: uint32, access: int, op: OpKind) returns (ret: int)
      modifies this
      ensures var r := Aio.SubmitLoop(kernel, n, access, op, old(next), old(completedReads), 0, Wrap32(n - old(completedReads)), 0);
        && ret == r.ret && completedReads == r.cr && next == r.next
        && processedSg == old(processedSg) && trace == old(trace) + r.calls
    {
      ghost var t0 := trace;
      ghost var goal := Aio.SubmitLoop(kernel, n, access, op, next, completedReads, 0, Wrap32(n - completedReads), 0);
      ghost var done: seq<Event> := [];
      var i: nat := 0;
      var tosend: uint32 := Wrap32(n - completedReads);
      ret := 0;
      while tosend != 0
        invariant processedSg == old(processedSg) && trace == t0 + done
        invariant var r := Aio.SubmitLoop(kernel, n, access, op, next, completedReads, i, tosend, ret);
          goal == Aio.Run(r.ret, r.cr, r.next, done + r.calls)
        decreases |kernel.replies| - next
      {
        var rc;
        rc, done := LoopIteration(n, access, op, i, tosend, ret, t0, goal, done);
        if rc < 0 {
          return rc;
        }
        i := i + 1;
        ret := ret + rc;
        tosend := Wrap32(n - completedReads);
      }
      assert done + [] == done;
    }

    /** The accept on the cipher socket that opens the request socket the
        AIO requests are submitted on. */
    method AcceptRequest() returns (rc: int32)
      modifies this
      ensures var a := Answer(kernel, old(next));
        && rc == a.ret && next == old(next) + 1
        && completedReads == old(completedReads) && processedSg == old(processedSg)
        && trace == old(trace) + [Event(Accept, a)]
    {
      rc := Primitive(Accept);
    }

    /** The drain after a successful submission loop: one read for the
        iovlen - completed_reads requests still outstanding, whose bytes are
        added to the loop's result.  `head` is the accept and `loop` the
        submission loop that came before, from the handle `s0`. */
    method DrainOutstanding(n: uint32, ret: int, ghost s0: HandleState, ghost head: Event,
                            ghost loop: Aio.Run, ghost t0: seq<Event>)
      returns (r: int)
      modifies this
      requires ret >= 0 && loop.ret == ret
      requires State() == s0.(completedReads := loop.cr, next := loop.next)
      requires trace == t0 + ([head] + loop.calls)
      ensures Reflects(Aio.Drain(s0, head, loop, n), r, t0)
    {
      var rc := Primitive(AioReadAll(Wrap32(n - completedReads)));
      assert trace == t0 + ([head] + loop.calls + [trace[|trace| - 1]]);
      if rc < 0 {
        return rc;
      }
      r := ret + rc;
    }

    /** _kcapi_akcipher_crypt_aio as written: accept the request socket,
        run the submission loop, then drain the iovlen - completed_reads
        requests still outstanding. */
    method CryptAio(n: uint32, access: int, op: OpKind) returns (ret: int)
      modifies this
      ensures Reflects(Aio.CryptAio(flags, old(State()), n, access, op), ret, old(trace))
    {
      if flags.aioDisable {
        return -EOPNOTSUPP;
      }
      ghost var s0, t0 := State(), trace;
      ghost var want := Aio.CryptAio(flags, s0, n, access, op);
      var rc := AcceptRequest();
      if rc != 0 {
        return rc;
      }
      completedReads := 0;
      ghost var head := Event(Accept, NextReply(s0));
      ghost var loop := Aio.SubmitLoop(kernel, n, access, op, s0.next + 1, 0, 0, n, 0);
      assert want == Aio.Drain(s0, head, loop, n);
      WrapInRange(n);
      assert Wrap32(n - completedReads) == n;
      ret := SubmitLoop(n, access, op);
      assert t0 + [head] + loop.calls == t0 + ([head] + loop.calls);
      if ret < 0 {
        return;
      }
      ret := DrainOutstanding(n, ret, s0, head, loop, t0);
    }

    /** One iteration of the bounded loop, from a point where the rest of
        the loop, behind the calls `done` already made, is `goal`. */
    method BoundedIteration(n: uint32, access: int, op: OpKind, i: nat, ret: int,
                            ghost t0: seq<Event>, ghost goal: Aio.Run, ghost done: seq<Event>)
      returns (rc: int32, ghost done': seq<Event>)
      modifies this
      requires i < n && trace == t0 + done
      requires var r := Aio.SubmitLoopBounded(kernel, n, access, op, next, completedReads, i, ret);
        goal == Aio.Run(r.ret, r.cr, r.next, done + r.calls)
      ensures processedSg == old(processedSg) && trace == t0 + done'
      ensures rc < 0 ==> goal == Aio.Run(rc, completedReads, next, done')
      ensures rc >= 0 ==>
        var r := Aio.SubmitLoopBounded(kernel, n, access, op, next, completedReads, i + 1, ret + rc);
        goal == Aio.Run(r.ret, r.cr, r.next, done' + r.calls)
    {
      ghost var p0, c0 := next, completedReads;
      ghost var step := Aio.SendAndRead(kernel, p0, c0, i, access, op);
      rc := SendAndRead(i, access, op);
      done' := done + step.calls;
      if rc < 0 {
        Aio.SubmitLoopBoundedStops(kernel, n, access, op, p0, c0, i, ret);
      } else {
        Aio.SubmitLoopBoundedResumes(kernel, n, access, op, p0, c0, i, ret, done);
      }
    }

    /** The submission loop bounded by the iovlen requests submitted. */
    method SubmitLoopBounded(n: uint32, access: int, op: OpKind) returns (ret: int)
      modifies this
      ensures var r := Aio.SubmitLoopBounded(kernel, n, access, op, old(next), old(completedReads), 0, 0);
        && ret == r.ret && completedReads == r.cr && next == r.next
        && processedSg == old(processedSg) && trace == old(trace) + r.calls
    {
      ghost var t0 := trace;
      ghost var goal := Aio.SubmitLoopBounded(kernel, n, access, op, next, completedReads, 0, 0);
      ghost var done: seq<Event> := [];
      ret := 0;
      for i: nat := 0 to n
        invariant processedSg == old(processedSg) && trace == t0 + done
        invariant var r := Aio.SubmitLoopBounded(kernel, n, access, op, next, completedReads, i, ret);
          goal == Aio.Run(r.ret, r.cr, r.next, done + r.calls)
      {
        var rc;
        rc, done := BoundedIteration(n, access, op, i, ret, t0, goal, done);
        if rc < 0 {
          return rc;
        }
        ret := ret + rc;
      }
      Aio.SubmitLoopBoundedDone(kernel, n, access, op, next, completedReads, n, ret);
      assert done + [] == done;
    }

    /** _kcapi_akcipher_crypt_aio with the loop bounded by the iovlen requests
        submitted. */
    method CryptAioBounded(n: uint32, access: int, op: OpKind) returns (ret: int)
      modifies this
      ensures Reflects(Aio.CryptAioBounded(flags, old(State()), n, access, op), ret, old(trace))
    {
      if flags.aioDisable {
        return -EOPNOTSUPP;
      }
      ghost var s0, t0 := State(), trace;
      ghost var want := Aio.CryptAioBounded(flags, s0, n, access, op);
      var rc := AcceptRequest();
      if rc != 0 {
        return rc;
      }
      completedReads := 0;
      ghost var head := Event(Accept, NextReply(s0));
      ghost var loop := Aio.SubmitLoopBounded(kernel, n, access, op, s0.next + 1, 0, 0, 0);
      assert want == Aio.Drain(s0, head, loop, n);
      ret := SubmitLoopBounded(n, access, op);
      assert t0 + [head] + loop.calls == t0 + ([head] + loop.calls);
      if ret < 0 {
        return;
      }
      ret := DrainOutstanding(n, ret, s0, head, loop, t0);
    }

    /** One iteration of the fallback on pair i: stream_update_last on the
        input cursor, then, unless that failed, stream_op on the output
        cursor. */
    method FallbackStep(inv: IovArray, outv: IovArray, i: nat) returns (rc: int32)
      modifies this
      ensures Reflects(Dispatch.FallbackStep(flags, old(State()), inv, outv, i), rc, old(trace))
    {
      Dispatch.FallbackStepIsUpdateLastThenOp(flags, State(), inv, outv, i);
      rc := StreamUpdateLast(Cursor(inv, i), 1);
      if rc < 0 {
        return;
      }
      rc := StreamOp(Cursor(outv, i), 1);
    }

    /** One iteration of the fallback's for loop, from a point where the
        rest of the loop, behind the calls `done` already made, is `goal`. */
    method FallbackIteration(inv: IovArray, outv: IovArray, n: uint32, i: nat, ret: int,
                             ghost t0: seq<Event>, ghost goal: Outcome, ghost done: seq<Event>)
      returns (rc: int32, ghost done': seq<Event>)
      modifies this
      requires i < n && trace == t0 + done
      requires var r := Dispatch.FallbackLoop(flags, State(), inv, outv, i, n, ret);
        goal == Outcome(r.ret, r.st, done + r.calls)
      ensures trace == t0 + done'
      ensures rc < 0 ==> goal == Outcome(rc, State(), done')
      ensures rc >= 0 ==>
        var r := Dispatch.FallbackLoop(flags, State(), inv, outv, i + 1, n, ret + rc);
        goal == Outcome(r.ret, r.st, done' + r.calls)
    {
      ghost var s := State();
      ghost var step := Dispatch.FallbackStep(flags, s, inv, outv, i);
      rc := FallbackStep(inv, outv, i);
      done' := done + step.calls;
      if rc < 0 {
        Dispatch.FallbackLoopStops(flags, s, inv, outv, i, n, ret);
      } else {
        Dispatch.FallbackLoopResumes(flags, s, inv, outv, i, n, ret, done);
      }
    }

    /** The for loop of the fallback over the n iovec pairs, starting from
        the result `ret0` of stream_init. */
    method FallbackLoop(inv: IovArray, outv: IovArray, n: uint32, ret0: int) returns (ret: int)
      modifies this
      ensures Reflects(Dispatch.FallbackLoop(flags, old(State()), inv, outv, 0, n, ret0), ret, old(trace))
    {
      ghost var t0 := trace;
      ghost var goal := Dispatch.FallbackLoop(flags, State(), inv, outv, 0, n, ret0);
      ghost var done: seq<Event> := [];
      ret := ret0;
      for i: nat := 0 to n
        invariant trace == t0 + done
        invariant var r := Dispatch.FallbackLoop(flags, State(), inv, outv, i, n, ret);
          goal == Outcome(r.ret, r.st, done + r.calls)
      {
        var rc;
        rc, done := FallbackIteration(inv, outv, n, i, ret, t0, goal, done);
        if rc < 0 {
          return rc;
        }
        ret := ret + rc;
      }
      Dispatch.FallbackLoopDone(flags, State(), inv, outv, n, n, ret);
      assert done + [] == done;
    }

    /** _kcapi_akcipher_{encrypt,decrypt,sign,verify}_aio_fallback. */
    method AioFallback(op: OpKind, inv: IovArray, outv: IovArray, n: uint32) returns (ret: int)
      modifies this
      ensures Reflects(Dispatch.AioFallback(flags, old(State()), op, inv, outv, n), ret, old(trace))
    {
      ghost var t0 := trace;
      var rc := StreamInit(op, NullIov, 0);
      if rc < 0 {
        return rc;
      }
      ghost var t1 := trace;
      ret := FallbackLoop(inv, outv, n, rc);
      assert trace == t0 + (trace[|t0|..|t1|] + trace[|t1|..]);
    }

    /** kcapi_akcipher_{encrypt,decrypt,sign,verify}_aio: the driver as
        written, then the fallback on -EOPNOTSUPP. */
    method AioOp(op: OpKind, inv: IovArray, outv: IovArray, n: uint32, access: int) returns (ret: int)
      modifies this
      ensures Reflects(Dispatch.AioDispatch(flags, old(State()), op, inv, outv, n, access), ret, old(trace))
    {
      ghost var t0, s0 := trace, State();
      ret := CryptAio(n, access, op);
      ghost var d := Aio.CryptAio(flags, s0, n, access, op);
      if ret != -EOPNOTSUPP {
        return;
      }
      ghost var t1 := trace;
      ret := AioFallback(op, inv, outv, n);
      ghost var fb := Dispatch.AioFallback(flags, d.st, op, inv, outv, n);
      assert trace == t0 + (d.calls + fb.calls);
    }

    /** The same entry points over the bounded driver. */
    method AioOpBounded(op: OpKind, inv: IovArray, outv: IovArray, n: uint32, access: int) returns (ret: int)
      modifies this
      ensures Reflects(Dispatch.AioDispatchBounded(flags, old(State()), op, inv, outv, n, access), ret, old(trace))
    {
      ghost var t0, s0 := trace, State();
      ret := CryptAioBounded(n, access, op);
      ghost var d := Aio.CryptAioBounded(flags, s0, n, access, op);
      if ret != -EOPNOTSUPP {
        return;
      }
      ghost var t1 := trace;
      ret := AioFallback(op, inv, outv, n);
      ghost var fb := Dispatch.AioFallback(flags, d.st, op, inv, outv, n);
      assert trace == t0 + (d.calls + fb.calls);
    }
  }
}
