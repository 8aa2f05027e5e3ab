/** _kcapi_akcipher_crypt_aio: every iovec pair is its own cipher request,
    submitted and read through the kernel's AIO interface, then a final drain
    collects whatever is still outstanding.

    CryptAio is the driver as written: its loop runs until the handle has
    observed iovlen completions.  CryptAioBounded is the driver with the loop
    bounded by the number of requests submitted, which is what the drain after
    the loop and the one-iovec-per-iteration cursors are written for. */
module Aio {
  import opened Transport

  /** Where the submission loop stands: the value it returns, the handle's
      completed_reads, the number of calls answered so far, and the calls it
      made.  The loop touches no other handle field. */
  datatype Run = Run(ret: int, cr: uint32, next: nat, calls: seq<Event>)

  // ---------------------------------------------------------------------
  // Shapes of call sequences

  /** The p-th call of a submission loop that starts at iovec i: even calls
      submit iovec i + p/2, odd calls read its result. */
  function PairCall(i: nat, access: int, op: OpKind, p: nat): Call
  {
    if p % 2 == 0 then AioSendIov(i + p / 2, 1, access, op) else AioReadIov(i + p / 2, 1)
  }

  /** Submit iovec i, read iovec i, submit iovec i+1, ... (possibly cut short). */
  ghost predicate FollowsPairs(es: seq<Event>, i: nat, access: int, op: OpKind)
  {
    forall p :: 0 <= p < |es| ==> es[p].call == PairCall(i, access, op, p)
  }

  /** A submitted and read iovec i in front of calls that follow the pattern
      from iovec i+1 on. */
  lemma PairThenPairs(pair: seq<Event>, rest: seq<Event>, i: nat, access: int, op: OpKind)
    requires |pair| == 2 && pair[0].call == AioSendIov(i, 1, access, op) && pair[1].call == AioReadIov(i, 1)
    requires FollowsPairs(rest, i + 1, access, op)
    ensures FollowsPairs(pair + rest, i, access, op)
  {
    var es := pair + rest;
    forall p | 0 <= p < |es|
      ensures es[p].call == PairCall(i, access, op, p)
    {
      if p >= 2 {
        assert es[p] == rest[p - 2];
        assert PairCall(i + 1, access, op, p - 2) == PairCall(i, access, op, p);
      }
    }
  }

  /** The position in the script of the read of the j-th iteration of a
      loop whose first call is at position p (every earlier iteration made
      its send and its read). */
  function ReadAt(p: nat, j: nat): nat
  {
    p + 1 + 2 * j
  }

  /** The assumption under which the loop's cursors keep pace with the
      completions: the read of each of the first m iterations of a loop that
      starts at position p observes exactly the one request just sent.  The
      other answers (accept, sends, drain) are not constrained. */
  ghost predicate ReadsKeepPace(k: Script, p: nat, m: nat)
  {
    forall j :: 0 <= j < m ==> Answer(k, ReadAt(p, j)).count == 1
  }

  /** The first iteration's read keeps pace, and so do the remaining
      iterations, which start two calls later. */
  lemma PaceAdvances(k: Script, p: nat, m: nat)
    requires m > 0 && ReadsKeepPace(k, p, m)
    ensures Answer(k, p + 1).count == 1 && ReadsKeepPace(k, p + 2, m - 1)
  {
    assert ReadAt(p, 0) == p + 1;
    var q := p + 2;
    forall j | 0 <= j < m - 1
      ensures Answer(k, ReadAt(q, j)).count == 1
    {
      assert ReadAt(q, j) == ReadAt(p, j + 1);
    }
  }

  /** Two successful calls in front of a run keep the error discipline. */
  lemma AbortsAfterPair(pair: seq<Event>, rest: seq<Event>, r: int)
    requires |pair| == 2 && pair[0].reply.ret >= 0 && pair[1].reply.ret >= 0
    requires AbortsOnFirstError(rest, r)
    ensures AbortsOnFirstError(pair + rest, r)
  {
    assert SucceededUpTo(pair, 1);
    AbortsPrefix(pair, rest, r);
  }

  /** Splicing the counter update of one stretch of calls with that of the next. */
  lemma CounterChains(c0: uint32, c1: uint32, c2: uint32, a: seq<Event>, b: seq<Event>)
    requires c1 == Wrap32(c0 + Total(a, Completions))
    requires c2 == Wrap32(c1 + Total(b, Completions))
    ensures c2 == Wrap32(c0 + Total(a + b, Completions))
  {
    TotalAppend(a, b, Completions);
    WrapAdd(c0 + Total(a, Completions), Total(b, Completions));
  }

  // ---------------------------------------------------------------------
  // One iteration

  /** One iteration of the submission loop, with the kernel's answers k from
      position p on: submit iovec i and, unless that fails, read its result,
      which moves completed_reads by the completions it observed. */
  function SendAndRead(k: Script, p: nat, cr: uint32, i: nat, access: int, op: OpKind): Run
  {
    var sent := Answer(k, p);
    if sent.ret < 0 then Run(sent.ret, cr, p + 1, [Event(AioSendIov(i, 1, access, op), sent)])
    else
      var read := Answer(k, p + 1);
      Run(read.ret, Wrap32(cr + read.count), p + 2,
          [Event(AioSendIov(i, 1, access, op), sent), Event(AioReadIov(i, 1), read)])
  }

  /** One iteration submits iovec i and, unless the submission fails, reads
      iovec i; the result is that of the last call made. */
  lemma SendAndReadShape(k: Script, p: nat, cr: uint32, i: nat, access: int, op: OpKind)
    ensures var o := SendAndRead(k, p, cr, i, access, op);
      && 1 <= |o.calls| <= 2
      && o.calls[0] == Event(AioSendIov(i, 1, access, op), Answer(k, p))
      && (|o.calls| == 1 <==> Answer(k, p).ret < 0)
      && (|o.calls| == 2 ==> o.calls[1].call == AioReadIov(i, 1))
      && o.ret == o.calls[|o.calls| - 1].reply.ret
  {
  }

  /** What one iteration adds to the totals: the completions it observed
      move the counter, and a successful iteration returns the bytes read. */
  lemma SendAndReadTotals(k: Script, p: nat, cr: uint32, i: nat, access: int, op: OpKind)
    ensures var o := SendAndRead(k, p, cr, i, access, op);
      && o.cr == Wrap32(cr + Total(o.calls, Completions))
      && (o.ret >= 0 ==> Total(o.calls, AioBytes) == o.ret)
  {
    var o := SendAndRead(k, p, cr, i, access, op);
    if Answer(k, p).ret < 0 {
      TotalOne(o.calls[0], Completions);
    } else {
      assert o.calls == [o.calls[0]] + [o.calls[1]];
      TotalCons(o.calls[0], [o.calls[1]], AioBytes);
      TotalCons(o.calls[0], [o.calls[1]], Completions);
      TotalOne(o.calls[1], AioBytes);
      TotalOne(o.calls[1], Completions);
    }
  }

  // ---------------------------------------------------------------------
  // The drain after the loop

  /** After the loop: a failed loop is returned as is; otherwise drain the
      iovlen - completed_reads requests still outstanding and add the bytes
      the drain reports.  `head` is the accept call made before the loop. */
  function Drain(s: HandleState, head: Event, loop: Run, n: uint32): Outcome
  {
    if loop.ret < 0 then Outcome(loop.ret, s.(completedReads := loop.cr, next := loop.next), [head] + loop.calls)
    else
      var d := Answer(s.answers, loop.next);
      Outcome(if d.ret < 0 then d.ret else loop.ret + d.ret,
              s.(completedReads := Wrap32(loop.cr + d.count), next := loop.next + 1),
              [head] + loop.calls + [Event(AioReadAll(Wrap32(n - loop.cr)), d)])
  }

  /** The driver's calls are the accept, the loop's calls and at most one
      drain. */
  lemma DrainKeepsLoopCalls(s: HandleState, head: Event, loop: Run, n: uint32)
    ensures var o := Drain(s, head, loop, n);
      && |loop.calls| + 1 <= |o.calls| <= |loop.calls| + 2
      && o.calls[0] == head
      && (forall p :: 1 <= p <= |loop.calls| ==> o.calls[p] == loop.calls[p - 1])
      && (|o.calls| == |loop.calls| + 2 ==> o.calls[|o.calls| - 1].call.AioReadAll?)
  {
  }

  /** After a successful loop the drain is the last call, and it asks for
      iovlen minus the completions counted since `c0` before it. */
  lemma DrainRequestsOutstanding(s: HandleState, head: Event, loop: Run, n: uint32, c0: int)
    requires loop.ret >= 0 && Weight(Completions, head) == 0
    requires loop.cr == Wrap32(c0 + Total(loop.calls, Completions))
    ensures var o := Drain(s, head, loop, n);
      o.calls[|o.calls| - 1].call == AioReadAll(Wrap32(n - Wrap32(c0 + Total(o.calls[..|o.calls| - 1], Completions))))
  {
    var o := Drain(s, head, loop, n);
    assert o.calls[..|o.calls| - 1] == [head] + loop.calls;
    TotalCons(head, loop.calls, Completions);
  }

  /** The error discipline carries over from the loop to the whole driver. */
  lemma DrainAborts(s: HandleState, head: Event, loop: Run, n: uint32)
    requires head.reply.ret >= 0
    requires AbortsOnFirstError(loop.calls, loop.ret)
    ensures var o := Drain(s, head, loop, n);
      AbortsOnFirstError(o.calls, o.ret)
  {
    var o := Drain(s, head, loop, n);
    assert SucceededUpTo([head], 1);
    if loop.ret < 0 {
      AbortsPrefix([head], loop.calls, loop.ret);
    } else {
      var last := o.calls[|o.calls| - 1..];
      assert o.calls == ([head] + loop.calls) + last;
      SucceededAll(loop.calls, loop.ret);
      SucceededSuffix([head], loop.calls, |loop.calls|);
      AbortsPrefix([head] + loop.calls, last, o.ret);
    }
  }

  /** The drain's completions move the counter on from where the loop left
      it, so the counter keeps counting every completion since `c0`. */
  lemma DrainCounter(s: HandleState, head: Event, loop: Run, n: uint32, c0: int)
    requires Weight(Completions, head) == 0
    requires loop.cr == Wrap32(c0 + Total(loop.calls, Completions))
    ensures var o := Drain(s, head, loop, n);
      o.st.completedReads == Wrap32(c0 + Total(o.calls, Completions))
  {
    var o := Drain(s, head, loop, n);
    TotalCons(head, loop.calls, Completions);
    if loop.ret >= 0 {
      var d := o.calls[|o.calls| - 1];
      assert o.calls == ([head] + loop.calls) + [d];
      TotalAppend([head] + loop.calls, [d], Completions);
      TotalOne(d, Completions);
      WrapAdd(c0 + Total(loop.calls, Completions), d.reply.count);
    }
  }

  /** The drain's bytes are added to the loop's. */
  lemma DrainBytes(s: HandleState, head: Event, loop: Run, n: uint32)
    requires Weight(AioBytes, head) == 0
    requires loop.ret >= 0 ==> loop.ret == Total(loop.calls, AioBytes)
    ensures var o := Drain(s, head, loop, n);
      o.ret >= 0 ==> o.ret == Total(o.calls, AioBytes)
  {
    var o := Drain(s, head, loop, n);
    TotalCons(head, loop.calls, AioBytes);
    if loop.ret >= 0 {
      var d := o.calls[|o.calls| - 1];
      assert o.calls == ([head] + loop.calls) + [d];
      TotalAppend([head] + loop.calls, [d], AioBytes);
      TotalOne(d, AioBytes);
    }
  }

  /** The driver's submissions and reads are those of a loop that follows
      the pairs from iovec 0, one position later behind the accept; they stay
      below iovlen when the loop made at most two calls per iovec. */
  lemma DrainKeepsPairs(s: HandleState, head: Event, loop: Run, n: uint32, access: int, op: OpKind)
    requires FollowsPairs(loop.calls, 0, access, op)
    ensures var o := Drain(s, head, loop, n);
      forall p :: 1 <= p < |o.calls| && (o.calls[p].call.AioSendIov? || o.calls[p].call.AioReadIov?) ==>
        && o.calls[p].call == PairCall(0, access, op, p - 1)
        && (|loop.calls| <= 2 * n ==> o.calls[p].call.index < n)
  {
    var o := Drain(s, head, loop, n);
    DrainKeepsLoopCalls(s, head, loop, n);
    forall p | 1 <= p < |o.calls| && (o.calls[p].call.AioSendIov? || o.calls[p].call.AioReadIov?)
      ensures o.calls[p].call == PairCall(0, access, op, p - 1)
      ensures |loop.calls| <= 2 * n ==> o.calls[p].call.index < n
    {
      assert p - 1 < |loop.calls|;
      assert o.calls[p] == loop.calls[p - 1];
    }
  }

  // ---------------------------------------------------------------------
  // The driver as written

  /** The while loop: one iteration, advance both cursors, add the bytes read,
      and recompute tosend = iovlen - completed_reads in uint32. */
  function SubmitLoop(k: Script, n: uint32, access: int, op: OpKind,
                      p: nat, cr: uint32, i: nat, tosend: uint32, ret: int): Run
    decreases |k.replies| - p
  {
    if tosend == 0 then Run(ret, cr, p, [])
    else
      var step := SendAndRead(k, p, cr, i, access, op);
      if step.ret < 0 then step
      else
        var rest := SubmitLoop(k, n, access, op, step.next, step.cr, i + 1, Wrap32(n - step.cr), ret + step.ret);
        rest.(calls := step.calls + rest.calls)
  }

  /** _kcapi_akcipher_crypt_aio as written. */
  function CryptAio(cfg: Flags, s: HandleState, n: uint32, access: int, op: OpKind): Outcome
  {
    if cfg.aioDisable then Outcome(-EOPNOTSUPP, s, [])
    else
      var accepted := Invoke(s, Accept);
      if accepted.ret != 0 then accepted
      else Drain(s, accepted.calls[0], SubmitLoop(s.answers, n, access, op, s.next + 1, 0, 0, n, 0), n)
  }

  /** A failing iteration ends the loop with its own run. */
  lemma SubmitLoopStops(k: Script, n: uint32, access: int, op: OpKind,
                        p: nat, cr: uint32, i: nat, tosend: uint32, ret: int)
    requires tosend != 0 && SendAndRead(k, p, cr, i, access, op).ret < 0
    ensures SubmitLoop(k, n, access, op, p, cr, i, tosend, ret) == SendAndRead(k, p, cr, i, access, op)
  {
  }

  /** After a successful iteration, the loop behind calls `done` is the loop
      from the next iovec on, with tosend recomputed, behind `done` and the
      iteration's calls. */
  lemma SubmitLoopResumes(k: Script, n: uint32, access: int, op: OpKind,
                          p: nat, cr: uint32, i: nat, tosend: uint32, ret: int, done: seq<Event>)
    requires tosend != 0 && SendAndRead(k, p, cr, i, access, op).ret >= 0
    ensures var step, o := SendAndRead(k, p, cr, i, access, op), SubmitLoop(k, n, access, op, p, cr, i, tosend, ret);
            var rest := SubmitLoop(k, n, access, op, step.next, step.cr, i + 1, Wrap32(n - step.cr), ret + step.ret);
      Run(o.ret, o.cr, o.next, done + o.calls) == Run(rest.ret, rest.cr, rest.next, (done + step.calls) + rest.calls)
  {
    var step := SendAndRead(k, p, cr, i, access, op);
    var rest := SubmitLoop(k, n, access, op, step.next, step.cr, i + 1, Wrap32(n - step.cr), ret + step.ret);
    assert done + (step.calls + rest.calls) == (done + step.calls) + rest.calls;
  }

  lemma {:induction false} SubmitLoopShape(k: Script, n: uint32, access: int, op: OpKind,
                                           p: nat, cr: uint32, i: nat, tosend: uint32, ret: int)
    ensures FollowsPairs(SubmitLoop(k, n, access, op, p, cr, i, tosend, ret).calls, i, access, op)
    decreases |k.replies| - p
  {
    if tosend != 0 {
      var step := SendAndRead(k, p, cr, i, access, op);
      SendAndReadShape(k, p, cr, i, access, op);
      if step.ret >= 0 {
        var tosend' := Wrap32(n - step.cr);
        var rest := SubmitLoop(k, n, access, op, step.next, step.cr, i + 1, tosend', ret + step.ret);
        SubmitLoopShape(k, n, access, op, step.next, step.cr, i + 1, tosend', ret + step.ret);
        PairThenPairs(step.calls, rest.calls, i, access, op);
        assert SubmitLoop(k, n, access, op, p, cr, i, tosend, ret).calls == step.calls + rest.calls;
      }
    }
  }

  lemma {:induction false} SubmitLoopAborts(k: Script, n: uint32, access: int, op: OpKind,
                                            p: nat, cr: uint32, i: nat, tosend: uint32, ret: int)
    requires ret >= 0
    ensures var o := SubmitLoop(k, n, access, op, p, cr, i, tosend, ret);
      AbortsOnFirstError(o.calls, o.ret)
    decreases |k.replies| - p
  {
    if tosend != 0 {
      var step := SendAndRead(k, p, cr, i, access, op);
      SendAndReadShape(k, p, cr, i, access, op);
      if step.ret >= 0 {
        var tosend' := Wrap32(n - step.cr);
        var rest := SubmitLoop(k, n, access, op, step.next, step.cr, i + 1, tosend', ret + step.ret);
        SubmitLoopAborts(k, n, access, op, step.next, step.cr, i + 1, tosend', ret + step.ret);
        AbortsAfterPair(step.calls, rest.calls, rest.ret);
      }
    }
  }

  lemma {:induction false} SubmitLoopTotals(k: Script, n: uint32, access: int, op: OpKind,
                                            p: nat, cr: uint32, i: nat, tosend: uint32, ret: int)
    requires tosend == Wrap32(n - cr)
    ensures var o := SubmitLoop(k, n, access, op, p, cr, i, tosend, ret);
      && o.cr == Wrap32(cr + Total(o.calls, Completions))
      && (o.ret >= 0 && ret >= 0 ==> o.ret == ret + Total(o.calls, AioBytes) && o.cr == n)
    decreases |k.replies| - p
  {
    if tosend != 0 {
      var step := SendAndRead(k, p, cr, i, access, op);
      SendAndReadTotals(k, p, cr, i, access, op);
      if step.ret >= 0 {
        var tosend' := Wrap32(n - step.cr);
        var rest := SubmitLoop(k, n, access, op, step.next, step.cr, i + 1, tosend', ret + step.ret);
        SubmitLoopTotals(k, n, access, op, step.next, step.cr, i + 1, tosend', ret + step.ret);
        CounterChains(cr, step.cr, rest.cr, step.calls, rest.calls);
        TotalAppend(step.calls, rest.calls, AioBytes);
      }
    } else {
      assert cr == Wrap32(cr);
    }
  }

  /** If every read observes the request it follows, the loop submits
      iovecs i .. iovlen-1 at most, one per iteration, and all of them when
      it succeeds. */
  lemma {:induction false} SubmitLoopKeepsPace(k: Script, n: uint32, access: int, op: OpKind,
                                               p: nat, i: nat, ret: int)
    requires i <= n && ReadsKeepPace(k, p, n - i)
    ensures var o := SubmitLoop(k, n, access, op, p, i, i, Wrap32(n - i), ret);
      |o.calls| <= 2 * (n - i) && (o.ret >= 0 ==> |o.calls| == 2 * (n - i))
    decreases n - i
  {
    if i < n {
      var step := SendAndRead(k, p, i, i, access, op);
      SendAndReadShape(k, p, i, i, access, op);
      if step.ret >= 0 {
        PaceAdvances(k, p, n - i);
        WrapInRange(i + 1);
        WrapInRange(n - (i + 1));
        SubmitLoopKeepsPace(k, n, access, op, step.next, i + 1, ret + step.ret);
      }
    }
  }

  /** Once AIO is enabled, both drivers call accept first and return a nonzero
      result from it unchanged; with AIO disabled they return -EOPNOTSUPP
      without calling anything. */
  lemma DriversStartWithAccept(cfg: Flags, s: HandleState, n: uint32, access: int, op: OpKind)
    ensures var a, b := CryptAio(cfg, s, n, access, op), CryptAioBounded(cfg, s, n, access, op);
      && (cfg.aioDisable ==> a == b == Outcome(-EOPNOTSUPP, s, []))
      && (!cfg.aioDisable ==>
            && |a.calls| >= 1 && a.calls[0] == Event(Accept, NextReply(s))
            && |b.calls| >= 1 && b.calls[0] == Event(Accept, NextReply(s))
            && (NextReply(s).ret != 0 ==>
                  a.ret == b.ret == NextReply(s).ret && |a.calls| == |b.calls| == 1
                  && a.st.completedReads == b.st.completedReads == s.completedReads))
  {
  }

  /** The driver as written: no primitive is called once one has failed, and
      a failure is returned unchanged. */
  lemma CryptAioAborts(cfg: Flags, s: HandleState, n: uint32, access: int, op: OpKind)
    requires !cfg.aioDisable
    ensures var o := CryptAio(cfg, s, n, access, op);
      AbortsOnFirstError(o.calls, o.ret)
  {
    if NextReply(s).ret == 0 {
      SubmitLoopAborts(s.answers, n, access, op, s.next + 1, 0, 0, n, 0);
      DrainAborts(s, Event(Accept, NextReply(s)), SubmitLoop(s.answers, n, access, op, s.next + 1, 0, 0, n, 0), n);
    }
  }

  /** After a successful accept the counter restarts from zero, and success
      returns the bytes of the reads and of the drain, never those of the
      sends.  Because the loop only stops once the counter equals iovlen, every
      drain the driver makes, whether it then succeeds or fails, asks for
      zero requests. */
  lemma CryptAioTotals(cfg: Flags, s: HandleState, n: uint32, access: int, op: OpKind)
    requires !cfg.aioDisable && NextReply(s).ret == 0
    ensures var o := CryptAio(cfg, s, n, access, op);
      && o.st.completedReads == Wrap32(Total(o.calls, Completions))
      && (o.ret >= 0 ==> o.ret == Total(o.calls, AioBytes) && o.calls[|o.calls| - 1].call == AioReadAll(0))
      && (forall p :: 0 <= p < |o.calls| && o.calls[p].call.AioReadAll? ==> o.calls[p].call == AioReadAll(0))
  {
    var loop := SubmitLoop(s.answers, n, access, op, s.next + 1, 0, 0, n, 0);
    var head := Event(Accept, NextReply(s));
    var o := Drain(s, head, loop, n);
    assert o == CryptAio(cfg, s, n, access, op);
    SubmitLoopTotals(s.answers, n, access, op, s.next + 1, 0, 0, n, 0);
    SubmitLoopShape(s.answers, n, access, op, s.next + 1, 0, 0, n, 0);
    DrainCounter(s, head, loop, n, 0);
    DrainBytes(s, head, loop, n);
    DrainKeepsLoopCalls(s, head, loop, n);
    if loop.ret >= 0 {
      assert loop.cr == n;
      WrapInRange(0);
    }
    forall p | 0 <= p < |o.calls|
      ensures o.calls[p].call.AioReadAll? ==> o.calls[p].call == AioReadAll(0)
    {
      if 1 <= p <= |loop.calls| {
        assert o.calls[p].call == PairCall(0, access, op, p - 1);
      }
    }
  }

  /** Iovecs are submitted in index order, one per iteration. */
  lemma CryptAioInOrder(cfg: Flags, s: HandleState, n: uint32, access: int, op: OpKind)
    ensures var o := CryptAio(cfg, s, n, access, op);
      forall p :: 1 <= p < |o.calls| && (o.calls[p].call.AioSendIov? || o.calls[p].call.AioReadIov?) ==>
        o.calls[p].call == PairCall(0, access, op, p - 1)
  {
    if !cfg.aioDisable && NextReply(s).ret == 0 {
      var loop := SubmitLoop(s.answers, n, access, op, s.next + 1, 0, 0, n, 0);
      var o := Drain(s, Event(Accept, NextReply(s)), loop, n);
      assert o == CryptAio(cfg, s, n, access, op);
      SubmitLoopShape(s.answers, n, access, op, s.next + 1, 0, 0, n, 0);
      DrainKeepsPairs(s, Event(Accept, NextReply(s)), loop, n, access, op);
    }
  }

  /** If every per-iteration read observes the request it follows, the
      driver as written makes at most two calls per iovec, and success submits
      each request exactly once. */
  lemma CryptAioKeepsPace(cfg: Flags, s: HandleState, n: uint32, access: int, op: OpKind)
    requires !cfg.aioDisable && NextReply(s).ret == 0 && ReadsKeepPace(s.answers, s.next + 1, n)
    ensures var o := CryptAio(cfg, s, n, access, op);
      && |o.calls| <= 2 * n + 2
      && (o.ret >= 0 ==> |o.calls| == 2 * n + 2)
  {
    SubmitLoopKeepsPace(s.answers, n, access, op, s.next + 1, 0, 0);
  }

  /** Under the same assumption, every iovec the driver as written submits
      or reads lies inside the caller's arrays. */
  lemma CryptAioInBoundsWhenPaced(cfg: Flags, s: HandleState, n: uint32, access: int, op: OpKind)
    requires !cfg.aioDisable && NextReply(s).ret == 0 && ReadsKeepPace(s.answers, s.next + 1, n)
    ensures var o := CryptAio(cfg, s, n, access, op);
      forall p :: 1 <= p < |o.calls| && (o.calls[p].call.AioSendIov? || o.calls[p].call.AioReadIov?) ==>
        o.calls[p].call.index < n
  {
    var loop := SubmitLoop(s.answers, n, access, op, s.next + 1, 0, 0, n, 0);
    var o := Drain(s, Event(Accept, NextReply(s)), loop, n);
    assert o == CryptAio(cfg, s, n, access, op);
    SubmitLoopKeepsPace(s.answers, n, access, op, s.next + 1, 0, 0);
    SubmitLoopShape(s.answers, n, access, op, s.next + 1, 0, 0, n, 0);
    DrainKeepsPairs(s, Event(Accept, NextReply(s)), loop, n, access, op);
  }

  /** A read that returns before its request completes (here: 16 bytes, no
      completion observed) keeps tosend at 1 for a one-element batch, and the
      next iteration submits iovec 1, one past the end of the caller's array. */
  lemma ReadLagWalksPastEnd()
    ensures var s := HandleState(0, 0, Script([Reply(0, 0), Reply(0, 0), Reply(16, 0), Reply(0, 0)]), 0);
            var o := CryptAio(Flags(0, false), s, 1, 0, Encrypt);
      && |o.calls| == 5
      && o.calls[3].call == AioSendIov(1, 1, 0, Encrypt)
      && o.ret == -EIO
  {
    var k := Script([Reply(0, 0), Reply(0, 0), Reply(16, 0), Reply(0, 0)]);
    var first := SendAndRead(k, 1, 0, 0, 0, Encrypt);
    assert first.ret == 16 && first.cr == 0 && first.next == 3;
    var second := SendAndRead(k, 3, 0, 1, 0, Encrypt);
    assert second.ret == -EIO && |second.calls| == 2;
    assert SubmitLoop(k, 1, 0, Encrypt, 3, 0, 1, 1, 16) == second;
    var loop := SubmitLoop(k, 1, 0, Encrypt, 1, 0, 0, 1, 0);
    assert loop == Run(-EIO, 0, 5, first.calls + second.calls);
    var s := HandleState(0, 0, k, 0);
    assert CryptAio(Flags(0, false), s, 1, 0, Encrypt) == Drain(s, Event(Accept, Reply(0, 0)), loop, 1);
  }

  /** A read that reports more completions than iovlen makes the unsigned
      `iovlen - completed_reads` wrap to 2^32 - 1, so the loop goes on and
      submits iovec 1 of a one-element batch. */
  lemma CounterOvershootWraps()
    ensures var s := HandleState(0, 0, Script([Reply(0, 0), Reply(0, 0), Reply(16, 2)]), 0);
            var o := CryptAio(Flags(0, false), s, 1, 0, Encrypt);
      && |o.calls| == 4
      && o.calls[3].call == AioSendIov(1, 1, 0, Encrypt)
      && o.st.completedReads == 2
      && o.ret == -EIO
  {
    var k := Script([Reply(0, 0), Reply(0, 0), Reply(16, 2)]);
    var first := SendAndRead(k, 1, 0, 0, 0, Encrypt);
    assert first.ret == 16 && first.cr == 2 && first.next == 3;
    assert Wrap32(1 - 2) == 0xFFFF_FFFF;
    var second := SendAndRead(k, 3, 2, 1, 0, Encrypt);
    assert second.ret == -EIO && |second.calls| == 1;
    assert SubmitLoop(k, 1, 0, Encrypt, 3, 2, 1, 0xFFFF_FFFF, 16) == second;
  }

  /** A read that reports more completions than the requests it follows (here
      two, for a two-element batch) ends the loop as written after iovec 0,
      and the driver reports success without ever submitting iovec 1. */
  lemma ReadOvershootStopsEarly()
    ensures var s := HandleState(0, 0, Script([Reply(0, 0), Reply(0, 0), Reply(16, 2), Reply(0, 0)]), 0);
            var o := CryptAio(Flags(0, false), s, 2, 0, Encrypt);
      && |o.calls| == 4
      && o.calls[1].call == AioSendIov(0, 1, 0, Encrypt)
      && o.calls[2].call == AioReadIov(0, 1)
      && o.calls[3].call == AioReadAll(0)
      && o.ret == 16
  {
    var k := Script([Reply(0, 0), Reply(0, 0), Reply(16, 2), Reply(0, 0)]);
    var first := SendAndRead(k, 1, 0, 0, 0, Encrypt);
    assert first.ret == 16 && first.cr == 2 && first.next == 3;
    assert Wrap32(2 - 2) == 0;
    assert SubmitLoop(k, 2, 0, Encrypt, 3, 2, 1, 0, 16) == Run(16, 2, 3, []);
    var loop := SubmitLoop(k, 2, 0, Encrypt, 1, 0, 0, 2, 0);
    assert loop == Run(16, 2, 3, first.calls);
    var s := HandleState(0, 0, k, 0);
    var head := Event(Accept, Reply(0, 0));
    assert CryptAio(Flags(0, false), s, 2, 0, Encrypt) == Drain(s, head, loop, 2);
  }

  // ---------------------------------------------------------------------
  // The driver with the loop bounded by the requests submitted

  function SubmitLoopBounded(k: Script, n: uint32, access: int, op: OpKind,
                             p: nat, cr: uint32, i: nat, ret: int): Run
    decreases n - i
  {
    if i >= n then Run(ret, cr, p, [])
    else
      var step := SendAndRead(k, p, cr, i, access, op);
      if step.ret < 0 then step
      else
        var rest := SubmitLoopBounded(k, n, access, op, step.next, step.cr, i + 1, ret + step.ret);
        rest.(calls := step.calls + rest.calls)
  }

  /** _kcapi_akcipher_crypt_aio with `while (tosend)` replaced by a loop over
      the iovlen requests. */
  function CryptAioBounded(cfg: Flags, s: HandleState, n: uint32, access: int, op: OpKind): Outcome
  {
    if cfg.aioDisable then Outcome(-EOPNOTSUPP, s, [])
    else
      var accepted := Invoke(s, Accept);
      if accepted.ret != 0 then accepted
      else Drain(s, accepted.calls[0], SubmitLoopBounded(s.answers, n, access, op, s.next + 1, 0, 0, 0), n)
  }

  /** Past the last iovec the bounded loop returns its running sum and makes
      no call. */
  lemma SubmitLoopBoundedDone(k: Script, n: uint32, access: int, op: OpKind,
                              p: nat, cr: uint32, i: nat, ret: int)
    requires i >= n
    ensures SubmitLoopBounded(k, n, access, op, p, cr, i, ret) == Run(ret, cr, p, [])
  {
  }

  /** A failing iteration ends the bounded loop with its own run. */
  lemma SubmitLoopBoundedStops(k: Script, n: uint32, access: int, op: OpKind,
                               p: nat, cr: uint32, i: nat, ret: int)
    requires i < n && SendAndRead(k, p, cr, i, access, op).ret < 0
    ensures SubmitLoopBounded(k, n, access, op, p, cr, i, ret) == SendAndRead(k, p, cr, i, access, op)
  {
  }

  /** After a successful iteration, the bounded loop behind calls `done` is
      the loop from the next iovec on behind `done` and the iteration's calls. */
  lemma SubmitLoopBoundedResumes(k: Script, n: uint32, access: int, op: OpKind,
                                 p: nat, cr: uint32, i: nat, ret: int, done: seq<Event>)
    requires i < n && SendAndRead(k, p, cr, i, access, op).ret >= 0
    ensures var step, o := SendAndRead(k, p, cr, i, access, op), SubmitLoopBounded(k, n, access, op, p, cr, i, ret);
            var rest := SubmitLoopBounded(k, n, access, op, step.next, step.cr, i + 1, ret + step.ret);
      Run(o.ret, o.cr, o.next, done + o.calls) == Run(rest.ret, rest.cr, rest.next, (done + step.calls) + rest.calls)
  {
    var step := SendAndRead(k, p, cr, i, access, op);
    var rest := SubmitLoopBounded(k, n, access, op, step.next, step.cr, i + 1, ret + step.ret);
    assert done + (step.calls + rest.calls) == (done + step.calls) + rest.calls;
  }

  lemma {:induction false} SubmitLoopBoundedShape(k: Script, n: uint32, access: int, op: OpKind,
                                                  p: nat, cr: uint32, i: nat, ret: int)
    requires i <= n
    ensures var o := SubmitLoopBounded(k, n, access, op, p, cr, i, ret);
      && FollowsPairs(o.calls, i, access, op)
      && |o.calls| <= 2 * (n - i)
      && (o.ret >= 0 && ret >= 0 ==> |o.calls| == 2 * (n - i))
    decreases n - i
  {
    if i < n {
      var step := SendAndRead(k, p, cr, i, access, op);
      SendAndReadShape(k, p, cr, i, access, op);
      if step.ret >= 0 {
        var rest := SubmitLoopBounded(k, n, access, op, step.next, step.cr, i + 1, ret + step.ret);
        SubmitLoopBoundedShape(k, n, access, op, step.next, step.cr, i + 1, ret + step.ret);
        PairThenPairs(step.calls, rest.calls, i, access, op);
      }
    }
  }

  lemma {:induction false} SubmitLoopBoundedAborts(k: Script, n: uint32, access: int, op: OpKind,
                                                   p: nat, cr: uint32, i: nat, ret: int)
    requires ret >= 0
    ensures var o := SubmitLoopBounded(k, n, access, op, p, cr, i, ret);
      AbortsOnFirstError(o.calls, o.ret)
    decreases n - i
  {
    if i < n {
      var step := SendAndRead(k, p, cr, i, access, op);
      SendAndReadShape(k, p, cr, i, access, op);
      if step.ret >= 0 {
        var rest := SubmitLoopBounded(k, n, access, op, step.next, step.cr, i + 1, ret + step.ret);
        SubmitLoopBoundedAborts(k, n, access, op, step.next, step.cr, i + 1, ret + step.ret);
        AbortsAfterPair(step.calls, rest.calls, rest.ret);
      }
    }
  }

  lemma {:induction false} SubmitLoopBoundedTotals(k: Script, n: uint32, access: int, op: OpKind,
                                                   p: nat, cr: uint32, i: nat, ret: int)
    ensures var o := SubmitLoopBounded(k, n, access, op, p, cr, i, ret);
      && o.cr == Wrap32(cr + Total(o.calls, Completions))
      && (o.ret >= 0 && ret >= 0 ==> o.ret == ret + Total(o.calls, AioBytes))
    decreases n - i
  {
    if i < n {
      var step := SendAndRead(k, p, cr, i, access, op);
      SendAndReadTotals(k, p, cr, i, access, op);
      if step.ret >= 0 {
        var rest := SubmitLoopBounded(k, n, access, op, step.next, step.cr, i + 1, ret + step.ret);
        SubmitLoopBoundedTotals(k, n, access, op, step.next, step.cr, i + 1, ret + step.ret);
        CounterChains(cr, step.cr, rest.cr, step.calls, rest.calls);
        TotalAppend(step.calls, rest.calls, AioBytes);
      }
    } else {
      assert cr == Wrap32(cr);
    }
  }

  /** The bounded driver: no primitive is called once one has failed, and a
      failure is returned unchanged. */
  lemma CryptAioBoundedAborts(cfg: Flags, s: HandleState, n: uint32, access: int, op: OpKind)
    requires !cfg.aioDisable
    ensures var o := CryptAioBounded(cfg, s, n, access, op);
      AbortsOnFirstError(o.calls, o.ret)
  {
    if NextReply(s).ret == 0 {
      SubmitLoopBoundedAborts(s.answers, n, access, op, s.next + 1, 0, 0, 0);
      DrainAborts(s, Event(Accept, NextReply(s)), SubmitLoopBounded(s.answers, n, access, op, s.next + 1, 0, 0, 0), n);
    }
  }

  /** Whatever the kernel answers, the bounded driver submits and reads
      iovecs 0, 1, ... in order and never one at or past iovlen; after a
      successful accept, success makes exactly two calls per iovec and the
      drain. */
  lemma CryptAioBoundedInBounds(cfg: Flags, s: HandleState, n: uint32, access: int, op: OpKind)
    ensures var o := CryptAioBounded(cfg, s, n, access, op);
      && (forall p :: 1 <= p < |o.calls| && (o.calls[p].call.AioSendIov? || o.calls[p].call.AioReadIov?) ==>
            o.calls[p].call == PairCall(0, access, op, p - 1) && o.calls[p].call.index < n)
      && (!cfg.aioDisable && NextReply(s).ret == 0 && o.ret >= 0 ==> |o.calls| == 2 * n + 2)
  {
    if !cfg.aioDisable && NextReply(s).ret == 0 {
      var loop := SubmitLoopBounded(s.answers, n, access, op, s.next + 1, 0, 0, 0);
      var o := Drain(s, Event(Accept, NextReply(s)), loop, n);
      assert o == CryptAioBounded(cfg, s, n, access, op);
      SubmitLoopBoundedShape(s.answers, n, access, op, s.next + 1, 0, 0, 0);
      DrainKeepsPairs(s, Event(Accept, NextReply(s)), loop, n, access, op);
    }
  }

  /** After a successful accept the counter restarts from zero and counts
      every completion observed; success returns the bytes of the reads and of
      the drain, never those of the sends. */
  lemma CryptAioBoundedTotals(cfg: Flags, s: HandleState, n: uint32, access: int, op: OpKind)
    requires !cfg.aioDisable && NextReply(s).ret == 0
    ensures var o := CryptAioBounded(cfg, s, n, access, op);
      && o.st.completedReads == Wrap32(Total(o.calls, Completions))
      && (o.ret >= 0 ==> o.ret == Total(o.calls, AioBytes))
  {
    var loop := SubmitLoopBounded(s.answers, n, access, op, s.next + 1, 0, 0, 0);
    var head := Event(Accept, NextReply(s));
    assert Drain(s, head, loop, n) == CryptAioBounded(cfg, s, n, access, op);
    SubmitLoopBoundedTotals(s.answers, n, access, op, s.next + 1, 0, 0, 0);
    DrainCounter(s, head, loop, n, 0);
    DrainBytes(s, head, loop, n);
  }

  /** On success the drain asks for exactly the requests whose completion
      the loop has not observed: iovlen minus the completions counted before
      the drain. */
  lemma CryptAioBoundedDrainsOutstanding(cfg: Flags, s: HandleState, n: uint32, access: int, op: OpKind)
    requires !cfg.aioDisable && NextReply(s).ret == 0
    ensures var o := CryptAioBounded(cfg, s, n, access, op);
      o.ret >= 0 ==>
        o.calls[|o.calls| - 1].call == AioReadAll(Wrap32(n - Wrap32(Total(o.calls[..|o.calls| - 1], Completions))))
  {
    var loop := SubmitLoopBounded(s.answers, n, access, op, s.next + 1, 0, 0, 0);
    var head := Event(Accept, NextReply(s));
    assert Drain(s, head, loop, n) == CryptAioBounded(cfg, s, n, access, op);
    if loop.ret >= 0 {
      SubmitLoopBoundedTotals(s.answers, n, access, op, s.next + 1, 0, 0, 0);
      DrainRequestsOutstanding(s, head, loop, n, 0);
    }
  }

  lemma {:induction false} LoopsAgreeWhenReadsKeepPace(k: Script, n: uint32, access: int, op: OpKind,
                                                       p: nat, i: nat, ret: int)
    requires i <= n && ReadsKeepPace(k, p, n - i)
    ensures SubmitLoop(k, n, access, op, p, i, i, Wrap32(n - i), ret) == SubmitLoopBounded(k, n, access, op, p, i, i, ret)
    decreases n - i
  {
    if i < n {
      var step := SendAndRead(k, p, i, i, access, op);
      if step.ret >= 0 {
        PaceAdvances(k, p, n - i);
        WrapInRange(i + 1);
        WrapInRange(n - (i + 1));
        LoopsAgreeWhenReadsKeepPace(k, n, access, op, step.next, i + 1, ret + step.ret);
      }
    }
  }

  /** When every per-iteration read observes the request it follows, the
      driver as written and the bounded driver behave identically. */
  lemma BoundedAgreesWhenReadsKeepPace(cfg: Flags, s: HandleState, n: uint32, access: int, op: OpKind)
    requires !cfg.aioDisable && NextReply(s).ret == 0 ==> ReadsKeepPace(s.answers, s.next + 1, n)
    ensures CryptAio(cfg, s, n, access, op) == CryptAioBounded(cfg, s, n, access, op)
  {
    if !cfg.aioDisable && NextReply(s).ret == 0 {
      LoopsAgreeWhenReadsKeepPace(s.answers, n, access, op, s.next + 1, 0, 0);
    }
  }

  /** The ordinary run of a one-element batch meets the assumption: accept,
      send and drain report no completion, the read reports its own request.
      Both drivers then submit iovec 0 once, drain 0 requests, count exactly
      one completion and return the 16 bytes read. */
  lemma PacedRunCountsOnce()
    ensures var k := Script([Reply(0, 0), Reply(0, 0), Reply(16, 1), Reply(0, 0)]);
            var s := HandleState(0, 0, k, 0);
            var o := CryptAio(Flags(0, false), s, 1, 0, Encrypt);
      && ReadsKeepPace(k, 1, 1)
      && o == CryptAioBounded(Flags(0, false), s, 1, 0, Encrypt)
      && |o.calls| == 4
      && o.calls[1].call == AioSendIov(0, 1, 0, Encrypt)
      && o.calls[3].call == AioReadAll(0)
      && o.st.completedReads == 1
      && o.ret == 16
  {
    var k := Script([Reply(0, 0), Reply(0, 0), Reply(16, 1), Reply(0, 0)]);
    var s := HandleState(0, 0, k, 0);
    assert ReadAt(1, 0) == 2;
    assert ReadsKeepPace(k, 1, 1);
    BoundedAgreesWhenReadsKeepPace(Flags(0, false), s, 1, 0, Encrypt);
    var step := SendAndRead(k, 1, 0, 0, 0, Encrypt);
    assert step.ret == 16 && step.cr == 1 && step.next == 3;
    var loop := SubmitLoop(k, 1, 0, Encrypt, 1, 0, 0, 1, 0);
    assert Wrap32(1 - 1) == 0;
    assert loop.ret == 16 && loop.cr == 1 && loop.next == 3 && |loop.calls| == 2;
    assert CryptAio(Flags(0, false), s, 1, 0, Encrypt) == Drain(s, Event(Accept, Reply(0, 0)), loop, 1);
  }
}
