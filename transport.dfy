/** The AF_ALG transport primitives that lib/kcapi-asym.c drives, seen from the
    library side.  Their bodies live elsewhere in libkcapi and in the kernel, so
    each one is modelled as a single call to an oracle: the kernel's answers for
    one run are a script of replies, consumed one per primitive call, and every
    library call returns, with its result, the primitive calls it made and the
    reply each one got. */
module Transport {

  const EIO: int := 5
  const EINVAL: int := 22
  const EOPNOTSUPP: int := 95

  type uint32 = x: int | 0 <= x < 0x1_0000_0000
  type int32 = x: int | -0x8000_0000 <= x < 0x8000_0000

  /** C's unsigned 32-bit arithmetic: the result is taken modulo 2^32. */
  function Wrap32(x: int): uint32
  {
    x % 0x1_0000_0000
  }

  lemma WrapInRange(x: int)
    requires 0 <= x < 0x1_0000_0000
    ensures Wrap32(x) == x
  {
  }

  lemma WrapAdd(a: int, b: int)
    ensures Wrap32(Wrap32(a) + b) == Wrap32(a + b)
  {
    var q := a / 0x1_0000_0000;
    assert Wrap32(a) + b == (a + b) - 0x1_0000_0000 * q;
    ModShift(a + b, q);
  }

  lemma ModShift(x: int, q: int)
    ensures (x - 0x1_0000_0000 * q) % 0x1_0000_0000 == x % 0x1_0000_0000
  {
    var r := x % 0x1_0000_0000;
    var k := x / 0x1_0000_0000;
    assert x - 0x1_0000_0000 * q == 0x1_0000_0000 * (k - q) + r;
  }

  /** The operation an akcipher request performs (ALG_OP_*). */
  datatype OpKind = Encrypt | Decrypt | Sign | Verify

  /** An iovec pointer: NULL, or the element at `index` of the caller's array.
      Buffer contents are not modelled. */
  datatype IovRef = NullIov | IovAt(index: nat)

  /** The base pointer of an iovec array a caller passes in: NULL, or a
      caller's array. */
  datatype IovArray = NullArray | CallerArray

  /** The cursor `base + i` after i increments.  Only a NULL base that has
      not moved is NULL; any other position is named by its offset. */
  function Cursor(a: IovArray, i: nat): IovRef
  {
    if a.NullArray? && i == 0 then NullIov else IovAt(i)
  }

  /** The primitives, with the arguments this file passes to them; `more` is
      MSG_MORE / SPLICE_F_MORE. */
  datatype Call =
    | CipherCrypt(op: OpKind, inLen: uint32, outLen: uint32, access: int)
    | SendMeta(iov: IovRef, len: uint32, op: OpKind, more: bool)
    | VmspliceIov(iov: IovRef, len: uint32, more: bool)
    | SendData(iov: IovRef, len: uint32, more: bool)
    | RecvData(iov: IovRef, len: uint32)
    | Accept
    | AioSendIov(index: nat, len: uint32, access: int, op: OpKind)
    | AioReadIov(index: nat, len: uint32)
    | AioReadAll(len: uint32)

  /** The kernel's answer to one call: the int32 result and, for a zero-copy
      send, the pages it pinned, for an AIO read, the completions it observed. */
  datatype Reply = Reply(ret: int32, count: nat)

  datatype Event = Event(call: Call, reply: Reply)

  /** handle->flags.alg_max_pages and handle->aio.disable. */
  datatype Flags = Flags(algMaxPages: nat, aioDisable: bool)

  /** The handle fields this file reads or writes, with the kernel's script of
      answers for the run and the number of calls answered so far. */
  datatype HandleState = HandleState(
    processedSg: nat,
    completedReads: uint32,
    answers: Script,
    next: nat)

  /** What a library call returns, the handle afterwards, and the primitive
      calls it made, in order. */
  datatype Outcome = Outcome(ret: int, st: HandleState, calls: seq<Event>)

  /** The kernel's answers for one run, in call order. */
  datatype Script = Script(replies: seq<Reply>)

  /** The kernel's answer to the p-th call of a run; once the script is used
      up every call fails with -EIO. */
  function Answer(answers: Script, p: nat): Reply
  {
    if p < |answers.replies| then answers.replies[p] else Reply(-EIO, 0)
  }

  /** The kernel's answer to the handle's next call. */
  function NextReply(s: HandleState): Reply
  {
    Answer(s.answers, s.next)
  }

  /** One primitive call. */
  function Invoke(s: HandleState, c: Call): (o: Outcome)
    ensures o.ret == NextReply(s).ret
    ensures o.calls == [Event(c, NextReply(s))]
    ensures o.st.answers == s.answers && o.st.next == s.next + 1
  {
    var a := NextReply(s);
    var st :=
      if c.VmspliceIov? then s.(processedSg := s.processedSg + a.count, next := s.next + 1)
      else if c.AioReadIov? || c.AioReadAll? then
        s.(completedReads := Wrap32(s.completedReads + a.count), next := s.next + 1)
      else s.(next := s.next + 1);
    Outcome(a.ret, st, [Event(c, a)])
  }

  /** Quantities summed over the calls of a run. */
  datatype Measure =
    | AioBytes     // bytes reported by the AIO reads (per-iteration reads and the drain)
    | Completions  // completions reported by the AIO reads
    | RecvBytes    // bytes reported by the synchronous receive

  function Weight(m: Measure, e: Event): int
  {
    match m
    case AioBytes => if e.call.AioReadIov? || e.call.AioReadAll? then e.reply.ret else 0
    case Completions => if e.call.AioReadIov? || e.call.AioReadAll? then e.reply.count else 0
    case RecvBytes => if e.call.RecvData? then e.reply.ret else 0
  }

  function Total(es: seq<Event>, m: Measure): int
  {
    TotalUpTo(es, |es|, m)
  }

  /** The measure summed over the first j calls. */
  function TotalUpTo(es: seq<Event>, j: nat, m: Measure): int
    requires j <= |es|
  {
    if j == 0 then 0 else TotalUpTo(es, j - 1, m) + Weight(m, es[j - 1])
  }

  lemma {:induction false} UpToPrefix(a: seq<Event>, b: seq<Event>, j: nat, m: Measure)
    requires j <= |a|
    ensures TotalUpTo(a + b, j, m) == TotalUpTo(a, j, m)
  {
    if j > 0 {
      UpToPrefix(a, b, j - 1, m);
    }
  }

  lemma {:induction false} UpToSuffix(a: seq<Event>, b: seq<Event>, j: nat, m: Measure)
    requires j <= |b|
    ensures TotalUpTo(a + b, |a| + j, m) == Total(a, m) + TotalUpTo(b, j, m)
  {
    if j > 0 {
      UpToSuffix(a, b, j - 1, m);
    } else {
      UpToPrefix(a, b, |a|, m);
    }
  }

  lemma TotalAppend(a: seq<Event>, b: seq<Event>, m: Measure)
    ensures Total(a + b, m) == Total(a, m) + Total(b, m)
  {
    UpToSuffix(a, b, |b|, m);
  }

  lemma TotalOne(e: Event, m: Measure)
    ensures Total([e], m) == Weight(m, e)
  {
    assert TotalUpTo([e], 1, m) == TotalUpTo([e], 0, m) + Weight(m, e);
  }

  lemma TotalCons(e: Event, rest: seq<Event>, m: Measure)
    ensures Total([e] + rest, m) == Weight(m, e) + Total(rest, m)
  {
    TotalAppend([e], rest, m);
    TotalOne(e, m);
  }

  /** The first j calls all succeeded. */
  ghost predicate SucceededUpTo(es: seq<Event>, j: nat)
    requires j <= |es|
  {
    j == 0 || (SucceededUpTo(es, j - 1) && es[j - 1].reply.ret >= 0)
  }

  /** The error discipline of a run that makes calls: no primitive is called
      after one has failed, and the result is negative exactly when the last
      call failed, in which case it is that call's result.  It holds for the
      AIO driver once AIO is enabled and for the fallback with a caller's
      output array; the -EOPNOTSUPP of a disabled driver, stream_op's -EINVAL,
      and the -EINVAL of a fallback with a NULL output array are results made
      without a failing call, and are the exceptions. */
  ghost predicate AbortsOnFirstError(es: seq<Event>, r: int)
  {
    if es == [] then r >= 0
    else
      && SucceededUpTo(es, |es| - 1)
      && (r < 0 <==> es[|es| - 1].reply.ret < 0)
      && (r < 0 ==> r == es[|es| - 1].reply.ret)
  }

  lemma {:induction false} SucceededPrefix(a: seq<Event>, b: seq<Event>, j: nat)
    requires j <= |a|
    ensures SucceededUpTo(a + b, j) == SucceededUpTo(a, j)
  {
    if j > 0 {
      SucceededPrefix(a, b, j - 1);
    }
  }

  lemma {:induction false} SucceededSuffix(a: seq<Event>, b: seq<Event>, j: nat)
    requires j <= |b| && SucceededUpTo(a, |a|)
    ensures SucceededUpTo(a + b, |a| + j) == SucceededUpTo(b, j)
  {
    if j > 0 {
      SucceededSuffix(a, b, j - 1);
    } else {
      SucceededPrefix(a, b, |a|);
    }
  }

  /** A run that succeeded throughout, with a last call, succeeded up to it. */
  lemma SucceededAll(es: seq<Event>, r: int)
    requires AbortsOnFirstError(es, r) && r >= 0
    ensures SucceededUpTo(es, |es|)
  {
  }

  /** Prepending successful calls keeps the error discipline. */
  lemma AbortsPrefix(head: seq<Event>, rest: seq<Event>, r: int)
    requires SucceededUpTo(head, |head|)
    requires AbortsOnFirstError(rest, r)
    ensures AbortsOnFirstError(head + rest, r)
  {
    if rest == [] {
      assert head + rest == head;
    } else {
      SucceededSuffix(head, rest, |rest| - 1);
      assert (head + rest)[|head + rest| - 1] == rest[|rest| - 1];
    }
  }
}
