// The per-connection part of the echo server's worker threads, and the send
// and receive loops of its client.
module EchoServer {
  type Byte = b: int | 0 <= b < 0x100

  const MAX_BUFF_SIZE: nat := 8192

  datatype IoOperation = ClientIoRead | ClientIoWrite

  // What is asked of the kernel: to fill, or to send, `len` bytes of the
  // connection's buffer from `off` on.
  datatype Request = Recv(off: nat, len: nat) | Send(off: nat, len: nat)

  // PER_IO_CONTEXT
  datatype Context = Context(buffer: seq<Byte>, op: IoOperation, total: nat, sent: nat, wsalen: nat)

  // CtxtAllocate
  function NewContext(): Context {
    Context(seq(MAX_BUFF_SIZE, _ => 0), ClientIoRead, 0, 0, MAX_BUFF_SIZE)
  }

  // What a worker makes of a completed operation on n bytes, and what it posts next.
  function Handle(c: Context, n: nat): (Context, Request) {
    match c.op
    case ClientIoRead =>
      (c.(op := ClientIoWrite, total := n, sent := 0, wsalen := n), Send(0, n))
    case ClientIoWrite =>
      var sent := c.sent + n;
      if sent < c.total then (c.(sent := sent), Send(sent, c.total - sent))
      else (c.(op := ClientIoRead, sent := sent), Recv(0, MAX_BUFF_SIZE))
  }

  // The context as the worker threads update it.
  class PerIoContext {
    const buffer: array<Byte>
    var IOOperation: IoOperation
    var nTotalBytes: nat
    var nSentBytes: nat
    var wsalen: nat

    constructor ()
      ensures buffer.Length == MAX_BUFF_SIZE && fresh(buffer) && Value() == NewContext()
    {
      buffer := new Byte[MAX_BUFF_SIZE](_ => 0);
      IOOperation, nTotalBytes, nSentBytes, wsalen := ClientIoRead, 0, 0, MAX_BUFF_SIZE;
      new;
      assert buffer[..] == seq(MAX_BUFF_SIZE, _ => 0);
    }

    ghost function Value(): Context
      reads this, buffer
    {
      Context(buffer[..], IOOperation, nTotalBytes, nSentBytes, wsalen)
    }

    // One turn of the worker's loop, for an operation that has completed.
    method IoCompleted(dwIoSize: nat) returns (posted: Request)
      modifies this
      ensures (Value(), posted) == Handle(old(Value()), dwIoSize)
    {
      match IOOperation
      case ClientIoRead =>
        IOOperation := ClientIoWrite;
        nTotalBytes := dwIoSize;
        nSentBytes := 0;
        wsalen := dwIoSize;
        return Send(0, wsalen);
      case ClientIoWrite =>
        IOOperation := ClientIoWrite;
        nSentBytes := nSentBytes + dwIoSize;
        if nSentBytes < nTotalBytes {
          return Send(nSentBytes, nTotalBytes - nSentBytes);
        }
        IOOperation := ClientIoRead;
        return Recv(0, MAX_BUFF_SIZE);
    }
  }

  // ---------- the client's loops ----------

  // What several calls have transferred, one after the other.
  function Concat(chunks: seq<seq<Byte>>): seq<Byte> {
    if chunks == [] then [] else Concat(chunks[..|chunks| - 1]) + chunks[|chunks| - 1]
  }

  // The calls have worked up to now: no chunk is empty, but that of the last
  // call if the loop has failed.
  ghost predicate AllWorked(chunks: seq<seq<Byte>>, ok: bool) {
    if ok then [] !in chunks
    else chunks != [] && chunks[|chunks| - 1] == [] && [] !in chunks[..|chunks| - 1]
  }

  // The i-th send, of what was left of `size` bytes, has taken chunk i.
  ghost predicate TakenAt(send: (nat, nat) -> int, size: nat, chunks: seq<seq<Byte>>, i: nat)
    requires i < |chunks|
  {
    var before := |Concat(chunks[..i])|;
    before <= size && |chunks[i]| == var n := send(i, size - before); if n > 0 then n else 0
  }

  ghost predicate Taken(send: (nat, nat) -> int, size: nat, chunks: seq<seq<Byte>>) {
    forall i {:trigger TakenAt(send, size, chunks, i)} :: 0 <= i < |chunks| ==> TakenAt(send, size, chunks, i)
  }

  // The i-th receive, of what was left of `size` bytes, has brought chunk i.
  ghost predicate BroughtAt(recv: (nat, nat) -> seq<Byte>, size: nat, chunks: seq<seq<Byte>>, i: nat)
    requires i < |chunks|
  {
    var before := |Concat(chunks[..i])|;
    before <= size && chunks[i] == recv(i, size - before)
  }

  ghost predicate Brought(recv: (nat, nat) -> seq<Byte>, size: nat, chunks: seq<seq<Byte>>) {
    forall i {:trigger BroughtAt(recv, size, chunks, i)} :: 0 <= i < |chunks| ==> BroughtAt(recv, size, chunks, i)
  }

  lemma ConcatNext(chunks: seq<seq<Byte>>, x: seq<Byte>)
    ensures Concat(chunks + [x]) == Concat(chunks) + x
    ensures AllWorked(chunks, true) ==> AllWorked(chunks + [x], x != [])
  {
    assert (chunks + [x])[..|chunks|] == chunks;
  }

  lemma TakenNext(send: (nat, nat) -> int, size: nat, chunks: seq<seq<Byte>>, x: seq<Byte>)
    requires Taken(send, size, chunks) && |Concat(chunks)| <= size
    requires var n := send(|chunks|, size - |Concat(chunks)|); |x| == if n > 0 then n else 0
    ensures Taken(send, size, chunks + [x])
  {
    var chunks' := chunks + [x];
    assert chunks'[..|chunks|] == chunks;
    forall i | 0 <= i < |chunks'|
      ensures TakenAt(send, size, chunks', i)
    {
      if i < |chunks| { assert TakenAt(send, size, chunks, i) && chunks'[..i] == chunks[..i]; }
    }
  }

  lemma BroughtNext(recv: (nat, nat) -> seq<Byte>, size: nat, chunks: seq<seq<Byte>>, x: seq<Byte>)
    requires Brought(recv, size, chunks) && |Concat(chunks)| <= size
    requires x == recv(|chunks|, size - |Concat(chunks)|)
    ensures Brought(recv, size, chunks + [x])
  {
    var chunks' := chunks + [x];
    assert chunks'[..|chunks|] == chunks;
    forall i | 0 <= i < |chunks'|
      ensures BroughtAt(recv, size, chunks', i)
    {
      if i < |chunks| { assert BroughtAt(recv, size, chunks, i) && chunks'[..i] == chunks[..i]; }
    }
  }

  // SendBuffer: `send(i, n)` says how many of n bytes the i-th send takes; 0
  // or less ends the loop.  The calls follow one another through the buffer.
  // Either everything has been sent, or the first part of it and the last
  // send did not work.
  method SendBuffer(outbuf: array<Byte>, send: (nat, nat) -> int) returns (ok: bool, ghost chunks: seq<seq<Byte>>)
    requires forall i, n :: send(i, n) <= n
    ensures Taken(send, outbuf.Length, chunks) && AllWorked(chunks, ok)
    ensures Concat(chunks) <= outbuf[..]
    ensures ok <==> Concat(chunks) == outbuf[..]
    ensures |chunks| <= |Concat(chunks)| + 1
  {
    var nTotalSend, calls := 0, 0;
    ok, chunks := true, [];
    while nTotalSend < outbuf.Length
      invariant 0 <= nTotalSend <= outbuf.Length && calls == |chunks| <= nTotalSend
      invariant Concat(chunks) == outbuf[..nTotalSend]
      invariant Taken(send, outbuf.Length, chunks) && AllWorked(chunks, true)
    {
      var nSend := send(calls, outbuf.Length - nTotalSend);
      ghost var bytes := if nSend > 0 then outbuf[nTotalSend..nTotalSend + nSend] else [];
      TakenNext(send, outbuf.Length, chunks, bytes);
      ConcatNext(chunks, bytes);
      calls, chunks := calls + 1, chunks + [bytes];
      if nSend <= 0 {
        return false, chunks;
      }
      nTotalSend := nTotalSend + nSend;
    }
    assert outbuf[..nTotalSend] == outbuf[..];
  }

  // `data` written into `buf` from position k on.
  function Fill(buf: seq<Byte>, k: nat, data: seq<Byte>): (r: seq<Byte>)
    requires k + |data| <= |buf|
    ensures |r| == |buf|
  {
    buf[..k] + data + buf[k + |data|..]
  }

  lemma FillParts(buf: seq<Byte>, k: nat, data: seq<Byte>)
    requires k + |data| <= |buf|
    ensures Fill(buf, k, data)[k..k + |data|] == data
    ensures Fill(buf, k, data)[..k + |data|] == buf[..k] + data
  {
  }

  lemma FillTwice(buf: seq<Byte>, a: seq<Byte>, b: seq<Byte>)
    requires |a| + |b| <= |buf|
    ensures Fill(Fill(buf, 0, a), |a|, b) == Fill(buf, 0, a + b)
  {
  }

  // What a receive writes.
  method CopyInto(buf: array<Byte>, k: nat, data: seq<Byte>)
    requires k + |data| <= buf.Length
    modifies buf
    ensures buf[..] == Fill(old(buf[..]), k, data)
  {
    forall j | 0 <= j < |data| {
      buf[k + j] := data[j];
    }
  }

  // RecvBuffer: `recv(i, n)` is what the i-th receive of at most n bytes
  // brings; nothing if it fails or the connection is closed.  What the calls
  // bring stands in the buffer, one after the other.
  method RecvBuffer(inbuf: array<Byte>, recv: (nat, nat) -> seq<Byte>)
    returns (ok: bool, ghost chunks: seq<seq<Byte>>)
    requires forall i, n :: |recv(i, n)| <= n
    modifies inbuf
    ensures Brought(recv, inbuf.Length, chunks) && AllWorked(chunks, ok)
    ensures |Concat(chunks)| <= inbuf.Length && inbuf[..] == Fill(old(inbuf[..]), 0, Concat(chunks))
    ensures ok <==> |Concat(chunks)| == inbuf.Length
    ensures ok ==> inbuf[..] == Concat(chunks)
    ensures |chunks| <= |Concat(chunks)| + 1
  {
    var nTotalRecv, calls := 0, 0;
    ok, chunks := true, [];
    while nTotalRecv < inbuf.Length
      invariant 0 <= nTotalRecv == |Concat(chunks)| <= inbuf.Length && calls == |chunks| <= nTotalRecv
      invariant inbuf[..] == Fill(old(inbuf[..]), 0, Concat(chunks))
      invariant Brought(recv, inbuf.Length, chunks) && AllWorked(chunks, true)
    {
      var data := recv(calls, inbuf.Length - nTotalRecv);
      BroughtNext(recv, inbuf.Length, chunks, data);
      ConcatNext(chunks, data);
      ghost var before := Concat(chunks);
      calls, chunks := calls + 1, chunks + [data];
      if data == [] {
        return false, chunks;
      }
      CopyInto(inbuf, nTotalRecv, data);
      FillTwice(old(inbuf[..]), before, data);
      nTotalRecv := nTotalRecv + |data|;
    }
    assert inbuf[..nTotalRecv] == inbuf[..];
  }

  // The client's comparison of what it has received with what it has sent.
  predicate Ack(inbuf: seq<Byte>, outbuf: seq<Byte>)
    requires |inbuf| == |outbuf| > 0
  {
    inbuf[0] == outbuf[0] && inbuf[|inbuf| - 1] == outbuf[|outbuf| - 1]
  }

  // It tells right from wrong exactly if there are no more than two bytes.
  lemma AckExactIff(outbuf: seq<Byte>)
    requires outbuf != []
    ensures (forall inbuf: seq<Byte> :: |inbuf| == |outbuf| ==> (Ack(inbuf, outbuf) <==> inbuf == outbuf)) <==>
            |outbuf| <= 2
  {
    if |outbuf| > 2 {
      var inbuf := outbuf[1 := if outbuf[1] == 0 then 1 else 0];
      assert inbuf[1] != outbuf[1] && Ack(inbuf, outbuf);
    }
  }
}
