// One client and its connection to the echo server, as interleavings of the
// steps of the client, the kernel and the worker threads.  The network is an
// unbounded byte stream in each direction.
module EchoProtocol {
  import opened EchoServer

  // The client sends a buffer, then receives one, round after round; it stops
  // when the connection is lost or the buffer that came back is wrong.
  datatype Phase = Sending(k: nat) | Receiving(k: nat) | Stopped(nak: bool)

  datatype Conn = Conn(
    phase: Phase, round: nat, inbuf: seq<Byte>,
    up: seq<Byte>, down: seq<Byte>,                      // bytes on their way to and from the server
    ctx: Context, posted: seq<Request>, packets: seq<nat>, live: bool,   // the server's end
    sentAll: seq<Byte>, gotAll: seq<Byte>)               // all the client has sent and received

  // The size of a buffer, and what the client sends in each round.
  datatype Load = Load(size: nat, data: nat -> seq<Byte>) {
    ghost predicate Valid() {
      size > 0 && forall r {:trigger data(r)} :: |data(r)| == size
    }
  }

  function Initial(load: Load): Conn {
    Conn(Sending(0), 0, seq(load.size, _ => 0), [], [], NewContext(), [Recv(0, MAX_BUFF_SIZE)], [], true, [], [])
  }

  datatype Action =
    | ClientSend(n: nat)      // send takes n bytes
    | ClientRecv(n: nat)      // recv brings n bytes
    | ClientStop              // send or recv fails
    | KernelRecv(n: nat)      // the posted receive completes with n bytes
    | KernelSend(n: nat)      // the posted send completes with n bytes
    | KernelDrop              // the posted operation completes because the connection is lost
    | WorkerHandles           // a worker thread services a completion packet
    | WorkerFails(m: nat)     // ... but cannot post the next operation; m undelivered bytes survive
    | WorkerCloses(m: nat)    // a worker thread closes a lost connection

  // What the client does with a full buffer.
  function Check(c: Conn, load: Load): Conn
    requires load.Valid() && |c.inbuf| == load.size
  {
    if Ack(c.inbuf, load.data(c.round)) then c.(phase := Sending(0), round := c.round + 1)
    else c.(phase := Stopped(true))
  }

  predicate Enabled(c: Conn, a: Action, load: Load) {
    match a
    case ClientSend(n) => c.phase.Sending? && 1 <= n && c.phase.k + n <= load.size
    case ClientRecv(n) =>
      c.phase.Receiving? && 1 <= n && c.phase.k + n <= load.size && n <= |c.down| && |c.inbuf| == load.size
    case ClientStop => !c.phase.Stopped?
    case KernelRecv(n) =>
      c.posted != [] && c.posted[0].Recv? && 1 <= n <= c.posted[0].len && n <= |c.up|
      && c.posted[0].off + n <= |c.ctx.buffer|
    case KernelSend(n) =>
      c.posted != [] && c.posted[0].Send? && 1 <= n <= c.posted[0].len && c.posted[0].off + n <= |c.ctx.buffer|
    case KernelDrop => c.posted != []
    case WorkerHandles => c.live && c.packets != [] && c.packets[0] > 0
    case WorkerFails(m) => c.live && c.packets != [] && c.packets[0] > 0 && m <= |c.down|
    case WorkerCloses(m) => c.live && c.packets != [] && c.packets[0] == 0 && m <= |c.down|
  }

  function Apply(c: Conn, a: Action, load: Load): Conn
    requires load.Valid() && Enabled(c, a, load)
  {
    match a
    case ClientSend(n) =>
      var bytes := load.data(c.round)[c.phase.k..c.phase.k + n];
      c.(up := c.up + bytes, sentAll := c.sentAll + bytes,
         phase := if c.phase.k + n < load.size then Sending(c.phase.k + n) else Receiving(0))
    case ClientRecv(n) =>
      var c' := c.(inbuf := Fill(c.inbuf, c.phase.k, c.down[..n]), down := c.down[n..],
                   gotAll := c.gotAll + c.down[..n], phase := Receiving(c.phase.k + n));
      if c.phase.k + n < load.size then c' else Check(c', load)
    case ClientStop => c.(phase := Stopped(false))
    case KernelRecv(n) =>
      c.(ctx := c.ctx.(buffer := Fill(c.ctx.buffer, c.posted[0].off, c.up[..n])), up := c.up[n..],
         posted := c.posted[1..], packets := c.packets + [n])
    case KernelSend(n) =>
      c.(down := c.down + c.ctx.buffer[c.posted[0].off..c.posted[0].off + n],
         posted := c.posted[1..], packets := c.packets + [n])
    case KernelDrop => c.(posted := c.posted[1..], packets := c.packets + [0])
    case WorkerHandles =>
      var (ctx, req) := Handle(c.ctx, c.packets[0]);
      c.(ctx := ctx, packets := c.packets[1..], posted := c.posted + [req])
    case WorkerFails(m) =>
      c.(ctx := Handle(c.ctx, c.packets[0]).0, packets := c.packets[1..], live := false, down := c.down[..m])
    case WorkerCloses(m) => c.(packets := c.packets[1..], live := false, down := c.down[..m])
  }

  // Whatever the server sends back, the client reports it exactly when the
  // first byte or the last of the buffer it has filled is not the one it sent.
  lemma WrongEchoNoticed(c: Conn, n: nat, load: Load)
    requires load.Valid() && Enabled(c, ClientRecv(n), load) && c.phase.k + n == load.size
    ensures var sent, got := load.data(c.round), Fill(c.inbuf, c.phase.k, c.down[..n]);
      |sent| == |got| == load.size &&
      (Apply(c, ClientRecv(n), load).phase == Stopped(true) <==>
         got[0] != sent[0] || got[load.size - 1] != sent[load.size - 1])
  {
    assert |load.data(c.round)| == load.size;
  }

  // ---------- the invariant ----------

  // The first r buffers, one after the other.
  function Rounds(load: Load, r: nat): seq<Byte> {
    if r == 0 then [] else Rounds(load, r - 1) + load.data(r - 1)
  }

  // The bytes the server has received and not sent back yet.
  function Held(c: Conn): seq<Byte>
    requires ServerInv(c)
  {
    if !c.live || c.ctx.op.ClientIoRead? then
      if c.live && c.packets != [] then c.ctx.buffer[..c.packets[0]] else []
    else
      c.ctx.buffer[c.ctx.sent + (if c.packets != [] then c.packets[0] else 0)..c.ctx.total]
  }

  // A live connection has exactly one operation posted or completed, and it is
  // the one that its context is about; a closed one has none.
  predicate ServerInv(c: Conn) {
    && |c.ctx.buffer| == MAX_BUFF_SIZE
    && |c.posted| + |c.packets| == (if c.live then 1 else 0)
    && (c.live && c.ctx.op.ClientIoRead? ==>
         && (c.posted != [] ==> c.posted[0] == Recv(0, MAX_BUFF_SIZE))
         && (c.packets != [] ==> c.packets[0] <= MAX_BUFF_SIZE))
    && (c.live && c.ctx.op.ClientIoWrite? ==>
         && c.ctx.sent < c.ctx.total == c.ctx.wsalen <= MAX_BUFF_SIZE
         && (c.posted != [] ==> c.posted[0] == Send(c.ctx.sent, c.ctx.total - c.ctx.sent))
         && (c.packets != [] ==> c.packets[0] <= c.ctx.total - c.ctx.sent))
  }

  // Nothing is lost, duplicated or reordered on the way; on a lost connection,
  // what arrives is at least the beginning of what was sent.
  predicate StreamInv(c: Conn)
    requires ServerInv(c)
  {
    if c.live then c.sentAll == c.gotAll + c.down + Held(c) + c.up else c.gotAll + c.down <= c.sentAll
  }

  predicate ClientInv(c: Conn, load: Load)
    requires load.Valid()
  {
    && |c.inbuf| == load.size
    && match c.phase
       case Sending(k) =>
         && k < load.size && c.gotAll == Rounds(load, c.round)
         && c.sentAll == Rounds(load, c.round) + load.data(c.round)[..k]
       case Receiving(k) =>
         k < load.size && c.sentAll == Rounds(load, c.round + 1) && c.gotAll == Rounds(load, c.round) + c.inbuf[..k]
       case Stopped(nak) =>
         !nak && c.gotAll <= c.sentAll
  }

  ghost predicate Inv(c: Conn, load: Load) {
    load.Valid() && ServerInv(c) && StreamInv(c) && ClientInv(c, load)
  }

  lemma InitialInv(load: Load)
    requires load.Valid()
    ensures Inv(Initial(load), load)
  {
  }

  // What arrives is always the beginning of what was sent.
  lemma GotIsPrefix(c: Conn)
    requires ServerInv(c) && StreamInv(c)
    ensures c.gotAll + c.down <= c.sentAll && c.gotAll <= c.sentAll
  {
  }

  lemma KernelRecvKeeps(c: Conn, n: nat, load: Load)
    requires ServerInv(c) && StreamInv(c) && load.Valid() && Enabled(c, KernelRecv(n), load)
    ensures ServerInv(Apply(c, KernelRecv(n), load)) && StreamInv(Apply(c, KernelRecv(n), load))
    ensures var c' := Apply(c, KernelRecv(n), load);
      c.live ==> Held(c) == [] && c'.live && Held(c') == c.up[..n] && c'.up == c.up[n..]
  {
  }

  lemma KernelSendKeeps(c: Conn, n: nat, load: Load)
    requires ServerInv(c) && StreamInv(c) && load.Valid() && Enabled(c, KernelSend(n), load)
    ensures ServerInv(Apply(c, KernelSend(n), load)) && StreamInv(Apply(c, KernelSend(n), load))
    ensures var c' := Apply(c, KernelSend(n), load);
      n <= |Held(c)| && c'.down == c.down + Held(c)[..n] && Held(c') == Held(c)[n..]
  {
    var c' := Apply(c, KernelSend(n), load);
    assert c.ctx.op.ClientIoWrite?;
    var buf, s, t := c.ctx.buffer, c.ctx.sent, c.ctx.total;
    assert Held(c) == buf[s..t] && Held(c') == buf[s + n..t];
    assert buf[s..t] == buf[s..s + n] + buf[s + n..t];
    StreamSplit(c.gotAll, c.down, buf[s..s + n], buf[s + n..t], c.up);
  }

  lemma StreamSplit(a: seq<Byte>, b: seq<Byte>, x: seq<Byte>, y: seq<Byte>, z: seq<Byte>)
    ensures a + b + (x + y) + z == a + (b + x) + y + z
  {
  }

  lemma KernelDropKeeps(c: Conn, load: Load)
    requires ServerInv(c) && StreamInv(c) && load.Valid() && Enabled(c, KernelDrop, load)
    ensures ServerInv(Apply(c, KernelDrop, load)) && StreamInv(Apply(c, KernelDrop, load))
  {
  }

  lemma WorkerKeeps(c: Conn, a: Action, load: Load)
    requires Inv(c, load) && Enabled(c, a, load) && (a.WorkerHandles? || a.WorkerFails? || a.WorkerCloses?)
    ensures ServerInv(Apply(c, a, load)) && StreamInv(Apply(c, a, load))
    ensures var c' := Apply(c, a, load);
      if a.WorkerHandles? then c'.live && Held(c') == Held(c) && |c'.posted| == 1
      else !c'.live && c'.down <= c.down
  {
    var c' := Apply(c, a, load);
    if a.WorkerHandles? {
      assert Held(c') == Held(c);
    } else {
      GotIsPrefix(c);
      assert c.gotAll + c'.down <= c.gotAll + c.down;
    }
  }

  lemma ClientSendKeeps(c: Conn, n: nat, load: Load)
    requires Inv(c, load) && Enabled(c, ClientSend(n), load)
    ensures Inv(Apply(c, ClientSend(n), load), load)
  {
    var c' := Apply(c, ClientSend(n), load);
    var d, k := load.data(c.round), c.phase.k;
    assert |d| == load.size;
    assert d[..k + n] == d[..k] + d[k..k + n];
    if k + n == load.size { assert d[..k + n] == d; }
    GotIsPrefix(c);
    assert ServerInv(c') && (c.live ==> Held(c') == Held(c));
  }

  // What has come in by the time n more bytes are received is what was sent.
  lemma ReceivedIsSent(c: Conn, n: nat, load: Load)
    requires Inv(c, load) && Enabled(c, ClientRecv(n), load)
    ensures var k, inbuf := c.phase.k, Fill(c.inbuf, c.phase.k, c.down[..n]);
      && c.gotAll + c.down[..n] == Rounds(load, c.round) + inbuf[..k + n]
      && inbuf[..k + n] == load.data(c.round)[..k + n]
  {
    var k, bytes := c.phase.k, c.down[..n];
    var inbuf := Fill(c.inbuf, k, bytes);
    GotIsPrefix(c);
    FillParts(c.inbuf, k, bytes);
    assert c.down == bytes + c.down[n..];
    assert c.gotAll + bytes == Rounds(load, c.round) + inbuf[..k + n];
    assert c.gotAll + bytes <= c.sentAll by {
      assert c.gotAll + c.down == (c.gotAll + bytes) + c.down[n..];
    }
    SamePrefix(Rounds(load, c.round), inbuf[..k + n], load.data(c.round));
  }

  lemma ClientRecvKeeps(c: Conn, n: nat, load: Load)
    requires Inv(c, load) && Enabled(c, ClientRecv(n), load)
    ensures Inv(Apply(c, ClientRecv(n), load), load)
    ensures c.phase.k + n == load.size ==>
      var c' := Apply(c, ClientRecv(n), load); c'.round == c.round + 1 && c'.inbuf == load.data(c.round)
  {
    var c' := Apply(c, ClientRecv(n), load);
    var k, inbuf := c.phase.k, Fill(c.inbuf, c.phase.k, c.down[..n]);
    ReceivedIsSent(c, n, load);
    assert |load.data(c.round)| == load.size;
    if k + n == load.size {
      assert inbuf[..k + n] == inbuf && load.data(c.round)[..k + n] == load.data(c.round);
    }
    ClientRecvStream(c, c', n);
  }

  lemma ClientRecvStream(c: Conn, c': Conn, n: nat)
    requires ServerInv(c) && StreamInv(c) && n <= |c.down|
    requires c'.ctx == c.ctx && c'.posted == c.posted && c'.packets == c.packets && c'.live == c.live
    requires c'.up == c.up && c'.sentAll == c.sentAll
    requires c'.down == c.down[n..] && c'.gotAll == c.gotAll + c.down[..n]
    ensures ServerInv(c') && StreamInv(c')
  {
  }

  lemma SamePrefix(a: seq<Byte>, x: seq<Byte>, y: seq<Byte>)
    requires a + x <= a + y
    ensures |x| <= |y| && x == y[..|x|]
  {
    assert |a + x| <= |a + y|;
    forall i | 0 <= i < |x|
      ensures x[i] == y[i]
    {
      assert (a + x)[|a| + i] == (a + y)[|a| + i];
    }
  }

  lemma ClientStopKeeps(c: Conn, load: Load)
    requires Inv(c, load) && Enabled(c, ClientStop, load)
    ensures Inv(Apply(c, ClientStop, load), load)
  {
    var c' := Apply(c, ClientStop, load);
    GotIsPrefix(c);
    assert ServerInv(c') && (c.live ==> Held(c') == Held(c));
  }

  predicate OfClient(a: Action) {
    a.ClientSend? || a.ClientRecv? || a.ClientStop?
  }

  // Every step of every party keeps the invariant.
  lemma StepKeeps(c: Conn, a: Action, load: Load)
    requires Inv(c, load) && Enabled(c, a, load)
    ensures Inv(Apply(c, a, load), load)
  {
    match a
    case ClientSend(n) => ClientSendKeeps(c, n, load);
    case ClientRecv(n) => ClientRecvKeeps(c, n, load);
    case ClientStop => ClientStopKeeps(c, load);
    case _ =>
      ServerStepKeeps(c, a, load);
      ClientWaits(c, a, load);
  }

  lemma ServerStepKeeps(c: Conn, a: Action, load: Load)
    requires Inv(c, load) && Enabled(c, a, load) && !OfClient(a)
    ensures ServerInv(Apply(c, a, load)) && StreamInv(Apply(c, a, load))
  {
    match a
    case KernelRecv(n) => KernelRecvKeeps(c, n, load);
    case KernelSend(n) => KernelSendKeeps(c, n, load);
    case KernelDrop => KernelDropKeeps(c, load);
    case _ => WorkerKeeps(c, a, load);
  }

  // Nobody else changes what the client knows.
  lemma ClientWaits(c: Conn, a: Action, load: Load)
    requires Inv(c, load) && Enabled(c, a, load) && !OfClient(a)
    ensures ClientInv(Apply(c, a, load), load)
  {
  }

  // ---------- runs ----------

  ghost predicate IsRun(run: seq<Conn>, actions: seq<Action>, load: Load) {
    && load.Valid() && |run| == |actions| + 1 && run[0] == Initial(load)
    && forall i {:trigger actions[i]} :: 0 <= i < |actions| ==>
         Enabled(run[i], actions[i], load) && run[i + 1] == Apply(run[i], actions[i], load)
  }

  // Steps that do not involve the loss of the connection.
  predicate Connected(a: Action) {
    !a.ClientStop? && !a.KernelDrop? && !a.WorkerFails? && !a.WorkerCloses?
  }

  // The work that the bytes sent so far still have ahead of them, in steps:
  // being received by the server, being posted back, being sent, being received.
  function Ahead(c: Conn): nat
    requires ServerInv(c)
  {
    5 * |c.up| + 3 * |Held(c)| + |c.down| + |c.packets|
  }

  lemma RunPrefix(run: seq<Conn>, actions: seq<Action>, load: Load)
    requires IsRun(run, actions, load) && actions != []
    ensures var n := |actions| - 1; var c, a := run[n], actions[n];
      IsRun(run[..n + 1], actions[..n], load) && Enabled(c, a, load) && run[n + 1] == Apply(c, a, load)
  {
  }

  // The invariant holds in every reachable state.
  lemma {:induction false} RunInv(run: seq<Conn>, actions: seq<Action>, load: Load)
    requires IsRun(run, actions, load)
    ensures Inv(run[|actions|], load)
    decreases |actions|
  {
    var n := |actions|;
    if n == 0 {
      InitialInv(load);
    } else {
      RunPrefix(run, actions, load);
      RunInv(run[..n], actions[..n - 1], load);
      StepKeeps(run[n - 1], actions[n - 1], load);
    }
  }

  ghost predicate Healthy(c: Conn, steps: nat) {
    ServerInv(c) && c.live && !c.phase.Stopped? && 0 !in c.packets && steps + Ahead(c) <= 6 * |c.sentAll|
  }

  lemma HealthyStep(c: Conn, a: Action, load: Load, steps: nat)
    requires Inv(c, load) && Healthy(c, steps) && Enabled(c, a, load) && Connected(a)
    ensures Healthy(Apply(c, a, load), steps + 1)
  {
    StepCosts(c, a, load);
  }

  // Without loss, every step so far has carried some byte one stage further.
  lemma {:induction false} RunHealthy(run: seq<Conn>, actions: seq<Action>, load: Load)
    requires IsRun(run, actions, load) && forall a :: a in actions ==> Connected(a)
    ensures Healthy(run[|actions|], |actions|)
    decreases |actions|
  {
    var n := |actions|;
    if n > 0 {
      RunPrefix(run, actions, load);
      var run', actions' := run[..n], actions[..n - 1];
      assert actions[n - 1] in actions;
      RunHealthy(run', actions', load);
      RunInv(run', actions', load);
      assert run'[n - 1] == run[n - 1];
      HealthyStep(run[n - 1], actions[n - 1], load, n - 1);
    }
  }

  // A step without loss is one step less ahead of the bytes in flight, or
  // adds bytes to them.
  lemma StepCosts(c: Conn, a: Action, load: Load)
    requires Inv(c, load) && Enabled(c, a, load) && Connected(a) && c.live && !c.phase.Stopped?
    ensures var c' := Apply(c, a, load);
      && ServerInv(c') && c'.live && !c'.phase.Stopped?
      && Ahead(c') + 1 - 6 * |c'.sentAll| <= Ahead(c) - 6 * |c.sentAll|
      && (0 !in c.packets ==> 0 !in c'.packets)
  {
    StepKeeps(c, a, load);
    match a
    case ClientSend(n) => ClientSendCosts(c, n, load);
    case ClientRecv(n) => ClientRecvCosts(c, n, load);
    case KernelRecv(n) => KernelStepCosts(c, a, load);
    case KernelSend(n) => KernelStepCosts(c, a, load);
    case WorkerHandles => WorkerKeepsBytes(c, load);
  }

  lemma ClientSendCosts(c: Conn, n: nat, load: Load)
    requires Inv(c, load) && Enabled(c, ClientSend(n), load)
    ensures var c' := Apply(c, ClientSend(n), load);
      ServerInv(c') && Ahead(c') + 1 - 6 * |c'.sentAll| <= Ahead(c) - 6 * |c.sentAll|
  {
    var c' := Apply(c, ClientSend(n), load);
    assert |load.data(c.round)| == load.size;
    assert ServerInv(c') && Held(c') == Held(c);
    assert |c'.up| == |c.up| + n && |c'.sentAll| == |c.sentAll| + n;
  }

  lemma ClientRecvCosts(c: Conn, n: nat, load: Load)
    requires Inv(c, load) && Enabled(c, ClientRecv(n), load)
    ensures var c' := Apply(c, ClientRecv(n), load);
      ServerInv(c') && Ahead(c') + 1 - 6 * |c'.sentAll| <= Ahead(c) - 6 * |c.sentAll|
  {
    var c' := Apply(c, ClientRecv(n), load);
    assert ServerInv(c') && Held(c') == Held(c);
    assert |c'.down| == |c.down| - n && c'.sentAll == c.sentAll && c'.up == c.up && c'.packets == c.packets;
  }

  lemma KernelStepCosts(c: Conn, a: Action, load: Load)
    requires ServerInv(c) && load.Valid() && Enabled(c, a, load) && (a.KernelRecv? || a.KernelSend?)
    requires ServerInv(Apply(c, a, load)) && c.live
    ensures Ahead(Apply(c, a, load)) + 1 <= Ahead(c)
  {
  }

  lemma WorkerKeepsBytes(c: Conn, load: Load)
    requires ServerInv(c) && load.Valid() && Enabled(c, WorkerHandles, load)
    requires ServerInv(Apply(c, WorkerHandles, load))
    ensures Ahead(Apply(c, WorkerHandles, load)) + 1 <= Ahead(c)
  {
  }

  lemma {:induction false} RoundsLength(load: Load, r: nat)
    requires load.Valid()
    ensures |Rounds(load, r)| == r * load.size
  {
    if r > 0 { RoundsLength(load, r - 1); }
  }

  // ---------- what the echo service promises ----------

  // In every reachable state of a connection that is not lost, the bytes sent
  // are the bytes received, followed by those on their way back, those in the
  // server's buffer, and those on their way to it; and the server has exactly
  // one operation outstanding.
  lemma EchoConservation(run: seq<Conn>, actions: seq<Action>, load: Load)
    requires IsRun(run, actions, load)
    ensures var c := run[|actions|];
      && ServerInv(c)
      && (c.live ==> c.sentAll == c.gotAll + c.down + Held(c) + c.up && |c.posted| + |c.packets| == 1)
      && (!c.live ==> c.gotAll + c.down <= c.sentAll && c.posted == [] && c.packets == [])
  {
    RunInv(run, actions, load);
  }

  // Nothing else is excluded: in every reachable state, whatever is asked of
  // the kernel may be done in fragments of any size, up to all there is, or
  // fail, and a worker can take every completion, also that of a failure.
  lemma AnyFragment(run: seq<Conn>, actions: seq<Action>, load: Load, n: nat)
    requires IsRun(run, actions, load)
    ensures var c := run[|actions|];
      && ServerInv(c)
      && (!c.phase.Stopped? ==> Enabled(c, ClientStop, load))
      && (c.phase.Sending? ==> (Enabled(c, ClientSend(n), load) <==> 1 <= n <= load.size - c.phase.k))
      && (c.phase.Receiving? ==>
            (Enabled(c, ClientRecv(n), load) <==> 1 <= n <= |c.down| && n <= load.size - c.phase.k))
      && (c.posted != [] ==>
            && Enabled(c, KernelDrop, load)
            && if c.ctx.op.ClientIoRead?
               then Enabled(c, KernelRecv(n), load) <==> 1 <= n <= |c.up| && n <= MAX_BUFF_SIZE
               else Enabled(c, KernelSend(n), load) <==> 1 <= n <= |Held(c)|)
      && (c.packets != [] && n <= |c.down| ==>
            if c.packets[0] > 0 then Enabled(c, WorkerHandles, load) && Enabled(c, WorkerFails(n), load)
            else Enabled(c, WorkerCloses(n), load))
  {
    RunInv(run, actions, load);
  }

  // The client never sees a wrong echo, lost connection or not, and whenever
  // it has received a whole buffer, that is the buffer it has sent.
  lemma EchoIsRight(run: seq<Conn>, actions: seq<Action>, load: Load)
    requires IsRun(run, actions, load)
    ensures var c := run[|actions|];
      && c.phase != Stopped(true) && c.gotAll <= c.sentAll
      && (c.phase == Sending(0) && c.round > 0 ==> c.gotAll == Rounds(load, c.round))
    ensures actions != [] ==>
      var n := |actions| - 1; var c, c' := run[n], run[n + 1];
      (c'.round > c.round ==> c'.round == c.round + 1 && c'.inbuf == load.data(c.round))
  {
    RunInv(run, actions, load);
    GotIsPrefix(run[|actions|]);
    if actions != [] {
      var n := |actions| - 1;
      RunPrefix(run, actions, load);
      RunInv(run[..n + 1], actions[..n], load);
      if actions[n].ClientRecv? { ClientRecvKeeps(run[n], actions[n].n, load); }
    }
  }

  // Without loss, some party can always take a step ...
  lemma EchoNeverStuck(run: seq<Conn>, actions: seq<Action>, load: Load) returns (a: Action)
    requires IsRun(run, actions, load) && forall a :: a in actions ==> Connected(a)
    ensures Connected(a) && Enabled(run[|actions|], a, load)
  {
    var c := run[|actions|];
    RunInv(run, actions, load);
    RunHealthy(run, actions, load);
    if c.phase.Sending? {
      a := ClientSend(1);
    } else if c.down != [] {
      a := ClientRecv(1);
    } else if c.packets != [] {
      assert c.packets[0] in c.packets;
      a := WorkerHandles;
    } else if c.ctx.op.ClientIoWrite? {
      a := KernelSend(1);
    } else {
      SomethingOnItsWay(c, load);
      a := KernelRecv(1);
    }
  }

  lemma SomethingOnItsWay(c: Conn, load: Load)
    requires Inv(c, load) && c.live && c.phase.Receiving? && c.down == [] && Held(c) == []
    ensures c.up != []
  {
  }

  // ... and after every 6 * size steps, one more buffer has come back.
  lemma EchoMakesProgress(run: seq<Conn>, actions: seq<Action>, load: Load)
    requires IsRun(run, actions, load) && forall a :: a in actions ==> Connected(a)
    ensures |actions| <= 6 * ((run[|actions|].round + 1) * load.size)
  {
    var c := run[|actions|];
    RunInv(run, actions, load);
    RunHealthy(run, actions, load);
    RoundsLength(load, c.round);
    RoundsLength(load, c.round + 1);
    assert |load.data(c.round)| == load.size;
    assert |Rounds(load, c.round + 1)| == |Rounds(load, c.round)| + load.size;
  }
}
