/**
 The terminal client's pump (read_write.c): one loop copies the keyboard to an SSL connection and
 the connection to the screen. SSL may ask for the opposite direction before it goes on, which the
 loop remembers in two flags; a partial or blocked write leaves bytes in the buffer.

 `Round` is everything the outside answers in one turn of the loop: which requested descriptors
 select reports, and what the calls return if they are made. What the loop does is a trace of calls.
 */
module SslPump {
  import opened Bytes

  const BUFSIZZ := 1024

  type Chunk = seq<byte>

  // ---------- what the outside can answer ----------

  datatype ReadResult = Data(bytes: Chunk) | ZeroReturn | ReadWantsRead | ReadWantsWrite | ReadError

  datatype WriteResult = Wrote(n: nat) | WriteWantsWrite | WriteWantsRead | WriteError

  datatype StdinResult = Input(bytes: Chunk) | StdinError

  datatype Round = Round(
    timeout: bool,            // select returns 0
    socketReadable: bool, socketWritable: bool, stdinReadable: bool,
    receipts: seq<ReadResult>, // one per SSL_read; SSL_pending holds while there are more
    stdin: StdinResult,
    shutdownDone: bool,       // SSL_shutdown returns non-zero
    write: WriteResult)

  /** read() fills at most the buffer. */
  function Clip(b: Chunk): Chunk {
    if |b| <= BUFSIZZ then b else b[..BUFSIZZ]
  }

  /** A successful SSL_write of len bytes takes at least one and at most all of them. */
  function Taken(n: nat, len: int): int
    requires len > 0
  {
    if n == 0 then 1 else if n > len then len else n
  }

  // ---------- the calls made ----------

  datatype Event =
    | SslRead(result: ReadResult)
    | StdinRead(input: StdinResult)
    | SslWrite(offset: int, len: int, data: Chunk, written: int, blocked: bool)
    | Shutdown

  /** The calls so far, the latest last. */
  datatype Trace = Start | Then(past: Trace, last: Event)

  datatype Status = Running | Closed | Returned | Failed

  datatype Pump = Pump(
    c2s: Chunk,                // keyboard to server
    c2sl: int,                 // bytes still to write
    offset: int,               // where they start
    readBlockedOnWrite: bool,
    writeBlockedOnRead: bool,
    shutdownWait: bool)

  datatype World = World(p: Pump, status: Status, trace: Trace)

  // ---------- one turn of the loop ----------

  function WantsSocketWritable(p: Pump): bool {
    !p.writeBlockedOnRead && (p.c2sl != 0 || p.readBlockedOnWrite)
  }

  function WantsStdin(p: Pump): bool {
    !p.writeBlockedOnRead && p.c2sl == 0 && !p.readBlockedOnWrite
  }

  function AfterRead(w: World, r: ReadResult): World {
    var w' := w.(trace := Then(w.trace, SslRead(r)), p := w.p.(readBlockedOnWrite := r.ReadWantsWrite?));
    match r
    case ZeroReturn =>
      w'.(status := Closed, trace := if w.p.shutdownWait then w'.trace else Then(w'.trace, Shutdown))
    case ReadError => w'.(status := Failed)
    case _ => w'
  }

  /** The SSL_read loop: again while bytes are pending, unless the last read blocked. */
  function AfterReads(w: World, rs: seq<ReadResult>): World
    decreases |rs|
  {
    if rs == [] then AfterRead(w, ReadWantsRead)
    else
      var w' := AfterRead(w, rs[0]);
      if w'.status == Running && |rs| > 1 && !rs[0].ReadWantsRead? then AfterReads(w', rs[1..]) else w'
  }

  /** The first bytes of the buffer are replaced. */
  function Filled(buffer: Chunk, b: Chunk): Chunk {
    if |b| <= |buffer| then b + buffer[|b|..] else buffer
  }

  function AfterStdin(w: World, r: Round): World {
    var t := Then(w.trace, StdinRead(r.stdin));
    match r.stdin
    case StdinError => w.(trace := t, p := w.p.(c2sl := -1, offset := 0))
    case Input(bytes) =>
      var b := Clip(bytes);
      var p' := w.p.(c2s := Filled(w.p.c2s, b), c2sl := |b|, offset := 0);
      if b != [] then w.(trace := t, p := p')
      else if r.shutdownDone
      then w.(trace := Then(t, Shutdown), status := Returned, p := w.p.(c2sl := 0, shutdownWait := true))
      else w.(trace := Then(t, Shutdown), p := p'.(shutdownWait := true))
  }

  /** The bytes an SSL_write is pointed at. */
  function Slice(buffer: Chunk, offset: int, len: int): Chunk {
    if 0 <= offset && 0 <= len && offset + len <= |buffer| then buffer[offset..offset + len] else []
  }

  function AfterWrite(w: World, result: WriteResult): World {
    var p := w.p.(writeBlockedOnRead := false);
    var data := Slice(p.c2s, p.offset, p.c2sl);
    if p.c2sl <= 0 || result.WriteError? then
      w.(p := p, status := Failed, trace := Then(w.trace, SslWrite(p.offset, p.c2sl, data, 0, false)))
    else if result.Wrote? then
      var r := Taken(result.n, p.c2sl);
      w.(p := p.(c2sl := p.c2sl - r, offset := p.offset + r),
         trace := Then(w.trace, SslWrite(p.offset, p.c2sl, data, r, false)))
    else
      w.(p := p.(writeBlockedOnRead := result.WriteWantsRead?),
         trace := Then(w.trace, SslWrite(p.offset, p.c2sl, data, 0, true)))
  }

  function AfterRound(w: World, r: Round): World {
    if w.status != Running || r.timeout then w
    else
      var writable := WantsSocketWritable(w.p) && r.socketWritable;
      var stdinReady := WantsStdin(w.p) && r.stdinReadable;
      var w1 := if (r.socketReadable && !w.p.writeBlockedOnRead) || (w.p.readBlockedOnWrite && writable)
                then AfterReads(w, r.receipts) else w;
      if w1.status != Running then w1
      else
        var w2 := if stdinReady then AfterStdin(w1, r) else w1;
        if w2.status != Running then w2
        else if (writable && w2.p.c2sl != 0) || (w2.p.writeBlockedOnRead && r.socketReadable)
        then AfterWrite(w2, r.write)
        else w2
  }

  function Initial(buffer: Chunk): World {
    World(Pump(buffer, 0, 0, false, false, false), Running, Start)
  }

  function AfterRounds(buffer: Chunk, rounds: seq<Round>, n: nat): World
    requires n <= |rounds|
  {
    if n == 0 then Initial(buffer) else AfterRound(AfterRounds(buffer, rounds, n - 1), rounds[n - 1])
  }

  // ---------- what a trace may contain ----------

  /** The bytes taken from the keyboard, in order. */
  function Accepted(t: Trace): Chunk {
    match t
    case Start => []
    case Then(past, e) => Accepted(past) + if e.StdinRead? && e.input.Input? then Clip(e.input.bytes) else []
  }

  /** The bytes written to the peer, in order. */
  function Sent(t: Trace): Chunk {
    match t
    case Start => []
    case Then(past, e) => Sent(past) + if e.SslWrite? && 0 <= e.written <= |e.data| then e.data[..e.written] else []
  }

  /** The last write, if it blocked and so has to be made again. */
  function Outstanding(t: Trace): seq<Event> {
    match t
    case Start => []
    case Then(past, e) => if !e.SslWrite? then Outstanding(past) else if e.blocked then [e] else []
  }

  /**
   The rules for the next call: the keyboard is read only when everything accepted has been sent; a
   write is pointed at exactly the bytes accepted and not yet sent, and there are some; a write that
   repeats a blocked one has the same place, length and bytes.
   */
  ghost predicate Proper(t: Trace, e: Event) {
    match e
    case StdinRead(_) => Accepted(t) == Sent(t)
    case SslWrite(offset, len, data, written, blocked) =>
      && 0 < len == |data| && 0 <= written <= len
      && Accepted(t) == Sent(t) + data
      && (Outstanding(t) != [] ==> Repeats(Outstanding(t)[0], e))
    case _ => true
  }

  ghost predicate Repeats(e: Event, e': Event) {
    e.SslWrite? && e'.SslWrite? && e.offset == e'.offset && e.len == e'.len && e.data == e'.data
  }

  ghost predicate ProperTrace(t: Trace) {
    t.Then? ==> ProperTrace(t.past) && Proper(t.past, t.last)
  }

  /** Everything accepted has been sent or is the pending part of the buffer. */
  ghost predicate Inv(w: World) {
    var p := w.p;
    && |p.c2s| == BUFSIZZ && 0 <= p.c2sl && 0 <= p.offset && p.offset + p.c2sl <= BUFSIZZ
    && (p.writeBlockedOnRead ==> p.c2sl > 0)
    && ProperTrace(w.trace)
    && Accepted(w.trace) == Sent(w.trace) + Slice(p.c2s, p.offset, p.c2sl)
    && (Outstanding(w.trace) != [] ==>
          var e := Outstanding(w.trace)[0];
          p.c2sl > 0 && Repeats(e, SslWrite(p.offset, p.c2sl, Slice(p.c2s, p.offset, p.c2sl), 0, true)))
  }

  lemma ReadKeepsInv(w: World, r: ReadResult)
    requires Inv(w)
    ensures Inv(AfterRead(w, r))
    ensures AfterRead(w, r).p.(readBlockedOnWrite := false) == w.p.(readBlockedOnWrite := false)
  {
    var t := Then(w.trace, SslRead(r));
    assert Accepted(t) == Accepted(w.trace) && Sent(t) == Sent(w.trace) && ProperTrace(t);
  }

  lemma {:induction false} ReadsKeepInv(w: World, rs: seq<ReadResult>)
    requires Inv(w)
    ensures Inv(AfterReads(w, rs))
    ensures AfterReads(w, rs).p.(readBlockedOnWrite := false) == w.p.(readBlockedOnWrite := false)
    decreases |rs|
  {
    var r := if rs == [] then ReadWantsRead else rs[0];
    ReadKeepsInv(w, r);
    if rs != [] && AfterRead(w, r).status == Running && |rs| > 1 && !r.ReadWantsRead? {
      ReadsKeepInv(AfterRead(w, r), rs[1..]);
    }
  }

  /** Reading the keyboard keeps the invariant exactly when the read does not fail. */
  lemma StdinKeepsInv(w: World, r: Round)
    requires Inv(w) && w.p.c2sl == 0 && !w.p.writeBlockedOnRead
    ensures Inv(AfterStdin(w, r)) <==> !r.stdin.StdinError?
  {
    assert Accepted(w.trace) == Sent(w.trace) by {
      assert Slice(w.p.c2s, w.p.offset, 0) == [];
    }
    if r.stdin.Input? {
      var b, p' := Clip(r.stdin.bytes), AfterStdin(w, r).p;
      assert Slice(p'.c2s, p'.offset, p'.c2sl) == b;
      var t := Then(w.trace, StdinRead(r.stdin));
      assert Accepted(t) == Accepted(w.trace) + b && Sent(t) == Sent(w.trace) && ProperTrace(t);
      assert Accepted(Then(t, Shutdown)) == Accepted(t) && Sent(Then(t, Shutdown)) == Sent(t);
      assert Outstanding(AfterStdin(w, r).trace) == [];
    }
  }

  lemma SplitSlice(sent: Chunk, c2s: Chunk, offset: int, len: int, n: int)
    requires 0 <= offset && 0 <= n <= len && offset + len <= |c2s|
    ensures var data := Slice(c2s, offset, len);
            |data| == len && sent + data == (sent + data[..n]) + Slice(c2s, offset + n, len - n)
  {
  }

  lemma WriteKeepsInv(w: World, result: WriteResult)
    requires Inv(w) && w.p.c2sl > 0
    ensures Inv(AfterWrite(w, result))
  {
    var p, t := w.p, w.trace;
    var data := Slice(p.c2s, p.offset, p.c2sl);
    var r := if result.Wrote? then Taken(result.n, p.c2sl) else 0;
    SplitSlice(Sent(t), p.c2s, p.offset, p.c2sl, r);
    var e := SslWrite(p.offset, p.c2sl, data, r, !result.Wrote? && !result.WriteError?);
    assert AfterWrite(w, result).trace == Then(t, e);
    assert Proper(t, e);
    assert Accepted(Then(t, e)) == Accepted(t) && Sent(Then(t, e)) == Sent(t) + data[..r];
  }

  // ---------- when a turn makes its calls ----------

  /** The writes so far. */
  function Writes(t: Trace): nat {
    match t
    case Start => 0
    case Then(past, e) => Writes(past) + if e.SslWrite? then 1 else 0
  }

  /** The reads of the keyboard so far. */
  function KeyboardReads(t: Trace): nat {
    match t
    case Start => 0
    case Then(past, e) => KeyboardReads(past) + if e.StdinRead? then 1 else 0
  }

  /** The shutdowns so far. */
  function Shutdowns(t: Trace): nat {
    match t
    case Start => 0
    case Then(past, e) => Shutdowns(past) + if e.Shutdown? then 1 else 0
  }

  /** The answers to the reads of the socket so far, in order. */
  function SocketReads(t: Trace): seq<ReadResult> {
    match t
    case Start => []
    case Then(past, e) => SocketReads(past) + if e.SslRead? then [e.result] else []
  }

  /** The answers of one do loop: up to the first after which nothing is read, or as many as there are. */
  function Made(rs: seq<ReadResult>): (made: seq<ReadResult>)
    ensures made != []
  {
    if rs == [] then [ReadWantsRead]
    else if rs[0].Data? || rs[0].ReadWantsWrite? then [rs[0]] + if |rs| > 1 then Made(rs[1..]) else []
    else [rs[0]]
  }

  function LastMade(rs: seq<ReadResult>): ReadResult {
    Made(rs)[|Made(rs)| - 1]
  }

  /** What the do loop has done, when its last answer was `last` and all its answers were `made`. */
  ghost predicate Read(w: World, w': World, made: seq<ReadResult>, last: ReadResult) {
    && SocketReads(w'.trace) == SocketReads(w.trace) + made
    && Writes(w'.trace) == Writes(w.trace) && KeyboardReads(w'.trace) == KeyboardReads(w.trace)
    && Shutdowns(w'.trace) == Shutdowns(w.trace) + (if last.ZeroReturn? && !w.p.shutdownWait then 1 else 0)
    && (w'.status == Running <==> !last.ZeroReturn? && !last.ReadError?)
    && w'.p == w.p.(readBlockedOnWrite := last.ReadWantsWrite?)
  }

  lemma OneRead(w: World, r: ReadResult)
    requires w.status == Running
    ensures Read(w, AfterRead(w, r), [r], r)
  {
  }

  lemma ReadOn(w: World, r: ReadResult, w1: World, w2: World, made: seq<ReadResult>, last: ReadResult)
    requires Read(w, w1, [r], r) && !r.ZeroReturn? && Read(w1, w2, made, last)
    ensures Read(w, w2, [r] + made, last)
  {
    assert SocketReads(w.trace) + [r] + made == SocketReads(w.trace) + ([r] + made);
  }

  lemma {:induction false} ReadsMade(w: World, rs: seq<ReadResult>)
    requires w.status == Running
    ensures Read(w, AfterReads(w, rs), Made(rs), LastMade(rs))
    decreases |rs|
  {
    var r := if rs == [] then ReadWantsRead else rs[0];
    OneRead(w, r);
    if |rs| > 1 && (r.Data? || r.ReadWantsWrite?) {
      ReadsMade(AfterRead(w, r), rs[1..]);
      ReadOn(w, r, AfterRead(w, r), AfterReads(w, rs), Made(rs[1..]), LastMade(rs[1..]));
    }
  }

  /** The socket is read: it is readable, or a read waits for it to be writable, and no write waits for it. */
  predicate SocketTurn(w: World, r: Round) {
    && w.status == Running && !r.timeout && !w.p.writeBlockedOnRead
    && (r.socketReadable || (w.p.readBlockedOnWrite && r.socketWritable))
  }

  /** The peer has closed the connection. */
  predicate Ended(w: World, r: Round) {
    SocketTurn(w, r) && LastMade(r.receipts).ZeroReturn?
  }

  /** The loop is still running after what it reads of the socket. */
  predicate StillRunning(w: World, r: Round) {
    && w.status == Running && !r.timeout
    && (SocketTurn(w, r) ==> !LastMade(r.receipts).ZeroReturn? && !LastMade(r.receipts).ReadError?)
  }

  /** The keyboard is read: there is input, and nothing is pending or blocked. */
  predicate KeyboardTurn(w: World, r: Round) {
    && StillRunning(w, r) && r.stdinReadable
    && w.p.c2sl == 0 && !w.p.writeBlockedOnRead && !w.p.readBlockedOnWrite
  }

  /** Pending bytes are written: the socket is writable, or readable if that is what a blocked write waits for. */
  predicate WriteTurn(w: World, r: Round) {
    && StillRunning(w, r) && w.p.c2sl > 0
    && if w.p.writeBlockedOnRead then r.socketReadable else r.socketWritable
  }

  /** The world after the first part of a turn. */
  function AfterSocket(w: World, r: Round): World {
    if SocketTurn(w, r) then AfterReads(w, r.receipts) else w
  }

  lemma SocketPart(w: World, r: Round)
    requires Inv(w) && w.status == Running && !r.timeout
    ensures var w1 := AfterSocket(w, r);
            && Inv(w1) && (w1.status == Running <==> StillRunning(w, r))
            && w1.p.(readBlockedOnWrite := false) == w.p.(readBlockedOnWrite := false)
            && SocketReads(w1.trace) == SocketReads(w.trace) + (if SocketTurn(w, r) then Made(r.receipts) else [])
            && Writes(w1.trace) == Writes(w.trace) && KeyboardReads(w1.trace) == KeyboardReads(w.trace)
            && Shutdowns(w1.trace) == Shutdowns(w.trace) + (if Ended(w, r) && !w.p.shutdownWait then 1 else 0)
  {
    ReadsKeepInv(w, r.receipts);
    ReadsMade(w, r.receipts);
  }

  /** The parts of a turn, and when each of them is reached. */
  lemma TurnParts(w: World, r: Round)
    requires Inv(w)
    ensures var w1 := AfterSocket(w, r);
            AfterRound(w, r) == if KeyboardTurn(w, r) then AfterStdin(w1, r)
                                else if WriteTurn(w, r) then AfterWrite(w1, r.write)
                                else w1
  {
    if w.status == Running && !r.timeout {
      SocketPart(w, r);
    }
  }

  /** The end of the keyboard's input. */
  predicate EndOfInput(w: World, r: Round) {
    KeyboardTurn(w, r) && r.stdin == Input([])
  }

  lemma KeyboardCalls(w: World, r: Round)
    ensures var t, t' := w.trace, AfterStdin(w, r).trace;
            && SocketReads(t') == SocketReads(t) && KeyboardReads(t') == KeyboardReads(t) + 1
            && Writes(t') == Writes(t) && Shutdowns(t') == Shutdowns(t) + if r.stdin == Input([]) then 1 else 0
  {
  }

  lemma WriteCalls(w: World, result: WriteResult)
    ensures var t, t' := w.trace, AfterWrite(w, result).trace;
            && SocketReads(t') == SocketReads(t) && KeyboardReads(t') == KeyboardReads(t)
            && Writes(t') == Writes(t) + 1 && Shutdowns(t') == Shutdowns(t)
  {
  }

  /**
   A turn reads the socket, reads the keyboard, writes and shuts down exactly when the descriptors, the
   flags and the answers call for it.
   */
  lemma TurnCallsExactlyWhen(w: World, r: Round)
    requires Inv(w)
    ensures var t, t' := w.trace, AfterRound(w, r).trace;
            && SocketReads(t') == SocketReads(t) + (if SocketTurn(w, r) then Made(r.receipts) else [])
            && KeyboardReads(t') == KeyboardReads(t) + (if KeyboardTurn(w, r) then 1 else 0)
            && Writes(t') == Writes(t) + (if WriteTurn(w, r) then 1 else 0)
            && Shutdowns(t') == Shutdowns(t) + if EndOfInput(w, r) || (Ended(w, r) && !w.p.shutdownWait) then 1 else 0
  {
    TurnParts(w, r);
    if w.status == Running && !r.timeout {
      SocketPart(w, r);
    }
    KeyboardCalls(AfterSocket(w, r), r);
    WriteCalls(AfterSocket(w, r), r.write);
  }

  /** What is read of the keyboard is accepted; its end is answered by a shutdown, which may end the loop. */
  lemma KeyboardIsAccepted(w: World, r: Round)
    requires Inv(w) && KeyboardTurn(w, r) && r.stdin.Input?
    ensures var w' := AfterRound(w, r);
            && Accepted(w'.trace) == Accepted(w.trace) + Clip(r.stdin.bytes)
            && w'.p.c2sl == |Clip(r.stdin.bytes)|
            && (r.stdin.bytes != [] ==> w'.status == Running)
            && (r.stdin.bytes == [] ==>
                  w'.p.shutdownWait && w'.status == if r.shutdownDone then Returned else Running)
  {
    TurnParts(w, r);
    SocketPart(w, r);
    SameAccepted(w, r);
  }

  lemma {:induction false} ReadsAcceptNothing(w: World, rs: seq<ReadResult>)
    ensures Accepted(AfterReads(w, rs).trace) == Accepted(w.trace) && Sent(AfterReads(w, rs).trace) == Sent(w.trace)
    decreases |rs|
  {
    if |rs| > 1 && AfterRead(w, rs[0]).status == Running && !rs[0].ReadWantsRead? {
      ReadsAcceptNothing(AfterRead(w, rs[0]), rs[1..]);
    }
  }

  lemma SameAccepted(w: World, r: Round)
    ensures Accepted(AfterSocket(w, r).trace) == Accepted(w.trace) && Sent(AfterSocket(w, r).trace) == Sent(w.trace)
  {
    ReadsAcceptNothing(w, r.receipts);
  }

  /**
   A turn that writes makes one call, with the whole pending slice; what the call takes is sent and no
   longer pending, and that is at least a byte unless the call blocks or fails.
   */
  lemma PendingIsWritten(w: World, r: Round)
    requires Inv(w) && WriteTurn(w, r)
    ensures var (w', data) := (AfterRound(w, r), Slice(w.p.c2s, w.p.offset, w.p.c2sl));
            && w'.trace.Then? && w'.trace.last.SslWrite? && w'.trace.last.data == data
            && w'.trace.last.offset == w.p.offset && w'.trace.last.len == w.p.c2sl == |data|
            && 0 <= w'.trace.last.written <= |data| && (w'.trace.last.written > 0 <==> r.write.Wrote?)
            && Sent(w'.trace) == Sent(w.trace) + data[..w'.trace.last.written]
            && Accepted(w'.trace) == Accepted(w.trace)
            && w'.p.c2sl == w.p.c2sl - w'.trace.last.written
            && (w'.status == Running <==> !r.write.WriteError?)
            && (w'.p.writeBlockedOnRead <==> r.write.WriteWantsRead?)
  {
    TurnParts(w, r);
    SocketPart(w, r);
    SameAccepted(w, r);
  }

  // ---------- what every run keeps ----------

  /** A turn keeps the invariant exactly when it does not run into a failing read of the keyboard. */
  lemma RoundKeepsInvExactlyWhen(w: World, r: Round)
    requires Inv(w)
    ensures Inv(AfterRound(w, r)) <==> !(KeyboardTurn(w, r) && r.stdin.StdinError?)
  {
    TurnParts(w, r);
    if w.status == Running && !r.timeout {
      SocketPart(w, r);
    }
    if KeyboardTurn(w, r) {
      StdinKeepsInv(AfterSocket(w, r), r);
    } else if WriteTurn(w, r) {
      WriteKeepsInv(AfterSocket(w, r), r.write);
    }
  }

  /**
   In every run in which no read of the keyboard fails: the bytes accepted are the bytes sent
   followed by the pending slice of the buffer, and every call of the trace was proper.
   */
  lemma {:induction false} RunsKeepInv(buffer: Chunk, rounds: seq<Round>, n: nat)
    requires |buffer| == BUFSIZZ && n <= |rounds|
    requires forall i :: 0 <= i < n ==>
               !(KeyboardTurn(AfterRounds(buffer, rounds, i), rounds[i]) && rounds[i].stdin.StdinError?)
    ensures Inv(AfterRounds(buffer, rounds, n))
  {
    if n > 0 {
      RunsKeepInv(buffer, rounds, n - 1);
      RoundKeepsInvExactlyWhen(AfterRounds(buffer, rounds, n - 1), rounds[n - 1]);
    }
  }

  // ---------- pending bytes get out ----------

  /** A turn in which a write of pending bytes is reached and takes some. */
  predicate Serves(w: World, r: Round) {
    WriteTurn(w, r) && r.write.Wrote?
  }

  /** As long as bytes are pending, the turns from m on serve them. */
  ghost predicate Served(buffer: Chunk, rounds: seq<Round>, m: nat) {
    && m <= |rounds| && Inv(AfterRounds(buffer, rounds, m))
    && m + AfterRounds(buffer, rounds, m).p.c2sl <= |rounds|
    && forall i :: m <= i < m + AfterRounds(buffer, rounds, m).p.c2sl && AfterRounds(buffer, rounds, i).p.c2sl > 0 ==>
         Serves(AfterRounds(buffer, rounds, i), rounds[i])
  }

  /** On the way from `start`: nothing new is accepted, and at most `left` bytes are pending. */
  ghost predicate Draining(start: World, w: World, left: int) {
    Inv(w) && Accepted(w.trace) == Accepted(start.trace) && w.p.c2sl <= left
  }

  lemma DrainsOn(start: World, w: World, r: Round, left: int)
    requires Draining(start, w, left) && Serves(w, r)
    ensures Draining(start, AfterRound(w, r), left - 1)
  {
    RoundKeepsInvExactlyWhen(w, r);
    PendingIsWritten(w, r);
  }

  lemma {:induction false} DrainsBy(buffer: Chunk, rounds: seq<Round>, m: nat, i: nat) returns (k: nat)
    requires Served(buffer, rounds, m) && m <= i <= m + AfterRounds(buffer, rounds, m).p.c2sl
    ensures m <= k <= i <= |rounds|
    ensures var (start, w) := (AfterRounds(buffer, rounds, m), AfterRounds(buffer, rounds, k));
            Draining(start, w, start.p.c2sl - (k - m)) && (w.p.c2sl == 0 || k == i)
  {
    k := i;
    if i > m {
      k := DrainsBy(buffer, rounds, m, i - 1);
      var start, w := AfterRounds(buffer, rounds, m), AfterRounds(buffer, rounds, k);
      if w.p.c2sl != 0 {
        DrainsOn(start, w, rounds[k], start.p.c2sl - (k - m));
        assert AfterRounds(buffer, rounds, i) == AfterRound(w, rounds[k]);
        k := i;
      }
    }
  }

  /**
   Pending bytes get out: if each of the next turns that finds bytes pending writes some of them, then
   after at most as many turns as there are bytes all that was accepted has been sent.
   */
  lemma PendingGetsOut(buffer: Chunk, rounds: seq<Round>, m: nat) returns (k: nat)
    requires Served(buffer, rounds, m)
    ensures m <= k <= m + AfterRounds(buffer, rounds, m).p.c2sl <= |rounds|
    ensures var (start, w) := (AfterRounds(buffer, rounds, m), AfterRounds(buffer, rounds, k));
            Sent(w.trace) == Accepted(w.trace) == Accepted(start.trace)
  {
    k := DrainsBy(buffer, rounds, m, m + AfterRounds(buffer, rounds, m).p.c2sl);
    AllSent(AfterRounds(buffer, rounds, k));
  }

  lemma AllSent(w: World)
    requires Inv(w) && w.p.c2sl == 0
    ensures Sent(w.trace) == Accepted(w.trace)
  {
    assert Slice(w.p.c2s, w.p.offset, 0) == [];
  }

  /** After a failing read of the keyboard the next writable socket gets a write of length -1. */
  lemma FailedReadIsWritten(w: World, failing: Round, next: Round)
    requires Inv(w) && KeyboardTurn(w, failing) && failing.stdin.StdinError?
    requires !failing.socketReadable && !next.socketReadable && !next.timeout && next.socketWritable
    ensures var t := AfterRound(AfterRound(w, failing), next).trace;
            t == Then(Then(w.trace, StdinRead(StdinError)), SslWrite(0, -1, [], 0, false))
  {
  }

  // ---------- the loop itself ----------

  /** Once the loop has ended nothing happens. */
  lemma {:induction false} OverRounds(buffer: Chunk, rounds: seq<Round>, k: nat)
    requires k <= |rounds|
    requires k < |rounds| ==> AfterRounds(buffer, rounds, k).status != Running
    ensures AfterRounds(buffer, rounds, |rounds|) == AfterRounds(buffer, rounds, k)
    decreases |rounds| - k
  {
    if k < |rounds| {
      assert AfterRounds(buffer, rounds, k + 1) == AfterRounds(buffer, rounds, k);
      OverRounds(buffer, rounds, k + 1);
    }
  }

  /** The local variables of `read_write`; `trace` records the calls made. */
  class Loop {
    const c2s: array<byte>
    var c2sl: int
    var offset: int
    var readBlockedOnWrite: bool
    var writeBlockedOnRead: bool
    var shutdownWait: bool
    var status: Status
    var trace: Trace

    ghost function State(): World
      reads this, c2s
    {
      World(Pump(c2s[..], c2sl, offset, readBlockedOnWrite, writeBlockedOnRead, shutdownWait), status, trace)
    }

    constructor ()
      ensures c2s.Length == BUFSIZZ && fresh(c2s) && State() == Initial(c2s[..])
    {
      c2s := new byte[BUFSIZZ];
      c2sl, offset := 0, 0;
      readBlockedOnWrite, writeBlockedOnRead, shutdownWait := false, false, false;
      status, trace := Running, Start;
    }

    /** The do loop around SSL_read. */
    method ReadSocket(rs: seq<ReadResult>)
      requires status == Running
      modifies this
      ensures State() == AfterReads(old(State()), rs)
    {
      var j, again := 0, true;
      while again
        invariant 0 <= j && (again ==> status == Running && (j == 0 || j < |rs|))
        invariant AfterReads(old(State()), rs)
               == if again then AfterReads(State(), if j < |rs| then rs[j..] else []) else State()
        decreases again, |rs| - j
      {
        ghost var w := State();
        readBlockedOnWrite := false;
        var readBlocked := false;
        var result := if j < |rs| then rs[j] else ReadWantsRead;
        trace := Then(trace, SslRead(result));
        match result {
          case Data(_) =>
          case ZeroReturn =>
            if !shutdownWait {
              trace := Then(trace, Shutdown);
            }
            status := Closed;
          case ReadWantsRead =>
            readBlocked := true;
          case ReadWantsWrite =>
            readBlockedOnWrite := true;
          case ReadError =>
            status := Failed;
        }
        assert State() == AfterRead(w, result);
        j := j + 1;
        again := status == Running && j < |rs| && !readBlocked;
      }
    }

    /** Input on the console. */
    method ReadKeyboard(r: Round)
      requires status == Running && c2s.Length == BUFSIZZ
      modifies this, c2s
      ensures State() == AfterStdin(old(State()), r)
    {
      trace := Then(trace, StdinRead(r.stdin));
      if r.stdin.StdinError? {
        c2sl := -1;
      } else {
        var b := Clip(r.stdin.bytes);
        forall i | 0 <= i < |b| {
          c2s[i] := b[i];
        }
        assert c2s[..] == Filled(old(c2s[..]), b);
        c2sl := |b|;
        if c2sl == 0 {
          shutdownWait := true;
          trace := Then(trace, Shutdown);
          if r.shutdownDone {
            status := Returned;
            return;
          }
        }
      }
      offset := 0;
    }

    /** One SSL_write. */
    method WriteSocket(result: WriteResult)
      requires status == Running
      modifies this
      ensures State() == AfterWrite(old(State()), result)
    {
      writeBlockedOnRead := false;
      var data := if 0 <= offset && 0 <= c2sl && offset + c2sl <= c2s.Length then c2s[offset..offset + c2sl] else [];
      if c2sl <= 0 || result.WriteError? {
        trace := Then(trace, SslWrite(offset, c2sl, data, 0, false));
        status := Failed;
      } else if result.Wrote? {
        var n := Taken(result.n, c2sl);
        trace := Then(trace, SslWrite(offset, c2sl, data, n, false));
        c2sl := c2sl - n;
        offset := offset + n;
      } else {
        trace := Then(trace, SslWrite(offset, c2sl, data, 0, true));
        writeBlockedOnRead := result.WriteWantsRead?;
      }
    }

    /** One turn: choose the descriptors, select, then serve them in this order. */
    method Turn(r: Round)
      requires status == Running && c2s.Length == BUFSIZZ
      modifies this, c2s
      ensures State() == AfterRound(old(State()), r)
    {
      var wantWritable, wantStdin := false, false;
      if !writeBlockedOnRead {
        if c2sl != 0 || readBlockedOnWrite {
          wantWritable := true;
        } else {
          wantStdin := true;
        }
      }
      if r.timeout {
        return;
      }
      var writable, stdinReady := wantWritable && r.socketWritable, wantStdin && r.stdinReadable;
      if (r.socketReadable && !writeBlockedOnRead) || (readBlockedOnWrite && writable) {
        ReadSocket(r.receipts);
        if status != Running {
          return;
        }
      }
      if stdinReady {
        ReadKeyboard(r);
        if status != Running {
          return;
        }
      }
      if (writable && c2sl != 0) || (writeBlockedOnRead && r.socketReadable) {
        WriteSocket(r.write);
      }
    }
  }

  /** `read_write`, for as many turns as the outside answers. */
  method ReadWrite(rounds: seq<Round>) returns (buffer: Chunk, status: Status, trace: Trace, pending: Chunk)
    ensures |buffer| == BUFSIZZ
    ensures var w := AfterRounds(buffer, rounds, |rounds|);
            status == w.status && trace == w.trace && pending == Slice(w.p.c2s, w.p.offset, w.p.c2sl)
  {
    var loop := new Loop();
    buffer := loop.c2s[..];
    var k := 0;
    while k < |rounds| && loop.status == Running
      invariant 0 <= k <= |rounds| && loop.c2s.Length == BUFSIZZ
      invariant fresh(loop) && fresh(loop.c2s)
      invariant loop.State() == AfterRounds(buffer, rounds, k)
      decreases |rounds| - k
    {
      loop.Turn(rounds[k]);
      k := k + 1;
    }
    OverRounds(buffer, rounds, k);
    status, trace := loop.status, loop.trace;
    pending := Slice(loop.c2s[..], loop.offset, loop.c2sl);
  }
}
