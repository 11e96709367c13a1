/**
 * WebSocket sends, batched (apps/VoteTorrentAuthority/polyfills/websocket-batching.js).
 *
 * Binary sends wait until a microtask and go out joined; a text send or a close sends what is waiting first.
 * The reference is plain sending, where every call goes straight to the native socket.
 */
module Batching {
  import opened CodeUnits

  type Socket = nat
  type Byte = b: int | 0 <= b < 0x100
  type Bytes = seq<Byte>

  /** What a native socket is told. `Other` is any send that is neither bytes nor a string, such as a Blob. */
  datatype Call = Binary(bytes: Bytes) | Text(text: CodeUnits.Text) | Other(id: int) | Close

  /** One unit of the stream a socket carries: message boundaries between bytes are not part of it. */
  datatype Item = Octet(b: Byte) | Mark(call: Call)

  function Octets(bytes: Bytes): (items: seq<Item>)
    ensures |items| == |bytes| && forall i :: 0 <= i < |bytes| ==> items[i] == Octet(bytes[i])
  {
    seq(|bytes|, i requires 0 <= i < |bytes| => Octet(bytes[i]))
  }

  function Spell(calls: seq<Call>): seq<Item> {
    if calls == [] then []
    else Spell(calls[..|calls| - 1]) + SpellOne(calls[|calls| - 1])
  }

  function SpellOne(c: Call): seq<Item> {
    if c.Binary? then Octets(c.bytes) else [Mark(c)]
  }

  function Concat(parts: seq<Bytes>): Bytes {
    if parts == [] then [] else Concat(parts[..|parts| - 1]) + parts[|parts| - 1]
  }

  // ---------------------------------------------------------------- plain and batched sending, as runs

  /** What happens on the JavaScript thread: a call on a socket, or the next microtask of this module. */
  datatype Cmd = Do(ws: Socket, call: Call) | Microtask

  /** `waiting` is the WeakMap of parts, `jobs` the queued flushes, `native` what each socket was told. */
  datatype State = State(waiting: map<Socket, seq<Bytes>>, jobs: seq<Socket>, native: map<Socket, seq<Call>>)

  const START := State(map[], [], map[])

  function Told(native: map<Socket, seq<Call>>, ws: Socket): seq<Call> {
    if ws in native then native[ws] else []
  }

  function Parts(waiting: map<Socket, seq<Bytes>>, ws: Socket): seq<Bytes> {
    if ws in waiting then waiting[ws] else []
  }

  function Tell(st: State, ws: Socket, c: Call): State {
    st.(native := st.native[ws := Told(st.native, ws) + [c]])
  }

  function Flushed(st: State, ws: Socket): State {
    if ws !in st.waiting then st
    else Tell(st.(waiting := st.waiting - {ws}), ws, Binary(Concat(st.waiting[ws])))
  }

  function Step(st: State, cmd: Cmd): State {
    match cmd
    case Microtask => if st.jobs == [] then st else Flushed(st.(jobs := st.jobs[1..]), st.jobs[0])
    case Do(ws, c) =>
      if !c.Binary? then Tell(Flushed(st, ws), ws, c)
      else
        var queued := if ws in st.waiting then st else st.(jobs := st.jobs + [ws]);
        queued.(waiting := queued.waiting[ws := Parts(st.waiting, ws) + [c.bytes]])
  }

  function Run(st: State, cmds: seq<Cmd>): State {
    if cmds == [] then st else Step(Run(st, cmds[..|cmds| - 1]), cmds[|cmds| - 1])
  }

  /** What plain sending tells `ws`: every call made on it, each on its own. */
  function Plain(cmds: seq<Cmd>, ws: Socket): seq<Call> {
    if cmds == [] then []
    else
      var last := cmds[|cmds| - 1];
      Plain(cmds[..|cmds| - 1], ws) + if last.Do? && last.ws == ws then [last.call] else []
  }

  // ---------------------------------------------------------------- what every step keeps

  /** A waiting batch is not empty and has a flush queued. */
  ghost predicate Pending(st: State) {
    forall ws <- st.waiting :: st.waiting[ws] != [] && ws in st.jobs
  }

  /** `asked` is what plain sending would have told `ws` so far. */
  ghost predicate Refines(st: State, ws: Socket, asked: seq<Call>) {
    var parts := Parts(st.waiting, ws);
    && Spell(Told(st.native, ws)) + Octets(Concat(parts)) == Spell(asked)
    && |Told(st.native, ws)| + |parts| <= |asked|
  }

  lemma SpellSnoc(calls: seq<Call>, c: Call)
    ensures Spell(calls + [c]) == Spell(calls) + SpellOne(c)
  {
    assert (calls + [c])[..|calls|] == calls;
  }

  lemma ConcatSnoc(parts: seq<Bytes>, p: Bytes)
    ensures Concat(parts + [p]) == Concat(parts) + p
    ensures Octets(Concat(parts) + p) == Octets(Concat(parts)) + Octets(p)
  {
    assert (parts + [p])[..|parts|] == parts;
  }

  lemma FlushKeeps(st: State, ws: Socket, other: Socket, asked: seq<Call>)
    requires Pending(st) && Refines(st, other, asked)
    ensures Refines(Flushed(st, ws), other, asked) && ws !in Flushed(st, ws).waiting
    ensures forall s <- Flushed(st, ws).waiting :: s in st.waiting && Flushed(st, ws).waiting[s] == st.waiting[s]
  {
    if ws in st.waiting && ws == other {
      SpellSnoc(Told(st.native, ws), Binary(Concat(st.waiting[ws])));
    }
  }

  lemma TellKeeps(st: State, ws: Socket, c: Call, other: Socket, asked: seq<Call>)
    requires !c.Binary? && ws !in st.waiting && Refines(st, other, asked)
    ensures Refines(Tell(st, ws, c), other, asked + if ws == other then [c] else [])
  {
    if ws == other {
      SpellSnoc(Told(st.native, ws), c);
      SpellSnoc(asked, c);
    } else {
      assert asked + [] == asked;
    }
  }

  lemma StepPending(st: State, cmd: Cmd)
    requires Pending(st)
    ensures Pending(Step(st, cmd))
  {
    hide Concat;
    if cmd.Microtask? && st.jobs != [] {
      var next := Flushed(st.(jobs := st.jobs[1..]), st.jobs[0]);
      forall ws <- next.waiting ensures next.waiting[ws] != [] && ws in next.jobs {
        assert ws in st.jobs && ws != st.jobs[0];
      }
    }
  }

  lemma FlushIgnoresJobs(st: State, jobs: seq<Socket>, ws: Socket, other: Socket, asked: seq<Call>)
    requires Refines(Flushed(st, ws), other, asked)
    ensures Refines(Flushed(st.(jobs := jobs), ws), other, asked)
  {}

  lemma WaitKeeps(st: State, jobs: seq<Socket>, ws: Socket, bytes: Bytes, other: Socket, asked: seq<Call>)
    requires Refines(st, other, asked)
    ensures var next := State(st.waiting[ws := Parts(st.waiting, ws) + [bytes]], jobs, st.native);
      Refines(next, other, asked + if ws == other then [Binary(bytes)] else [])
  {
    hide Spell, Concat;
    if ws == other {
      ConcatSnoc(Parts(st.waiting, ws), bytes);
      SpellSnoc(asked, Binary(bytes));
    } else {
      assert asked + [] == asked;
    }
  }

  lemma StepRefines(st: State, cmd: Cmd, ws: Socket, asked: seq<Call>)
    requires Pending(st) && Refines(st, ws, asked)
    ensures Refines(Step(st, cmd), ws, asked + if cmd.Do? && cmd.ws == ws then [cmd.call] else [])
  {
    hide Refines, Tell, Flushed, Spell, Concat;
    assert asked + [] == asked;
    match cmd
    case Microtask =>
      if st.jobs != [] {
        FlushKeeps(st, st.jobs[0], ws, asked);
        FlushIgnoresJobs(st, st.jobs[1..], st.jobs[0], ws, asked);
      }
    case Do(to, c) =>
      if !c.Binary? {
        FlushKeeps(st, to, ws, asked);
        TellKeeps(Flushed(st, to), to, c, ws, asked);
      } else {
        WaitKeeps(st, if to in st.waiting then st.jobs else st.jobs + [to], to, c.bytes, ws, asked);
      }
  }

  lemma {:induction false} RunPending(cmds: seq<Cmd>)
    ensures Pending(Run(START, cmds))
  {
    if cmds != [] {
      RunPending(cmds[..|cmds| - 1]);
      StepPending(Run(START, cmds[..|cmds| - 1]), cmds[|cmds| - 1]);
    }
  }

  /**
   * Batching refines plain sending: after any run, what a socket was told followed by its waiting parts spells
   * exactly the bytes and other calls made on it, in order, and the socket was never told more often than asked.
   */
  lemma {:induction false} BatchingRefinesPlain(cmds: seq<Cmd>, ws: Socket)
    ensures Refines(Run(START, cmds), ws, Plain(cmds, ws))
  {
    if cmds != [] {
      var before := cmds[..|cmds| - 1];
      BatchingRefinesPlain(before, ws);
      RunPending(before);
      StepRefines(Run(START, before), cmds[|cmds| - 1], ws, Plain(before, ws));
    }
  }

  /** Once no flush is queued nothing is waiting and every socket was told the whole plain stream. */
  lemma QuietMeansDelivered(cmds: seq<Cmd>, ws: Socket)
    requires Run(START, cmds).jobs == []
    ensures Run(START, cmds).waiting == map[]
    ensures Spell(Told(Run(START, cmds).native, ws)) == Spell(Plain(cmds, ws))
  {
    hide Run, Plain, Spell;
    var st := Run(START, cmds);
    RunPending(cmds);
    BatchingRefinesPlain(cmds, ws);
    assert st.waiting.Keys == {};
    assert Octets(Concat(Parts(st.waiting, ws))) == [];
  }

  /** Right after a text send or a close the socket was told everything, that call last and on its own. */
  lemma OtherCallsFlush(cmds: seq<Cmd>, ws: Socket, c: Call)
    requires !c.Binary?
    ensures var st := Run(START, cmds + [Do(ws, c)]);
      && ws !in st.waiting
      && Told(st.native, ws) != [] && Told(st.native, ws)[|Told(st.native, ws)| - 1] == c
      && Spell(Told(st.native, ws)) == Spell(Plain(cmds, ws)) + [Mark(c)]
  {
    hide Spell, Refines;
    var all := cmds + [Do(ws, c)];
    assert all[..|all| - 1] == cmds;
    BatchingRefinesPlain(all, ws);
    RefinesWithNothingWaiting(Run(START, all), ws, Plain(all, ws));
    SpellSnoc(Plain(cmds, ws), c);
  }

  lemma RefinesWithNothingWaiting(st: State, ws: Socket, asked: seq<Call>)
    requires Refines(st, ws, asked) && ws !in st.waiting
    ensures Spell(Told(st.native, ws)) == Spell(asked)
  {
    assert Octets(Concat([])) == [];
  }

  // ---------------------------------------------------------------- one message per turn

  /** The binary sends of a turn to `ws`. */
  function SentTo(turn: seq<(Socket, Bytes)>, ws: Socket): seq<Bytes> {
    if turn == [] then []
    else
      var last := turn[|turn| - 1];
      SentTo(turn[..|turn| - 1], ws) + if last.0 == ws then [last.1] else []
  }

  function Turn(turn: seq<(Socket, Bytes)>): seq<Cmd> {
    seq(|turn|, i requires 0 <= i < |turn| => Do(turn[i].0, Binary(turn[i].1)))
  }

  function Drain(st: State): State
    decreases |st.jobs|
  {
    if st.jobs == [] then st else Drain(Step(st, Microtask))
  }

  lemma {:induction false} TurnWaits(st: State, turn: seq<(Socket, Bytes)>, ws: Socket)
    requires Pending(st) && st.waiting == map[]
    ensures Pending(Run(st, Turn(turn))) && Run(st, Turn(turn)).native == st.native
    ensures Parts(Run(st, Turn(turn)).waiting, ws) == SentTo(turn, ws)
  {
    hide Concat;
    if turn != [] {
      var before := turn[..|turn| - 1];
      TurnWaits(st, before, ws);
      assert Turn(turn)[..|turn| - 1] == Turn(before);
      StepPending(Run(st, Turn(before)), Turn(turn)[|turn| - 1]);
    }
  }

  lemma {:induction false} DrainTells(st: State, ws: Socket)
    requires Pending(st)
    ensures Drain(st).waiting == map[] && Drain(st).jobs == []
    ensures Told(Drain(st).native, ws)
         == Told(st.native, ws) + if ws in st.waiting then [Binary(Concat(st.waiting[ws]))] else []
    decreases |st.jobs|
  {
    hide Concat;
    if st.jobs == [] {
      assert st.waiting.Keys == {};
    } else {
      StepPending(st, Microtask);
      DrainTells(Step(st, Microtask), ws);
    }
  }

  /**
   * The binary sends made in one turn go to native code as one message per socket: their bytes, in order. A
   * socket not sent to is told nothing.
   */
  lemma OneMessagePerTurn(st: State, turn: seq<(Socket, Bytes)>, ws: Socket)
    requires Pending(st) && st.jobs == []
    ensures Told(Drain(Run(st, Turn(turn))).native, ws)
         == Told(st.native, ws) + if SentTo(turn, ws) == [] then [] else [Binary(Concat(SentTo(turn, ws)))]
  {
    hide Concat, Drain, Run, SentTo;
    assert st.waiting.Keys == {};
    TurnWaits(st, turn, ws);
    DrainTells(Run(st, Turn(turn)), ws);
  }

  // ---------------------------------------------------------------- the wrapped socket class

  /** The argument of `send`: a buffer, a view of part of one, or anything else. */
  datatype Data = Whole(buffer: array<Byte>) | View(buffer: array<Byte>, offset: nat, length: nat) | NotBytes(call: Call)

  /** A view lies inside its buffer. */
  predicate Proper(data: Data)
    reads if data.NotBytes? then {} else {data.buffer}
  {
    match data
    case Whole(_) => true
    case View(buffer, offset, length) => offset + length <= buffer.Length
    case NotBytes(call) => call.Text? || call.Other?
  }

  /** The call `send(data)` stands for, with the bytes of `data` as they are now. */
  function Meaning(data: Data): (c: Call)
    requires Proper(data)
    reads if data.NotBytes? then {} else {data.buffer}
    ensures data.NotBytes? ==> c == data.call
    ensures data.Whole? ==>
      && c.Binary? && |c.bytes| == data.buffer.Length
      && forall i :: 0 <= i < |c.bytes| ==> c.bytes[i] == data.buffer[i]
    ensures data.View? ==>
      && c.Binary? && |c.bytes| == data.length
      && forall i :: 0 <= i < |c.bytes| ==> c.bytes[i] == data.buffer[data.offset + i]
  {
    match data
    case Whole(buffer) => Binary(buffer[..])
    case View(buffer, offset, length) => Binary(buffer[offset..offset + length])
    case NotBytes(call) => call
  }

  /** The size reported for a native send: bytes, code units, or 0 when there is no length. */
  function SizeOf(c: Call): nat {
    match c
    case Binary(bytes) => |bytes|
    case Text(text) => |text|
    case _ => 0
  }

  /** What `onNativeSend` is told during one command: the size of each message that goes out. */
  function Reports(st: State, cmd: Cmd): seq<nat> {
    match cmd
    case Microtask => if st.jobs == [] then [] else FlushReports(st, st.jobs[0])
    case Do(ws, c) =>
      if c.Binary? then []
      else FlushReports(st, ws) + if c.Close? then [] else [SizeOf(c)]
  }

  function FlushReports(st: State, ws: Socket): seq<nat> {
    if ws in st.waiting then [|Concat(st.waiting[ws])|] else []
  }

  /** What is reported is the size of each message that goes out, and nothing else. */
  lemma ReportsAre(st: State, ws: Socket, c: Call)
    ensures c.Binary? ==> Reports(st, Do(ws, c)) == []
    ensures ws !in st.waiting && c.Text? ==> Reports(st, Do(ws, c)) == [|c.text|]
    ensures ws !in st.waiting && c.Other? ==> Reports(st, Do(ws, c)) == [0]
    ensures ws !in st.waiting && c.Close? ==> Reports(st, Do(ws, c)) == []
    ensures ws in st.waiting && !c.Binary? ==>
      Reports(st, Do(ws, c)) == [|Concat(st.waiting[ws])|] + Reports(st.(waiting := st.waiting - {ws}), Do(ws, c))
    ensures st.jobs != [] ==>
      Reports(st, Microtask) == if st.jobs[0] in st.waiting then [|Concat(st.waiting[st.jobs[0]])|] else []
  {
    hide Concat;
  }

  method Join(parts: seq<array<Byte>>, ghost values: seq<Bytes>) returns (joined: array<Byte>)
    requires |parts| == |values| && forall i :: 0 <= i < |parts| ==> parts[i][..] == values[i]
    ensures fresh(joined) && joined[..] == Concat(values)
  {
    hide Concat;
    var size := 0;
    NothingToConcat();
    assert values[..0] == [];
    for i := 0 to |parts|
      invariant size == |Concat(values[..i])|
    {
      ConcatSnoc(values[..i], values[i]);
      assert values[..i + 1] == values[..i] + [values[i]];
      size := size + parts[i].Length;
    }
    assert values[..|parts|] == values;
    joined := new Byte[size];
    var at := 0;
    for i := 0 to |parts|
      invariant at == |Concat(values[..i])| <= joined.Length
      invariant joined[..at] == Concat(values[..i])
    {
      ConcatSnoc(values[..i], values[i]);
      assert values[..i + 1] == values[..i] + [values[i]];
      var p := parts[i];
      ConcatPrefix(values, i + 1);
      forall k | 0 <= k < p.Length {
        joined[at + k] := p[k];
      }
      at := at + p.Length;
      assert joined[..at] == Concat(values[..i]) + values[i];
    }
  }

  lemma NothingToConcat()
    ensures Concat([]) == []
  {}

  lemma {:induction false} ConcatPrefix(values: seq<Bytes>, n: nat)
    requires n <= |values|
    ensures |Concat(values[..n])| <= |Concat(values)|
    decreases |values| - n
  {
    if n == |values| {
      assert values[..n] == values;
    } else {
      ConcatPrefix(values, n + 1);
      assert values[..n + 1][..n] == values[..n];
    }
  }

  class Sockets {
    const reporting: bool                                 // whether `onNativeSend` was given
    var waiting: map<Socket, seq<array<Byte>>>
    var jobs: seq<Socket>
    var native: map<Socket, seq<Call>>
    var reported: seq<nat>                                // the sizes `onNativeSend` was told
    ghost var values: map<Socket, seq<Bytes>>             // the bytes of the waiting parts
    ghost var copies: set<array<Byte>>                    // the buffers `send` allocated

    ghost predicate Valid()
      reads `waiting, `values, `copies, copies
    {
      waiting.Keys == values.Keys && forall ws <- waiting :: Holds(waiting[ws], values[ws])
    }

    ghost predicate Holds(parts: seq<array<Byte>>, bytes: seq<Bytes>)
      reads `copies, copies
    {
      |parts| == |bytes| && forall i :: 0 <= i < |parts| ==> parts[i] in copies && parts[i][..] == bytes[i]
    }

    ghost function Model(): State
      reads this
    {
      State(values, jobs, native)
    }

    constructor (reporting: bool)
      ensures Valid() && Model() == START && reported == [] && copies == {} && this.reporting == reporting
    {
      this.reporting := reporting;
      waiting, jobs, native, reported, values, copies := map[], [], map[], [], map[], {};
    }

    method NativeSend(ws: Socket, c: Call)
      modifies `native, `reported
      ensures native == old(Tell(Model(), ws, c)).native
      ensures reported == old(reported) + if reporting then [SizeOf(c)] else []
    {
      if reporting { reported := reported + [SizeOf(c)]; }
      native := native[ws := Told(native, ws) + [c]];
    }

    method Flush(ws: Socket)
      requires Valid() && (ws in waiting ==> waiting[ws] != [])
      modifies this
      ensures Valid() && Model() == old(Flushed(Model(), ws)) && copies == old(copies)
      ensures reported == old(reported) + if reporting then old(FlushReports(Model(), ws)) else []
    {
      if ws !in waiting { return; }
      var parts := waiting[ws];
      ghost var bytes := values[ws];
      waiting, values := waiting - {ws}, values - {ws};
      if |parts| == 1 {
        assert bytes[..0] == [] && Concat(bytes) == bytes[0];
        NativeSend(ws, Binary(parts[0][..]));
        return;
      }
      var joined := Join(parts, bytes);
      NativeSend(ws, Binary(joined[..]));
    }

    method Send(ws: Socket, data: Data)
      requires Valid() && Proper(data) && Pending(Model())
      modifies this
      ensures Valid() && fresh(copies - old(copies)) && old(copies) <= copies
      ensures Model() == old(Step(Model(), Do(ws, Meaning(data))))
      ensures reported == old(reported) + if reporting then old(Reports(Model(), Do(ws, Meaning(data)))) else []
      ensures Pending(Model())
    {
      hide Concat, Flushed;
      StepPending(Model(), Do(ws, Meaning(data)));
      if data.NotBytes? {
        Flush(ws);
        NativeSend(ws, data.call);
        return;
      }
      var bytes := Copy(data);
      Push(ws, bytes);
    }

    method Push(ws: Socket, bytes: array<Byte>)
      requires Valid()
      modifies this
      ensures Valid() && copies == old(copies) + {bytes}
      ensures Model() == old(Step(Model(), Do(ws, Binary(bytes[..])))) && reported == old(reported)
    {
      hide Concat, Tell, Flushed;
      var parts := [];
      if ws in waiting {
        parts := waiting[ws];
      } else {
        jobs := jobs + [ws];
      }
      copies := copies + {bytes};
      values := values[ws := Parts(values, ws) + [bytes[..]]];
      waiting := waiting[ws := parts + [bytes]];
    }

    /** The copy that lets the caller reuse its buffer. */
    method Copy(data: Data) returns (bytes: array<Byte>)
      requires !data.NotBytes? && Proper(data)
      ensures fresh(bytes) && Binary(bytes[..]) == Meaning(data)
      ensures data.View? ==>
        && bytes.Length == data.length
        && forall i :: 0 <= i < bytes.Length ==> bytes[i] == data.buffer[data.offset + i]
    {
      var buffer := data.buffer;
      var from, n := 0, buffer.Length;
      if data.View? { from, n := data.offset, data.length; }
      bytes := new Byte[n](i requires 0 <= i < n && from + n <= buffer.Length reads buffer => buffer[from + i]);
      assert bytes[..] == buffer[from..from + n];
    }

    method CloseSocket(ws: Socket)
      requires Valid() && Pending(Model())
      modifies this
      ensures Valid() && copies == old(copies) && Pending(Model())
      ensures Model() == old(Step(Model(), Do(ws, Close))) && ws !in waiting
      ensures reported == old(reported) + if reporting then old(Reports(Model(), Do(ws, Close))) else []
    {
      StepPending(Model(), Do(ws, Close));
      Flush(ws);
      native := native[ws := Told(native, ws) + [Close]];
    }

    /** The engine takes the oldest queued flush. */
    method RunMicrotask()
      requires Valid() && Pending(Model()) && jobs != []
      modifies this
      ensures Valid() && copies == old(copies) && Pending(Model())
      ensures Model() == old(Step(Model(), Microtask))
      ensures reported == old(reported) + if reporting then old(Reports(Model(), Microtask)) else []
    {
      StepPending(Model(), Microtask);
      var ws := jobs[0];
      jobs := jobs[1..];
      Flush(ws);
    }

    /** The end of a turn: the engine runs every queued flush. */
    method EndTurn()
      requires Valid() && Pending(Model())
      modifies this
      ensures Valid() && copies == old(copies) && Model() == old(Drain(Model()))
      ensures waiting == map[] && jobs == []
    {
      ghost var start := Model();
      DrainTells(start, 0);
      while jobs != []
        invariant Valid() && Pending(Model()) && copies == old(copies)
        invariant Drain(Model()) == Drain(start)
        decreases |jobs|
      {
        RunMicrotask();
      }
      assert waiting.Keys == {};
    }

    /** Writes to any buffer but the copies, such as a caller reusing its own, change nothing that is waiting. */
    twostate lemma CallersMayReuseBuffers()
      requires old(Valid()) && unchanged(this) && forall c <- copies :: unchanged(c)
      ensures Valid() && Model() == old(Model())
    {}
  }
}
