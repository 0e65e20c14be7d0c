/** Control messages: how they are framed, and what the receiver makes of a byte stream that
    arrives in pieces. */
module ControlProtocol {
  import opened Wrappers

  newtype byte = x: int | 0 <= x < 256

  const TWO_32 := 0x1_0000_0000

  /** The largest body the receiver takes. */
  const LIMIT := 1024 * 1024

  datatype Message = Reboot | PowerOff | SetRunLevel(name: seq<byte>)

  // ---- Bytes -----------------------------------------------------------------------------

  /** The four bytes of a `uint32_t` in the order of the machine, which both ends run on. */
  function U32(n: nat): (s: seq<byte>)
    requires n < TWO_32
    ensures |s| == 4
  {
    var n1 := n / 0x100;
    var n2 := n1 / 0x100;
    var n3 := n2 / 0x100;
    [(n % 0x100) as byte, (n1 % 0x100) as byte, (n2 % 0x100) as byte, n3 as byte]
  }

  function U32At(b: seq<byte>, p: nat): (n: nat)
    requires p + 4 <= |b|
    ensures n < TWO_32
  {
    b[p] as int + b[p + 1] as int * 0x100 + b[p + 2] as int * 0x1_0000 + b[p + 3] as int * 0x100_0000
  }

  lemma U32RoundTrip(n: nat, b: seq<byte>, p: nat)
    requires n < TWO_32 && p + 4 <= |b| && b[p..p + 4] == U32(n)
    ensures U32At(b, p) == n
  {
    var s := b[p..p + 4];
    assert s[0] == b[p] && s[1] == b[p + 1] && s[2] == b[p + 2] && s[3] == b[p + 3];
  }

  class OutputStream {
    var buffer: seq<byte>

    constructor ()
      ensures buffer == []
    {
      buffer := [];
    }

    method Write(data: seq<byte>)
      modifies this
      ensures buffer == old(buffer) + data
    {
      var i := 0;
      while i != |data|
        invariant 0 <= i <= |data| && buffer == old(buffer) + data[..i]
      {
        assert data[..i] + [data[i]] == data[..i + 1];
        buffer := buffer + [data[i]];
        i := i + 1;
      }
      assert data[..|data|] == data;
    }
  }

  class InputStream {
    const data: seq<byte>
    var pos: nat

    ghost predicate Valid()
      reads this
    {
      pos <= |data|
    }

    constructor (data: seq<byte>)
      ensures Valid() && this.data == data && pos == 0
    {
      this.data := data;
      pos := 0;
    }

    function Left(): nat
      reads this
      requires Valid()
    {
      |data| - pos
    }

    /** Fails, without moving, when fewer than `size` bytes are left. */
    method Read(size: nat) returns (r: Option<seq<byte>>)
      requires Valid()
      modifies this
      ensures Valid() && (r.None? <==> old(Left()) < size)
      ensures r.None? ==> pos == old(pos)
      ensures r.Some? ==> pos == old(pos) + size && r.value == data[old(pos)..pos]
    {
      var avail := Left();
      if avail < size {
        return None;
      }
      r := Some(data[pos..pos + size]);
      pos := pos + size;
    }

    method ReadU32() returns (r: Option<nat>)
      requires Valid()
      modifies this
      ensures Valid() && (r.None? <==> old(Left()) < 4)
      ensures r.None? ==> pos == old(pos)
      ensures r.Some? ==> pos == old(pos) + 4 && r.value == U32At(data, old(pos))
    {
      var s := Read(4);
      if s.None? {
        return None;
      }
      assert s.value[0] == data[old(pos)] && s.value[3] == data[old(pos) + 3];
      r := Some(U32At(s.value, 0));
    }
  }

  // ---- Frames ----------------------------------------------------------------------------

  function Id(m: Message): nat {
    match m case Reboot => 1 case PowerOff => 2 case SetRunLevel(_) => 3
  }

  /** An empty structure takes up one byte. */
  function Measure(m: Message): nat {
    match m case SetRunLevel(name) => 4 + |name| case _ => 1
  }

  /** The length of a name is written in 32 bits. */
  predicate Fits(m: Message) { m.SetRunLevel? ==> |m.name| < TWO_32 }

  /** A message as it is sent: the byte an empty structure takes up has any value. */
  datatype Sent = Sent(message: Message, pad: byte)

  function Header(m: Message): (s: seq<byte>)
    ensures |s| == 8
  {
    U32(Measure(m) % TWO_32) + U32(Id(m))
  }

  function Payload(s: Sent): (b: seq<byte>)
    requires Fits(s.message)
    ensures |b| == Measure(s.message)
  {
    match s.message
    case SetRunLevel(name) => U32(|name|) + name
    case _ => [s.pad]
  }

  function Frame(s: Sent): (b: seq<byte>)
    requires Fits(s.message)
    ensures |b| == 8 + Measure(s.message)
  {
    Header(s.message) + Payload(s)
  }

  /** Fails for a name too long to write, when the header is in the stream already. */
  method Serialize(stream: OutputStream, s: Sent) returns (ok: bool)
    modifies stream
    ensures ok <==> Fits(s.message)
    ensures stream.buffer == old(stream.buffer) + if ok then Frame(s) else Header(s.message)
  {
    hide U32;
    stream.Write(U32(Measure(s.message) % TWO_32));
    stream.Write(U32(Id(s.message)));
    assert stream.buffer == old(stream.buffer) + Header(s.message);
    hide Header;
    match s.message {
      case SetRunLevel(name) =>
        var size32 := |name| % TWO_32;
        if size32 != |name| {
          return false;
        }
        stream.Write(U32(size32));
        stream.Write(name);
      case _ =>
        stream.Write([s.pad]);
    }
    ok := true;
  }

  // ---- The receiver ----------------------------------------------------------------------

  /** What the receiver decides when it looks at its buffer. `Drop` is an exception, after
      which the connection is closed. */
  datatype Decision = Wait | Drop | Dispatch(message: Message)

  function Examine(b: seq<byte>): Decision {
    if |b| < 8 then Wait
    else if U32At(b, 0) > LIMIT then Drop
    else if |b| - 8 < U32At(b, 0) then Wait
    else if U32At(b, 4) == 1 then if |b| == 9 then Dispatch(Reboot) else Drop
    else if U32At(b, 4) == 2 then if |b| == 9 then Dispatch(PowerOff) else Drop
    else if U32At(b, 4) == 3 then
      if |b| >= 12 && |b| == 12 + U32At(b, 8) then Dispatch(SetRunLevel(b[12..])) else Drop
    else Drop
  }

  /** The calls made on the state context, and whether the connection is still there. */
  datatype State = State(buffer: seq<byte>, connected: bool, calls: seq<Message>)

  const START := State([], true, [])

  /** A call fails when it asks for a run level that is not known. */
  predicate Accepted(known: set<seq<byte>>, m: Message) { m.SetRunLevel? ==> m.name in known }

  function Receive(known: set<seq<byte>>, s: State, chunk: seq<byte>): State {
    if !s.connected then s
    else
      var b := s.buffer + chunk;
      match Examine(b)
      case Wait => s.(buffer := b)
      case Drop => State(b, false, s.calls)
      case Dispatch(m) =>
        if Accepted(known, m) then State([], true, s.calls + [m]) else State(b, false, s.calls + [m])
  }

  function ReceiveAll(known: set<seq<byte>>, s: State, chunks: seq<seq<byte>>): State
    decreases |chunks|
  {
    if chunks == [] then s else ReceiveAll(known, Receive(known, s, chunks[0]), chunks[1..])
  }

  /** The part of the supervisor the messages act on; it keeps the calls it gets. */
  class StateContext {
    const known: set<seq<byte>>
    var calls: seq<Message>

    constructor (known: set<seq<byte>>)
      ensures this.known == known && calls == []
    {
      this.known := known;
      calls := [];
    }

    method Call(m: Message) returns (ok: bool)
      modifies this
      ensures calls == old(calls) + [m] && ok == Accepted(known, m)
    {
      calls := calls + [m];
      ok := m.SetRunLevel? ==> m.name in known;
    }
  }

  class Connection {
    const ctx: StateContext
    var buffer: seq<byte>
    var connected: bool

    ghost function View(): State
      reads this, ctx
    {
      State(buffer, connected, ctx.calls)
    }

    constructor (ctx: StateContext)
      ensures this.ctx == ctx && View() == State([], true, ctx.calls)
    {
      this.ctx := ctx;
      buffer := [];
      connected := true;
    }

    /** Bytes have arrived on a connection. */
    method OnRead(chunk: seq<byte>)
      requires connected
      modifies this, ctx
      ensures View() == Receive(ctx.known, old(View()), chunk)
    {
      buffer := buffer + chunk;
      var ok := OnReady();
      if !ok {
        connected := false;
      }
    }

    /** The callback; it fails where the program throws. */
    method OnReady() returns (ok: bool)
      modifies this`buffer, ctx
      ensures match Examine(old(buffer))
        case Wait => ok && buffer == old(buffer) && ctx.calls == old(ctx.calls)
        case Drop => !ok && buffer == old(buffer) && ctx.calls == old(ctx.calls)
        case Dispatch(m) =>
          && ctx.calls == old(ctx.calls) + [m] && ok == Accepted(ctx.known, m)
          && buffer == if ok then [] else old(buffer)
    {
      if |buffer| < 2 * 4 {
        return true;
      }
      var s := new InputStream(buffer);
      var size := s.ReadU32();
      if size.value > LIMIT {
        return false;
      }
      var id := s.ReadU32();
      if s.Left() < size.value {
        return true;
      }
      var m := ReadMessage(s, id.value);
      if m.None? {
        return false;
      }
      ok := ctx.Call(m.value);
      if ok {
        buffer := [];
      }
    }
  }

  /** Reads the body of a message and expects nothing behind it. */
  method ReadMessage(s: InputStream, id: nat) returns (m: Option<Message>)
    requires s.Valid() && s.pos == 8
    modifies s
    ensures m ==
      if id == 1 && |s.data| == 9 then Some(Reboot)
      else if id == 2 && |s.data| == 9 then Some(PowerOff)
      else if id == 3 && |s.data| >= 12 && |s.data| == 12 + U32At(s.data, 8) then Some(SetRunLevel(s.data[12..]))
      else None
  {
    var message;
    if id == 1 || id == 2 {
      var pad := s.Read(1);
      if pad.None? {
        return None;
      }
      message := if id == 1 then Reboot else PowerOff;
    } else if id == 3 {
      var size := s.ReadU32();
      if size.None? {
        return None;
      }
      var name := s.Read(size.value);
      if name.None? {
        return None;
      }
      assert s.pos == |s.data| ==> name.value == s.data[12..];
      message := SetRunLevel(name.value);
    } else {
      return None;
    }
    if s.pos != |s.data| {
      return None;
    }
    m := Some(message);
  }
}
