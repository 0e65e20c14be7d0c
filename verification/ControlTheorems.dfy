/** What comes out of a byte stream of control messages, however it is cut into chunks.

    The receiver empties its buffer after each message and throws when bytes are left behind
    one. So it delivers a stream of messages exactly when no chunk holds bytes of two of them;
    and for every other way to cut the stream it delivers a prefix and then closes. */
module ControlTheorems {
  import opened ControlProtocol

  // ---- Streams ---------------------------------------------------------------------------

  /** A message the receiver takes. */
  predicate InLimit(s: Sent) { Measure(s.message) <= LIMIT }

  function Frames(sent: seq<Sent>): seq<byte>
    requires forall i :: 0 <= i < |sent| ==> InLimit(sent[i])
  {
    if sent == [] then [] else assert InLimit(sent[0]); Frame(sent[0]) + Frames(sent[1..])
  }

  function Messages(sent: seq<Sent>): (ms: seq<Message>)
    ensures |ms| == |sent|
  {
    if sent == [] then [] else [sent[0].message] + Messages(sent[1..])
  }

  function Flatten(chunks: seq<seq<byte>>): seq<byte> {
    if chunks == [] then [] else chunks[0] + Flatten(chunks[1..])
  }

  /** The chunks are cut at offset `x` of the stream. */
  ghost predicate IsCut(chunks: seq<seq<byte>>, x: nat) {
    exists j :: 0 <= j <= |chunks| && CutAfter(chunks, j, x)
  }

  predicate CutAfter(chunks: seq<seq<byte>>, j: nat, x: nat)
    requires j <= |chunks|
  {
    |Flatten(chunks[..j])| == x
  }

  // ---- One frame -------------------------------------------------------------------------

  /** The fields of a frame, or of what of it has come. */
  lemma HeaderFields(s: Sent, b: seq<byte>)
    requires Fits(s.message) && |b| >= 8 && b[..8] == Header(s.message)
    ensures U32At(b, 0) == Measure(s.message) % TWO_32 && U32At(b, 4) == Id(s.message)
  {
    assert b[0..4] == b[..8][..4];
    assert b[4..8] == b[..8][4..];
    U32RoundTrip(Measure(s.message) % TWO_32, b, 0);
    U32RoundTrip(Id(s.message), b, 4);
  }

  /** A whole frame is decoded to its message exactly when the size in its header, which wraps
      around at 32 bits, is within the limit. */
  lemma FrameDecodes(s: Sent)
    requires Fits(s.message)
    ensures Examine(Frame(s)) == Dispatch(s.message) <==> Measure(s.message) % TWO_32 <= LIMIT
    ensures Measure(s.message) % TWO_32 > LIMIT ==> Examine(Frame(s)) == Drop
  {
    hide U32, U32At;
    var f := Frame(s);
    assert f[..8] == Header(s.message) && f[8..] == Payload(s);
    HeaderFields(s, f);
    if s.message.SetRunLevel? {
      var name := s.message.name;
      assert f[8..12] == f[8..][..4] == U32(|name|);
      U32RoundTrip(|name|, f, 8);
      assert f[12..] == f[8..][4..] == name;
    }
  }

  /** The receiver waits for the rest of a frame. */
  lemma PartWaits(s: Sent, b: seq<byte>)
    requires InLimit(s) && |b| < |Frame(s)| && b == Frame(s)[..|b|]
    ensures Examine(b) == Wait
  {
    hide U32, U32At;
    if |b| >= 8 {
      assert b[..8] == Frame(s)[..8] == Header(s.message);
      HeaderFields(s, b);
    }
  }

  /** It throws when more than a frame has come. */
  lemma MoreDrops(s: Sent, b: seq<byte>)
    requires InLimit(s) && |Frame(s)| < |b| && b[..|Frame(s)|] == Frame(s)
    ensures Examine(b) == Drop
  {
    hide U32, U32At;
    var f := Frame(s);
    assert b[..8] == f[..8] == Header(s.message);
    HeaderFields(s, b);
    if s.message.SetRunLevel? {
      assert b[8..12] == f[8..12] == U32(|s.message.name|) by {
        assert f[8..] == Payload(s);
        assert f[8..12] == f[8..][..4];
      }
      U32RoundTrip(|s.message.name|, b, 8);
    }
  }

  /** The header has come, its size is within the limit, and so many bytes have come behind it. */
  predicate Complete(b: seq<byte>) {
    |b| >= 8 && U32At(b, 0) <= LIMIT && U32At(b, 0) <= |b| - 8
  }

  /** What is not complete waits, unless its header asks for more than the limit. */
  lemma IncompleteExactly(b: seq<byte>)
    requires !Complete(b)
    ensures Examine(b) == Drop <==> |b| >= 8 && U32At(b, 0) > LIMIT
    ensures Examine(b) == Wait <==> !(|b| >= 8 && U32At(b, 0) > LIMIT)
  {
    hide U32At;
  }

  lemma TailFields(s: Sent, b: seq<byte>)
    requires Fits(s.message) && |b| >= 8 && b[4..] == Frame(s)[4..]
    ensures U32At(b, 4) == Id(s.message) && b[8..] == Payload(s)
  {
    hide U32, U32At;
    var f := Frame(s);
    assert f[..8] == Header(s.message) && f[8..] == Payload(s);
    assert b[4..8] == b[4..][..4] == f[4..][..4] == f[..8][4..];
    U32RoundTrip(Id(s.message), b, 4);
    assert b[8..] == b[4..][4..] == f[4..][4..] == f[8..];
  }

  /** A complete buffer is never left waiting, and it is a call of `m` exactly when it is, but for
      the size in its header, the frame of `m`. What the calls are decides the number behind the
      size: 1 for a reboot, 2 for a power-off, 3 for a run level. */
  lemma CompleteExactly(b: seq<byte>, m: Message)
    requires Complete(b)
    ensures Examine(b) != Wait
    ensures Examine(b) == Dispatch(m) <==> Fits(m) && exists pad :: b[4..] == Frame(Sent(m, pad))[4..]
    ensures Examine(b) == Dispatch(m) ==>
      U32At(b, 4) == (match m case Reboot => 1 case PowerOff => 2 case SetRunLevel(_) => 3)
  {
    hide U32, U32At;
    if Examine(b) == Dispatch(m) {
      DispatchedFrame(b, m);
    }
    if pad :| Fits(m) && b[4..] == Frame(Sent(m, pad))[4..] {
      FrameDispatched(b, m, pad);
    }
  }

  lemma FrameDispatched(b: seq<byte>, m: Message, pad: byte)
    requires Complete(b) && Fits(m) && b[4..] == Frame(Sent(m, pad))[4..]
    ensures Examine(b) == Dispatch(m)
  {
    hide U32, U32At;
    TailFields(Sent(m, pad), b);
    if m.SetRunLevel? {
      assert b[8..12] == b[8..][..4] == U32(|m.name|);
      U32RoundTrip(|m.name|, b, 8);
      assert b[12..] == b[8..][4..] == m.name;
    }
  }

  lemma LowByte(a: byte, rest: nat)
    ensures (a as int + rest * 0x100) % 0x100 == a as int && (a as int + rest * 0x100) / 0x100 == rest
  {
  }

  lemma U32Back(b: seq<byte>, p: nat)
    requires p + 4 <= |b|
    ensures b[p..p + 4] == U32(U32At(b, p))
  {
    var n3 := b[p + 3] as int;
    var n2 := b[p + 2] as int + n3 * 0x100;
    var n1 := b[p + 1] as int + n2 * 0x100;
    assert U32At(b, p) == b[p] as int + n1 * 0x100;
    LowByte(b[p], n1);
    LowByte(b[p + 1], n2);
    LowByte(b[p + 2], n3);
    assert b[p..p + 4] == [b[p], b[p + 1], b[p + 2], b[p + 3]];
  }

  lemma TailSplits(b: seq<byte>, s: Sent)
    requires Fits(s.message) && |b| >= 8 && b[4..8] == U32(Id(s.message)) && b[8..] == Payload(s)
    ensures b[4..] == Frame(s)[4..]
  {
    hide U32, Payload;
    assert Frame(s)[4..] == U32(Id(s.message)) + Payload(s);
    assert b[4..] == b[4..8] + b[8..];
  }

  lemma NamePayload(b: seq<byte>)
    requires |b| >= 12 && |b| == 12 + U32At(b, 8)
    ensures |b| - 12 < TWO_32 && b[8..] == U32(|b| - 12) + b[12..]
  {
    hide U32, U32At;
    U32Back(b, 8);
    assert b[8..] == b[8..12] + b[12..];
  }

  lemma DispatchedFrame(b: seq<byte>, m: Message)
    requires Complete(b) && Examine(b) == Dispatch(m)
    ensures Fits(m) && U32At(b, 4) == Id(m) && b[4..] == Frame(Sent(m, b[8]))[4..]
  {
    hide U32, U32At;
    U32Back(b, 4);
    if m.SetRunLevel? {
      NamePayload(b);
    }
    TailSplits(b, Sent(m, b[8]));
  }

  /** A message of unknown kind closes the connection without a call as soon as it is complete. */
  lemma UnknownCloses(known: set<seq<byte>>, s: State, chunk: seq<byte>)
    requires s.connected && Complete(s.buffer + chunk) && U32At(s.buffer + chunk, 4) !in {1, 2, 3}
    ensures Receive(known, s, chunk) == State(s.buffer + chunk, false, s.calls)
  {
    var b := s.buffer + chunk;
    hide U32At;
    forall m ensures Examine(b) != Wait && Examine(b) != Dispatch(m) {
      CompleteExactly(b, m);
    }
  }

  // ---- Cuts and ends ---------------------------------------------------------------------

  lemma FlattenFirst(chunks: seq<seq<byte>>, j: nat)
    requires 0 < j <= |chunks|
    ensures Flatten(chunks[..j]) == chunks[0] + Flatten(chunks[1..][..j - 1])
  {
    assert chunks[..j][1..] == chunks[1..][..j - 1];
  }

  lemma CutShift(chunks: seq<seq<byte>>, x: nat)
    requires chunks != [] && x > 0
    ensures IsCut(chunks, |chunks[0]| + x) <==> IsCut(chunks[1..], x)
  {
    if IsCut(chunks, |chunks[0]| + x) {
      var j :| 0 <= j <= |chunks| && CutAfter(chunks, j, |chunks[0]| + x);
      if j > 0 {
        FlattenFirst(chunks, j);
        assert CutAfter(chunks[1..], j - 1, x);
      }
    }
    if IsCut(chunks[1..], x) {
      var j :| 0 <= j <= |chunks[1..]| && CutAfter(chunks[1..], j, x);
      FlattenFirst(chunks, j + 1);
      assert CutAfter(chunks, j + 1, |chunks[0]| + x);
    }
  }

  lemma FirstIsCut(chunks: seq<seq<byte>>)
    requires chunks != []
    ensures IsCut(chunks, |chunks[0]|)
  {
    FlattenFirst(chunks, 1);
    assert CutAfter(chunks, 1, |chunks[0]|);
  }

  lemma InsideIsNoCut(chunks: seq<seq<byte>>, x: nat)
    requires chunks != [] && 0 < x < |chunks[0]|
    ensures !IsCut(chunks, x)
  {
    forall j | 0 <= j <= |chunks| ensures !CutAfter(chunks, j, x) {
      if j > 0 {
        FlattenFirst(chunks, j);
      }
    }
  }

  ghost predicate AllInLimit(sent: seq<Sent>) { forall i :: 0 <= i < |sent| ==> InLimit(sent[i]) }

  /** Where message `i` ends, counted from `b` bytes into the stream. */
  ghost function End(sent: seq<Sent>, i: nat, b: nat): int
    requires i <= |sent| && AllInLimit(sent)
  {
    |Frames(sent[..i])| - b
  }

  lemma EndFirst(sent: seq<Sent>, i: nat, b: nat)
    requires 0 < i <= |sent| && AllInLimit(sent)
    ensures InLimit(sent[0]) && AllInLimit(sent[1..])
    ensures End(sent, i, b) == |Frame(sent[0])| + End(sent[1..], i - 1, b)
    ensures End(sent, i, b) >= |Frame(sent[0])| - b && (i > 1 ==> End(sent, i, b) > |Frame(sent[0])| - b)
    ensures End(sent, 1, b) == |Frame(sent[0])| - b
  {
    assert sent[..i][1..] == sent[1..][..i - 1];
    assert sent[..1][1..] == [];
    assert Frames(sent[..1]) == Frame(sent[0]) + Frames([]);
    if i > 1 {
      var more := sent[1..][..i - 1];
      assert |Frames(more)| >= |Frame(more[0])|;
    }
  }

  // ---- Runs ------------------------------------------------------------------------------

  /** If message `i` has come as a whole, its end is a cut and its call does not fail. */
  ghost predicate Served(known: set<seq<byte>>, sent: seq<Sent>, b: nat, chunks: seq<seq<byte>>, i: nat)
    requires 0 < i <= |sent| && AllInLimit(sent)
  {
    0 <= End(sent, i, b) <= |Flatten(chunks)| ==>
      IsCut(chunks, End(sent, i, b)) && Accepted(known, sent[i - 1].message)
  }

  ghost predicate AllServed(known: set<seq<byte>>, sent: seq<Sent>, b: nat, chunks: seq<seq<byte>>)
    requires AllInLimit(sent)
  {
    forall i :: 0 < i <= |sent| ==> Served(known, sent, b, chunks, i)
  }

  /** The bytes `b` are the beginning of the first message, and the chunks go on from there. */
  ghost predicate Streams(sent: seq<Sent>, b: seq<byte>, chunks: seq<seq<byte>>, rest: seq<byte>)
    requires AllInLimit(sent)
  {
    && (if sent == [] then b == [] else InLimit(sent[0]) && |b| < |Frame(sent[0])|)
    && b + Flatten(chunks) + rest == Frames(sent)
  }

  /** A chunk that ends inside the first message changes nothing but the offset. */
  lemma ServedWaiting(known: set<seq<byte>>, sent: seq<Sent>, b: nat, chunks: seq<seq<byte>>)
    requires AllInLimit(sent) && chunks != []
    requires sent != [] ==> InLimit(sent[0]) && b + |chunks[0]| < |Frame(sent[0])|
    ensures AllServed(known, sent, b, chunks) <==> AllServed(known, sent, b + |chunks[0]|, chunks[1..])
  {
    hide IsCut, Frames, Flatten;
    var now, later := b + |chunks[0]|, chunks[1..];
    forall i | 0 < i <= |sent|
      ensures Served(known, sent, b, chunks, i) <==> Served(known, sent, now, later, i)
    {
      EndFirst(sent, i, b);
      EndFirst(sent, i, now);
      FlattenLength(chunks);
      CutShift(chunks, End(sent, i, now));
    }
    if AllServed(known, sent, b, chunks) {
      forall i | 0 < i <= |sent| ensures Served(known, sent, now, later, i) {
        assert Served(known, sent, b, chunks, i);
      }
    }
  }

  lemma FlattenLength(chunks: seq<seq<byte>>)
    requires chunks != []
    ensures |Flatten(chunks)| == |chunks[0]| + |Flatten(chunks[1..])|
  {
  }

  /** A chunk that ends with the first message serves it if its call does not fail. */
  lemma ServedFirst(known: set<seq<byte>>, sent: seq<Sent>, b: nat, chunks: seq<seq<byte>>)
    requires AllInLimit(sent) && chunks != [] && sent != []
    requires InLimit(sent[0]) && b + |chunks[0]| == |Frame(sent[0])|
    ensures AllInLimit(sent[1..])
    ensures AllServed(known, sent, b, chunks) <==>
      Accepted(known, sent[0].message) && AllServed(known, sent[1..], 0, chunks[1..])
  {
    hide IsCut, Frames, Flatten, Accepted;
    EndFirst(sent, 1, b);
    FirstIsCut(chunks);
    FlattenLength(chunks);
    assert Served(known, sent, b, chunks, 1) <==> Accepted(known, sent[0].message);
    forall i | 0 < i <= |sent[1..]|
      ensures Served(known, sent, b, chunks, i + 1) <==> Served(known, sent[1..], 0, chunks[1..], i)
    {
      EndFirst(sent, i + 1, b);
      EndFirst(sent[1..], i, 0);
      CutShift(chunks, End(sent[1..], i, 0));
    }
    if Accepted(known, sent[0].message) && AllServed(known, sent[1..], 0, chunks[1..]) {
      forall i | 0 < i <= |sent| ensures Served(known, sent, b, chunks, i) {
        if i > 1 {
          assert Served(known, sent[1..], 0, chunks[1..], i - 1);
        }
      }
    }
    if AllServed(known, sent, b, chunks) {
      forall i | 0 < i <= |sent[1..]| ensures Served(known, sent[1..], 0, chunks[1..], i) {
        assert Served(known, sent, b, chunks, i + 1);
      }
    }
  }

  /** A chunk that goes beyond the end of the first message leaves it unserved. */
  lemma NotServed(known: set<seq<byte>>, sent: seq<Sent>, b: nat, chunks: seq<seq<byte>>)
    requires AllInLimit(sent) && chunks != [] && sent != []
    requires InLimit(sent[0]) && b < |Frame(sent[0])| < b + |chunks[0]|
    ensures !AllServed(known, sent, b, chunks)
  {
    EndFirst(sent, 1, b);
    FlattenLength(chunks);
    InsideIsNoCut(chunks, End(sent, 1, b));
    assert !Served(known, sent, b, chunks, 1);
  }

  lemma {:induction false} ClosedStays(known: set<seq<byte>>, s: State, chunks: seq<seq<byte>>)
    requires !s.connected
    ensures ReceiveAll(known, s, chunks) == s
    decreases |chunks|
  {
    if chunks != [] {
      ClosedStays(known, s, chunks[1..]);
    }
  }

  /** Two ways to split the same bytes: the shorter first part begins the longer one. */
  lemma SplitTwice(a: seq<byte>, b: seq<byte>, c: seq<byte>, d: seq<byte>)
    requires a + b == c + d && |a| <= |c|
    ensures a == c[..|a|] && (|a| == |c| ==> b == d)
  {
    assert a == (a + b)[..|a|] == (c + d)[..|a|] == c[..|a|];
    if |a| == |c| {
      assert b == (a + b)[|a|..] == (c + d)[|c|..] == d;
    }
  }

  /** What has come of the first message. */
  lemma FirstPart(sent: seq<Sent>, b: seq<byte>, chunks: seq<seq<byte>>, rest: seq<byte>)
    requires AllInLimit(sent) && sent != [] && chunks != [] && Streams(sent, b, chunks, rest)
    ensures InLimit(sent[0]) && |b| < |Frame(sent[0])|
    ensures var now, f := b + chunks[0], Frame(sent[0]);
      && (|now| < |f| ==> now == f[..|now|] && Streams(sent, now, chunks[1..], rest))
      && (|now| == |f| ==> now == f && AllInLimit(sent[1..]) && Streams(sent[1..], [], chunks[1..], rest))
      && (|now| > |f| ==> now[..|f|] == f)
  {
    hide Frame;
    var now, f, more := b + chunks[0], Frame(sent[0]), Frames(sent[1..]);
    var later := Flatten(chunks[1..]) + rest;
    assert now + Flatten(chunks[1..]) + rest == now + later;
    assert now + later == f + more by {
      assert b + Flatten(chunks) + rest == now + later;
    }
    if |now| > |f| {
      SplitTwice(f, more, now, later);
    } else {
      SplitTwice(now, later, f, more);
      assert [] + Flatten(chunks[1..]) + rest == later;
    }
  }

  /** What a run makes of the messages `sent`: the first `d` are called, each once, in order,
      and none before its last byte has come. The connection lives on exactly when every message
      that has come is served, and then everything that has come is called or in the buffer. */
  ghost predicate RunsTo(known: set<seq<byte>>, s: State, sent: seq<Sent>, chunks: seq<seq<byte>>, d: nat)
    requires AllInLimit(sent) && d <= |sent|
  {
    var r := ReceiveAll(known, s, chunks);
    && r.calls == s.calls + Messages(sent[..d])
    && |Frames(sent[..d])| <= |s.buffer| + |Flatten(chunks)|
    && (r.connected <==> AllServed(known, sent, |s.buffer|, chunks))
    && (r.connected ==>
      && s.buffer + Flatten(chunks) == Frames(sent[..d]) + r.buffer
      && if d == |sent| then r.buffer == [] else InLimit(sent[d]) && |r.buffer| < |Frame(sent[d])|)
  }

  lemma NothingComes(known: set<seq<byte>>, s: State, sent: seq<Sent>, rest: seq<byte>)
    requires s.connected && AllInLimit(sent) && Streams(sent, s.buffer, [], rest)
    ensures RunsTo(known, s, sent, [], 0)
  {
    hide Frame, Frames;
    NoFrames(sent);
    forall i | 0 < i <= |sent| ensures Served(known, sent, |s.buffer|, [], i) {
      EndFirst(sent, i, |s.buffer|);
    }
    assert s.calls + [] == s.calls && s.buffer + [] == s.buffer && [] + s.buffer == s.buffer;
  }

  lemma NoFrames(sent: seq<Sent>)
    requires AllInLimit(sent)
    ensures Frames(sent[..0]) == [] && Messages(sent[..0]) == []
  {
  }

  lemma NoMessages(b: seq<byte>, chunks: seq<seq<byte>>, rest: seq<byte>)
    requires chunks != [] && Streams([], b, chunks, rest)
    ensures b == [] && chunks[0] == [] && Streams([], [], chunks[1..], rest)
  {
  }

  lemma WaitingRuns(known: set<seq<byte>>, s: State, sent: seq<Sent>, chunks: seq<seq<byte>>, d: nat)
    requires s.connected && AllInLimit(sent) && d <= |sent| && chunks != []
    requires Examine(s.buffer + chunks[0]) == Wait
    requires sent != [] ==> InLimit(sent[0]) && |s.buffer| + |chunks[0]| < |Frame(sent[0])|
    requires RunsTo(known, s.(buffer := s.buffer + chunks[0]), sent, chunks[1..], d)
    ensures RunsTo(known, s, sent, chunks, d)
  {
    hide Frame, Frames, Messages, AllServed, Examine;
    ServedWaiting(known, sent, |s.buffer|, chunks);
    assert s.buffer + Flatten(chunks) == s.buffer + chunks[0] + Flatten(chunks[1..]);
  }

  lemma PrefixFirst(sent: seq<Sent>, d: nat)
    requires AllInLimit(sent) && sent != [] && d < |sent|
    ensures InLimit(sent[0]) && AllInLimit(sent[1..])
    ensures Frames(sent[..d + 1]) == Frame(sent[0]) + Frames(sent[1..][..d])
    ensures Messages(sent[..d + 1]) == [sent[0].message] + Messages(sent[1..][..d])
  {
    assert sent[..d + 1][1..] == sent[1..][..d];
  }

  lemma FirstReceived(known: set<seq<byte>>, s: State, first: Sent, chunks: seq<seq<byte>>)
    requires s.connected && chunks != []
    requires InLimit(first) && s.buffer + chunks[0] == Frame(first) && Accepted(known, first.message)
    ensures ReceiveAll(known, s, chunks) == ReceiveAll(known, State([], true, s.calls + [first.message]), chunks[1..])
  {
    hide Frame, Examine, Accepted;
    FrameDecodes(first);
  }

  lemma CalledRuns(known: set<seq<byte>>, s: State, sent: seq<Sent>, chunks: seq<seq<byte>>, d: nat)
    requires s.connected && AllInLimit(sent) && sent != [] && d < |sent| && chunks != []
    requires InLimit(sent[0]) && s.buffer + chunks[0] == Frame(sent[0]) && Accepted(known, sent[0].message)
    requires AllInLimit(sent[1..])
    requires RunsTo(known, State([], true, s.calls + [sent[0].message]), sent[1..], chunks[1..], d)
    ensures RunsTo(known, s, sent, chunks, d + 1)
  {
    hide Frame, Frames, Messages, AllServed, Examine, Accepted;
    hide ReceiveAll;
    FirstReceived(known, s, sent[0], chunks);
    ServedFirst(known, sent, |s.buffer|, chunks);
    PrefixFirst(sent, d);
    FlattenLength(chunks);
    var ms, more, rest := Messages(sent[1..][..d]), Frames(sent[1..][..d]), ReceiveAll(known, s, chunks).buffer;
    assert s.calls + [sent[0].message] + ms == s.calls + ([sent[0].message] + ms);
    assert s.buffer + Flatten(chunks) == s.buffer + chunks[0] + Flatten(chunks[1..]);
    assert [] + Flatten(chunks[1..]) == Flatten(chunks[1..]);
    assert Frame(sent[0]) + (more + rest) == Frame(sent[0]) + more + rest;
  }

  /** The connection is closed at the first chunk. */
  lemma ClosedRuns(known: set<seq<byte>>, s: State, sent: seq<Sent>, chunks: seq<seq<byte>>, d: nat)
    requires s.connected && AllInLimit(sent) && d <= |sent| && chunks != []
    requires var s' := Receive(known, s, chunks[0]);
      !s'.connected && s'.calls == s.calls + Messages(sent[..d])
    requires |Frames(sent[..d])| <= |s.buffer| + |chunks[0]|
    requires !AllServed(known, sent, |s.buffer|, chunks)
    ensures RunsTo(known, s, sent, chunks, d)
  {
    hide Frame, Frames, Messages, AllServed, Receive;
    ClosedStays(known, Receive(known, s, chunks[0]), chunks[1..]);
    FlattenLength(chunks);
  }

  lemma {:induction false} RunFrom(known: set<seq<byte>>, s: State, sent: seq<Sent>,
                                   chunks: seq<seq<byte>>, rest: seq<byte>)
    returns (d: nat)
    requires s.connected && AllInLimit(sent) && Streams(sent, s.buffer, chunks, rest)
    ensures d <= |sent| && RunsTo(known, s, sent, chunks, d)
    decreases |chunks|
  {
    hide Frame, Frames, Messages, Accepted, AllServed, Streams, RunsTo, Examine;
    if chunks == [] {
      d := 0;
      NothingComes(known, s, sent, rest);
    } else if sent == [] {
      NoMessages(s.buffer, chunks, rest);
      assert s.buffer + chunks[0] == [];
      EmptyWaits();
      d := RunFrom(known, s, sent, chunks[1..], rest);
      WaitingRuns(known, s, sent, chunks, d);
    } else {
      FirstPart(sent, s.buffer, chunks, rest);
      var now, f := s.buffer + chunks[0], Frame(sent[0]);
      if |now| < |f| {
        PartWaits(sent[0], now);
        d := RunFrom(known, s.(buffer := now), sent, chunks[1..], rest);
        WaitingRuns(known, s, sent, chunks, d);
      } else if |now| > |f| {
        d := 0;
        OverrunRuns(known, s, sent, chunks);
      } else if Accepted(known, sent[0].message) {
        d := RunFrom(known, State([], true, s.calls + [sent[0].message]), sent[1..], chunks[1..], rest);
        CalledRuns(known, s, sent, chunks, d);
        d := d + 1;
      } else {
        d := 1;
        RefusedRuns(known, s, sent, chunks);
      }
    }
  }

  lemma EmptyWaits()
    ensures Examine([]) == Wait
  {
  }

  lemma OverrunRuns(known: set<seq<byte>>, s: State, sent: seq<Sent>, chunks: seq<seq<byte>>)
    requires s.connected && AllInLimit(sent) && sent != [] && chunks != [] && InLimit(sent[0])
    requires var now, f := s.buffer + chunks[0], Frame(sent[0]);
      |s.buffer| < |f| < |now| && now[..|f|] == f
    ensures RunsTo(known, s, sent, chunks, 0)
  {
    hide Frame, Frames, Messages, AllServed, Examine, RunsTo;
    NoFrames(sent);
    MoreDrops(sent[0], s.buffer + chunks[0]);
    NotServed(known, sent, |s.buffer|, chunks);
    assert s.calls + [] == s.calls;
    ClosedRuns(known, s, sent, chunks, 0);
  }

  lemma RefusedRuns(known: set<seq<byte>>, s: State, sent: seq<Sent>, chunks: seq<seq<byte>>)
    requires s.connected && AllInLimit(sent) && sent != [] && chunks != [] && InLimit(sent[0])
    requires s.buffer + chunks[0] == Frame(sent[0]) && !Accepted(known, sent[0].message)
    ensures RunsTo(known, s, sent, chunks, 1)
  {
    hide Frame, Frames, Messages, AllServed, Examine, RunsTo, Accepted;
    NoFrames(sent[1..]);
    PrefixFirst(sent, 0);
    FrameDecodes(sent[0]);
    ServedFirst(known, sent, |s.buffer|, chunks);
    assert [sent[0].message] + [] == [sent[0].message] && Frame(sent[0]) + [] == Frame(sent[0]);
    ClosedRuns(known, s, sent, chunks, 1);
  }

  // ---- Whole streams ---------------------------------------------------------------------

  lemma {:induction false} FramesSplit(sent: seq<Sent>, i: nat)
    requires i <= |sent| && AllInLimit(sent)
    ensures Frames(sent) == Frames(sent[..i]) + Frames(sent[i..])
    decreases i
  {
    hide Frame;
    if i == 0 {
      assert sent[0..] == sent;
    } else {
      FramesSplit(sent[1..], i - 1);
      assert sent[..i][1..] == sent[1..][..i - 1] && sent[i..] == sent[1..][i - 1..];
    }
  }

  lemma StartStreams(sent: seq<Sent>, chunks: seq<seq<byte>>, rest: seq<byte>)
    requires AllInLimit(sent) && Flatten(chunks) + rest == Frames(sent)
    ensures Streams(sent, [], chunks, rest)
  {
    assert [] + Flatten(chunks) == Flatten(chunks);
  }

  /** Whatever the chunks, and however much of the stream has come: the calls are the first
      messages of the stream, and all their bytes have come. */
  lemma CallsAreComplete(known: set<seq<byte>>, sent: seq<Sent>, chunks: seq<seq<byte>>, rest: seq<byte>)
    requires AllInLimit(sent) && Flatten(chunks) + rest == Frames(sent)
    ensures exists d :: (
      && 0 <= d <= |sent|
      && ReceiveAll(known, START, chunks).calls == Messages(sent[..d])
      && Frames(sent[..d]) <= Flatten(chunks))
  {
    hide Frame, Frames, Messages, Streams, AllServed, ReceiveAll;
    StartStreams(sent, chunks, rest);
    var d := RunFrom(known, START, sent, chunks, rest);
    FramesSplit(sent, d);
    assert [] + Messages(sent[..d]) == Messages(sent[..d]);
    var f := Frames(sent[..d]);
    assert f == Frames(sent)[..|f|] == Flatten(chunks)[..|f|];
  }

  /** Each message ends where a chunk ends. */
  ghost predicate CutAtMessages(sent: seq<Sent>, chunks: seq<seq<byte>>)
    requires AllInLimit(sent)
  {
    forall i :: 0 < i <= |sent| ==> IsCut(chunks, |Frames(sent[..i])|)
  }

  lemma ServedWhole(known: set<seq<byte>>, sent: seq<Sent>, chunks: seq<seq<byte>>)
    requires AllInLimit(sent) && Flatten(chunks) == Frames(sent)
    ensures AllServed(known, sent, 0, chunks) <==>
      CutAtMessages(sent, chunks) && AllAccepted(known, sent)
  {
    hide Frames, Flatten, IsCut, Accepted;
    forall i | 0 < i <= |sent|
      ensures Served(known, sent, 0, chunks, i) <==>
        IsCut(chunks, |Frames(sent[..i])|) && Accepted(known, sent[i - 1].message)
    {
      FramesSplit(sent, i);
    }
    if AllServed(known, sent, 0, chunks) {
      forall i | 0 <= i < |sent| ensures Accepted(known, sent[i].message) {
        assert Served(known, sent, 0, chunks, i + 1);
      }
    }
  }

  ghost predicate AllAccepted(known: set<seq<byte>>, sent: seq<Sent>) {
    forall i :: 0 <= i < |sent| ==> Accepted(known, sent[i].message)
  }

  /** When a whole stream of messages has come, the connection is alive if and only if each
      message ends where a chunk ends and no call has failed. */
  lemma LivesExactly(known: set<seq<byte>>, sent: seq<Sent>, chunks: seq<seq<byte>>)
    requires AllInLimit(sent) && Flatten(chunks) == Frames(sent)
    ensures ReceiveAll(known, START, chunks).connected <==> CutAtMessages(sent, chunks) && AllAccepted(known, sent)
  {
    hide Frame, Frames, Flatten, Messages, Streams, AllServed, CutAtMessages, ReceiveAll, Accepted;
    assert Flatten(chunks) + [] == Flatten(chunks);
    StartStreams(sent, chunks, []);
    var d := RunFrom(known, START, sent, chunks, []);
    ServedWhole(known, sent, chunks);
  }

  /** The stream is delivered, every message called once and in order and nothing left over,
      if and only if each message ends where a chunk ends and no call fails. */
  lemma DeliveredExactly(known: set<seq<byte>>, sent: seq<Sent>, chunks: seq<seq<byte>>)
    requires AllInLimit(sent) && Flatten(chunks) == Frames(sent)
    ensures ReceiveAll(known, START, chunks) == State([], true, Messages(sent)) <==>
      CutAtMessages(sent, chunks) && AllAccepted(known, sent)
  {
    hide Frame, Frames, Flatten, Messages, Streams, AllServed, CutAtMessages, ReceiveAll, Accepted;
    assert Flatten(chunks) + [] == Flatten(chunks);
    StartStreams(sent, chunks, []);
    var d := RunFrom(known, START, sent, chunks, []);
    LivesExactly(known, sent, chunks);
    if ReceiveAll(known, START, chunks).connected {
      AllCome(sent, d, ReceiveAll(known, START, chunks).buffer, Flatten(chunks));
      assert sent[..d] == sent && [] + Messages(sent) == Messages(sent);
    }
  }

  lemma AllCome(sent: seq<Sent>, d: nat, buffer: seq<byte>, come: seq<byte>)
    requires AllInLimit(sent) && d <= |sent| && come == Frames(sent)
    requires [] + come == Frames(sent[..d]) + buffer
    requires d < |sent| ==> InLimit(sent[d]) && |buffer| < |Frame(sent[d])|
    ensures d == |sent|
  {
    hide Frame, Frames;
    if d < |sent| {
      FrameFollows(sent, d);
    }
  }

  lemma FrameFollows(sent: seq<Sent>, d: nat)
    requires AllInLimit(sent) && d < |sent|
    ensures InLimit(sent[d]) && |Frames(sent[..d])| + |Frame(sent[d])| <= |Frames(sent)|
  {
    hide Frame;
    FramesSplit(sent, d);
    assert Frames(sent[d..]) == Frame(sent[d]) + Frames(sent[d..][1..]);
  }
}
