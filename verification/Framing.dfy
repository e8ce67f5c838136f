/** The wire format: a 4-byte length in network byte order, then the body. */
module Framing {
  import opened Wrappers

  type byte = x: int | 0 <= x < 256

  const HEADER: nat := 4
  const UINT32_MODULUS: nat := 0x1_0000_0000

  /** `htonl` as the bytes that end up in memory: most significant byte first. */
  function NetworkOrder(n: nat): (b: seq<byte>)
    requires n < UINT32_MODULUS
    ensures |b| == HEADER
  {
    [n / 0x100_0000, n / 0x1_0000 % 256, n / 0x100 % 256, n % 256]
  }

  /** `ntohl` of four bytes. */
  function HostOrder(b: seq<byte>): (n: nat)
    requires |b| == HEADER
    ensures n < UINT32_MODULUS
  {
    (b[0] as int) * 0x100_0000 + (b[1] as int) * 0x1_0000 + (b[2] as int) * 0x100 + b[3]
  }

  lemma HostOfNetwork(n: nat)
    requires n < UINT32_MODULUS
    ensures HostOrder(NetworkOrder(n)) == n
  {
    assert n / 0x100 == n / 0x1_0000 * 0x100 + n / 0x100 % 256;
    assert n / 0x1_0000 == n / 0x100_0000 * 0x100 + n / 0x1_0000 % 256;
  }

  lemma NetworkOfHost(b: seq<byte>)
    requires |b| == HEADER
    ensures NetworkOrder(HostOrder(b)) == b
  {
    var n := HostOrder(b);
    assert n / 0x100_0000 == b[0];
    assert n / 0x1_0000 == (b[0] as int) * 0x100 + b[1];
    assert n / 0x100 == (b[0] as int) * 0x1_0000 + (b[1] as int) * 0x100 + b[2];
  }

  /** The first difference decides. */
  predicate Precedes(a: seq<byte>, b: seq<byte>)
    requires |a| == |b|
  {
    a != [] && (a[0] < b[0] || (a[0] == b[0] && Precedes(a[1..], b[1..])))
  }

  /** The most significant byte comes first: numbers are ordered as their bytes are. */
  lemma NetworkOrderIsOrder(m: nat, n: nat)
    requires m < UINT32_MODULUS && n < UINT32_MODULUS
    ensures m < n <==> Precedes(NetworkOrder(m), NetworkOrder(n))
  {
    var a, b := NetworkOrder(m), NetworkOrder(n);
    HostOfNetwork(m);
    HostOfNetwork(n);
    FourPrecede(a, b);
    ByteOrder(a[0] as int, a[1] as int, a[2] as int, a[3] as int, b[0] as int, b[1] as int, b[2] as int, b[3] as int);
  }

  lemma FourPrecede(a: seq<byte>, b: seq<byte>)
    requires |a| == |b| == 4
    ensures Precedes(a, b) <==>
            a[0] < b[0] || (a[0] == b[0] && (a[1] < b[1] || (a[1] == b[1] && (a[2] < b[2] || (a[2] == b[2] && a[3] < b[3])))))
  {
    assert a[1..][1..] == a[2..] && b[1..][1..] == b[2..] && a[2..][1..] == a[3..] && b[2..][1..] == b[3..];
    assert Precedes(a[3..], b[3..]) <==> a[3] < b[3];
    assert Precedes(a[2..], b[2..]) <==> a[2] < b[2] || (a[2] == b[2] && a[3] < b[3]);
  }

  lemma ByteOrder(a: nat, b: nat, c: nat, d: nat, p: nat, q: nat, r: nat, s: nat)
    requires a < 256 && b < 256 && c < 256 && d < 256 && p < 256 && q < 256 && r < 256 && s < 256
    ensures a * 0x100_0000 + b * 0x1_0000 + c * 0x100 + d < p * 0x100_0000 + q * 0x1_0000 + r * 0x100 + s <==>
            a < p || (a == p && (b < q || (b == q && (c < r || (c == r && d < s)))))
  {
  }

  /** A framed body. The cast to `uint32_t` keeps the length modulo 2^32. */
  function Frame(body: seq<byte>): seq<byte> {
    NetworkOrder(|body| % UINT32_MODULUS) + body
  }

  function FrameAll(bodies: seq<seq<byte>>): seq<byte> {
    if bodies == [] then [] else Frame(bodies[0]) + FrameAll(bodies[1..])
  }

  function Concat(chunks: seq<seq<byte>>): seq<byte> {
    if chunks == [] then [] else chunks[0] + Concat(chunks[1..])
  }

  /** Bodies whose length the header can carry. */
  predicate Framable(bodies: seq<seq<byte>>) {
    forall i :: 0 <= i < |bodies| ==> |bodies[i]| < UINT32_MODULUS
  }

  /** The head of the buffer holds a whole frame. */
  predicate Complete(buffered: seq<byte>) {
    |buffered| >= HEADER && |buffered| >= HEADER + HostOrder(buffered[..HEADER])
  }

  datatype Receipt = Receipt(rest: seq<byte>, message: Option<seq<byte>>)

  /** One successful read: the new bytes are appended and at most one frame is taken. */
  function Receive(buffered: seq<byte>, chunk: seq<byte>): Receipt {
    var all := buffered + chunk;
    if !Complete(all) then Receipt(all, None)
    else
      var end := HEADER + HostOrder(all[..HEADER]);
      Receipt(all[end..], Some(all[HEADER..end]))
  }

  lemma ReceiveNow(all: seq<byte>)
    ensures !Complete(all) ==> Receive(all, []) == Receipt(all, None)
    ensures Complete(all) ==>
              var end := HEADER + HostOrder(all[..HEADER]);
              Receive(all, []) == Receipt(all[end..], Some(all[HEADER..end]))
  {
    assert all + [] == all;
  }

  lemma ReceiveAppended(buffered: seq<byte>, chunk: seq<byte>)
    ensures Receive(buffered + chunk, []) == Receive(buffered, chunk)
  {
    assert (buffered + chunk) + [] == buffered + chunk;
  }

  datatype Inbox = Inbox(rest: seq<byte>, messages: seq<seq<byte>>)

  /** A connection's reads in order: what is left in the buffer and what was returned. */
  function ReceiveAll(buffered: seq<byte>, chunks: seq<seq<byte>>): Inbox
    decreases |chunks|
  {
    if chunks == [] then Inbox(buffered, [])
    else
      var receipt := Receive(buffered, chunks[0]);
      var later := ReceiveAll(receipt.rest, chunks[1..]);
      match receipt.message
      case None => later
      case Some(m) => Inbox(later.rest, [m] + later.messages)
  }

  /** A reader that keeps taking frames while there is a whole one: the client's view. */
  function Drain(buffered: seq<byte>): (inbox: Inbox)
    ensures !Complete(inbox.rest)
    decreases |buffered|
  {
    if !Complete(buffered) then Inbox(buffered, [])
    else
      var receipt := Receive(buffered, []);
      assert buffered + [] == buffered;
      var later := Drain(receipt.rest);
      Inbox(later.rest, [receipt.message.value] + later.messages)
  }

  lemma FrameHeader(body: seq<byte>, tail: seq<byte>)
    requires |body| < UINT32_MODULUS
    ensures Frame(body) + tail == NetworkOrder(|body|) + (body + tail)
    ensures (Frame(body) + tail)[..HEADER] == NetworkOrder(|body|)
    ensures HostOrder((Frame(body) + tail)[..HEADER]) == |body|
  {
    HostOfNetwork(|body|);
    JoinFrame(NetworkOrder(|body|), body, tail, |body|);
  }

  lemma JoinFrame(header: seq<byte>, body: seq<byte>, tail: seq<byte>, length: nat)
    requires |header| == HEADER && HostOrder(header) == length
    ensures header + body + tail == header + (body + tail)
    ensures (header + body + tail)[..HEADER] == header && HostOrder((header + body + tail)[..HEADER]) == length
  {
    assert header + body + tail == header + (body + tail);
    assert (header + body + tail)[..HEADER] == header;
  }

  lemma SliceFrame(header: seq<byte>, body: seq<byte>, tail: seq<byte>)
    requires |header| == HEADER
    ensures var stream := header + (body + tail);
            stream[HEADER..HEADER + |body|] == body && stream[HEADER + |body|..] == tail
  {
  }

  lemma SliceOfPrefix(front: seq<byte>, back: seq<byte>, from: nat, to: nat)
    requires from <= to <= |front|
    ensures (front + back)[from..to] == front[from..to]
    ensures (front + back)[to..] == front[to..] + back
  {
  }

  /** A whole frame at the head of a framed stream is the first body, however the stream
      is cut. */
  lemma HeadOfStream(buffered: seq<byte>, unread: seq<byte>, bodies: seq<seq<byte>>)
    requires Framable(bodies) && buffered + unread == FrameAll(bodies)
    requires Complete(buffered)
    ensures bodies != []
    ensures Receive(buffered, []).message == Some(bodies[0])
    ensures Receive(buffered, []).rest + unread == FrameAll(bodies[1..])
  {
    ReceiveNow(buffered);
    var tail := FrameAll(bodies[1..]);
    FrameHeader(bodies[0], tail);
    SliceFrame(NetworkOrder(|bodies[0]|), bodies[0], tail);
    SliceOfPrefix(buffered, unread, 0, HEADER);
    SliceOfPrefix(buffered, unread, HEADER, HEADER + |bodies[0]|);
  }

  /** The messages are the first bodies in order, and the bytes at hand plus the bytes
      still to come frame exactly the others. */
  predicate Delivers(inbox: Inbox, unread: seq<byte>, bodies: seq<seq<byte>>) {
    && inbox.messages <= bodies
    && inbox.rest + unread == FrameAll(bodies[|inbox.messages|..])
  }

  lemma DeliversNext(inbox: Inbox, unread: seq<byte>, bodies: seq<seq<byte>>)
    requires bodies != [] && Delivers(inbox, unread, bodies[1..])
    ensures Delivers(Inbox(inbox.rest, [bodies[0]] + inbox.messages), unread, bodies)
  {
    assert bodies == [bodies[0]] + bodies[1..];
    assert bodies[|inbox.messages| + 1..] == bodies[1..][|inbox.messages|..];
  }

  /** However a framed stream is cut into reads, nothing is lost, repeated or reordered,
      and a read never returns more than one message. */
  lemma {:induction false} InboundFraming(buffered: seq<byte>, chunks: seq<seq<byte>>, unread: seq<byte>, bodies: seq<seq<byte>>)
    requires Framable(bodies)
    requires buffered + Concat(chunks) + unread == FrameAll(bodies)
    ensures Delivers(ReceiveAll(buffered, chunks), unread, bodies)
    ensures |ReceiveAll(buffered, chunks).messages| <= |chunks|
    decreases |chunks|
  {
    if chunks == [] {
      assert buffered + Concat(chunks) == buffered;
    } else {
      var all, later := buffered + chunks[0], Concat(chunks[1..]);
      assert all + (later + unread) == FrameAll(bodies) by {
        assert buffered + Concat(chunks) == all + later;
        assert all + later + unread == all + (later + unread);
      }
      if Complete(all) {
        HeadOfStream(all, later + unread, bodies);
        assert all + [] == all;
        var rest := Receive(all, []).rest;
        assert rest + later + unread == rest + (later + unread);
        InboundFraming(rest, chunks[1..], unread, bodies[1..]);
        DeliversNext(ReceiveAll(rest, chunks[1..]), unread, bodies);
      } else {
        assert all + later + unread == all + (later + unread);
        InboundFraming(all, chunks[1..], unread, bodies);
      }
    }
  }

  /** A read that leaves a whole frame at the head of the buffer returns it; one that does
      not returns nothing. At every cut of the stream the frame is the next body. */
  lemma ReadReturnsNextBody(buffered: seq<byte>, chunk: seq<byte>, unread: seq<byte>, bodies: seq<seq<byte>>)
    requires Framable(bodies) && buffered + chunk + unread == FrameAll(bodies)
    ensures var r := Receive(buffered, chunk);
            if Complete(buffered + chunk)
            then bodies != [] && r.message == Some(bodies[0]) && r.rest + unread == FrameAll(bodies[1..])
            else r.message == None && r.rest == buffered + chunk
  {
    if Complete(buffered + chunk) {
      assert (buffered + chunk) + [] == buffered + chunk;
      HeadOfStream(buffered + chunk, unread, bodies);
    }
  }

  // ---------- Frames left waiting ----------

  /** Taking frames may stop anywhere and go on when more bytes are there. */
  lemma {:induction false} DrainSplit(x: seq<byte>, y: seq<byte>)
    ensures
      var first, second, all := Drain(x), Drain(Drain(x).rest + y), Drain(x + y);
      all.messages == first.messages + second.messages && all.rest == second.rest
    decreases |x|
  {
    if Complete(x) {
      FirstFrameStays(x, y);
      DrainTakes(x);
      DrainTakes(x + y);
      var receipt := Receive(x, []);
      ReceiveShortens(x);
      DrainSplit(receipt.rest, y);
      ConsSplit(receipt.message.value, Drain(receipt.rest), Drain(Drain(x).rest + y), Drain(receipt.rest + y), Drain(x), Drain(x + y));
    } else {
      NothingDrained(x, y);
    }
  }

  lemma ConsSplit(m: seq<byte>, front: Inbox, back: Inbox, both: Inbox, first: Inbox, all: Inbox)
    requires first == Inbox(front.rest, [m] + front.messages) && all == Inbox(both.rest, [m] + both.messages)
    requires both.messages == front.messages + back.messages && both.rest == back.rest
    ensures all.messages == first.messages + back.messages && all.rest == back.rest
  {
  }

  lemma NothingDrained(x: seq<byte>, y: seq<byte>)
    requires !Complete(x)
    ensures Drain(x) == Inbox(x, []) && [] + Drain(x + y).messages == Drain(x + y).messages
  {
  }

  lemma ReceiveShortens(x: seq<byte>)
    ensures Complete(x) ==> Receive(x, []).message.Some? && |Receive(x, []).rest| < |x|
  {
    ReceiveNow(x);
  }

  lemma DrainTakes(x: seq<byte>)
    requires Complete(x)
    ensures
      var receipt := Receive(x, []);
      receipt.message.Some? && Drain(x) == Inbox(Drain(receipt.rest).rest, [receipt.message.value] + Drain(receipt.rest).messages)
  {
    ReceiveNow(x);
  }

  lemma FirstFrameStays(x: seq<byte>, y: seq<byte>)
    requires Complete(x)
    ensures Complete(x + y) && Receive(x + y, []).message == Receive(x, []).message
    ensures Receive(x + y, []).rest == Receive(x, []).rest + y
  {
    ReceiveNow(x);
    ReceiveNow(x + y);
    var end := HEADER + HostOrder(x[..HEADER]);
    SliceOfPrefix(x, y, 0, HEADER);
    SliceOfPrefix(x, y, HEADER, end);
    assert (x + y)[..HEADER] == x[..HEADER];
  }

  /** A read leaves a whole frame behind exactly when what it had to work on held two. */
  lemma LeftBehindExactly(buffered: seq<byte>, chunk: seq<byte>)
    ensures Complete(Receive(buffered, chunk).rest) <==> |Drain(buffered + chunk).messages| >= 2
  {
    ReceiveAppended(buffered, chunk);
    var all := buffered + chunk;
    if Complete(all) {
      DrainTakes(all);
    }
  }

  /** After no read does a whole frame stay in the buffer. */
  predicate NoneLeftBehind(buffered: seq<byte>, chunks: seq<seq<byte>>)
    decreases |chunks|
  {
    chunks == [] ||
      var rest := Receive(buffered, chunks[0]).rest;
      !Complete(rest) && NoneLeftBehind(rest, chunks[1..])
  }

  /** No read brings the end of more than one frame of the stream. */
  predicate OneEndPerRead(received: seq<byte>, chunks: seq<seq<byte>>)
    decreases |chunks|
  {
    chunks == [] ||
      (|Drain(received + chunks[0]).messages| <= |Drain(received).messages| + 1 && OneEndPerRead(received + chunks[0], chunks[1..]))
  }

  /** With everything received so far drained to `buffered`, a read either takes the one frame
      it completes or leaves one behind. */
  lemma ReadAfter(received: seq<byte>, buffered: seq<byte>, chunk: seq<byte>)
    requires Drain(received).rest == buffered
    ensures Complete(Receive(buffered, chunk).rest) <==> |Drain(received + chunk).messages| > |Drain(received).messages| + 1
    ensures !Complete(Receive(buffered, chunk).rest) ==> Drain(received + chunk).rest == Receive(buffered, chunk).rest
  {
    DrainSplit(received, chunk);
    LeftBehindExactly(buffered, chunk);
    ReceiveAppended(buffered, chunk);
  }

  lemma {:induction false} NoneLeftBehindFrom(received: seq<byte>, buffered: seq<byte>, chunks: seq<seq<byte>>)
    requires Drain(received).rest == buffered
    ensures NoneLeftBehind(buffered, chunks) <==> OneEndPerRead(received, chunks)
    decreases |chunks|
  {
    if chunks != [] {
      ReadAfter(received, buffered, chunks[0]);
      if !Complete(Receive(buffered, chunks[0]).rest) {
        NoneLeftBehindFrom(received + chunks[0], Receive(buffered, chunks[0]).rest, chunks[1..]);
      }
    }
  }

  /** On a fresh connection no request is ever left waiting in the buffer if and only if no read
      brings the end of more than one: a client that waits for each answer ensures that. */
  lemma NothingWaitsExactly(chunks: seq<seq<byte>>)
    ensures NoneLeftBehind([], chunks) <==> OneEndPerRead([], chunks)
  {
    NoneLeftBehindFrom([], [], chunks);
  }

  /** One frame per read is all `read_message` takes: two requests that arrive together
      leave the second one whole in the buffer, waiting for a read that may never come. */
  lemma SecondFrameWaits(a: seq<byte>, b: seq<byte>)
    requires |a| < UINT32_MODULUS && |b| < UINT32_MODULUS
    ensures ReceiveAll([], [Frame(a) + Frame(b)]) == Inbox(Frame(b), [a])
    ensures Complete(Frame(b))
  {
    FrameHeader(a, Frame(b));
    FrameHeader(b, []);
    assert Frame(b) + [] == Frame(b);
    var all := Frame(a) + Frame(b);
    assert [] + all == all;
    assert all[HEADER..HEADER + |a|] == a && all[HEADER + |a|..] == Frame(b);
    assert [Frame(a) + Frame(b)][1..] == [];
  }

  /** A client that reads any prefix of a framed stream decodes exactly the first bodies. */
  lemma {:induction false} DrainPrefix(received: seq<byte>, unread: seq<byte>, bodies: seq<seq<byte>>)
    requires Framable(bodies) && received + unread == FrameAll(bodies)
    ensures Delivers(Drain(received), unread, bodies)
    decreases |received|
  {
    if Complete(received) {
      HeadOfStream(received, unread, bodies);
      assert received + [] == received;
      var rest := Receive(received, []).rest;
      DrainPrefix(rest, unread, bodies[1..]);
      DeliversNext(Drain(rest), unread, bodies);
    }
  }

  /** The round trip: draining a whole framed stream gives the bodies back. */
  lemma DrainAll(bodies: seq<seq<byte>>)
    requires Framable(bodies)
    ensures Drain(FrameAll(bodies)) == Inbox([], bodies)
  {
    var stream := FrameAll(bodies);
    assert stream + [] == stream;
    DrainPrefix(stream, [], bodies);
    var inbox := Drain(stream);
    var left := bodies[|inbox.messages|..];
    assert inbox.rest == FrameAll(left);
    if left != [] {
      FrameHeader(left[0], FrameAll(left[1..]));
    }
  }

  lemma {:induction false} FrameAllSnoc(bodies: seq<seq<byte>>, body: seq<byte>)
    ensures FrameAll(bodies + [body]) == FrameAll(bodies) + Frame(body)
  {
    if bodies == [] {
      assert [] + [body] == [body];
      assert FrameAll([body]) == Frame(body) + FrameAll([]);
    } else {
      assert (bodies + [body])[1..] == bodies[1..] + [body];
      FrameAllSnoc(bodies[1..], body);
    }
  }
}
