/** Packet framing: CClientSocket::ReceiveData fed by whatever fragments recv returns. */
module Framing {
  import opened Bytes
  import opened Cipher

  const BUFFER_SIZE: nat := 0x600

  /** What OnReceivePacket answers to the newest of the packets delivered so far. */
  type Handler = seq<seq<byte>> -> bool

  /** A connection: PacketSize, Buffer[..PacketOffset], the packets handed over, and isActive. */
  datatype Conn = Conn(size: nat, got: seq<byte>, inbox: seq<seq<byte>>, open: bool)

  const FRESH_CONN := Conn(6, [], [], true)

  /** `short` from an int. */
  function ToShort(x: int): int {
    var m := x % 0x10000;
    if m < 0x8000 then m else m - 0x10000
  }

  // ------------------------------------------------ one receive

  /** The state of the framing fields at every call of ReceiveData. */
  ghost predicate AtCall(c: Conn) {
    && |c.got| < c.size < 0x8000
    && |c.got| <= BUFFER_SIZE
    && (|c.got| < 6 ==> c.size == 6)
    && (|c.got| >= 6 ==> c.size == Word(c.got))
    && (c.size > BUFFER_SIZE ==> |c.got| == 6)
  }

  /** One call of ReceiveData when recv answers with chunk. */
  function Feed(c: Conn, chunk: seq<byte>, handler: Handler): (r: Conn)
    requires AtCall(c)
    requires |chunk| <= c.size - |c.got|
  {
    var wanted := ToShort(c.size - |c.got|);
    if wanted > BUFFER_SIZE - |c.got| || wanted == 0 || chunk == [] then c.(open := false)
    else
      var got := c.got + chunk;
      if |chunk| != wanted then c.(got := got)
      else if c.size == 6 && Word(got) < 6 then c.(size := Word(got), got := got, open := false)
      else if c.size == 6 && Word(got) > 6 then c.(size := Word(got), got := got)
      else
        var packet := Crypted(got);
        var inbox := c.inbox + [packet];
        if handler(inbox) then Conn(6, [], inbox, c.open) else Conn(c.size, packet, inbox, false)
  }

  // ------------------------------------------------ the one-shot parse

  /** Packets, the undelivered rest, and whether the connection is still up. */
  datatype Outcome = Outcome(packets: seq<seq<byte>>, rest: seq<byte>, up: bool)

  /** Parse a whole stream at once. An oversized header is refused with the first byte that follows it. */
  function Parse(inbox: seq<seq<byte>>, s: seq<byte>, handler: Handler): Outcome
    decreases |s|
  {
    if |s| < 6 then Outcome(inbox, s, true)
    else
      var size := Word(s);
      if size < 6 then Outcome(inbox, [], false)
      else if size > BUFFER_SIZE then (if |s| == 6 then Outcome(inbox, s, true) else Outcome(inbox, [], false))
      else if |s| < size then Outcome(inbox, s, true)
      else
        var inbox' := inbox + [Crypted(s[..size])];
        if handler(inbox') then Parse(inbox', s[size..], handler) else Outcome(inbox', [], false)
  }

  /** Every size word the parse of s meets is below 0x8000. */
  ghost predicate Sane(inbox: seq<seq<byte>>, s: seq<byte>, handler: Handler)
    decreases |s|
  {
    |s| < 6 ||
    var size := Word(s);
    && size < 0x8000
    && (6 <= size <= BUFFER_SIZE && |s| >= size ==>
          var inbox' := inbox + [Crypted(s[..size])];
          handler(inbox') ==> Sane(inbox', s[size..], handler))
  }

  /** What one receive owes the parse: the bytes received and the tail still to come parse as before. */
  ghost predicate Follows(c: Conn, r: Conn, s: seq<byte>, tail: seq<byte>, handler: Handler)
    requires r.open ==> AtCall(r)
  {
    if r.open then
      && Sane(r.inbox, r.got + tail, handler)
      && Parse(c.inbox, s, handler) == Parse(r.inbox, r.got + tail, handler)
    else
      Parse(c.inbox, s, handler) == Outcome(r.inbox, [], false)
  }

  lemma ShortOfLength(x: int)
    requires 0 <= x < 0x8000
    ensures ToShort(x) == x
  {
  }

  /** The packet under construction is completed by this chunk. */
  lemma FeedCompletes(c: Conn, got: seq<byte>, tail: seq<byte>, handler: Handler)
    requires AtCall(c) && c.open && c.size <= BUFFER_SIZE && 6 <= |got| == c.size == Word(got)
    requires Sane(c.inbox, got + tail, handler)
    ensures
      var inbox := c.inbox + [Crypted(got)];
      if handler(inbox) then
        && Sane(inbox, tail, handler)
        && Parse(c.inbox, got + tail, handler) == Parse(inbox, tail, handler)
      else
        Parse(c.inbox, got + tail, handler) == Outcome(inbox, [], false)
  {
    var s := got + tail;
    assert s[0] == got[0] && s[1] == got[1];
    assert s[..c.size] == got;
    assert s[c.size..] == tail;
  }

  /** One receive moves bytes from the stream into the connection and changes nothing about the parse. */
  lemma FeedFollowsParse(c: Conn, chunk: seq<byte>, tail: seq<byte>, handler: Handler)
    requires AtCall(c) && c.open
    requires chunk != [] && |chunk| <= c.size - |c.got|
    requires Sane(c.inbox, c.got + (chunk + tail), handler)
    ensures
      var r := Feed(c, chunk, handler);
      && (r.open ==> AtCall(r))
      && Follows(c, r, c.got + (chunk + tail), tail, handler)
  {
    var got := c.got + chunk;
    assert c.got + (chunk + tail) == got + tail;
    ShortOfLength(c.size - |c.got|);
    if |c.got| >= 6 {
      assert Word(got) == Word(c.got) == Word(got + tail);
    }
    if c.size > BUFFER_SIZE {
    } else if |got| < c.size {
    } else {
      assert Word(got + tail) == Word(got);
      if c.size == 6 && Word(got) != 6 {
      } else {
        FeedCompletes(c, got, tail, handler);
        assert [] + tail == tail;
      }
    }
  }

  // ------------------------------------------------ all of a stream, however it is cut

  /** How many bytes recv returns: at least one, at most what was asked for and what is there. */
  function Take(c: Conn, left: nat, cut: nat): (n: nat)
    requires AtCall(c) && left > 0
    ensures 1 <= n <= left && n <= c.size - |c.got|
  {
    var most := if c.size - |c.got| < left then c.size - |c.got| else left;
    1 + cut % most
  }

  /** ClientMainThread: receive until the stream is used up or the connection is dropped. */
  ghost function Pump(c: Conn, s: seq<byte>, k: nat, cuts: nat -> nat, handler: Handler): Conn
    requires c.open ==> AtCall(c) && Sane(c.inbox, c.got + s, handler)
    decreases |s|
  {
    if !c.open || s == [] then c
    else
      var n := Take(c, |s|, cuts(k));
      assert s == s[..n] + s[n..];
      FeedFollowsParse(c, s[..n], s[n..], handler);
      Pump(Feed(c, s[..n], handler), s[n..], k + 1, cuts, handler)
  }

  lemma PumpStep(c: Conn, s: seq<byte>, k: nat, cuts: nat -> nat, handler: Handler)
    requires AtCall(c) && c.open && Sane(c.inbox, c.got + s, handler) && s != []
    ensures
      var n := Take(c, |s|, cuts(k));
      var r := Feed(c, s[..n], handler);
      && (r.open ==> AtCall(r) && Sane(r.inbox, r.got + s[n..], handler))
      && Pump(c, s, k, cuts, handler) == Pump(r, s[n..], k + 1, cuts, handler)
  {
    var n := Take(c, |s|, cuts(k));
    assert s == s[..n] + s[n..];
    FeedFollowsParse(c, s[..n], s[n..], handler);
  }

  /** However the stream is cut, exactly the packets of the one-shot parse are delivered. */
  lemma {:induction false} PumpIsParse(c: Conn, s: seq<byte>, k: nat, cuts: nat -> nat, handler: Handler)
    requires AtCall(c) && c.open && Sane(c.inbox, c.got + s, handler)
    ensures
      var r := Pump(c, s, k, cuts, handler);
      var whole := Parse(c.inbox, c.got + s, handler);
      && r.inbox == whole.packets
      && r.open == whole.up
      && (r.open ==> r.got == whole.rest && AtCall(r))
    decreases |s|
  {
    if s == [] {
      assert c.got + s == c.got;
    } else {
      var n := Take(c, |s|, cuts(k));
      assert s == s[..n] + s[n..];
      FeedFollowsParse(c, s[..n], s[n..], handler);
      var c' := Feed(c, s[..n], handler);
      if c'.open {
        PumpIsParse(c', s[n..], k + 1, cuts, handler);
      }
    }
  }

  /** Two ways of cutting one stream are indistinguishable to the handler. */
  lemma CutsDoNotMatter(s: seq<byte>, cuts: nat -> nat, cuts': nat -> nat, handler: Handler)
    requires Sane([], [] + s, handler)
    ensures Pump(FRESH_CONN, s, 0, cuts, handler).inbox == Pump(FRESH_CONN, s, 0, cuts', handler).inbox
    ensures Pump(FRESH_CONN, s, 0, cuts, handler).open == Pump(FRESH_CONN, s, 0, cuts', handler).open
  {
    PumpIsParse(FRESH_CONN, s, 0, cuts, handler);
    PumpIsParse(FRESH_CONN, s, 0, cuts', handler);
  }

  // ------------------------------------------------ the socket object

  class ClientSocket {
    var packetSize: nat
    var packetOffset: nat
    const buffer: array<byte>
    var isActive: bool
    var inbox: seq<seq<byte>>

    ghost predicate Valid()
      reads this, buffer
    {
      && buffer.Length == BUFFER_SIZE
      && packetOffset <= BUFFER_SIZE
    }

    /** The framing fields and the packets delivered. */
    ghost function View(): Conn
      reads this, buffer
      requires Valid()
    {
      Conn(packetSize, buffer[..packetOffset], inbox, isActive)
    }

    constructor ()
      ensures Valid() && View() == FRESH_CONN && fresh(buffer)
    {
      packetSize, packetOffset := 6, 0;
      buffer := new byte[BUFFER_SIZE];
      isActive, inbox := true, [];
    }

    /** recv: store what arrived behind the bytes already in the buffer. */
    method Recv(chunk: seq<byte>)
      requires Valid() && |chunk| <= BUFFER_SIZE - packetOffset
      modifies this`packetOffset, buffer
      ensures Valid()
      ensures packetOffset == old(packetOffset) + |chunk|
      ensures buffer[..packetOffset] == old(buffer[..packetOffset]) + chunk
    {
      for i := 0 to |chunk|
        modifies buffer
        invariant buffer[..packetOffset] == old(buffer[..packetOffset])
        invariant forall k :: 0 <= k < i ==> buffer[packetOffset + k] == chunk[k]
      {
        buffer[packetOffset + i] := chunk[i];
      }
      packetOffset := packetOffset + |chunk|;
    }

    /** cryptPacket on the receive buffer touches only the completed packet. */
    method Decrypt()
      requires Valid() && 6 <= packetSize == packetOffset && Word(buffer[..packetOffset]) == packetSize
      modifies buffer
      ensures buffer[..packetOffset] == Crypted(old(buffer[..packetOffset]))
    {
      ghost var packet, rest := buffer[..packetSize], buffer[packetSize..];
      assert buffer[..] == packet + rest;
      CryptOfPrefix(packet, rest);
      CryptPacket(buffer);
      assert buffer[..] == Crypted(packet) + rest;
    }

    /** Decrypt the completed packet and hand it to OnReceivePacket. */
    method Deliver(handler: Handler) returns (ok: bool)
      requires Valid() && 6 <= packetSize == packetOffset
      requires Word(buffer[..packetOffset]) == packetSize
      modifies this`packetSize, this`packetOffset, this`inbox, buffer
      ensures Valid()
      ensures inbox == old(inbox) + [Crypted(old(buffer[..packetOffset]))]
      ensures ok == handler(inbox)
      ensures ok ==> packetSize == 6 && packetOffset == 0
      ensures !ok ==> packetSize == old(packetSize) == packetOffset
                      && buffer[..packetOffset] == Crypted(old(buffer[..packetOffset]))
    {
      Decrypt();
      inbox := inbox + [buffer[..packetSize]];
      if !handler(inbox) {
        return false;
      }
      packetSize := 6;
      packetOffset := 0;
      return true;
    }

    method ReceiveData(chunk: seq<byte>, handler: Handler) returns (ok: bool)
      requires Valid() && AtCall(View()) && isActive
      requires |chunk| <= packetSize - packetOffset
      modifies this`packetSize, this`packetOffset, this`inbox, buffer
      ensures Valid()
      ensures View().(open := ok) == Feed(old(View()), chunk, handler)
    {
      var bytesToRead := ToShort(packetSize - packetOffset);
      ShortOfLength(packetSize - packetOffset);
      if bytesToRead > BUFFER_SIZE - packetOffset {
        return false;
      }
      if bytesToRead == 0 {
        return false;
      }
      if |chunk| == 0 {
        return false;
      }
      Recv(chunk);
      if |chunk| != bytesToRead {
        return true;
      }
      if packetSize == 6 {
        packetSize := ToNat(buffer[0]) + 256 * ToNat(buffer[1]);
        if packetSize < 6 {
          return false;
        }
        if packetSize > 6 {
          return true;
        }
      }
      ok := Deliver(handler);
    }

    /** One turn of the thread's loop: how much recv returns is decided by cut. */
    method Turn(left: seq<byte>, cut: nat, handler: Handler) returns (n: nat)
      requires Valid() && AtCall(View()) && isActive && left != []
      modifies this, buffer
      ensures Valid()
      ensures n == Take(old(View()), |left|, cut)
      ensures View() == Feed(old(View()), left[..n], handler)
    {
      var wanted := packetSize - packetOffset;
      var most := if wanted < |left| then wanted else |left|;
      n := 1 + cut % most;
      var ok := ReceiveData(left[..n], handler);
      isActive := ok;
    }

    /** The receive loop over everything the peer will ever send, cut up by cuts. */
    method ClientMainThread(stream: seq<byte>, cuts: nat -> nat, handler: Handler)
      requires Valid() && AtCall(View()) && isActive
      requires Sane(inbox, View().got + stream, handler)
      modifies this, buffer
      ensures Valid()
      ensures inbox == old(Parse(inbox, View().got + stream, handler)).packets
      ensures isActive == old(Parse(inbox, View().got + stream, handler)).up
    {
      ghost var goal := Pump(View(), stream, 0, cuts, handler);
      PumpIsParse(View(), stream, 0, cuts, handler);
      var left, k := stream, 0;
      while isActive && left != []
        invariant Valid()
        invariant isActive ==> AtCall(View()) && Sane(inbox, View().got + left, handler)
        invariant goal == Pump(View(), left, k, cuts, handler)
        decreases |left|
      {
        PumpStep(View(), left, k, cuts, handler);
        var n := Turn(left, cuts(k), handler);
        left, k := left[n..], k + 1;
      }
    }
  }
}
