/** Typed packet fields: the packet macros of Common/sockets.h, and their way over the wire. */
module Packets {
  import opened Bytes
  import opened Cipher
  import opened Framing

  const PACKET_BUFFER: nat := 0x1000

  /** One add macro with its argument, which the macro's cast truncates. A float travels as its 32-bit pattern. */
  datatype Field =
    | ByteField(v: nat)
    | WordField(v: nat)
    | DwordField(v: nat)
    | QwordField(v: nat)
    | TextField(text: seq<byte>)

  /** strlen: the characters before the first NUL. */
  function StrLen(text: seq<byte>): (n: nat)
    ensures n <= |text|
    ensures forall i :: 0 <= i < n ==> text[i] != 0
    ensures n < |text| ==> text[n] == 0
  {
    if text == [] || text[0] == 0 then 0 else 1 + StrLen(text[1..])
  }

  function Width(f: Field): nat {
    match f
    case ByteField(_) => 1
    case WordField(_) => 2
    case DwordField(_) => 4
    case QwordField(_) => 8
    case TextField(text) => StrLen(text)
  }

  function FieldBytes(f: Field): (s: seq<byte>)
    ensures |s| == Width(f)
  {
    match f
    case TextField(text) => text[..StrLen(text)]
    case _ => LeBytes(f.v % Pow256(Width(f)), Width(f))
  }

  /** The first n of some pieces, one behind the other. */
  function Joined(pieces: seq<seq<byte>>, n: nat): seq<byte>
    requires n <= |pieces|
  {
    if n == 0 then [] else Joined(pieces, n - 1) + pieces[n - 1]
  }

  function Pieces(fields: seq<Field>): (p: seq<seq<byte>>)
    ensures |p| == |fields| && forall i :: 0 <= i < |p| ==> p[i] == FieldBytes(fields[i])
  {
    seq(|fields|, i requires 0 <= i < |fields| => FieldBytes(fields[i]))
  }

  /** The bytes of the first n fields. */
  function BodyTo(fields: seq<Field>, n: nat): seq<byte>
    requires n <= |fields|
  {
    Joined(Pieces(fields), n)
  }

  function BodyOf(fields: seq<Field>): seq<byte> {
    BodyTo(fields, |fields|)
  }

  /** The cumulative offset of field i: the reader adds up the widths of the fields before it. */
  function OffsetOf(fields: seq<Field>, i: nat): nat
    requires i <= |fields|
  {
    if i == 0 then 0 else OffsetOf(fields, i - 1) + Width(fields[i - 1])
  }

  /** The bytes of a CPacket that send puts on the wire: Size, Command, Unused, then the body. */
  function Wire(size: nat, command: nat, unused: nat, body: seq<byte>): (w: seq<byte>)
    requires size < 0x10000 && command < 0x10000 && unused < 0x10000
    ensures |w| == 6 + |body|
    ensures Word(w) == size
  {
    assert Pow256(2) == 0x10000;
    var w := LeBytes(size, 2) + LeBytes(command, 2) + LeBytes(unused, 2) + body;
    LeValueOfLeBytes(size, 2);
    WordIsLeValue(w);
    assert w[..2] == LeBytes(size, 2);
    w
  }

  function WireOf(command: nat, unused: nat, fields: seq<Field>): (w: seq<byte>)
    requires command < 0x10000 && unused < 0x10000 && 6 + |BodyOf(fields)| < 0x10000
    ensures |w| == 6 + |BodyOf(fields)| == Word(w)
  {
    Wire(6 + |BodyOf(fields)|, command, unused, BodyOf(fields))
  }

  /** GETBYTE, GETWORD, GETDWORD, GETQWORD. */
  function Get(body: seq<byte>, offset: nat, width: nat): nat
    requires offset + width <= |body|
  {
    LeValue(body[offset..offset + width])
  }

  /** `(char*)&P->Buffer[offset]` read as a C string. */
  function GetString(body: seq<byte>, offset: nat): seq<byte>
    requires offset <= |body|
  {
    body[offset..][..StrLen(body[offset..])]
  }

  /** Reading field f at the given offset of a received body gives back what was written. */
  ghost predicate ReadsBack(body: seq<byte>, offset: nat, f: Field) {
    match f
    case ByteField(v) => offset + 1 <= |body| && Get(body, offset, 1) == v % 0x100
    case WordField(v) => offset + 2 <= |body| && Get(body, offset, 2) == v % 0x1_0000
    case DwordField(v) => offset + 4 <= |body| && Get(body, offset, 4) == v % 0x1_0000_0000
    case QwordField(v) => offset + 8 <= |body| && Get(body, offset, 8) == v % 0x1_0000_0000_0000_0000
    case TextField(text) =>
      offset + StrLen(text) <= |body| && body[offset..offset + StrLen(text)] == text[..StrLen(text)]
  }

  lemma Powers()
    ensures Pow256(1) == 0x100 && Pow256(2) == 0x1_0000 && Pow256(4) == 0x1_0000_0000
    ensures Pow256(8) == 0x1_0000_0000_0000_0000
  {
    assert Pow256(4) == 256 * Pow256(3) && Pow256(3) == 256 * Pow256(2) && Pow256(2) == 256 * Pow256(1);
    assert Pow256(8) == 256 * Pow256(7) && Pow256(7) == 256 * Pow256(6);
    assert Pow256(6) == 256 * Pow256(5) && Pow256(5) == 256 * Pow256(4);
  }

  // ------------------------------------------------ reading back

  lemma PrefixOfLonger(a: seq<byte>, b: seq<byte>, c: seq<byte>)
    requires a <= b
    ensures a <= b + c
  {
  }

  lemma {:induction false} JoinedPrefix(pieces: seq<seq<byte>>, i: nat, n: nat)
    requires i <= n <= |pieces|
    ensures Joined(pieces, i) <= Joined(pieces, n)
    decreases n
  {
    if i < n {
      JoinedPrefix(pieces, i, n - 1);
      PrefixOfLonger(Joined(pieces, i), Joined(pieces, n - 1), pieces[n - 1]);
    }
  }

  lemma BodyPrefix(fields: seq<Field>, i: nat, n: nat)
    requires i <= n <= |fields|
    ensures BodyTo(fields, i) <= BodyTo(fields, n)
  {
    JoinedPrefix(Pieces(fields), i, n);
  }

  lemma {:induction false} OffsetIsLength(fields: seq<Field>, i: nat)
    requires i <= |fields|
    ensures OffsetOf(fields, i) == |BodyTo(fields, i)|
  {
    if i > 0 {
      OffsetIsLength(fields, i - 1);
    }
  }

  lemma SliceOfConcat(a: seq<byte>, b: seq<byte>, whole: seq<byte>)
    requires a + b <= whole
    ensures whole[|a|..|a| + |b|] == b
  {
    assert whole[..|a| + |b|] == a + b;
  }

  lemma FieldAtOffset(fields: seq<Field>, i: nat)
    requires i < |fields|
    ensures
      var o := OffsetOf(fields, i);
      && o + Width(fields[i]) <= |BodyOf(fields)|
      && BodyOf(fields)[o..o + Width(fields[i])] == FieldBytes(fields[i])
  {
    BodyPrefix(fields, i + 1, |fields|);
    OffsetIsLength(fields, i);
    SliceOfConcat(BodyTo(fields, i), FieldBytes(fields[i]), BodyOf(fields));
  }

  /** Every field of a body is found at its cumulative offset. */
  lemma FieldsReadBack(fields: seq<Field>, i: nat)
    requires i < |fields|
    ensures ReadsBack(BodyOf(fields), OffsetOf(fields, i), fields[i])
  {
    FieldAtOffset(fields, i);
    var f := fields[i];
    Powers();
    if !f.TextField? {
      LeValueOfLeBytes(f.v % Pow256(Width(f)), Width(f));
    }
  }

  lemma StrLenIs(s: seq<byte>, n: nat)
    requires n < |s| && s[n] == 0
    requires forall i :: 0 <= i < n ==> s[i] != 0
    ensures StrLen(s) == n
  {
  }

  lemma ZeroByte()
    ensures FieldBytes(ByteField(0)) == [0]
  {
    assert 0 % Pow256(1) == 0 && LeBytes(0, 1) == [0] + LeBytes(0, 0);
  }

  lemma CStringAt(body: seq<byte>, o: nat, text: seq<byte>)
    requires o + StrLen(text) + 1 <= |body|
    requires body[o..o + StrLen(text)] == text[..StrLen(text)]
    requires body[o + StrLen(text)..o + StrLen(text) + 1] == [0]
    ensures GetString(body, o) == text[..StrLen(text)]
  {
    var s, n := body[o..], StrLen(text);
    assert s[n] == body[o + n..o + n + 1][0];
    forall i | 0 <= i < n
      ensures s[i] != 0
    {
      assert s[i] == body[o..o + n][i] == text[i];
    }
    StrLenIs(s, n);
    assert s[..n] == body[o..o + n];
  }

  lemma TextAt(fields: seq<Field>, i: nat, text: seq<byte>)
    requires i < |fields| && fields[i] == TextField(text)
    ensures
      var o, n := OffsetOf(fields, i), StrLen(text);
      o + n <= |BodyOf(fields)| && BodyOf(fields)[o..o + n] == text[..n]
  {
    FieldAtOffset(fields, i);
  }

  lemma NulAt(fields: seq<Field>, i: nat)
    requires i < |fields| && fields[i] == ByteField(0)
    ensures
      var o := OffsetOf(fields, i);
      o + 1 <= |BodyOf(fields)| && BodyOf(fields)[o..o + 1] == [0]
  {
    FieldAtOffset(fields, i);
    ZeroByte();
  }

  /** A string whose terminator is added as a byte of its own reads back as a C string. */
  lemma TextReadsBack(fields: seq<Field>, i: nat, text: seq<byte>)
    requires i + 1 < |fields| && fields[i] == TextField(text) && fields[i + 1] == ByteField(0)
    ensures OffsetOf(fields, i) <= |BodyOf(fields)|
    ensures GetString(BodyOf(fields), OffsetOf(fields, i)) == text[..StrLen(text)]
  {
    TextAt(fields, i, text);
    NulAt(fields, i + 1);
    CStringAt(BodyOf(fields), OffsetOf(fields, i), text);
  }

  // ------------------------------------------------ over the wire

  /** A packet as built by the macros: its size word is its length, and it fits the receive buffer. */
  ghost predicate Sendable(w: seq<byte>) {
    6 <= |w| <= BUFFER_SIZE && Word(w) == |w|
  }

  ghost predicate AllSendable(wires: seq<seq<byte>>) {
    forall i :: 0 <= i < |wires| ==> Sendable(wires[i])
  }

  /** Encrypted packets sent back to back. */
  ghost function StreamOf(wires: seq<seq<byte>>): seq<byte>
    requires AllSendable(wires)
  {
    if wires == [] then [] else Crypted(wires[0]) + StreamOf(wires[1..])
  }

  /** A packet in front of the rest. */
  lemma OneParses(before: seq<seq<byte>>, w: seq<byte>, rest: seq<byte>, handler: Handler)
    requires Sendable(w) && handler(before + [w])
    ensures Sane(before + [w], rest, handler) ==> Sane(before, Crypted(w) + rest, handler)
    ensures Parse(before, Crypted(w) + rest, handler) == Parse(before + [w], rest, handler)
  {
    var c := Crypted(w);
    var s := c + rest;
    CryptIsInvolution(w);
    assert s[0] == c[0] && s[1] == c[1];
    assert s[..|w|] == c && s[|w|..] == rest;
  }

  /** The receiver's one-shot parse of a stream gives the packets sent and goes on behind them. */
  lemma {:induction false} StreamParsesOn(before: seq<seq<byte>>, wires: seq<seq<byte>>, tail: seq<byte>,
                                          handler: Handler)
    requires AllSendable(wires) && Sane(before + wires, tail, handler)
    requires forall n :: |before| < n <= |before| + |wires| ==> handler((before + wires)[..n])
    ensures Sane(before, StreamOf(wires) + tail, handler)
    ensures Parse(before, StreamOf(wires) + tail, handler) == Parse(before + wires, tail, handler)
    decreases |wires|
  {
    if wires == [] {
      assert before + wires == before && StreamOf(wires) + tail == tail;
    } else {
      var w := wires[0];
      assert before + [w] + wires[1..] == before + wires;
      assert (before + wires)[..|before| + 1] == before + [w];
      assert StreamOf(wires) + tail == Crypted(w) + (StreamOf(wires[1..]) + tail);
      StreamParsesOn(before + [w], wires[1..], tail, handler);
      OneParses(before, w, StreamOf(wires[1..]) + tail, handler);
    }
  }

  /** Nothing but packets: exactly the packets sent. */
  lemma StreamParses(before: seq<seq<byte>>, wires: seq<seq<byte>>, handler: Handler)
    requires AllSendable(wires)
    requires forall n :: |before| < n <= |before| + |wires| ==> handler((before + wires)[..n])
    ensures Sane(before, StreamOf(wires), handler)
    ensures Parse(before, StreamOf(wires), handler) == Outcome(before + wires, [], true)
  {
    StreamParsesOn(before, wires, [], handler);
    assert StreamOf(wires) + [] == StreamOf(wires);
  }

  /** Packets encrypted, sent back to back and received in arbitrary fragments arrive byte for byte, one for one. */
  lemma EndToEnd(wires: seq<seq<byte>>, cuts: nat -> nat, handler: Handler)
    requires AllSendable(wires)
    requires forall n :: 0 < n <= |wires| ==> handler(wires[..n])
    ensures Sane([], [] + StreamOf(wires), handler)
    ensures Pump(FRESH_CONN, StreamOf(wires), 0, cuts, handler) == Conn(6, [], wires, true)
  {
    assert [] + wires == wires && [] + StreamOf(wires) == StreamOf(wires);
    StreamParses([], wires, handler);
    PumpIsParse(FRESH_CONN, StreamOf(wires), 0, cuts, handler);
  }

  /** Packets with something else behind them, whatever the cuts. */
  lemma PumpOn(wires: seq<seq<byte>>, tail: seq<byte>, cuts: nat -> nat, handler: Handler)
    requires AllSendable(wires) && (forall n :: 0 < n <= |wires| ==> handler(wires[..n])) && Sane(wires, tail, handler)
    ensures Sane([], [] + (StreamOf(wires) + tail), handler)
    ensures
      var r := Pump(FRESH_CONN, StreamOf(wires) + tail, 0, cuts, handler);
      var whole := Parse(wires, tail, handler);
      r.inbox == whole.packets && r.open == whole.up && (r.open ==> r.got == whole.rest)
  {
    assert [] + wires == wires && [] + (StreamOf(wires) + tail) == StreamOf(wires) + tail;
    StreamParsesOn([], wires, tail, handler);
    PumpIsParse(FRESH_CONN, StreamOf(wires) + tail, 0, cuts, handler);
  }

  /** A header that declares less than a header, or more than the buffer with bytes to come, ends the connection. */
  lemma BadSizeDrops(wires: seq<seq<byte>>, tail: seq<byte>, cuts: nat -> nat, handler: Handler)
    requires AllSendable(wires) && (forall n :: 0 < n <= |wires| ==> handler(wires[..n])) && |tail| >= 6
    requires
      var size := ToNat(tail[0]) + 256 * ToNat(tail[1]);
      size < 6 || (0x600 < size < 0x8000 && |tail| > 6)
    ensures Sane([], [] + (StreamOf(wires) + tail), handler)
    ensures
      var r := Pump(FRESH_CONN, StreamOf(wires) + tail, 0, cuts, handler);
      r.inbox == wires && !r.open
  {
    PumpOn(wires, tail, cuts, handler);
  }

  /** A packet that has not arrived whole is kept and waited for. */
  lemma PartIsKept(wires: seq<seq<byte>>, part: seq<byte>, cuts: nat -> nat, handler: Handler)
    requires AllSendable(wires) && forall n :: 0 < n <= |wires| ==> handler(wires[..n])
    requires |part| < 6 || 6 <= |part| < ToNat(part[0]) + 256 * ToNat(part[1]) <= 0x600
    ensures Sane([], [] + (StreamOf(wires) + part), handler)
    ensures
      var r := Pump(FRESH_CONN, StreamOf(wires) + part, 0, cuts, handler);
      r.inbox == wires && r.open && r.got == part
  {
    PumpOn(wires, part, cuts, handler);
  }

  /** A packet its handler refuses is the last one delivered, whatever follows it. */
  lemma RefusalDrops(wires: seq<seq<byte>>, w: seq<byte>, rest: seq<byte>, cuts: nat -> nat, handler: Handler)
    requires AllSendable(wires) && Sendable(w)
    requires (forall n :: 0 < n <= |wires| ==> handler(wires[..n])) && !handler(wires + [w])
    ensures Sane([], [] + (StreamOf(wires) + (Crypted(w) + rest)), handler)
    ensures
      var r := Pump(FRESH_CONN, StreamOf(wires) + (Crypted(w) + rest), 0, cuts, handler);
      r.inbox == wires + [w] && !r.open
  {
    var c := Crypted(w);
    var tail := c + rest;
    CryptIsInvolution(w);
    assert tail[0] == c[0] && tail[1] == c[1] && tail[..|w|] == c;
    PumpOn(wires, tail, cuts, handler);
  }

  lemma WireLayout(command: nat, unused: nat, fields: seq<Field>)
    requires command < 0x10000 && unused < 0x10000 && 6 + |BodyOf(fields)| < 0x10000
    ensures Get(WireOf(command, unused, fields), 2, 2) == command
    ensures WireOf(command, unused, fields)[6..] == BodyOf(fields)
  {
    assert Pow256(2) == 0x10000;
    LeValueOfLeBytes(command, 2);
    assert WireOf(command, unused, fields)[2..4] == LeBytes(command, 2);
  }

  /**
   * Fields written with the macros, encrypted, sent and received in arbitrary fragments come back to the receiver's
   * handler as the same command and the same values.
   */
  lemma FieldsEndToEnd(command: nat, unused: nat, fields: seq<Field>, cuts: nat -> nat, handler: Handler)
    requires command < 0x10000 && unused < 0x10000 && 6 + |BodyOf(fields)| <= BUFFER_SIZE
    requires handler([WireOf(command, unused, fields)])
    ensures
      var sent := Crypted(WireOf(command, unused, fields));
      && Sane([], [] + sent, handler)
      && var inbox := Pump(FRESH_CONN, sent, 0, cuts, handler).inbox;
      && |inbox| == 1 && |inbox[0]| == 6 + |BodyOf(fields)|
      && Get(inbox[0], 2, 2) == command
      && forall i :: 0 <= i < |fields| ==> ReadsBack(inbox[0][6..], OffsetOf(fields, i), fields[i])
  {
    var w := WireOf(command, unused, fields);
    SingleEndToEnd(w, cuts, handler);
    WireLayout(command, unused, fields);
    forall i | 0 <= i < |fields|
      ensures ReadsBack(w[6..], OffsetOf(fields, i), fields[i])
    {
      FieldsReadBack(fields, i);
    }
  }

  lemma SingleEndToEnd(w: seq<byte>, cuts: nat -> nat, handler: Handler)
    requires Sendable(w) && handler([w])
    ensures Sane([], [] + Crypted(w), handler)
    ensures Pump(FRESH_CONN, Crypted(w), 0, cuts, handler).inbox == [w]
  {
    assert [w][..1] == [w];
    assert StreamOf([w]) == Crypted(w) + [] == Crypted(w);
    EndToEnd([w], cuts, handler);
  }

  // ------------------------------------------------ the packet object

  class Packet {
    var size: nat
    var command: nat
    var unused: nat
    const buffer: array<byte>

    ghost predicate Valid()
      reads this
    {
      && buffer.Length == PACKET_BUFFER
      && 6 <= size <= PACKET_BUFFER + 6
      && command < 0x10000 && unused < 0x10000
    }

    ghost function Body(): seq<byte>
      reads this, buffer
      requires Valid()
    {
      buffer[..size - 6]
    }

    /** BEGINPACKET; the unused word and the buffer keep whatever was in memory. */
    constructor Begin(command: nat, garbage: nat)
      requires command < 0x10000 && garbage < 0x10000
      ensures Valid() && fresh(buffer)
      ensures this.command == command && unused == garbage && Body() == []
    {
      this.command, size, unused := command, 6, garbage;
      buffer := new byte[PACKET_BUFFER];
    }

    /** The store behind ADDBYTE, ADDWORD, ADDDWORD and ADDQWORD, truncated to width bytes. */
    method Store(v: nat, width: nat)
      requires Valid() && size - 6 + width <= PACKET_BUFFER
      modifies this`size, buffer
      ensures Valid()
      ensures Body() == old(Body()) + LeBytes(v % Pow256(width), width)
    {
      var rest: nat := v % Pow256(width);
      ghost var word := LeBytes(rest, width);
      for k := 0 to width
        modifies buffer
        invariant rest < Pow256(width - k) && LeBytes(rest, width - k) == word[k..]
        invariant buffer[..size - 6] == old(Body())
        invariant buffer[size - 6..size - 6 + k] == word[..k]
      {
        assert word[k] == LeBytes(rest, width - k)[0];
        assert word[k..][1..] == word[k + 1..];
        buffer[size - 6 + k] := ToByte(rest % 256);
        rest := rest / 256;
        assert word[..k + 1] == word[..k] + [word[k]];
      }
      size := size + width;
    }

    /** ADDSTRING: one ADDBYTE a character up to the NUL. */
    method AddString(text: seq<byte>)
      requires Valid() && size - 6 + StrLen(text) <= PACKET_BUFFER
      modifies this`size, buffer
      ensures Valid()
      ensures Body() == old(Body()) + text[..StrLen(text)]
    {
      var q := 0;
      while q < StrLen(text)
        modifies this`size, buffer
        invariant Valid() && q <= StrLen(text) && size == old(size) + q
        invariant Body() == old(Body()) + text[..q]
      {
        buffer[size - 6] := text[q];
        size := size + 1;
        q := q + 1;
      }
    }

    method Add(f: Field)
      requires Valid() && size - 6 + Width(f) <= PACKET_BUFFER
      modifies this`size, buffer
      ensures Valid()
      ensures Body() == old(Body()) + FieldBytes(f)
    {
      match f
      case TextField(text) => AddString(text);
      case _ => Store(f.v, Width(f));
    }

    method AddNext(fields: seq<Field>, i: nat)
      requires Valid() && i < |fields| && |BodyOf(fields)| <= PACKET_BUFFER
      requires Body() == BodyTo(fields, i)
      modifies this`size, buffer
      ensures Valid()
      ensures Body() == BodyTo(fields, i + 1)
    {
      RoomForNext(fields, i);
      Add(fields[i]);
    }

    /** A packet filled by a run of add macros has the size and body that WireOf puts on the wire. */
    method AddAll(fields: seq<Field>)
      requires Valid() && size == 6 && |BodyOf(fields)| <= PACKET_BUFFER
      modifies this`size, buffer
      ensures Valid()
      ensures Body() == BodyOf(fields)
      ensures size == 6 + |BodyOf(fields)|
    {
      for i := 0 to |fields|
        modifies this`size, buffer
        invariant Valid() && Body() == BodyTo(fields, i)
      {
        AddNext(fields, i);
      }
    }
  }

  lemma RoomForNext(fields: seq<Field>, i: nat)
    requires i < |fields|
    ensures |BodyTo(fields, i)| + Width(fields[i]) <= |BodyOf(fields)|
  {
    BodyPrefix(fields, i + 1, |fields|);
  }
}
