/** The packet cipher and the crypt-table shuffle of Common/rosecrypt.cpp. */
module Cipher {
  import opened Bytes

  /** The declared size less two, in an unsigned short. */
  function PakSize(p: seq<byte>): nat
    requires |p| >= 2
  {
    (Word(p) + 0x10000 - 2) % 0x10000
  }

  /** The packet after one pass of the cipher. */
  function Crypted(p: seq<byte>): (c: seq<byte>)
    requires |p| >= 2
    ensures |c| == |p|
  {
    seq(|p|, i requires 0 <= i < |p| => if 2 <= i < PakSize(p) then 0x61 ^ p[i] else p[i])
  }

  lemma MaskChanges(b: byte)
    ensures 0x61 ^ b != b && 0x61 ^ b == b ^ 0x61 && (b == 0 ==> 0x61 ^ b == 0x61)
  {
  }

  lemma InOrOut(b: byte, c: byte, masked: bool)
    requires c == if masked then 0x61 ^ b else b
    ensures (c != b <==> masked) && (masked ==> c == b ^ 0x61) && (masked && b == 0 ==> c == 0x61)
  {
    MaskChanges(b);
  }

  lemma LastIs(size: nat, last: nat)
    requires size < 0x10000 && last == (size + 0x10000 - 2) % 0x10000
    ensures last == if size < 2 then size + 0xfffe else size - 2
  {
  }

  /**
   * A byte is changed exactly between the size word and two bytes short of the declared size, and there it is masked;
   * a declared size below two stands for one of 0x10000 more.
   */
  lemma BodyIsMasked(p: seq<byte>, i: nat)
    requires |p| >= 2 && i < |p|
    ensures
      var last := if Word(p) < 2 then Word(p) + 0xfffe else Word(p) - 2;
      && (Crypted(p)[i] != p[i] <==> 2 <= i < last)
      && (2 <= i < last ==> Crypted(p)[i] == p[i] ^ 0x61)
      && (2 <= i < last && p[i] == 0 ==> Crypted(p)[i] == 0x61)
  {
    LastIs(Word(p), PakSize(p));
    InOrOut(p[i], Crypted(p)[i], 2 <= i < PakSize(p));
  }

  /** The pass in place. */
  method CryptPacket(packet: array<byte>)
    requires packet.Length >= 2
    requires PakSize(packet[..]) <= packet.Length
    modifies packet
    ensures packet[..] == Crypted(old(packet[..]))
  {
    var pakSize := (ToNat(packet[0]) + 256 * ToNat(packet[1]) + 0x10000 - 2) % 0x10000;
    ghost var was := packet[..];
    var i := 2;
    while i < pakSize
      invariant 2 <= i && (i <= pakSize || i == 2)
      invariant forall k :: 0 <= k < packet.Length ==>
        packet[k] == if 2 <= k < i then 0x61 ^ was[k] else was[k]
    {
      packet[i] := 0x61 ^ packet[i];
      i := i + 1;
    }
  }

  lemma MaskTwice(b: byte)
    ensures 0x61 ^ (0x61 ^ b) == b
  {
  }

  /** The cipher is its own inverse, whatever size the header declares. */
  lemma CryptIsInvolution(p: seq<byte>)
    requires |p| >= 2
    ensures Crypted(Crypted(p)) == p
    ensures Word(Crypted(p)) == Word(p)
  {
    var c := Crypted(p);
    assert c[0] == p[0] && c[1] == p[1];
    assert PakSize(c) == PakSize(p);
    forall i | 0 <= i < |p|
      ensures Crypted(c)[i] == p[i]
    {
      MaskTwice(p[i]);
    }
  }

  /** Bytes of a packet are only touched between the size word and the last two bytes. */
  lemma CryptOfPrefix(p: seq<byte>, tail: seq<byte>)
    requires |p| >= 6 && Word(p) == |p|
    ensures Crypted(p + tail) == Crypted(p) + tail
  {
    assert Word(p + tail) == |p|;
    assert PakSize(p + tail) == PakSize(p) < |p|;
  }

  // ---------------------------------------------------------------- crypt table

  /** A plain `char`, which is signed on the server's platforms. */
  type schar = x: int | -128 <= x < 128

  function ToChar(x: int): schar {
    var m := x % 256;
    if m < 128 then m else m - 256
  }

  /** The 256 shuffled entries (crypttable[8..264]) with the running checksum position and modifier. */
  datatype Shuffle = Shuffle(table: seq<schar>, csumPos: nat, modifier: nat)

  function StartTable(): (t: seq<schar>)
    ensures |t| == 256
  {
    seq(256, i => ToChar(i))
  }

  ghost predicate Sized(s: Shuffle, checksum: seq<schar>) {
    |s.table| == 256 && s.csumPos < |checksum|
  }

  function ShuffleStep(s: Shuffle, i: nat, checksum: seq<schar>): (r: Shuffle)
    requires Sized(s, checksum) && i < 256
    ensures Sized(r, checksum)
  {
    var cur := s.table[i];
    var m := (checksum[s.csumPos] + cur + s.modifier) % 256;
    Shuffle(s.table[i := s.table[m]][m := cur], (s.csumPos + 1) % |checksum|, m)
  }

  function Shuffled(n: nat, checksum: seq<schar>): (r: Shuffle)
    requires n <= 256 && checksum != []
    ensures Sized(r, checksum)
  {
    if n == 0 then Shuffle(StartTable(), 0, 0)
    else ShuffleStep(Shuffled(n - 1, checksum), n - 1, checksum)
  }

  /** Every byte value sits at exactly one entry. */
  ghost predicate IsPermutation(t: seq<schar>) {
    && |t| == 256
    && (forall i, j :: 0 <= i < j < 256 ==> t[i] != t[j])
    && (forall v: schar :: v in t)
  }

  lemma StartIsPermutation()
    ensures IsPermutation(StartTable())
  {
    var t := StartTable();
    forall v: schar
      ensures v in t
    {
      assert t[v % 256] == v;
    }
  }

  lemma SwapKeepsPermutation(t: seq<schar>, i: nat, m: nat)
    requires IsPermutation(t) && i < 256 && m < 256
    ensures IsPermutation(t[i := t[m]][m := t[i]])
  {
    var u := t[i := t[m]][m := t[i]];
    forall v: schar
      ensures v in u
    {
      assert v in t;
      var k :| 0 <= k < 256 && t[k] == v;
      assert u[if k == i then m else if k == m then i else k] == v;
    }
  }

  /** For every checksum the shuffle leaves a permutation of all 256 byte values, after any number of rounds. */
  lemma {:induction false} ShuffledIsPermutation(n: nat, checksum: seq<schar>)
    requires n <= 256 && checksum != []
    ensures IsPermutation(Shuffled(n, checksum).table)
  {
    if n == 0 {
      StartIsPermutation();
    } else {
      ShuffledIsPermutation(n - 1, checksum);
      var s := Shuffled(n - 1, checksum);
      SwapKeepsPermutation(s.table, n - 1, ShuffleStep(s, n - 1, checksum).modifier);
    }
  }

  lemma TimesIsFar(x: int, len: int)
    requires x != 0 && len > 0
    ensures x * len >= len || x * len <= 0 - len
  {
  }

  /** A number leaves one remainder. */
  lemma OneRemainder(len: int, q: int, a: int, r: int, b: int)
    requires 0 <= a < len && 0 <= b < len && q * len + a == r * len + b
    ensures a == b
  {
    assert (q - r) * len == q * len - r * len;
    if q != r {
      TimesIsFar(q - r, len);
    }
  }

  lemma NextPosition(n: int, q: int, len: int, pos: int)
    requires 0 <= pos < len && n == q * len + pos
    ensures n + 1 == (if pos + 1 == len then q + 1 else q) * len + (pos + 1) % len
  {
    assert (q + 1) * len == q * len + len;
    if pos + 1 < len {
      assert (pos + 1) % len == pos + 1;
    }
  }

  lemma NextOfChecksum(n: nat, checksum: seq<schar>)
    requires 0 < n <= 256 && checksum != []
    ensures Shuffled(n, checksum).csumPos == (Shuffled(n - 1, checksum).csumPos + 1) % |checksum|
  {
  }

  /** The checksum is gone through from its start again and again. */
  lemma {:induction false} ChecksumCycles(n: nat, checksum: seq<schar>) returns (q: nat)
    requires n <= 256 && checksum != []
    ensures n == q * |checksum| + Shuffled(n, checksum).csumPos
  {
    q := 0;
    if n > 0 {
      q := ChecksumCycles(n - 1, checksum);
      var pos := Shuffled(n - 1, checksum).csumPos;
      NextPosition(n - 1, q, |checksum|, pos);
      NextOfChecksum(n, checksum);
      q := if pos + 1 == |checksum| then q + 1 else q;
    }
  }

  /** Before any round entry i holds the byte value i. */
  lemma TableStarts(checksum: seq<schar>, i: nat)
    requires checksum != [] && i < 256
    ensures (Shuffled(0, checksum).table[i] as int) % 256 == i
  {
  }

  lemma Congruent(sum: int, m: int)
    requires m == sum % 256
    ensures (m - sum) % 256 == 0
  {
  }

  /** Swapping two entries, said entry by entry. */
  predicate Exchanged(was: seq<schar>, now: seq<schar>, n: nat, m: nat)
    requires |was| == |now| == 256 && n < 256 && m < 256
  {
    now[n] == was[m] && now[m] == was[n] && forall i :: 0 <= i < 256 && i != n && i != m ==> now[i] == was[i]
  }

  lemma StepExchanges(s: Shuffle, i: nat, checksum: seq<schar>)
    requires Sized(s, checksum) && i < 256
    ensures
      var r := ShuffleStep(s, i, checksum);
      && r.modifier < 256 && Exchanged(s.table, r.table, i, r.modifier)
      && (r.modifier - (checksum[s.csumPos] as int + s.table[i] as int + s.modifier)) % 256 == 0
  {
    Congruent(checksum[s.csumPos] as int + s.table[i] as int + s.modifier, ShuffleStep(s, i, checksum).modifier);
  }

  /**
   * Round n, with the checksum gone through q times and c bytes into it, exchanges entry n with the one at the sum,
   * modulo 256, of that byte of the checksum, of entry n and of where the round before went.
   */
  lemma RoundExchanges(n: nat, q: nat, c: nat, checksum: seq<schar>)
    requires n < 256 && c < |checksum| && n == q * |checksum| + c
    ensures
      var (was, now) := (Shuffled(n, checksum), Shuffled(n + 1, checksum));
      && now.modifier < 256 && Exchanged(was.table, now.table, n, now.modifier)
      && (now.modifier - (checksum[c] as int + was.table[n] as int + was.modifier)) % 256 == 0
    ensures Shuffled(0, checksum).modifier == 0
  {
    var r := ChecksumCycles(n, checksum);
    OneRemainder(|checksum|, q, c, r, Shuffled(n, checksum).csumPos);
    StepExchanges(Shuffled(n, checksum), n, checksum);
  }

  method BuildCryptTable(cryptTable: array<schar>, checksum: seq<schar>)
    requires cryptTable.Length == 264 && checksum != []
    modifies cryptTable
    ensures cryptTable[..8] == seq(8, i => 0)
    ensures cryptTable[8..] == Shuffled(256, checksum).table
    ensures IsPermutation(cryptTable[8..])
  {
    FillTable(cryptTable);
    var csumPos: nat, modifier: nat := 0, 0;
    for i := 0 to 256
      invariant cryptTable[..8] == seq(8, i => 0)
      invariant Shuffle(cryptTable[8..], csumPos, modifier) == Shuffled(i, checksum)
    {
      modifier := SwapEntry(cryptTable, i, checksum[csumPos], modifier);
      csumPos := (csumPos + 1) % |checksum|;
    }
    ShuffledIsPermutation(256, checksum);
  }

  method FillTable(cryptTable: array<schar>)
    requires cryptTable.Length == 264
    modifies cryptTable
    ensures cryptTable[..8] == seq(8, i => 0)
    ensures cryptTable[8..] == StartTable()
  {
    for i := 0 to 8
      invariant forall k :: 0 <= k < i ==> cryptTable[k] == 0
    {
      cryptTable[i] := 0;
    }
    for i := 0 to 256
      invariant cryptTable[..8] == seq(8, i => 0)
      invariant forall k :: 8 <= k < i + 8 ==> cryptTable[k] == ToChar(k - 8)
    {
      cryptTable[i + 8] := ToChar(i);
    }
  }

  /** One round: exchange entry i with the entry the key picks. */
  method SwapEntry(cryptTable: array<schar>, i: nat, key: int, modifier: nat) returns (m: nat)
    requires cryptTable.Length == 264 && i < 256
    modifies cryptTable
    ensures m == (key + old(cryptTable[8 + i]) + modifier) % 256
    ensures cryptTable[..8] == old(cryptTable[..8])
    ensures
      var t := old(cryptTable[8..]);
      cryptTable[8..] == t[i := t[m]][m := t[i]]
  {
    var curPos: int := cryptTable[8 + i];
    m := (key + curPos + modifier) % 256;
    cryptTable[8 + i] := cryptTable[m + 8];
    cryptTable[m + 8] := curPos;
  }
}
