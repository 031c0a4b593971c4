/**
 Counter mode (section 6.5 of NIST SP 800-38A) as a stateful stream cipher, with the block
 cipher left uninterpreted, and the scheme of the `.fd` files: the first 65536 bytes are
 encrypted, the rest is plain.
 */
module CounterMode {

  type Byte = bv8

  const BLOCK: nat := 16
  const COUNTERS: nat := 0x1_0000_0000_0000_0000_0000_0000_0000_0000
  const ENCRYPT_SIZE: nat := 65536

  type Block = b: seq<Byte> | |b| == 16 witness [0, 0, 0, 0, 0, 0, 0, 0, 0, 0, 0, 0, 0, 0, 0, 0]

  /** The block cipher under a key, applied to a counter. */
  type BlockCipher = (string, nat) -> Block

  /** Byte `i` of the key stream that starts at counter `initial`. */
  function KeyStream(cipher: BlockCipher, key: string, initial: nat, i: nat): Byte {
    var block := cipher(key, initial + i / BLOCK);
    block[i % BLOCK]
  }

  function Xor(a: Byte, b: Byte): Byte {
    a ^ b
  }

  /** Bytes combined with the key stream from position `from` on. */
  function Masked(cipher: BlockCipher, key: string, initial: nat, from: nat, data: seq<Byte>): (r: seq<Byte>)
    ensures |r| == |data|
  {
    seq(|data|, i requires 0 <= i < |data| => Xor(data[i], KeyStream(cipher, key, initial, from + i)))
  }

  /** The library object: it fails on a counter that does not fit into 16 bytes, so that is its precondition. */
  class CtrStream {
    const cipher: BlockCipher
    const key: string
    const initial: nat
    var position: nat

    constructor (cipher: BlockCipher, key: string, initial: nat)
      requires initial < COUNTERS
      ensures this.cipher == cipher && this.key == key && this.initial == initial && position == 0
    {
      this.cipher, this.key, this.initial := cipher, key, initial;
      position := 0;
    }

    method Decrypt(data: seq<Byte>) returns (out: seq<Byte>)
      requires initial + (position + |data|) / BLOCK < COUNTERS
      modifies this
      ensures out == Masked(cipher, key, initial, old(position), data)
      ensures position == old(position) + |data|
    {
      out := [];
      for i := 0 to |data|
        invariant out == Masked(cipher, key, initial, old(position), data[..i])
        invariant position == old(position) + i
      {
        out := out + [Xor(data[i], KeyStream(cipher, key, initial, position))];
        position := position + 1;
      }
      assert data[..|data|] == data;
    }
  }

  // ----- the whole file -----

  /** The file decrypted from its start in one go. */
  function WholeFile(cipher: BlockCipher, key: string, initial: nat, file: seq<Byte>): (r: seq<Byte>)
    ensures |r| == |file|
  {
    var n := if |file| <= ENCRYPT_SIZE then |file| else ENCRYPT_SIZE;
    Masked(cipher, key, initial, 0, file[..n]) + file[n..]
  }

  /** A piece of the file decrypted where it stands: bytes before 65536 are masked, the others kept. */
  function Piece(cipher: BlockCipher, key: string, initial: nat, start: nat, raw: seq<Byte>): (r: seq<Byte>)
    ensures |r| == |raw|
  {
    seq(|raw|, i requires 0 <= i < |raw| =>
      if start + i < ENCRYPT_SIZE then Xor(raw[i], KeyStream(cipher, key, initial, start + i)) else raw[i])
  }

  /** Decrypting a slice where it stands is slicing the decrypted file. */
  lemma PieceIsSlice(cipher: BlockCipher, key: string, initial: nat, file: seq<Byte>, start: nat, end: nat)
    requires start <= end <= |file|
    ensures Piece(cipher, key, initial, start, file[start..end]) == WholeFile(cipher, key, initial, file)[start..end]
  {
    var whole := WholeFile(cipher, key, initial, file);
    forall i | 0 <= i < end - start
      ensures Piece(cipher, key, initial, start, file[start..end])[i] == whole[start..end][i]
    {
      assert whole[start..end][i] == whole[start + i];
    }
  }

  /** A stream started at a later counter continues the key stream from that block on. */
  lemma LaterCounter(cipher: BlockCipher, key: string, initial: nat, blocks: nat, i: nat)
    ensures KeyStream(cipher, key, initial + blocks, i) == KeyStream(cipher, key, initial, BLOCK * blocks + i)
  {
    assert (BLOCK * blocks + i) / BLOCK == blocks + i / BLOCK;
    assert (BLOCK * blocks + i) % BLOCK == i % BLOCK;
  }

  /** Starting at the block of `start` and skipping the bytes before it gives the key stream from `start`. */
  lemma UnalignedStart(cipher: BlockCipher, key: string, initial: nat, start: nat, data: seq<Byte>)
    ensures Masked(cipher, key, initial + start / BLOCK, start % BLOCK, data)
         == Masked(cipher, key, initial, start, data)
  {
    var blocks, skipped := start / BLOCK, start % BLOCK;
    var a := Masked(cipher, key, initial + blocks, skipped, data);
    var b := Masked(cipher, key, initial, start, data);
    forall i | 0 <= i < |data| ensures a[i] == b[i] {
      LaterCounter(cipher, key, initial, blocks, skipped + i);
      assert BLOCK * blocks + (skipped + i) == start + i;
    }
  }

  /** Sixteen bytes of the key stream are one block of the cipher. */
  lemma KeyStreamIsBlocks(cipher: BlockCipher, key: string, initial: nat, n: nat)
    ensures seq(16, j requires 0 <= j < 16 => KeyStream(cipher, key, initial, 16 * n + j)) == cipher(key, initial + n)
  {
    var bytes := seq(16, j requires 0 <= j < 16 => KeyStream(cipher, key, initial, 16 * n + j));
    forall j | 0 <= j < |bytes| ensures bytes[j] == cipher(key, initial + n)[j] {
      LaterCounter(cipher, key, initial, n, j);
    }
  }

  lemma XorLaws(a: Byte, b: Byte)
    ensures Xor(Xor(a, b), b) == a && Xor(0, b) == b
  {
  }

  /** Masking zeros gives the key stream, and masking twice gives the data back. */
  lemma MaskingLaws(cipher: BlockCipher, key: string, initial: nat, from: nat, data: seq<Byte>, i: nat)
    requires i < |data|
    ensures Masked(cipher, key, initial, from, Masked(cipher, key, initial, from, data))[i] == data[i]
    ensures data[i] == 0 ==> Masked(cipher, key, initial, from, data)[i] == KeyStream(cipher, key, initial, from + i)
  {
    XorLaws(data[i], KeyStream(cipher, key, initial, from + i));
  }

  /** The first 65536 bytes of a file are masked, the others stand as they are. */
  lemma WholeFileBytes(cipher: BlockCipher, key: string, initial: nat, file: seq<Byte>)
    ensures var whole := WholeFile(cipher, key, initial, file);
            && (|file| <= 65536 ==> whole == Masked(cipher, key, initial, 0, file))
            && (|file| >= 65536 ==> whole == Masked(cipher, key, initial, 0, file[..65536]) + file[65536..])
  {
    assert file[..|file|] == file && file[|file|..] == [];
    assert Masked(cipher, key, initial, 0, file) + [] == Masked(cipher, key, initial, 0, file);
  }

  // ----- the initial counter -----

  predicate IsHexText(s: string) {
    forall i | 0 <= i < |s| :: '0' <= s[i] <= '9' || 'a' <= s[i] <= 'f'
  }

  /** What `hexdigest` gives for MD5. */
  type Digest = s: string | |s| == 32 && IsHexText(s) witness "00000000000000000000000000000000"

  /** `int.from_bytes(…, 'big')` of the characters' codes. */
  function BigEndian(s: string): nat {
    if s == "" then 0 else 256 * BigEndian(s[..|s| - 1]) + s[|s| - 1] as nat
  }

  function Power256(n: nat): nat {
    if n == 0 then 1 else 256 * Power256(n - 1)
  }

  lemma {:induction false} HexIsSmall(s: string)
    requires s != "" && IsHexText(s)
    ensures BigEndian(s) < 103 * Power256(|s| - 1)
  {
    if |s| == 1 {
      assert s[..0] == "";
      assert BigEndian(s) == s[0] as nat;
    } else {
      HexIsSmall(s[..|s| - 1]);
    }
  }

  function InitialCounter(key: Digest): nat {
    BigEndian(key[..16])
  }

  lemma AppendFour(s: string, a: char, b: char, c: char, d: char)
    ensures BigEndian(s + [a, b, c, d])
         == 0x1_0000_0000 * BigEndian(s)
          + 0x100_0000 * (a as nat) + 0x1_0000 * (b as nat) + 0x100 * (c as nat) + d as nat
  {
    AppendOne(s, a);
    AppendOne(s + [a], b);
    AppendOne(s + [a] + [b], c);
    AppendOne(s + [a] + [b] + [c], d);
    assert s + [a] + [b] + [c] + [d] == s + [a, b, c, d];
  }

  lemma AppendOne(s: string, c: char)
    ensures BigEndian(s + [c]) == 256 * BigEndian(s) + c as nat
  {
    assert (s + [c])[..|s|] == s;
  }

  /** The counter is the number whose bytes are the first sixteen characters, whatever the others are. */
  lemma CounterOfDigest(rest: string)
    requires |rest| == 16 && IsHexText(rest)
    ensures InitialCounter("0123456789abcdef" + rest) == 0x30313233_34353637_38396162_63646566
  {
    assert ("0123456789abcdef" + rest)[..16] == "" + "0123" + "4567" + "89ab" + "cdef";
    AppendFour("", '0', '1', '2', '3');
    AppendFour("" + "0123", '4', '5', '6', '7');
    AppendFour("" + "0123" + "4567", '8', '9', 'a', 'b');
    AppendFour("" + "0123" + "4567" + "89ab", 'c', 'd', 'e', 'f');
  }

  /** Sixteen hex characters leave room for every block of the encrypted part: no counter reaches 2^128. */
  lemma CounterNeverOverflows(key: Digest, i: nat)
    requires i <= ENCRYPT_SIZE + BLOCK
    ensures InitialCounter(key) + i / BLOCK < COUNTERS
  {
    var s := key[..16];
    HexIsSmall(s);
    assert Power256(15) == 0x1_0000_0000_0000_0000_0000_0000_0000_00 by {
      assert Power256(5) == 0x100_0000_0000;
      assert Power256(10) == 0x1_0000_0000_0000_0000_0000;
    }
  }
}
