/** Transactions, blocks and headers, and the cryptography they are built on, taken as ideal. */
module Model {
  import opened Arith
  import opened Compact
  import opened Merkle

  type Byte = x: nat | x < 256
  type Bytes32 = s: seq<Byte> | |s| == 32 witness seq(32, _ => 0)

  datatype Option<+T> = None | Some(value: T)

  datatype OutPoint = OutPoint(txid: TxId, index: int)

  datatype TxInput = TxInput(txid: TxId, index: int, signature: string, pubkey: string)

  datatype TxOutput = TxOutput(value: int, address: string)

  /** A transaction as stored in a block: its txid is whatever the block says it is. */
  datatype Tx = Tx(txid: TxId, coinbase: bool, inputs: seq<TxInput>, outputs: seq<TxOutput>)

  /** What a signature covers (`_unsigned_body`): everything but the signatures. */
  datatype SigBody = SigBody(chainId: int, spends: seq<(OutPoint, string)>, outputs: seq<TxOutput>)

  /** A block hash: none yet (""), the genesis parent ("00...0"), or the hash of a header. */
  datatype Hash = NoHash | ZeroHash | Of(header: Header)

  datatype Header = Header(version: u32, prev: Hash, root: Bytes, timestamp: u32, bits: u32, nonce: u32)

  datatype Block = Block(index: int, header: Header, txs: seq<Tx>)

  datatype Crypto = Crypto(
    sha: seq<Byte> -> nat,
    hashBytes: Hash -> Bytes32,
    rootBytes: Bytes -> Bytes32,
    publicKey: string -> string,
    sign: (string, SigBody) -> string,
    verify: (string, SigBody, string) -> bool,
    address: string -> string)

  /** What one node runs under: its cryptography, its network, and which blocks serialise to at most 1 MB. */
  datatype Rules = Rules(crypto: Crypto, chainId: int, noRetarget: bool, fits: Block -> bool)

  function Key(i: TxInput): OutPoint { OutPoint(i.txid, i.index) }

  /** A header packs its root into 32 bytes: a longer one is cut off, a shorter one filled up with zeros. */
  function Packed(root: Bytes): (packed: Bytes)
    ensures |packed| == DIGEST_SIZE
    ensures forall i :: 0 <= i < DIGEST_SIZE ==> packed[i] == if i < |root| then root[i] else Literal(0)
    ensures |root| == DIGEST_SIZE ==> packed == root
  {
    if |root| >= DIGEST_SIZE then root[..DIGEST_SIZE] else root + seq(DIGEST_SIZE - |root|, _ => Literal(0))
  }

  function HashOf(b: Block): Hash { Of(b.header.(root := Packed(b.header.root))) }

  function TxIds(txs: seq<Tx>): seq<TxId>
  {
    seq(|txs|, i requires 0 <= i < |txs| => txs[i].txid)
  }

  /** How many headers lie under a hash; the index field itself is not hashed. */
  function Depth(h: Hash): nat
  {
    match h
    case Of(header) => 1 + Depth(header.prev)
    case _ => 0
  }

  // ----- the 80-byte header -----

  /** A 32-bit word, least significant byte first. */
  function LittleEndian(x: u32): (s: seq<Byte>)
    ensures |s| == 4
  {
    [x % 256, x / 0x100 % 256, x / 0x1_0000 % 256, x / 0x100_0000]
  }

  function HeaderBytes(c: Crypto, h: Header): (s: seq<Byte>)
    ensures |s| == 80
  {
    LittleEndian(h.version) + c.hashBytes(h.prev) + c.rootBytes(Packed(h.root))
    + LittleEndian(h.timestamp) + LittleEndian(h.bits) + LittleEndian(h.nonce)
  }

  predicate MeetsTarget(c: Crypto, h: Header)
  {
    c.sha(HeaderBytes(c, h)) <= BitsToTarget(h.bits)
  }

  /** `_block_work`. */
  function BlockWork(b: Block): nat
  {
    TWO_256 / (BitsToTarget(b.header.bits) + 1)
  }

  /** w is how often the target and all hashes below it fit into 256 bits: the expected number of attempts. */
  predicate Attempts(w: nat, target: nat)
  {
    w * (target + 1) <= Pow(256, 32) < (w + 1) * (target + 1)
  }

  lemma WorkBracket(b: Block)
    ensures Attempts(BlockWork(b), BitsToTarget(b.header.bits))
  {
    hide BitsToTarget;
    TwoTo256();
    DivBounds(TWO_256, BitsToTarget(b.header.bits) + 1);
  }

  /** A smaller target never has less work. */
  lemma WorkAntitone(a: Block, b: Block)
    requires BitsToTarget(a.header.bits) <= BitsToTarget(b.header.bits)
    ensures BlockWork(a) >= BlockWork(b)
  {
    hide BitsToTarget, BlockWork;
    WorkBracket(a);
    WorkBracket(b);
    var s, t := BitsToTarget(a.header.bits) + 1, BitsToTarget(b.header.bits) + 1;
    if BlockWork(a) < BlockWork(b) {
      MulMono(BlockWork(a) + 1, BlockWork(b), s);
      MulMono(s, t, BlockWork(b));
    }
  }

  // ----- the layout read back -----

  function ReadLittle(s: seq<Byte>): nat
  {
    if s == [] then 0 else s[0] + 256 * ReadLittle(s[1..])
  }

  lemma FourBytes(a: Byte, b: Byte, c: Byte, d: Byte)
    ensures ReadLittle([a, b, c, d]) == a + 256 * (b + 256 * (c + 256 * d))
  {
    assert [d][1..] == [] && [c, d][1..] == [d] && [b, c, d][1..] == [c, d] && [a, b, c, d][1..] == [b, c, d];
    assert ReadLittle([d]) == d;
    assert ReadLittle([c, d]) == c + 256 * d;
  }

  lemma LittleEndianReads(x: u32)
    ensures ReadLittle(LittleEndian(x)) == x
  {
    var s := LittleEndian(x);
    FourBytes(s[0], s[1], s[2], s[3]);
    assert s == [s[0], s[1], s[2], s[3]];
    assert x / 0x100 / 0x100 == x / 0x1_0000 && x / 0x1_0000 / 0x100 == x / 0x100_0000;
  }

  /** Each field of a header at its offset, numbers least significant byte first. */
  lemma HeaderLayout(c: Crypto, h: Header)
    ensures var s := HeaderBytes(c, h);
            && |s| == 80
            && ReadLittle(s[0..4]) == h.version
            && s[4..36] == c.hashBytes(h.prev)
            && s[36..68] == c.rootBytes(Packed(h.root))
            && ReadLittle(s[68..72]) == h.timestamp
            && ReadLittle(s[72..76]) == h.bits
            && ReadLittle(s[76..80]) == h.nonce
  {
    var s := HeaderBytes(c, h);
    hide LittleEndian, ReadLittle;
    assert s[0..4] == LittleEndian(h.version) && s[4..36] == c.hashBytes(h.prev);
    assert s[36..68] == c.rootBytes(Packed(h.root)) && s[68..72] == LittleEndian(h.timestamp);
    assert s[72..76] == LittleEndian(h.bits) && s[76..80] == LittleEndian(h.nonce);
    LittleEndianReads(h.version);
    LittleEndianReads(h.timestamp);
    LittleEndianReads(h.bits);
    LittleEndianReads(h.nonce);
  }
}
