/** The mining loop of node/pow.py: patch the nonce in place, bump the timestamp when nonces run out. */
module Mining {
  import opened Arith
  import opened Compact
  import opened Merkle
  import opened Model

  const NONCES: nat := 0x1_0000_0000
  const ATTEMPTS: nat := 0x1_0000_0000_0000_0000
  const NONCE_OFFSET: nat := 76

  /** The mutable block that is mined; its timestamp may outgrow the 32-bit header field. */
  class Candidate {
    const version: u32
    const prev: Hash
    const root: Bytes
    var timestamp: nat
    var bits: u32
    var nonce: u32

    constructor (version: u32, prev: Hash, root: Bytes, timestamp: nat, bits: u32, nonce: u32)
      ensures this.version == version && this.prev == prev && this.root == root
      ensures this.timestamp == timestamp && this.bits == bits && this.nonce == nonce
    {
      this.version, this.prev, this.root := version, prev, root;
      this.timestamp, this.bits, this.nonce := timestamp, bits, nonce;
    }

    function Header(): Model.Header
      requires timestamp < NONCES
      reads this
    {
      Model.Header(version, prev, root, timestamp, bits, nonce)
    }
  }

  /** A nonce was found, another thread interrupted, or the timestamp no longer packs. */
  datatype Outcome = Found(nonce: u32) | Interrupted | TimestampOverflow

  /** Attempts in the order they are made: attempt p has timestamp p / 2^32 and nonce p % 2^32. */
  function Attempt(h: Header, p: nat): Header
    requires p < ATTEMPTS
  {
    h.(timestamp := p / NONCES, nonce := p % NONCES)
  }

  predicate Wins(c: Crypto, h: Header, p: nat)
  {
    p < ATTEMPTS && MeetsTarget(c, Attempt(h, p))
  }

  /** Overwriting bytes 76 to 79 of a serialised header is serialising it with that nonce,
      whatever nonce it had before. */
  lemma PatchIsSerialisation(c: Crypto, h: Header, nonce: u32)
    ensures HeaderBytes(c, h)[..NONCE_OFFSET] + LittleEndian(nonce) == HeaderBytes(c, h.(nonce := nonce))
    ensures HeaderBytes(c, h)[..NONCE_OFFSET] == HeaderBytes(c, h.(nonce := nonce))[..NONCE_OFFSET]
  {
    var front := LittleEndian(h.version) + c.hashBytes(h.prev) + c.rootBytes(Packed(h.root))
                 + LittleEndian(h.timestamp) + LittleEndian(h.bits);
    assert HeaderBytes(c, h) == front + LittleEndian(h.nonce);
    assert HeaderBytes(c, h.(nonce := nonce)) == front + LittleEndian(nonce);
    assert |front| == NONCE_OFFSET;
  }

  lemma AttemptAt(h: Header, timestamp: nat, nonce: nat)
    requires timestamp < NONCES && nonce < NONCES
    ensures timestamp * NONCES + nonce < ATTEMPTS
    ensures Attempt(h, timestamp * NONCES + nonce) == h.(timestamp := timestamp, nonce := nonce)
  {
    DivModUnique(timestamp * NONCES + nonce, NONCES, timestamp, nonce);
  }

  /** An attempt wins exactly when the header with its timestamp and nonce hashes to at most the target. */
  lemma WinsIff(c: Crypto, h: Header, timestamp: nat, nonce: nat)
    requires timestamp < 0x1_0000_0000 && nonce < 0x1_0000_0000
    ensures Wins(c, h, timestamp * 0x1_0000_0000 + nonce) <==>
            c.sha(HeaderBytes(c, h.(timestamp := timestamp, nonce := nonce))) <= BitsToTarget(h.bits)
  {
    hide HeaderBytes, BitsToTarget;
    AttemptAt(h, timestamp, nonce);
  }

  /** `struct.pack_into("<I", header, 76, nonce)`. */
  method PatchNonce(header: array<Byte>, nonce: u32)
    requires header.Length == 80
    modifies header
    ensures header[..] == old(header[..])[..NONCE_OFFSET] + LittleEndian(nonce)
  {
    var word := LittleEndian(nonce);
    header[76], header[77], header[78], header[79] := word[0], word[1], word[2], word[3];
  }

  /** One pass of the loop body: patch and hash; the block itself is not re-serialised. */
  method Try(c: Crypto, header: array<Byte>, ghost h: Header, nonce: u32, target: nat) returns (win: bool)
    requires header.Length == 80 && header[..][..NONCE_OFFSET] == HeaderBytes(c, h)[..NONCE_OFFSET]
    requires target == BitsToTarget(h.bits)
    modifies header
    ensures header[..][..NONCE_OFFSET] == HeaderBytes(c, h)[..NONCE_OFFSET]
    ensures win <==> MeetsTarget(c, h.(nonce := nonce))
  {
    PatchNonce(header, nonce);
    PatchIsSerialisation(c, h, nonce);
    win := c.sha(header[..]) <= target;
  }

  method Serialise(c: Crypto, h: Header) returns (header: array<Byte>)
    ensures fresh(header) && header.Length == 80 && header[..] == HeaderBytes(c, h)
  {
    var bytes := HeaderBytes(c, h);
    header := new Byte[80](i requires 0 <= i < 80 => bytes[i]);
  }

  /** `mine_block`: the result is the first winning attempt from the start point, in (timestamp, nonce) order. */
  method MineBlock(c: Crypto, block: Candidate, difficulty: nat, interrupt: nat -> bool, startNonce: int)
    returns (outcome: Outcome, ghost start: nat, ghost stop: nat)
    requires block.timestamp < NONCES
    modifies block
    ensures block.bits == DifficultyToBits(difficulty)
    ensures start == old(block.timestamp) * NONCES + startNonce % NONCES
    ensures var h := Model.Header(block.version, block.prev, block.root, old(block.timestamp), block.bits,
                                  old(block.nonce));
            && start <= stop <= ATTEMPTS
            && (forall p :: start <= p < stop ==> !Wins(c, h, p))
            && (forall k :: 0 <= k < stop - start ==> !interrupt(k))
            && match outcome
               case Found(nonce) =>
                 && stop < ATTEMPTS && Wins(c, h, stop) && !interrupt(stop - start)
                 && block.timestamp < NONCES && block.nonce == nonce
                 && block.Header() == Attempt(h, stop) && MeetsTarget(c, block.Header())
               case Interrupted => stop < ATTEMPTS && interrupt(stop - start)
               case TimestampOverflow => stop == ATTEMPTS
  {
    hide BitsToTarget, DifficultyToBits, MeetsTarget, HeaderBytes, LittleEndian;
    block.bits := DifficultyToBits(difficulty);
    var target := BitsToTarget(block.bits);
    ghost var h := block.Header();
    var header := Serialise(c, block.Header());
    var nonce := startNonce % NONCES;
    var polls := 0;
    start := block.timestamp * NONCES + nonce;
    stop := start;
    while true
      invariant block.timestamp < NONCES && 0 <= nonce < NONCES && polls == stop - start
      invariant stop == block.timestamp * NONCES + nonce && start <= stop
      invariant block.bits == DifficultyToBits(difficulty) == h.bits && block.nonce == h.nonce
      invariant block.Header() == h.(timestamp := block.timestamp)
      invariant fresh(header) && header.Length == 80
      invariant header[..][..NONCE_OFFSET] == HeaderBytes(c, block.Header())[..NONCE_OFFSET]
      invariant forall p :: start <= p < stop ==> !Wins(c, h, p)
      invariant forall k :: 0 <= k < polls ==> !interrupt(k)
      decreases ATTEMPTS - stop
    {
      AttemptAt(h, block.timestamp, nonce);
      if interrupt(polls) {
        return Interrupted, start, stop;
      }
      var win := Try(c, header, block.Header(), nonce, target);
      if win {
        block.nonce := nonce;
        return Found(nonce), start, stop;
      }
      assert !Wins(c, h, stop);
      polls, stop := polls + 1, stop + 1;
      nonce := (nonce + 1) % NONCES;
      if nonce == 0 {
        block.timestamp := block.timestamp + 1;
        if block.timestamp >= NONCES {
          return TimestampOverflow, start, stop;
        }
        header := Serialise(c, block.Header());
      }
    }
  }
}
