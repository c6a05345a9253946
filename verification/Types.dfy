/** Data types shared by every component.

    Hashes and signatures are symbolic.  A block hash is the term made of the three values that are
    hashed, so it is injective and parent links are well-founded.  A signature is the term "`signer`
    signed `message`", with a salt so that one message can have several signatures; `Malformed` stands
    for bytes that do not decode to a signature. */
module Types {

  datatype Option<+T> = None | Some(value: T)

  type VerifyingKey = nat
  type Bytes = seq<nat>

  datatype Phase = Generic | Prepare | Precommit | Commit | Decide

  datatype CryptoHash =
    | Zero
    | Digest(height: nat, justify: PhaseCertificate, dataHash: nat)

  datatype PhaseCertificate = PhaseCertificate(
    chainId: nat,
    view: nat,
    block: CryptoHash,
    phase: Phase,
    signatures: seq<Option<Signature>>)

  datatype Message =
    | PhaseMessage(chainId: nat, view: nat, block: CryptoHash, phase: Phase)
    | TimeoutMessage(chainId: nat, view: nat)

  datatype Signature = Signed(signer: VerifyingKey, message: Message, salt: nat) | Malformed

  datatype TimeoutCertificate = TimeoutCertificate(
    chainId: nat,
    view: nat,
    signatures: seq<Option<Signature>>)

  datatype Block = Block(
    height: nat,
    hash: CryptoHash,
    justify: PhaseCertificate,
    dataHash: nat,
    data: seq<Bytes>)

  datatype Nudge = Nudge(chainId: nat, view: nat, justify: PhaseCertificate)

  const GENESIS_PC := PhaseCertificate(0, 0, Zero, Generic, [])

  predicate IsGenesisPc(pc: PhaseCertificate) {
    pc == GENESIS_PC
  }

  predicate IsBlockJustify(pc: PhaseCertificate) {
    pc.phase.Generic? || pc.phase.Decide?
  }

  predicate IsNudgeJustify(pc: PhaseCertificate) {
    pc.phase.Prepare? || pc.phase.Precommit? || pc.phase.Commit?
  }

  /** The bytes a voter signs to support the decision that `pc` certifies. */
  function CertifiedMessage(pc: PhaseCertificate): Message {
    PhaseMessage(pc.chainId, pc.view, pc.block, pc.phase)
  }

  function TimedOutMessage(tc: TimeoutCertificate): Message {
    TimeoutMessage(tc.chainId, tc.view)
  }

  predicate Verifies(key: VerifyingKey, message: Message, signature: Signature) {
    signature.Signed? && signature.signer == key && signature.message == message
  }

  /** `a` is `b` or one of the blocks that `b` transitively extends through its justify links. */
  predicate Extends(b: CryptoHash, a: CryptoHash) {
    b == a || (b.Digest? && Extends(b.justify.block, a))
  }

  lemma {:induction false} ExtendsTransitive(c: CryptoHash, b: CryptoHash, a: CryptoHash)
    requires Extends(c, b) && Extends(b, a)
    ensures Extends(c, a)
    decreases c
  {
    if c != b {
      ExtendsTransitive(c.justify.block, b, a);
    }
  }

  /** The ancestors of one block form a single branch. */
  lemma {:induction false} AncestorsAreOneBranch(c: CryptoHash, a: CryptoHash, b: CryptoHash)
    requires Extends(c, a) && Extends(c, b)
    ensures Extends(a, b) || Extends(b, a)
    decreases c
  {
    if c != a && c != b {
      AncestorsAreOneBranch(c.justify.block, a, b);
    }
  }

  /** The block `n` justify links below `b`. */
  function Below(b: CryptoHash, n: nat): CryptoHash {
    if n == 0 || b.Zero? then b else Below(b.justify.block, n - 1)
  }

  /** Number of justify links down to the zero hash. */
  function Depth(h: CryptoHash): nat {
    if h.Zero? then 0 else 1 + Depth(h.justify.block)
  }

  /** An ancestor at the same depth is the block itself. */
  lemma {:induction false} ExtendsDepth(b: CryptoHash, a: CryptoHash)
    requires Extends(b, a)
    ensures Depth(a) <= Depth(b)
    ensures Depth(a) == Depth(b) ==> a == b
    decreases b
  {
    if b != a {
      ExtendsDepth(b.justify.block, a);
    }
  }

  lemma ExtendsAntisymmetric(b: CryptoHash, a: CryptoHash)
    requires Extends(b, a) && Extends(a, b)
    ensures a == b
  {
    ExtendsDepth(b, a);
    ExtendsDepth(a, b);
  }
}
