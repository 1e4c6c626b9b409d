/**
 * The ledger's state as a value, and the state change each `Blockchain`
 * operation makes: construction, `last_block`, `new_transaction`,
 * `update_proof_difficulty` and `new_block`. The class in blockchain.dfy is
 * proved to make exactly these changes.
 */
module Ledger {
  import opened Wrappers
  import opened Text
  import opened Records
  import opened ProofOfWork

  /** The ledger's three attributes. */
  datatype State = State(chain: seq<Block>, currentTransactions: seq<Transaction>, proofDifficulty: int)

  const DefaultProofDifficulty: int := 4
  const GenesisProof: int := 100
  const GenesisPreviousHash: Link := Sentinel(1)

  /** `__create_genesis_block`: index 0, no transactions, proof 100, previous hash 1. */
  function GenesisBlock(now: Timestamp): Block {
    Block(0, now, [], false, GenesisProof, GenesisPreviousHash)
  }

  /** The state `__init__` leaves. */
  function Init(now: Timestamp): State {
    State([GenesisBlock(now)], [], DefaultProofDifficulty)
  }

  /**
   * What every reachable state satisfies: the chain starts with a genesis
   * block, every later block at position i carries index i + 1 (the
   * `len(chain) + 1` rule), and no block in it has been serialized.
   */
  predicate Valid(s: State) {
    && |s.chain| >= 1
    && s.chain[0].index == 0
    && s.chain[0].transactions == []
    && s.chain[0].proof == GenesisProof
    && s.chain[0].previousHash == GenesisPreviousHash
    && (forall i :: 1 <= i < |s.chain| ==> s.chain[i].index == i + 1)
    && (forall i :: 0 <= i < |s.chain| ==> !s.chain[i].serialized)
  }

  /** `last_block`: the final block, or `SystemError` on an empty chain. */
  function LastBlock(s: State): (r: Result<Block, Error>)
    ensures r.Success? <==> s.chain != []
    ensures r.Success? ==> r.value == s.chain[|s.chain| - 1]
    ensures r.Failure? ==> r.error == SystemError
  {
    if s.chain == [] then Failure(SystemError) else Success(s.chain[|s.chain| - 1])
  }

  /** `new_transaction`: the new state and the returned `len(chain)`. */
  function NewTransaction(s: State, sender: string, recipient: string, amount: int): (State, int) {
    (s.(currentTransactions := s.currentTransactions + [Transaction(sender, recipient, amount)]), |s.chain|)
  }

  /** `update_proof_difficulty`: any int replaces the difficulty; chain and pool stay. */
  function UpdateProofDifficulty(s: State, newDifficulty: int): (r: State)
    ensures r.proofDifficulty == newDifficulty
    ensures r.chain == s.chain && r.currentTransactions == s.currentTransactions
  {
    s.(proofDifficulty := newDifficulty)
  }

  /** Python's `not previous_hash`: absent, the empty string, or the integer 0. */
  predicate IsFalsy(previousHash: Option<Link>) {
    match previousHash
    case None => true
    case Some(HashText(text)) => text == ""
    case Some(Sentinel(n)) => n == 0
  }

  /**
   * `new_block` with the corrected content hash: the previous hash defaults
   * to the hash of the last block; the proof is checked against the last
   * block's proof; only then are the pending transactions sealed into a new
   * block with index `len(chain) + 1` and the pool replaced by an empty one.
   */
  function NewBlock(sha: Hasher, s: State, proof: int, previousHash: Option<Link>, now: Timestamp)
    : Result<(State, Block), Error>
  {
    var index := |s.chain| + 1;
    match LastBlock(s)
    case Failure(e) => Failure(e)
    case Success(last) =>
      var link := if IsFalsy(previousHash) then HashText(last.Hash(sha)) else previousHash.value;
      if !ValidProof(sha, s.proofDifficulty, last.proof, proof) then Failure(ValueError)
      else
        var block := Block(index, now, s.currentTransactions, false, proof, link);
        Success((State(s.chain + [block], [], s.proofDifficulty), block))
  }

  /**
   * `new_block` as written: hashing the last block can raise `TypeError`
   * (see `Block.HashAsWritten`), before the proof is even looked at.
   */
  function NewBlockAsWritten(sha: Hasher, s: State, proof: int, previousHash: Option<Link>, now: Timestamp)
    : Result<(State, Block), Error>
  {
    var index := |s.chain| + 1;
    match LastBlock(s)
    case Failure(e) => Failure(e)
    case Success(last) =>
      var link :=
        if !IsFalsy(previousHash) then Success(previousHash.value)
        else match last.HashAsWritten(sha)
             case Failure(e) => Failure(e)
             case Success(h) => Success(HashText(h));
      if link.Failure? then Failure(link.error)
      else if !ValidProof(sha, s.proofDifficulty, last.proof, proof) then Failure(ValueError)
      else
        var block := Block(index, now, s.currentTransactions, false, proof, link.value);
        Success((State(s.chain + [block], [], s.proofDifficulty), block))
  }

  // ----- Construction and the invariant -----

  /** A fresh ledger: one genesis block, no pending transactions, difficulty 4. */
  lemma InitValid(now: Timestamp)
    ensures Valid(Init(now))
    ensures LastBlock(Init(now)) == Success(GenesisBlock(now))
    ensures Init(now).currentTransactions == [] && Init(now).proofDifficulty == DefaultProofDifficulty
  {
  }

  /** On a reachable state `last_block` never raises, and the tail carries index `len(chain)` (0 for genesis alone). */
  lemma LastBlockOfValid(s: State)
    requires Valid(s)
    ensures LastBlock(s).Success?
    ensures LastBlock(s).value.index == if |s.chain| == 1 then 0 else |s.chain|
  {
  }

  lemma NewTransactionPreservesValid(s: State, sender: string, recipient: string, amount: int)
    requires Valid(s)
    ensures Valid(NewTransaction(s, sender, recipient, amount).0)
  {
  }

  lemma UpdateProofDifficultyPreservesValid(s: State, newDifficulty: int)
    requires Valid(s)
    ensures Valid(UpdateProofDifficulty(s, newDifficulty))
  {
  }

  /** The three outcomes of `new_block`, spelled out. */
  lemma NewBlockOutcome(sha: Hasher, s: State, proof: int, previousHash: Option<Link>, now: Timestamp)
    ensures s.chain == [] ==> NewBlock(sha, s, proof, previousHash, now) == Failure(SystemError)
    ensures s.chain != [] && !ValidProof(sha, s.proofDifficulty, s.chain[|s.chain| - 1].proof, proof) ==>
      NewBlock(sha, s, proof, previousHash, now) == Failure(ValueError)
    ensures s.chain != [] && ValidProof(sha, s.proofDifficulty, s.chain[|s.chain| - 1].proof, proof) ==>
      var last := s.chain[|s.chain| - 1];
      var b := Block(|s.chain| + 1, now, s.currentTransactions, false, proof,
                     if IsFalsy(previousHash) then HashText(last.Hash(sha)) else previousHash.value);
      NewBlock(sha, s, proof, previousHash, now) == Success((State(s.chain + [b], [], s.proofDifficulty), b))
  {
    if s.chain != [] {
      assert LastBlock(s) == Success(s.chain[|s.chain| - 1]);
    }
  }

  lemma NewBlockPreservesValid(sha: Hasher, s: State, proof: int, previousHash: Option<Link>, now: Timestamp)
    requires Valid(s)
    ensures NewBlock(sha, s, proof, previousHash, now).Success? ==> Valid(NewBlock(sha, s, proof, previousHash, now).value.0)
  {
    if NewBlock(sha, s, proof, previousHash, now).Success? {
      NewBlockSeals(sha, s, proof, previousHash, now);
      var (s', b) := NewBlock(sha, s, proof, previousHash, now).value;
      AppendPreservesValid(s, b);
      assert s' == State(s.chain + [b], [], s.proofDifficulty);
    }
  }

  /** Appending an unserialized block numbered `len(chain) + 1` and emptying the pool keeps `Valid`. */
  lemma AppendPreservesValid(s: State, b: Block)
    requires Valid(s) && b.index == |s.chain| + 1 && !b.serialized
    ensures Valid(State(s.chain + [b], [], s.proofDifficulty))
  {
    assert (s.chain + [b])[0] == s.chain[0];
  }

  /**
   * `update_proof_difficulty` accepts difficulties no proof can meet: above
   * 64, or negative but above -64. From then on every `new_block` raises
   * `ValueError` until the difficulty is changed again.
   */
  lemma UnmeetableDifficultyBlocksSeals(sha: Hasher, s: State, newDifficulty: int,
                                        proof: int, previousHash: Option<Link>, now: Timestamp)
    requires Valid(s)
    requires newDifficulty > DigestLength || -(DigestLength as int) < newDifficulty < 0
    ensures NewBlock(sha, UpdateProofDifficulty(s, newDifficulty), proof, previousHash, now) == Failure(ValueError)
  {
    var s' := UpdateProofDifficulty(s, newDifficulty);
    UpdateProofDifficultyPreservesValid(s, newDifficulty);
    NoValidProofAtUnmeetableDifficulty(sha, newDifficulty, s'.chain[|s'.chain| - 1].proof);
    NewBlockSucceedsIffValidProof(sha, s', proof, previousHash, now);
  }

  /**
   * As written, seals at such a difficulty fail too, but hashing the last
   * block comes first: with no previous hash given and Transaction objects
   * still in the last block, the error is `TypeError` rather than `ValueError`.
   */
  lemma UnmeetableDifficultyBlocksSealsAsWritten(sha: Hasher, s: State, proof: int, previousHash: Option<Link>,
                                                 now: Timestamp)
    requires Valid(s)
    requires s.proofDifficulty > DigestLength || -(DigestLength as int) < s.proofDifficulty < 0
    ensures var last := s.chain[|s.chain| - 1];
      NewBlockAsWritten(sha, s, proof, previousHash, now)
        == if IsFalsy(previousHash) && !last.serialized && last.transactions != [] then Failure(TypeError)
           else Failure(ValueError)
  {
    NewBlockAsWrittenAgrees(sha, s, proof, previousHash, now);
    var last := s.chain[|s.chain| - 1];
    if !(IsFalsy(previousHash) && !last.serialized && last.transactions != []) {
      NoValidProofAtUnmeetableDifficulty(sha, s.proofDifficulty, last.proof);
      NewBlockSucceedsIffValidProof(sha, s, proof, previousHash, now);
    }
  }

  // ----- new_transaction -----

  /**
   * `new_transaction` appends exactly the new transaction to the pool,
   * leaves the chain and the difficulty alone, and returns `len(chain)`.
   */
  lemma NewTransactionAppends(s: State, sender: string, recipient: string, amount: int)
    ensures var (s', index) := NewTransaction(s, sender, recipient, amount);
      && s'.currentTransactions == s.currentTransactions + [Transaction(sender, recipient, amount)]
      && s'.chain == s.chain && s'.proofDifficulty == s.proofDifficulty
      && index == |s.chain|
  {
  }

  // ----- new_block -----

  /**
   * A proof `valid_proof` rejects makes `new_block` raise `ValueError`, and
   * a valid one makes it succeed: on a reachable state nothing else fails.
   * (A failure returns no new state, so the old one stays as it was.)
   */
  lemma NewBlockSucceedsIffValidProof(sha: Hasher, s: State, proof: int, previousHash: Option<Link>, now: Timestamp)
    requires Valid(s)
    ensures NewBlock(sha, s, proof, previousHash, now).Success?
        <==> ValidProof(sha, s.proofDifficulty, s.chain[|s.chain| - 1].proof, proof)
    ensures NewBlock(sha, s, proof, previousHash, now).Failure?
        ==> NewBlock(sha, s, proof, previousHash, now).error == ValueError
  {
    assert LastBlock(s) == Success(s.chain[|s.chain| - 1]);
  }

  /**
   * A successful `new_block` appends exactly one block, leaving the earlier
   * ones untouched; the block has index `len(chain) + 1`, the old pool in
   * insertion order, the given proof, and as previous hash the given one or,
   * when that is falsy, the hash of the old last block; the pool is then
   * empty and the difficulty unchanged.
   */
  lemma NewBlockSeals(sha: Hasher, s: State, proof: int, previousHash: Option<Link>, now: Timestamp)
    requires NewBlock(sha, s, proof, previousHash, now).Success?
    ensures var (s', b) := NewBlock(sha, s, proof, previousHash, now).value;
      && |s.chain| >= 1
      && s'.chain == s.chain + [b]
      && b.index == |s.chain| + 1
      && b.transactions == s.currentTransactions
      && b.proof == proof
      && b.timestamp == now
      && !b.serialized
      && b.previousHash == (if IsFalsy(previousHash) then HashText(s.chain[|s.chain| - 1].Hash(sha))
                            else previousHash.value)
      && s'.currentTransactions == []
      && s'.proofDifficulty == s.proofDifficulty
  {
    var last := s.chain[|s.chain| - 1];
    assert LastBlock(s) == Success(last);
    var link := if IsFalsy(previousHash) then HashText(last.Hash(sha)) else previousHash.value;
    var block := Block(|s.chain| + 1, now, s.currentTransactions, false, proof, link);
    assert NewBlock(sha, s, proof, previousHash, now) == Success((State(s.chain + [block], [], s.proofDifficulty), block));
  }

  /**
   * Sealed blocks are isolated from the pool: transactions queued after a
   * seal go to the new pool and never into the block just sealed.
   */
  lemma SealedBlockIsolated(sha: Hasher, s: State, proof: int, previousHash: Option<Link>, now: Timestamp,
                            sender: string, recipient: string, amount: int)
    requires NewBlock(sha, s, proof, previousHash, now).Success?
    ensures var (s1, b) := NewBlock(sha, s, proof, previousHash, now).value;
            var (s2, _) := NewTransaction(s1, sender, recipient, amount);
      && s2.chain[|s.chain|] == b
      && b.transactions == s.currentTransactions
      && s2.currentTransactions == [Transaction(sender, recipient, amount)]
  {
    NewBlockSeals(sha, s, proof, previousHash, now);
  }

  /**
   * The index `new_transaction` returns is the position the next block will
   * occupy in the chain, but that block's own `index` field is one more.
   */
  lemma TransactionIndexIsPosition(sha: Hasher, s: State, sender: string, recipient: string, amount: int,
                                   proof: int, previousHash: Option<Link>, now: Timestamp)
    requires NewBlock(sha, NewTransaction(s, sender, recipient, amount).0, proof, previousHash, now).Success?
    ensures var (s1, k) := NewTransaction(s, sender, recipient, amount);
            var (s2, b) := NewBlock(sha, s1, proof, previousHash, now).value;
      && s2.chain[k] == b
      && b.index == k + 1
      && b.transactions[|b.transactions| - 1] == Transaction(sender, recipient, amount)
  {
    var (s1, k) := NewTransaction(s, sender, recipient, amount);
    NewBlockSeals(sha, s1, proof, previousHash, now);
  }

  /**
   * On a fresh ledger `new_transaction` returns 1; after one successful
   * seal it returns 2.
   */
  lemma FreshLedgerTransactionIndices(sha: Hasher, now: Timestamp, later: Timestamp, proof: int,
                                      sender: string, recipient: string, amount: int)
    requires ValidProof(sha, DefaultProofDifficulty, GenesisProof, proof)
    ensures var (s1, k1) := NewTransaction(Init(now), sender, recipient, amount);
            var sealed := NewBlock(sha, s1, proof, None, later);
      && k1 == 1
      && sealed.Success?
      && NewTransaction(sealed.value.0, sender, recipient, amount).1 == 2
  {
  }

  // ----- The as-written hash -----

  /**
   * Where `new_block` as written succeeds it does what the corrected
   * `NewBlock` does, and it differs only by raising `TypeError` when no
   * previous hash is given and the last block still holds Transaction
   * objects.
   */
  lemma NewBlockAsWrittenAgrees(sha: Hasher, s: State, proof: int, previousHash: Option<Link>, now: Timestamp)
    requires Valid(s)
    ensures var last := s.chain[|s.chain| - 1];
      if IsFalsy(previousHash) && !last.serialized && last.transactions != [] then
        NewBlockAsWritten(sha, s, proof, previousHash, now) == Failure(TypeError)
      else
        NewBlockAsWritten(sha, s, proof, previousHash, now) == NewBlock(sha, s, proof, previousHash, now)
  {
    var last := s.chain[|s.chain| - 1];
    assert LastBlock(s) == Success(last);
    if IsFalsy(previousHash) {
      var h := last.HashAsWritten(sha);
      assert h.Success? ==> h.value == last.Hash(sha);
    }
  }

  /**
   * The bug, in a concrete sequence of calls: lower the difficulty to 0, queue one
   * transaction and seal it; the next `new_block` without a previous hash
   * raises `TypeError` as written, whatever the proof, while the corrected
   * `NewBlock` seals it.
   */
  lemma SecondSealFailsAsWritten(sha: Hasher, now: Timestamp, t1: Timestamp, t2: Timestamp,
                                 sender: string, recipient: string, amount: int, proof: int, nextProof: int)
    ensures var s0 := UpdateProofDifficulty(Init(now), 0);
            var (s1, _) := NewTransaction(s0, sender, recipient, amount);
            var first := NewBlock(sha, s1, proof, None, t1);
      && first.Success?
      && NewBlockAsWritten(sha, first.value.0, nextProof, None, t2) == Failure(TypeError)
      && NewBlock(sha, first.value.0, nextProof, None, t2).Success?
  {
    InitValid(now);
    var s0 := UpdateProofDifficulty(Init(now), 0);
    UpdateProofDifficultyPreservesValid(Init(now), 0);
    var s1 := NewTransaction(s0, sender, recipient, amount).0;
    NewTransactionPreservesValid(s0, sender, recipient, amount);
    assert s1.proofDifficulty == 0 && |s1.chain| == 1;
    ValidProofZeroDifficulty(sha, s1.chain[0].proof, proof);
    NewBlockSucceedsIffValidProof(sha, s1, proof, None, t1);
    var first := NewBlock(sha, s1, proof, None, t1);
    NewBlockSeals(sha, s1, proof, None, t1);
    NewBlockPreservesValid(sha, s1, proof, None, t1);
    var s2 := first.value.0;
    var b := first.value.1;
    assert s2.chain[|s2.chain| - 1] == b;
    assert b.transactions == [Transaction(sender, recipient, amount)] && !b.serialized;
    NewBlockAsWrittenAgrees(sha, s2, nextProof, None, t2);
    ValidProofZeroDifficulty(sha, b.proof, nextProof);
    NewBlockSucceedsIffValidProof(sha, s2, nextProof, None, t2);
  }
}
