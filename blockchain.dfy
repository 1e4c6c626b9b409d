/**
 * The `Blockchain` class: the ledger object whose methods update its chain,
 * its pool of pending transactions and its difficulty in place. Each method
 * is proved to make exactly the state change the `Ledger` module describes,
 * and to keep `Ledger.Valid`.
 */
module Chain {
  import opened Wrappers
  import opened Text
  import opened Records
  import opened ProofOfWork
  import Ledger

  class Blockchain {
    /** The SHA-256 implementation the ledger hashes with. */
    const sha: Hasher

    var chain: seq<Block>
    var currentTransactions: seq<Transaction>
    var proofDifficulty: int

    /** The ledger's attributes as one value. */
    function State(): Ledger.State
      reads this
    {
      Ledger.State(chain, currentTransactions, proofDifficulty)
    }

    predicate Valid()
      reads this
    {
      Ledger.Valid(State())
    }

    /** `__init__`: the chain holds only the genesis block; nothing is pending; difficulty 4. */
    constructor (sha: Hasher, now: Timestamp)
      ensures Valid()
      ensures this.sha == sha && State() == Ledger.Init(now)
      ensures |chain| == 1 && chain[0].index == 0 && chain[0].transactions == []
      ensures chain[0].proof == 100 && chain[0].previousHash == Sentinel(1)
      ensures currentTransactions == [] && proofDifficulty == 4
    {
      this.sha := sha;
      var genesis := Ledger.GenesisBlock(now);
      chain := [genesis];
      currentTransactions := [];
      proofDifficulty := Ledger.DefaultProofDifficulty;
    }

    /** `last_block`: the final block; `SystemError` only when the chain is empty, which `Valid` rules out. */
    function LastBlock(): (r: Result<Block, Error>)
      reads this
      ensures r.Success? <==> chain != []
      ensures r.Success? ==> r.value == chain[|chain| - 1]
      ensures r.Failure? ==> r.error == SystemError
      ensures Valid() ==> r.Success?
    {
      if chain == [] then Failure(SystemError) else Success(chain[|chain| - 1])
    }

    /** `update_proof_difficulty`: any int, negative ones included, replaces the difficulty. */
    method UpdateProofDifficulty(newDifficulty: int)
      modifies this
      ensures State() == Ledger.UpdateProofDifficulty(old(State()), newDifficulty)
      ensures proofDifficulty == newDifficulty
      ensures chain == old(chain) && currentTransactions == old(currentTransactions)
      ensures old(Valid()) ==> Valid()
    {
      proofDifficulty := newDifficulty;
    }

    /**
     * `new_transaction`: appends one transaction to the pool and returns
     * `len(chain)`; the chain, and so every sealed block, is left alone.
     */
    method NewTransaction(sender: string, recipient: string, amount: int) returns (index: int)
      modifies this
      ensures (State(), index) == Ledger.NewTransaction(old(State()), sender, recipient, amount)
      ensures currentTransactions == old(currentTransactions) + [Transaction(sender, recipient, amount)]
      ensures chain == old(chain) && proofDifficulty == old(proofDifficulty)
      ensures index == |chain|
      ensures old(Valid()) ==> Valid()
    {
      var transaction := Transaction(sender, recipient, amount);
      currentTransactions := currentTransactions + [transaction];
      index := |chain|;
    }

    /**
     * `new_block`: all or nothing. A rejected proof raises `ValueError` and
     * changes nothing; an accepted one appends one block holding the old
     * pool and re-binds the pool to a fresh empty list.
     */
    method NewBlock(proof: int, previousHash: Option<Link>, now: Timestamp) returns (r: Result<Block, Error>)
      modifies this
      ensures old(Valid()) ==> Valid()
      ensures var spec := Ledger.NewBlock(sha, old(State()), proof, previousHash, now);
        && (spec.Success? ==> r == Success(spec.value.1) && State() == spec.value.0)
        && (spec.Failure? ==> r == Failure(spec.error) && State() == old(State()))
    {
      ghost var before := State();
      var index := |chain| + 1;
      var link: Link;
      if Ledger.IsFalsy(previousHash) {
        var last := LastBlock();
        if last.Failure? {
          Ledger.NewBlockOutcome(sha, before, proof, previousHash, now);
          return Failure(last.error);
        }
        link := HashText(last.value.Hash(sha));
      } else {
        link := previousHash.value;
      }
      var last := LastBlock();
      if last.Failure? {
        Ledger.NewBlockOutcome(sha, before, proof, previousHash, now);
        return Failure(last.error);
      }
      if !ValidProof(sha, proofDifficulty, last.value.proof, proof) {
        Ledger.NewBlockOutcome(sha, before, proof, previousHash, now);
        return Failure(ValueError);
      }
      var block := Block(index, now, currentTransactions, false, proof, link);
      Ledger.NewBlockOutcome(sha, before, proof, previousHash, now);
      if Valid() {
        Ledger.AppendPreservesValid(before, block);
      }
      currentTransactions := [];
      chain := chain + [block];
      r := Success(block);
    }

    /**
     * `proof_of_work`: counts up from 0 to the first proof `valid_proof`
     * accepts. The loop only ends if such a proof exists, which the caller
     * must guarantee; the result is then the least one.
     */
    method ProofOfWork(lastProof: int) returns (newProof: int)
      requires exists p :: 0 <= p && ValidProof(sha, proofDifficulty, lastProof, p)
      ensures 0 <= newProof && ValidProof(sha, proofDifficulty, lastProof, newProof)
      ensures NoValidProofBelow(sha, proofDifficulty, lastProof, newProof)
    {
      ghost var bound :| 0 <= bound && ValidProof(sha, proofDifficulty, lastProof, bound);
      newProof := 0;
      while !ValidProof(sha, proofDifficulty, lastProof, newProof)
        invariant 0 <= newProof <= bound
        invariant NoValidProofBelow(sha, proofDifficulty, lastProof, newProof)
        decreases bound - newProof
      {
        NoValidProofBelowStep(sha, proofDifficulty, lastProof, newProof);
        newProof := newProof + 1;
      }
    }
  }
}
