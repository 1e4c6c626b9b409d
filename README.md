# A verified model of the blockchain.py ledger

This project models the ledger engine of `blockchain.py` in Dafny. That engine is a toy
proof-of-work blockchain. A `Blockchain` object holds three things:

- an append-only `chain` of `Block`s, starting with a fixed genesis block;
- a pool of pending `Transaction`s;
- an integer `proof_difficulty`.

`new_transaction` queues a transfer. `new_block` seals the pool into a new block, but only
when the supplied proof passes `valid_proof` against the proof of the last block.
`valid_proof` asks whether the SHA-256 hex digest of the two proofs' decimal forms,
concatenated, starts with `proof_difficulty` zeros. `proof_of_work` searches upward from 0
for the first proof that passes. Blocks and transactions are hashed through
`SHA256Hashable.hash`, which is SHA-256 of `json.dumps(self.__dict__, sort_keys=True)`.

Modules, one file each:

- `Text` (text.dfy): the Python string operations the ledger relies on, exactly as Python
  defines them: `str(n)`, `n * "0"` and the slice `s[:n]`, negative `n` included. Also the
  shape of a `hexdigest()`, and `Hasher`, the type of the SHA-256 function.
- `Json` (json.dfy): the values `json.dumps` sees, a key-sorted encoder for them
  (`sort_keys=True`), and the proof that the text does not depend on the order in which a
  dict's keys were inserted.
- `Records` (records.dfy): `Transaction`, `Block`, `serialize` and content hashing.
- `ProofOfWork` (proof_of_work.dfy): `valid_proof` and its meaning for every difficulty.
- `Ledger` (ledger.dfy): the ledger's state as a value, and the change each operation
  makes. The multi-step properties are proved here.
- `Chain` (blockchain.dfy): the `Blockchain` class. Its fields are updated in place.
  - Each method is proved to make exactly the change `Ledger` describes and to keep the
    invariant `Ledger.Valid`.
  - `Blockchain.NewBlock` hashes the last block with the corrected `Block.Hash`. It therefore
    never raises the TypeError that blockchain.py:142 raises (see "## Findings").
  - `ProofOfWork` is the source's while-loop, with its invariants.

SHA-256 is the parameter `sha: Hasher`: any function from strings to 64 lowercase hex
characters. Every result holds whichever such function is supplied. The clock is also a
parameter: each new block receives its timestamp, as the text `json.dumps` writes for it.

The model follows the code, including three behaviours the docstrings do not mention:

- A negative difficulty is accepted by `update_proof_difficulty` (blockchain.py:121-124).
  No error is raised for it.
- The code checks `valid_proof` with Python's slice and string repetition. As a result:
  - a negative difficulty `d` accepts every proof when `d <= -64` and rejects every proof
    otherwise;
  - a difficulty above 64 rejects every proof.
- Such a difficulty is accepted by `update_proof_difficulty`, yet no proof can meet it, and
  `proof_of_work` never returns. Every later `new_block` fails. With the corrected hash it raises
  ValueError. As written, it raises TypeError first when no previous hash is given and the last
  block still holds Transaction objects (see "## Findings").

## Model

| member | source | states |
|---|---|---|
| Text.Digits | blockchain.py:202 | the decimal digits of a non-negative n have no leading zero and denote n |
| Text.Decimal | blockchain.py:202 | `f'{n}'` of an int starts with '-' exactly when n is negative; the rest is a digit string without leading zero that denotes the absolute value of n |
| Text.Zeros | blockchain.py:205 | `n * "0"` has n characters, none when n <= 0, and every one is '0' |
| Text.Prefix | blockchain.py:207 | `s[:n]` is a prefix of s; its length is min(n, len s) for n >= 0, and len s + n floored at 0 for negative n |
| Json.LookupAt | blockchain.py:15 | in a dict with distinct keys, the i-th item's key looks up the i-th item's value |
| Json.KeyLessIrreflexive | blockchain.py:15 | no string sorts before itself under Python's string order |
| Json.KeyLessTransitive | blockchain.py:15 | Python's string order is transitive |
| Json.KeyLessTotal | blockchain.py:15 | any two different strings are ordered one way or the other |
| Json.InsertByKeyPermutes | blockchain.py:15 | inserting an item adds exactly that item to the multiset of items |
| Json.InsertByKeySorted | blockchain.py:15 | inserting a new key into a key-sorted list keeps it strictly sorted |
| Json.SortByKeyPermutes | blockchain.py:15 | sorting a dict's items keeps each item exactly as often as it was given |
| Json.SortByKeyMembers | blockchain.py:15 | every sorted item is one of the dict's items, and every item of the dict appears after sorting |
| Json.SortByKeySorted | blockchain.py:15 | sorting a dict with distinct keys yields strictly ascending keys |
| Json.SortedUnique | blockchain.py:15 | two strictly key-sorted lists holding the same items are equal |
| Json.SortByKeyIs | blockchain.py:15 | any strictly sorted arrangement of a dict's items is the one sorting produces |
| Json.SortByKeyOrderIndependent | blockchain.py:15 | two dicts with the same items sort to the same list, whatever their insertion order |
| Json.Dumps | blockchain.py:15 | defines the text `json.dumps(v, sort_keys=True)` writes for an encodable value: items separated by ", ", keys followed by ": ", every dict's items in sorted key order |
| Json.DumpsThreeItems | blockchain.py:15 | a dict whose sorted items are a, b, c is written `{"a": va, "b": vb, "c": vc}` |
| Json.DumpsFiveItems | blockchain.py:15 | a dict whose sorted items are a to e is written as those five items in that order, separated by ", ", inside braces |
| Json.Encode | blockchain.py:15 | `json.dumps` succeeds exactly when the value holds no object it cannot encode |
| Json.EncodeOrderIndependent | blockchain.py:15 | dicts with the same items encode to the same text, or both fail |
| Records.Transaction.Serialize | blockchain.py:60-66 | the dict has exactly the keys sender, recipient and amount, each holding its attribute, and is encodable |
| Records.Transaction.Hash | blockchain.py:7-17 | a transaction's hash is a 64-character lowercase hex digest of its encoded dict; `Records.TransactionHashText` gives the text |
| Records.TransactionSortedFields | blockchain.py:15 | with sort_keys a transaction's dict is written in the key order amount, recipient, sender |
| Records.TransactionHashText | blockchain.py:15-17 | a transaction's hash is SHA-256 of `{"amount": <amount>, "recipient": "<recipient>", "sender": "<sender>"}` |
| Records.Block.TransactionDicts | blockchain.py:44 | the i-th item is the i-th transaction's `serialize()` dict, for every i, and each is encodable |
| Records.Block.TransactionObjects | blockchain.py:31 | before `serialize` the `transactions` attribute holds one Transaction object per transaction, none of which `json.dumps` can encode |
| Records.Block.FieldsWith | blockchain.py:27-33 | a block's attribute dict has exactly five distinct keys: index, timestamp, transactions, proof and previous_hash, each holding its attribute |
| Records.Block.Attributes | blockchain.py:27-33 | the live `__dict__` has five keys, and `transactions` holds the dicts after `serialize` and the Transaction objects before |
| Records.Block.ToWire | blockchain.py:35-47 | the serialized block is an encodable dict with exactly the five keys index, timestamp, transactions, proof and previous_hash, each holding the block's attribute, with the transactions as their dicts |
| Records.Block.Serialize | blockchain.py:35-47 | `serialize` fails with AttributeError exactly when it already ran on a block with transactions; otherwise it marks the block serialized and returns the wire dict |
| Records.Block.Hash | blockchain.py:7-17 | the corrected block hash is defined for every block and is a 64-character lowercase hex digest of its encoded wire dict; `Records.BlockHashText` gives the text |
| Records.Block.HashAsWritten | blockchain.py:15-17 | hashing a block as written raises TypeError exactly when its transactions are still Transaction objects; otherwise it equals the corrected hash |
| Records.BlockSortedFields | blockchain.py:15 | with sort_keys a block's dict is written in the key order index, previous_hash, proof, timestamp, transactions |
| Records.BlockHashText | blockchain.py:15-17 | the corrected block hash is SHA-256 of `{"index": …, "previous_hash": …, "proof": …, "timestamp": …, "transactions": [...]}`, where `transactions` is the JSON list of the transactions' dicts |
| Records.Block.AttributesEncodable | blockchain.py:15 | the live attribute dict is encodable exactly when it holds no Transaction object, and it is then the wire dict |
| ProofOfWork.ValidProof | blockchain.py:190-207 | defines `valid_proof`: the first d characters of the digest of `f'{last_proof}{proof}'` equal `d * "0"`, with Python's slice and repetition |
| ProofOfWork.ValidProofZeroDifficulty | blockchain.py:202-207 | at difficulty 0 every proof is valid |
| ProofOfWork.ValidProofLeadingZeros | blockchain.py:202-207 | for 0 <= d <= 64, a proof is valid exactly when the first d digest characters are all '0' |
| ProofOfWork.ValidProofBeyondDigest | blockchain.py:202-207 | a difficulty above 64 rejects every proof |
| ProofOfWork.ValidProofNegativeDifficulty | blockchain.py:202-207 | a negative difficulty d accepts every proof when d <= -64 and rejects every proof otherwise |
| ProofOfWork.NoValidProofAtUnmeetableDifficulty | blockchain.py:183-207 | above 64, or negative but above -64, no proof is valid, so the search in `proof_of_work` never ends |
| ProofOfWork.ValidProofMonotonic | blockchain.py:202-207 | a proof valid at some difficulty is valid at every smaller non-negative difficulty |
| ProofOfWork.LeastValidProofUnique | blockchain.py:183-187 | the least valid proof is unique |
| Ledger.GenesisBlock | blockchain.py:100-108 | defines the genesis block: index 0, no transactions, proof 100, previous hash 1 |
| Ledger.Init | blockchain.py:72-80 | defines the state `__init__` leaves: the genesis block alone, an empty pool, difficulty 4 |
| Ledger.LastBlock | blockchain.py:83-97 | the last block of the chain; SystemError exactly when the chain is empty |
| Ledger.NewTransaction | blockchain.py:156-170 | defines `new_transaction`'s new state and result; `Ledger.NewTransactionAppends` states its effect |
| Ledger.UpdateProofDifficulty | blockchain.py:111-124 | the difficulty becomes the new value, negative values included; chain and pool stay |
| Ledger.IsFalsy | blockchain.py:141 | defines Python's `not previous_hash`: absent, the empty string, or 0 |
| Ledger.NewBlock | blockchain.py:127-153 | defines `new_block` with the corrected hash; `NewBlockOutcome`, `NewBlockSeals` and `NewBlockSucceedsIffValidProof` state its effect |
| Ledger.NewBlockAsWritten | blockchain.py:139-153 | defines `new_block` as written, hashing the last block's live `__dict__`; `NewBlockAsWrittenAgrees` states how it differs |
| Ledger.InitValid | blockchain.py:72-80 | a fresh ledger satisfies the invariant; its last block is the genesis block; the pool is empty and the difficulty is 4 |
| Ledger.LastBlockOfValid | blockchain.py:83-97 | on a reachable state `last_block` never raises, and the last block's index is len(chain), or 0 for the genesis block alone |
| Ledger.NewTransactionPreservesValid | blockchain.py:156-170 | queueing a transaction keeps the invariant |
| Ledger.UpdateProofDifficultyPreservesValid | blockchain.py:111-124 | changing the difficulty keeps the invariant |
| Ledger.NewBlockOutcome | blockchain.py:127-153 | `new_block` raises SystemError on an empty chain and ValueError on a rejected proof; otherwise it appends the new block and empties the pool |
| Ledger.NewBlockPreservesValid | blockchain.py:127-153 | a successful seal keeps the invariant |
| Ledger.AppendPreservesValid | blockchain.py:147-152 | appending an unserialized block numbered len(chain) + 1 and emptying the pool keeps the invariant |
| Ledger.UnmeetableDifficultyBlocksSeals | blockchain.py:111-153 | after `update_proof_difficulty` to a value above 64, or negative but above -64, every `new_block` with the corrected hash raises ValueError |
| Ledger.UnmeetableDifficultyBlocksSealsAsWritten | blockchain.py:111-153 | on a reachable state whose difficulty is above 64, or negative but above -64 (which `update_proof_difficulty` allows), `new_block` as written fails too: TypeError when no previous hash is given and the last block holds Transaction objects, ValueError otherwise |
| Ledger.NewTransactionAppends | blockchain.py:156-170 | `new_transaction` appends exactly the new transaction, leaves the chain and the difficulty alone, and returns len(chain) |
| Ledger.NewBlockSucceedsIffValidProof | blockchain.py:144-145 | on a reachable state `new_block` succeeds exactly when `valid_proof` accepts the proof against the last block's proof; otherwise it raises ValueError |
| Ledger.NewBlockSeals | blockchain.py:139-153 | a seal appends exactly one block, with index len(chain) + 1, the old pool in order and the given proof; its previous hash is the given one or, when that is falsy, the last block's hash; the pool is then empty and the difficulty unchanged |
| Ledger.SealedBlockIsolated | blockchain.py:147-170 | a transaction queued after a seal goes into the new pool and never into the block just sealed |
| Ledger.TransactionIndexIsPosition | blockchain.py:139-170 | the index `new_transaction` returns is the next block's position in the chain, while that block's own index is one more |
| Ledger.FreshLedgerTransactionIndices | blockchain.py:156-170 | on a fresh ledger `new_transaction` returns 1, and 2 after one seal |
| Ledger.NewBlockAsWrittenAgrees | blockchain.py:141-142 | `new_block` as written differs from the corrected one only by raising TypeError when no previous hash is given and the last block holds Transaction objects |
| Ledger.SecondSealFailsAsWritten | blockchain.py:141-142 | after one seal with a transaction, the next `new_block` without a previous hash raises TypeError as written, while the corrected one succeeds |
| Chain.Blockchain.constructor | blockchain.py:72-80 | the chain is exactly the genesis block (index 0, no transactions, proof 100, previous hash 1); the pool is empty; the difficulty is 4 |
| Chain.Blockchain.LastBlock | blockchain.py:83-97 | the last block of the chain; SystemError exactly when the chain is empty, which the invariant rules out |
| Chain.Blockchain.UpdateProofDifficulty | blockchain.py:111-124 | the difficulty becomes the new value, negative values included, and nothing else changes |
| Chain.Blockchain.NewTransaction | blockchain.py:156-170 | appends exactly one transaction to the pool, leaves the chain and the difficulty alone, returns len(chain), and keeps the invariant |
| Chain.Blockchain.NewBlock | blockchain.py:127-153 | result and new state are exactly those of `Ledger.NewBlock`, so the chain and pool are untouched on failure; the invariant is kept |
| Chain.Blockchain.ProofOfWork | blockchain.py:173-187 | the result is non-negative, passes `valid_proof`, and no smaller non-negative candidate passes |

## Left out

- node.py and testing/api_wrapper.py: HTTP routing, request parsing, node identity and
  printing. They add no logic to the ledger.
- SHA-256 itself: `Hasher` stands for it, as any function returning 64 lowercase hex
  characters. FIPS 180-4 is not part of this model, and neither is the UTF-8 `.encode()` of
  the hashed text.
- The clock: `time.time()` is a parameter. A block's timestamp is carried as the text
  `json.dumps` writes for the float, so float formatting is not modelled.
- String escaping in `json.dumps`: keys and strings are written between plain quotes.
- The `isinstance(new_difficulty, int)` check (blockchain.py:121-122): an `int` parameter
  makes the TypeError branch impossible.
- Chain.Blockchain.ProofOfWork: requires that some non-negative valid proof exists. The
  source loops forever when none does, and that divergence is not modelled.
- Block objects are values. `Block.serialize` returns the updated block together with the
  dict. It does not update a block shared with the chain, so the aliasing of `__dict__`
  (blockchain.py:41-45) is not modelled.
- `Block.serialize` is not called by the ledger's own code. It is modelled as
  `Records.Block.Serialize`.
- Pending transactions are a sequence value. `list.append` on the pool and on the chain
  becomes reassignment of the field with one more element. Because the pool is re-bound to
  a fresh list on every seal, no sealed block shares a list with the pool. The model shows
  this as value separation (`Ledger.SealedBlockIsolated`).
- Chain.Blockchain.NewBlock: the explicit facts about a seal are proved about the function
  it is tied to, `Ledger.NewBlock`, rather than repeated in the method's own contract. They
  are in `Ledger.NewBlockSeals`, `Ledger.NewBlockSucceedsIffValidProof` and
  `Ledger.NewBlockPreservesValid`. The method hashes with the corrected `Block.Hash`, so it never
  raises the TypeError of blockchain.py:142. `Ledger.NewBlockAsWritten` models that behaviour.

## Findings

| source | as written | input that shows it | evidently intended | confidence | as-written member | corrected member |
|---|---|---|---|---|---|---|
| blockchain.py:15-17, blockchain.py:141-142 | `hash()` passes the block's live `__dict__` to `json.dumps`, and its `transactions` entry is a list of Transaction objects. `json.dumps` raises TypeError on those. Nothing in the ledger calls `serialize` first. | Fresh ledger; `update_proof_difficulty(0)`; `new_transaction("a", "b", 1)`; `new_block(0)` succeeds; then `new_block(0)` with no previous hash raises TypeError while hashing the last block. node.py's second `/mine` fails the same way. | The hash of a block covers its transactions as dicts, so every block can be hashed and chained. | high, not executed | Records.Block.HashAsWritten, Ledger.NewBlockAsWritten, shown by Ledger.SecondSealFailsAsWritten | Records.Block.Hash, Ledger.NewBlock, proved by Ledger.NewBlockSucceedsIffValidProof |
