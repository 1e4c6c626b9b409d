/**
 * The two hashable records, `Transaction` and `Block`: their attribute
 * dictionaries, `serialize`, and content hashing (`SHA256Hashable.hash`),
 * which hashes `json.dumps(self.__dict__, sort_keys=True)`.
 */
module Records {
  import opened Wrappers
  import opened Text
  import opened Json

  /** The exceptions the ledger can raise, by their Python class. */
  datatype Error =
    | SystemError     // `last_block` found the chain empty
    | ValueError      // `new_block` was given a proof that `valid_proof` rejects
    | TypeError       // `json.dumps` met a Transaction object
    | AttributeError  // `Block.serialize` called `.serialize()` on a dict

  /** `time.time()` in the text `json.dumps` writes for it; the clock itself is a parameter. */
  type Timestamp = string

  /** A transfer of `amount` from `sender` to `recipient`. */
  datatype Transaction = Transaction(sender: string, recipient: string, amount: int)
  {
    /** `Transaction.serialize`: the attribute dict, keyed by the wire names. */
    function Serialize(): (d: Value)
      ensures d.Dict? && |d.fields| == 3 && DistinctKeys(d.fields) && IsPlain(d)
      ensures Lookup(d.fields, "sender") == Some(Str(sender))
      ensures Lookup(d.fields, "recipient") == Some(Str(recipient))
      ensures Lookup(d.fields, "amount") == Some(Int(amount))
    {
      var f := [("sender", Str(sender)), ("recipient", Str(recipient)), ("amount", Int(amount))];
      LookupAt(f, 0); LookupAt(f, 1); LookupAt(f, 2);
      Dict(f)
    }

    /**
     * `SHA256Hashable.hash` on a transaction; its dict is always encodable.
     * `TransactionHashText` states the text that is hashed.
     */
    function Hash(sha: Hasher): (h: string)
      ensures IsHexDigest(h)
    {
      sha(Encode(Serialize()).value)
    }
  }

  /** Sorting a transaction's dict puts its keys in the order amount, recipient, sender. */
  lemma TransactionSortedFields(t: Transaction)
    ensures SortByKey(t.Serialize().fields)
         == [("amount", Int(t.amount)), ("recipient", Str(t.recipient)), ("sender", Str(t.sender))]
  {
    var fields := t.Serialize().fields;
    var sorted := [fields[2], fields[1], fields[0]];
    assert KeyLess("amount", "recipient") && KeyLess("recipient", "sender") && KeyLess("amount", "sender");
    assert SortedByKey(sorted);
    assert fields == [fields[0]] + [fields[1]] + [fields[2]];
    assert multiset(sorted) == multiset(fields);
    SortByKeyIs(fields, sorted);
  }

  /**
   * A transaction's hash is SHA-256 of its dict written with sorted keys:
   * `{"amount": …, "recipient": "…", "sender": "…"}`.
   */
  lemma TransactionHashText(t: Transaction, sha: Hasher)
    ensures Encode(t.Serialize())
         == Some("{" + Quote("amount") + ": " + Decimal(t.amount) + ", " + Quote("recipient") + ": " + Quote(t.recipient)
                 + ", " + Quote("sender") + ": " + Quote(t.sender) + "}")
    ensures t.Hash(sha) == sha(Encode(t.Serialize()).value)
  {
    TransactionSortedFields(t);
    DumpsThreeItems(t.Serialize().fields, ("amount", Int(t.amount)), ("recipient", Str(t.recipient)), ("sender", Str(t.sender)));
  }

  /** `previous_hash`: the genesis block's integer sentinel, or the text of a hash. */
  datatype Link = Sentinel(n: int) | HashText(text: string)
  {
    function ToValue(): Value {
      match this
      case Sentinel(n) => Int(n)
      case HashText(text) => Str(text)
    }
  }

  /**
   * A block. `serialized` records whether `Block.serialize` has replaced the
   * `transactions` attribute by the transactions' dicts; until then it holds
   * the Transaction objects themselves.
   */
  datatype Block = Block(index: int, timestamp: Timestamp, transactions: seq<Transaction>,
                         serialized: bool, proof: int, previousHash: Link)
  {
    /** The transactions as dicts, in order. */
    function TransactionDicts(): (r: seq<Value>)
      ensures |r| == |transactions|
      ensures forall i :: 0 <= i < |r| ==> r[i] == transactions[i].Serialize() && IsPlain(r[i])
    {
      seq(|transactions|, i requires 0 <= i < |transactions| => transactions[i].Serialize())
    }

    /** The transactions as the objects `json.dumps` cannot encode. */
    function TransactionObjects(): (r: seq<Value>)
      ensures |r| == |transactions|
      ensures forall i :: 0 <= i < |r| ==> !IsPlain(r[i])
    {
      seq(|transactions|, i requires 0 <= i < |transactions| => Instance("Transaction"))
    }

    /** The attribute dict, in the order `__init__` assigns the attributes. */
    function FieldsWith(transactionsValue: Value): (f: seq<(string, Value)>)
      ensures |f| == 5 && DistinctKeys(f)
      ensures Lookup(f, "index") == Some(Int(index))
      ensures Lookup(f, "timestamp") == Some(Float(timestamp))
      ensures Lookup(f, "transactions") == Some(transactionsValue)
      ensures Lookup(f, "proof") == Some(Int(proof))
      ensures Lookup(f, "previous_hash") == Some(previousHash.ToValue())
    {
      var f := [("index", Int(index)), ("timestamp", Float(timestamp)), ("transactions", transactionsValue),
                ("proof", Int(proof)), ("previous_hash", previousHash.ToValue())];
      LookupAt(f, 0); LookupAt(f, 1); LookupAt(f, 2); LookupAt(f, 3); LookupAt(f, 4);
      f
    }

    /**
     * `self.__dict__` as it stands: five attributes, `transactions` holding
     * the dicts once `serialize` has run and the Transaction objects before.
     */
    function Attributes(): (f: seq<(string, Value)>)
      ensures |f| == 5 && DistinctKeys(f)
      ensures Lookup(f, "transactions") == Some(List(if serialized then TransactionDicts() else TransactionObjects()))
    {
      FieldsWith(List(if serialized then TransactionDicts() else TransactionObjects()))
    }

    /**
     * The block as plain data, transactions reduced to dicts, computed
     * without changing the block.
     */
    function ToWire(): (d: Value)
      ensures d.Dict? && |d.fields| == 5 && DistinctKeys(d.fields) && IsPlain(d)
      ensures Lookup(d.fields, "index") == Some(Int(index))
      ensures Lookup(d.fields, "timestamp") == Some(Float(timestamp))
      ensures Lookup(d.fields, "transactions") == Some(List(TransactionDicts()))
      ensures Lookup(d.fields, "proof") == Some(Int(proof))
      ensures Lookup(d.fields, "previous_hash") == Some(previousHash.ToValue())
    {
      Dict(FieldsWith(List(TransactionDicts())))
    }

    /**
     * `Block.serialize` as written: it overwrites the block's own
     * `transactions` attribute with the transactions' dicts and returns the
     * block's attribute dict. The result pairs the block as it is afterwards
     * with the returned dict.
     */
    function Serialize(): (r: Result<(Block, Value), Error>)
      ensures r.Success? <==> !serialized || transactions == []
      ensures r.Failure? ==> r.error == AttributeError
      ensures r.Success? ==> r.value.0 == this.(serialized := true) && r.value.1 == ToWire()
    {
      if serialized && transactions != [] then Failure(AttributeError)
      else
        var after := this.(serialized := true);
        Success((after, Dict(after.Attributes())))
    }

    /**
     * The corrected content hash: SHA-256 of the sorted-key JSON of the
     * block with its transactions reduced to dicts. Defined for every block;
     * `BlockHashText` states the text that is hashed.
     */
    function Hash(sha: Hasher): (h: string)
      ensures IsHexDigest(h)
    {
      sha(Encode(ToWire()).value)
    }

    /**
     * `SHA256Hashable.hash` on a block as written: `json.dumps` of the live
     * attribute dict, which raises `TypeError` while the `transactions`
     * attribute still holds Transaction objects. Where it succeeds it agrees
     * with the corrected `Hash`.
     */
    function HashAsWritten(sha: Hasher): (r: Result<string, Error>)
      ensures r.Success? <==> serialized || transactions == []
      ensures r.Failure? ==> r.error == TypeError
      ensures r.Success? ==> r.value == Hash(sha)
    {
      AttributesEncodable();
      match Encode(Dict(Attributes()))
      case None => Failure(TypeError)
      case Some(text) => Success(sha(text))
    }
  
    /**
     * The live attribute dict is encodable exactly when no Transaction object
     * is left in it, and it is then the wire form.
     */
    lemma AttributesEncodable()
      ensures IsPlain(Dict(Attributes())) <==> serialized || transactions == []
      ensures serialized || transactions == [] ==> Dict(Attributes()) == ToWire()
    {
      var f := Attributes();
      assert IsPlain(f[0].1) && IsPlain(f[1].1) && IsPlain(f[3].1) && IsPlain(f[4].1);
      assert IsPlain(Dict(f)) <==> IsPlain(f[2].1);
      if serialized {
        assert f[2].1 == List(TransactionDicts());
      } else if transactions == [] {
        assert TransactionObjects() == [] == TransactionDicts();
        assert f[2].1 == List([]);
      } else {
        assert f[2].1 == List(TransactionObjects()) && TransactionObjects()[0] == Instance("Transaction");
        assert !IsPlain(TransactionObjects()[0]);
      }
    }
  }

  /** The five keys of a block's dict, in sorted order, are strictly ascending. */
  lemma BlockKeysAscending<V>(v1: V, v2: V, v3: V, v4: V, v5: V)
    ensures SortedByKey([("index", v1), ("previous_hash", v2), ("proof", v3), ("timestamp", v4), ("transactions", v5)])
  {
    var keys := ["index", "previous_hash", "proof", "timestamp", "transactions"];
    assert KeyLess(keys[0], keys[1]) && KeyLess(keys[0], keys[2]) && KeyLess(keys[0], keys[3]) && KeyLess(keys[0], keys[4]);
    assert KeyLess(keys[1], keys[2]) && KeyLess(keys[1], keys[3]) && KeyLess(keys[1], keys[4]);
    assert KeyLess(keys[2], keys[3]) && KeyLess(keys[2], keys[4]);
    assert KeyLess(keys[3], keys[4]);
  }

  /**
   * Sorting a block's wire dict puts its keys in the order index,
   * previous_hash, proof, timestamp, transactions.
   */
  lemma BlockSortedFields(b: Block)
    ensures SortByKey(b.ToWire().fields)
         == [("index", Int(b.index)), ("previous_hash", b.previousHash.ToValue()), ("proof", Int(b.proof)),
             ("timestamp", Float(b.timestamp)), ("transactions", List(b.TransactionDicts()))]
  {
    var fields := b.ToWire().fields;
    var sorted := [fields[0], fields[4], fields[3], fields[1], fields[2]];
    BlockKeysAscending(fields[0].1, fields[4].1, fields[3].1, fields[1].1, fields[2].1);
    assert fields == [fields[0]] + [fields[1]] + [fields[2]] + [fields[3]] + [fields[4]];
    assert sorted == [fields[0]] + [fields[4]] + [fields[3]] + [fields[1]] + [fields[2]];
    assert multiset(sorted) == multiset(fields);
    SortByKeyIs(fields, sorted);
  }

  /**
   * A block's corrected hash is SHA-256 of its wire dict written with
   * sorted keys: `{"index": …, "previous_hash": …, "proof": …,
   * "timestamp": …, "transactions": [...]}`.
   */
  lemma BlockHashText(b: Block, sha: Hasher)
    ensures Encode(b.ToWire())
         == Some("{" + Quote("index") + ": " + Decimal(b.index) + ", " + Quote("previous_hash") + ": " + Dumps(b.previousHash.ToValue())
                 + ", " + Quote("proof") + ": " + Decimal(b.proof) + ", " + Quote("timestamp") + ": " + b.timestamp
                 + ", " + Quote("transactions") + ": " + Dumps(List(b.TransactionDicts())) + "}")
    ensures b.Hash(sha) == sha(Encode(b.ToWire()).value)
  {
    BlockSortedFields(b);
    DumpsFiveItems(b.ToWire().fields, ("index", Int(b.index)), ("previous_hash", b.previousHash.ToValue()),
                   ("proof", Int(b.proof)), ("timestamp", Float(b.timestamp)),
                   ("transactions", List(b.TransactionDicts())));
  }
}
