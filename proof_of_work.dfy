/**
 * The proof-of-work rule: `valid_proof` asks whether the SHA-256 hex digest
 * of `f'{last_proof}{proof}'` starts with `proof_difficulty` zeros, using
 * Python's slice and string repetition exactly as written.
 */
module ProofOfWork {
  import opened Text

  /** The string that is hashed: the two proofs' decimal forms, concatenated. */
  function Guess(lastProof: int, proof: int): string {
    Decimal(lastProof) + Decimal(proof)
  }

  /** `valid_proof`: `sha(guess)[:proof_difficulty] == proof_difficulty * "0"`. */
  predicate ValidProof(sha: Hasher, proofDifficulty: int, lastProof: int, proof: int) {
    Prefix(sha(Guess(lastProof, proof)), proofDifficulty) == Zeros(proofDifficulty)
  }

  /** Difficulty 0 accepts every proof. */
  lemma ValidProofZeroDifficulty(sha: Hasher, lastProof: int, proof: int)
    ensures ValidProof(sha, 0, lastProof, proof)
  {
  }

  /**
   * For a difficulty within the digest's length, a proof is valid exactly
   * when the digest's first `proofDifficulty` characters are all '0'.
   */
  lemma ValidProofLeadingZeros(sha: Hasher, proofDifficulty: int, lastProof: int, proof: int)
    requires 0 <= proofDifficulty <= DigestLength
    ensures ValidProof(sha, proofDifficulty, lastProof, proof)
        <==> forall i :: 0 <= i < proofDifficulty ==> sha(Guess(lastProof, proof))[i] == '0'
  {
    var h := sha(Guess(lastProof, proof));
    assert |h| == DigestLength;
    var p, z := Prefix(h, proofDifficulty), Zeros(proofDifficulty);
    assert |p| == |z| == proofDifficulty;
    assert forall i :: 0 <= i < proofDifficulty ==> p[i] == h[i];
    if forall i :: 0 <= i < proofDifficulty ==> h[i] == '0' {
      assert p == z;
    }
  }

  /**
   * A difficulty beyond the digest's 64 characters rejects every proof: the
   * slice stops at 64 characters while the string of zeros is longer.
   */
  lemma ValidProofBeyondDigest(sha: Hasher, proofDifficulty: int, lastProof: int, proof: int)
    requires proofDifficulty > DigestLength
    ensures !ValidProof(sha, proofDifficulty, lastProof, proof)
  {
    assert |sha(Guess(lastProof, proof))| == DigestLength;
  }

  /**
   * A negative difficulty compares against the empty string, so it accepts
   * every proof when the slice `[:d]` is empty too (d <= -64) and rejects
   * every proof otherwise.
   */
  lemma ValidProofNegativeDifficulty(sha: Hasher, proofDifficulty: int, lastProof: int, proof: int)
    requires proofDifficulty < 0
    ensures ValidProof(sha, proofDifficulty, lastProof, proof) <==> proofDifficulty <= -(DigestLength as int)
  {
    assert |sha(Guess(lastProof, proof))| == DigestLength;
  }

  /**
   * Above 64, or negative but above -64, no proof at all is valid, so the
   * search in `proof_of_work` never ends.
   */
  lemma NoValidProofAtUnmeetableDifficulty(sha: Hasher, proofDifficulty: int, lastProof: int)
    requires proofDifficulty > DigestLength || -(DigestLength as int) < proofDifficulty < 0
    ensures forall proof :: !ValidProof(sha, proofDifficulty, lastProof, proof)
  {
    forall proof ensures !ValidProof(sha, proofDifficulty, lastProof, proof) {
      if proofDifficulty > DigestLength {
        ValidProofBeyondDigest(sha, proofDifficulty, lastProof, proof);
      } else {
        ValidProofNegativeDifficulty(sha, proofDifficulty, lastProof, proof);
      }
    }
  }

  /** A proof valid at some difficulty is valid at every smaller non-negative difficulty. */
  lemma ValidProofMonotonic(sha: Hasher, easier: int, harder: int, lastProof: int, proof: int)
    requires 0 <= easier <= harder
    requires ValidProof(sha, harder, lastProof, proof)
    ensures ValidProof(sha, easier, lastProof, proof)
  {
    var h := sha(Guess(lastProof, proof));
    assert |h| == DigestLength;
    ValidProofLeadingZeros(sha, harder, lastProof, proof);
    ValidProofLeadingZeros(sha, easier, lastProof, proof);
  }

  /** No candidate in `0 .. n - 1` is a valid proof. */
  predicate NoValidProofBelow(sha: Hasher, proofDifficulty: int, lastProof: int, n: int) {
    forall q :: 0 <= q < n ==> !ValidProof(sha, proofDifficulty, lastProof, q)
  }

  lemma NoValidProofBelowStep(sha: Hasher, proofDifficulty: int, lastProof: int, n: int)
    requires NoValidProofBelow(sha, proofDifficulty, lastProof, n)
    requires !ValidProof(sha, proofDifficulty, lastProof, n)
    ensures NoValidProofBelow(sha, proofDifficulty, lastProof, n + 1)
  {
  }

  /** The least valid proof is unique, so every ascending search finds the same one. */
  lemma LeastValidProofUnique(sha: Hasher, proofDifficulty: int, lastProof: int, p: int, q: int)
    requires 0 <= p && ValidProof(sha, proofDifficulty, lastProof, p)
    requires NoValidProofBelow(sha, proofDifficulty, lastProof, p)
    requires 0 <= q && ValidProof(sha, proofDifficulty, lastProof, q)
    requires NoValidProofBelow(sha, proofDifficulty, lastProof, q)
    ensures p == q
  {
  }
}
