/** Checkpoint chains (verify-rs/src/lib.rs): a chain whose checkpoints are signed by active issuer keys and
    whose links all pass pins one append-only history, and every accepted entry is an element of it. */
module History {
  import opened Bytes
  import opened MerkleTree
  import opened MerkleProof
  import CivilTime
  import K = KeyLogReplay
  import E = KeyLogEntries

  /** A body hash in lower-case hex. */
  type HexHash = s: Bytes | |s| == 64 witness seq(64, _ => 48)

  /** The members of a signed checkpoint the chain rules read. Optional members are the ones a JSON
      body may lack or carry in an undecodable form; `message` is what the signature is over, absent when
      the body has a member outside the closed set, names another algorithm or does not canonicalise. */
  datatype Checkpoint = Checkpoint(
    bodyHash: Option<HexHash>,
    prevHash: Option<Bytes>,
    size: nat,
    root: Option<Bytes>,
    origin: Option<Bytes>,
    ts: Bytes,
    kid: Option<Bytes>,
    message: Option<Bytes>,
    signature: Option<Bytes>)

  /** A presented link: the checkpoint and its decoded consistency proof from the predecessor. */
  datatype Link = Link(checkpoint: Checkpoint, proof: Option<seq<Digest>>)

  function PrevOrEmpty(cp: Checkpoint): Bytes {
    if cp.prevHash.Some? then cp.prevHash.value else []
  }

  predicate ConsistentLink(h: Hash, prev: Checkpoint, cur: Link) {
    && cur.proof.Some? && prev.root.Some? && cur.checkpoint.root.Some?
    && ConsistencyAccepts(h, prev.size, cur.checkpoint.size, prev.root.value, cur.checkpoint.root.value, cur.proof.value)
  }

  /** What one accepted link establishes. */
  predicate LinkAccepts(h: Hash, prev: Checkpoint, cur: Link, sparse: bool) {
    && prev.bodyHash.Some?
    && (if sparse then PrevOrEmpty(cur.checkpoint) != [] else PrevOrEmpty(cur.checkpoint) == prev.bodyHash.value)
    && prev.size <= cur.checkpoint.size
    && prev.origin == cur.checkpoint.origin
    && (prev.size > 0 ==> ConsistentLink(h, prev, cur))
  }

  /** A key of the log made the signature. */
  predicate CheckpointSigned(c: K.Crypto, log: K.Log, cp: Checkpoint) {
    && cp.kid.Some? && cp.kid.value in log.keys && cp.message.Some? && cp.signature.Some?
    && c.detachedValid(log.keys[cp.kid.value], cp.message.value, cp.signature.value)
  }

  /** ... that is an issuer key, active at the checkpoint's own time and size. */
  predicate Admitted(c: K.Crypto, log: K.Log, cp: Checkpoint) {
    && CheckpointSigned(c, log, cp)
    && !(cp.kid.value in log.state && log.state[cp.kid.value].nonIssuer) && log.Active(cp.kid.value, cp.ts, cp.size)
  }

  predicate ChainAccepts(h: Hash, c: K.Crypto, log: K.Log, chain: seq<Link>, sparse: bool) {
    && chain != [] && chain[0].checkpoint.prevHash == Some([])
    && (forall i :: 0 <= i < |chain| ==> Admitted(c, log, chain[i].checkpoint))
    && Linked(h, chain, sparse)
  }

  predicate Linked(h: Hash, chain: seq<Link>, sparse: bool) {
    forall i :: 0 < i < |chain| ==> LinkAccepts(h, chain[i - 1].checkpoint, chain[i], sparse)
  }

  method CheckChainConsistency(h: Hash, prev: Checkpoint, cur: Link) returns (ok: bool)
    ensures ok == ConsistentLink(h, prev, cur)
  {
    if cur.proof.None? || prev.root.None? || cur.checkpoint.root.None? {
      return false;
    }
    ok := VerifyConsistency(h, prev.size, cur.checkpoint.size, prev.root.value, cur.checkpoint.root.value, cur.proof.value);
  }

  method CheckChainLink(h: Hash, prev: Checkpoint, cur: Link, sparse: bool) returns (ok: bool)
    ensures ok == LinkAccepts(h, prev, cur, sparse)
  {
    if prev.bodyHash.None? {
      return false;
    }
    var curPrev := PrevOrEmpty(cur.checkpoint);
    if (sparse && curPrev == []) || (!sparse && curPrev != prev.bodyHash.value) {
      return false;
    }
    if cur.checkpoint.size < prev.size {
      return false;
    }
    if prev.origin != cur.checkpoint.origin {
      return false;
    }
    if prev.size > 0 {
      ok := CheckChainConsistency(h, prev, cur);
      return;
    }
    ok := true;
  }

  method CheckCheckpointChain(h: Hash, c: K.Crypto, log: K.Log, chain: seq<Link>, sparse: bool) returns (ok: bool)
    ensures ok == ChainAccepts(h, c, log, chain, sparse)
  {
    hide LinkAccepts, CheckpointSigned, K.ActiveAt, CivilTime.UtcEpochMicros;
    if chain == [] || chain[0].checkpoint.prevHash != Some([]) {
      return false;
    }
    for i := 0 to |chain|
      invariant forall j :: 0 <= j < i ==> Admitted(c, log, chain[j].checkpoint)
      invariant forall j :: 0 < j < i ==> LinkAccepts(h, chain[j - 1].checkpoint, chain[j], sparse)
    {
      var cp := chain[i].checkpoint;
      if !CheckpointSigned(c, log, cp) {
        return false;
      }
      var kid := if cp.kid.Some? then cp.kid.value else [];
      SignedHasKid(c, log, cp);
      if (kid in log.state && log.state[kid].nonIssuer) || !log.Active(kid, cp.ts, cp.size) {
        return false;
      }
      if i > 0 {
        var linked := CheckChainLink(h, chain[i - 1].checkpoint, chain[i], sparse);
        if !linked {
          return false;
        }
      }
    }
    ok := true;
  }

  lemma {:induction false} SignedHasKid(c: K.Crypto, log: K.Log, cp: Checkpoint)
    requires CheckpointSigned(c, log, cp)
    ensures cp.kid.Some?
  {
  }

  /** A key introduced with issuer authority by entry j, in force at the checkpoint's own time and size, made a
      signature over the checkpoint's message that verifies. */
  ghost predicate IssuerSigned(c: K.Crypto, entries: seq<K.KeyEntry>, n: nat, cp: Checkpoint, j: nat) {
    && cp.kid.Some? && cp.message.Some? && cp.signature.Some?
    && E.InForce(entries, n, cp.kid.value, j, CivilTime.UtcEpochMicros(cp.ts), cp.size)
    && E.IntroducesIssuer(c, entries, j)
    && c.detachedValid(entries[j].key.value.0, cp.message.value, cp.signature.value)
  }

  /** Under a replayed log a checkpoint is admitted exactly when some entry's issuer key signed it so: no
      revocation by the log covers its time or size. */
  lemma {:induction false} AdmittedIff(c: K.Crypto, entries: seq<K.KeyEntry>, n: nat, cp: Checkpoint)
    requires n <= |entries| && K.After(c, entries, n).Some?
    ensures Admitted(c, K.After(c, entries, n).value, cp) <==> exists j: nat :: IssuerSigned(c, entries, n, cp, j)
  {
    hide K.After, E.InForce, E.IntroducesIssuer, K.Log.Active, CivilTime.UtcEpochMicros;
    var log := K.After(c, entries, n).value;
    if cp.kid.Some? {
      var kid := cp.kid.value;
      E.ActiveIff(c, entries, n, kid, cp.ts, cp.size);
      E.InForceIntroduces(entries, n, kid, CivilTime.UtcEpochMicros(cp.ts), cp.size);
      forall j: nat | E.Introduces(entries, n, kid, j)
        ensures kid in log.state && kid in log.keys && log.keys[kid] == entries[j].key.value.0
        ensures !log.state[kid].nonIssuer <==> E.IntroducesIssuer(c, entries, j)
      {
        E.IssuerIff(c, entries, n, kid, j);
      }
      if Admitted(c, log, cp) {
        var j: nat :| E.InForce(entries, n, kid, j, CivilTime.UtcEpochMicros(cp.ts), cp.size);
        assert IssuerSigned(c, entries, n, cp, j);
      }
      if j: nat :| IssuerSigned(c, entries, n, cp, j) {
        assert E.Introduces(entries, n, kid, j);
      }
    }
  }

  /** Every checkpoint of a chain accepted under a replayed log is signed by an issuer key of an entry. */
  lemma {:induction false} CheckpointsAreSigned(h: Hash, c: K.Crypto, entries: seq<K.KeyEntry>, n: nat, chain: seq<Link>, sparse: bool, i: nat)
    returns (j: nat)
    requires n <= |entries| && K.After(c, entries, n).Some? && i < |chain|
    requires ChainAccepts(h, c, K.After(c, entries, n).value, chain, sparse)
    ensures IssuerSigned(c, entries, n, chain[i].checkpoint, j)
  {
    hide Linked, Admitted, IssuerSigned, K.After;
    AdmittedIff(c, entries, n, chain[i].checkpoint);
    j :| IssuerSigned(c, entries, n, chain[i].checkpoint, j);
  }

  ghost predicate NamesPrevious(prev: Checkpoint, cur: Checkpoint, sparse: bool) {
    prev.bodyHash.Some? && cur.prevHash.Some? && if sparse then cur.prevHash.value != [] else cur.prevHash.value == prev.bodyHash.value
  }

  /** An accepted chain starts at genesis, is of one origin, never shrinks, and names its predecessors: each
      checkpoint of a dense chain the body hash of the one before it, each of a sparse chain some predecessor. */
  lemma {:induction false} ChainIsBound(h: Hash, c: K.Crypto, log: K.Log, chain: seq<Link>, sparse: bool)
    requires ChainAccepts(h, c, log, chain, sparse)
    ensures chain[0].checkpoint.prevHash == Some([])
    ensures forall i, k | 0 <= i <= k < |chain| ::
              chain[i].checkpoint.origin == chain[k].checkpoint.origin && chain[i].checkpoint.size <= chain[k].checkpoint.size
    ensures forall i, k | 0 <= i < |chain| - 1 && k == i + 1 :: NamesPrevious(chain[i].checkpoint, chain[k].checkpoint, sparse)
  {
    hide Admitted, ConsistentLink;
    forall i, k | 0 <= i <= k < |chain|
      ensures chain[i].checkpoint.origin == chain[k].checkpoint.origin && chain[i].checkpoint.size <= chain[k].checkpoint.size {
      LinksKeep(h, chain, sparse, i, k);
    }
    forall i, k | 0 <= i < |chain| - 1 && k == i + 1 ensures NamesPrevious(chain[i].checkpoint, chain[k].checkpoint, sparse) {
      assert LinkAccepts(h, chain[k - 1].checkpoint, chain[k], sparse);
    }
  }

  lemma {:induction false} LinksKeep(h: Hash, chain: seq<Link>, sparse: bool, i: nat, k: nat)
    requires Linked(h, chain, sparse) && i <= k < |chain|
    ensures chain[i].checkpoint.origin == chain[k].checkpoint.origin && chain[i].checkpoint.size <= chain[k].checkpoint.size
  {
    hide ConsistentLink;
    if i < k {
      LinksKeep(h, chain, sparse, i, k - 1);
      assert LinkAccepts(h, chain[k - 1].checkpoint, chain[k], sparse);
    }
  }

  /** The next checkpoint names the one before, is no smaller, is of the same origin, and, once the tree has an entry,
      comes with an accepted proof that the earlier tree is its prefix. */
  ghost predicate Continues(h: Hash, prev: Checkpoint, next: Link, sparse: bool) {
    && NamesPrevious(prev, next.checkpoint, sparse) && prev.size <= next.checkpoint.size && prev.origin == next.checkpoint.origin
    && (prev.size > 0 ==> && prev.root.Some? && next.checkpoint.root.Some? && next.proof.Some?
                          && ConsistencyAccepts(h, prev.size, next.checkpoint.size, prev.root.value, next.checkpoint.root.value, next.proof.value))
  }

  ghost predicate AllContinue(h: Hash, chain: seq<Link>, sparse: bool) {
    forall i, k | 0 <= i < |chain| - 1 && k == i + 1 :: Continues(h, chain[i].checkpoint, chain[k], sparse)
  }

  /** Under a replayed log a chain is accepted exactly when it starts at genesis, an issuer key in force signed every
      checkpoint, and each continues the one before. */
  lemma {:induction false} ChainIff(h: Hash, c: K.Crypto, entries: seq<K.KeyEntry>, n: nat, chain: seq<Link>, sparse: bool)
    requires n <= |entries| && K.After(c, entries, n).Some?
    ensures ChainAccepts(h, c, K.After(c, entries, n).value, chain, sparse) <==>
              && chain != [] && chain[0].checkpoint.prevHash == Some([])
              && (forall l | l in chain :: SomeIssuerSigned(c, entries, n, l.checkpoint)) && AllContinue(h, chain, sparse)
  {
    hide Admitted, SomeIssuerSigned, K.After, Linked, AllContinue;
    forall l: Link ensures Admitted(c, K.After(c, entries, n).value, l.checkpoint) <==> SomeIssuerSigned(c, entries, n, l.checkpoint) {
      AdmittedIsSigned(c, entries, n, l.checkpoint);
    }
    LinkedIff(h, chain, sparse);
  }

  ghost predicate SomeIssuerSigned(c: K.Crypto, entries: seq<K.KeyEntry>, n: nat, cp: Checkpoint) {
    exists j: nat :: IssuerSigned(c, entries, n, cp, j)
  }

  lemma {:induction false} AdmittedIsSigned(c: K.Crypto, entries: seq<K.KeyEntry>, n: nat, cp: Checkpoint)
    requires n <= |entries| && K.After(c, entries, n).Some?
    ensures Admitted(c, K.After(c, entries, n).value, cp) <==> SomeIssuerSigned(c, entries, n, cp)
  {
    hide Admitted, IssuerSigned, K.After;
    AdmittedIff(c, entries, n, cp);
  }

  lemma {:induction false} LinkedIff(h: Hash, chain: seq<Link>, sparse: bool)
    ensures Linked(h, chain, sparse) <==> AllContinue(h, chain, sparse)
  {
    hide LinkAccepts, Continues;
    forall i, k | 0 <= i < |chain| - 1 && k == i + 1 && Linked(h, chain, sparse) ensures Continues(h, chain[i].checkpoint, chain[k], sparse) {
      assert LinkAccepts(h, chain[k - 1].checkpoint, chain[k], sparse);
      LinkIff(h, chain[i].checkpoint, chain[k], sparse);
    }
    forall k | 0 < k < |chain| && AllContinue(h, chain, sparse) ensures LinkAccepts(h, chain[k - 1].checkpoint, chain[k], sparse) {
      assert Continues(h, chain[k - 1].checkpoint, chain[k], sparse);
      LinkIff(h, chain[k - 1].checkpoint, chain[k], sparse);
    }
  }

  lemma {:induction false} LinkIff(h: Hash, prev: Checkpoint, cur: Link, sparse: bool)
    ensures LinkAccepts(h, prev, cur, sparse) <==> Continues(h, prev, cur, sparse)
  {
    hide ConsistencyAccepts;
  }

  /** Every checkpoint of an accepted chain is signed by a key whose authority descends from the log's genesis
      key through issuer keys only, introduced below the checkpoint's size. */
  lemma {:induction false} SignersDescendFromGenesis(h: Hash, c: K.Crypto, entries: seq<K.KeyEntry>, n: nat, chain: seq<Link>, sparse: bool, i: nat)
    returns (line: seq<K.Kid>, at: seq<nat>)
    requires n <= |entries| && K.After(c, entries, n).Some? && i < |chain|
    requires ChainAccepts(h, c, K.After(c, entries, n).value, chain, sparse)
    ensures var cp, log := chain[i].checkpoint, K.After(c, entries, n).value;
            && cp.kid.Some? && K.Descent(c, entries, line, at) && line[|line| - 1] == cp.kid.value
            && cp.kid.value in log.state && log.state[cp.kid.value].leaf < cp.size
  {
    hide Linked, CheckpointSigned, K.Descent, K.After;
    var cp, log := chain[i].checkpoint, K.After(c, entries, n).value;
    assert Admitted(c, log, cp);
    SignedHasKid(c, log, cp);
    line, at := K.IssuersDescendFromGenesis(c, entries, n, cp.kid.value);
  }

  /** Searches the links from the head down for a collision against the history. */
  function HistoryCollision(h: Hash, chain: seq<Link>, history: seq<Bytes>): (c: Option<(Bytes, Bytes)>)
    ensures c.Some? ==> IsCollision(h, c.value)
    decreases |chain|
  {
    if |chain| < 2 then None
    else
      var prev, cur := chain[|chain| - 2].checkpoint, chain[|chain| - 1];
      var here := if prev.root.Some? && cur.proof.Some?
                  then ConsistencyCollision(h, prev.size, history, prev.root.value, cur.proof.value) else None;
      if here.Some? then here
      else if prev.size <= |history| then HistoryCollision(h, chain[..|chain| - 1], history[..prev.size])
      else None
  }

  /** If the head commits to `history` and every link passed, sizes never decrease and every earlier
      non-empty checkpoint commits to exactly that prefix of the history. */
  lemma {:induction false} ChainPinsHistory(h: Hash, chain: seq<Link>, sparse: bool, history: seq<Bytes>, i: nat)
    requires i < |chain|
    requires Linked(h, chain, sparse)
    requires var head := chain[|chain| - 1].checkpoint;
             head.size == |history| && (head.size > 0 ==> head.root == Some(TreeHash(h, history)))
    requires HistoryCollision(h, chain, history).None?
    ensures var cp := chain[i].checkpoint;
            && cp.size <= |history|
            && (cp.size > 0 ==> cp.root == Some(TreeHash(h, history[..cp.size])))
    ensures forall j :: 0 < j < |chain| ==> chain[j - 1].checkpoint.size <= chain[j].checkpoint.size
    decreases |chain|
  {
    hide ConsistencyAccepts, TreeHash;
    var last := |chain| - 1;
    assert history[..|history|] == history;
    if i < last {
      var prev, rest := chain[last - 1].checkpoint, chain[..last];
      assert LinkAccepts(h, prev, chain[last], sparse);
      if prev.size > 0 {
        ConsistencySound(h, prev.size, history, prev.root.value, chain[last].proof.value);
      }
      assert Linked(h, rest, sparse);
      ChainPinsHistory(h, rest, sparse, history[..prev.size], i);
      assert history[..prev.size][..chain[i].checkpoint.size] == history[..chain[i].checkpoint.size];
    }
  }

  /** Acceptance of one entry under a checkpoint of the given size and root: its receipt hash is the
      hash of its payload, and the leaf commits to that. */
  predicate EntryAccepts(h: Hash, payload: Bytes, leaf: nat, proof: Option<seq<Digest>>, size: nat, root: Bytes) {
    proof.Some? && InclusionAccepts(h, LeafHash(h, h(payload)), leaf, size, proof.value, root)
  }

  method CheckEntryInclusion(h: Hash, payload: Bytes, leaf: nat, proof: Option<seq<Digest>>, size: nat, root: Bytes)
    returns (ok: bool)
    ensures ok == EntryAccepts(h, payload, leaf, proof, size, root)
  {
    var receiptHash := h(payload);
    var leafHash := h([0] + receiptHash);
    if proof.None? {
      return false;
    }
    ok := VerifyInclusion(h, leafHash, leaf, size, proof.value, root);
  }

  function EntryCollision(h: Hash, chain: seq<Link>, history: seq<Bytes>, i: nat, payload: Bytes, leaf: nat,
                          proof: Option<seq<Digest>>): (c: Option<(Bytes, Bytes)>)
    requires i < |chain|
    ensures c.Some? ==> IsCollision(h, c.value)
  {
    var here := HistoryCollision(h, chain, history);
    var size := chain[i].checkpoint.size;
    if here.Some? then here
    else if leaf < size <= |history| && proof.Some? && |proof.value| == |Sides(leaf, size)|
    then InclusionCollision(h, leaf, history[..size], h(payload), proof.value)
    else None
  }

  /** An entry accepted under ANY checkpoint of the chain is the head history's entry at its index:
      no entry is ever rewritten, dropped or moved between checkpoints. */
  lemma {:induction false} AcceptedEntryIsInHistory(h: Hash, chain: seq<Link>, sparse: bool, history: seq<Bytes>, i: nat,
                                                    payload: Bytes, leaf: nat, proof: Option<seq<Digest>>)
    requires i < |chain|
    requires Linked(h, chain, sparse)
    requires var head := chain[|chain| - 1].checkpoint;
             head.size == |history| && (head.size > 0 ==> head.root == Some(TreeHash(h, history)))
    requires chain[i].checkpoint.root.Some?
    requires EntryAccepts(h, payload, leaf, proof, chain[i].checkpoint.size, chain[i].checkpoint.root.value)
    ensures (leaf < |history| && h(payload) == history[leaf])
            || EntryCollision(h, chain, history, i, payload, leaf, proof).Some?
  {
    if HistoryCollision(h, chain, history).None? {
      ChainPinsHistory(h, chain, sparse, history, i);
      InclusionSound(h, leaf, history[..chain[i].checkpoint.size], h(payload), proof.value);
    }
  }
}
