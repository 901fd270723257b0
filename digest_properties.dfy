/**
 * Properties of the digest lifecycle that relate several calls: streaming
 * equivalence, the variant being fixed at init, identifiers that share a
 * variant, and what a failed init leaves behind.
 */
module DigestProperties {
  import opened Vb2Types
  import opened HashAlgorithms
  import opened DigestContexts

  /** The concatenation of a sequence of chunks. */
  function Flatten(chunks: seq<seq<uint8>>): (bytes: seq<uint8>)
  {
    if chunks == [] then [] else chunks[0] + Flatten(chunks[1..])
  }

  /** Successive `vb2_digest_extend` calls, one per chunk, on one context. */
  function ExtendChunks(cfg: BuildConfig, ctx: Context, chunks: seq<seq<uint8>>): (ctx': Context)
    decreases |chunks|
  {
    if chunks == [] then ctx
    else ExtendChunks(cfg, DigestExtend(cfg, ctx, chunks[0]).ctx, chunks[1..])
  }

  /**
   * A caller's whole run: `vb2_digest_init` on whatever storage `prior` holds,
   * one `vb2_digest_extend` per chunk, then `vb2_digest_finalize`.
   */
  function HashChunks(cfg: BuildConfig, prior: Context, algorithm: uint32,
                      chunks: seq<seq<uint8>>, out: seq<uint8>,
                      digestSize: uint32, hash: Hasher): (r: Output)
    requires digestSize as int <= |out|
    requires ProducesDigests(hash)
  {
    var ctx := ExtendChunks(cfg, DigestInit(cfg, prior, algorithm).ctx, chunks);
    DigestFinalize(cfg, ctx, out, digestSize, hash)
  }

  /** Extending by nothing leaves a context whose union matches its identifier as it was. */
  lemma ExtendEmptyIsNoOp(cfg: BuildConfig, ctx: Context)
    requires StateMatchesAlgorithm(cfg, ctx)
    ensures DigestExtend(cfg, ctx, []).ctx == ctx
  {
  }

  /**
   * Only init writes the stored identifier: any number of extends keep it, and
   * keep the union holding the state of the variant it selects.
   */
  lemma {:induction false} ExtendChunksKeepsAlgorithm(cfg: BuildConfig, ctx: Context,
                                                      chunks: seq<seq<uint8>>)
    requires StateMatchesAlgorithm(cfg, ctx)
    ensures ExtendChunks(cfg, ctx, chunks).algorithm == ctx.algorithm
    ensures StateMatchesAlgorithm(cfg, ExtendChunks(cfg, ctx, chunks))
    decreases |chunks|
  {
    if chunks != [] {
      ExtendChunksKeepsAlgorithm(cfg, DigestExtend(cfg, ctx, chunks[0]).ctx, chunks[1..]);
    }
  }

  /**
   * Streaming equivalence: extending chunk by chunk leaves a consistent
   * context exactly as one extend with the concatenation of the chunks does.
   */
  lemma {:induction false} StreamingEquivalence(cfg: BuildConfig, ctx: Context,
                                                chunks: seq<seq<uint8>>)
    requires StateMatchesAlgorithm(cfg, ctx)
    ensures ExtendChunks(cfg, ctx, chunks) == DigestExtend(cfg, ctx, Flatten(chunks)).ctx
    decreases |chunks|
  {
    if chunks == [] {
      ExtendEmptyIsNoOp(cfg, ctx);
    } else {
      var first := DigestExtend(cfg, ctx, chunks[0]);
      StreamingEquivalence(cfg, first.ctx, chunks[1..]);
      var whole := DigestExtend(cfg, ctx, Flatten(chunks));
      var rest := DigestExtend(cfg, first.ctx, Flatten(chunks[1..]));
      if first.rc == Success {
        assert rest.ctx.state.absorbed == ctx.state.absorbed + chunks[0] + Flatten(chunks[1..]);
        assert whole.ctx.state.absorbed == ctx.state.absorbed + (chunks[0] + Flatten(chunks[1..]));
        StateDeterminedByVariantAndBytes(rest.ctx.state, whole.ctx.state);
      }
    }
  }

  /** A variant state is nothing but its variant and its absorbed bytes. */
  lemma StateDeterminedByVariantAndBytes(s: VariantState, t: VariantState)
    requires s.Variant() == t.Variant() && s.absorbed == t.absorbed
    ensures s == t
  {
  }

  /**
   * For any chunking of the input, init, the extends and finalize write the
   * same digest and return the same code as a single extend of the whole input.
   */
  lemma ChunkingDoesNotMatter(cfg: BuildConfig, prior: Context, algorithm: uint32,
                              chunks: seq<seq<uint8>>, out: seq<uint8>,
                              digestSize: uint32, hash: Hasher)
    requires digestSize as int <= |out|
    requires ProducesDigests(hash)
    ensures HashChunks(cfg, prior, algorithm, chunks, out, digestSize, hash)
         == HashChunks(cfg, prior, algorithm, [Flatten(chunks)], out, digestSize, hash)
  {
    var init := DigestInit(cfg, prior, algorithm).ctx;
    StreamingEquivalence(cfg, init, chunks);
    StreamingEquivalence(cfg, init, [Flatten(chunks)]);
    assert Flatten([Flatten(chunks)]) == Flatten(chunks) + [];
  }

  /**
   * Two identifiers that resolve to the same variant give the same digest and
   * return code for the same input, whatever the two contexts held before init.
   */
  lemma SameVariantSameDigest(cfg: BuildConfig, prior1: Context, prior2: Context,
                              a: uint32, b: uint32, chunks: seq<seq<uint8>>,
                              out: seq<uint8>, digestSize: uint32, hash: Hasher)
    requires HashAlg(cfg, a) == HashAlg(cfg, b)
    requires digestSize as int <= |out|
    requires ProducesDigests(hash)
    ensures HashChunks(cfg, prior1, a, chunks, out, digestSize, hash)
         == HashChunks(cfg, prior2, b, chunks, out, digestSize, hash)
  {
    var init1 := DigestInit(cfg, prior1, a).ctx;
    var init2 := DigestInit(cfg, prior2, b).ctx;
    StreamingEquivalence(cfg, init1, chunks);
    StreamingEquivalence(cfg, init2, chunks);
    var end1 := DigestExtend(cfg, init1, Flatten(chunks)).ctx;
    var end2 := DigestExtend(cfg, init2, Flatten(chunks)).ctx;
    assert DigestSize(cfg, a) == DigestSize(cfg, b);
    if Compiled(cfg, HashAlg(cfg, a)) {
      assert end1.state.absorbed == Flatten(chunks) == end2.state.absorbed;
    }
  }

  /**
   * After an init that failed, every extend fails with `ErrorBadAlgorithm` and
   * changes nothing, and finalize fails with `ErrorBadAlgorithm` for every
   * capacity and leaves the buffer as it was.
   */
  lemma FailedInitPoisonsContext(cfg: BuildConfig, prior: Context, algorithm: uint32,
                                 data: seq<uint8>, out: seq<uint8>,
                                 digestSize: uint32, hash: Hasher)
    requires DigestInit(cfg, prior, algorithm).rc != Success
    requires digestSize as int <= |out|
    requires ProducesDigests(hash)
    ensures var ctx := DigestInit(cfg, prior, algorithm).ctx;
      && DigestExtend(cfg, ctx, data) == Step(ctx, ErrorBadAlgorithm)
      && DigestFinalize(cfg, ctx, out, digestSize, hash) == Output(out, ErrorBadAlgorithm)
  {
  }

  /**
   * A buffer one byte short of the digest size is refused with
   * `ErrorBufferTooSmall` and left byte-for-byte unchanged.
   */
  lemma OneByteShortIsRefused(cfg: BuildConfig, ctx: Context, out: seq<uint8>, hash: Hasher)
    requires DigestSize(cfg, ctx.algorithm) != 0
    requires DigestSize(cfg, ctx.algorithm) - 1 <= |out|
    requires ProducesDigests(hash)
    ensures DigestFinalize(cfg, ctx, out, (DigestSize(cfg, ctx.algorithm) - 1) as uint32, hash)
         == Output(out, ErrorBufferTooSmall)
  {
  }

  /**
   * A successful run writes exactly the variant's digest of the whole input
   * into the first `DigestSize` bytes of the buffer.
   */
  lemma SuccessfulRunWritesDigestOfInput(cfg: BuildConfig, prior: Context, algorithm: uint32,
                                         chunks: seq<seq<uint8>>, out: seq<uint8>,
                                         digestSize: uint32, hash: Hasher)
    requires digestSize as int <= |out|
    requires ProducesDigests(hash)
    requires DigestSize(cfg, algorithm) <= digestSize as int
    requires DigestSize(cfg, algorithm) != 0
    ensures var r := HashChunks(cfg, prior, algorithm, chunks, out, digestSize, hash);
      && r.rc == Success
      && r.digest[..DigestSize(cfg, algorithm)] == hash(HashAlg(cfg, algorithm), Flatten(chunks))
  {
    var init := DigestInit(cfg, prior, algorithm).ctx;
    StreamingEquivalence(cfg, init, chunks);
    assert [] + Flatten(chunks) == Flatten(chunks);
  }
}
