/**
 * The digest context of firmware/2lib/2sha_utility.c and its
 * init/extend/finalize lifecycle (`vb2_digest_init`, `vb2_digest_extend`,
 * `vb2_digest_finalize`).
 *
 * The SHA primitives are opaque here. A variant's running state is the byte
 * sequence it has absorbed since its init, and the digest its finalize writes
 * is supplied by a `Hasher`: a function of the variant and the absorbed bytes
 * that produces exactly that variant's digest size.
 */
module DigestContexts {
  import opened Vb2Types
  import opened HashAlgorithms

  /**
   * The union of `struct vb2_digest_context`: the running state of exactly one
   * of `dc->sha1`, `dc->sha256`, `dc->sha512`.
   */
  datatype VariantState =
    | Sha1Ctx(absorbed: seq<uint8>)
    | Sha256Ctx(absorbed: seq<uint8>)
    | Sha512Ctx(absorbed: seq<uint8>)
  {
    /** The variant whose state this is. */
    function Variant(): (h: HashAlgorithm)
      ensures h != HashCount
    {
      match this
      case Sha1Ctx(_) => HashSha1
      case Sha256Ctx(_) => HashSha256
      case Sha512Ctx(_) => HashSha512
    }
  }

  /** A variant's state right after its init primitive (`vb2_sha*_init`). */
  function EmptyState(h: HashAlgorithm): (s: VariantState)
    requires h != HashCount
    ensures s.Variant() == h && s.absorbed == []
  {
    match h
    case HashSha1 => Sha1Ctx([])
    case HashSha256 => Sha256Ctx([])
    case HashSha512 => Sha512Ctx([])
  }

  /**
   * Variant `h`'s update primitive (`vb2_sha*_update`) applied to the union
   * read as `h`'s state: it appends `data` to the bytes absorbed so far.
   */
  function Absorb(h: HashAlgorithm, s: VariantState, data: seq<uint8>): (s': VariantState)
    requires h != HashCount
    ensures s'.Variant() == h && s'.absorbed == s.absorbed + data
  {
    match h
    case HashSha1 => Sha1Ctx(s.absorbed + data)
    case HashSha256 => Sha256Ctx(s.absorbed + data)
    case HashSha512 => Sha512Ctx(s.absorbed + data)
  }

  /** The finalize primitives (`vb2_sha*_finalize`) as one function. */
  type Hasher = (HashAlgorithm, seq<uint8>) -> seq<uint8>

  /** Every finalize primitive writes exactly its variant's digest size. */
  ghost predicate ProducesDigests(hash: Hasher) {
    forall h: HashAlgorithm, m: seq<uint8> {:trigger hash(h, m)} ::
      h != HashCount ==> |hash(h, m)| == VariantDigestSize(h)
  }

  /** The contents of a `struct vb2_digest_context`. */
  datatype Context = Context(algorithm: uint32, state: VariantState)

  /** A context after a call, with the call's return code. */
  datatype Step = Step(ctx: Context, rc: ReturnCode)

  /** The caller's digest buffer after `vb2_digest_finalize`, with its return code. */
  datatype Output = Output(digest: seq<uint8>, rc: ReturnCode)

  /**
   * When the stored algorithm is usable, the union holds the state of that
   * algorithm's variant. Every `vb2_digest_init` establishes this, and
   * `vb2_digest_extend` keeps it.
   */
  predicate StateMatchesAlgorithm(cfg: BuildConfig, ctx: Context) {
    Compiled(cfg, HashAlg(cfg, ctx.algorithm)) ==> ctx.state.Variant() == HashAlg(cfg, ctx.algorithm)
  }

  /**
   * `vb2_digest_init`. The identifier is stored whatever happens. It fails with
   * `ErrorBadAlgorithm` exactly when the size table says 0, and then leaves the
   * union as it was; otherwise the chosen variant starts from nothing absorbed.
   */
  function DigestInit(cfg: BuildConfig, ctx: Context, algorithm: uint32): (r: Step)
    ensures r.ctx.algorithm == algorithm
    ensures r.rc == Success || r.rc == ErrorBadAlgorithm
    ensures r.rc == ErrorBadAlgorithm <==> DigestSize(cfg, algorithm) == 0
    ensures r.rc == Success ==>
      r.ctx.state.Variant() == HashAlg(cfg, algorithm) && r.ctx.state.absorbed == []
    ensures r.rc == ErrorBadAlgorithm ==> r.ctx.state == ctx.state
    ensures StateMatchesAlgorithm(cfg, r.ctx)
  {
    var h := HashAlg(cfg, algorithm);
    if Compiled(cfg, h) then Step(Context(algorithm, EmptyState(h)), Success)
    else Step(Context(algorithm, ctx.state), ErrorBadAlgorithm)
  }

  /**
   * `vb2_digest_extend`. The stored identifier selects the variant again; when
   * it is usable, `data` is appended to that variant's absorbed bytes, and
   * otherwise the call fails with `ErrorBadAlgorithm` and changes nothing.
   * The stored identifier never changes.
   */
  function DigestExtend(cfg: BuildConfig, ctx: Context, data: seq<uint8>): (r: Step)
    ensures r.ctx.algorithm == ctx.algorithm
    ensures r.rc == Success || r.rc == ErrorBadAlgorithm
    ensures r.rc == Success <==> DigestSize(cfg, ctx.algorithm) != 0
    ensures r.rc == Success ==>
      r.ctx.state.Variant() == HashAlg(cfg, ctx.algorithm)
      && r.ctx.state.absorbed == ctx.state.absorbed + data
    ensures r.rc == ErrorBadAlgorithm ==> r.ctx == ctx
    ensures StateMatchesAlgorithm(cfg, ctx) ==> StateMatchesAlgorithm(cfg, r.ctx)
  {
    var h := HashAlg(cfg, ctx.algorithm);
    if Compiled(cfg, h) then Step(Context(ctx.algorithm, Absorb(h, ctx.state, data)), Success)
    else Step(ctx, ErrorBadAlgorithm)
  }

  /**
   * `vb2_digest_finalize` into a caller buffer whose first `digestSize` bytes
   * are writable (`out` is the buffer before the call). A capacity below the
   * size table's value fails with `ErrorBufferTooSmall` before anything is
   * written; an unusable identifier fails with `ErrorBadAlgorithm` whatever the
   * capacity; otherwise the first `DigestSize` bytes become the digest of the
   * absorbed bytes and the rest of the buffer is untouched.
   */
  function DigestFinalize(cfg: BuildConfig, ctx: Context, out: seq<uint8>,
                          digestSize: uint32, hash: Hasher): (r: Output)
    requires digestSize as int <= |out|
    requires ProducesDigests(hash)
    ensures |r.digest| == |out|
    ensures r.rc == ErrorBufferTooSmall <==> (digestSize as int) < DigestSize(cfg, ctx.algorithm)
    ensures r.rc == ErrorBadAlgorithm <==> DigestSize(cfg, ctx.algorithm) == 0
    ensures r.rc != Success ==> r.digest == out
    ensures r.rc == Success ==>
      var n := DigestSize(cfg, ctx.algorithm);
      && r.digest[..n] == hash(HashAlg(cfg, ctx.algorithm), ctx.state.absorbed)
      && r.digest[n..] == out[n..]
  {
    var n := DigestSize(cfg, ctx.algorithm);
    if (digestSize as int) < n then Output(out, ErrorBufferTooSmall)
    else
      var h := HashAlg(cfg, ctx.algorithm);
      if Compiled(cfg, h) then Output(hash(h, ctx.state.absorbed) + out[n..], Success)
      else Output(out, ErrorBadAlgorithm)
  }

  /**
   * A caller-owned `struct vb2_digest_context`. There is no constructor: storage
   * the caller allocates holds whatever it holds until `Init` is called.
   */
  class DigestContext {
    /** `dc->algorithm`. */
    var algorithm: uint32
    /** The union `dc->sha1` / `dc->sha256` / `dc->sha512`. */
    var state: VariantState

    /** The context's contents as a value. */
    function Model(): (ctx: Context)
      reads this
    {
      Context(algorithm, state)
    }

    /** `vb2_digest_init(dc, algorithm)`. */
    method Init(cfg: BuildConfig, algorithm: uint32) returns (rc: ReturnCode)
      modifies this
      ensures Step(Model(), rc) == DigestInit(cfg, old(Model()), algorithm)
    {
      this.algorithm := algorithm;
      var h := HashAlg(cfg, this.algorithm);
      if Compiled(cfg, h) {
        state := EmptyState(h);
        return Success;
      }
      return ErrorBadAlgorithm;
    }

    /** `vb2_digest_extend(dc, buf, size)`: absorbs `buf[0..size)`. */
    method Extend(cfg: BuildConfig, buf: array<uint8>, size: uint32) returns (rc: ReturnCode)
      requires size as int <= buf.Length
      modifies this
      ensures Step(Model(), rc) == DigestExtend(cfg, old(Model()), buf[..size])
    {
      var h := HashAlg(cfg, algorithm);
      if Compiled(cfg, h) {
        state := Absorb(h, state, buf[..size]);
        return Success;
      }
      return ErrorBadAlgorithm;
    }

    /**
     * `vb2_digest_finalize(dc, digest, digestSize)`: the capacity check comes
     * first, and only the variant's finalize primitive writes to `digest`.
     */
    method Finalize(cfg: BuildConfig, digest: array<uint8>, digestSize: uint32, hash: Hasher)
      returns (rc: ReturnCode)
      requires digestSize as int <= digest.Length
      requires ProducesDigests(hash)
      modifies digest
      ensures Output(digest[..], rc) == DigestFinalize(cfg, Model(), old(digest[..]), digestSize, hash)
    {
      var n := DigestSize(cfg, algorithm);
      if (digestSize as int) < n {
        return ErrorBufferTooSmall;
      }
      var h := HashAlg(cfg, algorithm);
      if Compiled(cfg, h) {
        var d := hash(h, state.absorbed);
        forall i | 0 <= i < n {
          digest[i] := d[i];
        }
        assert digest[..] == d + old(digest[..])[n..];
        return Success;
      }
      return ErrorBadAlgorithm;
    }
  }
}
