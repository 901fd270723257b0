/**
 * The variant resolver (`vb2_hash_alg`) and the digest size table
 * (`vb2_digest_size`) of firmware/2lib/2sha_utility.c.
 */
module HashAlgorithms {
  import opened Vb2Types

  /** `VB2_HASH_COUNT`: the number of hash variants, and the resolver's sentinel. */
  const HASH_COUNT: nat := 3

  /** Digest sizes in bytes (`VB2_SHA1_DIGEST_SIZE` and its siblings). */
  const SHA1_DIGEST_SIZE: nat := 20
  const SHA256_DIGEST_SIZE: nat := 32
  const SHA512_DIGEST_SIZE: nat := 64

  /**
   * `enum vb2_hash_algorithm`. The three variants carry the numbers of the
   * RSA-1024 key algorithms (0, 1, 2); `HashCount` is `VB2_HASH_COUNT` (3),
   * which the resolver returns for identifiers it does not know.
   */
  datatype HashAlgorithm = HashSha1 | HashSha256 | HashSha512 | HashCount
  {
    /**
     * The enumerator's integer value: the RSA-1024 key identifiers 0, 1, 2 for
     * the variants, and `VB2_HASH_COUNT` for the sentinel, so the sentinel's
     * value is none of the variants'.
     */
    function Value(): (n: nat)
      ensures this == HashSha1 <==> n == 0
      ensures this == HashSha256 <==> n == 1
      ensures this == HashSha512 <==> n == 2
      ensures this == HashCount <==> n == HASH_COUNT
    {
      match this
      case HashSha1 => 0
      case HashSha256 => 1
      case HashSha512 => 2
      case HashCount => HASH_COUNT
    }
  }

  /** The real variant whose enumerator value is `n`. */
  function FromValue(n: nat): (h: HashAlgorithm)
    requires n < HASH_COUNT
    ensures h.Value() == n
  {
    if n == 0 then HashSha1 else if n == 1 then HashSha256 else HashSha512
  }

  /**
   * The build-time parameters the file depends on but does not define:
   * `VB2_ALG_COUNT` (the number of combined key+hash algorithm identifiers,
   * from 2rsa.h) and the `VB2_SUPPORT_SHA1/SHA256/SHA512` switches.
   */
  datatype BuildConfig = BuildConfig(
    algCount: uint32,
    supportSha1: bool,
    supportSha256: bool,
    supportSha512: bool)

  /**
   * The key table holds at least the three RSA-1024 identifiers that the hash
   * enumerators are aligned with.
   */
  predicate ValidConfig(cfg: BuildConfig) {
    cfg.algCount as int >= HASH_COUNT
  }

  /** True when the build compiled in a `case` for variant `h`. */
  predicate Compiled(cfg: BuildConfig, h: HashAlgorithm) {
    match h
    case HashSha1 => cfg.supportSha1
    case HashSha256 => cfg.supportSha256
    case HashSha512 => cfg.supportSha512
    case HashCount => false
  }

  /**
   * Message digest sizes in bits from section 1 of FIPS 180-4 (SHA-1: 160,
   * SHA-256: 256, SHA-512: 512); the reference the size table must agree with.
   */
  function MessageDigestBits(h: HashAlgorithm): (bits: nat)
    requires h != HashCount
  {
    match h
    case HashSha1 => 160
    case HashSha256 => 256
    case HashSha512 => 512
  }

  /** The digest size constant of a real variant, whether or not it is compiled in. */
  function VariantDigestSize(h: HashAlgorithm): (size: nat)
    requires h != HashCount
    ensures size * 8 == MessageDigestBits(h)
  {
    match h
    case HashSha1 => SHA1_DIGEST_SIZE
    case HashSha256 => SHA256_DIGEST_SIZE
    case HashSha512 => SHA512_DIGEST_SIZE
  }

  /**
   * `vb2_hash_alg`: the hash variant of a combined key+hash identifier. The
   * sentinel comes back exactly for identifiers outside the key table; an
   * identifier inside it selects the variant numbered by its residue mod 3.
   */
  function HashAlg(cfg: BuildConfig, algorithm: uint32): (h: HashAlgorithm)
    ensures h == HashCount <==> algorithm >= cfg.algCount
    ensures h != HashCount ==> h.Value() == algorithm as int % HASH_COUNT
  {
    if algorithm < cfg.algCount then FromValue(algorithm as int % HASH_COUNT)
    else HashCount
  }

  /**
   * `vb2_digest_size`: the digest length of the identifier's variant, and 0
   * (the "cannot be used" value) exactly when the identifier is out of range
   * or its variant is not compiled in. A usable size is one of the FIPS 180-4
   * lengths and is never 0.
   */
  function DigestSize(cfg: BuildConfig, algorithm: uint32): (size: nat)
    ensures size == 0 <==> !Compiled(cfg, HashAlg(cfg, algorithm))
    ensures size != 0 ==> size * 8 == MessageDigestBits(HashAlg(cfg, algorithm))
    ensures size == 0 || size == 20 || size == 32 || size == 64
  {
    match HashAlg(cfg, algorithm)
    case HashSha1 => if cfg.supportSha1 then SHA1_DIGEST_SIZE else 0
    case HashSha256 => if cfg.supportSha256 then SHA256_DIGEST_SIZE else 0
    case HashSha512 => if cfg.supportSha512 then SHA512_DIGEST_SIZE else 0
    case HashCount => 0
  }

  /**
   * Two identifiers inside the key table resolve to the same variant exactly
   * when they agree mod `VB2_HASH_COUNT`: keys of different families that
   * share a hash component share a variant.
   */
  lemma SameVariantIffSameResidue(cfg: BuildConfig, a: uint32, b: uint32)
    requires a < cfg.algCount && b < cfg.algCount
    ensures HashAlg(cfg, a) == HashAlg(cfg, b) <==> a as int % HASH_COUNT == b as int % HASH_COUNT
  {
  }

  /**
   * The hash enumerators line up with the RSA-1024 key identifiers: in a
   * valid build, identifier `h.Value()` resolves to `h` itself.
   */
  lemma KeyAlgorithmsLineUp(cfg: BuildConfig, h: HashAlgorithm)
    requires ValidConfig(cfg) && h != HashCount
    ensures HashAlg(cfg, h.Value() as uint32) == h
  {
  }

  /**
   * `vb2_digest_size` stated on the raw identifier and switches: 0 exactly
   * when the identifier is at or past `VB2_ALG_COUNT` or the switch of its
   * residue class is off.
   */
  lemma DigestSizeZeroIff(cfg: BuildConfig, algorithm: uint32)
    ensures DigestSize(cfg, algorithm) == 0 <==>
      (algorithm >= cfg.algCount
       || (algorithm as int % HASH_COUNT == 0 && !cfg.supportSha1)
       || (algorithm as int % HASH_COUNT == 1 && !cfg.supportSha256)
       || (algorithm as int % HASH_COUNT == 2 && !cfg.supportSha512))
  {
  }

  /** A usable identifier's size is the fixed size of its variant. */
  lemma DigestSizeOfUsable(cfg: BuildConfig, algorithm: uint32)
    requires Compiled(cfg, HashAlg(cfg, algorithm))
    ensures DigestSize(cfg, algorithm) == VariantDigestSize(HashAlg(cfg, algorithm)) > 0
  {
  }
}
