# vboot2 message-digest dispatcher, modelled in Dafny

This project models `firmware/2lib/2sha_utility.c` of vboot2, the firmware's
front end to its message digests. A caller names an algorithm by a combined
key+hash identifier (for example RSA-2048 with SHA-256). The file resolves that
identifier to one of three hash variants (SHA-1, SHA-256, SHA-512 of FIPS
180-4), reports the digest length, and runs an init/extend/finalize lifecycle on
a caller-owned `struct vb2_digest_context`, sending every call to the variant
chosen by the identifier stored at init.

Files:

- `vb2_types.dfy` (module `Vb2Types`): `uint8`, `uint32` and the three return codes.
- `hash_algorithm.dfy` (module `HashAlgorithms`): `enum vb2_hash_algorithm`, the
  build configuration, `vb2_hash_alg` as `HashAlg`, `vb2_digest_size` as
  `DigestSize`, and the FIPS 180-4 digest lengths they must agree with.
- `digest_context.dfy` (module `DigestContexts`): the context as a value
  (`Context`), the three lifecycle calls as functions on it (`DigestInit`,
  `DigestExtend`, `DigestFinalize`), and the class `DigestContext` whose methods
  update the context and the caller's digest buffer in place. Each method is
  proved to do exactly what its function says.
- `digest_properties.dfy` (module `DigestProperties`): properties across calls.
  They cover streaming equivalence, the variant being fixed at init, identifiers
  that share a variant giving the same digest, and a failed init poisoning the
  context.

Things the file uses but does not define are parameters:

- `VB2_ALG_COUNT` (from 2rsa.h) and the `VB2_SUPPORT_SHA1/SHA256/SHA512`
  switches are the fields of `BuildConfig`. `ValidConfig` demands
  `VB2_ALG_COUNT >= 3`, so the three RSA-1024 identifiers exist. Only the
  lemma that relies on it requires it.
- The SHA primitives are opaque. A variant's state is the byte sequence it has
  absorbed since its init. Its finalize output is given by a `Hasher`, a
  function of (variant, absorbed bytes), passed to `Finalize`. The predicate
  `ProducesDigests` says it writes exactly the variant's digest size.
- The digest sizes 20, 32 and 64 are `VB2_SHA*_DIGEST_SIZE`. `VariantDigestSize` is
  proved to agree with the 160-, 256- and 512-bit message digest sizes of section 1 of FIPS 180-4.

Behaviour of the code worth noting:

- `vb2_digest_init` stores the identifier in the context before it resolves
  it, so a failed init still overwrites `dc->algorithm`. The union is then left
  as it was.
- Extend and finalize resolve the stored identifier again on every call. After
  a failed init they fail with `VB2_ERROR_BAD_ALGORITHM`.
- Nothing rejects reuse of a context after finalize.

## Model

| member | source | states |
|---|---|---|
| HashAlgorithms.HashAlgorithm.Value | firmware/2lib/2sha_utility.c:14-21 | SHA-1, SHA-256 and SHA-512 have the values 0, 1 and 2 of the RSA-1024 key identifiers, and the sentinel `VB2_HASH_COUNT` has value 3, which no variant has |
| HashAlgorithms.VariantDigestSize | firmware/2lib/2sha_utility.c:37-48 | each variant's digest size in bytes times 8 is its FIPS 180-4 message digest size (160, 256, 512 bits) |
| HashAlgorithms.HashAlg | firmware/2lib/2sha_utility.c:26-32 | the sentinel is returned exactly for identifiers at or past `VB2_ALG_COUNT`; any other identifier gets the variant numbered by its residue mod 3 |
| HashAlgorithms.DigestSize | firmware/2lib/2sha_utility.c:34-52 | the size is 0 exactly when the resolved variant is not compiled in (or is the sentinel); a nonzero size is the FIPS 180-4 length of the variant, one of 20, 32, 64 |
| HashAlgorithms.SameVariantIffSameResidue | firmware/2lib/2sha_utility.c:28-29 | two in-range identifiers resolve to the same variant if and only if they are congruent mod 3 |
| HashAlgorithms.KeyAlgorithmsLineUp | firmware/2lib/2sha_utility.c:13-21 | with `VB2_ALG_COUNT >= 3`, the RSA-1024 identifier numbered like a hash enumerator resolves to that enumerator |
| HashAlgorithms.DigestSizeZeroIff | firmware/2lib/2sha_utility.c:34-52 | the size is 0 if and only if the identifier is out of range or the build switch of its residue class is off |
| HashAlgorithms.DigestSizeOfUsable | firmware/2lib/2sha_utility.c:34-52 | a usable identifier's size is its variant's fixed, nonzero digest size |
| DigestContexts.EmptyState | firmware/2lib/2sha_utility.c:58-73 | a variant's init primitive gives that variant's state with nothing absorbed |
| DigestContexts.Absorb | firmware/2lib/2sha_utility.c:83-98 | a variant's update primitive gives that variant's state with `data` appended to the bytes absorbed |
| DigestContexts.DigestInit | firmware/2lib/2sha_utility.c:54-77 | the identifier is stored in every case; `VB2_ERROR_BAD_ALGORITHM` exactly when the size is 0, with the union unchanged; otherwise success with the chosen variant's state empty; afterwards the union always matches the stored identifier |
| DigestContexts.DigestExtend | firmware/2lib/2sha_utility.c:79-102 | the stored identifier never changes; success exactly when its size is nonzero, and then only the selected variant's state grows by `data`; on `VB2_ERROR_BAD_ALGORITHM` nothing changes; a union that matches the identifier keeps matching |
| DigestContexts.DigestFinalize | firmware/2lib/2sha_utility.c:104-130 | `VB2_ERROR_BUFFER_TOO_SMALL` exactly when the capacity is below the size; `VB2_ERROR_BAD_ALGORITHM` exactly when the size is 0, whatever the capacity; on failure the buffer is unchanged; on success the first size bytes are the digest of the absorbed bytes and the rest is unchanged |
| DigestContexts.DigestContext.Init | firmware/2lib/2sha_utility.c:54-77 | updating the context in place gives exactly the context and return code of `DigestInit` |
| DigestContexts.DigestContext.Extend | firmware/2lib/2sha_utility.c:79-102 | absorbing `buf[0..size)` in place gives exactly the context and return code of `DigestExtend` |
| DigestContexts.DigestContext.Finalize | firmware/2lib/2sha_utility.c:104-130 | writing into the caller's array gives exactly the buffer and return code of `DigestFinalize`; the context is not modified |
| DigestProperties.ExtendEmptyIsNoOp | firmware/2lib/2sha_utility.c:79-102 | a zero-length extend leaves a context whose union matches its identifier as it was |
| DigestProperties.ExtendChunksKeepsAlgorithm | firmware/2lib/2sha_utility.c:79-102 | any number of extends keep the stored identifier and keep the union holding its variant's state |
| DigestProperties.StreamingEquivalence | firmware/2lib/2sha_utility.c:79-102 | extending chunk by chunk leaves the context exactly as one extend of the concatenation does |
| DigestProperties.ChunkingDoesNotMatter | firmware/2lib/2sha_utility.c:54-130 | init, extends, finalize write the same buffer and return code for every chunking of the same input |
| DigestProperties.SameVariantSameDigest | firmware/2lib/2sha_utility.c:26-130 | two identifiers that resolve to the same variant produce the same buffer and return code for the same input, whatever the contexts held before init |
| DigestProperties.FailedInitPoisonsContext | firmware/2lib/2sha_utility.c:54-130 | after a failed init, extend fails with `VB2_ERROR_BAD_ALGORITHM` and changes nothing, and finalize fails with it for every capacity and writes nothing |
| DigestProperties.OneByteShortIsRefused | firmware/2lib/2sha_utility.c:108-109 | a buffer one byte short of the digest size gives `VB2_ERROR_BUFFER_TOO_SMALL` and is left unchanged |
| DigestProperties.SuccessfulRunWritesDigestOfInput | firmware/2lib/2sha_utility.c:54-130 | with a usable identifier and enough capacity, a run succeeds and writes the variant's digest of the concatenated input |

## Left out

- The SHA-1, SHA-256 and SHA-512 compression functions and padding (`vb2_sha*_init/update/finalize`) live in other files and are not part of this model. Their state is the absorbed bytes and their output is the `Hasher` parameter, so known-answer digests such as SHA-256 of "abc" cannot be stated.
- Calls into the primitives are not traced: that a failed init makes no primitive call shows only as the union being left unchanged.
- The C union's memory layout is not modelled. Reading a union that holds one variant's state as another variant's state keeps the absorbed bytes. That only happens on a context that never went through init.
- DigestContexts.DigestContext.Finalize: what the finalize primitive does to the variant state is not modelled (the context is left unchanged). So reuse after finalize, which the source leaves undefined, behaves in the model like continuing the stream.
- The `#if VB2_SUPPORT_*` preprocessor switches are the booleans of `BuildConfig`, not generated code.
- `vb2_digest_size` returns a C `int` compared against a `uint32_t` at line 108. Sizes are naturals here; every returned size is 0, 20, 32 or 64, so the conversion does not matter.
- The numeric values of `VB2_SUCCESS` and the error codes are in 2return_codes.h, which is not part of this model. They are distinct constructors of `ReturnCode`.
- The key algorithms themselves (RSA sizes, key formats) are not modelled beyond the range bound `VB2_ALG_COUNT`.
- Raw pointers are arrays. Extend and Finalize require the stated size to fit in the array; the C code trusts its callers for this.
