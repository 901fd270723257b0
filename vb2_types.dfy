/** Machine types and result codes shared by the vboot2 digest utilities. */
module Vb2Types {

  /** A C `uint8_t`. */
  newtype uint8 = x: int | 0 <= x < 0x100

  /** A C `uint32_t`: algorithm identifiers and buffer sizes. */
  newtype uint32 = x: int | 0 <= x < 0x1_0000_0000

  /**
   * The outcomes the digest utilities report. `VB2_SUCCESS`,
   * `VB2_ERROR_BAD_ALGORITHM` and `VB2_ERROR_BUFFER_TOO_SMALL` are distinct
   * integer codes in the firmware; their numeric values are not modelled.
   */
  datatype ReturnCode = Success | ErrorBadAlgorithm | ErrorBufferTooSmall
}
