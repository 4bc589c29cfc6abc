/** The sizes of the Winlink compressor. */
module Constants {
  /** The window, the longest match, and the longest match not worth a copy. */
  const N: nat := 2048
  const F: nat := 60
  const THRESHOLD: nat := 2

  /** Symbols: the 256 bytes, and one for each match length. */
  const NCHAR: nat := 314

  /** Tree nodes, the root among them, and the weight at which the tree is rebuilt. */
  const T: nat := 627
  const R: nat := 626
  const MAX_FREQ: nat := 0x8000
}
