/** Text conventions shared by the grid and the word index. */
module Text {
  /**
   * The source reads grids and words byte by byte (`as_bytes`, `len()`,
   * byte slices); on ASCII text bytes and characters coincide.
   */
  predicate IsAscii(s: string) {
    forall i :: 0 <= i < |s| ==> s[i] as int < 128
  }
}
