/** The spellings the blob store's name check admits, before a name becomes a path. */
module BlobNames {

  const MAX_DESIGNATION: nat := 32
  const MAX_HEX: nat := 128

  predicate IsDigit(c: char) {
    '0' <= c <= '9'
  }

  /** 1 to 32 lowercase letters, digits and `-`: no path climbs out of the root by it. */
  predicate DesignationOk(designation: string) {
    && 0 < |designation| <= MAX_DESIGNATION
    && forall i :: 0 <= i < |designation| ==>
         'a' <= designation[i] <= 'z' || IsDigit(designation[i]) || designation[i] == '-'
  }

  /** Lowercase hex, an even length between 2 and 128. */
  predicate HexOk(hex: string) {
    && 2 <= |hex| <= MAX_HEX && |hex| % 2 == 0
    && forall i :: 0 <= i < |hex| ==> IsDigit(hex[i]) || 'a' <= hex[i] <= 'f'
  }
}
