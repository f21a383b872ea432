/** SHA-256 is a parameter `H` that yields 64 hexadecimal characters and nothing more is known of it; in particular it
    is not injective, so every binding theorem ends in "or these two distinct preimages share a digest". */
module Digests {
  type Digest = string -> string

  predicate HexChar(c: char) {
    '0' <= c <= '9' || 'a' <= c <= 'f'
  }

  ghost predicate IsDigest(H: Digest) {
    forall s :: |H(s)| == 64 && forall i :: 0 <= i < 64 ==> HexChar(H(s)[i])
  }

  ghost predicate Collide(H: Digest, x: string, y: string) {
    x != y && H(x) == H(y)
  }
}
