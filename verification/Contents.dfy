/** File contents, digests and disk nodes shared by the models of this project.

    SHA-256 is modelled symbolically: `Digest` is a free constructor over the digested bytes, so two
    digests are equal exactly when the bytes are, and no digest is the empty string. */
module Contents {

  newtype byte = x: int | 0 <= x < 256

  type Bytes = seq<byte>

  datatype Option<+T> = None | Some(value: T)

  /** The hexadecimal digest strings of the program; `NoDigest` is the empty string. */
  datatype Digest = NoDigest | Sha256(data: Bytes)

  /** What a path names: nothing, a regular file, or something that is not a regular file. */
  datatype Node = Absent | File(data: Bytes) | WrongType
}
