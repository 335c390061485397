/**
  Types shared by the client and the server models.
 */
module Base {
  datatype Option<+T> = None | Some(value: T)

  type Byte = b: int | 0 <= b < 256
  type Bytes = seq<Byte>

  /** A content digest. Hash functions are symbolic: a digest remembers the bytes it was
      computed from, which is the usual "no collisions among the bytes in play". */
  datatype Digest = NoHash | Blake3(of: Bytes) | Sha256(of: Bytes)

  datatype Kind = IsFile | IsFolder

  /** A server path split at its slashes; the root is []. Module Paths relates this to strings. */
  type Path = seq<string>

  type Id = nat

  /** `p` is `root` or lies beneath it. */
  predicate Under(p: Path, root: Path) {
    root <= p
  }

  /** The folder holding `p`; the root is its own parent. */
  function Parent(p: Path): Path {
    if p == [] then [] else p[..|p| - 1]
  }

  function BaseName(p: Path): string {
    if p == [] then "/" else p[|p| - 1]
  }
}
