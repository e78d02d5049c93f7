/** Types shared by every module of the model. */
module Common {

  /** One octet of a file, a frame or a field. */
  type byte = b: int | 0 <= b < 256

  type Bytes = seq<byte>

  datatype Option<+T> = None | Some(value: T)

  /** `n` copies of `b`. */
  function Fill(n: nat, b: byte): (r: Bytes)
    ensures |r| == n && forall i :: 0 <= i < n ==> r[i] == b
  {
    seq(n, _ => b)
  }

  /** A fixed-size field: cut or filled up with zeros. */
  function Padded(value: Bytes, size: nat): (r: Bytes)
    ensures |r| == size
  {
    if |value| <= size then value + Fill(size - |value|, 0) else value[..size]
  }
}
