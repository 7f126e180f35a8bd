/** Bytes, little-endian machine words and the Option type shared by the other modules. */
module Bytes {

  datatype Option<+T> = None | Some(value: T)

  type byte = b: int | 0 <= b < 256

  /** The number of bytes in a `usize` or a `u64`. */
  const WORD: nat := 8

  function Pow256(n: nat): nat {
    if n == 0 then 1 else 256 * Pow256(n - 1)
  }

  /** The value a little-endian load of these bytes yields. */
  function Load(bs: seq<byte>): nat {
    if bs == [] then 0 else bs[0] + 256 * Load(bs[1..])
  }

  /** The bytes a little-endian store of `v` into `n` bytes leaves behind. */
  function Store(v: nat, n: nat): (bs: seq<byte>)
    ensures |bs| == n
  {
    if n == 0 then [] else [v % 256] + Store(v / 256, n - 1)
  }

  lemma {:induction false} LoadStore(v: nat, n: nat)
    requires v < Pow256(n)
    ensures Load(Store(v, n)) == v
  {
    if n > 0 {
      LoadStore(v / 256, n - 1);
      assert Store(v, n)[1..] == Store(v / 256, n - 1);
    }
  }

  /** `m` with its bytes from `at` on replaced by `bs`. */
  function Put(m: seq<byte>, at: nat, bs: seq<byte>): (r: seq<byte>)
    requires at + |bs| <= |m|
    ensures |r| == |m|
  {
    m[..at] + bs + m[at + |bs|..]
  }

  /** One byte more of a copy that has got as far as `k`. */
  lemma PutNext(m: seq<byte>, at: nat, bs: seq<byte>, k: nat)
    requires k < |bs| && at + |bs| <= |m|
    ensures Put(m, at, bs[..k])[at + k := bs[k]] == Put(m, at, bs[..k + 1])
  {
  }

  /** Words are equal exactly when all their bytes are. */
  lemma {:induction false} LoadInjective(a: seq<byte>, b: seq<byte>)
    requires |a| == |b|
    ensures Load(a) == Load(b) <==> a == b
  {
    if a != [] && Load(a) == Load(b) {
      assert Load(a) % 256 == a[0] && Load(b) % 256 == b[0];
      LoadInjective(a[1..], b[1..]);
      assert a == [a[0]] + a[1..] && b == [b[0]] + b[1..];
    }
  }
}
