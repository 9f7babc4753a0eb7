/** Small definitions that several components share. */
module Prelude {
  datatype Option<T> = None | Some(value: T)

  /** `s` with `x` inserted before index `pos`. */
  function Spliced<T>(s: seq<T>, pos: nat, x: T): seq<T>
    requires pos <= |s|
  {
    s[..pos] + [x] + s[pos..]
  }

  function Concat<T>(blocks: seq<seq<T>>): seq<T> {
    if blocks == [] then [] else Concat(blocks[..|blocks| - 1]) + blocks[|blocks| - 1]
  }

  lemma MulMono(a: int, b: int, d: nat)
    requires a <= b
    ensures a * d <= b * d
  {
    assert (b - a) * d >= 0;
  }

  lemma SpliceAt<T>(s: seq<T>, pos: nat, x: T)
    requires pos <= |s|
    ensures |Spliced(s, pos, x)| == |s| + 1
    ensures forall i :: 0 <= i <= |s| ==>
      Spliced(s, pos, x)[i] == if i < pos then s[i] else if i == pos then x else s[i - 1]
  {
  }

  /** What an insertion looks like index by index. */
  lemma SplicedIs<T>(s: seq<T>, r: seq<T>, pos: nat, x: T)
    requires pos <= |s| && |r| == |s| + 1 && r[pos] == x
    requires forall i :: 0 <= i < pos ==> r[i] == s[i]
    requires forall i :: pos < i < |r| ==> r[i] == s[i - 1]
    ensures r == Spliced(s, pos, x)
  {
    SpliceAt(s, pos, x);
  }

  /** Quotient and remainder are what they are written as. */
  lemma ModUnique(q: int, r: int, d: nat)
    requires d > 0 && 0 <= r < d
    ensures (q * d + r) % d == r && (q * d + r) / d == q
  {
    var x := q * d + r;
    assert x == x / d * d + x % d;
    if x / d > q { MulMono(q + 1, x / d, d); }
    if x / d < q { MulMono(x / d + 1, q, d); }
  }
}
