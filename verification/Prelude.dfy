/** Common data: options, machine-integer bounds, and the stores' id counters. */
module Prelude {
  datatype Option<+T> = None | Some(value: T)

  const U64_MAX: int := 0xFFFF_FFFF_FFFF_FFFF
  const I64_MAX: int := 0x7FFF_FFFF_FFFF_FFFF
  const TWO64: int := 0x1_0000_0000_0000_0000
  const I64_MIN: int := -0x8000_0000_0000_0000

  /** The index of the first element with the property; the length if none has it. */
  function FirstIndex<T>(s: seq<T>, p: T -> bool): (i: nat)
    ensures i <= |s| && (i < |s| ==> p(s[i]))
    ensures forall k :: 0 <= k < i ==> !p(s[k])
  {
    if s == [] || p(s[0]) then 0 else 1 + FirstIndex(s[1..], p)
  }

  function MaxId(ids: seq<nat>): nat {
    if ids == [] then 0
    else var m := MaxId(ids[..|ids| - 1]); if ids[|ids| - 1] > m then ids[|ids| - 1] else m
  }

  function SatSucc(n: nat): nat {
    if n >= U64_MAX then U64_MAX else n + 1
  }

  lemma {:induction false} MaxIdBounds(ids: seq<nat>)
    ensures forall i :: 0 <= i < |ids| ==> ids[i] <= MaxId(ids)
  {
    if ids != [] {
      MaxIdBounds(ids[..|ids| - 1]);
    }
  }
}
