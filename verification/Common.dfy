/** Value types shared by the fuzzer, its readers and its analysis passes. */
module Common {

  const U32_MOD: nat := 0x1_0000_0000
  const INSN_MAXLEN: nat := 15
  const DEC_MAXLEN: nat := 248
  const MAX_NWORKERS: nat := 31

  type byte = x: int | 0 <= x < 256

  /** A value as a `uint32_t` holds it. */
  function U32(x: nat): (r: nat)
    ensures r < U32_MOD
  {
    x % 0x1_0000_0000
  }

  function Power256(n: nat): (p: nat)
    ensures p > 0
  {
    if n == 0 then 1 else 256 * Power256(n - 1)
  }

  datatype Option<+T> = None | Some(value: T)

  datatype Status = S_NONE | S_SUCCESS | S_FAILURE | S_CRASH | S_PARTIAL | S_UNKNOWN

  /** One instruction candidate: `raw` is the fixed buffer, of which `len` bytes count. */
  datatype InputSlot = InputSlot(len: byte, raw: seq<byte>)

  /** The slot's length byte stays within its buffer, as it does in every slot a mutator fills. */
  predicate SlotInBounds(s: InputSlot) {
    |s.raw| == INSN_MAXLEN && s.len <= INSN_MAXLEN
  }

  /** The bytes of the buffer that count. */
  function CountedBytes(s: InputSlot): seq<byte> {
    s.raw[..Min(s.len, |s.raw|)]
  }

  /** One decoder's answer; the `len` field of the source's struct is `|result|`. */
  datatype OutputSlot = OutputSlot(status: Status, ndecoded: nat, result: seq<byte>)

  /** What the fuzzer hands to `process` for one input: the input and every worker's answer. */
  datatype Record = Record(input: InputSlot, outputs: seq<OutputSlot>)

  function Min(a: int, b: int): int {
    if a < b then a else b
  }

  function Max(a: int, b: int): int {
    if a < b then b else a
  }

  predicate Distinct<T(==)>(s: seq<T>) {
    forall i, j :: 0 <= i < j < |s| ==> s[i] != s[j]
  }

  lemma SubsetCard<T>(a: set<T>, b: set<T>)
    requires a <= b
    ensures |a| <= |b|
  {
    assert b == a + (b - a);
  }

  /** `kept` are the elements of `all` at the places `at`, in order. */
  predicate Picks<T(==)>(all: seq<T>, kept: seq<T>, at: seq<nat>) {
    && |at| == |kept|
    && (forall i :: 0 <= i < |at| ==> at[i] < |all| && kept[i] == all[at[i]])
    && (forall i, j :: 0 <= i < j < |at| ==> at[i] < at[j])
  }

  lemma PicksSnoc<T>(all: seq<T>, kept: seq<T>, at: seq<nat>, x: T)
    requires Picks(all, kept, at)
    ensures Picks(all + [x], kept, at) && Picks(all + [x], kept + [x], at + [|all|])
    ensures |all| !in at && |all| in at + [|all|] && forall j: nat :: j < |all| ==> (j in at + [|all|] <==> j in at)
  {
  }
}
