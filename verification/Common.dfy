/** Result types and fixed-width integer ranges shared by the models. */
module Common {
  datatype Option<+T> = None | Some(value: T)

  /** A raised error or an `Err` return is `Err`; the message text is not modelled. */
  datatype Result<+T> = Ok(value: T) | Err

  const U32_SIZE: int := 0x1_0000_0000
  const U64_SIZE: int := 0x1_0000_0000_0000_0000

  type u32 = x: int | 0 <= x < U32_SIZE
  type u64 = x: int | 0 <= x < U64_SIZE

  /** The `as i64` cast of an unsigned 64-bit value: two's complement reinterpretation. */
  function AsI64(x: u64): int {
    if x < U64_SIZE / 2 then x else x - U64_SIZE
  }

  /** The cast keeps the value modulo 2^64 and lands in the signed range. */
  lemma AsI64Meaning(x: u64)
    ensures -(U64_SIZE / 2) <= AsI64(x) < U64_SIZE / 2 && (AsI64(x) == x || AsI64(x) == x - U64_SIZE)
  {
  }

  lemma ConcatAssociates<T>(a: seq<T>, b: seq<T>, c: seq<T>)
    ensures a + (b + c) == a + b + c
  {
  }

  /** A sequence that contains the head of another one, if that has it, is not empty. */
  lemma HeadCovered<T>(r: seq<T>, q: seq<T>)
    requires r != [] && (r[0] in r ==> r[0] in q)
    ensures q != []
  {
    var k := r[0];
    assert k in r;
    assert k in q;
  }

  lemma CancelPrefix<T>(p: seq<T>, a: seq<T>, b: seq<T>)
    ensures p + a == p + b <==> a == b
  {
    if p + a == p + b {
      assert a == (p + a)[|p|..];
      assert b == (p + b)[|p|..];
    }
  }

  function Flatten<T>(parts: seq<seq<T>>): seq<T> {
    if parts == [] then [] else parts[0] + Flatten(parts[1..])
  }

  lemma {:induction false} FlattenAppend<T>(parts: seq<seq<T>>, last: seq<T>)
    ensures Flatten(parts + [last]) == Flatten(parts) + last
  {
    if parts == [] {
      assert parts + [last] == [last];
      assert [last][1..] == [];
    } else {
      assert (parts + [last])[1..] == parts[1..] + [last];
      FlattenAppend(parts[1..], last);
      ConcatAssociates(parts[0], Flatten(parts[1..]), last);
    }
  }
}
