/** Small shared vocabulary: optional values, failures, bytes. */
module Common {

  datatype Option<+T> = None | Some(value: T)

  datatype Result<+T, +E> = Ok(value: T) | Err(error: E)

  type byte = x: int | 0 <= x < 256

  const NEWLINE: byte := 10

  /** How many messages a Cursor chat may refer to. */
  const MAX_MESSAGE_REFERENCES: nat := 4_096

  function Min(a: int, b: int): int {
    if a <= b then a else b
  }

  function Max(a: int, b: int): int {
    if a >= b then a else b
  }

  /** All parts, one after the other. */
  function Join<T>(parts: seq<seq<T>>): seq<T> {
    if parts == [] then [] else parts[0] + Join(parts[1..])
  }

  lemma {:induction false} JoinAppend<T>(a: seq<seq<T>>, b: seq<seq<T>>)
    ensures Join(a + b) == Join(a) + Join(b)
  {
    if a == [] {
      assert a + b == b;
    } else {
      assert (a + b)[1..] == a[1..] + b;
      JoinAppend(a[1..], b);
    }
  }

  /** `count * each`, as a sum; the verifier follows it more easily than a product. */
  function Times(count: nat, each: nat): nat {
    if count == 0 then 0 else each + Times(count - 1, each)
  }

  lemma {:induction false} TimesIsProduct(count: nat, each: nat)
    ensures Times(count, each) == count * each
  {
    if count > 0 {
      TimesIsProduct(count - 1, each);
    }
  }

  lemma {:induction false} TimesGrows(count: nat, more: nat, each: nat)
    requires count <= more
    ensures Times(count, each) <= Times(more, each)
  {
    if count > 0 {
      TimesGrows(count - 1, more - 1, each);
    }
  }
}
