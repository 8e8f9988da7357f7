/** Bytes, 32-bit words and flattening, shared by the byte path and the text codecs. */
module Bytes {

  /** One octet. The source's `char` is signed; its sign is made explicit where a comparison depends on it. */
  type Byte = b: int | 0 <= b < 256

  /** The source's std::string. */
  type Text = seq<Byte>

  datatype Option<T> = None | Some(value: T)

  /** The number of values of the source's uint32_t. */
  const U32: int := 0x1_0000_0000

  function Flatten<T>(parts: seq<seq<T>>): seq<T> {
    if parts == [] then [] else parts[0] + Flatten(parts[1..])
  }

  lemma {:induction false} FlattenAppend<T>(left: seq<seq<T>>, right: seq<seq<T>>)
    ensures Flatten(left + right) == Flatten(left) + Flatten(right)
  {
    if left == [] {
      assert left + right == right;
    } else {
      FlattenAppend(left[1..], right);
      assert (left + right)[0] == left[0] && (left + right)[1..] == left[1..] + right;
      ConcatAssociates(left[0], Flatten(left[1..]), Flatten(right));
    }
  }

  lemma FlattenSnoc<T>(parts: seq<seq<T>>, last: seq<T>)
    ensures Flatten(parts + [last]) == Flatten(parts) + last
  {
    FlattenAppend(parts, [last]);
    assert Flatten([last]) == last + Flatten<T>([]);
  }

  lemma SliceOfSlice(a: array<Byte>, head: nat, tail: nat, from: nat, size: nat)
    requires head <= tail <= a.Length && from + size <= tail - head
    ensures a[head..tail][from..from + size] == a[head + from..head + from + size]
  {
    var whole, part := a[head..tail], a[head + from..head + from + size];
    assert forall i :: 0 <= i < size ==> part[i] == whole[from + i];
  }

  lemma ConcatAssociates<T>(a: seq<T>, b: seq<T>, c: seq<T>)
    ensures a + b + c == a + (b + c)
  {
  }
}
