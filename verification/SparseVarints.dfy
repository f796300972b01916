/**
 The index encoding of examples/sparse_composition.rs: differences of an increasing index list
 as 7-bit groups, low group first, with the high bit marking continuation (unsigned LEB128,
 section 7.6 of DWARF version 5).
 */
module SparseVarints {
  import opened Wrappers

  type Byte = b: nat | b < 256
  const U32: nat := 0x1_0000_0000

  ghost predicate Ascending(indices: seq<nat>) {
    && (forall k :: 0 <= k < |indices| ==> indices[k] < U32)
    && (forall j, k :: 0 <= j < k < |indices| ==> indices[j] <= indices[k])
  }

  // ----- one number --------------------------------------------------------

  function Leb(n: nat): (bytes: seq<Byte>)
    ensures bytes != []
  {
    if n >= 128 then [n % 128 + 128] + Leb(n / 128) else [n]
  }

  /** An independent reader: the number and the count of bytes it takes. */
  function ReadLeb(bytes: seq<Byte>): (r: Option<(nat, nat)>)
    ensures r.Some? ==> 0 < r.value.1 <= |bytes|
  {
    if bytes == [] then None
    else if bytes[0] < 128 then Some((bytes[0], 1))
    else
      match ReadLeb(bytes[1..])
      case None => None
      case Some((high, used)) => Some((bytes[0] - 128 + 128 * high, used + 1))
  }

  lemma {:induction false} LebRoundTrip(n: nat, tail: seq<Byte>)
    ensures ReadLeb(Leb(n) + tail) == Some((n, |Leb(n)|))
  {
    if n >= 128 {
      LebRoundTrip(n / 128, tail);
      assert (Leb(n) + tail)[1..] == Leb(n / 128) + tail;
    }
  }

  lemma {:induction false} LebSize(n: nat, k: nat, bound: nat)
    requires k >= 1 && n < bound && bound == Pow128(k)
    ensures |Leb(n)| <= k
  {
    if n >= 128 {
      assert bound == 128 * Pow128(k - 1) && Pow128(0) == 1;
      LebSize(n / 128, k - 1, Pow128(k - 1));
    }
  }

  ghost function Pow128(k: nat): nat {
    if k == 0 then 1 else 128 * Pow128(k - 1)
  }

  lemma {:induction false} LebFitsFive(n: nat)
    requires n < U32
    ensures |Leb(n)| <= 5
  {
    assert Pow128(1) == 128 * Pow128(0);
    assert Pow128(2) == 128 * Pow128(1);
    assert Pow128(3) == 128 * Pow128(2);
    assert Pow128(5) == 128 * (128 * Pow128(3)) by { assert Pow128(4) == 128 * Pow128(3); }
    LebSize(n, 5, Pow128(5));
  }

  // ----- index lists -------------------------------------------------------

  /** The list starts no earlier than `previous`. */
  ghost predicate StartsAt(indices: seq<nat>, previous: nat) {
    indices == [] || previous <= indices[0]
  }

  /** The differences of a list, the first of them from `previous`. */
  function Encode(indices: seq<nat>, previous: nat): seq<Byte>
    requires Ascending(indices) && StartsAt(indices, previous)
  {
    if indices == [] then [] else Leb(indices[0] - previous) + Encode(indices[1..], indices[0])
  }

  /** The list that continues from `previous` with these bytes. */
  function Decode(bytes: seq<Byte>, previous: nat): Option<seq<nat>>
    decreases |bytes|
  {
    if bytes == [] then Some([])
    else
      match ReadLeb(bytes)
      case None => None
      case Some((delta, used)) => Prepend([previous + delta], Decode(bytes[used..], previous + delta))
  }

  function Prepend(head: seq<nat>, rest: Option<seq<nat>>): Option<seq<nat>> {
    if rest.None? then None else Some(head + rest.value)
  }

  lemma {:induction false} DecodeStep(delta: nat, tail: seq<Byte>, previous: nat)
    ensures Decode(Leb(delta) + tail, previous) == Prepend([previous + delta], Decode(tail, previous + delta))
  {
    LebRoundTrip(delta, tail);
    assert (Leb(delta) + tail)[|Leb(delta)|..] == tail;
  }

  lemma {:induction false} DecodeCons(x: nat, rest: seq<nat>, tail: seq<Byte>, previous: nat)
    requires previous <= x && Decode(tail, x) == Some(rest)
    ensures Decode(Leb(x - previous) + tail, previous) == Some([x] + rest)
  {
    DecodeStep(x - previous, tail, previous);
    assert previous + (x - previous) == x;
  }

  /** Decoding undoes encoding, so the encoding is uniquely decodable. */
  lemma {:induction false} EncodeRoundTrip(indices: seq<nat>, previous: nat)
    requires Ascending(indices) && StartsAt(indices, previous)
    ensures Decode(Encode(indices, previous), previous) == Some(indices)
  {
    if indices != [] {
      var x, rest := indices[0], indices[1..];
      assert indices == [x] + rest;
      var tail := Encode(rest, x);
      assert Encode(indices, previous) == Leb(x - previous) + tail;
      assert Decode(tail, x) == Some(rest) by { EncodeRoundTrip(rest, x); }
      assert Decode(Leb(x - previous) + tail, previous) == Some([x] + rest) by { DecodeCons(x, rest, tail, previous); }
    }
  }

  lemma {:induction false} EncodeSize(indices: seq<nat>, previous: nat)
    requires Ascending(indices) && StartsAt(indices, previous)
    ensures |Encode(indices, previous)| <= 5 * |indices|
  {
    if indices != [] {
      LebFitsFive(indices[0] - previous);
      EncodeSize(indices[1..], indices[0]);
    }
  }

  /** Appends one number, seven bits at a time. */
  method PushLeb(bytes0: seq<Byte>, n: nat) returns (bytes: seq<Byte>)
    ensures bytes == bytes0 + Leb(n)
  {
    bytes := bytes0;
    var delta := n;
    while delta >= 128
      invariant bytes + Leb(delta) == bytes0 + Leb(n)
    {
      assert bytes + Leb(delta) == bytes + [delta % 128 + 128] + Leb(delta / 128);
      bytes := bytes + [delta % 128 + 128];
      delta := delta / 128;
    }
    bytes := bytes + [delta];
  }

  lemma {:induction false} EncodeNext(indices: seq<nat>, k: nat, previous: nat, bytes: seq<Byte>)
    requires Ascending(indices) && k < |indices| && previous <= indices[k]
    ensures Ascending(indices[k..]) && Ascending(indices[k + 1..]) && StartsAt(indices[k + 1..], indices[k])
    ensures bytes + Encode(indices[k..], previous)
            == bytes + Leb(indices[k] - previous) + Encode(indices[k + 1..], indices[k])
  {
    assert indices[k..][1..] == indices[k + 1..];
  }

  /** The loop over the indices writes their differences. */
  method PushDifferences(indices: seq<nat>) returns (bytes: seq<Byte>)
    requires Ascending(indices)
    ensures bytes == Encode(indices, 0)
  {
    bytes := [];
    var previous := 0;
    assert indices[0..] == indices;
    for k := 0 to |indices|
      invariant Ascending(indices[k..]) && StartsAt(indices[k..], previous)
      invariant bytes + Encode(indices[k..], previous) == Encode(indices, 0)
    {
      EncodeNext(indices, k, previous, bytes);
      bytes := PushLeb(bytes, indices[k] - previous);
      previous := indices[k];
    }
    assert Encode(indices[|indices|..], previous) == [];
    assert bytes + [] == bytes;
  }

  /** The encoding takes at most five bytes per index, and the list comes back from the bytes. */
  method Varints(indices: seq<nat>) returns (bytes: seq<Byte>)
    requires Ascending(indices)
    ensures Decode(bytes, 0) == Some(indices) && |bytes| <= 5 * |indices|
  {
    bytes := PushDifferences(indices);
    EncodeRoundTrip(indices, 0);
    EncodeSize(indices, 0);
  }
}
