/**
 The part splitter of scripts/pack_evidence.py and the concatenating reader of
 scripts/fetch_evidence.py. Files are byte sequences; the compressed stream arrives in
 arbitrary nonempty chunks.
 */
module EvidenceArchive {

  type Bytes = seq<bv8>

  function Flatten(parts: seq<Bytes>): Bytes {
    if parts == [] then [] else Flatten(parts[..|parts| - 1]) + parts[|parts| - 1]
  }

  lemma {:induction false} Associate(a: Bytes, b: Bytes, c: Bytes)
    ensures (a + b) + c == a + (b + c)
  {
  }

  lemma {:induction false} FlattenConcat(a: seq<Bytes>, b: seq<Bytes>)
    ensures Flatten(a + b) == Flatten(a) + Flatten(b)
  {
    if b == [] {
      assert a + b == a;
    } else {
      var n := |b| - 1;
      assert (a + b)[..|a + b| - 1] == a + b[..n];
      assert (a + b)[|a + b| - 1] == b[n];
      FlattenConcat(a, b[..n]);
      Associate(Flatten(a), Flatten(b[..n]), b[n]);
    }
  }

  lemma {:induction false} FlattenHead(parts: seq<Bytes>)
    requires parts != []
    ensures Flatten(parts) == parts[0] + Flatten(parts[1..])
  {
    assert parts == [parts[0]] + parts[1..];
    FlattenConcat([parts[0]], parts[1..]);
    assert [parts[0]][..0] == [];
  }

  // ----- splitting ---------------------------------------------------------

  /** All parts but the last are full, and no part is empty. */
  ghost predicate WellSplit(parts: seq<Bytes>, partBytes: nat) {
    && (forall k :: 0 <= k < |parts| ==> 0 < |parts[k]| <= partBytes)
    && (forall k :: 0 <= k < |parts| - 1 ==> |parts[k]| == partBytes)
  }

  /** The bytes that arrive before the first empty read. */
  function Received(chunks: seq<Bytes>): Bytes {
    if chunks == [] || chunks[0] == [] then [] else chunks[0] + Received(chunks[1..])
  }

  ghost predicate AllFull(parts: seq<Bytes>, partBytes: nat) {
    forall k :: 0 <= k < |parts| ==> |parts[k]| == partBytes
  }

  /** The inner loop: cut one chunk over the open part. */
  method SplitChunk(parts0: seq<Bytes>, open0: Bytes, data: Bytes, partBytes: nat)
    returns (parts: seq<Bytes>, open: Bytes)
    requires partBytes >= 1 && AllFull(parts0, partBytes) && |open0| < partBytes
    ensures AllFull(parts, partBytes) && |open| < partBytes
    ensures Flatten(parts) + open == Flatten(parts0) + open0 + data
  {
    parts, open := parts0, open0;
    var view := data;
    while view != []
      invariant AllFull(parts, partBytes) && |open| < partBytes
      invariant Flatten(parts) + open + view == Flatten(parts0) + open0 + data
      decreases |view|
    {
      var take := if |view| < partBytes - |open| then |view| else partBytes - |open|;
      ghost var before := Flatten(parts) + open + view;
      open := open + view[..take];
      assert view == view[..take] + view[take..];
      view := view[take..];
      assert Flatten(parts) + open + view == before;
      if |open| == partBytes {
        assert (parts + [open])[..|parts|] == parts;
        parts, open := parts + [open], [];
        assert Flatten(parts) + open + view == before;
      }
    }
    assert Flatten(parts) + open + view == Flatten(parts) + open;
  }

  lemma {:induction false} ReceivedStep(chunks: seq<Bytes>, i: nat)
    requires i < |chunks| && chunks[i] != []
    ensures Received(chunks[i..]) == chunks[i] + Received(chunks[i + 1..])
  {
    assert chunks[i..][0] == chunks[i] && chunks[i..][1..] == chunks[i + 1..];
  }

  /** Closing the open part, full or not, unless nothing was written to it. */
  method CloseLast(parts0: seq<Bytes>, open: Bytes, partBytes: nat) returns (parts: seq<Bytes>)
    requires AllFull(parts0, partBytes) && partBytes >= 1 && |open| < partBytes
    ensures WellSplit(parts, partBytes) && Flatten(parts) == Flatten(parts0) + open
  {
    if open != [] {
      assert (parts0 + [open])[..|parts0|] == parts0;
      parts := parts0 + [open];
    } else {
      parts := parts0;
    }
  }

  /** The splitter. */
  method Pack(chunks: seq<Bytes>, partBytes: nat) returns (parts: seq<Bytes>)
    requires partBytes >= 1
    ensures WellSplit(parts, partBytes)
    ensures Flatten(parts) == Received(chunks)
  {
    var open: Bytes := [];
    parts := [];
    ghost var packed: Bytes := [];
    var i := 0;
    assert chunks[0..] == chunks;
    while i < |chunks| && chunks[i] != []
      invariant i <= |chunks| && AllFull(parts, partBytes) && |open| < partBytes
      invariant packed == Flatten(parts) + open
      invariant packed + Received(chunks[i..]) == Received(chunks)
    {
      ReceivedStep(chunks, i);
      Associate(packed, chunks[i], Received(chunks[i + 1..]));
      parts, open := SplitChunk(parts, open, chunks[i], partBytes);
      packed := packed + chunks[i];
      i := i + 1;
    }
    assert Received(chunks[i..]) == [];
    assert packed + [] == packed;
    parts := CloseLast(parts, open, partBytes);
  }

  /** The parts depend on the bytes alone, not on how they were chunked. */
  lemma {:induction false} SplitUnique(a: seq<Bytes>, b: seq<Bytes>, partBytes: nat)
    requires partBytes >= 1 && WellSplit(a, partBytes) && WellSplit(b, partBytes)
    requires Flatten(a) == Flatten(b)
    ensures a == b
    decreases |a|
  {
    if a == [] {
      if b != [] { FlattenHead(b); }
    } else if b == [] {
      FlattenHead(a);
    } else {
      FlattenHead(a);
      FlattenHead(b);
      HeadsAgree(a, b, partBytes);
      SplitUnique(a[1..], b[1..], partBytes);
      assert a == [a[0]] + a[1..] && b == [b[0]] + b[1..];
    }
  }

  lemma {:induction false} HeadsAgree(a: seq<Bytes>, b: seq<Bytes>, partBytes: nat)
    requires a != [] && b != [] && WellSplit(a, partBytes) && WellSplit(b, partBytes)
    requires a[0] + Flatten(a[1..]) == b[0] + Flatten(b[1..])
    ensures a[0] == b[0] && Flatten(a[1..]) == Flatten(b[1..])
  {
    var x, y, s, t := a[0], b[0], Flatten(a[1..]), Flatten(b[1..]);
    assert |a| == 1 ==> a[1..] == [];
    assert |b| == 1 ==> b[1..] == [];
    assert |x| == |y|;
    assert x == (x + s)[..|x|] && y == (y + t)[..|y|];
    assert s == (x + s)[|x|..] && t == (y + t)[|y|..];
  }

  // ----- reading back ------------------------------------------------------

  const CHUNK: nat := 8 * 1024 * 1024

  datatype Handle = Closed | Open(rest: Bytes)

  function Min(a: nat, b: nat): nat { if a < b then a else b }

  /** `PartStream`: the unopened paths, given by their contents, and the open file's rest. */
  class PartStream {
    var paths: seq<Bytes>
    var handle: Handle

    ghost function Unread(): Bytes
      reads this
    {
      (if handle.Open? then handle.rest else []) + Flatten(paths)
    }

    constructor (parts: seq<Bytes>)
      ensures Unread() == Flatten(parts)
    {
      paths, handle := parts, Closed;
      new;
      assert [] + Flatten(paths) == Flatten(paths);
    }

    /** One file read: up to `n` bytes, empty only at the end of the file. */
    method ReadHandle(n: nat) returns (block: Bytes)
      requires handle.Open? && n > 0
      modifies this`handle
      ensures handle.Open? && block == old(handle.rest)[..Min(n, |old(handle.rest)|)]
      ensures block + handle.rest == old(handle.rest)
    {
      var k := Min(n, |handle.rest|);
      block := handle.rest[..k];
      handle := Open(handle.rest[k..]);
    }

    /** Opens the next path. */
    method OpenNext()
      requires handle.Closed? && paths != []
      modifies this
      ensures handle.Open? && |paths| == |old(paths)| - 1 && Unread() == old(Unread())
    {
      FlattenHead(paths);
      handle := Open(paths[0]);
      paths := paths[1..];
    }

    /** Reads from the open file, which is closed when it has no more bytes. */
    method NextBlock(n: nat) returns (block: Bytes)
      requires handle.Open? && n > 0
      modifies this`handle
      ensures block + Unread() == old(Unread()) && |block| <= n
      ensures block == [] ==> handle.Closed?
    {
      ghost var rest, tail := handle.rest, Flatten(paths);
      block := ReadHandle(n);
      assert block + (handle.rest + tail) == (block + handle.rest) + tail;
      if block == [] {
        assert rest == [];
        handle := Closed;
      }
    }

    /**
     Reads exactly `size` bytes, or everything when `size` is negative; short only when the
     whole concatenation is exhausted.
     */
    method Read(size: int) returns (out: Bytes)
      modifies this
      ensures out + Unread() == old(Unread())
      ensures size < 0 ==> Unread() == []
      ensures size >= 0 ==> |out| == Min(size, |old(Unread())|)
    {
      out := [];
      ghost var all := Unread();
      assert out + Unread() == all;
      while size < 0 || |out| < size
        invariant out + Unread() == all
        invariant size >= 0 ==> |out| <= size
        decreases |Unread()|, |paths|, if handle.Open? then 1 else 0
      {
        if handle.Closed? {
          if paths == [] { break; }
          OpenNext();
        }
        ghost var unread := Unread();
        var block := NextBlock(if size < 0 then CHUNK else size - |out|);
        assert out + unread == (out + block) + Unread();
        assert |unread| == |block| + |Unread()|;
        out := out + block;
      }
      assert |out + Unread()| == |out| + |Unread()|;
    }
  }

  // ----- series of reads ---------------------------------------------------

  /** What `Read` returns on a stream with these unread bytes. */
  function Taken(unread: Bytes, size: int): Bytes {
    if size < 0 then unread else unread[..Min(size, |unread|)]
  }

  /** The specification of `Read` determines its result. */
  lemma {:induction false} ReadIsTaken(unread: Bytes, size: int, out: Bytes, rest: Bytes)
    requires out + rest == unread
    requires size < 0 ==> rest == []
    requires size >= 0 ==> |out| == Min(size, |unread|)
    ensures out == Taken(unread, size) && rest == unread[|out|..]
  {
    assert out == (out + rest)[..|out|] && rest == (out + rest)[|out|..];
  }

  /** The results of a series of reads. */
  function ReadAll(unread: Bytes, sizes: seq<int>): (outs: seq<Bytes>)
    ensures |outs| == |sizes|
  {
    if sizes == [] then [] else
      var out := Taken(unread, sizes[0]);
      [out] + ReadAll(unread[|out|..], sizes[1..])
  }

  /** Any series of reads returns consecutive pieces of the stream, short only at its end. */
  lemma {:induction false} ReadsAreConsecutive(unread: Bytes, sizes: seq<int>, k: nat)
    requires k < |sizes|
    ensures Flatten(ReadAll(unread, sizes)) <= unread
    ensures sizes[k] < 0 || |ReadAll(unread, sizes)[k]| < sizes[k] ==> Flatten(ReadAll(unread, sizes)) == unread
    decreases |sizes|
  {
    var out := Taken(unread, sizes[0]);
    var rest := unread[|out|..];
    var outs := ReadAll(rest, sizes[1..]);
    FlattenHead(ReadAll(unread, sizes));
    assert ReadAll(unread, sizes)[1..] == outs;
    assert unread == out + rest;
    if sizes[1..] == [] {
      assert Flatten(outs) == [];
    } else {
      ReadsAreConsecutive(rest, sizes[1..], if k > 0 then k - 1 else 0);
    }
    if k == 0 && (sizes[0] < 0 || |out| < sizes[0]) {
      assert rest == [];
    }
  }

  /** The bytes asked for by the first `n` reads of a series. */
  ghost function Asked(sizes: seq<int>, n: nat): nat
    requires n <= |sizes|
  {
    if n == 0 then 0 else Asked(sizes, n - 1) + (if sizes[n - 1] < 0 then 0 else sizes[n - 1])
  }

  /** One of the first `n` reads asks for everything. */
  ghost predicate AsksAll(sizes: seq<int>, n: nat)
    requires n <= |sizes|
  {
    exists i :: 0 <= i < n && sizes[i] < 0
  }

  /** After `n` reads `taken` of `total` bytes are read. */
  ghost predicate ReadSoFar(sizes: seq<int>, n: nat, total: nat, taken: nat, short: bool)
    requires n <= |sizes|
  {
    && taken == (if AsksAll(sizes, n) then total else Min(Asked(sizes, n), total))
    && (short <==> AsksAll(sizes, n) || Asked(sizes, n) > total)
  }

  lemma {:induction false} OneMoreRead(sizes: seq<int>, i: nat, total: nat, taken: nat, short: bool, out: nat)
    requires i < |sizes| && ReadSoFar(sizes, i, total, taken, short) && taken <= total
    requires out == (if sizes[i] < 0 then total - taken else Min(sizes[i], total - taken))
    ensures ReadSoFar(sizes, i + 1, total, taken + out, short || sizes[i] < 0 || out < sizes[i])
  {
    assert AsksAll(sizes, i + 1) <==> AsksAll(sizes, i) || sizes[i] < 0;
  }

  /**
   Packing and reading back with any series of reads: as many bytes as asked for, from the start
   of the stream, and a short read exactly when the series asks for everything or too much.
   */
  method PackThenRead(chunks: seq<Bytes>, partBytes: nat, sizes: seq<int>) returns (bytes: Bytes, short: bool)
    requires partBytes >= 1
    ensures bytes <= Received(chunks)
    ensures AsksAll(sizes, |sizes|) ==> bytes == Received(chunks)
    ensures !AsksAll(sizes, |sizes|) ==> |bytes| == Min(Asked(sizes, |sizes|), |Received(chunks)|)
    ensures short <==> AsksAll(sizes, |sizes|) || Asked(sizes, |sizes|) > |Received(chunks)|
  {
    var parts := Pack(chunks, partBytes);
    var stream := new PartStream(parts);
    ghost var all := Received(chunks);
    bytes, short := [], false;
    assert [] + stream.Unread() == stream.Unread();
    for i := 0 to |sizes|
      invariant bytes + stream.Unread() == all
      invariant ReadSoFar(sizes, i, |all|, |bytes|, short)
    {
      ghost var unread := stream.Unread();
      var out := stream.Read(sizes[i]);
      assert bytes + unread == (bytes + out) + stream.Unread();
      OneMoreRead(sizes, i, |all|, |bytes|, short, |out|);
      bytes := bytes + out;
      if sizes[i] < 0 || |out| < sizes[i] { short := true; }
    }
  }
}
