/** The proof-node encoder: every Merkle proof node is turned into exactly
    32 bytes, right-aligned over a zero-filled buffer, before it becomes an
    argument of the claim instruction. */
module ProofEncoding {
  import opened Wrappers

  newtype byte = x: int | 0 <= x < 256

  /** Width of one encoded proof node. */
  const NodeSize: nat := 32

  /** The error `invariant` raises when a node does not fit; its message
      carries the offending length. */
  datatype EncodeError = InvalidLength(length: nat)

  predicate AllZero(s: seq<byte>) {
    forall i :: 0 <= i < |s| ==> s[i] == 0
  }

  /** `Buffer.from(numbers)`: each entry is stored as an unsigned 8-bit value,
      i.e. reduced modulo 256. */
  function BufferFrom(ns: seq<int>): (b: seq<byte>)
    ensures |b| == |ns|
    ensures forall i :: 0 <= i < |ns| ==> b[i] as int == ns[i] % 256
    ensures forall i :: 0 <= i < |ns| && 0 <= ns[i] < 256 ==> b[i] as int == ns[i]
  {
    if ns == [] then [] else [(ns[0] % 256) as byte] + BufferFrom(ns[1..])
  }

  /** `Buffer.alloc(n)`: a buffer of n zero bytes. */
  function Alloc(n: nat): (buf: seq<byte>)
    ensures |buf| == n && AllZero(buf)
  {
    seq(n, _ => 0)
  }

  function Min(a: int, b: int): (m: int) {
    if a <= b then a else b
  }

  /** `src.copy(dst, offset)`: overwrite `dst` from `offset` on with as many
      bytes of `src` as fit; the target keeps its length and every byte
      outside the copied window. */
  function CopyInto(src: seq<byte>, dst: seq<byte>, offset: nat): (r: seq<byte>)
    requires offset <= |dst|
    ensures |r| == |dst|
    ensures forall i :: 0 <= i < offset ==> r[i] == dst[i]
    ensures forall i :: offset <= i < |dst| && i - offset < |src| ==> r[i] == src[i - offset]
    ensures forall i :: offset + |src| <= i < |dst| ==> r[i] == dst[i]
  {
    var n := Min(|src|, |dst| - offset);
    dst[..offset] + src[..n] + dst[offset + n..]
  }

  /** `toBytes32Array`: reject a node longer than 32 bytes, otherwise copy it
      to the end of a fresh zero buffer of 32 bytes. */
  function ToBytes32Array(b: seq<byte>): (r: Result<seq<byte>, EncodeError>)
    ensures r.Success? <==> |b| <= NodeSize
    ensures r.Failure? ==> r.error == InvalidLength(|b|)
    ensures r.Success? ==> |r.value| == NodeSize
    ensures r.Success? ==> AllZero(r.value[..NodeSize - |b|])
    ensures r.Success? ==> r.value[NodeSize - |b|..] == b
  {
    if |b| > NodeSize then
      Failure(InvalidLength(|b|))
    else
      var buf := CopyInto(b, Alloc(NodeSize), NodeSize - |b|);
      assert buf[NodeSize - |b|..] == b;
      Success(buf)
  }

  /** Recover a node of known length from its 32-byte encoding. */
  function Unpad(w: seq<byte>, n: nat): (node: seq<byte>)
    requires n <= |w|
  {
    w[|w| - n..]
  }

  /** Unsigned big-endian value of a byte string. */
  function BigEndian(s: seq<byte>): (v: nat) {
    if s == [] then 0 else BigEndian(s[..|s| - 1]) * 256 + s[|s| - 1] as nat
  }

  lemma UnpadRoundTrip(b: seq<byte>)
    requires |b| <= NodeSize
    ensures Unpad(ToBytes32Array(b).value, |b|) == b
  {
  }

  lemma EmptyNodeIsZeroWord()
    ensures ToBytes32Array([]) == Success(Alloc(NodeSize))
  {
    var w := ToBytes32Array([]).value;
    forall i | 0 <= i < NodeSize
      ensures w[i] == Alloc(NodeSize)[i]
    {
      assert w[i] == w[..NodeSize][i];
    }
    assert w == Alloc(NodeSize);
  }

  /** Two nodes of the same length encode alike only if they are equal. */
  lemma EncodingInjectiveAtFixedLength(a: seq<byte>, b: seq<byte>)
    requires |a| == |b| <= NodeSize
    requires ToBytes32Array(a) == ToBytes32Array(b)
    ensures a == b
  {
    UnpadRoundTrip(a);
    UnpadRoundTrip(b);
  }

  /** Leading zero bytes do not change the big-endian value. */
  lemma {:induction false} BigEndianZeroPrefix(z: seq<byte>, b: seq<byte>)
    requires AllZero(z)
    ensures BigEndian(z + b) == BigEndian(b)
    decreases |b|
  {
    if b == [] {
      assert z + b == z;
      BigEndianAllZero(z);
    } else {
      var b' := b[..|b| - 1];
      assert (z + b)[..|z + b| - 1] == z + b';
      BigEndianZeroPrefix(z, b');
    }
  }

  lemma {:induction false} BigEndianAllZero(z: seq<byte>)
    requires AllZero(z)
    ensures BigEndian(z) == 0
    decreases |z|
  {
    if z != [] {
      BigEndianAllZero(z[..|z| - 1]);
    }
  }

  /** The encoding is the node behind 32 - n zero bytes. */
  lemma EncodingIsZerosThenNode(b: seq<byte>)
    requires |b| <= NodeSize
    ensures ToBytes32Array(b).value == Alloc(NodeSize - |b|) + b
  {
    var w := ToBytes32Array(b).value;
    var k := NodeSize - |b|;
    var z := Alloc(k);
    forall i | 0 <= i < NodeSize
      ensures w[i] == (z + b)[i]
    {
      if i < k {
        assert w[i] == w[..k][i];
      } else {
        assert w[i] == w[k..][i - k];
      }
    }
  }

  /** The encoding is the 256-bit big-endian word with the node's value. */
  lemma EncodingPreservesValue(b: seq<byte>)
    requires |b| <= NodeSize
    ensures BigEndian(ToBytes32Array(b).value) == BigEndian(b)
  {
    EncodingIsZerosThenNode(b);
    BigEndianZeroPrefix(Alloc(NodeSize - |b|), b);
  }

  /** The encoding forgets leading zeros: a node and the same node with a
      zero byte in front encode to the same word. */
  lemma LeadingZeroIsInvisible(b: seq<byte>)
    requires |b| < NodeSize
    ensures ToBytes32Array([0] + b) == ToBytes32Array(b)
  {
    var k := NodeSize - |b|;
    var u := ToBytes32Array([0] + b);
    var v := ToBytes32Array(b);
    EncodingIsZerosThenNode([0] + b);
    EncodingIsZerosThenNode(b);
    AllocGrows(k - 1);
    assert u.value == Alloc(k - 1) + ([0] + b) == (Alloc(k - 1) + [0]) + b;
  }

  lemma AllocGrows(n: nat)
    ensures Alloc(n) + [0] == Alloc(n + 1)
  {
    var z := Alloc(n) + [0];
    assert forall i :: 0 <= i < n + 1 ==> z[i] == 0;
  }

  /** `toBytes32Array(Buffer.from(p))`: encode one proof node given as the
      numbers of its JSON array. */
  function EncodeNode(node: seq<int>): (r: Result<seq<byte>, EncodeError>)
    ensures r.Success? <==> |node| <= NodeSize
    ensures r.Failure? ==> r.error == InvalidLength(|node|)
    ensures r.Success? ==> |r.value| == NodeSize
    // the node's bytes can be read back from the end of the word
    ensures r.Success? ==> Unpad(r.value, |node|) == BufferFrom(node)
  {
    ToBytes32Array(BufferFrom(node))
  }

  /** `claimInfo.proof.map(p => toBytes32Array(Buffer.from(p)))`: nodes are
      encoded in order and the first node that is too long throws. */
  function EncodeProof(proof: seq<seq<int>>): (r: Result<seq<seq<byte>>, EncodeError>)
    ensures r.Success? <==> forall i :: 0 <= i < |proof| ==> |proof[i]| <= NodeSize
    ensures r.Success? ==> |r.value| == |proof|
    ensures r.Success? ==> forall i :: 0 <= i < |proof| ==>
      |r.value[i]| == NodeSize && r.value[i] == EncodeNode(proof[i]).value
    ensures r.Failure? ==>
      exists i :: 0 <= i < |proof| && |proof[i]| > NodeSize &&
        r.error == InvalidLength(|proof[i]|) &&
        forall k :: 0 <= k < i ==> |proof[k]| <= NodeSize
  {
    if proof == [] then Success([])
    else
      var head := EncodeNode(proof[0]);
      var tail := EncodeProof(proof[1..]);
      assert forall i :: 0 <= i < |proof| - 1 ==> proof[1..][i] == proof[i + 1];
      if head.Failure? then Failure(head.error)
      else if tail.Failure? then Failure(tail.error)
      else Success([head.value] + tail.value)
  }
}
