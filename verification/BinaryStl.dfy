/** Binary STL files: the writer (stl_writer.cpp), the reader and the recognition of the format
    (stl_reader.cpp). The float codec of the platform is a parameter: `encode` rounds a coordinate to four
    bytes, `decode` gives the value of four bytes. Integers are little-endian, and `char` is signed. */
module BinaryStl {
  import opened Rotations

  datatype Option<T> = None | Some(value: T)

  type Byte = b: nat | b < 256

  const TWO32: nat := 0x1_0000_0000
  const TWO64: nat := 0x1_0000_0000_0000_0000

  // ----- Four-byte words -----

  datatype Word = Word(b0: Byte, b1: Byte, b2: Byte, b3: Byte)

  function Bytes(w: Word): (s: seq<Byte>)
    ensures |s| == 4
  {
    [w.b0, w.b1, w.b2, w.b3]
  }

  /** The unsigned number held by a word. */
  function Number(w: Word): (n: nat)
    ensures n < TWO32
  {
    w.b0 + 0x100 * w.b1 + 0x1_0000 * w.b2 + 0x100_0000 * w.b3
  }

  function WordOf(n: nat): Word
    requires n < TWO32
  {
    var h1 := n / 256;
    var h2 := h1 / 256;
    var h3 := h2 / 256;
    Word(n % 256, h1 % 256, h2 % 256, h3 % 256)
  }

  lemma WordHoldsNumber(n: nat)
    requires n < TWO32
    ensures Number(WordOf(n)) == n
  {
    var h1 := n / 256;
    var h2 := h1 / 256;
    var h3 := h2 / 256;
    assert n == 256 * h1 + n % 256;
    assert h1 == 256 * h2 + h1 % 256;
    assert h2 == 256 * h3 + h2 % 256;
    assert h3 < 256;
  }

  function WordAt(s: seq<Byte>, p: nat): Word
    requires p + 4 <= |s|
  {
    Word(s[p], s[p + 1], s[p + 2], s[p + 3])
  }

  // ----- Writing -----

  function VertexBytes(v: Vec, encode: real -> Word): (s: seq<Byte>)
    ensures |s| == 12
  {
    Bytes(encode(v.x)) + Bytes(encode(v.y)) + Bytes(encode(v.z))
  }

  function VerticesBytes(vertices: seq<Vec>, n: nat, encode: real -> Word): (s: seq<Byte>)
    requires n <= |vertices|
    ensures |s| == 12 * n
  {
    if n == 0 then [] else VerticesBytes(vertices, n - 1, encode) + VertexBytes(vertices[n - 1], encode)
  }

  function FacetBytes(facet: seq<Vec>, normal: (Vec, Vec, Vec) -> Vec, encode: real -> Word): (s: seq<Byte>)
    requires |facet| >= 3
    ensures |s| == 50
  {
    VertexBytes(normal(facet[0], facet[1], facet[2]), encode) + VerticesBytes(facet, 3, encode) + [0, 0]
  }

  predicate HasTriangle(facet: seq<Vec>) {
    |facet| >= 3
  }

  /** The number of facets is reduced to 32 bits; only that many are written. */
  function FacesWritten(stl: seq<seq<Vec>>): nat {
    |stl| % TWO32
  }

  predicate Writable(stl: seq<seq<Vec>>) {
    forall i :: 0 <= i < FacesWritten(stl) ==> HasTriangle(stl[i])
  }

  function FacetsBytes(stl: seq<seq<Vec>>, n: nat, normal: (Vec, Vec, Vec) -> Vec, encode: real -> Word): (s: seq<Byte>)
    requires Writable(stl) && n <= FacesWritten(stl)
    ensures |s| == 50 * n
  {
    if n == 0 then [] else
      assert HasTriangle(stl[n - 1]);
      FacetsBytes(stl, n - 1, normal, encode) + FacetBytes(stl[n - 1], normal, encode)
  }

  function Ones(n: nat): (s: seq<Byte>)
    ensures |s| == n && forall i :: 0 <= i < n ==> s[i] == 1
  {
    seq(n, i => 1)
  }

  /** Header, count and the first n facets. */
  function FileUpTo(stl: seq<seq<Vec>>, n: nat, normal: (Vec, Vec, Vec) -> Vec, encode: real -> Word): (s: seq<Byte>)
    requires Writable(stl) && n <= FacesWritten(stl)
    ensures |s| == 84 + 50 * n
  {
    Ones(80) + Bytes(WordOf(FacesWritten(stl))) + FacetsBytes(stl, n, normal, encode)
  }

  function Written(stl: seq<seq<Vec>>, normal: (Vec, Vec, Vec) -> Vec, encode: real -> Word): (s: seq<Byte>)
    requires Writable(stl)
    ensures |s| == 84 + 50 * FacesWritten(stl)
  {
    FileUpTo(stl, FacesWritten(stl), normal, encode)
  }

  /** Normal, vertices and spacer of one facet, after what the stream already holds. */
  method WriteFacet(facet: seq<Vec>, normal: (Vec, Vec, Vec) -> Vec, encode: real -> Word, stream: seq<Byte>)
    returns (os: seq<Byte>)
    requires |facet| >= 3
    ensures os == stream + FacetBytes(facet, normal, encode)
  {
    var m := facet[..3];
    var n := normal(m[0], m[1], m[2]);
    os := stream + Bytes(encode(n.x)) + Bytes(encode(n.y)) + Bytes(encode(n.z));
    ghost var start := os;
    assert start == stream + VertexBytes(n, encode);
    for j := 0 to 3
      invariant os == start + VerticesBytes(facet, j, encode)
    {
      os := os + Bytes(encode(m[j].x)) + Bytes(encode(m[j].y)) + Bytes(encode(m[j].z));
    }
    os := os + [0, 0];
  }

  method WriteHeader(nFaces: nat) returns (os: seq<Byte>)
    requires nFaces < TWO32
    ensures os == Ones(80) + Bytes(WordOf(nFaces))
  {
    os := [];
    for i := 0 to 80
      invariant os == Ones(i)
    {
      os := os + [1];
    }
    os := os + Bytes(WordOf(nFaces));
  }

  method WriteBinaryStl(stl: seq<seq<Vec>>, normal: (Vec, Vec, Vec) -> Vec, encode: real -> Word)
    returns (os: seq<Byte>)
    requires Writable(stl)
    ensures os == Written(stl, normal, encode)
  {
    var nFaces := |stl| % TWO32;
    os := WriteHeader(nFaces);
    NoFacet(stl, normal, encode);
    for i := 0 to nFaces
      invariant os == FileUpTo(stl, i, normal, encode)
    {
      NextFacet(stl, i, normal, encode);
      os := WriteFacet(stl[i], normal, encode, os);
    }
  }

  lemma NoFacet(stl: seq<seq<Vec>>, normal: (Vec, Vec, Vec) -> Vec, encode: real -> Word)
    requires Writable(stl)
    ensures FileUpTo(stl, 0, normal, encode) == Ones(80) + Bytes(WordOf(FacesWritten(stl)))
  {
  }

  lemma NextFacet(stl: seq<seq<Vec>>, i: nat, normal: (Vec, Vec, Vec) -> Vec, encode: real -> Word)
    requires Writable(stl) && i < FacesWritten(stl)
    ensures |stl[i]| >= 3
    ensures FileUpTo(stl, i + 1, normal, encode)
         == FileUpTo(stl, i, normal, encode) + FacetBytes(stl[i], normal, encode)
  {
    assert HasTriangle(stl[i]);
  }

  // ----- Reading -----

  /** The first four bytes after the header; missing bytes are zero. */
  function CountWord(bytes: seq<Byte>): Word {
    Word(if 80 < |bytes| then bytes[80] else 0, if 81 < |bytes| then bytes[81] else 0,
         if 82 < |bytes| then bytes[82] else 0, if 83 < |bytes| then bytes[83] else 0)
  }

  function FacesDeclared(bytes: seq<Byte>): nat {
    Number(CountWord(bytes))
  }

  /** The stream does not end before the last coordinate. */
  predicate HasFacets(bytes: seq<Byte>, n: nat) {
    n > 0 ==> |bytes| >= 82 + 50 * n
  }

  function VertexAt(bytes: seq<Byte>, p: nat, decode: Word -> real): Vec
    requires p + 12 <= |bytes|
  {
    Vec(decode(WordAt(bytes, p)), decode(WordAt(bytes, p + 4)), decode(WordAt(bytes, p + 8)))
  }

  function FacetAt(bytes: seq<Byte>, p: nat, decode: Word -> real): seq<Vec>
    requires p + 48 <= |bytes|
  {
    [VertexAt(bytes, p + 12, decode), VertexAt(bytes, p + 24, decode), VertexAt(bytes, p + 36, decode)]
  }

  /** The first n facets after the header and the count. */
  function FacetsRead(bytes: seq<Byte>, n: nat, decode: Word -> real): (facets: seq<seq<Vec>>)
    requires HasFacets(bytes, n)
    ensures |facets| == n
  {
    if n == 0 then [] else FacetsRead(bytes, n - 1, decode) + [FacetAt(bytes, 34 + 50 * n, decode)]
  }

  /** None when the stream ends too early: the coordinates are then indeterminate. */
  function Read(bytes: seq<Byte>, decode: Word -> real): Option<seq<seq<Vec>>> {
    var n := FacesDeclared(bytes);
    if HasFacets(bytes, n) then Some(FacetsRead(bytes, n, decode)) else None
  }

  /** The nine coordinates of a facet, as the source reads them one byte at a time. */
  method ReadCoordinates(bytes: seq<Byte>, start: nat, decode: Word -> real) returns (v: seq<real>, pos: nat)
    requires start + 36 <= |bytes|
    ensures |v| == 9 && pos == start + 36
    ensures forall j :: 0 <= j < 9 ==> v[j] == decode(WordAt(bytes, start + 4 * j))
  {
    v := [];
    pos := start;
    for j := 0 to 9
      invariant |v| == j && pos == start + 4 * j
      invariant forall k :: 0 <= k < j ==> v[k] == decode(WordAt(bytes, start + 4 * k))
    {
      var float := [];
      for k := 0 to 4
        invariant |float| == k && pos == start + 4 * j + k
        invariant forall l :: 0 <= l < k ==> float[l] == bytes[start + 4 * j + l]
      {
        float := float + [bytes[pos]];
        pos := pos + 1;
      }
      v := v + [decode(Word(float[0], float[1], float[2], float[3]))];
    }
  }

  method ReadFacet(bytes: seq<Byte>, start: nat, decode: Word -> real) returns (t: seq<Vec>, pos: nat)
    requires start + 48 <= |bytes|
    ensures t == FacetAt(bytes, start, decode) && pos == start + 50
  {
    var v;
    v, pos := ReadCoordinates(bytes, start + 12, decode);
    pos := pos + 2;
    t := [Vec(v[0], v[1], v[2]), Vec(v[3], v[4], v[5]), Vec(v[6], v[7], v[8])];
  }

  method ReadBinaryStl(bytes: seq<Byte>, decode: Word -> real) returns (r: Option<seq<seq<Vec>>>)
    ensures r == Read(bytes, decode)
  {
    var nFaces := FacesDeclared(bytes);
    var ret := [];
    var pos := 84;
    for i := 0 to nFaces
      invariant pos == 84 + 50 * i
      invariant HasFacets(bytes, i) && ret == FacetsRead(bytes, i, decode)
    {
      if |bytes| < pos + 48 {
        return None;
      }
      ReadNext(bytes, i, pos, decode);
      var t;
      t, pos := ReadFacet(bytes, pos, decode);
      ret := ret + [t];
    }
    r := Some(ret);
  }

  lemma ReadNext(bytes: seq<Byte>, i: nat, pos: nat, decode: Word -> real)
    requires HasFacets(bytes, i) && pos == 84 + 50 * i && pos + 48 <= |bytes|
    ensures HasFacets(bytes, i + 1)
    ensures FacetsRead(bytes, i + 1, decode) == FacetsRead(bytes, i, decode) + [FacetAt(bytes, pos, decode)]
  {
  }

  // ----- Round trip -----

  function Rounded(v: Vec, encode: real -> Word, decode: Word -> real): Vec {
    Vec(decode(encode(v.x)), decode(encode(v.y)), decode(encode(v.z)))
  }

  /** What is read of a facet with at least three vertices. */
  function RoundedTriangle(facet: seq<Vec>, encode: real -> Word, decode: Word -> real): seq<Vec>
    requires |facet| >= 3
  {
    [Rounded(facet[0], encode, decode), Rounded(facet[1], encode, decode), Rounded(facet[2], encode, decode)]
  }

  lemma WordWithin(s: seq<Byte>, p: nat, w: Word)
    requires p + 4 <= |s| && s[p..p + 4] == Bytes(w)
    ensures WordAt(s, p) == w
  {
    assert s[p] == s[p..p + 4][0] && s[p + 1] == s[p..p + 4][1];
    assert s[p + 2] == s[p..p + 4][2] && s[p + 3] == s[p..p + 4][3];
  }

  /** A slice of a slice. */
  lemma SliceWithin(s: seq<Byte>, p: nat, whole: seq<Byte>, a: nat, part: seq<Byte>)
    requires p + |whole| <= |s| && s[p..p + |whole|] == whole
    requires a + |part| <= |whole| && whole[a..a + |part|] == part
    ensures s[p + a..p + a + |part|] == part
  {
    forall k | 0 <= k < |part| ensures s[p + a + k] == part[k] {
      assert s[p + (a + k)] == s[p..p + |whole|][a + k];
      assert whole[a + k] == whole[a..a + |part|][k];
    }
  }

  lemma VertexWithin(s: seq<Byte>, p: nat, v: Vec, encode: real -> Word, decode: Word -> real)
    requires p + 12 <= |s| && s[p..p + 12] == VertexBytes(v, encode)
    ensures VertexAt(s, p, decode) == Rounded(v, encode, decode)
  {
    var bytes := VertexBytes(v, encode);
    SliceWithin(s, p, bytes, 0, Bytes(encode(v.x)));
    SliceWithin(s, p, bytes, 4, Bytes(encode(v.y)));
    SliceWithin(s, p, bytes, 8, Bytes(encode(v.z)));
    WordWithin(s, p, encode(v.x));
    WordWithin(s, p + 4, encode(v.y));
    WordWithin(s, p + 8, encode(v.z));
  }

  /** Slices of a sum as long as its second term. */
  lemma SliceOfSum(a: seq<Byte>, b: seq<Byte>, p: nat)
    ensures p + |b| <= |a| ==> (a + b)[p..p + |b|] == a[p..p + |b|]
    ensures p == |a| ==> (a + b)[p..p + |b|] == b
  {
  }

  lemma {:induction false} VertexAmong(vertices: seq<Vec>, n: nat, j: nat, a: nat, encode: real -> Word)
    requires j < n <= |vertices| && a == 12 * j
    ensures VerticesBytes(vertices, n, encode)[a..a + 12] == VertexBytes(vertices[j], encode)
  {
    if j < n - 1 {
      VertexAmong(vertices, n - 1, j, a, encode);
    }
    SliceOfSum(VerticesBytes(vertices, n - 1, encode), VertexBytes(vertices[n - 1], encode), a);
  }

  lemma VertexOfFacet(facet: seq<Vec>, j: nat, a: nat, normal: (Vec, Vec, Vec) -> Vec, encode: real -> Word)
    requires |facet| >= 3 && j < 3 && a == 12 + 12 * j
    ensures FacetBytes(facet, normal, encode)[a..a + 12] == VertexBytes(facet[j], encode)
  {
    var n := VertexBytes(normal(facet[0], facet[1], facet[2]), encode);
    var v := VerticesBytes(facet, 3, encode);
    VertexAmong(facet, 3, j, a - 12, encode);
    assert (n + v + [0, 0])[12..48] == v;
    SliceWithin(n + v + [0, 0], 12, v, a - 12, VertexBytes(facet[j], encode));
  }

  lemma FacetWithin(s: seq<Byte>, p: nat, facet: seq<Vec>, normal: (Vec, Vec, Vec) -> Vec,
                    encode: real -> Word, decode: Word -> real)
    requires |facet| >= 3 && p + 50 <= |s| && s[p..p + 50] == FacetBytes(facet, normal, encode)
    ensures FacetAt(s, p, decode) == RoundedTriangle(facet, encode, decode)
  {
    var bytes := FacetBytes(facet, normal, encode);
    VertexOfFacet(facet, 0, 12, normal, encode);
    SliceWithin(s, p, bytes, 12, VertexBytes(facet[0], encode));
    VertexWithin(s, p + 12, facet[0], encode, decode);
    VertexOfFacet(facet, 1, 24, normal, encode);
    SliceWithin(s, p, bytes, 24, VertexBytes(facet[1], encode));
    VertexWithin(s, p + 24, facet[1], encode, decode);
    VertexOfFacet(facet, 2, 36, normal, encode);
    SliceWithin(s, p, bytes, 36, VertexBytes(facet[2], encode));
    VertexWithin(s, p + 36, facet[2], encode, decode);
  }

  lemma {:induction false} FacetOfFile(stl: seq<seq<Vec>>, n: nat, i: nat, p: nat,
                                       normal: (Vec, Vec, Vec) -> Vec, encode: real -> Word)
    requires Writable(stl) && i < n <= FacesWritten(stl) && p == 50 * i
    ensures |stl[i]| >= 3
    ensures FacetsBytes(stl, n, normal, encode)[p..p + 50] == FacetBytes(stl[i], normal, encode)
  {
    assert HasTriangle(stl[i]) && HasTriangle(stl[n - 1]);
    if i < n - 1 {
      FacetOfFile(stl, n - 1, i, p, normal, encode);
    }
    SliceOfSum(FacetsBytes(stl, n - 1, normal, encode), FacetBytes(stl[n - 1], normal, encode), p);
  }

  lemma FacetSlice(stl: seq<seq<Vec>>, i: nat, q: nat, p: nat, normal: (Vec, Vec, Vec) -> Vec, encode: real -> Word)
    requires Writable(stl) && i < FacesWritten(stl) && q == 50 * i && p == 84 + q
    ensures |stl[i]| >= 3 && p + 50 <= |Written(stl, normal, encode)|
    ensures Written(stl, normal, encode)[p..p + 50] == FacetBytes(stl[i], normal, encode)
  {
    var n := FacesWritten(stl);
    var s, facets := Written(stl, normal, encode), FacetsBytes(stl, n, normal, encode);
    assert s[84..84 + |facets|] == facets;
    FacetOfFile(stl, n, i, q, normal, encode);
    SliceWithin(s, 84, facets, q, FacetBytes(stl[i], normal, encode));
  }

  lemma WrittenFacet(stl: seq<seq<Vec>>, i: nat, p: nat, normal: (Vec, Vec, Vec) -> Vec, encode: real -> Word,
                     decode: Word -> real)
    requires Writable(stl) && i < FacesWritten(stl) && p == 84 + 50 * i
    ensures |stl[i]| >= 3 && p + 50 <= |Written(stl, normal, encode)|
    ensures FacetAt(Written(stl, normal, encode), p, decode) == RoundedTriangle(stl[i], encode, decode)
  {
    FacetSlice(stl, i, 50 * i, p, normal, encode);
    FacetWithin(Written(stl, normal, encode), p, stl[i], normal, encode, decode);
  }

  lemma WrittenCount(stl: seq<seq<Vec>>, normal: (Vec, Vec, Vec) -> Vec, encode: real -> Word)
    requires Writable(stl)
    ensures CountWord(Written(stl, normal, encode)) == WordOf(FacesWritten(stl))
    ensures FacesDeclared(Written(stl, normal, encode)) == FacesWritten(stl)
  {
    WordHoldsNumber(FacesWritten(stl));
  }

  lemma {:induction false} FacetsReadAt(bytes: seq<Byte>, n: nat, i: nat, p: nat, decode: Word -> real)
    requires HasFacets(bytes, n) && i < n && p == 84 + 50 * i
    ensures p + 48 <= |bytes| && FacetsRead(bytes, n, decode)[i] == FacetAt(bytes, p, decode)
  {
    if i < n - 1 {
      FacetsReadAt(bytes, n - 1, i, p, decode);
    }
  }

  lemma WrittenReadsFacet(stl: seq<seq<Vec>>, i: nat, normal: (Vec, Vec, Vec) -> Vec, encode: real -> Word,
                          decode: Word -> real)
    requires Writable(stl) && i < FacesWritten(stl)
    ensures HasFacets(Written(stl, normal, encode), FacesWritten(stl)) && HasTriangle(stl[i])
    ensures FacetsRead(Written(stl, normal, encode), FacesWritten(stl), decode)[i]
         == RoundedTriangle(stl[i], encode, decode)
  {
    var p := 84 + 50 * i;
    FacetsReadAt(Written(stl, normal, encode), FacesWritten(stl), i, p, decode);
    WrittenFacet(stl, i, p, normal, encode, decode);
  }

  /** Reading what was written gives the first three vertices of every facet that was written, rounded. */
  lemma WrittenReadsRounded(stl: seq<seq<Vec>>, normal: (Vec, Vec, Vec) -> Vec, encode: real -> Word,
                            decode: Word -> real)
    requires Writable(stl)
    ensures var r := Read(Written(stl, normal, encode), decode);
            && r.Some? && |r.value| == FacesWritten(stl)
            && forall i :: 0 <= i < FacesWritten(stl) ==>
                 HasTriangle(stl[i]) && r.value[i] == RoundedTriangle(stl[i], encode, decode)
  {
    WrittenCount(stl, normal, encode);
    forall i | 0 <= i < FacesWritten(stl)
      ensures HasTriangle(stl[i])
      ensures FacetsRead(Written(stl, normal, encode), FacesWritten(stl), decode)[i]
           == RoundedTriangle(stl[i], encode, decode)
    {
      WrittenReadsFacet(stl, i, normal, encode, decode);
    }
  }

  // ----- Which bytes are where -----

  /** The twelve bytes from q on are those of the three coordinates of v, in order. */
  ghost predicate HoldsVertex(s: seq<Byte>, q: nat, v: Vec, encode: real -> Word) {
    var (x, y, z) := (encode(v.x), encode(v.y), encode(v.z));
    && q + 12 <= |s|
    && s[q..q + 12] == [x.b0, x.b1, x.b2, x.b3, y.b0, y.b1, y.b2, y.b3, z.b0, z.b1, z.b2, z.b3]
  }

  /** A written file: 80 bytes of header, the number of facets with its lowest byte first, and for every facet its
      normal, its first three vertices and two zeros. */
  lemma BytesOfFile(stl: seq<seq<Vec>>, normal: (Vec, Vec, Vec) -> Vec, encode: real -> Word, s: seq<Byte>)
    requires Writable(stl) && s == Written(stl, normal, encode)
    ensures |s| == 84 + 50 * FacesWritten(stl) && s[..80] == seq(80, _ => 1)
    ensures var (b0, b1, b2, b3) := (s[80] as int, s[81] as int, s[82] as int, s[83] as int);
            b0 + 0x100 * b1 + 0x1_0000 * b2 + 0x100_0000 * b3 == |stl| % 0x1_0000_0000
  {
    WrittenCount(stl, normal, encode);
    assert s[..80] == Ones(80);
  }

  lemma HoldsWithin(s: seq<Byte>, p: nat, bytes: seq<Byte>, a: nat, v: Vec, encode: real -> Word)
    requires p + |bytes| <= |s| && s[p..p + |bytes|] == bytes && HoldsVertex(bytes, a, v, encode)
    ensures HoldsVertex(s, p + a, v, encode)
  {
    SliceWithin(s, p, bytes, a, bytes[a..a + 12]);
  }

  lemma VertexIsHeld(s: seq<Byte>, q: nat, v: Vec, encode: real -> Word)
    requires q + 12 <= |s| && s[q..q + 12] == VertexBytes(v, encode)
    ensures HoldsVertex(s, q, v, encode)
  {
  }

  lemma FacetHolds(facet: seq<Vec>, normal: (Vec, Vec, Vec) -> Vec, encode: real -> Word, bytes: seq<Byte>)
    requires |facet| >= 3 && bytes == FacetBytes(facet, normal, encode)
    ensures HoldsVertex(bytes, 0, normal(facet[0], facet[1], facet[2]), encode)
    ensures HoldsVertex(bytes, 12, facet[0], encode) && HoldsVertex(bytes, 24, facet[1], encode)
    ensures HoldsVertex(bytes, 36, facet[2], encode) && bytes[48..50] == [0, 0]
  {
    assert bytes[0..12] == VertexBytes(normal(facet[0], facet[1], facet[2]), encode);
    VertexIsHeld(bytes, 0, normal(facet[0], facet[1], facet[2]), encode);
    VertexOfFacet(facet, 0, 12, normal, encode);
    VertexIsHeld(bytes, 12, facet[0], encode);
    VertexOfFacet(facet, 1, 24, normal, encode);
    VertexIsHeld(bytes, 24, facet[1], encode);
    VertexOfFacet(facet, 2, 36, normal, encode);
    VertexIsHeld(bytes, 36, facet[2], encode);
  }

  lemma BytesOfFacet(stl: seq<seq<Vec>>, i: nat, p: nat, normal: (Vec, Vec, Vec) -> Vec, encode: real -> Word,
                     s: seq<Byte>)
    requires Writable(stl) && s == Written(stl, normal, encode) && i < FacesWritten(stl) && p == 84 + 50 * i
    ensures |stl[i]| >= 3 && p + 50 <= |s|
    ensures HoldsVertex(s, p, normal(stl[i][0], stl[i][1], stl[i][2]), encode)
    ensures HoldsVertex(s, p + 12, stl[i][0], encode)
    ensures HoldsVertex(s, p + 24, stl[i][1], encode)
    ensures HoldsVertex(s, p + 36, stl[i][2], encode)
    ensures s[p + 48..p + 50] == [0, 0]
  {
    FacetSlice(stl, i, 50 * i, p, normal, encode);
    var facet := stl[i];
    var bytes := FacetBytes(facet, normal, encode);
    FacetHolds(facet, normal, encode, bytes);
    HoldsWithin(s, p, bytes, 0, normal(facet[0], facet[1], facet[2]), encode);
    HoldsWithin(s, p, bytes, 12, facet[0], encode);
    HoldsWithin(s, p, bytes, 24, facet[1], encode);
    HoldsWithin(s, p, bytes, 36, facet[2], encode);
    SliceWithin(s, p, bytes, 48, [0, 0]);
  }

  /** Vertex j of facet i is read from its own twelve bytes, four for each coordinate. */
  lemma VertexReadFrom(bytes: seq<Byte>, decode: Word -> real, i: nat, j: nat, q: nat)
    requires Read(bytes, decode).Some? && i < |Read(bytes, decode).value| && j < 3 && q == 96 + 50 * i + 12 * j
    ensures q + 12 <= |bytes| && |Read(bytes, decode).value[i]| == 3
    ensures Read(bytes, decode).value[i][j]
         == Vec(decode(Word(bytes[q], bytes[q + 1], bytes[q + 2], bytes[q + 3])),
                decode(Word(bytes[q + 4], bytes[q + 5], bytes[q + 6], bytes[q + 7])),
                decode(Word(bytes[q + 8], bytes[q + 9], bytes[q + 10], bytes[q + 11])))
  {
    FacetsReadAt(bytes, FacesDeclared(bytes), i, 84 + 50 * i, decode);
  }

  predicate Representable(v: Vec, encode: real -> Word, decode: Word -> real) {
    Rounded(v, encode, decode) == v
  }

  predicate ExactTriangle(facet: seq<Vec>, encode: real -> Word, decode: Word -> real) {
    |facet| == 3 && forall j :: 0 <= j < 3 ==> Representable(facet[j], encode, decode)
  }

  predicate AllExact(stl: seq<seq<Vec>>, encode: real -> Word, decode: Word -> real) {
    forall i :: 0 <= i < |stl| ==> ExactTriangle(stl[i], encode, decode)
  }

  lemma ExactIffRounded(facet: seq<Vec>, encode: real -> Word, decode: Word -> real)
    requires |facet| >= 3
    ensures RoundedTriangle(facet, encode, decode) == facet <==> ExactTriangle(facet, encode, decode)
  {
    if RoundedTriangle(facet, encode, decode) == facet {
      assert facet[0] == RoundedTriangle(facet, encode, decode)[0];
      assert facet[1] == RoundedTriangle(facet, encode, decode)[1];
      assert facet[2] == RoundedTriangle(facet, encode, decode)[2];
    }
    if ExactTriangle(facet, encode, decode) {
      assert Representable(facet[0], encode, decode) && Representable(facet[1], encode, decode);
      assert Representable(facet[2], encode, decode);
    }
  }

  lemma SameCount(stl: seq<seq<Vec>>)
    ensures FacesWritten(stl) == |stl| <==> |stl| < TWO32
  {
  }

  /** The round trip is the identity exactly on meshes of less than 2^32 triangles with coordinates that
      the codec represents. */
  lemma RoundTripIffExact(stl: seq<seq<Vec>>, normal: (Vec, Vec, Vec) -> Vec, encode: real -> Word,
                          decode: Word -> real)
    requires Writable(stl)
    ensures Read(Written(stl, normal, encode), decode) == Some(stl)
       <==> |stl| < TWO32 && AllExact(stl, encode, decode)
  {
    WrittenReadsRounded(stl, normal, encode, decode);
    RoundedIsSameIff(stl, Read(Written(stl, normal, encode), decode).value, encode, decode);
  }

  lemma RoundedIsSameIff(stl: seq<seq<Vec>>, r: seq<seq<Vec>>, encode: real -> Word, decode: Word -> real)
    requires |r| == FacesWritten(stl)
    requires forall i :: 0 <= i < |r| ==> HasTriangle(stl[i]) && r[i] == RoundedTriangle(stl[i], encode, decode)
    ensures r == stl <==> |stl| < TWO32 && AllExact(stl, encode, decode)
  {
    SameCount(stl);
    forall i | 0 <= i < |r|
      ensures r[i] == stl[i] <==> ExactTriangle(stl[i], encode, decode)
    {
      ExactIffRounded(stl[i], encode, decode);
    }
  }
}
