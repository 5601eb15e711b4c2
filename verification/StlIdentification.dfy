/** Recognition of STL files (stl_reader.cpp). `char` is signed and `int` has 32 bits in two's complement. */
module StlIdentification {
  import opened BinaryStl
  import opened Rotations

  // ----- std::string::find -----

  predicate Matches(s: seq<Byte>, pattern: seq<Byte>, i: nat) {
    i + |pattern| <= |s| && s[i..i + |pattern|] == pattern
  }

  /** Position of the first occurrence of the pattern at or after `from`. */
  function Find(s: seq<Byte>, pattern: seq<Byte>, from: nat): (r: Option<nat>)
    ensures r.Some? ==> from <= r.value && Matches(s, pattern, r.value)
    ensures r.Some? ==> forall i :: from <= i < r.value ==> !Matches(s, pattern, i)
    ensures r.None? ==> forall i :: from <= i ==> !Matches(s, pattern, i)
    decreases |s| - from
  {
    if |s| < from + |pattern| then None
    else if Matches(s, pattern, from) then Some(from)
    else Find(s, pattern, from + 1)
  }

  const SOLID: seq<Byte> := [115, 111, 108, 105, 100]
  const ENDSOLID: seq<Byte> := [101, 110, 100, 115, 111, 108, 105, 100]

  // ----- The size of a binary file -----

  function SignedByte(b: Byte): int {
    if b < 128 then b else b - 256
  }

  /** Reduction to 32 bits of a number less than 2^32 away from their range. */
  function Wrapped(n: int): int
    requires -0x1_0000_0000 <= n < 0x1_0000_0000
  {
    if n < -0x8000_0000 then n + TWO32 else if n >= 0x8000_0000 then n - TWO32 else n
  }

  function GetNbOfTriangles(bytes: seq<Byte>): int {
    if |bytes| < 84 then 0
    else
      var n3 := SignedByte(bytes[83]);
      var n2 := Wrapped(n3 * 256 + SignedByte(bytes[82]));
      var n1 := Wrapped(n2 * 256 + SignedByte(bytes[81]));
      Wrapped(n1 * 256 + SignedByte(bytes[80]))
  }

  /** Conversion to an unsigned number of 64 bits. */
  function AsSize(n: int): nat
    requires -0x8000_0000 <= n < 0x8000_0000
  {
    if n < 0 then n + TWO64 else n
  }

  predicate IsBinaryStlFileSize(input: seq<Byte>) {
    NbFitsInt(input);
    |input| == (84 + 50 * AsSize(GetNbOfTriangles(input))) % TWO64
  }

  lemma NbFitsInt(bytes: seq<Byte>)
    ensures -0x8000_0000 <= GetNbOfTriangles(bytes) < 0x8000_0000
  {
  }

  // ----- identify_stl -----

  datatype StlType = Ascii | Binary

  /** None where the source throws. */
  function IdentifyStl(input: seq<Byte>): Option<StlType> {
    var solid := Find(input, SOLID, 0);
    if solid.Some? then
      var endsolid := Find(input, ENDSOLID, solid.value);
      if endsolid.Some? then
        if endsolid.value < 80 && IsBinaryStlFileSize(input) then Some(Binary) else Some(Ascii)
      else if IsBinaryStlFileSize(input) then Some(Binary)
      else None
    else if IsBinaryStlFileSize(input) then Some(Binary)
    else None
  }

  /** The characters of the word stand in the file from position i on. */
  predicate Spells(s: seq<Byte>, i: nat, word: string) {
    i + |word| <= |s| && forall k :: 0 <= k < |word| ==> s[i + k] as int == word[k] as int
  }

  /** "solid" stands in the file and, there or further on but before `limit`, "endsolid" begins. */
  predicate HasKeywords(s: seq<Byte>, limit: nat) {
    exists i, j :: 0 <= i <= j < limit && j < |s| && Spells(s, i, "solid") && Spells(s, j, "endsolid")
  }

  lemma KeywordsSpelled(s: seq<Byte>, i: nat)
    ensures Spells(s, i, "solid") <==> Matches(s, SOLID, i)
    ensures Spells(s, i, "endsolid") <==> Matches(s, ENDSOLID, i)
  {
    WordMatches(s, i, "solid", SOLID);
    WordMatches(s, i, "endsolid", ENDSOLID);
  }

  lemma WordMatches(s: seq<Byte>, i: nat, word: string, pattern: seq<Byte>)
    requires |word| == |pattern| && forall k :: 0 <= k < |word| ==> pattern[k] as int == word[k] as int
    ensures Spells(s, i, word) <==> Matches(s, pattern, i)
  {
    if Matches(s, pattern, i) {
      forall k | 0 <= k < |word| ensures s[i + k] as int == word[k] as int {
        assert s[i + k] == s[i..i + |pattern|][k];
      }
    }
  }

  lemma KeywordsFound(s: seq<Byte>, limit: nat)
    ensures var solid := Find(s, SOLID, 0);
            HasKeywords(s, limit) <==>
            solid.Some? && Find(s, ENDSOLID, solid.value).Some? && Find(s, ENDSOLID, solid.value).value < limit
  {
    var solid := Find(s, SOLID, 0);
    if HasKeywords(s, limit) {
      var i, j :| 0 <= i <= j < limit && Spells(s, i, "solid") && Spells(s, j, "endsolid");
      KeywordsSpelled(s, i);
      KeywordsSpelled(s, j);
    }
    if solid.Some? && Find(s, ENDSOLID, solid.value).Some? && Find(s, ENDSOLID, solid.value).value < limit {
      KeywordsSpelled(s, solid.value);
      KeywordsSpelled(s, Find(s, ENDSOLID, solid.value).value);
    }
  }

  /** ASCII when both keywords are there, unless the size is that of a binary file and they are in its header;
      else binary when the size is right. */
  lemma IdentifiedAsIff(s: seq<Byte>)
    ensures IdentifyStl(s) == Some(Ascii) <==>
            HasKeywords(s, |s|) && !(HasKeywords(s, 80) && IsBinaryStlFileSize(s))
    ensures IdentifyStl(s) == Some(Binary) <==>
            IsBinaryStlFileSize(s) && (HasKeywords(s, 80) || !HasKeywords(s, |s|))
  {
    KeywordsFound(s, |s|);
    KeywordsFound(s, 80);
  }

  /** read_stl on binary files: None where the source throws, reads an ASCII file or runs out of bytes. */
  function ReadBinaryFile(input: seq<Byte>, decode: Word -> real): Option<seq<seq<Vec>>> {
    if IdentifyStl(input) == Some(Binary) then Read(input, decode) else None
  }

  // ----- The count, signed and unsigned -----

  predicate SmallBytes(w: Word) {
    w.b0 < 128 && w.b1 < 128 && w.b2 < 128 && w.b3 < 128
  }

  /** What reading a byte as signed takes away from the next one. */
  function Borrow(b: Byte): nat {
    if b < 128 then 0 else 256
  }

  /** The signed count never exceeds the unsigned one, and equals it exactly when no byte is negative. */
  lemma SignedCount(bytes: seq<Byte>)
    requires |bytes| >= 84
    ensures GetNbOfTriangles(bytes) <= FacesDeclared(bytes)
    ensures GetNbOfTriangles(bytes) == FacesDeclared(bytes) <==> SmallBytes(CountWord(bytes))
  {
    var w := CountWord(bytes);
    assert SignedByte(w.b0) == w.b0 - Borrow(w.b0) && SignedByte(w.b1) == w.b1 - Borrow(w.b1);
    assert SignedByte(w.b2) == w.b2 - Borrow(w.b2) && SignedByte(w.b3) == w.b3 - Borrow(w.b3);
  }

  lemma Remainder(x: int, q: int, r: nat)
    requires x == q * TWO64 + r && r < TWO64
    ensures x % TWO64 == r
  {
  }

  /** The accepted size: negative counts ask for files larger than memory, or of 34 bytes. */
  lemma AcceptedSize(bytes: seq<Byte>)
    requires |bytes| < 0x8000_0000_0000_0000
    ensures IsBinaryStlFileSize(bytes)
       <==> |bytes| >= 84 && 0 <= GetNbOfTriangles(bytes) && |bytes| == 84 + 50 * GetNbOfTriangles(bytes)
  {
    NbFitsInt(bytes);
    var n := GetNbOfTriangles(bytes);
    var expected := 84 + 50 * AsSize(n);
    if n >= 0 {
      Remainder(expected, 0, 84 + 50 * n);
    } else if n == -1 {
      Remainder(expected, 50, 34);
    } else {
      Remainder(expected, 49, TWO64 + 84 + 50 * n);
    }
  }

  /** A file accepted as binary holds all the facets it declares exactly when no byte of the count is
      negative; the reader then gets (size - 84) / 50 facets. */
  lemma AcceptedIsCompleteIff(bytes: seq<Byte>, decode: Word -> real)
    requires |bytes| < 0x8000_0000_0000_0000
    requires IdentifyStl(bytes) == Some(Binary)
    ensures Read(bytes, decode).Some? <==> SmallBytes(CountWord(bytes))
    ensures Read(bytes, decode).Some? ==> |bytes| == 84 + 50 * |Read(bytes, decode).value|
  {
    AcceptedSize(bytes);
    SignedCount(bytes);
  }

  lemma KeywordByte(s: seq<Byte>, i: nat)
    ensures Matches(s, SOLID, i) ==> 115 in s
  {
    if Matches(s, SOLID, i) {
      assert s[i] == s[i..i + 5][0];
    }
  }

  lemma NoKeyword(s: seq<Byte>)
    requires 115 !in s
    ensures Find(s, SOLID, 0).None?
  {
    var r := Find(s, SOLID, 0);
    KeywordByte(s, if r.Some? then r.value else 0);
  }

  /** Such files exist: this one has 200 facets, declares 456, and is accepted. */
  lemma AcceptedButIncomplete(bytes: seq<Byte>, decode: Word -> real)
    requires bytes == Ones(80) + [200, 1, 0, 0] + Ones(10000)
    ensures IdentifyStl(bytes) == Some(Binary)
    ensures FacesDeclared(bytes) == 456 && Read(bytes, decode).None?
  {
    NoKeyword(bytes);
    AcceptedSize(bytes);
  }

  // ----- Written files -----

  /** "endsolid" at or after some "solid". */
  ghost predicate LooksAscii(s: seq<Byte>) {
    exists i, j :: 0 <= i <= j && Matches(s, SOLID, i) && Matches(s, ENDSOLID, j)
  }

  lemma FindsKeywords(s: seq<Byte>)
    ensures LooksAscii(s) <==>
      var solid := Find(s, SOLID, 0);
      solid.Some? && Find(s, ENDSOLID, solid.value).Some?
  {
    var solid := Find(s, SOLID, 0);
    if LooksAscii(s) {
      var i, j :| 0 <= i <= j && Matches(s, SOLID, i) && Matches(s, ENDSOLID, j);
      assert solid.Some? && solid.value <= i;
    }
  }

  lemma NotInHeader(s: seq<Byte>, i: nat)
    requires |s| >= 80 && forall k :: 0 <= k < 80 ==> s[k] == 1
    ensures Matches(s, ENDSOLID, i) ==> i >= 80
  {
    if Matches(s, ENDSOLID, i) {
      assert s[i] == s[i..i + 8][0] == 101;
    }
  }

  /** How a written mesh is recognised, in all cases. */
  lemma WrittenIsIdentifiedAs(stl: seq<seq<Vec>>, normal: (Vec, Vec, Vec) -> Vec, encode: real -> Word)
    requires Writable(stl)
    ensures var s := Written(stl, normal, encode);
            IdentifyStl(s) == if LooksAscii(s) then Some(Ascii)
                              else if SmallBytes(WordOf(FacesWritten(stl))) then Some(Binary) else None
  {
    var s := Written(stl, normal, encode);
    FindsKeywords(s);
    WrittenCount(stl, normal, encode);
    AcceptedSize(s);
    SignedCount(s);
    var solid := Find(s, SOLID, 0);
    if LooksAscii(s) {
      NotInHeader(s, Find(s, ENDSOLID, solid.value).value);
    }
  }

  /** Through recognition and reading, a mesh survives being written exactly when its bytes do not look
      like an ASCII file, no byte of the count is negative, and it is exactly representable. */
  lemma FileRoundTripIff(stl: seq<seq<Vec>>, normal: (Vec, Vec, Vec) -> Vec, encode: real -> Word, decode: Word -> real)
    requires Writable(stl)
    ensures var s := Written(stl, normal, encode);
            ReadBinaryFile(s, decode) == Some(stl)
            <==> !LooksAscii(s) && SmallBytes(WordOf(FacesWritten(stl))) && |stl| < TWO32 && AllExact(stl, encode, decode)
  {
    WrittenIsIdentifiedAs(stl, normal, encode);
    RoundTripIffExact(stl, normal, encode, decode);
  }

  /** The letter "s" is in no float. */
  ghost predicate NeverWritesS(encode: real -> Word) {
    forall x :: 115 !in Bytes(encode(x))
  }

  lemma VertexWithoutS(v: Vec, encode: real -> Word)
    requires NeverWritesS(encode)
    ensures 115 !in VertexBytes(v, encode)
  {
    assert 115 !in Bytes(encode(v.x)) && 115 !in Bytes(encode(v.y)) && 115 !in Bytes(encode(v.z));
  }

  lemma {:induction false} VerticesWithoutS(vertices: seq<Vec>, n: nat, encode: real -> Word)
    requires NeverWritesS(encode) && n <= |vertices|
    ensures 115 !in VerticesBytes(vertices, n, encode)
  {
    if n > 0 {
      VerticesWithoutS(vertices, n - 1, encode);
      VertexWithoutS(vertices[n - 1], encode);
    }
  }

  lemma {:induction false} FacetsWithoutS(stl: seq<seq<Vec>>, n: nat, normal: (Vec, Vec, Vec) -> Vec, encode: real -> Word)
    requires Writable(stl) && n <= FacesWritten(stl) && NeverWritesS(encode)
    ensures 115 !in FacetsBytes(stl, n, normal, encode)
  {
    if n > 0 {
      FacetsWithoutS(stl, n - 1, normal, encode);
      assert HasTriangle(stl[n - 1]);
      var facet := stl[n - 1];
      VertexWithoutS(normal(facet[0], facet[1], facet[2]), encode);
      VerticesWithoutS(facet, 3, encode);
    }
  }

  lemma WrittenWithoutS(stl: seq<seq<Vec>>, normal: (Vec, Vec, Vec) -> Vec, encode: real -> Word)
    requires Writable(stl) && NeverWritesS(encode) && 115 !in Bytes(WordOf(FacesWritten(stl)))
    ensures !LooksAscii(Written(stl, normal, encode))
  {
    FacetsWithoutS(stl, FacesWritten(stl), normal, encode);
    NoKeyword(Written(stl, normal, encode));
    FindsKeywords(Written(stl, normal, encode));
  }

  /** A mesh of 128 triangles, written with floats that are all zero, is refused. */
  lemma RefusedMesh(stl: seq<seq<Vec>>, normal: (Vec, Vec, Vec) -> Vec, encode: real -> Word)
    requires |stl| == 128 && (forall i :: 0 <= i < 128 ==> stl[i] == [ZERO, ZERO, ZERO])
    requires encode == (x => Word(0, 0, 0, 0))
    ensures Writable(stl) && IdentifyStl(Written(stl, normal, encode)) == None
  {
    assert WordOf(128) == Word(128, 0, 0, 0);
    assert NeverWritesS(encode);
    WrittenWithoutS(stl, normal, encode);
    WrittenIsIdentifiedAs(stl, normal, encode);
  }
}
