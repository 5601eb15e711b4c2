/** Meshes in HDF5 files (stl_io_hdf5.cpp). Polygons are cut into fans of triangles on writing: the file
    holds one three-column data set of points and one of 1-based vertex numbers. */
module FanTriangulation {
  import opened Rotations

  // ----- Three-column data sets -----

  datatype Row<T> = Row(a: T, b: T, c: T)

  /** A data set of three columns, as the sequence of values handed to the library. */
  datatype DataSet<T> = DataSet(rows: nat, data: seq<T>) {
    predicate Fits() {
      |data| == 3 * rows
    }

    function At(i: nat): Row<T>
      requires Fits() && i < rows
    {
      Row(data[3 * i], data[3 * i + 1], data[3 * i + 2])
    }
  }

  function RowMajor<T>(rows: seq<Row<T>>): (data: seq<T>)
    ensures |data| == 3 * |rows|
  {
    if rows == [] then [] else
      var last := rows[|rows| - 1];
      RowMajor(rows[..|rows| - 1]) + [last.a, last.b, last.c]
  }

  lemma RowMajorPush<T>(rows: seq<Row<T>>, row: Row<T>)
    ensures RowMajor(rows + [row]) == RowMajor(rows) + [row.a, row.b, row.c]
  {
    assert (rows + [row])[..|rows|] == rows;
  }

  lemma {:induction false} RowMajorAt<T>(rows: seq<Row<T>>, i: nat)
    requires i < |rows|
    ensures DataSet(|rows|, RowMajor(rows)).At(i) == rows[i]
  {
    if i < |rows| - 1 {
      RowMajorAt(rows[..|rows| - 1], i);
    }
  }

  // ----- Polygons -----

  predicate HasEdge<T>(polygon: seq<T>) {
    |polygon| >= 2
  }

  /** The source subtracts 2 from every size, without sign. */
  predicate AllHaveEdges<T>(mesh: seq<seq<T>>) {
    forall i :: 0 <= i < |mesh| ==> HasEdge(mesh[i])
  }

  /** Triangle k of a polygon joins its first vertex to its edge k + 1. */
  function Fan<T>(polygon: seq<T>, n: nat): (triangles: seq<Row<T>>)
    requires n + 2 <= |polygon|
    ensures |triangles| == n
  {
    if n == 0 then [] else Fan(polygon, n - 1) + [Row(polygon[0], polygon[n], polygon[n + 1])]
  }

  function FanOf<T>(polygon: seq<T>): seq<Row<T>>
    requires HasEdge(polygon)
  {
    Fan(polygon, |polygon| - 2)
  }

  /** The first n parts, one after the other. */
  function Join<T>(parts: seq<seq<T>>, n: nat): seq<T>
    requires n <= |parts|
  {
    if n == 0 then [] else Join(parts, n - 1) + parts[n - 1]
  }

  function Fans<T>(mesh: seq<seq<T>>): seq<seq<Row<T>>>
    requires AllHaveEdges(mesh)
  {
    seq(|mesh|, i requires 0 <= i < |mesh| => assert HasEdge(mesh[i]); FanOf(mesh[i]))
  }

  function TriangleCount<T>(mesh: seq<seq<T>>, n: nat): nat
    requires n <= |mesh| && AllHaveEdges(mesh)
  {
    if n == 0 then 0 else
      assert HasEdge(mesh[n - 1]);
      TriangleCount(mesh, n - 1) + (|mesh[n - 1]| - 2)
  }

  function Consecutive(from: nat, size: nat): seq<nat> {
    seq(size, i requires 0 <= i < size => from + i)
  }

  /** Every polygon of the mesh has vertices of its own, numbered from 1 in reading order. */
  function Numbered<T>(mesh: seq<seq<T>>): seq<seq<nat>> {
    seq(|mesh|, i requires 0 <= i < |mesh| => Consecutive(1 + |Join(mesh, i)|, |mesh[i]|))
  }

  function OneBased(facet: seq<nat>): seq<nat> {
    seq(|facet|, i requires 0 <= i < |facet| => 1 + facet[i])
  }

  function AllOneBased(facets: seq<seq<nat>>): seq<seq<nat>> {
    seq(|facets|, i requires 0 <= i < |facets| => OneBased(facets[i]))
  }

  lemma SameEdges<T, U>(mesh: seq<seq<T>>, other: seq<seq<U>>)
    requires AllHaveEdges(mesh) && |other| == |mesh|
    requires forall i :: 0 <= i < |mesh| ==> |other[i]| == |mesh[i]|
    ensures AllHaveEdges(other)
  {
    forall i | 0 <= i < |other| ensures HasEdge(other[i]) {
      assert HasEdge(mesh[i]);
    }
  }

  /** The faces of a mesh whose polygons share no vertices, polygon by polygon. */
  function OwnFaces<T>(mesh: seq<seq<T>>): seq<seq<Row<nat>>>
    requires AllHaveEdges(mesh)
  {
    SameEdges(mesh, Numbered(mesh));
    Fans(Numbered(mesh))
  }

  /** The faces of a list of facets on shared nodes. */
  function SharedFaces(facets: seq<seq<nat>>): seq<seq<Row<nat>>>
    requires AllHaveEdges(facets)
  {
    SameEdges(facets, AllOneBased(facets));
    Fans(AllOneBased(facets))
  }

  lemma FansAt<T>(mesh: seq<seq<T>>, i: nat, polygon: seq<T>)
    requires i < |mesh| && AllHaveEdges(mesh) && polygon == mesh[i]
    ensures |polygon| >= 2 && |Fans(mesh)| == |mesh|
    ensures Fans(mesh)[i] == FanOf(polygon)
  {
    assert HasEdge(mesh[i]);
  }

  lemma OwnFacesAt<T>(mesh: seq<seq<T>>, i: nat, c: nat)
    requires i < |mesh| && AllHaveEdges(mesh) && c == 1 + |Join(mesh, i)|
    ensures |mesh[i]| >= 2 && |OwnFaces(mesh)| == |mesh|
    ensures OwnFaces(mesh)[i] == FanOf(Consecutive(c, |mesh[i]|))
  {
    SameEdges(mesh, Numbered(mesh));
    FansAt(Numbered(mesh), i, Consecutive(c, |mesh[i]|));
  }

  lemma SharedFacesAt(facets: seq<seq<nat>>, i: nat)
    requires i < |facets| && AllHaveEdges(facets)
    ensures |facets[i]| >= 2 && |SharedFaces(facets)| == |facets|
    ensures SharedFaces(facets)[i] == FanOf(OneBased(facets[i]))
  {
    SameEdges(facets, AllOneBased(facets));
    FansAt(AllOneBased(facets), i, OneBased(facets[i]));
  }

  function Coordinates(points: seq<Vec>): seq<Row<real>> {
    seq(|points|, i requires 0 <= i < |points| => Row(points[i].x, points[i].y, points[i].z))
  }

  // ----- Writing -----

  datatype MeshFile = MeshFile(points: DataSet<real>, faces: DataSet<nat>)

  method GetNumberOfPoints(mesh: seq<seq<Vec>>) returns (nPoints: nat)
    ensures nPoints == |Join(mesh, |mesh|)|
  {
    nPoints := 0;
    for i := 0 to |mesh|
      invariant nPoints == |Join(mesh, i)|
    {
      nPoints := nPoints + |mesh[i]|;
    }
  }

  method GetNumberOfTriangles<T>(mesh: seq<seq<T>>) returns (nTriangles: nat)
    requires AllHaveEdges(mesh)
    ensures nTriangles == TriangleCount(mesh, |mesh|)
  {
    nTriangles := 0;
    for i := 0 to |mesh|
      invariant nTriangles == TriangleCount(mesh, i)
    {
      assert HasEdge(mesh[i]);
      nTriangles := nTriangles + (|mesh[i]| - 2);
    }
  }

  /** The data after the first j vertices of one more polygon. */
  function PointData(before: seq<Vec>, polygon: seq<Vec>, j: nat): seq<real>
    requires j <= |polygon|
  {
    RowMajor(Coordinates(before + polygon[..j]))
  }

  lemma PointDataPush(before: seq<Vec>, polygon: seq<Vec>, j: nat, p: Vec)
    requires j < |polygon| && p == polygon[j]
    ensures PointData(before, polygon, j + 1) == PointData(before, polygon, j) + [p.x, p.y, p.z]
  {
    var points := before + polygon[..j];
    assert before + polygon[..j + 1] == points + [p];
    assert Coordinates(points + [p]) == Coordinates(points) + [Row(p.x, p.y, p.z)];
    RowMajorPush(Coordinates(points), Row(p.x, p.y, p.z));
  }

  lemma PointDataEnds(before: seq<Vec>, polygon: seq<Vec>)
    ensures PointData(before, polygon, 0) == RowMajor(Coordinates(before))
    ensures PointData(before, polygon, |polygon|) == RowMajor(Coordinates(before + polygon))
  {
    assert before + polygon[..0] == before;
    assert polygon[..|polygon|] == polygon;
  }

  method ConcatenatePoints(mesh: seq<seq<Vec>>) returns (res: seq<real>)
    ensures res == RowMajor(Coordinates(Join(mesh, |mesh|)))
  {
    res := [];
    for i := 0 to |mesh|
      invariant res == RowMajor(Coordinates(Join(mesh, i)))
    {
      var polygon := mesh[i];
      ghost var before := Join(mesh, i);
      PointDataEnds(before, polygon);
      for j := 0 to |polygon|
        invariant res == PointData(before, polygon, j)
      {
        var p := polygon[j];
        PointDataPush(before, polygon, j, p);
        res := res + [p.x, p.y, p.z];
      }
    }
  }

  /** The data after the first k triangles of one more polygon. */
  function FaceData(before: seq<Row<nat>>, numbers: seq<nat>, k: nat): seq<nat>
    requires k + 2 <= |numbers|
  {
    RowMajor(before + Fan(numbers, k))
  }

  lemma FaceDataPush(before: seq<Row<nat>>, numbers: seq<nat>, k: nat)
    requires k + 2 < |numbers|
    ensures FaceData(before, numbers, k + 1)
         == FaceData(before, numbers, k) + [numbers[0], numbers[k + 1], numbers[k + 2]]
  {
    var row := Row(numbers[0], numbers[k + 1], numbers[k + 2]);
    assert before + Fan(numbers, k + 1) == before + Fan(numbers, k) + [row];
    RowMajorPush(before + Fan(numbers, k), row);
  }

  lemma FaceDataEnds(before: seq<Row<nat>>, numbers: seq<nat>)
    requires HasEdge(numbers)
    ensures FaceData(before, numbers, 0) == RowMajor(before)
    ensures FaceData(before, numbers, |numbers| - 2) == RowMajor(before + FanOf(numbers))
  {
    assert before + Fan(numbers, 0) == before;
  }

  lemma PushConsecutive(before: seq<Row<nat>>, c: nat, size: nat, k: nat)
    requires k + 2 < size
    ensures FaceData(before, Consecutive(c, size), k + 1)
         == FaceData(before, Consecutive(c, size), k) + [c, c + k + 1, c + k + 2]
  {
    FaceDataPush(before, Consecutive(c, size), k);
  }

  lemma PushOneBased(before: seq<Row<nat>>, facet: seq<nat>, k: nat)
    requires k + 2 < |facet|
    ensures FaceData(before, OneBased(facet), k + 1)
         == FaceData(before, OneBased(facet), k) + [1 + facet[0], 1 + facet[k + 1], 1 + facet[k + 2]]
  {
    FaceDataPush(before, OneBased(facet), k);
  }

  method ConcatenateTriangles(mesh: seq<seq<Vec>>) returns (res: seq<nat>)
    requires AllHaveEdges(mesh)
    ensures |OwnFaces(mesh)| == |mesh|
    ensures res == RowMajor(Join(OwnFaces(mesh), |mesh|))
  {
    res := [];
    var c := 1;
    ghost var parts := OwnFaces(mesh);
    for i := 0 to |mesh|
      invariant c == 1 + |Join(mesh, i)|
      invariant res == RowMajor(Join(parts, i))
    {
      ghost var before := Join(parts, i);
      OwnFacesAt(mesh, i, c);
      ghost var numbers := Consecutive(c, |mesh[i]|);
      FaceDataEnds(before, numbers);
      for k := 0 to |mesh[i]| - 2
        invariant res == FaceData(before, numbers, k)
      {
        PushConsecutive(before, c, |mesh[i]|, k);
        res := res + [c, c + k + 1, c + k + 2];
      }
      c := c + |mesh[i]|;
    }
  }

  /** The loop of the writer of nodes and facets. */
  method ConcatenateFacets(facets: seq<seq<nat>>) returns (res: seq<nat>)
    requires AllHaveEdges(facets)
    ensures |SharedFaces(facets)| == |facets|
    ensures res == RowMajor(Join(SharedFaces(facets), |facets|))
  {
    res := [];
    ghost var parts := SharedFaces(facets);
    for i := 0 to |facets|
      invariant res == RowMajor(Join(parts, i))
    {
      var vertexIndex := facets[i];
      ghost var before := Join(parts, i);
      SharedFacesAt(facets, i);
      ghost var numbers := OneBased(vertexIndex);
      FaceDataEnds(before, numbers);
      for k := 0 to |vertexIndex| - 2
        invariant res == FaceData(before, numbers, k)
      {
        PushOneBased(before, vertexIndex, k);
        res := res + [1 + vertexIndex[0], 1 + vertexIndex[k + 1], 1 + vertexIndex[k + 2]];
      }
    }
  }

  lemma {:induction false} FansAreCounted<T>(mesh: seq<seq<T>>, n: nat)
    requires n <= |mesh| && AllHaveEdges(mesh)
    ensures |Fans(mesh)| == |mesh| && |Join(Fans(mesh), n)| == TriangleCount(mesh, n)
  {
    if n > 0 {
      FansAreCounted(mesh, n - 1);
      FansAt(mesh, n - 1, mesh[n - 1]);
    }
  }

  lemma {:induction false} SameCounts<T, U>(mesh: seq<seq<T>>, other: seq<seq<U>>, n: nat)
    requires n <= |mesh| == |other| && AllHaveEdges(mesh) && AllHaveEdges(other)
    requires forall i :: 0 <= i < |mesh| ==> |other[i]| == |mesh[i]|
    ensures TriangleCount(mesh, n) == TriangleCount(other, n)
  {
    if n > 0 {
      SameCounts(mesh, other, n - 1);
      assert HasEdge(mesh[n - 1]) && HasEdge(other[n - 1]);
    }
  }

  /** The number of rows declared for the faces is the number of faces. */
  lemma OwnFacesAreCounted<T>(mesh: seq<seq<T>>)
    requires AllHaveEdges(mesh)
    ensures |OwnFaces(mesh)| == |mesh| && |Join(OwnFaces(mesh), |mesh|)| == TriangleCount(mesh, |mesh|)
  {
    SameEdges(mesh, Numbered(mesh));
    SameCounts(mesh, Numbered(mesh), |mesh|);
    FansAreCounted(Numbered(mesh), |mesh|);
  }

  lemma SharedFacesAreCounted(facets: seq<seq<nat>>)
    requires AllHaveEdges(facets)
    ensures |SharedFaces(facets)| == |facets|
    ensures |Join(SharedFaces(facets), |facets|)| == TriangleCount(facets, |facets|)
  {
    SameEdges(facets, AllOneBased(facets));
    SameCounts(facets, AllOneBased(facets), |facets|);
    FansAreCounted(AllOneBased(facets), |facets|);
  }

  /** The file that lists these points and these faces. */
  function FileOf(points: seq<Vec>, faces: seq<Row<nat>>): MeshFile {
    MeshFile(DataSet(|points|, RowMajor(Coordinates(points))), DataSet(|faces|, RowMajor(faces)))
  }

  function OwnFile(mesh: seq<seq<Vec>>): MeshFile
    requires AllHaveEdges(mesh)
  {
    OwnFacesAreCounted(mesh);
    FileOf(Join(mesh, |mesh|), Join(OwnFaces(mesh), |mesh|))
  }

  function SharedFile(nodes: seq<Vec>, facets: seq<seq<nat>>): MeshFile
    requires AllHaveEdges(facets)
  {
    SharedFacesAreCounted(facets);
    FileOf(nodes, Join(SharedFaces(facets), |facets|))
  }

  method WriteMesh(mesh: seq<seq<Vec>>) returns (file: MeshFile)
    requires AllHaveEdges(mesh)
    ensures file == OwnFile(mesh)
  {
    var nPoints := GetNumberOfPoints(mesh);
    var nTriangles := GetNumberOfTriangles(mesh);
    var points := ConcatenatePoints(mesh);
    var faces := ConcatenateTriangles(mesh);
    OwnFacesAreCounted(mesh);
    file := MeshFile(DataSet(nPoints, points), DataSet(nTriangles, faces));
  }

  method WriteFacets(nodes: seq<Vec>, facets: seq<seq<nat>>) returns (file: MeshFile)
    requires AllHaveEdges(facets)
    ensures file == SharedFile(nodes, facets)
  {
    var points := [];
    PointDataEnds([], nodes);
    for k := 0 to |nodes|
      invariant points == PointData([], nodes, k)
    {
      PointDataPush([], nodes, k, nodes[k]);
      points := points + [nodes[k].x, nodes[k].y, nodes[k].z];
    }
    assert [] + nodes == nodes;
    var nTriangles := GetNumberOfTriangles(facets);
    var faces := ConcatenateFacets(facets);
    SharedFacesAreCounted(facets);
    file := MeshFile(DataSet(|nodes|, points), DataSet(nTriangles, faces));
  }

  // ----- Reading -----

  predicate IsNumber(file: MeshFile, number: nat) {
    1 <= number <= file.points.rows
  }

  predicate FaceIsNumbered(file: MeshFile, i: nat)
    requires file.faces.Fits() && i < file.faces.rows
  {
    && IsNumber(file, file.faces.data[3 * i]) && IsNumber(file, file.faces.data[3 * i + 1])
    && IsNumber(file, file.faces.data[3 * i + 2])
  }

  /** The source does not check that vertex numbers name rows of the points. */
  predicate Readable(file: MeshFile) {
    && file.points.Fits() && file.faces.Fits()
    && forall i :: 0 <= i < file.faces.rows ==> FaceIsNumbered(file, i)
  }

  function Vertex(file: MeshFile, k: nat): Vec
    requires file.points.Fits() && k < |file.faces.data| && IsNumber(file, file.faces.data[k])
  {
    var row := file.points.At(file.faces.data[k] - 1);
    Vec(row.a, row.b, row.c)
  }

  /** Row i of the faces as a polygon. */
  function ReadRow(file: MeshFile, i: nat): seq<Vec>
    requires file.points.Fits() && file.faces.Fits() && i < file.faces.rows && FaceIsNumbered(file, i)
  {
    [Vertex(file, 3 * i), Vertex(file, 3 * i + 1), Vertex(file, 3 * i + 2)]
  }

  function ReadAll(file: MeshFile): (mesh: seq<seq<Vec>>)
    requires Readable(file)
    ensures |mesh| == file.faces.rows
  {
    seq(file.faces.rows, i requires 0 <= i < file.faces.rows => ReadRow(file, i))
  }

  datatype Option<T> = None | Some(value: T)

  method LookUp(file: MeshFile, k: nat) returns (v: Option<Vec>)
    requires file.points.Fits() && k < |file.faces.data|
    ensures v.Some? <==> IsNumber(file, file.faces.data[k])
    ensures v.Some? ==> v.value == Vertex(file, k)
  {
    var number := file.faces.data[k];
    if !IsNumber(file, number) {
      return None;
    }
    var row := number - 1;
    v := Some(Vec(file.points.data[3 * row], file.points.data[3 * row + 1], file.points.data[3 * row + 2]));
  }

  method ReadFace(file: MeshFile, i: nat) returns (r: Option<seq<Vec>>)
    requires file.points.Fits() && file.faces.Fits() && i < file.faces.rows
    ensures r.Some? <==> FaceIsNumbered(file, i)
    ensures r.Some? ==> r.value == ReadRow(file, i)
  {
    var vv := [];
    for j := 0 to 3
      invariant |vv| == j
      invariant j > 0 ==> IsNumber(file, file.faces.data[3 * i]) && vv[0] == Vertex(file, 3 * i)
      invariant j > 1 ==> IsNumber(file, file.faces.data[3 * i + 1]) && vv[1] == Vertex(file, 3 * i + 1)
      invariant j > 2 ==> IsNumber(file, file.faces.data[3 * i + 2]) && vv[2] == Vertex(file, 3 * i + 2)
    {
      var vertex := LookUp(file, 3 * i + j);
      if vertex.None? {
        return None;
      }
      vv := vv + [vertex.value];
    }
    r := Some(vv);
  }

  /** None where the source looks up a vertex that is not there. */
  method ReadMesh(file: MeshFile) returns (r: Option<seq<seq<Vec>>>)
    requires file.points.Fits() && file.faces.Fits()
    ensures r.Some? <==> Readable(file)
    ensures r.Some? ==> r.value == ReadAll(file)
  {
    var v := [];
    for i := 0 to file.faces.rows
      invariant |v| == i
      invariant forall k :: 0 <= k < i ==> FaceIsNumbered(file, k) && v[k] == ReadRow(file, k)
    {
      var vv := ReadFace(file, i);
      if vv.None? {
        return None;
      }
      v := v + [vv.value];
    }
    r := Some(v);
  }

  // ----- Reading back -----

  /** The vertex of this number is at v. */
  predicate NamesVertex(points: seq<Vec>, number: nat, v: Vec) {
    1 <= number <= |points| && points[number - 1] == v
  }

  predicate Names(points: seq<Vec>, face: Row<nat>, corners: Row<Vec>) {
    NamesVertex(points, face.a, corners.a) && NamesVertex(points, face.b, corners.b)
    && NamesVertex(points, face.c, corners.c)
  }

  predicate AllName(points: seq<Vec>, faces: seq<Row<nat>>, corners: seq<Row<Vec>>) {
    |faces| == |corners| && forall i :: 0 <= i < |faces| ==> Names(points, faces[i], corners[i])
  }

  predicate NamesPolygon(points: seq<Vec>, numbers: seq<nat>, polygon: seq<Vec>) {
    |numbers| == |polygon| && forall i :: 0 <= i < |numbers| ==> NamesVertex(points, numbers[i], polygon[i])
  }

  lemma {:induction false} FanNames(points: seq<Vec>, numbers: seq<nat>, polygon: seq<Vec>, n: nat)
    requires NamesPolygon(points, numbers, polygon) && n + 2 <= |polygon|
    ensures AllName(points, Fan(numbers, n), Fan(polygon, n))
  {
    if n > 0 {
      FanNames(points, numbers, polygon, n - 1);
      assert NamesVertex(points, numbers[0], polygon[0]);
      assert NamesVertex(points, numbers[n], polygon[n]);
      assert NamesVertex(points, numbers[n + 1], polygon[n + 1]);
    }
  }

  lemma FanOfNames(points: seq<Vec>, numbers: seq<nat>, polygon: seq<Vec>)
    requires NamesPolygon(points, numbers, polygon) && |polygon| >= 2
    ensures AllName(points, FanOf(numbers), FanOf(polygon))
  {
    FanNames(points, numbers, polygon, |polygon| - 2);
  }

  lemma AllNameConcat(points: seq<Vec>, faces: seq<Row<nat>>, corners: seq<Row<Vec>>,
                      more: seq<Row<nat>>, moreCorners: seq<Row<Vec>>)
    requires AllName(points, faces, corners) && AllName(points, more, moreCorners)
    ensures AllName(points, faces + more, corners + moreCorners)
  {
  }

  lemma {:induction false} JoinNames(points: seq<Vec>, faces: seq<seq<Row<nat>>>, corners: seq<seq<Row<Vec>>>, n: nat)
    requires n <= |faces| == |corners|
    requires forall i :: 0 <= i < n ==> AllName(points, faces[i], corners[i])
    ensures AllName(points, Join(faces, n), Join(corners, n))
  {
    if n > 0 {
      JoinNames(points, faces, corners, n - 1);
      AllNameConcat(points, Join(faces, n - 1), Join(corners, n - 1), faces[n - 1], corners[n - 1]);
    }
  }

  lemma {:induction false} JoinAt<T>(parts: seq<seq<T>>, n: nat, i: nat, j: nat, k: nat)
    requires i < n <= |parts| && j < |parts[i]| && k == |Join(parts, i)| + j
    ensures k < |Join(parts, n)| && Join(parts, n)[k] == parts[i][j]
  {
    if i < n - 1 {
      JoinAt(parts, n - 1, i, j, k);
    }
  }

  lemma NumberNames(mesh: seq<seq<Vec>>, i: nat, j: nat, number: nat)
    requires i < |mesh| && j < |mesh[i]| && number == 1 + |Join(mesh, i)| + j
    ensures NamesVertex(Join(mesh, |mesh|), number, mesh[i][j])
  {
    JoinAt(mesh, |mesh|, i, j, number - 1);
  }

  lemma NumberedNames(mesh: seq<seq<Vec>>, i: nat, c: nat)
    requires i < |mesh| && c == 1 + |Join(mesh, i)|
    ensures NamesPolygon(Join(mesh, |mesh|), Consecutive(c, |mesh[i]|), mesh[i])
  {
    var points, polygon := Join(mesh, |mesh|), mesh[i];
    var numbers := Consecutive(c, |polygon|);
    forall j | 0 <= j < |numbers| ensures NamesVertex(points, numbers[j], polygon[j]) {
      NumberNames(mesh, i, j, c + j);
    }
  }

  lemma OwnFaceNames(mesh: seq<seq<Vec>>, i: nat)
    requires i < |mesh| && AllHaveEdges(mesh)
    ensures |OwnFaces(mesh)| == |mesh| && |Fans(mesh)| == |mesh|
    ensures AllName(Join(mesh, |mesh|), OwnFaces(mesh)[i], Fans(mesh)[i])
  {
    var points, polygon, c := Join(mesh, |mesh|), mesh[i], 1 + |Join(mesh, i)|;
    NumberedNames(mesh, i, c);
    OwnFacesAt(mesh, i, c);
    FansAt(mesh, i, polygon);
    FanOfNames(points, Consecutive(c, |polygon|), polygon);
  }

  /** The facets as polygons of nodes. */
  function PolygonOf(nodes: seq<Vec>, facet: seq<nat>): seq<Vec>
    requires forall j :: 0 <= j < |facet| ==> facet[j] < |nodes|
  {
    seq(|facet|, j requires 0 <= j < |facet| => nodes[facet[j]])
  }

  predicate OnNodes(nodes: seq<Vec>, facets: seq<seq<nat>>) {
    forall i :: 0 <= i < |facets| ==> forall j :: 0 <= j < |facets[i]| ==> facets[i][j] < |nodes|
  }

  function PolygonsOf(nodes: seq<Vec>, facets: seq<seq<nat>>): seq<seq<Vec>>
    requires OnNodes(nodes, facets)
  {
    seq(|facets|, i requires 0 <= i < |facets| => PolygonOf(nodes, facets[i]))
  }

  lemma SharedFaceNames(nodes: seq<Vec>, facets: seq<seq<nat>>, mesh: seq<seq<Vec>>, i: nat)
    requires i < |facets| && AllHaveEdges(facets) && AllHaveEdges(mesh)
    requires OnNodes(nodes, facets) && mesh == PolygonsOf(nodes, facets)
    ensures |SharedFaces(facets)| == |facets| && |Fans(mesh)| == |mesh|
    ensures AllName(nodes, SharedFaces(facets)[i], Fans(mesh)[i])
  {
    var numbers, polygon := OneBased(facets[i]), mesh[i];
    assert NamesPolygon(nodes, numbers, polygon);
    SharedFacesAt(facets, i);
    FansAt(mesh, i, polygon);
    FanOfNames(nodes, numbers, polygon);
  }

  function Triangle(corners: Row<Vec>): seq<Vec> {
    [corners.a, corners.b, corners.c]
  }

  /** The mesh read from a file is this list of triangles. */
  predicate ReadsAs(file: MeshFile, triangles: seq<Row<Vec>>) {
    && Readable(file) && file.faces.rows == |triangles|
    && forall i :: 0 <= i < |triangles| ==> ReadRow(file, i) == Triangle(triangles[i])
  }

  lemma PointsAt(points: seq<Vec>, number: nat, v: Vec)
    requires NamesVertex(points, number, v)
    ensures DataSet(|points|, RowMajor(Coordinates(points))).At(number - 1) == Row(v.x, v.y, v.z)
  {
    RowMajorAt(Coordinates(points), number - 1);
  }

  lemma NamedIsNumbered(points: seq<Vec>, faces: seq<Row<nat>>, corners: seq<Row<Vec>>, i: nat)
    requires AllName(points, faces, corners) && i < |faces|
    ensures FaceIsNumbered(FileOf(points, faces), i)
  {
    RowMajorAt(faces, i);
    assert Names(points, faces[i], corners[i]);
  }

  lemma NamedIsReadable(points: seq<Vec>, faces: seq<Row<nat>>, corners: seq<Row<Vec>>)
    requires AllName(points, faces, corners)
    ensures Readable(FileOf(points, faces))
  {
    forall i | 0 <= i < |faces| ensures FaceIsNumbered(FileOf(points, faces), i) {
      NamedIsNumbered(points, faces, corners, i);
    }
  }

  lemma NamedRow(points: seq<Vec>, faces: seq<Row<nat>>, corners: seq<Row<Vec>>, i: nat)
    requires AllName(points, faces, corners) && i < |faces| && Readable(FileOf(points, faces))
    ensures ReadRow(FileOf(points, faces), i) == Triangle(corners[i])
  {
    RowMajorAt(faces, i);
    assert Names(points, faces[i], corners[i]);
    PointsAt(points, faces[i].a, corners[i].a);
    PointsAt(points, faces[i].b, corners[i].b);
    PointsAt(points, faces[i].c, corners[i].c);
  }

  lemma NamedReadsBack(points: seq<Vec>, faces: seq<Row<nat>>, corners: seq<Row<Vec>>)
    requires AllName(points, faces, corners)
    ensures ReadsAs(FileOf(points, faces), corners)
  {
    NamedIsReadable(points, faces, corners);
    forall i | 0 <= i < |corners| ensures ReadRow(FileOf(points, faces), i) == Triangle(corners[i]) {
      NamedRow(points, faces, corners, i);
    }
  }

  /** Reading a written mesh gives the fans of its polygons, in order. */
  lemma WrittenMeshReadsAsFans(mesh: seq<seq<Vec>>)
    requires AllHaveEdges(mesh)
    ensures |Fans(mesh)| == |mesh| && ReadsAs(OwnFile(mesh), Join(Fans(mesh), |mesh|))
  {
    OwnFacesAreCounted(mesh);
    FansAreCounted(mesh, |mesh|);
    forall i | 0 <= i < |mesh| ensures AllName(Join(mesh, |mesh|), OwnFaces(mesh)[i], Fans(mesh)[i]) {
      OwnFaceNames(mesh, i);
    }
    JoinNames(Join(mesh, |mesh|), OwnFaces(mesh), Fans(mesh), |mesh|);
    NamedReadsBack(Join(mesh, |mesh|), Join(OwnFaces(mesh), |mesh|), Join(Fans(mesh), |mesh|));
  }

  /** Reading written facets gives the fans of the polygons of nodes that they describe. */
  lemma WrittenFacetsReadAsFans(nodes: seq<Vec>, facets: seq<seq<nat>>, mesh: seq<seq<Vec>>)
    requires AllHaveEdges(facets) && AllHaveEdges(mesh)
    requires OnNodes(nodes, facets) && mesh == PolygonsOf(nodes, facets)
    ensures |Fans(mesh)| == |mesh| && ReadsAs(SharedFile(nodes, facets), Join(Fans(mesh), |mesh|))
  {
    SharedFacesAreCounted(facets);
    FansAreCounted(mesh, |mesh|);
    forall i | 0 <= i < |mesh| ensures AllName(nodes, SharedFaces(facets)[i], Fans(mesh)[i]) {
      SharedFaceNames(nodes, facets, mesh, i);
    }
    JoinNames(nodes, SharedFaces(facets), Fans(mesh), |mesh|);
    NamedReadsBack(nodes, Join(SharedFaces(facets), |facets|), Join(Fans(mesh), |mesh|));
  }

  predicate AllTriangles<T>(mesh: seq<seq<T>>) {
    forall i :: 0 <= i < |mesh| ==> |mesh[i]| == 3
  }

  lemma {:induction false} FansOfTriangles(mesh: seq<seq<Vec>>, n: nat)
    requires n <= |mesh| && AllHaveEdges(mesh) && AllTriangles(mesh)
    ensures |Fans(mesh)| == |mesh| && |Join(Fans(mesh), n)| == n
    ensures forall i :: 0 <= i < n ==> Triangle(Join(Fans(mesh), n)[i]) == mesh[i]
  {
    if n > 0 {
      FansOfTriangles(mesh, n - 1);
      var last := mesh[n - 1];
      FansAt(mesh, n - 1, last);
      assert FanOf(last) == [Row(last[0], last[1], last[2])];
    }
  }

  /** The mesh read from a file is this mesh. */
  predicate ReadsAsMesh(file: MeshFile, mesh: seq<seq<Vec>>) {
    && Readable(file) && file.faces.rows == |mesh|
    && forall i :: 0 <= i < |mesh| ==> ReadRow(file, i) == mesh[i]
  }

  /** Writing and reading is the identity exactly on the meshes of triangles. */
  lemma UnchangedIffTriangles(mesh: seq<seq<Vec>>)
    requires AllHaveEdges(mesh)
    ensures ReadsAsMesh(OwnFile(mesh), mesh) <==> AllTriangles(mesh)
  {
    WrittenMeshReadsAsFans(mesh);
    if AllTriangles(mesh) {
      FansOfTriangles(mesh, |mesh|);
    }
  }

  // ----- Which values are where -----

  lemma {:induction false} FanAt<T>(polygon: seq<T>, n: nat, k: nat)
    requires k < n && n + 2 <= |polygon|
    ensures Fan(polygon, n)[k] == Row(polygon[0], polygon[k + 1], polygon[k + 2])
  {
    if k < n - 1 {
      FanAt(polygon, n - 1, k);
    }
  }

  /** Every point takes three values in a row: x, y and z. */
  lemma PointInFile(points: seq<Vec>, faces: seq<Row<nat>>, n: nat, data: seq<real>)
    requires n < |points| && data == FileOf(points, faces).points.data
    ensures |data| == 3 * |points|
    ensures data[3 * n] == points[n].x && data[3 * n + 1] == points[n].y && data[3 * n + 2] == points[n].z
  {
    RowMajorAt(Coordinates(points), n);
  }

  lemma FaceInFile(points: seq<Vec>, faces: seq<Row<nat>>, r: nat, data: seq<nat>)
    requires r < |faces| && data == FileOf(points, faces).faces.data
    ensures |data| == 3 * |faces|
    ensures data[3 * r] == faces[r].a && data[3 * r + 1] == faces[r].b && data[3 * r + 2] == faces[r].c
  {
    RowMajorAt(faces, r);
  }

  /** In the file of a mesh, vertex j of polygon i is row c + j of the points. */
  lemma VertexInFile(mesh: seq<seq<Vec>>, i: nat, j: nat, n: nat, points: seq<real>)
    requires AllHaveEdges(mesh) && i < |mesh| && j < |mesh[i]| && n == |Join(mesh, i)| + j
    requires points == OwnFile(mesh).points.data
    ensures |points| >= 3 * n + 3
    ensures points[3 * n] == mesh[i][j].x && points[3 * n + 1] == mesh[i][j].y && points[3 * n + 2] == mesh[i][j].z
  {
    OwnFacesAreCounted(mesh);
    JoinAt(mesh, |mesh|, i, j, n);
    PointInFile(Join(mesh, |mesh|), Join(OwnFaces(mesh), |mesh|), n, points);
  }

  lemma OwnFacesBefore(mesh: seq<seq<Vec>>, n: nat)
    requires AllHaveEdges(mesh) && n <= |mesh|
    ensures |OwnFaces(mesh)| == |mesh| && |Join(OwnFaces(mesh), n)| == TriangleCount(mesh, n)
  {
    SameEdges(mesh, Numbered(mesh));
    SameCounts(mesh, Numbered(mesh), n);
    FansAreCounted(Numbered(mesh), n);
  }

  lemma OwnFanAt(mesh: seq<seq<Vec>>, i: nat, k: nat, c: nat, size: nat)
    requires AllHaveEdges(mesh) && i < |mesh| && c == 1 + |Join(mesh, i)| && k + 2 < size == |mesh[i]|
    ensures |OwnFaces(mesh)| == |mesh| && k < |OwnFaces(mesh)[i]|
    ensures OwnFaces(mesh)[i][k] == Row(c, c + k + 1, c + k + 2)
  {
    OwnFacesAt(mesh, i, c);
    FanAt(Consecutive(c, size), size - 2, k);
  }

  /** Triangle k of polygon i joins its vertices 0, k + 1 and k + 2 by their numbers, where c is the first one. */
  lemma TriangleInFile(mesh: seq<seq<Vec>>, i: nat, k: nat, c: nat, r: nat, faces: seq<nat>)
    requires AllHaveEdges(mesh) && i < |mesh| && c == 1 + |Join(mesh, i)|
    requires k + 2 < |mesh[i]| && r == TriangleCount(mesh, i) + k && faces == OwnFile(mesh).faces.data
    ensures |faces| >= 3 * r + 3
    ensures faces[3 * r] == c && faces[3 * r + 1] == c + k + 1 && faces[3 * r + 2] == c + k + 2
  {
    OwnFacesAreCounted(mesh);
    OwnFanAt(mesh, i, k, c, |mesh[i]|);
    OwnFacesBefore(mesh, i);
    JoinAt(OwnFaces(mesh), |mesh|, i, k, r);
    FaceInFile(Join(mesh, |mesh|), Join(OwnFaces(mesh), |mesh|), r, faces);
  }

  /** In the file of facets on shared nodes, triangle k of facet i joins its vertices 0, k + 1 and k + 2. */
  lemma FacetInFile(nodes: seq<Vec>, facets: seq<seq<nat>>, i: nat, k: nat, r: nat, faces: seq<nat>)
    requires AllHaveEdges(facets) && i < |facets| && k + 2 < |facets[i]|
    requires r == TriangleCount(facets, i) + k && faces == SharedFile(nodes, facets).faces.data
    ensures |faces| >= 3 * r + 3
    ensures faces[3 * r] == 1 + facets[i][0]
    ensures faces[3 * r + 1] == 1 + facets[i][k + 1] && faces[3 * r + 2] == 1 + facets[i][k + 2]
  {
    SharedFacesAreCounted(facets);
    var numbers := OneBased(facets[i]);
    SharedFacesAt(facets, i);
    FanAt(numbers, |numbers| - 2, k);
    SameEdges(facets, AllOneBased(facets));
    SameCounts(facets, AllOneBased(facets), i);
    FansAreCounted(AllOneBased(facets), i);
    JoinAt(SharedFaces(facets), |facets|, i, k, r);
    FaceInFile(nodes, Join(SharedFaces(facets), |facets|), r, faces);
  }

  /** Vertex j of the polygon read from row i is the point with number (i, j) in the faces. */
  lemma VertexRead(file: MeshFile, i: nat, j: nat, number: nat)
    requires Readable(file) && i < file.faces.rows && j < 3
    requires 3 * i + j < |file.faces.data| && number == file.faces.data[3 * i + j]
    ensures 1 <= number && 3 * number <= |file.points.data|
    ensures |ReadAll(file)[i]| == 3
    ensures ReadAll(file)[i][j]
         == Vec(file.points.data[3 * number - 3], file.points.data[3 * number - 2], file.points.data[3 * number - 1])
  {
    assert FaceIsNumbered(file, i);
    assert ReadAll(file)[i] == ReadRow(file, i);
  }

  // ----- Vector area -----

  /** Twice the area swept by the first n edges of a polygon, seen from the origin. */
  function Swept(polygon: seq<Vec>, n: nat): Vec
    requires n < |polygon|
  {
    if n == 0 then ZERO else Add(Swept(polygon, n - 1), Cross(polygon[n - 1], polygon[n]))
  }

  /** Twice the vector area of a polygon, planar or not. */
  function TwiceArea(polygon: seq<Vec>): Vec
    requires HasEdge(polygon)
  {
    Add(Swept(polygon, |polygon| - 1), Cross(polygon[|polygon| - 1], polygon[0]))
  }

  function TwiceAreas(mesh: seq<seq<Vec>>, n: nat): Vec
    requires n <= |mesh| && AllHaveEdges(mesh)
  {
    if n == 0 then ZERO else
      assert HasEdge(mesh[n - 1]);
      Add(TwiceAreas(mesh, n - 1), TwiceArea(mesh[n - 1]))
  }

  function TwiceAreaOfRow(t: Row<Vec>): Vec {
    Add(Add(Cross(t.a, t.b), Cross(t.b, t.c)), Cross(t.c, t.a))
  }

  function TwiceAreaOfRows(rows: seq<Row<Vec>>): Vec {
    if rows == [] then ZERO else Add(TwiceAreaOfRows(rows[..|rows| - 1]), TwiceAreaOfRow(rows[|rows| - 1]))
  }

  lemma AreaOfTriangle(t: Row<Vec>)
    ensures TwiceArea(Triangle(t)) == TwiceAreaOfRow(t)
  {
    var p := Triangle(t);
    assert Swept(p, 1) == Add(Swept(p, 0), Cross(t.a, t.b));
    assert Swept(p, 2) == Add(Swept(p, 1), Cross(t.b, t.c));
  }

  lemma CrossSwap(u: Vec, v: Vec)
    ensures Add(Cross(u, v), Cross(v, u)) == ZERO
  {
    DetSwap(u.y, u.z, v.y, v.z);
    DetSwap(u.z, u.x, v.z, v.x);
    DetSwap(u.x, u.y, v.x, v.y);
  }

  lemma AddTriangle(swept: Vec, back: Vec, out: Vec, edge: Vec, close: Vec)
    requires Add(back, out) == ZERO
    ensures Add(Add(swept, back), Add(Add(out, edge), close)) == Add(Add(swept, edge), close)
  {
  }

  /** The first n triangles of a fan have the area of the polygon cut after vertex n + 1. */
  lemma {:induction false} AreaOfFan(polygon: seq<Vec>, n: nat)
    requires n + 2 <= |polygon|
    ensures TwiceAreaOfRows(Fan(polygon, n)) == Add(Swept(polygon, n + 1), Cross(polygon[n + 1], polygon[0]))
  {
    if n == 0 {
      CrossSwap(polygon[0], polygon[1]);
    } else {
      AreaOfFan(polygon, n - 1);
      var row := Row(polygon[0], polygon[n], polygon[n + 1]);
      assert (Fan(polygon, n - 1) + [row])[..n - 1] == Fan(polygon, n - 1);
      CrossSwap(polygon[n], polygon[0]);
      AddTriangle(Swept(polygon, n), Cross(polygon[n], polygon[0]), Cross(polygon[0], polygon[n]),
                  Cross(polygon[n], polygon[n + 1]), Cross(polygon[n + 1], polygon[0]));
    }
  }

  lemma {:induction false} AreaOfConcat(rows: seq<Row<Vec>>, more: seq<Row<Vec>>)
    ensures TwiceAreaOfRows(rows + more) == Add(TwiceAreaOfRows(rows), TwiceAreaOfRows(more))
  {
    if more == [] {
      assert rows + more == rows;
    } else {
      var n := |more| - 1;
      AreaOfConcat(rows, more[..n]);
      assert (rows + more)[..|rows| + n] == rows + more[..n];
    }
  }

  lemma AreaOfFanOf(polygon: seq<Vec>)
    requires HasEdge(polygon)
    ensures TwiceAreaOfRows(FanOf(polygon)) == TwiceArea(polygon)
  {
    AreaOfFan(polygon, |polygon| - 2);
  }

  lemma AreaStep(rows: seq<Row<Vec>>, mesh: seq<seq<Vec>>, n: nat, polygon: seq<Vec>)
    requires n < |mesh| && AllHaveEdges(mesh) && polygon == mesh[n] && |polygon| >= 2
    requires TwiceAreaOfRows(rows) == TwiceAreas(mesh, n)
    ensures TwiceAreaOfRows(rows + FanOf(polygon)) == TwiceAreas(mesh, n + 1)
  {
    AreaOfConcat(rows, FanOf(polygon));
    AreaOfFanOf(polygon);
  }

  /** Cutting polygons into fans keeps their vector area, of the first n together for every n. */
  lemma {:induction false} FansKeepArea(mesh: seq<seq<Vec>>, n: nat)
    requires n <= |mesh| && AllHaveEdges(mesh)
    ensures |Fans(mesh)| == |mesh|
    ensures TwiceAreaOfRows(Join(Fans(mesh), n)) == TwiceAreas(mesh, n)
  {
    if n > 0 {
      FansKeepArea(mesh, n - 1);
      var polygon := mesh[n - 1];
      FansAt(mesh, n - 1, polygon);
      AreaStep(Join(Fans(mesh), n - 1), mesh, n - 1, polygon);
    }
  }

  lemma {:induction false} JoinPrefix<T>(parts: seq<seq<T>>, n: nat, m: nat)
    requires n <= m <= |parts|
    ensures |Join(parts, n)| <= |Join(parts, m)| && Join(parts, m)[..|Join(parts, n)|] == Join(parts, n)
  {
    if n < m {
      JoinPrefix(parts, n, m - 1);
    }
  }

  lemma {:induction false} AreaOfMesh(mesh: seq<seq<Vec>>, rows: seq<Row<Vec>>, n: nat)
    requires n <= |mesh| == |rows| && AllHaveEdges(mesh)
    requires forall i :: 0 <= i < |mesh| ==> mesh[i] == Triangle(rows[i])
    ensures TwiceAreas(mesh, n) == TwiceAreaOfRows(rows[..n])
  {
    if n > 0 {
      AreaOfMesh(mesh, rows, n - 1);
      AreaOfTriangle(rows[n - 1]);
      assert rows[..n][..n - 1] == rows[..n - 1];
    }
  }

  /** In the mesh read back, the triangles of the first n polygons have their vector area, for every n. */
  lemma MeshReadKeepsArea(mesh: seq<seq<Vec>>, n: nat)
    requires n <= |mesh| && AllHaveEdges(mesh)
    ensures Readable(OwnFile(mesh)) && AllHaveEdges(ReadAll(OwnFile(mesh)))
    ensures TriangleCount(mesh, n) <= |ReadAll(OwnFile(mesh))|
    ensures TwiceAreas(ReadAll(OwnFile(mesh)), TriangleCount(mesh, n)) == TwiceAreas(mesh, n)
  {
    WrittenMeshReadsAsFans(mesh);
    var read, rows := ReadAll(OwnFile(mesh)), Join(Fans(mesh), |mesh|);
    forall i | 0 <= i < |read| ensures HasEdge(read[i]) {
      assert read[i] == Triangle(rows[i]);
    }
    FansAreCounted(mesh, n);
    JoinPrefix(Fans(mesh), n, |mesh|);
    AreaOfMesh(read, rows, TriangleCount(mesh, n));
    FansKeepArea(mesh, n);
  }
}
