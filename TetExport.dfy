/**
  The record-building part of `process_mesh`: the exported file is a banner,
  a vertex section (a count header and one `v` record per vertex) and a
  tetrahedron section (a count header and `t` records). The tetrahedron mode
  is picked from the first face alone: a triangle selects `createFacets`,
  anything else writes one `t` record per face from its first four vertices.
  The open file is modelled as the sequence of records written to it.
  Line numbers refer to `addons_contrib/io_export_TetMesh.py`.
 */
module TetExport {
  import opened Facets

  /** A coordinate triple (exact reals; see the README on floating point). */
  datatype Vec3 = Vec3(x: real, y: real, z: real)

  /** The two simulator formats `process_mesh` is called with. */
  datatype SimType = Arthros | Hystsim

  /**
    The mesh as the exporter sees it: the object's origin, the vertex
    coordinates in vertex order, and each face's vertex indices in face
    order (the position of a face is its index).
   */
  datatype Mesh = Mesh(location: Vec3, verts: seq<Vec3>, faces: seq<seq<nat>>)

  /**
    One record of the exported file. `Banner` is the TetraMaker comment with
    the blank line after it, `VertexHeader(n)` the `# n vertices` comment,
    `TetHeader(n)` the blank line and `# n tetrahedra` comment.
   */
  datatype Line = Banner | VertexHeader(count: nat) | V(pos: Vec3) | TetHeader(count: nat) | T(tet: Tet)

  /** What `process_mesh` leaves in the file, and whether it ran without `IndexError`. */
  datatype Exported = Exported(lines: seq<Line>, ok: bool)

  /**
    The coordinates of a `v` record: the vertex moved by the object's origin,
    written as `(x, y, z)` for Arthros and as `(x, z, -y)` for Hystsim.
   */
  function Placed(sim: SimType, location: Vec3, co: Vec3): Vec3 {
    var o := Vec3(location.x + co.x, location.y + co.y, location.z + co.z);
    match sim
    case Arthros => o
    case Hystsim => Vec3(o.x, o.z, -o.y)
  }

  /** The vertex coordinates a `v` record of format `sim` was written from. */
  function Unplaced(sim: SimType, location: Vec3, p: Vec3): Vec3 {
    match sim
    case Arthros => Vec3(p.x - location.x, p.y - location.y, p.z - location.z)
    case Hystsim => Vec3(p.x - location.x, -p.z - location.y, p.y - location.z)
  }

  /**
    `Unplaced` undoes `Placed` and `Placed` undoes `Unplaced`: the remap is a
    bijection on coordinates, for either format and any origin.
   */
  lemma PlacedRoundTrip(sim: SimType, location: Vec3, co: Vec3, p: Vec3)
    ensures Unplaced(sim, location, Placed(sim, location, co)) == co
    ensures Placed(sim, location, Unplaced(sim, location, p)) == p
  {
  }

  /** Two different vertices never give the same `v` record. */
  lemma PlacedInjective(sim: SimType, location: Vec3, a: Vec3, b: Vec3)
    ensures Placed(sim, location, a) == Placed(sim, location, b) <==> a == b
  {
    PlacedRoundTrip(sim, location, a, a);
    PlacedRoundTrip(sim, location, b, b);
  }

  /** A Hystsim record is the Arthros record of the same vertex with `y` and `z` swapped and `y` negated. */
  lemma HystsimIsRotatedArthros(location: Vec3, co: Vec3)
    ensures var a := Placed(Arthros, location, co);
      Placed(Hystsim, location, co) == Vec3(a.x, a.z, -a.y)
  {
  }

  /** One `v` record per vertex, in vertex order. */
  function VLines(sim: SimType, location: Vec3, verts: seq<Vec3>): seq<Line> {
    seq(|verts|, i requires 0 <= i < |verts| => V(Placed(sim, location, verts[i])))
  }

  /** One `t` line per record, in order. */
  function TLines(tets: seq<Tet>): seq<Line> {
    seq(|tets|, i requires 0 <= i < |tets| => T(tets[i]))
  }

  /** The number of `v` records in `lines`. */
  function CountV(lines: seq<Line>): nat {
    if lines == [] then 0 else CountV(lines[..|lines| - 1]) + (if lines[|lines| - 1].V? then 1 else 0)
  }

  /** The number of `t` records in `lines`. */
  function CountT(lines: seq<Line>): nat {
    if lines == [] then 0 else CountT(lines[..|lines| - 1]) + (if lines[|lines| - 1].T? then 1 else 0)
  }

  lemma {:induction false} CountAppend(a: seq<Line>, b: seq<Line>)
    ensures CountV(a + b) == CountV(a) + CountV(b)
    ensures CountT(a + b) == CountT(a) + CountT(b)
  {
    if b == [] {
      assert a + b == a;
    } else {
      CountAppend(a, b[..|b| - 1]);
      assert (a + b)[..|a + b| - 1] == a + b[..|b| - 1];
    }
  }

  /** Only `v` records, one per vertex. */
  lemma {:induction false} CountVLines(sim: SimType, location: Vec3, verts: seq<Vec3>)
    ensures CountV(VLines(sim, location, verts)) == |verts| && CountT(VLines(sim, location, verts)) == 0
  {
    if verts != [] {
      var init := verts[..|verts| - 1];
      CountVLines(sim, location, init);
      assert VLines(sim, location, verts)[..|verts| - 1] == VLines(sim, location, init);
    }
  }

  /** Only `t` records, one per tetrahedron. */
  lemma {:induction false} CountTLines(tets: seq<Tet>)
    ensures CountT(TLines(tets)) == |tets| && CountV(TLines(tets)) == 0
  {
    if tets != [] {
      var init := tets[..|tets| - 1];
      CountTLines(init);
      assert TLines(tets)[..|tets| - 1] == TLines(init);
    }
  }

  /** The first face decides the mode: `realtets` holds iff it is a triangle. */
  predicate FirstFaceIsTriangle(faces: seq<seq<nat>>) {
    |faces| > 0 && |faces[0]| == 3
  }

  /**
    Lines 158-166: the loop over the faces leaves after the first one (both
    branches `break`, modelled by `leave`), with `realtets` set from that
    face alone; with no faces it stays false.
   */
  method DetectMode(faces: seq<seq<nat>>) returns (realtets: bool)
    ensures realtets <==> |faces| > 0 && |faces[0]| == 3
    ensures forall rest: seq<seq<nat>> :: |faces| > 0 ==>
              (realtets <==> FirstFaceIsTriangle([faces[0]] + rest))
  {
    realtets := false;
    var i, leave := 0, false;
    while i < |faces| && !leave
      invariant i <= |faces| && leave == (i > 0)
      invariant realtets <==> i > 0 && |faces[0]| == 3
    {
      if |faces[i]| == 3 {
        realtets := true;
      } else {
        realtets := false;
      }
      leave := true;
      i := i + 1;
    }
  }

  /** The record of face `f` in the per-face mode, or `None` where `face.verts[3]` raises `IndexError`. */
  function FaceTet(f: seq<nat>): Option<Tet> {
    if |f| < 4 then None else Some(Tet(f[0], f[1], f[2], f[3]))
  }

  /** The records of the per-face mode, one per face, written until the first `IndexError`. */
  function DirectTets(faces: seq<seq<nat>>): Written {
    WriteFrom(seq(|faces|, i requires 0 <= i < |faces| => FaceTet(faces[i])), 0)
  }

  /**
    The per-face mode writes one record per face, in face order, holding the
    face's vertices 0..3; it completes iff every face has at least four
    vertices and otherwise stops at the first face that has fewer.
   */
  lemma DirectTetsSpec(faces: seq<seq<nat>>)
    ensures var r := DirectTets(faces);
      && |r.tets| <= |faces|
      && (forall k :: 0 <= k < |r.tets| ==>
            |faces[k]| >= 4 && r.tets[k] == Tet(faces[k][0], faces[k][1], faces[k][2], faces[k][3]))
      && (r.ok <==> forall k :: 0 <= k < |faces| ==> |faces[k]| >= 4)
      && (r.ok ==> |r.tets| == |faces|)
      && (!r.ok ==> |faces[|r.tets|]| < 4)
  {
    var recs := seq(|faces|, i requires 0 <= i < |faces| => FaceTet(faces[i]));
    WriteFromPrefix(recs, 0);
    var r := DirectTets(faces);
    forall k | 0 <= k < |r.tets|
      ensures |faces[k]| >= 4 && r.tets[k] == Tet(faces[k][0], faces[k][1], faces[k][2], faces[k][3])
    {
      assert recs[0 + k] == Some(r.tets[k]);
    }
    if !r.ok {
      assert recs[0 + |r.tets|] == None;
    }
  }

  /**
    Lines 182-183: one `t` record per face from `face.verts[0..3]`, in face
    order; `ok` is false where a face with fewer than four vertices raises
    `IndexError`, the records before it having been written.
   */
  method WriteFaceTets(faces: seq<seq<nat>>) returns (tets: seq<Tet>, ok: bool)
    ensures Written(tets, ok) == DirectTets(faces)
  {
    ghost var recs := seq(|faces|, i requires 0 <= i < |faces| => FaceTet(faces[i]));
    tets, ok := [], true;
    for i := 0 to |faces|
      invariant WriteFrom(recs, 0) == Prepend(tets, WriteFrom(recs, i))
    {
      var face := faces[i];
      WriteFromStep(recs, i, tets, FaceTet(face));
      if |face| < 4 {
        // face.verts[3] raises IndexError
        return tets, false;
      }
      tets := tets + [Tet(face[0], face[1], face[2], face[3])];
    }
    assert tets + [] == tets;
  }

  /** The tet header: `int(faceCount * 0.25)` in triangle mode, `faceCount` otherwise. */
  function TetHeaderCount(faces: seq<seq<nat>>): nat {
    if FirstFaceIsTriangle(faces) then |faces| / 4 else |faces|
  }

  /** The `t` records of the mode the first face selects. */
  function TetRecords(faces: seq<seq<nat>>): Written {
    if FirstFaceIsTriangle(faces) then FacetRecords(faces) else DirectTets(faces)
  }

  /** The whole file `process_mesh` writes for `mesh`. */
  function Export(sim: SimType, mesh: Mesh): Exported {
    var r := TetRecords(mesh.faces);
    Exported([Banner, VertexHeader(|mesh.verts|)] + VLines(sim, mesh.location, mesh.verts)
               + [TetHeader(TetHeaderCount(mesh.faces))] + TLines(r.tets), r.ok)
  }

  /**
    Lines 113-183 without the Blender calls: the banner and vertex header,
    one `v` record per vertex, then the tetrahedron header and records of the
    mode the first face selects.
   */
  method ProcessMesh(sim: SimType, mesh: Mesh) returns (file: seq<Line>, ok: bool)
    ensures Exported(file, ok) == Export(sim, mesh)
  {
    var vertCount := |mesh.verts|;
    var faceCount := |mesh.faces|;
    file := [Banner, VertexHeader(vertCount)];
    var vlines := WriteVertices(sim, mesh.location, mesh.verts);
    file := file + vlines;
    var realtets := DetectMode(mesh.faces);
    var tets;
    if realtets {
      file := file + [TetHeader(faceCount / 4)];
      tets, ok := CreateFacets(mesh.faces);
    } else {
      file := file + [TetHeader(faceCount)];
      tets, ok := WriteFaceTets(mesh.faces);
    }
    var tlines := WriteTLines(tets);
    file := file + tlines;
  }

  /** Lines 140-154: one `v` record per vertex, in vertex order. */
  method WriteVertices(sim: SimType, location: Vec3, verts: seq<Vec3>) returns (lines: seq<Line>)
    ensures lines == VLines(sim, location, verts)
  {
    lines := [];
    for i := 0 to |verts|
      invariant |lines| == i
      invariant forall j :: 0 <= j < i ==> lines[j] == V(Placed(sim, location, verts[j]))
    {
      var co := verts[i];
      lines := lines + [V(Placed(sim, location, co))];
    }
  }

  /** The `t` lines of the records, in order, as `file.write` appends them. */
  method WriteTLines(tets: seq<Tet>) returns (lines: seq<Line>)
    ensures lines == TLines(tets)
  {
    lines := [];
    for i := 0 to |tets|
      invariant |lines| == i
      invariant forall j :: 0 <= j < i ==> lines[j] == T(tets[j])
    {
      lines := lines + [T(tets[i])];
    }
  }

  /**
    The vertex section: the header states the number of vertices, and there
    is exactly one `v` record per vertex, in vertex order, right after it.
   */
  lemma VertexSection(sim: SimType, mesh: Mesh)
    ensures var lines := Export(sim, mesh).lines;
      && |lines| >= |mesh.verts| + 3
      && lines[0] == Banner && lines[1] == VertexHeader(|mesh.verts|)
      && (forall i :: 0 <= i < |mesh.verts| ==> lines[2 + i] == V(Placed(sim, mesh.location, mesh.verts[i])))
      && CountV(lines) == |mesh.verts|
  {
    var r := TetRecords(mesh.faces);
    var vl := VLines(sim, mesh.location, mesh.verts);
    var head: seq<Line> := [Banner, VertexHeader(|mesh.verts|)];
    var hdr := [TetHeader(TetHeaderCount(mesh.faces))];
    CountAppend(head, vl);
    CountAppend(head + vl, hdr);
    CountAppend(head + vl + hdr, TLines(r.tets));
    CountVLines(sim, mesh.location, mesh.verts);
    CountTLines(r.tets);
    assert CountV(head) == 0 by {
      assert head[..1] == [Banner];
      assert [Banner][..0] == [];
    }
    assert CountV(hdr) == 0 by {
      assert hdr[..0] == [];
    }
  }

  /**
    The tetrahedron section: its header follows the `v` records and every
    later line is a `t` record. In the per-face mode a completed export has
    one `t` record per face, matching the header; in triangle mode the
    header reads `faceCount / 4` while `ceil(faceCount / 4)` records are
    written, so header and records agree exactly when the face count is a
    multiple of four.
   */
  lemma TetSection(sim: SimType, mesh: Mesh)
    ensures var e := Export(sim, mesh);
      var n := |mesh.faces|;
      && |e.lines| == |mesh.verts| + 3 + CountT(e.lines)
      && e.lines[|mesh.verts| + 2] == TetHeader(TetHeaderCount(mesh.faces))
      && (forall i :: |mesh.verts| + 3 <= i < |e.lines| ==> e.lines[i].T?)
      && (e.ok && !FirstFaceIsTriangle(mesh.faces) ==> CountT(e.lines) == n == TetHeaderCount(mesh.faces))
      && (e.ok && FirstFaceIsTriangle(mesh.faces) ==>
            CountT(e.lines) == GroupCount(n) && (TetHeaderCount(mesh.faces) == CountT(e.lines) <==> n % 4 == 0))
  {
    var r := TetRecords(mesh.faces);
    var vl := VLines(sim, mesh.location, mesh.verts);
    var head: seq<Line> := [Banner, VertexHeader(|mesh.verts|)];
    var hdr := [TetHeader(TetHeaderCount(mesh.faces))];
    CountAppend(head, vl);
    CountAppend(head + vl, hdr);
    CountAppend(head + vl + hdr, TLines(r.tets));
    CountVLines(sim, mesh.location, mesh.verts);
    CountTLines(r.tets);
    assert CountT(head) == 0 by {
      assert head[..1] == [Banner];
      assert [Banner][..0] == [];
    }
    assert CountT(hdr) == 0 by {
      assert hdr[..0] == [];
    }
    if FirstFaceIsTriangle(mesh.faces) {
      FacetRecordsGroups(mesh.faces);
    } else {
      DirectTetsSpec(mesh.faces);
    }
  }
}
