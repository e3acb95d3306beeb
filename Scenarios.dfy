/**
  Worked examples of the exporter on small meshes, checked against the
  general model.
 */
module Scenarios {
  import opened Unify
  import opened Facets
  import opened TetExport

  lemma FlattenPair(a: seq<nat>, b: seq<nat>)
    ensures Flatten([a, b]) == a + b
  {
    assert [a, b][..1] == [a];
    assert Flatten([a]) == a by {
      assert [a][..0] == [];
      assert Flatten([a]) == Flatten([]) + a;
    }
  }

  lemma FlattenFour(a: seq<nat>, b: seq<nat>, c: seq<nat>, d: seq<nat>)
    ensures Flatten([a, b, c, d]) == a + (b + c + d)
  {
    FlattenPair(a, b);
    FlattenPair(c, d);
    FlattenAppend([a, b], [c, d]);
    assert [a, b] + [c, d] == [a, b, c, d];
  }

  /**
    The first group of quads `{0,1,2,3}, {0,1,4,5}, {0,2,4,6}, {1,3,5,7}`
    yields the record `t 0 1 2 3`: the first four distinct indices, as the
    first polygon supplies them.
   */
  lemma QuadGroupRecord()
    ensures GroupTet([[0, 1, 2, 3], [0, 1, 4, 5], [0, 2, 4, 6], [1, 3, 5, 7]]) == Some(Tet(0, 1, 2, 3))
  {
    var first: seq<nat> := [0, 1, 2, 3];
    var rest: seq<nat> := [0, 1, 4, 5] + [0, 2, 4, 6] + [1, 3, 5, 7];
    FlattenFour(first, [0, 1, 4, 5], [0, 2, 4, 6], [1, 3, 5, 7]);
    UnifiedOfNoDup(first);
    FirstFourStable(first, rest);
  }

  /** Six triangles over distinct vertices. */
  function SixTriangles(): seq<seq<nat>> {
    [[0, 1, 2], [3, 4, 5], [6, 7, 8], [9, 10, 11], [12, 13, 14], [15, 16, 17]]
  }

  lemma SixTrianglesFirstGroup()
    ensures GroupTet(Group(SixTriangles(), 0)) == Some(Tet(0, 1, 2, 3))
  {
    assert Group(SixTriangles(), 0) == [[0, 1, 2], [3, 4, 5], [6, 7, 8], [9, 10, 11]];
    var front: seq<nat> := [0, 1, 2] + [3, 4, 5];
    FlattenFour([0, 1, 2], [3, 4, 5], [6, 7, 8], [9, 10, 11]);
    assert Flatten(Group(SixTriangles(), 0)) == front + ([6, 7, 8] + [9, 10, 11]);
    UnifiedOfNoDup(front);
    FirstFourStable(front, [6, 7, 8] + [9, 10, 11]);
  }

  lemma SixTrianglesTrailingGroup()
    ensures GroupTet(Group(SixTriangles(), 1)) == Some(Tet(12, 13, 14, 15))
  {
    assert Group(SixTriangles(), 1) == [[12, 13, 14], [15, 16, 17]];
    FlattenPair([12, 13, 14], [15, 16, 17]);
    UnifiedOfNoDup([12, 13, 14] + [15, 16, 17]);
  }

  /**
    For the six triangles the first group gives `t 0 1 2 3`, and the trailing
    two triangles are not dropped but give `t 12 13 14 15`: two records.
   */
  lemma SixTrianglesRecords()
    ensures FacetRecords(SixTriangles()) == Written([Tet(0, 1, 2, 3), Tet(12, 13, 14, 15)], true)
  {
    SixTrianglesFirstGroup();
    SixTrianglesTrailingGroup();
    var recs := GroupRecords(SixTriangles());
    assert recs[0] == Some(Tet(0, 1, 2, 3));
    assert recs[1] == Some(Tet(12, 13, 14, 15));
    assert WriteFrom(recs, 2) == Written([], true);
  }

  /**
    Exporting those six triangles: triangle mode, a header of
    `int(6 * 0.25) = 1` tetrahedra, and two `t` records after it.
   */
  lemma SixTrianglesHeader(sim: SimType, location: Vec3, verts: seq<Vec3>)
    ensures var e := Export(sim, Mesh(location, verts, SixTriangles()));
      && e.ok
      && e.lines[|verts| + 2] == TetHeader(1)
      && e.lines[|verts| + 3..] == [T(Tet(0, 1, 2, 3)), T(Tet(12, 13, 14, 15))]
  {
    SixTrianglesRecords();
    TetSection(sim, Mesh(location, verts, SixTriangles()));
    assert TLines([Tet(0, 1, 2, 3), Tet(12, 13, 14, 15)]) == [T(Tet(0, 1, 2, 3)), T(Tet(12, 13, 14, 15))];
  }
}
