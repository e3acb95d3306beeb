/**
  Tetrahedron reconstruction from consecutive polygons (`createFacets` in the
  exporter). Polygons are read in windows of four; the vertex indices of the
  polygons of a window are collected, de-duplicated, and the first four
  distinct indices become one `t` record. Line numbers refer to
  `addons_contrib/io_export_TetMesh.py`.
 */
module Facets {
  import opened Unify

  datatype Option<T> = None | Some(value: T)

  /** One `t a b c d` record. */
  datatype Tet = Tet(a: nat, b: nat, c: nat, d: nat)

  /**
    What a writer of `t` records leaves behind: the records it wrote and
    whether it ran to the end (`ok`) or stopped on an `IndexError`, in which
    case `tets` holds the records written before the error.
   */
  datatype Written = Written(tets: seq<Tet>, ok: bool)

  /** Records `ts` written in front of whatever `w` writes. */
  function Prepend(ts: seq<Tet>, w: Written): Written {
    Written(ts + w.tets, w.ok)
  }

  /** The four indices of a record are pairwise distinct. */
  predicate DistinctIndices(t: Tet) {
    t.a != t.b && t.a != t.c && t.a != t.d && t.b != t.c && t.b != t.d && t.c != t.d
  }

  /** The concatenation of the polygons' vertex-index lists, in order. */
  function Flatten(ps: seq<seq<nat>>): seq<nat> {
    if ps == [] then [] else Flatten(ps[..|ps| - 1]) + ps[|ps| - 1]
  }

  lemma {:induction false} FlattenAppend(ps: seq<seq<nat>>, qs: seq<seq<nat>>)
    ensures Flatten(ps + qs) == Flatten(ps) + Flatten(qs)
  {
    if qs == [] {
      assert ps + qs == ps;
    } else {
      FlattenAppend(ps, qs[..|qs| - 1]);
      assert (ps + qs)[..|ps + qs| - 1] == ps + qs[..|qs| - 1];
    }
  }

  /** Every index of `Flatten(ps)` comes from some polygon of `ps`. */
  lemma {:induction false} FlattenMember(ps: seq<seq<nat>>, x: nat)
    requires x in Flatten(ps)
    ensures exists j :: 0 <= j < |ps| && x in ps[j]
  {
    var init := ps[..|ps| - 1];
    if x !in ps[|ps| - 1] {
      FlattenMember(init, x);
      var j :| 0 <= j < |init| && x in init[j];
      assert ps[j] == init[j];
    }
  }

  /** Every index of a polygon of `ps` occurs in `Flatten(ps)`. */
  lemma {:induction false} FlattenContains(ps: seq<seq<nat>>, j: nat, x: nat)
    requires j < |ps| && x in ps[j]
    ensures x in Flatten(ps)
  {
    if j < |ps| - 1 {
      FlattenContains(ps[..|ps| - 1], j, x);
    }
  }

  /** Polygons drawn from `qs` contribute only indices already in `Flatten(qs)`. */
  lemma FlattenCovered(ps: seq<seq<nat>>, qs: seq<seq<nat>>)
    requires forall j :: 0 <= j < |ps| ==> ps[j] in qs
    ensures forall x :: x in Flatten(ps) ==> x in Flatten(qs)
  {
    forall x | x in Flatten(ps)
      ensures x in Flatten(qs)
    {
      FlattenMember(ps, x);
      var j :| 0 <= j < |ps| && x in ps[j];
      var q :| 0 <= q < |qs| && qs[q] == ps[j];
      FlattenContains(qs, q, x);
    }
  }

  function Min(x: int, y: int): int { if x <= y then x else y }

  /** The polygons whose index lies in `[start, start + 4)`. */
  function Window(polys: seq<seq<nat>>, start: nat): (w: seq<seq<nat>>)
    requires start <= |polys|
  {
    polys[start..Min(start + 4, |polys|)]
  }

  /**
    The record a group yields: the first four entries of the de-duplicated
    collection of its vertex indices, or `None` where `unifyList(...)[3]`
    raises `IndexError` because fewer than four distinct indices exist.
   */
  function GroupTet(group: seq<seq<nat>>): Option<Tet> {
    FirstFour(Flatten(group))
  }

  /** `unifyList(collection)[0..3]`, or `None` where indexing raises `IndexError`. */
  function FirstFour(collection: seq<nat>): Option<Tet> {
    var u := Unified(collection);
    if |u| < 4 then None else Some(Tet(u[0], u[1], u[2], u[3]))
  }

  /**
    Once the collection holds four distinct indices, appending more indices
    leaves its record unchanged.
   */
  lemma FirstFourStable(collection: seq<nat>, more: seq<nat>)
    requires |Unified(collection)| >= 4
    ensures FirstFour(collection + more) == FirstFour(collection)
  {
    UnifiedPrefix(collection, more);
    var u, u' := Unified(collection), Unified(collection + more);
    assert u'[0] == u[0] && u'[1] == u[1] && u'[2] == u[2] && u'[3] == u[3];
  }

  /**
    A record, when one is produced, is the first four distinct indices of its
    group in order of first occurrence; so they are pairwise distinct and all
    drawn from the group's polygons.
   */
  lemma GroupTetDistinct(group: seq<seq<nat>>)
    ensures GroupTet(group).None? <==> |Unified(Flatten(group))| < 4
    ensures GroupTet(group).Some? ==>
              var t := GroupTet(group).value;
              var u := Unified(Flatten(group));
              [t.a, t.b, t.c, t.d] == u[..4] && DistinctIndices(t) &&
              t.a in Flatten(group) && t.b in Flatten(group) &&
              t.c in Flatten(group) && t.d in Flatten(group)
  {
    UnifiedNoDup(Flatten(group));
    UnifiedElements(Flatten(group));
    var u := Unified(Flatten(group));
    if |u| >= 4 {
      assert u[0] in u && u[1] in u && u[2] in u && u[3] in u;
    }
  }

  /** The number of windows: one per four polygons, rounding up. */
  function GroupCount(n: nat): nat { (n + 3) / 4 }

  lemma GroupCountBounds(n: nat, g: nat)
    ensures g < GroupCount(n) <==> 4 * g < n
    ensures g + 1 < GroupCount(n) <==> 4 * g + 4 < n
  {
  }

  /** Group `g`: the polygons `4g .. 4g+3` (fewer for a trailing group). */
  function Group(polys: seq<seq<nat>>, g: nat): seq<seq<nat>>
    requires 4 * g < |polys|
  {
    Window(polys, 4 * g)
  }

  /** The record (or `IndexError`) of every group, in polygon order. */
  function GroupRecords(polys: seq<seq<nat>>): (recs: seq<Option<Tet>>)
    ensures |recs| == GroupCount(|polys|)
  {
    seq(GroupCount(|polys|), g requires 0 <= g < GroupCount(|polys|) => GroupTet(Group(polys, g)))
  }

  /** Entry `g` of the group records is the record of group `g`. */
  lemma GroupRecordsAt(polys: seq<seq<nat>>, g: nat)
    requires 4 * g < |polys|
    ensures g < |GroupRecords(polys)| && GroupRecords(polys)[g] == GroupTet(Group(polys, g))
  {
  }

  /**
    Writing the records of groups `g, g+1, ...` in order: every record up to
    the first group that raises `IndexError` is written, and the run stops
    there.
   */
  function WriteFrom(recs: seq<Option<Tet>>, g: nat): Written
    decreases |recs| - g
  {
    if g >= |recs| then Written([], true)
    else match recs[g]
      case None => Written([], false)
      case Some(t) => Prepend([t], WriteFrom(recs, g + 1))
  }

  lemma {:induction false} WriteFromPrefix(recs: seq<Option<Tet>>, j: nat)
    requires j <= |recs|
    decreases |recs| - j
    ensures var r := WriteFrom(recs, j);
      && |r.tets| <= |recs| - j
      && (forall g :: 0 <= g < |r.tets| ==> recs[j + g] == Some(r.tets[g]))
      && (r.ok <==> |r.tets| == |recs| - j)
      && (!r.ok ==> recs[j + |r.tets|] == None)
  {
    if j < |recs| && recs[j].Some? {
      WriteFromPrefix(recs, j + 1);
      var r := WriteFrom(recs, j);
      var rest := WriteFrom(recs, j + 1);
      assert r.tets == [recs[j].value] + rest.tets;
      forall g | 0 <= g < |r.tets|
        ensures recs[j + g] == Some(r.tets[g])
      {
        if g > 0 {
          assert r.tets[g] == rest.tets[g - 1];
          assert j + g == (j + 1) + (g - 1);
        }
      }
    }
  }

  /**
    One group on from `g`: a record of group `g` moves to the end of the
    records written so far; `IndexError` at group `g` ends the run.
   */
  lemma WriteFromStep(recs: seq<Option<Tet>>, g: nat, tets: seq<Tet>, r: Option<Tet>)
    requires g < |recs| && recs[g] == r
    ensures r.None? ==> Prepend(tets, WriteFrom(recs, g)) == Written(tets, false)
    ensures r.Some? ==> Prepend(tets, WriteFrom(recs, g)) == Prepend(tets + [r.value], WriteFrom(recs, g + 1))
    ensures r.Some? && g + 1 == |recs| ==> Prepend(tets, WriteFrom(recs, g)) == Written(tets + [r.value], true)
  {
    if r.Some? {
      assert tets + ([r.value] + WriteFrom(recs, g + 1).tets) == (tets + [r.value]) + WriteFrom(recs, g + 1).tets;
    } else {
      assert tets + [] == tets;
    }
  }

  /** The `t` records `createFacets` writes for a non-empty polygon list. */
  function FacetRecords(polys: seq<seq<nat>>): Written
    requires |polys| > 0
  {
    WriteFrom(GroupRecords(polys), 0)
  }

  /**
    Characterisation of `createFacets`: record `g` is the record of group `g`
    (polygons `4g .. 4g+3`), the run completes exactly when all
    `ceil(n/4)` groups produced a record, and it stops at the first group
    with fewer than four distinct indices.
   */
  lemma FacetRecordsGroups(polys: seq<seq<nat>>)
    requires |polys| > 0
    ensures var r := FacetRecords(polys);
      && |r.tets| <= GroupCount(|polys|)
      && (forall g :: 0 <= g < |r.tets| ==> 4 * g < |polys| && GroupTet(Group(polys, g)) == Some(r.tets[g]))
      && (r.ok <==> |r.tets| == GroupCount(|polys|))
      && (!r.ok ==> 4 * |r.tets| < |polys| && GroupTet(Group(polys, |r.tets|)) == None)
  {
    WriteFromPrefix(GroupRecords(polys), 0);
  }

  /** A run completes exactly when every group has four distinct indices. */
  lemma FacetRecordsOk(polys: seq<seq<nat>>)
    requires |polys| > 0
    ensures FacetRecords(polys).ok <==>
              forall g :: 0 <= g < GroupCount(|polys|) ==> GroupTet(Group(polys, g)).Some?
  {
    FacetRecordsGroups(polys);
    var r := FacetRecords(polys);
    if !r.ok {
      assert |r.tets| < GroupCount(|polys|);
      assert GroupTet(Group(polys, |r.tets|)).None?;
    }
  }

  /**
    For `4k` polygons (`k >= 1`) a completed run writes exactly `k` records,
    record `i` built from polygons `4i .. 4i+3` only.
   */
  lemma MultipleOfFourRecords(polys: seq<seq<nat>>, k: nat)
    requires k >= 1 && |polys| == 4 * k
    ensures |FacetRecords(polys).tets| <= k
    ensures var r := FacetRecords(polys);
      && (r.ok ==> |r.tets| == k)
      && forall i :: 0 <= i < |r.tets| ==> GroupTet(polys[4 * i..4 * i + 4]) == Some(r.tets[i])
  {
    FacetRecordsGroups(polys);
    assert GroupCount(|polys|) == k;
    forall i | 0 <= i < |FacetRecords(polys).tets|
      ensures Group(polys, i) == polys[4 * i..4 * i + 4]
    {
      assert Min(4 * i + 4, |polys|) == 4 * i + 4;
    }
  }

  /**
    For a length that is not a multiple of four, a completed run writes
    `n/4 + 1` records, the last built from the trailing `n % 4` polygons.
   */
  lemma TrailingGroupRecord(polys: seq<seq<nat>>)
    requires |polys| % 4 != 0
    ensures var r := FacetRecords(polys);
      r.ok ==> |r.tets| == |polys| / 4 + 1 &&
               GroupTet(polys[4 * (|polys| / 4)..]) == Some(r.tets[|polys| / 4])
  {
    FacetRecordsGroups(polys);
    var n := |polys|;
    assert GroupCount(n) == n / 4 + 1;
    assert 4 * (n / 4) < n;
    assert Min(4 * (n / 4) + 4, n) == n;
    assert Group(polys, n / 4) == polys[4 * (n / 4)..];
  }

  /** `p` copies of `w`, one after the other. */
  function Repeat(w: seq<seq<nat>>, p: nat): seq<seq<nat>> {
    if p == 0 then [] else Repeat(w, p - 1) + w
  }

  lemma {:induction false} RepeatFromWindow(w: seq<seq<nat>>, p: nat)
    ensures forall j :: 0 <= j < |Repeat(w, p)| ==> Repeat(w, p)[j] in w
  {
    if p > 0 {
      RepeatFromWindow(w, p - 1);
      var r := Repeat(w, p);
      forall j | 0 <= j < |r|
        ensures r[j] in w
      {
        if j >= |Repeat(w, p - 1)| {
          assert r[j] == w[j - |Repeat(w, p - 1)|];
        } else {
          assert r[j] == Repeat(w, p - 1)[j];
        }
      }
    }
  }

  lemma {:induction false} RepeatFront(w: seq<seq<nat>>, p: nat)
    requires p >= 1
    ensures Repeat(w, p) == w + Repeat(w, p - 1)
  {
    if p > 1 {
      RepeatFront(w, p - 1);
    }
  }

  /**
    A trailing window of `1 <= |w| <= 3` polygons is scanned again and again
    until four polygons have been appended; the collection then holds `w`
    possibly followed by repeats of its own polygons, and its de-duplication
    equals that of `w` alone.
   */
  lemma RescanKeepsRecord(w: seq<seq<nat>>, p: nat, k: nat)
    requires 1 <= |w| <= 4 && k <= |w|
    requires |Repeat(w, p) + w[..k]| == 4
    ensures Unified(Flatten(Repeat(w, p) + w[..k])) == Unified(Flatten(w))
  {
    var appended := Repeat(w, p) + w[..k];
    if p == 0 {
      assert w[..k] == w;
      assert appended == w;
    } else {
      RepeatFront(w, p);
      var rest := Repeat(w, p - 1) + w[..k];
      assert appended == w + rest;
      RepeatFromWindow(w, p - 1);
      forall j | 0 <= j < |rest|
        ensures rest[j] in w
      {
        if j >= |Repeat(w, p - 1)| {
          assert rest[j] == w[j - |Repeat(w, p - 1)|];
        } else {
          assert rest[j] == Repeat(w, p - 1)[j];
        }
      }
      FlattenCovered(rest, w);
      FlattenAppend(w, rest);
      UnifiedAbsorbs(Flatten(w), Flatten(rest));
    }
  }

  function Clamp(x: int, m: int): int { if x < 0 then 0 else if x > m then m else x }

  /**
    The indices `createFacets` has collected for the window at `start`
    after `p` full scans of it and `k` polygons of the current scan.
   */
  function Collected(polys: seq<seq<nat>>, start: nat, p: nat, k: nat): seq<nat>
    requires start < |polys| && k <= Min(start + 4, |polys|) - start
    decreases p, k
  {
    if k > 0 then Collected(polys, start, p, k - 1) + polys[start + k - 1]
    else if p > 0 then Collected(polys, start, p - 1, Min(start + 4, |polys|) - start)
    else []
  }

  /** The number of polygons appended in the same state. */
  function CollectedCount(polys: seq<seq<nat>>, start: nat, p: nat, k: nat): nat
    requires start < |polys| && k <= Min(start + 4, |polys|) - start
    decreases p, k
  {
    if k > 0 then CollectedCount(polys, start, p, k - 1) + 1
    else if p > 0 then CollectedCount(polys, start, p - 1, Min(start + 4, |polys|) - start)
    else 0
  }

  lemma {:induction false} CollectedIsRepeat(polys: seq<seq<nat>>, start: nat, p: nat, k: nat)
    requires start < |polys| && k <= Min(start + 4, |polys|) - start
    decreases p, k
    ensures var w := Window(polys, start);
      && Collected(polys, start, p, k) == Flatten(Repeat(w, p) + w[..k])
      && CollectedCount(polys, start, p, k) == |Repeat(w, p) + w[..k]|
  {
    var w := Window(polys, start);
    if k > 0 {
      CollectedIsRepeat(polys, start, p, k - 1);
      var before := Repeat(w, p) + w[..k - 1];
      assert w[..k - 1] + [w[k - 1]] == w[..k];
      assert Repeat(w, p) + w[..k] == before + [w[k - 1]];
      assert (before + [w[k - 1]])[..|before + [w[k - 1]]| - 1] == before;
    } else if p > 0 {
      CollectedIsRepeat(polys, start, p - 1, |w|);
      assert w[..|w|] == w;
      assert w[..0] == [];
      assert Repeat(w, p - 1) + w == Repeat(w, p);
      assert Repeat(w, p) + w[..k] == Repeat(w, p);
    } else {
      assert w[..0] == [];
    }
  }

  /**
    Four polygons appended: the collection yields the window's record, since
    a repeated scan of a trailing window only re-appends its own polygons.
   */
  lemma CollectedRecord(polys: seq<seq<nat>>, g: nat, p: nat, k: nat)
    requires 4 * g < |polys| && k <= Min(4 * g + 4, |polys|) - 4 * g
    requires CollectedCount(polys, 4 * g, p, k) == 4
    ensures g < |GroupRecords(polys)|
    ensures FirstFour(Collected(polys, 4 * g, p, k)) == GroupRecords(polys)[g]
  {
    CollectedIsRepeat(polys, 4 * g, p, k);
    RescanKeepsRecord(Window(polys, 4 * g), p, k);
    GroupRecordsAt(polys, g);
  }

  /**
    The record line 229 builds from `unifyList(collection)[0..3]`; `ok` is
    false where indexing the de-duplicated list raises `IndexError`.
   */
  method RecordOf(collection: seq<nat>) returns (t: Tet, ok: bool)
    ensures FirstFour(collection) == if ok then Some(t) else None
    ensures ok <==> |Unified(collection)| >= 4
    ensures ok ==> DistinctIndices(t) && t.a in collection && t.b in collection && t.c in collection && t.d in collection
  {
    var facet := UnifyList(collection);
    if |facet| < 4 {
      return Tet(0, 0, 0, 0), false;
    }
    assert facet[0] in facet && facet[1] in facet && facet[2] in facet && facet[3] in facet;
    t, ok := Tet(facet[0], facet[1], facet[2], facet[3]), true;
  }

  /**
    Line 229 for group `g`: the record of the collection is appended to the
    records written so far, or `IndexError` stops the run. Stated against
    the records of all groups: this write moves the run from group `g` to
    group `g + 1`.
   */
  method WriteRecord(ghost polys: seq<seq<nat>>, ghost g: nat, ghost p: nat, ghost k: nat,
                     collection: seq<nat>, tets: seq<Tet>) returns (tets': seq<Tet>, ok: bool)
    requires 4 * g < |polys| && k <= Min(4 * g + 4, |polys|) - 4 * g
    requires CollectedCount(polys, 4 * g, p, k) == 4 && collection == Collected(polys, 4 * g, p, k)
    ensures g < |GroupRecords(polys)|
    ensures !ok ==> tets' == tets && Prepend(tets, WriteFrom(GroupRecords(polys), g)) == Written(tets, false)
    ensures ok ==> Prepend(tets, WriteFrom(GroupRecords(polys), g)) == Prepend(tets', WriteFrom(GroupRecords(polys), g + 1))
    ensures ok && |polys| <= 4 * g + 4 ==> Prepend(tets, WriteFrom(GroupRecords(polys), g)) == Written(tets', true)
  {
    CollectedRecord(polys, g, p, k);
    GroupCountBounds(|polys|, g);
    var t;
    t, ok := RecordOf(collection);
    WriteFromStep(GroupRecords(polys), g, tets, if ok then Some(t) else None);
    tets' := if ok then tets + [t] else tets;
  }

  /**
    Ghost bookkeeping of the loop of `createFacets`: the current group `g`,
    how many full scans `p` of its window the collection holds and how many
    polygons `k` of the current scan, and whether the final record has been
    written (`done`).
   */
  datatype Progress = Progress(g: nat, p: nat, k: nat, done: bool)

  /**
    What holds of the state of `createFacets` at polygon `i` of a scan that
    started with `count0 < endcount` polygons appended. Until the final
    record the collection holds `p` scans of the window plus its polygons
    before `i`, and the records written so far are those of the groups before
    `g`. After the final record only appends remain, and the written records
    are final.
   */
  ghost predicate LoopState(polys: seq<seq<nat>>, i: int, collection: seq<nat>, count: nat,
                            startcount: nat, endcount: nat, tets: seq<Tet>, pr: Progress, count0: nat)
  {
    && pr.g < GroupCount(|polys|) && startcount == 4 * pr.g && endcount == startcount + 4
    && startcount < |polys| && count0 < endcount
    && (!pr.done ==>
          && pr.k == Clamp(i - startcount, Min(endcount, |polys|) - startcount)
          && collection == Collected(polys, startcount, pr.p, pr.k)
          && count == startcount + CollectedCount(polys, startcount, pr.p, pr.k)
          && WriteFrom(GroupRecords(polys), 0) == Prepend(tets, WriteFrom(GroupRecords(polys), pr.g)))
    && (pr.done ==>
          && startcount < i && |polys| <= endcount
          && WriteFrom(GroupRecords(polys), 0) == Written(tets, true))
    && (count > count0 || (count == count0 && i <= startcount))
  }

  /** The state before polygon `i`: the final record is written iff `count` has reached `endcount`. */
  ghost predicate Scanning(polys: seq<seq<nat>>, i: int, collection: seq<nat>, count: nat,
                           startcount: nat, endcount: nat, tets: seq<Tet>, pr: Progress, count0: nat)
  {
    LoopState(polys, i, collection, count, startcount, endcount, tets, pr, count0)
    && pr.done == (count >= endcount)
  }

  /**
    The state after polygon `i - 1` was appended but before the count is
    compared: `count` may have just reached `endcount`, by appending a
    polygon of the window, and after the final record it has passed it.
   */
  ghost predicate Appended(polys: seq<seq<nat>>, i: int, collection: seq<nat>, count: nat,
                           startcount: nat, endcount: nat, tets: seq<Tet>, pr: Progress, count0: nat)
  {
    LoopState(polys, i, collection, count, startcount, endcount, tets, pr, count0)
    && (if pr.done then count > endcount else count <= endcount)
    && (!pr.done && count == endcount ==> startcount < i <= endcount)
  }

  /** Polygon `i` of the window is appended (lines 215-222). */
  lemma AppendKeeps(polys: seq<seq<nat>>, i: nat, collection: seq<nat>, count: nat,
                    startcount: nat, endcount: nat, tets: seq<Tet>, pr: Progress, count0: nat)
    requires i < |polys| && startcount <= i < endcount
    requires Scanning(polys, i, collection, count, startcount, endcount, tets, pr, count0)
    ensures Appended(polys, i + 1, collection + polys[i], count + 1, startcount, endcount, tets,
                     if pr.done then pr else pr.(k := pr.k + 1), count0)
  {
  }

  /** Polygon `i` lies outside the window and is skipped. */
  lemma SkipKeeps(polys: seq<seq<nat>>, i: nat, collection: seq<nat>, count: nat,
                  startcount: nat, endcount: nat, tets: seq<Tet>, pr: Progress, count0: nat)
    requires i < |polys| && !(startcount <= i < endcount)
    requires Scanning(polys, i, collection, count, startcount, endcount, tets, pr, count0)
    ensures Appended(polys, i + 1, collection, count, startcount, endcount, tets, pr, count0)
    ensures count != endcount
  {
  }

  /** Without a window to complete, the scan goes on to the next polygon. */
  lemma NotFullKeeps(polys: seq<seq<nat>>, i: nat, collection: seq<nat>, count: nat,
                     startcount: nat, endcount: nat, tets: seq<Tet>, pr: Progress, count0: nat)
    requires Appended(polys, i, collection, count, startcount, endcount, tets, pr, count0)
    requires count != endcount
    ensures Scanning(polys, i, collection, count, startcount, endcount, tets, pr, count0)
  {
  }

  /**
    Lines 224-238, reached when `count == endcount`: the record of the
    collection is written and, if polygons remain past the window, the window
    moves on and the collection is cleared. `ok` is false when the record
    raises `IndexError`.
   */
  method CompleteWindow(polys: seq<seq<nat>>, ghost i: nat, collection: seq<nat>, ghost count: nat,
                        startcount: nat, endcount: nat, tets: seq<Tet>, ghost pr: Progress, ghost count0: nat)
    returns (collection': seq<nat>, startcount': nat, endcount': nat, tets': seq<Tet>, ok: bool, ghost pr': Progress)
    requires count == endcount
    requires Appended(polys, i, collection, count, startcount, endcount, tets, pr, count0)
    ensures ok ==> Scanning(polys, i, collection', count, startcount', endcount', tets', pr', count0)
    ensures !ok ==> WriteFrom(GroupRecords(polys), 0) == Written(tets', false)
  {
    collection', startcount', endcount', pr' := collection, startcount, endcount, pr;
    var faces := |polys|;
    tets', ok := WriteRecord(polys, pr.g, pr.p, pr.k, collection, tets);
    if !ok {
      // unifyList(collection)[3] raises IndexError
      return;
    }
    GroupCountBounds(faces, pr.g);
    if endcount < faces {
      startcount' := startcount + 4;
      endcount' := endcount + 4;
      collection' := [];
      pr' := Progress(pr.g + 1, 0, 0, false);
    } else {
      pr' := pr.(done := true);
    }
  }

  /**
    One iteration of the polygon loop of `createFacets` (lines 212-238) for
    polygon `i`: its indices are appended when it lies in the window, and
    the window is completed once its count is reached. `ok` is false when
    the record raises `IndexError`.
   */
  method Visit(polys: seq<seq<nat>>, i: nat, collection: seq<nat>, count: nat,
               startcount: nat, endcount: nat, tets: seq<Tet>, ghost pr: Progress, ghost count0: nat)
    returns (collection': seq<nat>, count': nat, startcount': nat, endcount': nat,
             tets': seq<Tet>, ok: bool, ghost pr': Progress)
    requires i < |polys|
    requires Scanning(polys, i, collection, count, startcount, endcount, tets, pr, count0)
    ensures ok ==> Scanning(polys, i + 1, collection', count', startcount', endcount', tets', pr', count0)
    ensures !ok ==> WriteFrom(GroupRecords(polys), 0) == Written(tets', false)
  {
    collection', count', startcount', endcount', tets', ok, pr' :=
      collection, count, startcount, endcount, tets, true, pr;
    var faceindex := i;
    if startcount <= faceindex < endcount {
      AppendKeeps(polys, i, collection, count, startcount, endcount, tets, pr, count0);
      if !pr.done {
        pr' := pr.(k := pr.k + 1);
      }
      collection' := collection + polys[i];
      count' := count + 1;
    } else {
      SkipKeeps(polys, i, collection, count, startcount, endcount, tets, pr, count0);
    }
    if count' == endcount {
      collection', startcount', endcount', tets', ok, pr' :=
        CompleteWindow(polys, i + 1, collection', count', startcount, endcount, tets, pr', count0);
    } else {
      NotFullKeeps(polys, i + 1, collection', count', startcount, endcount, tets, pr', count0);
    }
  }

  /**
    The end of a pass over all polygons: the pass appended at least one
    polygon, and unless the final record was written the next pass starts
    one more scan of the same window.
   */
  lemma NextPass(polys: seq<seq<nat>>, collection: seq<nat>, count: nat, startcount: nat, endcount: nat,
                 tets: seq<Tet>, pr: Progress, count0: nat)
    requires Scanning(polys, |polys|, collection, count, startcount, endcount, tets, pr, count0)
    ensures count > count0
    ensures !pr.done ==>
      Scanning(polys, 0, collection, count, startcount, endcount, tets, pr.(p := pr.p + 1, k := 0), count)
    ensures pr.done ==> Scanning(polys, |polys|, collection, count, startcount, endcount, tets, pr, 0)
  {
  }

  /**
    The loop of `createFacets`. `count` counts appended polygons,
    `[startcount, endcount)` is the current window; each pass of the outer
    loop scans every polygon and appends those in the window. When `count`
    reaches `endcount` a record is written and, if polygons remain past the
    window, the window moves on and `collection` is cleared. With no
    polygons the source loop never terminates, hence the precondition.
   */
  method CreateFacets(polys: seq<seq<nat>>) returns (tets: seq<Tet>, ok: bool)
    requires |polys| > 0
    ensures Written(tets, ok) == FacetRecords(polys)
  {
    var faces := |polys|;
    tets, ok := [], true;
    var collection: seq<nat> := [];
    var count, startcount, endcount := 0, 0, 4;
    ghost var pr := Progress(0, 0, 0, false);
    while count < endcount
      invariant ok
      invariant !pr.done ==> Scanning(polys, 0, collection, count, startcount, endcount, tets, pr, count)
      invariant pr.done ==> Scanning(polys, faces, collection, count, startcount, endcount, tets, pr, 0)
      decreases faces + 4 - count
    {
      ghost var count0 := count;
      for i := 0 to faces
        invariant ok && Scanning(polys, i, collection, count, startcount, endcount, tets, pr, count0)
      {
        collection, count, startcount, endcount, tets, ok, pr :=
          Visit(polys, i, collection, count, startcount, endcount, tets, pr, count0);
        if !ok {
          return;
        }
      }
      NextPass(polys, collection, count, startcount, endcount, tets, pr, count0);
      if !pr.done {
        // the next pass scans the window again
        pr := pr.(p := pr.p + 1, k := 0);
      }
    }
  }
}
