/**
  Order-preserving de-duplication of vertex indices (`unifyList` in the
  exporter): an index is kept at its first occurrence and later repeats are
  skipped (lines 243-255 of `addons_contrib/io_export_TetMesh.py`).
 */
module Unify {

  /** No index occurs twice in `s`. */
  predicate NoDup(s: seq<nat>) {
    forall i, j :: 0 <= i < j < |s| ==> s[i] != s[j]
  }

  /** The position at which `x` first occurs in `s`. */
  function FirstIndex(s: seq<nat>, x: nat): (k: nat)
    requires x in s
    ensures k < |s| && s[k] == x && x !in s[..k]
  {
    if s[0] == x then 0 else 1 + FirstIndex(s[1..], x)
  }

  /** Every position holding `x` with no earlier `x` is the first index. */
  lemma FirstIndexUnique(s: seq<nat>, x: nat, k: nat)
    requires k < |s| && s[k] == x && x !in s[..k]
    ensures FirstIndex(s, x) == k
  {
  }

  /**
    The list `unifyList` builds: walk `s` left to right and append each index
    not yet present. Defined on the last element, as the loop appends.
   */
  function Unified(s: seq<nat>): seq<nat>
  {
    if s == [] then []
    else
      var u := Unified(s[..|s| - 1]);
      if s[|s| - 1] in u then u else u + [s[|s| - 1]]
  }

  /** The result holds exactly the indices of the input. */
  lemma {:induction false} UnifiedElements(s: seq<nat>)
    ensures forall x :: x in Unified(s) <==> x in s
  {
    if s != [] {
      var init := s[..|s| - 1];
      UnifiedElements(init);
      assert s == init + [s[|s| - 1]];
    }
  }

  /** The result has no duplicates. */
  lemma {:induction false} UnifiedNoDup(s: seq<nat>)
    ensures NoDup(Unified(s))
  {
    if s != [] {
      UnifiedNoDup(s[..|s| - 1]);
    }
  }

  /** Appending an element keeps the first position of every index already present. */
  lemma FirstIndexExtend(init: seq<nat>, e: nat, y: nat)
    requires y in init
    ensures FirstIndex(init + [e], y) == FirstIndex(init, y)
  {
    var k := FirstIndex(init, y);
    assert (init + [e])[..k] == init[..k];
    FirstIndexUnique(init + [e], y, k);
  }

  /** A new element first occurs at the end. */
  lemma FirstIndexLast(init: seq<nat>, e: nat)
    requires e !in init
    ensures FirstIndex(init + [e], e) == |init|
  {
    assert (init + [e])[..|init|] == init;
    FirstIndexUnique(init + [e], e, |init|);
  }

  /** The result lists the indices in order of their first occurrence in the input. */
  lemma {:induction false} UnifiedFirstOccurrenceOrder(s: seq<nat>)
    ensures forall x :: x in Unified(s) ==> x in s
    ensures forall i, j :: 0 <= i < j < |Unified(s)| ==>
              FirstIndex(s, Unified(s)[i]) < FirstIndex(s, Unified(s)[j])
  {
    UnifiedElements(s);
    if s != [] {
      var init, e := s[..|s| - 1], s[|s| - 1];
      var u' := Unified(init);
      var u := Unified(s);
      assert s == init + [e];
      assert u == if e in u' then u' else u' + [e];
      UnifiedFirstOccurrenceOrder(init);
      UnifiedElements(init);
      forall i, j | 0 <= i < j < |u|
        ensures FirstIndex(s, u[i]) < FirstIndex(s, u[j])
      {
        assert u[i] == u'[i] && u[i] in init;
        FirstIndexExtend(init, e, u[i]);
        if j < |u'| {
          assert u[j] == u'[j] && u[j] in init;
          FirstIndexExtend(init, e, u[j]);
        } else {
          assert u[j] == e && e !in init;
          FirstIndexLast(init, e);
        }
      }
    }
  }

  /** A list without duplicates is its own de-duplication. */
  lemma {:induction false} UnifiedOfNoDup(s: seq<nat>)
    requires NoDup(s)
    ensures Unified(s) == s
  {
    if s != [] {
      var init := s[..|s| - 1];
      UnifiedOfNoDup(init);
      assert s[|s| - 1] !in init;
      assert s == init + [s[|s| - 1]];
    }
  }

  /** `unifyList` is idempotent. */
  lemma UnifiedIdempotent(s: seq<nat>)
    ensures Unified(Unified(s)) == Unified(s)
  {
    UnifiedNoDup(s);
    UnifiedOfNoDup(Unified(s));
  }

  /**
    Appending indices that are already present does not change the result.
    This is why a re-appended trailing polygon leaves its record unchanged.
   */
  lemma {:induction false} UnifiedAbsorbs(s: seq<nat>, t: seq<nat>)
    requires forall x :: x in t ==> x in s
    ensures Unified(s + t) == Unified(s)
  {
    if t == [] {
      assert s + t == s;
    } else {
      var t' := t[..|t| - 1];
      var e := t[|t| - 1];
      UnifiedAbsorbs(s, t');
      assert s + t == (s + t') + [e];
      assert (s + t)[..|s + t| - 1] == s + t';
      UnifiedElements(s);
    }
  }

  /**
    De-duplication is monotone: the result for a prefix is a prefix of the
    result for the whole list, so later indices never change earlier entries.
   */
  lemma {:induction false} UnifiedPrefix(s: seq<nat>, t: seq<nat>)
    ensures Unified(s) <= Unified(s + t)
  {
    if t == [] {
      assert s + t == s;
    } else {
      UnifiedPrefix(s, t[..|t| - 1]);
      assert (s + t)[..|s + t| - 1] == s + t[..|t| - 1];
    }
  }

  /**
    The loop of `unifyList`: `facet` starts empty and each index of the
    argument list not yet in `facet` is appended.
   */
  method UnifyList(collection: seq<nat>) returns (facet: seq<nat>)
    ensures facet == Unified(collection)
    ensures NoDup(facet) && forall x :: x in facet <==> x in collection
  {
    facet := [];
    for i := 0 to |collection|
      invariant facet == Unified(collection[..i])
    {
      var e := collection[i];
      assert collection[..i + 1][..i] == collection[..i];
      if e !in facet {
        facet := facet + [e];
      }
    }
    assert collection[..|collection|] == collection;
    UnifiedNoDup(collection);
    UnifiedElements(collection);
  }
}
