/** Recursive repair of the product tree (main.go `normalizeBranches` and the root
    de-wrap in `getAffectedAdvisories`): every `"Branch"` that arrived as a single
    object is turned into a one-element list, at every depth. */
module Branches {
  import opened Json

  const BranchKey := "Branch"

  /** One element of a `Branch` list after repair: objects are repaired, everything else is kept. */
  function NormElem(e: J): J
    decreases e, 1
  {
    if e.JObj? then JObj(NormBranches(e.fields)) else e
  }

  /** The map `normalizeBranches(m)` leaves behind. */
  function NormBranches(m: map<string, J>): (r: map<string, J>)
    decreases JObj(m), 0
    ensures r.Keys == m.Keys
    ensures forall k :: k in m && k != BranchKey ==> r[k] == m[k]
  {
    if BranchKey in m then
      match m[BranchKey]
      case JArr(bv) =>
        m[BranchKey := JArr(seq(|bv|, i requires 0 <= i < |bv| => NormElem(bv[i])))]
      case JObj(bm) =>
        m[BranchKey := JArr([JObj(NormBranches(bm))])]
      case _ => m
    else m
  }

  /** main.go `normalizeBranches`: each object in a `Branch` list is overwritten in
      place by its repaired self; a single-object `Branch` is wrapped in a list. */
  method NormalizeBranches(m: map<string, J>) returns (r: map<string, J>)
    decreases JObj(m)
    ensures r == NormBranches(m)
  {
    r := m;
    if BranchKey in m {
      match m[BranchKey] {
        case JArr(bv) =>
          var out := bv;
          var i := 0;
          while i < |bv|
            invariant 0 <= i <= |bv| && |out| == |bv|
            invariant forall k :: 0 <= k < i ==> out[k] == NormElem(bv[k])
            invariant forall k :: i <= k < |bv| ==> out[k] == bv[k]
          {
            if bv[i].JObj? {
              var nb := NormalizeBranches(bv[i].fields);
              out := out[i := JObj(nb)];
            }
            i := i + 1;
          }
          assert out == seq(|bv|, k requires 0 <= k < |bv| => NormElem(bv[k]));
          r := m[BranchKey := JArr(out)];
        case JObj(bm) =>
          var nb := NormalizeBranches(bm);
          r := m[BranchKey := JArr([JObj(nb)])];
        case _ =>
      }
    }
  }

  /** Every `Branch` reached through objects is not an object; the objects inside a
      `Branch` list are themselves normalised. */
  predicate Normalized(m: map<string, J>)
    decreases JObj(m)
  {
    BranchKey in m ==>
      match m[BranchKey]
      case JObj(_) => false
      case JArr(bv) => forall i :: 0 <= i < |bv| ==> bv[i].JObj? ==> Normalized(bv[i].fields)
      case _ => true
  }

  /** The repair reaches every depth: its result is normalised. */
  lemma {:induction false} NormBranchesNormalizes(m: map<string, J>)
    ensures Normalized(NormBranches(m))
    decreases JObj(m)
  {
    if BranchKey in m {
      match m[BranchKey]
      case JArr(bv) =>
        var nv := seq(|bv|, i requires 0 <= i < |bv| => NormElem(bv[i]));
        assert NormBranches(m)[BranchKey] == JArr(nv);
        forall i | 0 <= i < |nv| && nv[i].JObj?
          ensures Normalized(nv[i].fields)
        {
          if bv[i].JObj? {
            NormBranchesNormalizes(bv[i].fields);
          }
        }
      case JObj(bm) =>
        NormBranchesNormalizes(bm);
      case _ =>
    }
  }

  /** A normalised tree is a fixed point of the repair. */
  lemma {:induction false} NormBranchesFixes(m: map<string, J>)
    requires Normalized(m)
    ensures NormBranches(m) == m
    decreases JObj(m)
  {
    if BranchKey in m {
      match m[BranchKey]
      case JArr(bv) =>
        var nv := seq(|bv|, i requires 0 <= i < |bv| => NormElem(bv[i]));
        forall i | 0 <= i < |bv| ensures nv[i] == bv[i] {
          if bv[i].JObj? {
            NormBranchesFixes(bv[i].fields);
          }
        }
        assert nv == bv;
        assert m[BranchKey := JArr(bv)] == m;
      case _ =>
    }
  }

  /** The repair leaves a tree unchanged exactly when the tree is already normalised. */
  lemma NormBranchesFixpointIff(m: map<string, J>)
    ensures NormBranches(m) == m <==> Normalized(m)
  {
    if Normalized(m) {
      NormBranchesFixes(m);
    } else {
      NormBranchesNormalizes(m);
    }
  }

  /** Repairing twice is repairing once. */
  lemma NormBranchesIdempotent(m: map<string, J>)
    ensures NormBranches(NormBranches(m)) == NormBranches(m)
  {
    NormBranchesNormalizes(m);
    NormBranchesFixes(NormBranches(m));
  }

  /** The shape of one level: a single object child becomes a one-element list holding its
      repaired self; a list keeps its length and order, its objects are repaired and its
      other elements kept; any other `Branch` value is left as it was. */
  lemma BranchLevel(m: map<string, J>)
    requires BranchKey in m
    ensures m[BranchKey].JObj? ==>
      NormBranches(m)[BranchKey] == JArr([JObj(NormBranches(m[BranchKey].fields))])
    ensures m[BranchKey].JArr? ==>
      var bv := m[BranchKey].elems;
      NormBranches(m)[BranchKey].JArr? && |NormBranches(m)[BranchKey].elems| == |bv| &&
      forall i :: 0 <= i < |bv| ==>
        NormBranches(m)[BranchKey].elems[i] ==
          (if bv[i].JObj? then JObj(NormBranches(bv[i].fields)) else bv[i])
    ensures !m[BranchKey].JObj? && !m[BranchKey].JArr? ==> NormBranches(m) == m
  {
  }

  /** The one-time root de-wrap: the product tree's `Branch` list is replaced by its sole
      element when it has exactly one element and that element is an object. */
  function DewrapRoot(pt: map<string, J>): (r: map<string, J>)
    ensures r.Keys == pt.Keys
    ensures forall k :: k in pt && k != BranchKey ==> r[k] == pt[k]
  {
    if BranchKey in pt && pt[BranchKey].JArr? && |pt[BranchKey].elems| == 1
       && pt[BranchKey].elems[0].JObj?
    then pt[BranchKey := pt[BranchKey].elems[0]]
    else pt
  }

  /** The de-wrap fires only on a one-element list holding an object, and then exposes
      that object (its `Name` and `Type` included) as the root's `Branch`. */
  lemma DewrapRootCases(pt: map<string, J>)
    ensures (BranchKey in pt && pt[BranchKey].JArr? && |pt[BranchKey].elems| == 1
             && pt[BranchKey].elems[0].JObj?)
      ==> DewrapRoot(pt)[BranchKey] == pt[BranchKey].elems[0]
    ensures !(BranchKey in pt && pt[BranchKey].JArr? && |pt[BranchKey].elems| == 1
             && pt[BranchKey].elems[0].JObj?)
      ==> DewrapRoot(pt) == pt
  {
  }

  /** The product-tree step of the pre-pass: repair, then de-wrap the root once. */
  function NormalizeProductTree(pt: map<string, J>): map<string, J>
  {
    DewrapRoot(NormBranches(pt))
  }

  /** The product-tree step is idempotent: a second pass re-wraps the de-wrapped root,
      finds it already normalised, and de-wraps it again. Below the root every `Branch`
      is a list, so the de-wrap happens at the root only. */
  lemma NormalizeProductTreeIdempotent(pt: map<string, J>)
    ensures NormalizeProductTree(NormalizeProductTree(pt)) == NormalizeProductTree(pt)
  {
    var n := NormBranches(pt);
    NormBranchesNormalizes(pt);
    NormBranchesFixes(n);
    var d := DewrapRoot(n);
    if d != n {
      var bm := n[BranchKey].elems[0].fields;
      assert n[BranchKey] == JArr([JObj(bm)]);
      assert Normalized(bm);
      NormBranchesFixes(bm);
      assert d[BranchKey] == JObj(bm);
      assert NormBranches(d) == d[BranchKey := JArr([JObj(bm)])];
      assert NormBranches(d) == n;
    }
  }
}
