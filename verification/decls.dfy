/**
  The parsed C declarations the generator walks, as the C parser hands
  them over (top-level cursors of the translation unit), and the prefix
  filter that decides which of them get interception code.
 */
module Decls {
  import opened Text

  /** How a parameter's type is reported: the three shapes the generator distinguishes. */
  datatype ParamType =
    | Scalar(spelling: string)              // any other type kind: its full spelling
    | IncompleteArray(elem: string)         // `T n[]`: the element type's spelling
    | ConstantArray(elem: string, count: nat) // `T n[N]`: element spelling and bound

  /** One parameter: its spelling (possibly empty for an unnamed one) and its type. */
  datatype Param = Param(name: string, ty: ParamType)

  /** Only function declarations are of interest; every other cursor kind is `OtherDecl`. */
  datatype DeclKind = FunctionDecl | OtherDecl

  /** A top-level declaration: kind, name, the result type's spelling and the parameters in order. */
  datatype Decl = Decl(kind: DeclKind, name: string, resultSpelling: string, params: seq<Param>)

  /** The test of the main loop: a function declaration whose name contains `prefix`. */
  predicate Selected(d: Decl, prefix: string)
  {
    d.kind == FunctionDecl && Contains(d.name, prefix)
  }

  /** The declarations that reach the emitter, in the order the parser reported them. */
  function Filter(decls: seq<Decl>, prefix: string): (r: seq<Decl>)
    ensures |r| <= |decls|
    ensures forall k :: 0 <= k < |r| ==> Selected(r[k], prefix)
  {
    if |decls| == 0 then []
    else
      var last := decls[|decls| - 1];
      assert decls == decls[..|decls| - 1] + [last];
      Filter(decls[..|decls| - 1], prefix) + (if Selected(last, prefix) then [last] else [])
  }

  /** The positions of the selected declarations, in increasing order. */
  function SelectedPositions(decls: seq<Decl>, prefix: string): (idx: seq<nat>)
    ensures forall k :: 0 <= k < |idx| ==> idx[k] < |decls| && Selected(decls[idx[k]], prefix)
    ensures forall k, l :: 0 <= k < l < |idx| ==> idx[k] < idx[l]
    ensures forall j :: 0 <= j < |decls| && Selected(decls[j], prefix) ==> j in idx
  {
    if |decls| == 0 then []
    else
      var n := |decls| - 1;
      SelectedPositions(decls[..n], prefix) + (if Selected(decls[n], prefix) then [n] else [])
  }

  /**
    The filter keeps exactly the selected positions, in their order: the k-th
    survivor is the declaration at the k-th selected position. Non-function
    declarations and names without the prefix are dropped, nothing is
    reordered and nothing is deduplicated.
   */
  lemma {:induction false} FilterKeepsSelectedInOrder(decls: seq<Decl>, prefix: string)
    ensures |Filter(decls, prefix)| == |SelectedPositions(decls, prefix)|
    ensures forall k :: 0 <= k < |Filter(decls, prefix)| ==>
              Filter(decls, prefix)[k] == decls[SelectedPositions(decls, prefix)[k]]
  {
    if |decls| > 0 {
      var n := |decls| - 1;
      var front := decls[..n];
      FilterKeepsSelectedInOrder(front, prefix);
      var f, idx := Filter(front, prefix), SelectedPositions(front, prefix);
      var extra := if Selected(decls[n], prefix) then [decls[n]] else [];
      var extraIdx := if Selected(decls[n], prefix) then [n] else [];
      assert Filter(decls, prefix) == f + extra;
      assert SelectedPositions(decls, prefix) == idx + extraIdx;
      forall k | 0 <= k < |f + extra|
        ensures (f + extra)[k] == decls[(idx + extraIdx)[k]]
      {
        if k < |f| {
          assert (f + extra)[k] == f[k] == front[idx[k]];
          assert (idx + extraIdx)[k] == idx[k];
        }
      }
    }
  }

  /** Filtering a concatenation filters each part and keeps them in order. */
  lemma {:induction false} FilterAppend(a: seq<Decl>, b: seq<Decl>, prefix: string)
    ensures Filter(a + b, prefix) == Filter(a, prefix) + Filter(b, prefix)
    decreases |b|
  {
    if |b| == 0 {
      assert a + b == a;
    } else {
      var n := |b| - 1;
      assert (a + b)[..|a + b| - 1] == a + b[..n];
      FilterAppend(a, b[..n], prefix);
    }
  }

  /**
    A declaration reaches the emitter if and only if it is in the input, is a
    function declaration and its name contains the prefix.
   */
  lemma {:induction false} FilterMembership(decls: seq<Decl>, prefix: string)
    ensures forall d :: d in Filter(decls, prefix) <==> d in decls && Selected(d, prefix)
  {
    if |decls| > 0 {
      var n := |decls| - 1;
      FilterMembership(decls[..n], prefix);
      assert decls == decls[..n] + [decls[n]];
    }
  }

  /** Nothing is kept exactly when no declaration is a function whose name contains the prefix. */
  lemma FilterEmptyIffNoneSelected(decls: seq<Decl>, prefix: string)
    ensures Filter(decls, prefix) == [] <==> forall j :: 0 <= j < |decls| ==> !Selected(decls[j], prefix)
  {
    var r := Filter(decls, prefix);
    FilterMembership(decls, prefix);
    if r != [] {
      assert r[0] in r;
      var j :| 0 <= j < |decls| && decls[j] == r[0];
      assert Selected(decls[j], prefix);
    }
    if exists j :: 0 <= j < |decls| && Selected(decls[j], prefix) {
      var j :| 0 <= j < |decls| && Selected(decls[j], prefix);
      assert decls[j] in decls;
      assert decls[j] in r;
    }
  }
}
