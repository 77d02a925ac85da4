/** What `OperandBinExport.__str__` (loader.py:679-737) computes on a well-formed token list,
    stated without its bookkeeping: every token renders as its value around its children,
    which are the later tokens naming it as their parent, in order; and the operand is its
    top-level tokens joined by commas. */
module OperandTrees {
  import opened Operands

  /** The token list forms one tree hanging under the parent index `root`: no comma
      operators, distinct expression indices above `root`, and every token's parent is
      `root` or an earlier token. */
  predicate WellFormed(ts: seq<Token>, root: nat) {
    && root < DefaultMinIdx
    && (forall k | 0 <= k < |ts| :: !IsComma(ts[k]) && root < ts[k].idx)
    && (forall j, k | 0 <= j < k < |ts| :: ts[j].idx != ts[k].idx)
    && (forall k | 0 <= k < |ts| :: ts[k].parent == root || exists j | 0 <= j < k :: ts[j].idx == ts[k].parent)
  }

  /** The positions in `lo .. hi-1` of the tokens whose parent is `p`, in order. */
  function KidsIn(ts: seq<Token>, p: nat, lo: nat, hi: nat): (ks: seq<nat>)
    requires hi <= |ts|
    ensures forall i | 0 <= i < |ks| :: lo <= ks[i] < hi && ts[ks[i]].parent == p
    decreases hi
  {
    if hi <= lo then []
    else KidsIn(ts, p, lo, hi - 1) + (if ts[hi - 1].parent == p then [hi - 1] else [])
  }

  /** Token `k` rendered from the token list alone. */
  function RefNode(ts: seq<Token>, k: nat): string
    requires k < |ts|
    decreases |ts| - k, 1
  {
    Wrap(ts[k].value, ts[k].kind == SymbolKind, RefJoin(ts, k, KidsIn(ts, ts[k].idx, k + 1, |ts|)))
  }

  /** The tokens at positions `ps`, all after position `k`, rendered and joined by commas. */
  function RefJoin(ts: seq<Token>, k: int, ps: seq<nat>): string
    requires -1 <= k < |ts|
    requires forall i | 0 <= i < |ps| :: k < ps[i] < |ts|
    decreases |ts| - k, 0, |ps|
  {
    if |ps| == 0 then ""
    else if |ps| == 1 then RefNode(ts, ps[0])
    else RefJoin(ts, k, ps[..|ps| - 1]) + "," + RefNode(ts, ps[|ps| - 1])
  }

  /** The operand as the token list alone describes it: its top-level tokens, joined. */
  function RefString(ts: seq<Token>, root: nat): string {
    RefJoin(ts, -1, KidsIn(ts, root, 0, |ts|))
  }

  /** Token positions as the numbers of the objects made for them (the placeholder for the
      root comes first). */
  function Shift(ps: seq<nat>): (r: seq<nat>)
    ensures |r| == |ps| && forall i | 0 <= i < |ps| :: r[i] == ps[i] + 1
  {
    seq(|ps|, i requires 0 <= i < |ps| => ps[i] + 1)
  }

  /** The forest after the first `m` tokens of a well-formed list: the root's placeholder is
      object 0, token `k` is object `k + 1`, and each object's children are the objects of
      the tokens so far that name it as parent. */
  predicate Mirrors(ts: seq<Token>, root: nat, m: nat, f: Forest)
    requires 0 < m <= |ts|
  {
    && |f.nodes| == m + 1
    && f.removed == map[] && f.minIdx == root
    && root in f.tree && f.tree[root] == 0
    && (forall k | 0 <= k < m :: ts[k].idx in f.tree && f.tree[ts[k].idx] == k + 1)
    && f.nodes[0] == Node(Text(""), false, Shift(KidsIn(ts, root, 0, m)))
    && (forall k | 0 <= k < m ::
          f.nodes[k + 1] == Node(ts[k].value, ts[k].kind == SymbolKind, Shift(KidsIn(ts, ts[k].idx, k + 1, m))))
  }

  lemma MirrorsStart(ts: seq<Token>, root: nat)
    requires WellFormed(ts, root) && |ts| > 0
    ensures Mirrors(ts, root, 1, Build(ts[..1]))
  {
    BuildPrefix(ts, 1);
    assert ts[..0] == [];
    var f := EmptyForest();
    assert Build(ts[..1]) == Place(f, ts[0]);
    assert ts[0].parent == root;
    PlaceAttach(f, ts[0]);
    assert KidsIn(ts, root, 0, 1) == [0];
  }

  /** The parent object of the next token: the placeholder, or the object of the earlier
      token it names. */
  lemma ParentObjectMirrors(ts: seq<Token>, root: nat, m: nat, f: Forest)
    requires WellFormed(ts, root) && 0 < m < |ts| && Mirrors(ts, root, m, f)
    ensures ts[m].parent == root ==> ParentObject(f, ts[m]) == 0
    ensures ts[m].parent != root ==>
              exists j | 0 <= j < m :: ts[j].idx == ts[m].parent && ParentObject(f, ts[m]) == j + 1
    ensures Redirect(f, ts[m].parent) == ts[m].parent && ts[m].parent in f.tree && ts[m].parent >= root
  {
    if ts[m].parent != root {
      var j :| 0 <= j < m && ts[j].idx == ts[m].parent;
      assert f.tree[ts[j].idx] == j + 1;
    }
  }

  lemma ShiftSnoc(ps: seq<nat>, x: nat)
    ensures Shift(ps + [x]) == Shift(ps) + [x + 1]
  {
  }

  /** Objects not adopting the new token keep their children. */
  lemma KidsStay(ts: seq<Token>, p: nat, lo: nat, m: nat)
    requires lo <= m < |ts| && ts[m].parent != p
    ensures KidsIn(ts, p, lo, m + 1) == KidsIn(ts, p, lo, m)
  {
  }

  /** The adopting object gains the new token. */
  lemma KidsGrow(ts: seq<Token>, p: nat, lo: nat, m: nat)
    requires lo <= m < |ts| && ts[m].parent == p
    ensures Shift(KidsIn(ts, p, lo, m + 1)) == Shift(KidsIn(ts, p, lo, m)) + [m + 1]
  {
    ShiftSnoc(KidsIn(ts, p, lo, m), m);
  }

  lemma MirrorsStepTree(ts: seq<Token>, root: nat, m: nat, f: Forest)
    requires WellFormed(ts, root) && 0 < m < |ts| && Mirrors(ts, root, m, f) && Shaped(f)
    ensures var r := Place(f, ts[m]);
            && |r.nodes| == m + 2 && r.removed == map[] && r.minIdx == root
            && root in r.tree && r.tree[root] == 0
            && forall k | 0 <= k < m + 1 :: ts[k].idx in r.tree && r.tree[ts[k].idx] == k + 1
  {
    var t := ts[m];
    var r := Place(f, t);
    PlaceAttach(f, t);
    ParentObjectMirrors(ts, root, m, f);
    assert r.tree == f.tree[t.idx := m + 1];
    forall k | 0 <= k < m + 1 ensures ts[k].idx in r.tree && r.tree[ts[k].idx] == k + 1 {
      if k < m {
        assert ts[k].idx != t.idx;
      }
    }
  }

  lemma MirrorsStepRoot(ts: seq<Token>, root: nat, m: nat, f: Forest)
    requires WellFormed(ts, root) && 0 < m < |ts| && Mirrors(ts, root, m, f) && Shaped(f)
    ensures |Place(f, ts[m]).nodes| == m + 2
    ensures Place(f, ts[m]).nodes[0] == Node(Text(""), false, Shift(KidsIn(ts, root, 0, m + 1)))
  {
    var t := ts[m];
    PlaceAttach(f, t);
    ParentObjectMirrors(ts, root, m, f);
    if t.parent == root {
      KidsGrow(ts, root, 0, m);
    } else {
      KidsStay(ts, root, 0, m);
      assert ParentObject(f, t) != 0;
    }
  }

  /** Placing a token whose parent object exists: the parent object gains it as last child,
      it becomes the newest object, and every other object stays. */
  lemma PlaceUnder(f: Forest, t: Token, i: nat)
    requires Shaped(f) && !IsComma(t) && Redirect(f, t.parent) in f.tree && i <= |f.nodes|
    ensures |Place(f, t).nodes| == |f.nodes| + 1
    ensures i == |f.nodes| ==> Place(f, t).nodes[i] == Node(t.value, t.kind == SymbolKind, [])
    ensures i == ParentObject(f, t) ==>
              Place(f, t).nodes[i] == f.nodes[i].(children := f.nodes[i].children + [|f.nodes|])
    ensures i < |f.nodes| && i != ParentObject(f, t) ==> Place(f, t).nodes[i] == f.nodes[i]
  {
    PlaceAttach(f, t);
  }

  lemma MirrorsStepNode(ts: seq<Token>, root: nat, m: nat, f: Forest, k: nat)
    requires WellFormed(ts, root) && 0 < m < |ts| && Mirrors(ts, root, m, f) && Shaped(f) && k <= m
    ensures |Place(f, ts[m]).nodes| == m + 2
    ensures Place(f, ts[m]).nodes[k + 1]
            == Node(ts[k].value, ts[k].kind == SymbolKind, Shift(KidsIn(ts, ts[k].idx, k + 1, m + 1)))
  {
    if k == m {
      ParentObjectMirrors(ts, root, m, f);
      PlaceUnder(f, ts[m], k + 1);
      assert KidsIn(ts, ts[k].idx, k + 1, m + 1) == [];
    } else {
      MirrorsStepEarlier(ts, root, m, f, k);
    }
  }

  /** The next token hangs under the object of an earlier token exactly when it names that
      token as parent. */
  lemma ParentIsObject(ts: seq<Token>, root: nat, m: nat, f: Forest, k: nat)
    requires WellFormed(ts, root) && 0 < m < |ts| && Mirrors(ts, root, m, f) && k < m
    ensures Redirect(f, ts[m].parent) in f.tree
    ensures ParentObject(f, ts[m]) == k + 1 <==> ts[m].parent == ts[k].idx
  {
    ParentObjectMirrors(ts, root, m, f);
    if ts[m].parent != root {
      var j :| 0 <= j < m && ts[j].idx == ts[m].parent && ParentObject(f, ts[m]) == j + 1;
      assert j == k <==> ts[m].parent == ts[k].idx;
    }
  }

  /** An object made before the step gains the new token as its last child exactly when the
      token names it as parent. */
  lemma MirrorsStepEarlier(ts: seq<Token>, root: nat, m: nat, f: Forest, k: nat)
    requires WellFormed(ts, root) && 0 < m < |ts| && Mirrors(ts, root, m, f) && Shaped(f) && k < m
    ensures |Place(f, ts[m]).nodes| == m + 2
    ensures Place(f, ts[m]).nodes[k + 1]
            == Node(ts[k].value, ts[k].kind == SymbolKind, Shift(KidsIn(ts, ts[k].idx, k + 1, m + 1)))
  {
    var t := ts[m];
    assert !IsComma(t);
    ParentIsObject(ts, root, m, f, k);
    assert f.nodes[k + 1] == Node(ts[k].value, ts[k].kind == SymbolKind, Shift(KidsIn(ts, ts[k].idx, k + 1, m)));
    PlaceUnder(f, t, k + 1);
    if t.parent == ts[k].idx {
      KidsGrow(ts, ts[k].idx, k + 1, m);
    } else {
      KidsStay(ts, ts[k].idx, k + 1, m);
    }
  }



  lemma MirrorsStep(ts: seq<Token>, root: nat, m: nat, f: Forest)
    requires WellFormed(ts, root) && 0 < m < |ts| && Mirrors(ts, root, m, f) && Shaped(f)
    ensures Mirrors(ts, root, m + 1, Place(f, ts[m]))
  {
    var r := Place(f, ts[m]);
    MirrorsStepTree(ts, root, m, f);
    MirrorsStepRoot(ts, root, m, f);
    forall k | 0 <= k < m + 1
      ensures r.nodes[k + 1] == Node(ts[k].value, ts[k].kind == SymbolKind, Shift(KidsIn(ts, ts[k].idx, k + 1, m + 1)))
    {
      MirrorsStepNode(ts, root, m, f, k);
    }
  }

  /** Every prefix of a well-formed list builds its mirror. */
  lemma {:induction false} BuildMirrors(ts: seq<Token>, root: nat, m: nat)
    requires WellFormed(ts, root) && 0 < m <= |ts|
    ensures Mirrors(ts, root, m, Build(ts[..m]))
    decreases m
  {
    if m == 1 {
      MirrorsStart(ts, root);
    } else {
      BuildMirrors(ts, root, m - 1);
      BuildPrefix(ts, m);
      MirrorsStep(ts, root, m - 1, Build(ts[..m - 1]));
    }
  }

  /** Each object renders as its token does from the token list. */
  lemma {:induction false} RenderMirrors(ts: seq<Token>, root: nat, nodes: seq<Node>, k: nat)
    requires Ordered(nodes) && |nodes| == |ts| + 1 && k < |ts|
    requires forall j | 0 <= j < |ts| ::
               nodes[j + 1] == Node(ts[j].value, ts[j].kind == SymbolKind, Shift(KidsIn(ts, ts[j].idx, j + 1, |ts|)))
    ensures Render(nodes, k + 1) == RefNode(ts, k)
    decreases |ts| - k, 1
  {
    var ps := KidsIn(ts, ts[k].idx, k + 1, |ts|);
    RenderChildrenMirrors(ts, root, nodes, k, ps);
  }

  lemma {:induction false} RenderChildrenMirrors(ts: seq<Token>, root: nat, nodes: seq<Node>, k: int, ps: seq<nat>)
    requires Ordered(nodes) && |nodes| == |ts| + 1 && -1 <= k < |ts|
    requires forall j | 0 <= j < |ts| ::
               nodes[j + 1] == Node(ts[j].value, ts[j].kind == SymbolKind, Shift(KidsIn(ts, ts[j].idx, j + 1, |ts|)))
    requires forall i | 0 <= i < |ps| :: k < ps[i] < |ts|
    ensures RenderChildren(nodes, k + 1, Shift(ps)) == RefJoin(ts, k, ps)
    decreases |ts| - k, 0, |ps|
  {
    if |ps| == 1 {
      RenderMirrors(ts, root, nodes, ps[0]);
    } else if |ps| > 1 {
      var n := |ps| - 1;
      assert Shift(ps)[..n] == Shift(ps[..n]);
      RenderChildrenMirrors(ts, root, nodes, k, ps[..n]);
      RenderMirrors(ts, root, nodes, ps[n]);
    }
  }

  /** The placeholder renders as its children joined. */
  lemma RenderPlaceholder(nodes: seq<Node>, ps: seq<nat>)
    requires Ordered(nodes) && |nodes| > 0 && nodes[0] == Node(Text(""), false, ps)
    ensures Render(nodes, 0) == RenderChildren(nodes, 0, ps)
  {
  }

  /** `__str__` on a well-formed token list is the reference rendering: its top-level
      tokens, each around its own children, joined by commas; an empty list renders empty. */
  lemma TreeStringReference(ts: seq<Token>, root: nat)
    requires WellFormed(ts, root)
    ensures TreeString(Build(ts)) == if |ts| == 0 then "" else RefString(ts, root)
  {
    if |ts| > 0 {
      var n := |ts|;
      BuildMirrors(ts, root, n);
      assert ts[..n] == ts;
      var f := Build(ts);
      var top := KidsIn(ts, root, 0, n);
      assert TreeString(f) == Render(f.nodes, 0);
      RenderPlaceholder(f.nodes, Shift(top));
      RenderChildrenMirrors(ts, root, f.nodes, -1, top);
    }
  }
}
