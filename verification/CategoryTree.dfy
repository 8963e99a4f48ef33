/** The category forest built from a flat list in which parents may be missing and parent links
    may form cycles. */
module CategoryTree {
  import opened Basics
  import opened Sorting

  datatype Category = Category(id: Id, parent: Option<Id>, sortOrder: int, name: string, slug: string, allowTjk: bool)

  datatype TreeNode = TreeNode(cat: Category, children: seq<TreeNode>)

  // ---------------------------------------------------------------- sibling order

  predicate TextLe(a: string, b: string) {
    a == "" || (b != "" && (a[0] < b[0] || (a[0] == b[0] && TextLe(a[1..], b[1..]))))
  }

  predicate SiblingLe(a: Category, b: Category) {
    if a.sortOrder != b.sortOrder then a.sortOrder < b.sortOrder
    else if a.name != b.name then TextLe(a.name, b.name)
    else a.id <= b.id
  }

  lemma {:induction false} TextTotal(a: string, b: string)
    ensures TextLe(a, b) || TextLe(b, a)
    ensures TextLe(a, b) && TextLe(b, a) ==> a == b
  {
    if a != "" && b != "" && a[0] == b[0] {
      TextTotal(a[1..], b[1..]);
      assert a == [a[0]] + a[1..] && b == [b[0]] + b[1..];
    }
  }

  lemma {:induction false} TextTransitive(a: string, b: string, c: string)
    requires TextLe(a, b) && TextLe(b, c)
    ensures TextLe(a, c)
  {
    if a != "" && b != "" && c != "" && a[0] == b[0] == c[0] {
      TextTransitive(a[1..], b[1..], c[1..]);
    }
  }

  lemma {:induction false} SiblingsTotallyOrdered()
    ensures TotalOrder(SiblingLe)
  {
    forall x, y
      ensures SiblingLe(x, y) || SiblingLe(y, x)
    {
      TextTotal(x.name, y.name);
    }
    forall x, y, z | SiblingLe(x, y) && SiblingLe(y, z)
      ensures SiblingLe(x, z)
    {
      if x.sortOrder == y.sortOrder == z.sortOrder {
        TextTotal(x.name, y.name);
        TextTotal(y.name, z.name);
        if TextLe(x.name, y.name) && TextLe(y.name, z.name) {
          TextTransitive(x.name, y.name, z.name);
        }
      }
    }
  }

  // ---------------------------------------------------------------- the forest as a function

  function IdsOf(cats: seq<Category>): set<Id> {
    set i | 0 <= i < |cats| :: cats[i].id
  }

  function Children(cats: seq<Category>, parent: Option<Id>): (out: seq<Category>)
    ensures forall c :: c in out <==> c in cats && c.parent == parent
  {
    if cats == [] then []
    else
      var last := cats[|cats| - 1];
      var front := Children(cats[..|cats| - 1], parent);
      assert cats == cats[..|cats| - 1] + [last];
      if last.parent == parent then front + [last] else front
  }

  function Siblings(cats: seq<Category>, parent: Option<Id>): (out: seq<Category>)
    ensures forall c :: c in out <==> c in cats && c.parent == parent
  {
    SortMembers(Children(cats, parent), SiblingLe);
    SortBy(Children(cats, parent), SiblingLe)
  }

  /** A node with everything below it; a child that is already among the ancestors is skipped. */
  function ToNode(cats: seq<Category>, cat: Category, ancestors: set<Id>): TreeNode
    requires cat in cats && cat.id !in ancestors
    decreases IdsOf(cats) - ancestors, 0
  {
    assert cat.id in IdsOf(cats) - ancestors;
    TreeNode(cat, ToNodes(cats, Siblings(cats, Some(cat.id)), ancestors + {cat.id}))
  }

  function ToNodes(cats: seq<Category>, children: seq<Category>, ancestors: set<Id>): seq<TreeNode>
    requires forall c :: c in children ==> c in cats
    decreases IdsOf(cats) - ancestors, |children|
  {
    if children == [] then []
    else if children[0].id in ancestors then ToNodes(cats, children[1..], ancestors)
    else [ToNode(cats, children[0], ancestors)] + ToNodes(cats, children[1..], ancestors)
  }

  function BuildTree(cats: seq<Category>): seq<TreeNode> {
    ToNodes(cats, Siblings(cats, None), {})
  }

  // ---------------------------------------------------------------- the program

  /** Categories by parent, for parents that are present. */
  ghost predicate Grouped(byParent: map<Id, seq<Category>>, cats: seq<Category>, active: set<Id>) {
    forall id {:trigger Children(cats, Some(id))} :: id in active ==>
                 (if id in byParent then byParent[id] else []) == Children(cats, Some(id))
  }

  method Partition(cats: seq<Category>) returns (roots: seq<Category>, byParent: map<Id, seq<Category>>)
    ensures roots == Children(cats, None)
    ensures Grouped(byParent, cats, IdsOf(cats))
  {
    var active: set<Id> := {};
    for i := 0 to |cats|
      invariant active == IdsOf(cats[..i])
    {
      active := active + {cats[i].id};
      assert cats[..i + 1] == cats[..i] + [cats[i]];
      IdsGrow(cats[..i], cats[i]);
    }
    assert cats[..|cats|] == cats;
    roots, byParent := [], map[];
    for i := 0 to |cats|
      invariant roots == Children(cats[..i], None)
      invariant Grouped(byParent, cats[..i], active)
    {
      var c := cats[i];
      ghost var before := cats[..i];
      assert cats[..i + 1] == before + [c];
      ChildrenGrow(before, c);
      if c.parent.None? {
        roots := roots + [c];
        continue;
      }
      if c.parent.value !in active {
        continue;
      }
      var p := c.parent.value;
      assert Children(before, Some(p)) == if p in byParent then byParent[p] else [];
      byParent := byParent[p := (if p in byParent then byParent[p] else []) + [c]];
    }
  }

  lemma {:induction false} IdsGrow(cats: seq<Category>, c: Category)
    ensures IdsOf(cats + [c]) == IdsOf(cats) + {c.id}
  {
    assert forall i :: 0 <= i < |cats| ==> (cats + [c])[i] == cats[i];
    assert (cats + [c])[|cats|] == c;
  }

  lemma {:induction false} ChildrenGrow(cats: seq<Category>, c: Category)
    ensures forall parent :: Children(cats + [c], parent)
              == Children(cats, parent) + (if c.parent == parent then [c] else [])
  {
    assert (cats + [c])[..|cats|] == cats;
  }

  method MakeNode(cats: seq<Category>, cat: Category, byParent: map<Id, seq<Category>>, ancestors: set<Id>)
    returns (node: TreeNode)
    requires Grouped(byParent, cats, IdsOf(cats)) && cat in cats && cat.id !in ancestors
    ensures node == ToNode(cats, cat, ancestors)
    decreases IdsOf(cats) - ancestors, 0
  {
    var next := ancestors + {cat.id};
    assert cat.id in IdsOf(cats);
    assert Children(cats, Some(cat.id)) == if cat.id in byParent then byParent[cat.id] else [];
    var children := SortBy(if cat.id in byParent then byParent[cat.id] else [], SiblingLe);
    assert children == Siblings(cats, Some(cat.id));
    var nodes := MakeNodes(cats, children, byParent, next);
    node := TreeNode(cat, nodes);
  }

  method MakeNodes(cats: seq<Category>, children: seq<Category>, byParent: map<Id, seq<Category>>, ancestors: set<Id>)
    returns (nodes: seq<TreeNode>)
    requires Grouped(byParent, cats, IdsOf(cats)) && forall c :: c in children ==> c in cats
    ensures nodes == ToNodes(cats, children, ancestors)
    decreases IdsOf(cats) - ancestors, 1
  {
    hide ToNode, Grouped;
    nodes := [];
    for i := 0 to |children|
      invariant nodes + ToNodes(cats, children[i..], ancestors) == ToNodes(cats, children, ancestors)
    {
      assert children[i..][1..] == children[i + 1..];
      if children[i].id in ancestors {
        continue;
      }
      var node := MakeNode(cats, children[i], byParent, ancestors);
      nodes := nodes + [node];
    }
  }

  method Build(cats: seq<Category>) returns (nodes: seq<TreeNode>)
    ensures nodes == BuildTree(cats)
  {
    var roots, byParent := Partition(cats);
    roots := SortBy(roots, SiblingLe);
    assert roots == Siblings(cats, None);
    nodes := MakeNodes(cats, roots, byParent, {});
  }

  // ---------------------------------------------------------------- parent chains

  ghost predicate DistinctIds(cats: seq<Category>) {
    forall i, j :: 0 <= i < j < |cats| ==> cats[i].id != cats[j].id
  }

  /** p is the listed parent of c. */
  ghost predicate IsParent(cats: seq<Category>, p: Category, c: Category) {
    p in cats && c in cats && c.parent == Some(p.id)
  }

  /** c's chain of parents is present and reaches a root in d steps. */
  ghost predicate Rooted(cats: seq<Category>, c: Category, d: nat)
    decreases d
  {
    if d == 0 then c in cats && c.parent == None
    else exists p :: IsParent(cats, p, c) && Rooted(cats, p, d - 1)
  }

  lemma {:induction false} SameId(cats: seq<Category>, x: Category, y: Category)
    requires DistinctIds(cats) && x in cats && y in cats && x.id == y.id
    ensures x == y
  {
  }

  /** A category has one depth. */
  lemma {:induction false} OneDepth(cats: seq<Category>, c: Category, d: nat, e: nat)
    requires DistinctIds(cats) && Rooted(cats, c, d) && Rooted(cats, c, e)
    ensures d == e
    decreases d
  {
    if d > 0 && e > 0 {
      var p :| IsParent(cats, p, c) && Rooted(cats, p, d - 1);
      var q :| IsParent(cats, q, c) && Rooted(cats, q, e - 1);
      SameId(cats, p, q);
      OneDepth(cats, p, d - 1, e - 1);
    }
  }

  /** The category k parents above c. */
  ghost predicate Above(cats: seq<Category>, a: Category, c: Category, k: nat)
    decreases k
  {
    if k == 0 then a == c && c in cats
    else exists b :: IsParent(cats, a, b) && Above(cats, b, c, k - 1)
  }

  /** Every ancestor on the path lies strictly higher than depth d. */
  ghost predicate Higher(cats: seq<Category>, ancestors: set<Id>, d: nat) {
    forall id :: id in ancestors ==> exists x, e: nat :: x in cats && x.id == id && e < d && Rooted(cats, x, e)
  }

  /** Coming from a root, no child is ever skipped as a cycle. */
  lemma {:induction false} NoCycleFromRoot(cats: seq<Category>, c: Category, ancestors: set<Id>, d: nat)
    requires DistinctIds(cats) && Rooted(cats, c, d) && Higher(cats, ancestors, d)
    ensures c.id !in ancestors
  {
    if c.id in ancestors {
      var x, e: nat :| x in cats && x.id == c.id && e < d && Rooted(cats, x, e);
      RootedIsListed(cats, c, d);
      SameId(cats, x, c);
      OneDepth(cats, c, d, e);
    }
  }

  lemma {:induction false} RootedIsListed(cats: seq<Category>, c: Category, d: nat)
    requires Rooted(cats, c, d)
    ensures c in cats
  {
  }

  lemma {:induction false} HigherNext(cats: seq<Category>, cat: Category, ancestors: set<Id>, d: nat)
    requires Rooted(cats, cat, d) && Higher(cats, ancestors, d)
    ensures Higher(cats, ancestors + {cat.id}, d + 1)
  {
    RootedIsListed(cats, cat, d);
    forall id | id in ancestors + {cat.id}
      ensures exists x, e: nat :: x in cats && x.id == id && e < d + 1 && Rooted(cats, x, e)
    {
      if id in ancestors {
        var x, e: nat :| x in cats && x.id == id && e < d && Rooted(cats, x, e);
        assert e < d + 1;
      }
    }
  }

  lemma {:induction false} ChildRooted(cats: seq<Category>, cat: Category, c: Category, d: nat)
    requires Rooted(cats, cat, d) && c in Siblings(cats, Some(cat.id))
    ensures Rooted(cats, c, d + 1) && IsParent(cats, cat, c)
  {
    RootedIsListed(cats, cat, d);
    assert IsParent(cats, cat, c);
  }

  // ---------------------------------------------------------------- what the forest contains

  function Count(node: TreeNode, id: Id): nat {
    (if node.cat.id == id then 1 else 0) + CountAll(node.children, id)
  }

  function CountAll(nodes: seq<TreeNode>, id: Id): nat {
    if nodes == [] then 0 else Count(nodes[0], id) + CountAll(nodes[1..], id)
  }

  /** All listed categories of that parent, in sibling order, each with its own subtree complete. */
  ghost predicate Complete(cats: seq<Category>, node: TreeNode) {
    HasCats(node.children, Siblings(cats, Some(node.cat.id))) && forall n :: n in node.children ==> Complete(cats, n)
  }

  predicate HasCats(nodes: seq<TreeNode>, cats: seq<Category>) {
    |nodes| == |cats| && forall i :: 0 <= i < |nodes| ==> nodes[i].cat == cats[i]
  }

  /** children are all at depth d, under these ancestors. */
  ghost predicate AtDepth(cats: seq<Category>, children: seq<Category>, ancestors: set<Id>, d: nat) {
    Higher(cats, ancestors, d) && forall c :: c in children ==> Rooted(cats, c, d) && c in cats
  }

  lemma {:induction false} NodeComplete(cats: seq<Category>, cat: Category, ancestors: set<Id>, d: nat)
    requires DistinctIds(cats) && Rooted(cats, cat, d) && Higher(cats, ancestors, d) && cat in cats
              && cat.id !in ancestors
    ensures ToNode(cats, cat, ancestors).cat == cat && Complete(cats, ToNode(cats, cat, ancestors))
    decreases IdsOf(cats) - ancestors, 0
  {
    assert cat.id in IdsOf(cats) - ancestors;
    BelowIsAtDepth(cats, cat, ancestors, d);
    NodesComplete(cats, Siblings(cats, Some(cat.id)), ancestors + {cat.id}, d + 1);
  }

  lemma {:induction false} BelowIsAtDepth(cats: seq<Category>, cat: Category, ancestors: set<Id>, d: nat)
    requires Rooted(cats, cat, d) && Higher(cats, ancestors, d)
    ensures AtDepth(cats, Siblings(cats, Some(cat.id)), ancestors + {cat.id}, d + 1)
  {
    HigherNext(cats, cat, ancestors, d);
    forall c | c in Siblings(cats, Some(cat.id))
      ensures Rooted(cats, c, d + 1)
    {
      ChildRooted(cats, cat, c, d);
    }
  }

  lemma {:induction false} NodesComplete(cats: seq<Category>, children: seq<Category>, ancestors: set<Id>, d: nat)
    requires DistinctIds(cats) && AtDepth(cats, children, ancestors, d)
    ensures HasCats(ToNodes(cats, children, ancestors), children)
    ensures forall n :: n in ToNodes(cats, children, ancestors) ==> Complete(cats, n)
    decreases IdsOf(cats) - ancestors, |children|
  {
    if children != [] {
      NoCycleFromRoot(cats, children[0], ancestors, d);
      NodeComplete(cats, children[0], ancestors, d);
      NodesComplete(cats, children[1..], ancestors, d);
      var rest := ToNodes(cats, children[1..], ancestors);
      assert ToNodes(cats, children, ancestors) == [ToNode(cats, children[0], ancestors)] + rest;
    }
  }

  /** Text order, character by character; a prefix comes first. */
  ghost predicate TextBefore(a: string, b: string) {
    exists k :: 0 <= k <= |a| && k <= |b| && a[..k] == b[..k] && (k == |a| || (k < |b| && a[k] < b[k]))
  }

  lemma {:induction false} TextLeMeans(a: string, b: string)
    requires TextLe(a, b)
    ensures TextBefore(a, b)
  {
    if a != "" && b != "" && a[0] == b[0] {
      TextLeMeans(a[1..], b[1..]);
      var k :| 0 <= k <= |a[1..]| && k <= |b[1..]| && a[1..][..k] == b[1..][..k]
               && (k == |a[1..]| || (k < |b[1..]| && a[1..][k] < b[1..][k]));
      assert a[..k + 1] == [a[0]] + a[1..][..k] && b[..k + 1] == [b[0]] + b[1..][..k];
      assert a[..k + 1] == b[..k + 1];
    } else {
      assert a[..0] == b[..0];
    }
  }

  /** Siblings stand by sort order, then by name, then by id. */
  lemma {:induction false} SiblingsInOrder(cats: seq<Category>, parent: Option<Id>, i: nat, j: nat)
    requires i < j < |Siblings(cats, parent)|
    ensures var a, b := Siblings(cats, parent)[i], Siblings(cats, parent)[j];
            a.sortOrder < b.sortOrder
            || (a.sortOrder == b.sortOrder && a.name != b.name && TextBefore(a.name, b.name))
            || (a.sortOrder == b.sortOrder && a.name == b.name && a.id <= b.id)
  {
    var a, b := Siblings(cats, parent)[i], Siblings(cats, parent)[j];
    SiblingsTotallyOrdered();
    SortOrdered(Children(cats, parent), SiblingLe);
    assert SiblingLe(a, b);
    if a.sortOrder == b.sortOrder && a.name != b.name {
      TextLeMeans(a.name, b.name);
    }
  }

  /** The forest is complete: its roots are all root categories, and below every node hang all of its
      children in sibling order. */
  lemma {:induction false} ForestComplete(cats: seq<Category>)
    requires DistinctIds(cats)
    ensures HasCats(BuildTree(cats), Siblings(cats, None)) && Ordered(Siblings(cats, None), SiblingLe)
    ensures forall n :: n in BuildTree(cats) ==> Complete(cats, n)
    ensures forall id :: Ordered(Siblings(cats, Some(id)), SiblingLe)
  {
    RootsAtDepth(cats);
    NodesComplete(cats, Siblings(cats, None), {}, 0);
    SiblingsTotallyOrdered();
    SortOrdered(Children(cats, None), SiblingLe);
    forall id
      ensures Ordered(Siblings(cats, Some(id)), SiblingLe)
    {
      SortOrdered(Children(cats, Some(id)), SiblingLe);
    }
  }

  lemma {:induction false} RootsAtDepth(cats: seq<Category>)
    ensures AtDepth(cats, Siblings(cats, None), {}, 0)
  {
  }

  // ---------------------------------------------------------------- each exactly once

  lemma {:induction false} ChildrenDistinct(cats: seq<Category>, parent: Option<Id>)
    requires DistinctIds(cats)
    ensures DistinctIds(Children(cats, parent))
  {
    if cats != [] {
      var front := cats[..|cats| - 1];
      ChildrenDistinct(front, parent);
      var c := Children(front, parent);
      assert forall x :: x in c ==> x in front;
      assert forall i :: 0 <= i < |c| ==> c[i] in front;
    }
  }

  lemma {:induction false} SiblingsDistinct(cats: seq<Category>, parent: Option<Id>)
    requires DistinctIds(cats)
    ensures DistinctIds(Siblings(cats, parent))
  {
    var c := Children(cats, parent);
    ChildrenDistinct(cats, parent);
    SortDistinct(c, SiblingLe);
    SortMembers(c, SiblingLe);
    var s := Siblings(cats, parent);
    forall i, j | 0 <= i < j < |s|
      ensures s[i].id != s[j].id
    {
      assert s[i] in c && s[j] in c;
    }
  }

  /** u is the member of t's parent chain at depth d, so the subtree of a category at depth d holds t
      exactly when that category is u. */
  ghost predicate LineAt(cats: seq<Category>, t: Category, u: Category, d: nat, dt: nat) {
    d <= dt && Rooted(cats, u, d) && Rooted(cats, t, dt) && Above(cats, u, t, dt - d)
  }

  lemma {:induction false} NextInLine(
    cats: seq<Category>, t: Category, u: Category, d: nat, dt: nat) returns (v: Category)
    requires DistinctIds(cats) && LineAt(cats, t, u, d, dt) && d < dt
    ensures LineAt(cats, t, v, d + 1, dt) && IsParent(cats, u, v)
  {
    v :| IsParent(cats, u, v) && Above(cats, v, t, dt - d - 1);
  }

  lemma {:induction false} CountNode(
    cats: seq<Category>, cat: Category, ancestors: set<Id>, d: nat, t: Category, u: Category, dt: nat)
    requires DistinctIds(cats) && Rooted(cats, cat, d) && Higher(cats, ancestors, d) && cat in cats
              && cat.id !in ancestors
    requires LineAt(cats, t, u, d, dt)
    ensures Count(ToNode(cats, cat, ancestors), t.id) == if cat == u then 1 else 0
    decreases IdsOf(cats) - ancestors, 0, 1
  {
    SameDepthSameId(cats, cat, d, t, dt);
    CountBelow(cats, cat, ancestors, d, t, u, dt);
  }

  lemma {:induction false} CountBelow(
    cats: seq<Category>, cat: Category, ancestors: set<Id>, d: nat, t: Category, u: Category, dt: nat)
    requires DistinctIds(cats) && Rooted(cats, cat, d) && Higher(cats, ancestors, d) && cat in cats
              && cat.id !in ancestors
    requires LineAt(cats, t, u, d, dt)
    ensures CountAll(ToNodes(cats, Siblings(cats, Some(cat.id)), ancestors + {cat.id}), t.id)
            == if d < dt && cat == u then 1 else 0
    decreases IdsOf(cats) - ancestors, 0, 0
  {
    assert cat.id in IdsOf(cats) - ancestors;
    var kids := Siblings(cats, Some(cat.id));
    BelowIsAtDepth(cats, cat, ancestors, d);
    if d == dt {
      CountDeeper(cats, kids, ancestors + {cat.id}, d + 1, t, dt);
    } else {
      var v := NextInLine(cats, t, u, d, dt);
      SiblingsDistinct(cats, Some(cat.id));
      CountNodes(cats, kids, ancestors + {cat.id}, d + 1, t, v, dt);
      InKids(cats, cat, u, v, d);
    }
  }

  lemma {:induction false} SameDepthSameId(cats: seq<Category>, c: Category, d: nat, t: Category, dt: nat)
    requires DistinctIds(cats) && Rooted(cats, c, d) && Rooted(cats, t, dt)
    ensures c.id == t.id <==> c == t
    ensures c == t ==> d == dt
  {
    RootedIsListed(cats, c, d);
    RootedIsListed(cats, t, dt);
    if c.id == t.id {
      SameId(cats, c, t);
      OneDepth(cats, c, d, dt);
    }
  }

  lemma {:induction false} InKids(cats: seq<Category>, cat: Category, u: Category, v: Category, d: nat)
    requires DistinctIds(cats) && cat in cats && IsParent(cats, u, v)
    ensures v in Siblings(cats, Some(cat.id)) <==> cat == u
  {
    if v in Siblings(cats, Some(cat.id)) {
      SameId(cats, cat, u);
    }
  }

  lemma {:induction false} CountNodes(
    cats: seq<Category>, children: seq<Category>, ancestors: set<Id>, d: nat, t: Category, u: Category, dt: nat)
    requires DistinctIds(cats) && DistinctIds(children) && AtDepth(cats, children, ancestors, d)
    requires LineAt(cats, t, u, d, dt)
    ensures CountAll(ToNodes(cats, children, ancestors), t.id) == if u in children then 1 else 0
    decreases IdsOf(cats) - ancestors, |children|, 2
  {
    if children != [] {
      NoCycleFromRoot(cats, children[0], ancestors, d);
      CountNode(cats, children[0], ancestors, d, t, u, dt);
      CountNodes(cats, children[1..], ancestors, d, t, u, dt);
      assert children == [children[0]] + children[1..];
    }
  }

  /** Nothing at or above depth dt hangs below depth dt. */
  lemma {:induction false} CountDeeper(
    cats: seq<Category>, children: seq<Category>, ancestors: set<Id>, d: nat, t: Category, dt: nat)
    requires DistinctIds(cats) && AtDepth(cats, children, ancestors, d) && Rooted(cats, t, dt) && dt < d
    ensures CountAll(ToNodes(cats, children, ancestors), t.id) == 0
    decreases IdsOf(cats) - ancestors, |children|
  {
    if children != [] {
      var c := children[0];
      NoCycleFromRoot(cats, c, ancestors, d);
      assert c.id in IdsOf(cats) - ancestors;
      BelowIsAtDepth(cats, c, ancestors, d);
      CountDeeper(cats, Siblings(cats, Some(c.id)), ancestors + {c.id}, d + 1, t, dt);
      CountDeeper(cats, children[1..], ancestors, d, t, dt);
      SameDepthSameId(cats, c, d, t, dt);
    }
  }

  lemma {:induction false} LineFromRoot(cats: seq<Category>, t: Category, dt: nat) returns (u: Category)
    requires Rooted(cats, t, dt)
    ensures LineAt(cats, t, u, 0, dt)
  {
    u := LineUp(cats, t, t, dt, dt);
  }

  lemma {:induction false} LineUp(cats: seq<Category>, t: Category, u: Category, d: nat, dt: nat) returns (r: Category)
    requires d <= dt && Rooted(cats, u, d) && Rooted(cats, t, dt) && (d == dt ==> u == t)
    requires d < dt ==> Above(cats, u, t, dt - d)
    ensures LineAt(cats, t, r, 0, dt)
    decreases d
  {
    RootedIsListed(cats, t, dt);
    assert Above(cats, u, t, dt - d);
    if d == 0 {
      r := u;
    } else {
      var p :| IsParent(cats, p, u) && Rooted(cats, p, d - 1);
      assert Above(cats, p, t, dt - (d - 1));
      r := LineUp(cats, t, p, d - 1, dt);
    }
  }

  /** A category whose parent chain is present up to a root is in the forest exactly once. */
  lemma {:induction false} RootedOnce(cats: seq<Category>, t: Category, d: nat)
    requires DistinctIds(cats) && Rooted(cats, t, d)
    ensures CountAll(BuildTree(cats), t.id) == 1
  {
    var u := LineFromRoot(cats, t, d);
    RootsAtDepth(cats);
    SiblingsDistinct(cats, None);
    CountNodes(cats, Siblings(cats, None), {}, 0, t, u, d);
  }

  lemma {:induction false} OnlyRooted(cats: seq<Category>, children: seq<Category>, ancestors: set<Id>, d: nat, id: Id)
    requires DistinctIds(cats) && AtDepth(cats, children, ancestors, d)
    requires forall x, e: nat :: x in cats && x.id == id ==> !Rooted(cats, x, e)
    ensures CountAll(ToNodes(cats, children, ancestors), id) == 0
    decreases IdsOf(cats) - ancestors, |children|
  {
    if children != [] {
      var c := children[0];
      NoCycleFromRoot(cats, c, ancestors, d);
      assert c.id in IdsOf(cats) - ancestors;
      BelowIsAtDepth(cats, c, ancestors, d);
      OnlyRooted(cats, Siblings(cats, Some(c.id)), ancestors + {c.id}, d + 1, id);
      OnlyRooted(cats, children[1..], ancestors, d, id);
    }
  }

  /** Orphans, members of cycles and whatever hangs below them are nowhere in the forest. */
  lemma {:induction false} UnrootedNowhere(cats: seq<Category>, id: Id)
    requires DistinctIds(cats)
    requires forall x, e: nat :: x in cats && x.id == id ==> !Rooted(cats, x, e)
    ensures CountAll(BuildTree(cats), id) == 0
  {
    RootsAtDepth(cats);
    OnlyRooted(cats, Siblings(cats, None), {}, 0, id);
  }
}
