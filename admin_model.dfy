/**
 * The admin module's role predicates and menu tree of
 * contrib/admin/model.go. Menus are ordered by parent, then sort key,
 * then id; `AsNode` sorts the list in place and links every menu under
 * its parent, turning "action" menus into actions of the parent. The
 * tree's nodes live in an arena: `nodes[i]` is the node built for the
 * i-th menu of the sorted list, and children are arena positions.
 */
module AdminModel {

  // ---------------------------------------------------------------------
  // Roles
  // ---------------------------------------------------------------------

  datatype Role = Role(id: nat, group: string, key: string, name: string)

  const CleanFoodGroup: string := "cleanfood"

  /** `Roles.ContainsKey`: true as soon as one role carries the key. */
  method ContainsKey(rs: seq<Role>, key: string) returns (r: bool)
    ensures r <==> exists i :: 0 <= i < |rs| && rs[i].key == key
  {
    for i := 0 to |rs|
      invariant forall j :: 0 <= j < i ==> rs[j].key != key
    {
      if rs[i].key == key {
        return true;
      }
    }
    return false;
  }

  /** `Roles.BelongGroup`: true as soon as one role belongs to the group. */
  method BelongGroup(rs: seq<Role>, group: string) returns (r: bool)
    ensures r <==> exists i :: 0 <= i < |rs| && rs[i].group == group
  {
    for i := 0 to |rs|
      invariant forall j :: 0 <= j < i ==> rs[j].group != group
    {
      if rs[i].group == group {
        return true;
      }
    }
    return false;
  }

  /** `Roles.IsCFDGroup`: membership of the "cleanfood" group. */
  method IsCFDGroup(rs: seq<Role>) returns (r: bool)
    ensures r <==> exists i :: 0 <= i < |rs| && rs[i].group == CleanFoodGroup
  {
    r := BelongGroup(rs, CleanFoodGroup);
  }

  // ---------------------------------------------------------------------
  // Menus and their order
  // ---------------------------------------------------------------------

  datatype Menu = Menu(id: nat, parentID: nat, name: string, typ: string, url: string, sort: int)

  datatype Action = Action(id: string, name: string)

  /** A tree node; `children` are arena positions, `actions` the parent's permitted actions. */
  datatype Node = Node(id: nat, parentID: nat, name: string, typ: string, url: string,
                       children: seq<nat>, actions: seq<Action>)

  /** `MenuNode.isAction`, read off the menu the node was built from. */
  predicate IsAction(m: Menu) {
    m.typ == "action"
  }

  /** `MenuNode.asAction`: the action is identified by the menu's URL. */
  function AsAction(m: Menu): Action {
    Action(m.url, m.name)
  }

  /** `MenuList.Less`: by parent id, then sort key, then id. */
  predicate Less(a: Menu, b: Menu) {
    if a.parentID == b.parentID then
      if a.sort == b.sort then a.id < b.id else a.sort < b.sort
    else a.parentID < b.parentID
  }

  /** `Less` is a strict order, total on menus with different ids. */
  lemma LessIsStrictTotalOrder(a: Menu, b: Menu, c: Menu)
    ensures !Less(a, a)
    ensures Less(a, b) ==> !Less(b, a)
    ensures Less(a, b) && Less(b, c) ==> Less(a, c)
    ensures a.id != b.id ==> Less(a, b) || Less(b, a)
  {
  }

  /** The non-strict companion: `a` may come before `b`. */
  predicate Le(a: Menu, b: Menu) {
    !Less(b, a)
  }

  ghost predicate Sorted(s: seq<Menu>) {
    forall x, y :: 0 <= x < y < |s| ==> Le(s[x], s[y])
  }

  ghost predicate DistinctIds(s: seq<Menu>) {
    forall x, y :: 0 <= x < y < |s| ==> s[x].id != s[y].id
  }

  lemma LeTransitive(a: Menu, b: Menu, c: Menu)
    requires Le(a, b) && Le(b, c)
    ensures Le(a, c)
  {
  }

  /** `sort.Sort(ml)`: the list is put in `Le` order; nothing is added or lost. */
  method SortMenus(a: array<Menu>)
    modifies a
    ensures Sorted(a[..])
    ensures multiset(a[..]) == multiset(old(a[..]))
  {
    for i := 0 to a.Length
      invariant forall x, y :: 0 <= x < y < i ==> Le(a[x], a[y])
      invariant multiset(a[..]) == multiset(old(a[..]))
    {
      var j := i;
      while j > 0 && Less(a[j], a[j - 1])
        invariant 0 <= j <= i
        invariant multiset(a[..]) == multiset(old(a[..]))
        invariant forall x, y :: 0 <= x < y <= i && x != j && y != j ==> Le(a[x], a[y])
        invariant forall y :: j < y <= i ==> Le(a[j], a[y])
      {
        SwapAdjacent(a, j);
        j := j - 1;
      }
      forall x, y | 0 <= x < y <= i
        ensures Le(a[x], a[y])
      {
        if y == j && x < j - 1 {
          LeTransitive(a[x], a[j - 1], a[y]);
        }
      }
    }
  }

  /** Exchanges the menus at `j - 1` and `j`. */
  method SwapAdjacent(a: array<Menu>, j: int)
    requires 0 < j < a.Length
    modifies a
    ensures a[..] == old(a[..])[j - 1 := old(a[j])][j := old(a[j - 1])]
    ensures multiset(a[..]) == multiset(old(a[..]))
  {
    a[j], a[j - 1] := a[j - 1], a[j];
  }

  // ---------------------------------------------------------------------
  // Building the tree
  // ---------------------------------------------------------------------

  /** The builder's state: the root, the arena, id -> latest position, pending children per parent id. */
  datatype Tree = Tree(root: Node, nodes: seq<Node>, mapping: map<nat, nat>, noParent: map<nat, seq<nat>>)

  const EmptyRoot: Node := Node(0, 0, "", "", "", [], [])

  function NewNode(m: Menu): Node {
    Node(m.id, m.parentID, m.name, m.typ, m.url, [], [])
  }

  /** Links menu `j` under `parent`: as an action when it is one, otherwise as a child. */
  function Attach(s: seq<Menu>, parent: Node, j: nat): Node
    requires j < |s|
  {
    if IsAction(s[j]) then parent.(actions := parent.actions + [AsAction(s[j])])
    else parent.(children := parent.children + [j])
  }

  /** Links the pending menus `js`, in order, under `parent`. */
  function Adopt(s: seq<Menu>, parent: Node, js: seq<nat>): Node
    requires forall t :: 0 <= t < |js| ==> js[t] < |s|
    decreases |js|
  {
    if js == [] then parent else Attach(s, Adopt(s, parent, js[..|js| - 1]), js[|js| - 1])
  }

  /** The positions below `k` are the only ones the state refers to. */
  ghost predicate Wf(s: seq<Menu>, t: Tree, k: nat) {
    && k <= |s|
    && |t.nodes| == k
    && (forall p :: p in t.mapping ==> t.mapping[p] < k)
    && (forall p, x :: p in t.noParent && 0 <= x < |t.noParent[p]| ==> t.noParent[p][x] < k)
  }

  /** The first half of an iteration of the `AsNode` loop: the node for menu `k`, with what was pending for it. */
  function Taken(s: seq<Menu>, t: Tree, k: nat): (r: Tree)
    requires k < |s| && Wf(s, t, k)
    ensures |r.nodes| == k + 1
    ensures forall p :: p in r.mapping ==> r.mapping[p] <= k
    ensures forall p, x :: p in r.noParent && 0 <= x < |r.noParent[p]| ==> r.noParent[p][x] < k
  {
    var m := s[k];
    var mn := if m.id in t.noParent then Adopt(s, NewNode(m), t.noParent[m.id]) else NewNode(m);
    Tree(t.root, t.nodes + [mn], t.mapping[m.id := k], t.noParent - {m.id})
  }

  /** The second half: menu `k` is linked under the root, under its parent, or left pending. */
  function Linked(s: seq<Menu>, t: Tree, k: nat): (r: Tree)
    requires k < |s| && |t.nodes| == k + 1
    requires forall p :: p in t.mapping ==> t.mapping[p] <= k
  {
    var m := s[k];
    if m.parentID == 0 then
      t.(root := t.root.(children := t.root.children + [k]))
    else if m.parentID in t.mapping then
      var p := t.mapping[m.parentID];
      t.(nodes := t.nodes[p := Attach(s, t.nodes[p], k)])
    else
      var np := t.noParent;
      t.(noParent := np[m.parentID := (if m.parentID in np then np[m.parentID] else []) + [k]])
  }

  /** One iteration of the `AsNode` loop, for the menu at position `k`. */
  function Step(s: seq<Menu>, t: Tree, k: nat): (r: Tree)
    requires k < |s| && Wf(s, t, k)
    ensures Wf(s, r, k + 1)
  {
    Linked(s, Taken(s, t, k), k)
  }

  /** The state after the first `k` menus. */
  function Build(s: seq<Menu>, k: nat): (r: Tree)
    requires k <= |s|
    ensures Wf(s, r, k)
    decreases k
  {
    if k == 0 then Tree(EmptyRoot, [], map[], map[]) else Step(s, Build(s, k - 1), k - 1)
  }

  /**
   * `MenuList.AsNode`: sorts the list in place, then builds the tree. With
   * distinct ids (primary keys) the result has the shape `Shape` states.
   */
  method AsNode(a: array<Menu>) returns (root: Node, nodes: seq<Node>)
    modifies a
    ensures Sorted(a[..]) && multiset(a[..]) == multiset(old(a[..]))
    ensures root == Build(a[..], a.Length).root && nodes == Build(a[..], a.Length).nodes
    ensures DistinctIds(a[..]) ==> Shape(a[..], a.Length, Build(a[..], a.Length))
  {
    SortMenus(a);
    var s := a[..];
    root, nodes := BuildNodes(s);
    if DistinctIds(s) {
      BuildShape(s, |s|);
    }
  }

  /** The loop of `AsNode` over the sorted menus: one `Step` per menu. */
  method BuildNodes(s: seq<Menu>) returns (root: Node, nodes: seq<Node>)
    ensures root == Build(s, |s|).root && nodes == Build(s, |s|).nodes
  {
    var mapping: map<nat, nat> := map[];
    var noParent: map<nat, seq<nat>> := map[];
    root := EmptyRoot;
    nodes := [];
    for k := 0 to |s|
      invariant Build(s, k) == Tree(root, nodes, mapping, noParent)
    {
      ghost var t := Tree(root, nodes, mapping, noParent);
      var m := s[k];
      var mn := NewNode(m);
      if m.id in noParent {
        mn := AdoptAll(s, mn, noParent[m.id]);
        noParent := noParent - {m.id};
      }
      mapping := mapping[m.id := k];
      nodes := nodes + [mn];
      assert Tree(root, nodes, mapping, noParent) == Taken(s, t, k);
      root, nodes, noParent := LinkMenu(s, k, root, nodes, mapping, noParent);
    }
  }

  /** The rest of an iteration of the `AsNode` loop: links menu `k` under the root, its parent, or the pending list. */
  method LinkMenu(s: seq<Menu>, k: nat, root: Node, nodes: seq<Node>, mapping: map<nat, nat>, noParent: map<nat, seq<nat>>)
    returns (root': Node, nodes': seq<Node>, noParent': map<nat, seq<nat>>)
    requires k < |s| && |nodes| == k + 1
    requires forall p :: p in mapping ==> mapping[p] <= k
    ensures Tree(root', nodes', mapping, noParent') == Linked(s, Tree(root, nodes, mapping, noParent), k)
  {
    root', nodes', noParent' := root, nodes, noParent;
    var m := s[k];
    if m.parentID == 0 {
      root' := root.(children := root.children + [k]);
    } else if m.parentID in mapping {
      var p := mapping[m.parentID];
      if IsAction(m) {
        nodes' := nodes[p := nodes[p].(actions := nodes[p].actions + [AsAction(m)])];
      } else {
        nodes' := nodes[p := nodes[p].(children := nodes[p].children + [k])];
      }
    } else {
      var pending := if m.parentID in noParent then noParent[m.parentID] else [];
      noParent' := noParent[m.parentID := pending + [k]];
    }
  }

  /** The inner loop of `AsNode`: links the pending menus `p`, in order, under `n`. */
  method AdoptAll(s: seq<Menu>, n: Node, p: seq<nat>) returns (mn: Node)
    requires forall t :: 0 <= t < |p| ==> p[t] < |s|
    ensures mn == Adopt(s, n, p)
  {
    mn := n;
    for x := 0 to |p|
      invariant mn == Adopt(s, n, p[..x])
    {
      assert p[..x + 1][..x] == p[..x];
      var pn := p[x];
      if IsAction(s[pn]) {
        mn := mn.(actions := mn.actions + [AsAction(s[pn])]);
      } else {
        mn := mn.(children := mn.children + [pn]);
      }
    }
    assert p[..|p|] == p;
  }

  // ---------------------------------------------------------------------
  // The shape of the tree, for distinct ids
  // ---------------------------------------------------------------------

  /** Menu `c` is a child node of the menu with id `id`. */
  predicate IsChild(c: Menu, id: nat) {
    id != 0 && c.parentID == id && !IsAction(c)
  }

  /** Menu `c` is an action of the menu with id `id`. */
  predicate IsActionOf(c: Menu, id: nat) {
    id != 0 && c.parentID == id && IsAction(c)
  }

  /** Positions below `m` of the child nodes of id `id`, ascending. */
  function Kids(s: seq<Menu>, m: nat, id: nat): (r: seq<nat>)
    requires m <= |s|
    ensures forall t :: 0 <= t < |r| ==> r[t] < m
    decreases m
  {
    if m == 0 then [] else Kids(s, m - 1, id) + (if IsChild(s[m - 1], id) then [m - 1] else [])
  }

  /** The actions, from positions below `m`, of id `id`, in position order. */
  function Acts(s: seq<Menu>, m: nat, id: nat): (r: seq<Action>)
    requires m <= |s|
    decreases m
  {
    if m == 0 then [] else Acts(s, m - 1, id) + (if IsActionOf(s[m - 1], id) then [AsAction(s[m - 1])] else [])
  }

  /** Positions below `m` of the top-level menus, actions included. */
  function RootKids(s: seq<Menu>, m: nat): (r: seq<nat>)
    requires m <= |s|
    ensures forall t :: 0 <= t < |r| ==> r[t] < m
    decreases m
  {
    if m == 0 then [] else RootKids(s, m - 1) + (if s[m - 1].parentID == 0 then [m - 1] else [])
  }

  /** Positions below `m` whose parent id is `p`, of any type. */
  function Pending(s: seq<Menu>, m: nat, p: nat): (r: seq<nat>)
    requires m <= |s|
    ensures forall t :: 0 <= t < |r| ==> r[t] < m
    decreases m
  {
    if m == 0 then [] else Pending(s, m - 1, p) + (if s[m - 1].parentID == p then [m - 1] else [])
  }

  /** The node of the menu at position `i` once the first `m` menus are linked. */
  function ShapeAt(s: seq<Menu>, m: nat, i: nat): Node
    requires i < |s| && m <= |s|
  {
    Node(s[i].id, s[i].parentID, s[i].name, s[i].typ, s[i].url, Kids(s, m, s[i].id), Acts(s, m, s[i].id))
  }

  /** Id `p` belongs to none of the first `m` menus. */
  ghost predicate Absent(s: seq<Menu>, m: nat, p: nat)
    requires m <= |s|
  {
    forall i :: 0 <= i < m ==> s[i].id != p
  }

  /** Every node holds its child menus and its actions, whether they came before or after it. */
  ghost predicate NodesShaped(s: seq<Menu>, m: nat, nodes: seq<Node>)
    requires m <= |s|
  {
    |nodes| == m && forall i :: 0 <= i < m ==> nodes[i] == ShapeAt(s, m, i)
  }

  /** The mapping sends every id seen to its (only) position, and knows no other id. */
  ghost predicate MappingShaped(s: seq<Menu>, m: nat, mapping: map<nat, nat>)
    requires m <= |s|
  {
    && (forall i :: 0 <= i < m ==> s[i].id in mapping && mapping[s[i].id] == i)
    && (forall p :: p in mapping ==> !Absent(s, m, p))
  }

  /** The pending lists hold, per missing parent id, exactly the menus waiting for it. */
  ghost predicate PendingShaped(s: seq<Menu>, m: nat, noParent: map<nat, seq<nat>>)
    requires m <= |s|
  {
    && (forall p :: p in noParent ==> p != 0 && Absent(s, m, p) && noParent[p] == Pending(s, m, p))
    && (forall p :: p != 0 && Absent(s, m, p) && p !in noParent ==> Pending(s, m, p) == [])
  }

  /** The state after `m` menus; the root holds the top-level menus, actions included. */
  ghost predicate Shape(s: seq<Menu>, m: nat, t: Tree)
    requires m <= |s|
  {
    && t.root == EmptyRoot.(children := RootKids(s, m))
    && NodesShaped(s, m, t.nodes)
    && MappingShaped(s, m, t.mapping)
    && PendingShaped(s, m, t.noParent)
  }

  lemma {:induction false} AdoptSnoc(s: seq<Menu>, parent: Node, js: seq<nat>, j: nat)
    requires forall t :: 0 <= t < |js| ==> js[t] < |s|
    requires j < |s|
    ensures Adopt(s, parent, js + [j]) == Attach(s, Adopt(s, parent, js), j)
  {
    assert (js + [j])[..|js|] == js;
  }

  /** Adopting the menus pending for `p` links exactly the children and actions of `p`. */
  lemma {:induction false} AdoptPending(s: seq<Menu>, m: nat, n: Node, p: nat)
    requires m <= |s| && p != 0
    ensures Adopt(s, n, Pending(s, m, p)) == Adopted(s, m, n, p)
    decreases m
  {
    if m > 0 {
      AdoptPending(s, m - 1, n, p);
      var P := Pending(s, m - 1, p);
      if s[m - 1].parentID == p {
        assert Pending(s, m, p) == P + [m - 1];
        AdoptSnoc(s, n, P, m - 1);
        AdoptedSnoc(s, m, n, p);
      } else {
        assert Pending(s, m, p) == P;
        assert Adopted(s, m, n, p) == Adopted(s, m - 1, n, p);
      }
    }
  }

  /** Node `n` with the children and the actions of `p` among the first `m` menus appended. */
  function Adopted(s: seq<Menu>, m: nat, n: Node, p: nat): Node
    requires m <= |s|
  {
    n.(children := n.children + Kids(s, m, p), actions := n.actions + Acts(s, m, p))
  }

  lemma AdoptedSnoc(s: seq<Menu>, m: nat, n: Node, p: nat)
    requires 0 < m <= |s| && p != 0 && s[m - 1].parentID == p
    ensures Adopted(s, m, n, p) == Attach(s, Adopted(s, m - 1, n, p), m - 1)
  {
    var c := s[m - 1];
    if IsAction(c) {
      assert n.actions + Acts(s, m, p) == (n.actions + Acts(s, m - 1, p)) + [AsAction(c)];
    } else {
      assert n.children + Kids(s, m, p) == (n.children + Kids(s, m - 1, p)) + [m - 1];
    }
  }

  /** Id 0, or an id nothing is pending for, has neither children nor actions yet. */
  lemma {:induction false} NoPendingNoKids(s: seq<Menu>, m: nat, p: nat)
    requires m <= |s| && (p == 0 || Pending(s, m, p) == [])
    ensures Kids(s, m, p) == [] && Acts(s, m, p) == []
    decreases m
  {
    if m > 0 {
      assert p == 0 || Pending(s, m - 1, p) == [] by {
        if p != 0 {
          assert |Pending(s, m - 1, p)| <= |Pending(s, m, p)|;
        }
      }
      NoPendingNoKids(s, m - 1, p);
    }
  }

  /** Linking the menu at `k` changes the node of position `i` only when `i` is its parent. */
  lemma ShapeAtStep(s: seq<Menu>, k: nat, i: nat)
    requires k < |s| && i < |s|
    ensures ShapeAt(s, k + 1, i)
         == if s[k].parentID == s[i].id && s[i].id != 0 then Attach(s, ShapeAt(s, k, i), k) else ShapeAt(s, k, i)
  {
  }

  /** The node `Step` builds for the menu at `k` holds everything that was pending for it. */
  lemma StepNewNode(s: seq<Menu>, k: nat, t: Tree)
    requires k < |s| && DistinctIds(s) && Wf(s, t, k) && PendingShaped(s, k, t.noParent)
    ensures (if s[k].id in t.noParent then Adopt(s, NewNode(s[k]), t.noParent[s[k].id]) else NewNode(s[k]))
         == ShapeAt(s, k, k)
  {
    var m := s[k];
    assert Absent(s, k, m.id);
    if m.id in t.noParent {
      AdoptPending(s, k, NewNode(m), m.id);
      assert Adopted(s, k, NewNode(m), m.id) == ShapeAt(s, k, k);
      assert [] + Kids(s, k, m.id) == Kids(s, k, m.id);
      assert [] + Acts(s, k, m.id) == Acts(s, k, m.id);
    } else {
      NoPendingNoKids(s, k, m.id);
    }
  }

  /** `Step` records the new menu's position and keeps the mapping exact. */
  lemma StepMapping(s: seq<Menu>, k: nat, t: Tree)
    requires k < |s| && DistinctIds(s) && Wf(s, t, k) && MappingShaped(s, k, t.mapping)
    ensures Step(s, t, k).mapping == t.mapping[s[k].id := k]
    ensures MappingShaped(s, k + 1, Step(s, t, k).mapping)
  {
    var mapping := t.mapping[s[k].id := k];
    forall i | 0 <= i < k + 1
      ensures s[i].id in mapping && mapping[s[i].id] == i
    {
      if i < k {
        assert s[i].id != s[k].id;
      }
    }
    forall p | p in mapping
      ensures !Absent(s, k + 1, p)
    {
      if p != s[k].id {
        assert !Absent(s, k, p);
        var i :| 0 <= i < k && s[i].id == p;
        assert s[i].id == p;
      } else {
        assert s[k].id == p;
      }
    }
  }

  /** The pending lists after `Step`: the new menu's own entry is gone, and it waits for its parent when that is missing. */
  lemma StepNoParent(s: seq<Menu>, k: nat, t: Tree)
    requires k < |s| && Wf(s, t, k)
    ensures var m, np := s[k], t.noParent - {s[k].id};
      Step(s, t, k).noParent
      == if m.parentID != 0 && m.parentID !in t.mapping[m.id := k]
         then np[m.parentID := (if m.parentID in np then np[m.parentID] else []) + [k]]
         else np
  {
  }

  /** A pending list after `Step` is exact. */
  lemma StepPendingEntry(s: seq<Menu>, k: nat, t: Tree, p: nat)
    requires k < |s| && Wf(s, t, k)
    requires MappingShaped(s, k, t.mapping) && PendingShaped(s, k, t.noParent)
    requires p in Step(s, t, k).noParent
    ensures p != 0 && Absent(s, k + 1, p) && Step(s, t, k).noParent[p] == Pending(s, k + 1, p)
  {
    var m := s[k];
    StepNoParent(s, k, t);
    if m.parentID != 0 && m.parentID !in t.mapping[m.id := k] && p == m.parentID {
      assert Absent(s, k, p) by {
        forall i | 0 <= i < k
          ensures s[i].id != p
        {
          assert s[i].id in t.mapping;
        }
      }
      assert Pending(s, k + 1, p) == Pending(s, k, p) + [k];
      if p !in t.noParent {
        assert Pending(s, k, p) == [];
      }
    } else {
      assert p in t.noParent && p != m.id;
      assert p !in t.mapping;
      assert Pending(s, k + 1, p) == Pending(s, k, p);
    }
  }

  /** An id without a pending list after `Step` has nothing pending. */
  lemma StepPendingNone(s: seq<Menu>, k: nat, t: Tree, p: nat)
    requires k < |s| && Wf(s, t, k)
    requires MappingShaped(s, k, t.mapping) && PendingShaped(s, k, t.noParent)
    requires p != 0 && Absent(s, k + 1, p) && p !in Step(s, t, k).noParent
    ensures Pending(s, k + 1, p) == []
  {
    StepNoParent(s, k, t);
    assert s[k].id != p;
    assert Absent(s, k, p);
    assert p !in t.noParent;
    assert p !in t.mapping;
    assert s[k].parentID != p;
    assert Pending(s, k + 1, p) == Pending(s, k, p);
  }

  /** `Step` keeps the pending lists exact. */
  lemma StepPending(s: seq<Menu>, k: nat, t: Tree)
    requires k < |s| && Wf(s, t, k)
    requires MappingShaped(s, k, t.mapping) && PendingShaped(s, k, t.noParent)
    ensures PendingShaped(s, k + 1, Step(s, t, k).noParent)
  {
    var r := Step(s, t, k);
    forall p | p in r.noParent
      ensures p != 0 && Absent(s, k + 1, p) && r.noParent[p] == Pending(s, k + 1, p)
    {
      StepPendingEntry(s, k, t, p);
    }
    forall p | p != 0 && Absent(s, k + 1, p) && p !in r.noParent
      ensures Pending(s, k + 1, p) == []
    {
      StepPendingNone(s, k, t, p);
    }
  }

  /** `Step` keeps every node exact: only the parent of the new menu changes. */
  lemma StepNodes(s: seq<Menu>, k: nat, t: Tree)
    requires k < |s| && DistinctIds(s) && Wf(s, t, k) && Shape(s, k, t)
    ensures NodesShaped(s, k + 1, Step(s, t, k).nodes)
  {
    var m := s[k];
    var t1 := Taken(s, t, k);
    assert forall i :: 0 <= i < k + 1 ==> t1.nodes[i] == ShapeAt(s, k, i) by {
      StepNewNode(s, k, t);
    }
    assert MappingShaped(s, k + 1, t1.mapping) by {
      StepMapping(s, k, t);
    }
    if m.parentID != 0 && m.parentID in t1.mapping {
      var p := t1.mapping[m.parentID];
      assert s[p].id == m.parentID by {
        var w :| 0 <= w < k + 1 && s[w].id == m.parentID;
      }
      LinkUnder(s, k, t1.nodes, p);
    } else {
      if m.parentID != 0 {
        forall i | 0 <= i < k + 1
          ensures s[i].id != m.parentID
        {
          assert s[i].id in t1.mapping;
        }
      }
      LinkNowhere(s, k, t1.nodes);
    }
  }

  /** Linking the menu at `k` under the node at `p` makes that node, and leaves the others, exact. */
  lemma LinkUnder(s: seq<Menu>, k: nat, nodes: seq<Node>, p: nat)
    requires k < |s| && DistinctIds(s) && p < k + 1 == |nodes|
    requires s[p].id == s[k].parentID != 0
    requires forall i :: 0 <= i < k + 1 ==> nodes[i] == ShapeAt(s, k, i)
    ensures NodesShaped(s, k + 1, nodes[p := Attach(s, nodes[p], k)])
  {
    var linked := nodes[p := Attach(s, nodes[p], k)];
    forall i | 0 <= i < k + 1
      ensures linked[i] == ShapeAt(s, k + 1, i)
    {
      ShapeAtStep(s, k, i);
      if i != p {
        assert s[i].id != s[p].id;
      }
    }
  }

  /** A menu whose parent is none of the first `k + 1` leaves every node exact. */
  lemma LinkNowhere(s: seq<Menu>, k: nat, nodes: seq<Node>)
    requires k < |s| && k + 1 == |nodes|
    requires s[k].parentID == 0 || forall i :: 0 <= i < k + 1 ==> s[i].id != s[k].parentID
    requires forall i :: 0 <= i < k + 1 ==> nodes[i] == ShapeAt(s, k, i)
    ensures NodesShaped(s, k + 1, nodes)
  {
    forall i | 0 <= i < k + 1
      ensures nodes[i] == ShapeAt(s, k + 1, i)
    {
      ShapeAtStep(s, k, i);
    }
  }

  /** One step of the loop keeps `Shape` when ids are distinct. */
  lemma StepShape(s: seq<Menu>, k: nat, t: Tree)
    requires k < |s| && DistinctIds(s) && Wf(s, t, k) && Shape(s, k, t)
    ensures Shape(s, k + 1, Step(s, t, k))
  {
    StepMapping(s, k, t);
    StepPending(s, k, t);
    StepNodes(s, k, t);
    assert RootKids(s, k + 1) == RootKids(s, k) + (if s[k].parentID == 0 then [k] else []);
  }

  /** The loop builds the shape `Shape` describes, when ids are distinct. */
  lemma {:induction false} BuildShape(s: seq<Menu>, m: nat)
    requires m <= |s| && DistinctIds(s)
    ensures Shape(s, m, Build(s, m))
    decreases m
  {
    if m > 0 {
      BuildShape(s, m - 1);
      StepShape(s, m - 1, Build(s, m - 1));
    }
  }

  /** Every child of id `id` listed by `Kids` has that parent and is no action; the list ascends. */
  lemma {:induction false} KidsMembers(s: seq<Menu>, m: nat, id: nat)
    requires m <= |s|
    ensures forall j :: j in Kids(s, m, id) <==> 0 <= j < m && IsChild(s[j], id)
    ensures forall x, y :: 0 <= x < y < |Kids(s, m, id)| ==> Kids(s, m, id)[x] < Kids(s, m, id)[y]
    decreases m
  {
    if m > 0 {
      KidsMembers(s, m - 1, id);
      var K := Kids(s, m - 1, id);
      if IsChild(s[m - 1], id) {
        var K' := K + [m - 1];
        assert Kids(s, m, id) == K';
        forall x, y | 0 <= x < y < |K'|
          ensures K'[x] < K'[y]
        {
          if y == |K| {
            assert K'[x] == K[x];
          }
        }
      } else {
        assert Kids(s, m, id) == K;
      }
    }
  }

  /**
   * Siblings come in (sort, id) order: in a sorted list, a node's children
   * never have a later pair before an earlier one.
   */
  lemma SiblingsInOrder(s: seq<Menu>, id: nat, x: nat, y: nat)
    requires Sorted(s)
    requires x < y < |Kids(s, |s|, id)|
    ensures var a, b := s[Kids(s, |s|, id)[x]], s[Kids(s, |s|, id)[y]];
      a.sort < b.sort || (a.sort == b.sort && a.id <= b.id)
  {
    KidsMembers(s, |s|, id);
    var K := Kids(s, |s|, id);
    assert K[x] in K && K[y] in K;
    assert Le(s[K[x]], s[K[y]]);
  }

  /** The root lists exactly the menus whose parent id is 0. */
  lemma {:induction false} RootKidsMembers(s: seq<Menu>, m: nat)
    requires m <= |s|
    ensures forall j :: j in RootKids(s, m) <==> 0 <= j < m && s[j].parentID == 0
    decreases m
  {
    if m > 0 {
      RootKidsMembers(s, m - 1);
    }
  }

  /** A menu whose parent id is set but matches no menu is linked nowhere. */
  lemma OrphanLinkedNowhere(s: seq<Menu>, j: nat)
    requires j < |s| && s[j].parentID != 0 && Absent(s, |s|, s[j].parentID)
    ensures forall i :: 0 <= i < |s| ==> j !in Kids(s, |s|, s[i].id)
    ensures j !in RootKids(s, |s|)
  {
    forall i | 0 <= i < |s|
      ensures j !in Kids(s, |s|, s[i].id)
    {
      KidsMembers(s, |s|, s[i].id);
      assert s[i].id != s[j].parentID;
    }
    RootKidsMembers(s, |s|);
  }

  /** An action menu is among its parent's actions and among no node's children. */
  lemma {:induction false} ActionsNeverChildren(s: seq<Menu>, m: nat, id: nat, j: nat)
    requires j < m <= |s| && IsActionOf(s[j], id)
    ensures AsAction(s[j]) in Acts(s, m, id)
    ensures forall id' :: j !in Kids(s, m, id')
    decreases m
  {
    if j < m - 1 {
      ActionsNeverChildren(s, m - 1, id, j);
    }
    forall id' ensures j !in Kids(s, m, id') {
      KidsMembers(s, m, id');
    }
  }
}
