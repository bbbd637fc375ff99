/** The class and attribute edits the menu widget makes on its own tree:
    the style class of the menu (`replaceClassName`), the hover class
    (`setHover`) and the `tabindex` of the first top-level menu. None of
    them changes which elements exist, so none of them changes what the
    label pass sees. */
module Styles {
  import opened Values
  import opened Dom

  /** The style names `replaceClassName` removes: the truthy members of the
      values allowed for `type`. */
  const TypeNames: set<string> := {"default", "custom", "oldschool", "ribbon", "sitemap"}

  /** The values allowed for the `type` attribute. */
  const TypeValues: set<Value> :=
    {Null, Str(""), Str("default"), Str("custom"), Str("oldschool"), Str("ribbon"), Str("sitemap")}

  /** The styles drawn over the base style `default`. */
  predicate OverDefault(v: Value) {
    Truthy(v) && Name(v) != "sitemap" && Name(v) != "custom"
  }

  // ---------------------------------------------------------------------------
  // Class-list edits

  /** `replaceClassName(v)` on one class list: every style name goes, then
      the new style and, for the styles drawn over it, `default` come in. */
  function ReplacedClasses(c: set<string>, v: Value): (r: set<string>)
    ensures forall t :: t !in TypeNames && !(Truthy(v) && t == Name(v)) ==> (t in r <==> t in c)
    ensures Truthy(v) ==> Name(v) in r
    ensures "default" in r <==> OverDefault(v)
    ensures forall t :: t in TypeNames && t in r ==> Truthy(v) && (t == Name(v) || t == "default")
  {
    var base := c - TypeNames;
    if !Truthy(v) then base
    else if OverDefault(v) then base + {Name(v), "default"}
    else base + {Name(v)}
  }

  /** Choosing the same style twice is choosing it once. */
  lemma ReplacedIdempotent(c: set<string>, v: Value)
    ensures ReplacedClasses(ReplacedClasses(c, v), v) == ReplacedClasses(c, v)
  {
  }

  /** For the values the attribute accepts, only the last style chosen is
      left on the list. */
  lemma ReplacedLastWins(c: set<string>, v: Value, w: Value)
    requires v in TypeValues
    ensures ReplacedClasses(ReplacedClasses(c, v), w) == ReplacedClasses(c, w)
  {
    var r := ReplacedClasses(c, v);
    assert r - TypeNames == c - TypeNames;
  }

  /** A style name outside the allowed list, which the `type` property takes
      unchecked, is not removed by the next choice. */
  lemma StrayStyleStays()
    ensures "wide" in ReplacedClasses(ReplacedClasses({}, Str("wide")), Str("ribbon"))
  {
  }

  /** `setHover(on)` on one class list. */
  function HoverClasses(c: set<string>, on: bool): (r: set<string>)
    ensures "hover" in r <==> on
    ensures r - {"hover"} == c - {"hover"}
  {
    if on then c + {"hover"} else c - {"hover"}
  }

  /** Choosing a style and switching hovering do not interfere. */
  lemma StyleAndHoverCommute(c: set<string>, v: Value, on: bool)
    requires v in TypeValues
    ensures ReplacedClasses(HoverClasses(c, on), v) == HoverClasses(ReplacedClasses(c, v), on)
  {
    var a := ReplacedClasses(HoverClasses(c, on), v);
    var b := HoverClasses(ReplacedClasses(c, v), on);
    assert forall t :: t in a <==> t in b;
  }

  datatype ClassEdit = Replace(v: Value) | Hover(on: bool)

  function Edited(e: ClassEdit, c: set<string>): set<string> {
    match e
    case Replace(v) => ReplacedClasses(c, v)
    case Hover(on) => HoverClasses(c, on)
  }

  // ---------------------------------------------------------------------------
  // Trees that differ only in attributes and classes

  /** `a` and `b` have the same nodes, keys, tags and texts in the same
      places; attributes and classes may differ. */
  predicate SameShape(a: seq<Node>, b: seq<Node>)
    decreases a
  {
    |a| == |b| && forall i :: 0 <= i < |a| ==> SameShapeNode(a[i], b[i])
  }

  predicate SameShapeNode(m: Node, n: Node)
    decreases m
  {
    match m
    case Text(_) => n == m
    case Comment(_) => n == m
    case Element(k, t, _, _, ch) => n.Element? && n.key == k && n.tag == t && SameShape(ch, n.children)
  }

  lemma {:induction false} ShapeInfos(a: seq<Node>, b: seq<Node>)
    requires SameShape(a, b)
    ensures Infos(a) == Infos(b)
    decreases a
  {
    if a != [] {
      ShapeInfosNode(a[0], b[0]);
      ShapeInfos(a[1..], b[1..]);
    }
  }

  lemma {:induction false} ShapeInfosNode(m: Node, n: Node)
    requires SameShapeNode(m, n)
    ensures InfosNode(m) == InfosNode(n)
    decreases m
  {
    if m.Element? {
      ShapeInfos(m.children, n.children);
      assert HasChildMenu(m) == HasChildMenu(n) by {
        forall i | 0 <= i < |m.children|
          ensures IsElementWith(m.children[i], MenuTags) == IsElementWith(n.children[i], MenuTags)
        {
          assert SameShapeNode(m.children[i], n.children[i]);
        }
      }
      assert HasLabel(m) == HasLabel(n) by {
        forall i | 0 <= i < |m.children|
          ensures IsElementWith(m.children[i], LabelTags) == IsElementWith(n.children[i], LabelTags)
        {
          assert SameShapeNode(m.children[i], n.children[i]);
        }
      }
    }
  }

  lemma {:induction false} ShapeSelect(a: seq<Node>, b: seq<Node>, tags: set<string>)
    requires SameShape(a, b)
    ensures Select(a, tags) == Select(b, tags)
    decreases a
  {
    if a != [] {
      if a[0].Element? {
        ShapeSelect(a[0].children, b[0].children, tags);
      }
      ShapeSelect(a[1..], b[1..], tags);
    }
  }

  lemma {:induction false} ShapeKeysBelow(a: seq<Node>, b: seq<Node>, bound: Key)
    requires SameShape(a, b) && KeysBelow(a, bound)
    ensures KeysBelow(b, bound)
    decreases a
  {
    forall i | 0 <= i < |b| ensures KeysBelowNode(b[i], bound) {
      if a[i].Element? {
        ShapeKeysBelow(a[i].children, b[i].children, bound);
      }
    }
  }

  /** The facts the label pass reads, and the key bound, are the same in
      trees of the same shape. */
  lemma ShapeKeepsPass(a: seq<Node>, b: seq<Node>, bound: Key)
    requires SameShape(a, b)
    ensures Pending(a) == Pending(b) && Labelled(a) == Labelled(b)
    ensures WithMenu(a) == WithMenu(b) && ListItems(a) == ListItems(b)
    ensures Select(a, {"li"}) == Select(b, {"li"}) && Select(a, MenuTags) == Select(b, MenuTags)
    ensures KeysBelow(a, bound) ==> KeysBelow(b, bound)
  {
    ShapeInfos(a, b);
    ShapeSelect(a, b, {"li"});
    ShapeSelect(a, b, MenuTags);
    if KeysBelow(a, bound) {
      ShapeKeysBelow(a, b, bound);
    }
  }

  /** `a` and `b` have the same shape and the same attributes; only class
      lists may differ. */
  predicate ClassesOnly(a: seq<Node>, b: seq<Node>)
    decreases a
  {
    |a| == |b| && forall i :: 0 <= i < |a| ==> ClassesOnlyNode(a[i], b[i])
  }

  predicate ClassesOnlyNode(m: Node, n: Node)
    decreases m
  {
    match m
    case Text(_) => n == m
    case Comment(_) => n == m
    case Element(k, t, at, _, ch) =>
      n.Element? && n.key == k && n.tag == t && n.attrs == at && ClassesOnly(ch, n.children)
  }

  lemma {:induction false} ClassesOnlyRefl(a: seq<Node>)
    ensures ClassesOnly(a, a)
    decreases a
  {
    forall i | 0 <= i < |a| ensures ClassesOnlyNode(a[i], a[i]) {
      if a[i].Element? {
        ClassesOnlyRefl(a[i].children);
      }
    }
  }

  /** A class-only edit keeps the shape. */
  lemma {:induction false} ClassesOnlyShape(a: seq<Node>, b: seq<Node>)
    requires ClassesOnly(a, b)
    ensures SameShape(a, b)
    decreases a
  {
    forall i | 0 <= i < |a| ensures SameShapeNode(a[i], b[i]) {
      if a[i].Element? {
        ClassesOnlyShape(a[i].children, b[i].children);
      }
    }
  }

  // ---------------------------------------------------------------------------
  // Editing the classes of one element

  /** Applies the edit `e` to the class list of the element with key `k`. */
  function Restyle(nodes: seq<Node>, k: Key, e: ClassEdit): (r: seq<Node>)
    ensures SameShape(nodes, r) && ClassesOnly(nodes, r)
    decreases nodes
  {
    if nodes == [] then [] else [RestyleNode(nodes[0], k, e)] + Restyle(nodes[1..], k, e)
  }

  function RestyleNode(n: Node, k: Key, e: ClassEdit): (r: Node)
    ensures SameShapeNode(n, r) && ClassesOnlyNode(n, r)
    decreases n
  {
    if !n.Element? then n
    else
      var ch := Restyle(n.children, k, e);
      if n.key == k then n.(classes := Edited(e, n.classes), children := ch)
      else n.(children := ch)
  }

  /** Every element of a forest with its class list. */
  function ClassLists(nodes: seq<Node>): set<(Key, set<string>)>
    decreases nodes
  {
    if nodes == [] then {} else ClassListsNode(nodes[0]) + ClassLists(nodes[1..])
  }

  function ClassListsNode(n: Node): set<(Key, set<string>)>
    decreases n
  {
    if n.Element? then {(n.key, n.classes)} + ClassLists(n.children) else {}
  }

  function EditedAt(s: set<(Key, set<string>)>, k: Key, e: ClassEdit): set<(Key, set<string>)> {
    set p | p in s :: if p.0 == k then (k, Edited(e, p.1)) else p
  }

  /** The edit reaches the element `k` and no other element. */
  lemma {:induction false} RestyleClassLists(nodes: seq<Node>, k: Key, e: ClassEdit)
    ensures ClassLists(Restyle(nodes, k, e)) == EditedAt(ClassLists(nodes), k, e)
    decreases nodes
  {
    if nodes != [] {
      RestyleNodeClassLists(nodes[0], k, e);
      RestyleClassLists(nodes[1..], k, e);
      EditedAtUnion(ClassListsNode(nodes[0]), ClassLists(nodes[1..]), k, e);
    }
  }

  lemma {:induction false} RestyleNodeClassLists(n: Node, k: Key, e: ClassEdit)
    ensures ClassListsNode(RestyleNode(n, k, e)) == EditedAt(ClassListsNode(n), k, e)
    decreases n
  {
    if n.Element? {
      RestyleClassLists(n.children, k, e);
      EditedAtUnion({(n.key, n.classes)}, ClassLists(n.children), k, e);
    }
  }

  lemma EditedAtUnion(s: set<(Key, set<string>)>, t: set<(Key, set<string>)>, k: Key, e: ClassEdit)
    ensures EditedAt(s + t, k, e) == EditedAt(s, k, e) + EditedAt(t, k, e)
  {
  }

  // ---------------------------------------------------------------------------
  // The element the edits land on

  /** `querySelector('menu, ul')`: the first menu or list in document order. */
  function MenuTarget(roots: seq<Node>): (r: Option<Key>)
    ensures r.Some? <==> KeysWith(roots, MenuTags) != {}
    ensures r.Some? ==> r.value in KeysWith(roots, MenuTags)
    ensures r.Some? ==> exists i :: FirstMatchAt(Preorder(roots), MenuTags, i) && Preorder(roots)[i].key == r.value
  {
    QuerySelector(roots, MenuTags)
  }

  /** `replaceClassName` and `setHover`: the edit lands on the first menu,
      and nothing happens when there is none. */
  function EditMenu(roots: seq<Node>, e: ClassEdit): (r: seq<Node>)
    ensures SameShape(roots, r) && ClassesOnly(roots, r)
    ensures MenuTarget(roots).None? ==> r == roots
    ensures MenuTarget(roots).Some? ==>
              ClassLists(r) == EditedAt(ClassLists(roots), MenuTarget(roots).value, e)
  {
    match MenuTarget(roots)
    case None => ShapeRefl(roots); ClassesOnlyRefl(roots); roots
    case Some(k) => RestyleClassLists(roots, k, e); Restyle(roots, k, e)
  }

  lemma {:induction false} ShapeTrans(a: seq<Node>, b: seq<Node>, c: seq<Node>)
    requires SameShape(a, b) && SameShape(b, c)
    ensures SameShape(a, c)
    decreases a
  {
    forall i | 0 <= i < |a| ensures SameShapeNode(a[i], c[i]) {
      if a[i].Element? {
        ShapeTrans(a[i].children, b[i].children, c[i].children);
      }
    }
  }

  lemma {:induction false} ShapeRefl(a: seq<Node>)
    ensures SameShape(a, a)
    decreases a
  {
    forall i | 0 <= i < |a| ensures SameShapeNode(a[i], a[i]) {
      if a[i].Element? {
        ShapeRefl(a[i].children);
      }
    }
  }

  // ---------------------------------------------------------------------------
  // tabindex

  /** The position of the first top-level `<ul>` or `<menu>`. */
  function FirstMenuRoot(roots: seq<Node>): (r: Option<nat>)
    ensures r.Some? ==> r.value < |roots| && IsElementWith(roots[r.value], MenuTags)
    ensures r.Some? ==> forall j :: 0 <= j < r.value ==> !IsElementWith(roots[j], MenuTags)
    ensures r.None? ==> forall j :: 0 <= j < |roots| ==> !IsElementWith(roots[j], MenuTags)
  {
    if roots == [] then None
    else if IsElementWith(roots[0], MenuTags) then Some(0)
    else match FirstMenuRoot(roots[1..])
      case Some(j) => Some(j + 1)
      case None => None
  }

  /** `setAttribute('tabindex', '0')` on the first top-level menu; no other
      node changes. */
  function TabIndexed(roots: seq<Node>): (r: seq<Node>)
    ensures SameShape(roots, r)
    ensures match FirstMenuRoot(roots)
      case None => r == roots
      case Some(i) =>
        && r[i].Element? && r[i].key == roots[i].key && r[i].tag == roots[i].tag
        && r[i].attrs == roots[i].attrs["tabindex" := "0"] && r[i].classes == roots[i].classes
        && r[i].children == roots[i].children
        && forall j :: 0 <= j < |roots| && j != i ==> r[j] == roots[j]
  {
    ShapeRefl(roots);
    match FirstMenuRoot(roots)
    case None => roots
    case Some(i) =>
      var n := roots[i];
      ShapeRefl(n.children);
      roots[i := n.(attrs := n.attrs["tabindex" := "0"])]
  }
}
