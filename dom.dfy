/** The part of the DOM the menu widget reads and rewrites: a tree of text,
    comment and element nodes, and the queries the widget runs on it. */
module Dom {
  import opened Values

  /** The identity of an element object. */
  type Key = nat

  datatype Node =
    | Text(data: string)
    | Comment(data: string)
    | Element(key: Key, tag: string, attrs: map<string, string>, classes: set<string>, children: seq<Node>)

  const MenuTags: set<string> := {"menu", "ul"}
  const LabelTags: set<string> := {"label"}

  predicate IsElementWith(n: Node, tags: set<string>) {
    n.Element? && n.tag in tags
  }

  // ---------------------------------------------------------------------------
  // Searches over a list item's own children

  /** Scans an element's `children` (its element children) for a tag in `tags`. */
  function AnyChildWith(nodes: seq<Node>, tags: set<string>): (found: bool)
    ensures found <==> exists i :: 0 <= i < |nodes| && IsElementWith(nodes[i], tags)
  {
    if nodes == [] then false
    else IsElementWith(nodes[0], tags) || AnyChildWith(nodes[1..], tags)
  }

  /** `hasChildMenu`: some direct child element is a `<menu>` or a `<ul>`. */
  function HasChildMenu(li: Node): (b: bool)
    requires li.Element?
    ensures b <==> exists i :: 0 <= i < |li.children| && IsElementWith(li.children[i], MenuTags)
  {
    AnyChildWith(li.children, MenuTags)
  }

  /** `hasLabel`: some direct child element, at any position, is a `<label>`. */
  function HasLabel(li: Node): (b: bool)
    requires li.Element?
    ensures b <==> exists i :: 0 <= i < |li.children| && IsElementWith(li.children[i], LabelTags)
  {
    AnyChildWith(li.children, LabelTags)
  }

  /** A child node `getFirstTextOrLink` stops at: text with a character that
      is not white space, or an `<a>`. */
  predicate IsTextOrLink(n: Node) {
    (n.Text? && !AllSpace(n.data)) || IsElementWith(n, {"a"})
  }

  /** The position, among `nodes`, of the first text-or-link node. */
  function FirstTextOrLinkIn(nodes: seq<Node>): (r: Option<nat>)
    ensures r.Some? ==> r.value < |nodes| && IsTextOrLink(nodes[r.value])
    ensures r.Some? ==> forall j :: 0 <= j < r.value ==> !IsTextOrLink(nodes[j])
    ensures r.None? ==> forall j :: 0 <= j < |nodes| ==> !IsTextOrLink(nodes[j])
  {
    if nodes == [] then None
    else if IsTextOrLink(nodes[0]) then Some(0)
    else match FirstTextOrLinkIn(nodes[1..])
      case None => None
      case Some(i) => Some(i + 1)
  }

  /** `getFirstTextOrLink`: walks the item's `childNodes` in order; `None` stands for null. */
  function FirstTextOrLink(li: Node): (r: Option<nat>)
    requires li.Element?
    ensures r.Some? ==> r.value < |li.children| && IsTextOrLink(li.children[r.value])
    ensures r.Some? ==> forall j :: 0 <= j < r.value ==> !IsTextOrLink(li.children[j])
    ensures r.None? ==> forall j :: 0 <= j < |li.children| ==> !IsTextOrLink(li.children[j])
  {
    FirstTextOrLinkIn(li.children)
  }

  /** A text node stops the scan exactly when its `trim()` is not empty; an
      element exactly when it is an `<a>`; a comment never. */
  lemma TextOrLinkCases(n: Node)
    ensures n.Text? ==> (IsTextOrLink(n) <==> Trim(n.data) != "")
    ensures n.Element? ==> (IsTextOrLink(n) <==> n.tag == "a")
    ensures n.Comment? ==> !IsTextOrLink(n)
  {
    if n.Text? {
      TrimSpec(n.data);
    }
  }

  // ---------------------------------------------------------------------------
  // Subtree queries, in document order

  /** `querySelectorAll`: the keys of the descendant elements whose tag is in
      `tags`, in document order; `nodes` is the child list of the element queried. */
  function Select(nodes: seq<Node>, tags: set<string>): (r: seq<Key>)
    ensures r == TaggedKeys(Preorder(nodes), tags)
    decreases nodes
  {
    if nodes == [] then []
    else
      TaggedKeysAppend(PreorderNode(nodes[0]), Preorder(nodes[1..]), tags);
      SelectNode(nodes[0], tags) + Select(nodes[1..], tags)
  }

  function SelectNode(n: Node, tags: set<string>): (r: seq<Key>)
    ensures r == TaggedKeys(PreorderNode(n), tags)
    decreases n
  {
    if n.Element? then
      TaggedKeysAppend([n], Preorder(n.children), tags);
      (if n.tag in tags then [n.key] else []) + Select(n.children, tags)
    else []
  }

  /** Document order: every element of the forest, each before its descendants
      and after its preceding siblings' subtrees. */
  function Preorder(nodes: seq<Node>): (r: seq<Node>)
    ensures forall i :: 0 <= i < |r| ==> r[i].Element?
    decreases nodes
  {
    if nodes == [] then [] else PreorderNode(nodes[0]) + Preorder(nodes[1..])
  }

  function PreorderNode(n: Node): (r: seq<Node>)
    ensures forall i :: 0 <= i < |r| ==> r[i].Element?
    ensures n.Element? ==> r != [] && r[0] == n
    ensures !n.Element? ==> r == []
    decreases n
  {
    if n.Element? then [n] + Preorder(n.children) else []
  }

  /** The keys of the nodes of `ns` with a tag in `tags`, in the order of `ns`. */
  function TaggedKeys(ns: seq<Node>, tags: set<string>): seq<Key>
  {
    if ns == [] then []
    else (if IsElementWith(ns[0], tags) then [ns[0].key] else []) + TaggedKeys(ns[1..], tags)
  }

  lemma {:induction false} TaggedKeysAppend(a: seq<Node>, b: seq<Node>, tags: set<string>)
    ensures TaggedKeys(a + b, tags) == TaggedKeys(a, tags) + TaggedKeys(b, tags)
  {
    if a == [] {
      assert a + b == b;
    } else {
      assert (a + b)[1..] == a[1..] + b;
      TaggedKeysAppend(a[1..], b, tags);
    }
  }

  /** Position `i` of `ns` is the first node with a tag in `tags`. */
  predicate FirstMatchAt(ns: seq<Node>, tags: set<string>, i: int) {
    0 <= i < |ns| && IsElementWith(ns[i], tags) && forall j :: 0 <= j < i ==> !IsElementWith(ns[j], tags)
  }

  /** `TaggedKeys` is empty exactly when nothing matches, and otherwise starts
      with the key of the first match. */
  lemma {:induction false} TaggedKeysHead(ns: seq<Node>, tags: set<string>)
    ensures TaggedKeys(ns, tags) == [] <==> forall j :: 0 <= j < |ns| ==> !IsElementWith(ns[j], tags)
    ensures TaggedKeys(ns, tags) != [] ==>
      exists i :: FirstMatchAt(ns, tags, i) && ns[i].key == TaggedKeys(ns, tags)[0]
  {
    if ns != [] {
      TaggedKeysHead(ns[1..], tags);
      if IsElementWith(ns[0], tags) {
        assert FirstMatchAt(ns, tags, 0);
      } else if TaggedKeys(ns, tags) != [] {
        var i :| FirstMatchAt(ns[1..], tags, i) && ns[1..][i].key == TaggedKeys(ns[1..], tags)[0];
        assert FirstMatchAt(ns, tags, i + 1);
      } else {
        forall j | 0 <= j < |ns|
          ensures !IsElementWith(ns[j], tags)
        {
          if j > 0 {
            assert ns[j] == ns[1..][j - 1];
          }
        }
      }
    }
  }

  function First(keys: seq<Key>): (r: Option<Key>)
    ensures r.Some? <==> keys != []
    ensures r.Some? ==> r.value == keys[0]
  {
    if keys == [] then None else Some(keys[0])
  }

  /** `querySelector`: the key of the first element in document order whose
      tag is in `tags`, or `None` (null) when there is none. */
  function QuerySelector(nodes: seq<Node>, tags: set<string>): (r: Option<Key>)
    ensures r.None? <==> forall j :: 0 <= j < |Preorder(nodes)| ==> !IsElementWith(Preorder(nodes)[j], tags)
    ensures r.Some? ==> exists i :: FirstMatchAt(Preorder(nodes), tags, i) && Preorder(nodes)[i].key == r.value
    ensures r.None? <==> KeysWith(nodes, tags) == {}
    ensures r.Some? ==> r.value in KeysWith(nodes, tags)
  {
    var ks := Select(nodes, tags);
    TaggedKeysHead(Preorder(nodes), tags);
    SelectEmpty(nodes, tags);
    if ks != [] then SelectIsComplete(nodes, tags, ks[0]); First(ks) else First(ks)
  }

  lemma {:induction false} SelectAppend(a: seq<Node>, b: seq<Node>, tags: set<string>)
    ensures Select(a + b, tags) == Select(a, tags) + Select(b, tags)
    decreases a
  {
    if a == [] {
      assert a + b == b;
    } else {
      assert (a + b)[1..] == a[1..] + b;
      SelectAppend(a[1..], b, tags);
    }
  }

  /** Every key `Select` reports belongs to an element with one of the tags:
      the elements of a subtree, as a set of keys with their tags. */
  lemma {:induction false} SelectFindsTagged(nodes: seq<Node>, tags: set<string>, k: Key)
    requires k in Select(nodes, tags)
    ensures k in KeysWith(nodes, tags)
    decreases nodes
  {
    if k in SelectNode(nodes[0], tags) {
      var n := nodes[0];
      if !(n.tag in tags && k == n.key) {
        SelectFindsTagged(n.children, tags, k);
      }
    } else {
      SelectFindsTagged(nodes[1..], tags, k);
    }
  }

  /** The keys of the elements in a forest whose tag is in `tags`. */
  function KeysWith(nodes: seq<Node>, tags: set<string>): set<Key>
    decreases nodes
  {
    if nodes == [] then {} else KeysWithNode(nodes[0], tags) + KeysWith(nodes[1..], tags)
  }

  function KeysWithNode(n: Node, tags: set<string>): set<Key>
    decreases n
  {
    if n.Element? then (if n.tag in tags then {n.key} else {}) + KeysWith(n.children, tags) else {}
  }

  /** `Select` lists exactly the keys of the tagged elements of the forest. */
  lemma {:induction false} SelectIsComplete(nodes: seq<Node>, tags: set<string>, k: Key)
    ensures k in Select(nodes, tags) <==> k in KeysWith(nodes, tags)
    decreases nodes
  {
    if nodes != [] {
      var n := nodes[0];
      if n.Element? {
        SelectIsComplete(n.children, tags, k);
      }
      SelectIsComplete(nodes[1..], tags, k);
    }
  }

  /** `querySelector` finds nothing exactly when no element has the tag. */
  lemma SelectEmpty(nodes: seq<Node>, tags: set<string>)
    ensures Select(nodes, tags) == [] <==> KeysWith(nodes, tags) == {}
  {
    var ks := Select(nodes, tags);
    if ks != [] {
      SelectIsComplete(nodes, tags, ks[0]);
    }
    if KeysWith(nodes, tags) != {} {
      var k :| k in KeysWith(nodes, tags);
      SelectIsComplete(nodes, tags, k);
    }
  }

  // ---------------------------------------------------------------------------
  // The ancestor chain, for `closest`

  /** Some element of the forest has key `k`. */
  predicate HasKey(nodes: seq<Node>, k: Key)
    decreases nodes
  {
    nodes != [] && (HasKeyNode(nodes[0], k) || HasKey(nodes[1..], k))
  }

  predicate HasKeyNode(n: Node, k: Key)
    decreases n
  {
    n.Element? && (n.key == k || HasKey(n.children, k))
  }

  /** The elements from a top-level node of `nodes` down to the first element
      with key `k`, both included. */
  function Chain(nodes: seq<Node>, k: Key): (r: Option<seq<Node>>)
    ensures r.None? <==> !HasKey(nodes, k)
    ensures r.Some? ==> r.value != [] && r.value[|r.value| - 1].Element? && r.value[|r.value| - 1].key == k
    ensures r.Some? ==> forall i :: 0 <= i < |r.value| ==> r.value[i].Element?
    ensures r.Some? ==> r.value[0] in nodes
    ensures r.Some? ==> forall i :: 0 <= i < |r.value| - 1 ==> r.value[i + 1] in r.value[i].children
    decreases nodes
  {
    if nodes == [] then None
    else match ChainNode(nodes[0], k)
      case Some(c) => Some(c)
      case None => Chain(nodes[1..], k)
  }

  function ChainNode(n: Node, k: Key): (r: Option<seq<Node>>)
    ensures r.None? <==> !HasKeyNode(n, k)
    ensures r.Some? ==> r.value != [] && r.value[|r.value| - 1].Element? && r.value[|r.value| - 1].key == k
    ensures r.Some? ==> forall i :: 0 <= i < |r.value| ==> r.value[i].Element?
    ensures r.Some? ==> r.value[0] == n
    ensures r.Some? ==> forall i :: 0 <= i < |r.value| - 1 ==> r.value[i + 1] in r.value[i].children
    decreases n
  {
    if !n.Element? then None
    else if n.key == k then Some([n])
    else match Chain(n.children, k)
      case Some(c) => Some([n] + c)
      case None => None
  }

  /** `closest(tag)` within the chain: the innermost chain element with that tag. */
  function Closest(chain: seq<Node>, tag: string): (r: Option<nat>)
    ensures r.Some? ==> r.value < |chain| && IsElementWith(chain[r.value], {tag})
    ensures r.Some? ==> forall j :: r.value < j < |chain| ==> !IsElementWith(chain[j], {tag})
    ensures r.None? ==> forall j :: 0 <= j < |chain| ==> !IsElementWith(chain[j], {tag})
  {
    if chain == [] then None
    else if IsElementWith(chain[|chain| - 1], {tag}) then Some(|chain| - 1)
    else Closest(chain[..|chain| - 1], tag)
  }

  // ---------------------------------------------------------------------------
  // Fresh keys

  /** Every element key in the forest is below `bound`. */
  predicate KeysBelow(nodes: seq<Node>, bound: Key)
    decreases nodes
  {
    forall i :: 0 <= i < |nodes| ==> KeysBelowNode(nodes[i], bound)
  }

  predicate KeysBelowNode(n: Node, bound: Key)
    decreases n
  {
    n.Element? ==> n.key < bound && KeysBelow(n.children, bound)
  }

  /** One more than the largest key of the forest (0 when it has no element). */
  function KeyBound(nodes: seq<Node>): (b: Key)
    ensures KeysBelow(nodes, b)
    decreases nodes
  {
    if nodes == [] then 0
    else
      var h := KeyBoundNode(nodes[0]);
      var t := KeyBound(nodes[1..]);
      var b := if h < t then t else h;
      KeysBelowMonotone(nodes[1..], t, b);
      KeysBelowNodeMonotone(nodes[0], h, b);
      b
  }

  function KeyBoundNode(n: Node): (b: Key)
    ensures KeysBelowNode(n, b)
    decreases n
  {
    if n.Element? then
      var c := KeyBound(n.children);
      var b := if c <= n.key then n.key + 1 else c;
      KeysBelowMonotone(n.children, c, b);
      b
    else 0
  }

  lemma {:induction false} KeysBelowMonotone(nodes: seq<Node>, b: Key, b': Key)
    requires KeysBelow(nodes, b) && b <= b'
    ensures KeysBelow(nodes, b')
    decreases nodes
  {
    forall i | 0 <= i < |nodes| ensures KeysBelowNode(nodes[i], b') {
      KeysBelowNodeMonotone(nodes[i], b, b');
    }
  }

  lemma {:induction false} KeysBelowNodeMonotone(n: Node, b: Key, b': Key)
    requires KeysBelowNode(n, b) && b <= b'
    ensures KeysBelowNode(n, b')
    decreases n
  {
    if n.Element? {
      KeysBelowMonotone(n.children, b, b');
    }
  }

  // ---------------------------------------------------------------------------
  // What the annotation pass looks at, element by element

  /** The facts the annotation pass reads about one element. */
  datatype Info = Info(key: Key, tag: string, menu: bool, labelled: bool)

  function InfoOf(e: Node): Info
    requires e.Element?
  {
    Info(e.key, e.tag, HasChildMenu(e), HasLabel(e))
  }

  /** The `Info` of every element of a forest. */
  function Infos(nodes: seq<Node>): set<Info>
    decreases nodes
  {
    if nodes == [] then {} else InfosNode(nodes[0]) + Infos(nodes[1..])
  }

  function InfosNode(n: Node): set<Info>
    decreases n
  {
    if n.Element? then {InfoOf(n)} + Infos(n.children) else {}
  }

  lemma {:induction false} InfosAppend(a: seq<Node>, b: seq<Node>)
    ensures Infos(a + b) == Infos(a) + Infos(b)
    decreases a
  {
    if a == [] {
      assert a + b == b;
    } else {
      assert (a + b)[1..] == a[1..] + b;
      InfosAppend(a[1..], b);
    }
  }

  /** A list item that has a child menu and no label yet. */
  predicate IsPending(i: Info) {
    i.tag == "li" && i.menu && !i.labelled
  }

  /** The keys of the list items that still need a label. */
  function PendingIn(s: set<Info>): set<Key> {
    set i | i in s && IsPending(i) :: i.key
  }

  /** The keys of the elements that have a label child. */
  function LabelledIn(s: set<Info>): set<Key> {
    set i | i in s && i.labelled :: i.key
  }

  /** The keys of the elements that have a child menu. */
  function WithMenuIn(s: set<Info>): set<Key> {
    set i | i in s && i.menu :: i.key
  }

  /** The keys of the elements with tag `tag`. */
  function TaggedIn(s: set<Info>, tag: string): set<Key> {
    set i | i in s && i.tag == tag :: i.key
  }

  function Pending(nodes: seq<Node>): set<Key> {
    PendingIn(Infos(nodes))
  }

  function Labelled(nodes: seq<Node>): set<Key> {
    LabelledIn(Infos(nodes))
  }

  function WithMenu(nodes: seq<Node>): set<Key> {
    WithMenuIn(Infos(nodes))
  }

  function ListItems(nodes: seq<Node>): set<Key> {
    TaggedIn(Infos(nodes), "li")
  }

  /** Every element whose `Info` is recorded is reported by `Select` for its tag. */
  lemma {:induction false} InfosAreSelected(nodes: seq<Node>, i: Info)
    requires i in Infos(nodes)
    ensures i.key in Select(nodes, {i.tag})
    decreases nodes
  {
    var n := nodes[0];
    if i in InfosNode(n) {
      if i != InfoOf(n) {
        InfosAreSelected(n.children, i);
      }
    } else {
      InfosAreSelected(nodes[1..], i);
    }
  }

  /** The list items needing a label are all among `querySelectorAll('li')`. */
  lemma PendingAreListItems(nodes: seq<Node>)
    ensures forall k :: k in Pending(nodes) ==> k in Select(nodes, {"li"})
  {
    forall k | k in Pending(nodes) ensures k in Select(nodes, {"li"}) {
      var i :| i in Infos(nodes) && IsPending(i) && i.key == k;
      InfosAreSelected(nodes, i);
    }
  }
}
