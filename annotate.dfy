/** The label-and-checkbox annotation of list items: `addLabel` on one item,
    and the guarded pass that `init` runs over every list item and
    `observeMenu` runs over a batch of added nodes. */
module Annotate {
  import opened Values
  import opened Dom

  /** The checkbox `addLabel` creates: a hidden `wm-checkbox` input. Its
      `checked` property lives in the widget's registry, not in the tree. */
  function Checkbox(k: Key): Node {
    Element(k, "input", map["type" := "checkbox", "name" := "wm-checkbox", "hidden" := "true"], {}, [])
  }

  /** The node `addLabel` moves into the label: the item's first text or link.
      Without one, `label.append(null)` appends the text "null". */
  function Caption(li: Node): Node
    requires li.Element?
  {
    match FirstTextOrLink(li)
    case Some(m) => li.children[m]
    case None => Text("null")
  }

  /** The caption is the item's first text-or-link child node, moved as it
      is; an item without one gets the text "null". */
  lemma CaptionSpec(li: Node)
    requires li.Element?
    ensures FirstTextOrLink(li).None? ==> Caption(li) == Text("null")
    ensures FirstTextOrLink(li).Some? ==>
      && IsTextOrLink(Caption(li))
      && exists m :: 0 <= m < |li.children| && li.children[m] == Caption(li)
           && forall j :: 0 <= j < m ==> !IsTextOrLink(li.children[j])
  {
    if FirstTextOrLink(li).Some? {
      var m := FirstTextOrLink(li).value;
      assert li.children[m] == Caption(li);
    }
  }

  /** The new checkbox is a hidden checkbox input with no content: it is
      neither a list item, a menu nor a label, and it is the first (and
      only) input of its own subtree. */
  lemma CheckboxSpec(k: Key)
    ensures Checkbox(k).attrs["type"] == "checkbox" && Checkbox(k).attrs["name"] == "wm-checkbox"
    ensures "hidden" in Checkbox(k).attrs
    ensures Infos([Checkbox(k)]) == {Info(k, "input", false, false)}
    ensures QuerySelector([Checkbox(k)], {"input"}) == Some(k)
  {
    InfosSingle(Checkbox(k));
    assert Select([Checkbox(k)], {"input"}) == [k];
  }

  /** The item's children once the caption has been moved out of them. */
  function Rest(li: Node): seq<Node>
    requires li.Element?
  {
    match FirstTextOrLink(li)
    case Some(m) => li.children[..m] + li.children[m + 1..]
    case None => li.children
  }

  function LabelFor(li: Node, lk: Key, bk: Key): Node
    requires li.Element?
  {
    Element(lk, "label", map[], {}, [Checkbox(bk), Caption(li)])
  }

  /** `addLabel` on one item: a new label, holding the checkbox `bk` and then
      the caption, becomes the first child; the other children follow in
      their old order. */
  function WithLabel(li: Node, lk: Key, bk: Key): (r: Node)
    requires li.Element?
    ensures r.Element? && r.key == li.key && r.tag == li.tag
    ensures r.attrs == li.attrs && r.classes == li.classes
    ensures |r.children| >= 1 && r.children[0] == LabelFor(li, lk, bk)
    ensures match FirstTextOrLink(li)
      case Some(m) => r.children[1..] == li.children[..m] + li.children[m + 1..]
                      && multiset(r.children[0].children[1..] + r.children[1..]) == multiset(li.children)
      case None => r.children[1..] == li.children
    ensures HasLabel(r)
    ensures HasChildMenu(r) == HasChildMenu(li)
  {
    var r := li.(children := [LabelFor(li, lk, bk)] + Rest(li));
    LabelledFacts(li, lk, bk, r);
    r
  }

  lemma LabelledFacts(li: Node, lk: Key, bk: Key, r: Node)
    requires li.Element? && r == li.(children := [LabelFor(li, lk, bk)] + Rest(li))
    ensures HasLabel(r) && HasChildMenu(r) == HasChildMenu(li)
    ensures FirstTextOrLink(li).Some? ==>
      multiset(r.children[0].children[1..] + r.children[1..]) == multiset(li.children)
  {
    assert IsElementWith(r.children[0], LabelTags);
    if FirstTextOrLink(li).Some? {
      var m := FirstTextOrLink(li).value;
      MoveOutMultiset(li.children, m);
      assert r.children[0].children[1..] == [li.children[m]];
    }
    MenuSurvives(li, lk, bk, r);
  }

  /** Moving one node to the front keeps the multiset of nodes. */
  lemma MoveOutMultiset(ch: seq<Node>, m: nat)
    requires m < |ch|
    ensures multiset([ch[m]] + (ch[..m] + ch[m + 1..])) == multiset(ch)
  {
    assert ch == ch[..m] + [ch[m]] + ch[m + 1..];
  }

  lemma CaptionIsNoMenu(li: Node)
    requires li.Element?
    ensures !IsElementWith(Caption(li), MenuTags) && !IsElementWith(Caption(li), LabelTags)
  {
  }

  /** The children of `r` are a label followed by `Rest(li)`: the menus of
      `li` are exactly the menus of `r`. */
  lemma MenuSurvives(li: Node, lk: Key, bk: Key, r: Node)
    requires li.Element? && r.Element?
    requires r.children == [LabelFor(li, lk, bk)] + Rest(li)
    ensures HasChildMenu(r) == HasChildMenu(li)
  {
    CaptionIsNoMenu(li);
    var ch := li.children;
    AnyChildWithAppend([LabelFor(li, lk, bk)], Rest(li), MenuTags);
    match FirstTextOrLink(li)
    case None =>
    case Some(m) => AnyChildWithoutOne(ch, m, MenuTags);
  }

  /** Taking out a node without one of the tags keeps the answer of `AnyChildWith`. */
  lemma AnyChildWithoutOne(ch: seq<Node>, m: nat, tags: set<string>)
    requires m < |ch| && !IsElementWith(ch[m], tags)
    ensures AnyChildWith(ch[..m] + ch[m + 1..], tags) == AnyChildWith(ch, tags)
  {
    assert ch == ch[..m] + ([ch[m]] + ch[m + 1..]);
    AnyChildWithAppend(ch[..m], [ch[m]] + ch[m + 1..], tags);
    AnyChildWithAppend([ch[m]], ch[m + 1..], tags);
    AnyChildWithAppend(ch[..m], ch[m + 1..], tags);
  }

  lemma AnyChildWithAppend(a: seq<Node>, b: seq<Node>, tags: set<string>)
    ensures AnyChildWith(a + b, tags) == (AnyChildWith(a, tags) || AnyChildWith(b, tags))
  {
    if AnyChildWith(a + b, tags) {
      var i :| 0 <= i < |a + b| && IsElementWith((a + b)[i], tags);
      if i < |a| {
        assert IsElementWith(a[i], tags);
      } else {
        assert IsElementWith(b[i - |a|], tags);
      }
    }
    if AnyChildWith(a, tags) {
      var i :| 0 <= i < |a| && IsElementWith(a[i], tags);
      assert IsElementWith((a + b)[i], tags);
    }
    if AnyChildWith(b, tags) {
      var i :| 0 <= i < |b| && IsElementWith(b[i], tags);
      assert IsElementWith((a + b)[i + |a|], tags);
    }
  }

  // ---------------------------------------------------------------------------
  // addLabel on the element with a given identity, wherever it is in the tree

  /** Rewrites the element with key `k` by `WithLabel`; nothing else in the
      tree is touched. */
  function LabelIn(nodes: seq<Node>, k: Key, lk: Key, bk: Key): (r: seq<Node>)
    ensures |r| == |nodes|
    ensures forall i :: 0 <= i < |r| ==> r[i] == LabelInNode(nodes[i], k, lk, bk)
    ensures !HasKey(nodes, k) ==> r == nodes
    decreases nodes
  {
    if nodes == [] then []
    else
      var r := [LabelInNode(nodes[0], k, lk, bk)] + LabelIn(nodes[1..], k, lk, bk);
      assert !HasKey(nodes, k) ==> r == [nodes[0]] + nodes[1..] == nodes;
      r
  }

  function LabelInNode(n: Node, k: Key, lk: Key, bk: Key): (r: Node)
    ensures r.Element? == n.Element?
    ensures n.Element? ==> r.key == n.key && r.tag == n.tag
    ensures !n.Element? ==> r == n
    ensures !HasKeyNode(n, k) ==> r == n
    ensures n.Element? && n.key == k ==> r == WithLabel(n.(children := LabelIn(n.children, k, lk, bk)), lk, bk)
    decreases n
  {
    if !n.Element? then n
    else
      var n' := n.(children := LabelIn(n.children, k, lk, bk));
      if n.key == k then WithLabel(n', lk, bk) else n'
  }

  /** Rewriting inside the children keeps each child's kind and tag, so the
      `hasChildMenu` and `hasLabel` answers of the parent are unchanged. */
  lemma LabelInKeepsTags(nodes: seq<Node>, k: Key, lk: Key, bk: Key, tags: set<string>)
    ensures AnyChildWith(LabelIn(nodes, k, lk, bk), tags) == AnyChildWith(nodes, tags)
  {
    var r := LabelIn(nodes, k, lk, bk);
    assert forall i :: 0 <= i < |r| ==> (IsElementWith(r[i], tags) <==> IsElementWith(nodes[i], tags));
  }

  /** How one `addLabel` changes the facts about the elements: every element
      with key `k` now has a label, and a label `lk` and a checkbox `bk`
      appear when such an element exists. */
  ghost function Relabel(s: set<Info>, k: Key, lk: Key, bk: Key): set<Info> {
    (set i | i in s :: Touch(i, k))
    + (if exists i :: i in s && i.key == k
       then {Info(lk, "label", false, false), Info(bk, "input", false, false)} else {})
  }

  function Touch(i: Info, k: Key): Info {
    if i.key == k then i.(labelled := true) else i
  }

  lemma RelabelUnion(a: set<Info>, b: set<Info>, k: Key, lk: Key, bk: Key)
    ensures Relabel(a + b, k, lk, bk) == Relabel(a, k, lk, bk) + Relabel(b, k, lk, bk)
  {
    var ta := set i | i in a :: Touch(i, k);
    var tb := set i | i in b :: Touch(i, k);
    assert (set i | i in a + b :: Touch(i, k)) == ta + tb;
  }

  lemma {:induction false} LabelInInfos(nodes: seq<Node>, k: Key, lk: Key, bk: Key)
    ensures Infos(LabelIn(nodes, k, lk, bk)) == Relabel(Infos(nodes), k, lk, bk)
    decreases nodes
  {
    if nodes == [] {
      assert Relabel({}, k, lk, bk) == {};
    } else {
      var r := LabelIn(nodes, k, lk, bk);
      assert r == [r[0]] + r[1..];
      assert r[1..] == LabelIn(nodes[1..], k, lk, bk);
      LabelInNodeInfos(nodes[0], k, lk, bk);
      LabelInInfos(nodes[1..], k, lk, bk);
      RelabelUnion(InfosNode(nodes[0]), Infos(nodes[1..]), k, lk, bk);
    }
  }

  lemma {:induction false} LabelInNodeInfos(n: Node, k: Key, lk: Key, bk: Key)
    ensures InfosNode(LabelInNode(n, k, lk, bk)) == Relabel(InfosNode(n), k, lk, bk)
    decreases n
  {
    if !n.Element? {
      assert Relabel({}, k, lk, bk) == {};
    } else {
      var n' := n.(children := LabelIn(n.children, k, lk, bk));
      LabelInInfos(n.children, k, lk, bk);
      InfoKept(n, k, lk, bk);
      RelabelUnion({InfoOf(n)}, Infos(n.children), k, lk, bk);
      RelabelSingle(InfoOf(n), k, lk, bk);
      if n.key == k {
        LabelledInfos(n', lk, bk);
      }
    }
  }

  lemma InfoKept(n: Node, k: Key, lk: Key, bk: Key)
    requires n.Element?
    ensures InfoOf(n.(children := LabelIn(n.children, k, lk, bk))) == InfoOf(n)
  {
    LabelInKeepsTags(n.children, k, lk, bk, MenuTags);
    LabelInKeepsTags(n.children, k, lk, bk, LabelTags);
  }

  lemma RelabelSingle(i: Info, k: Key, lk: Key, bk: Key)
    ensures i.key == k ==>
              Relabel({i}, k, lk, bk)
              == {Touch(i, k), Info(lk, "label", false, false), Info(bk, "input", false, false)}
    ensures i.key != k ==> Relabel({i}, k, lk, bk) == {i}
  {
    assert (set j | j in {i} :: Touch(j, k)) == {Touch(i, k)};
  }

  lemma LabelledInfos(li: Node, lk: Key, bk: Key)
    requires li.Element?
    ensures InfosNode(WithLabel(li, lk, bk))
      == {Touch(InfoOf(li), li.key), Info(lk, "label", false, false), Info(bk, "input", false, false)}
         + Infos(li.children)
  {
    var r := WithLabel(li, lk, bk);
    assert InfoOf(r) == Touch(InfoOf(li), li.key);
    LabelInfos(li, lk, bk);
  }

  /** The new first child adds the label's and the checkbox's facts; the
      caption keeps its own. */
  lemma LabelInfos(li: Node, lk: Key, bk: Key)
    requires li.Element?
    ensures Infos([LabelFor(li, lk, bk)] + Rest(li))
      == {Info(lk, "label", false, false), Info(bk, "input", false, false)} + Infos(li.children)
  {
    InfosAppend([LabelFor(li, lk, bk)], Rest(li));
    InfosSingle(LabelFor(li, lk, bk));
    LabelNodeInfos(li, lk, bk);
    CaptionInfos(li);
  }

  lemma InfosSingle(n: Node)
    ensures Infos([n]) == InfosNode(n)
  {
    assert [n][1..] == [];
  }

  lemma LabelNodeInfos(li: Node, lk: Key, bk: Key)
    requires li.Element?
    ensures InfosNode(LabelFor(li, lk, bk))
      == {Info(lk, "label", false, false), Info(bk, "input", false, false)} + InfosNode(Caption(li))
  {
    LabelInfoOf(li, lk, bk);
    LabelChildrenInfos(li, bk);
  }

  lemma LabelInfoOf(li: Node, lk: Key, bk: Key)
    requires li.Element?
    ensures InfoOf(LabelFor(li, lk, bk)) == Info(lk, "label", false, false)
  {
    var ch := LabelFor(li, lk, bk).children;
    CaptionIsNoMenu(li);
    assert !IsElementWith(ch[0], MenuTags) && !IsElementWith(ch[0], LabelTags);
    assert !IsElementWith(ch[1], MenuTags) && !IsElementWith(ch[1], LabelTags);
  }

  lemma LabelChildrenInfos(li: Node, bk: Key)
    requires li.Element?
    ensures Infos([Checkbox(bk), Caption(li)]) == {Info(bk, "input", false, false)} + InfosNode(Caption(li))
  {
    var c := Caption(li);
    assert [Checkbox(bk), c] == [Checkbox(bk)] + [c];
    InfosAppend([Checkbox(bk)], [c]);
    InfosSingle(Checkbox(bk));
    InfosSingle(c);
    assert InfosNode(Checkbox(bk)) == {Info(bk, "input", false, false)};
  }

  lemma CaptionInfos(li: Node)
    requires li.Element?
    ensures InfosNode(Caption(li)) + Infos(Rest(li)) == Infos(li.children)
  {
    match FirstTextOrLink(li)
    case None =>
    case Some(m) => InfosSplit(li.children, m);
  }

  /** Taking one node out of a list splits the facts between it and the rest. */
  lemma InfosSplit(ch: seq<Node>, m: nat)
    requires m < |ch|
    ensures InfosNode(ch[m]) + Infos(ch[..m] + ch[m + 1..]) == Infos(ch)
  {
    assert ch == ch[..m] + ([ch[m]] + ch[m + 1..]);
    InfosAppend(ch[..m], [ch[m]] + ch[m + 1..]);
    InfosAppend([ch[m]], ch[m + 1..]);
    InfosAppend(ch[..m], ch[m + 1..]);
    InfosSingle(ch[m]);
  }

  // ---------------------------------------------------------------------------
  // What one addLabel does to the facts the pass reads

  lemma RelabelViews(s: set<Info>, k: Key, lk: Key, bk: Key)
    ensures PendingIn(Relabel(s, k, lk, bk)) == PendingIn(s) - {k}
    ensures WithMenuIn(Relabel(s, k, lk, bk)) == WithMenuIn(s)
    ensures TaggedIn(Relabel(s, k, lk, bk), "li") == TaggedIn(s, "li")
    ensures k in PendingIn(s) ==> LabelledIn(Relabel(s, k, lk, bk)) == LabelledIn(s) + {k}
  {
    var r := Relabel(s, k, lk, bk);
    assert forall i :: i in s ==> Touch(i, k) in r;
    forall j | j in PendingIn(s) - {k} ensures j in PendingIn(r) {
      var i :| i in s && IsPending(i) && i.key == j;
      assert Touch(i, k) == i;
    }
    forall j | j in WithMenuIn(s) ensures j in WithMenuIn(r) {
      var i :| i in s && i.menu && i.key == j;
      assert Touch(i, k).menu;
    }
    forall j | j in TaggedIn(s, "li") ensures j in TaggedIn(r, "li") {
      var i :| i in s && i.tag == "li" && i.key == j;
      assert Touch(i, k).tag == "li";
    }
    if k in PendingIn(s) {
      var i :| i in s && IsPending(i) && i.key == k;
      assert Touch(i, k).labelled;
      forall j | j in LabelledIn(s) ensures j in LabelledIn(r) {
        var i' :| i' in s && i'.labelled && i'.key == j;
        assert Touch(i', k).labelled;
      }
    }
  }

  lemma {:induction false} LabelInKeysBelow(nodes: seq<Node>, k: Key, lk: Key, bk: Key, bound: Key)
    requires KeysBelow(nodes, bound) && lk < bound && bk < bound
    ensures KeysBelow(LabelIn(nodes, k, lk, bk), bound)
    decreases nodes
  {
    forall i | 0 <= i < |nodes| ensures KeysBelowNode(LabelIn(nodes, k, lk, bk)[i], bound) {
      LabelInNodeKeysBelow(nodes[i], k, lk, bk, bound);
    }
  }

  lemma {:induction false} LabelInNodeKeysBelow(n: Node, k: Key, lk: Key, bk: Key, bound: Key)
    requires KeysBelowNode(n, bound) && lk < bound && bk < bound
    ensures KeysBelowNode(LabelInNode(n, k, lk, bk), bound)
    decreases n
  {
    if n.Element? {
      LabelInKeysBelow(n.children, k, lk, bk, bound);
      if n.key == k {
        WithLabelKeysBelow(n.(children := LabelIn(n.children, k, lk, bk)), lk, bk, bound);
      }
    }
  }

  lemma WithLabelKeysBelow(li: Node, lk: Key, bk: Key, bound: Key)
    requires li.Element? && KeysBelowNode(li, bound) && lk < bound && bk < bound
    ensures KeysBelowNode(WithLabel(li, lk, bk), bound)
  {
    var ch := li.children;
    var r := WithLabel(li, lk, bk);
    assert KeysBelowNode(Caption(li), bound) by {
      match FirstTextOrLink(li)
      case None =>
      case Some(m) => assert KeysBelowNode(ch[m], bound);
    }
    assert KeysBelowNode(Checkbox(bk), bound);
    assert KeysBelow(LabelFor(li, lk, bk).children, bound);
    RestKeysBelow(li, bound);
    assert r.children == [r.children[0]] + Rest(li);
  }

  lemma RestKeysBelow(li: Node, bound: Key)
    requires li.Element? && KeysBelow(li.children, bound)
    ensures KeysBelow(Rest(li), bound)
  {
    var ch := li.children;
    match FirstTextOrLink(li)
    case None =>
    case Some(m) =>
      forall i | 0 <= i < |Rest(li)| ensures KeysBelowNode(Rest(li)[i], bound) {
        if i < m {
          assert Rest(li)[i] == ch[i];
        } else {
          assert Rest(li)[i] == ch[i + 1];
        }
      }
  }

  // ---------------------------------------------------------------------------
  // The guarded annotation pass of `init` and `observeMenu`

  /** The state the pass reads and writes: the widget's children, the
      checkbox registry (`#inputs`, with each checkbox's `checked`), and the
      next fresh element identity. */
  datatype Pass = Pass(roots: seq<Node>, inputs: map<Key, bool>, next: Key)

  /** Every element of the tree and every registered checkbox has an
      identity below `next`. */
  predicate Fresh(p: Pass) {
    KeysBelow(p.roots, p.next) && forall b :: b in p.inputs ==> b < p.next
  }

  /** `addLabel` on the element `k`: creates the label `next` and the
      checkbox `next + 1`, registers the checkbox checked iff `expand`. */
  function AddLabel(p: Pass, k: Key, expand: bool): (q: Pass)
    requires Fresh(p)
    ensures Fresh(q) && q.next == p.next + 2
    ensures q.inputs == p.inputs[p.next + 1 := expand] && p.next + 1 !in p.inputs
    ensures Pending(q.roots) == Pending(p.roots) - {k}
    ensures WithMenu(q.roots) == WithMenu(p.roots)
    ensures ListItems(q.roots) == ListItems(p.roots)
    ensures k in Pending(p.roots) ==> Labelled(q.roots) == Labelled(p.roots) + {k}
  {
    var q := Pass(LabelIn(p.roots, k, p.next, p.next + 1), p.inputs[p.next + 1 := expand], p.next + 2);
    LabelInInfos(p.roots, k, p.next, p.next + 1);
    RelabelViews(Infos(p.roots), k, p.next, p.next + 1);
    KeysBelowMonotone(p.roots, p.next, p.next + 2);
    LabelInKeysBelow(p.roots, k, p.next, p.next + 1, p.next + 2);
    q
  }

  /** One iteration: `if (hasChildMenu(li)) if (!hasLabel(li)) addLabel(li)`,
      where `li` is the list item with key `k`. */
  function Visit(p: Pass, k: Key, expand: bool): (q: Pass)
    requires Fresh(p)
    ensures Fresh(q) && p.next <= q.next
  {
    if k in Pending(p.roots) then AddLabel(p, k, expand) else p
  }

  /** One iteration labels `k` if it is pending and changes nothing
      otherwise; a labelled item gets exactly one new checkbox, checked iff
      `expand`. */
  lemma VisitSpec(p: Pass, k: Key, expand: bool)
    requires Fresh(p)
    ensures var q := Visit(p, k, expand);
      && (k !in Pending(p.roots) ==> q == p)
      && Pending(q.roots) == Pending(p.roots) - {k}
      && Labelled(q.roots) == Labelled(p.roots) + (Pending(p.roots) * {k})
      && WithMenu(q.roots) == WithMenu(p.roots) && ListItems(q.roots) == ListItems(p.roots)
      && (k in Pending(p.roots) ==>
            && p.next !in q.inputs && p.next + 1 in q.inputs && q.inputs[p.next + 1] == expand
            && |q.inputs| == |p.inputs| + 1)
  {
  }

  /** The pass over `ks` in order. */
  function Annotated(p: Pass, ks: seq<Key>, expand: bool): (q: Pass)
    requires Fresh(p)
    ensures Fresh(q) && p.next <= q.next
    decreases |ks|
  {
    if ks == [] then p else Visit(Annotated(p, ks[..|ks| - 1], expand), ks[|ks| - 1], expand)
  }

  function Elems(ks: seq<Key>): (r: set<Key>)
    ensures forall k :: k in r <==> k in ks
  {
    set k | k in ks
  }

  /** What the pass over `ks` does to the tree: it labels exactly the
      pending items among `ks` and leaves the sub-menus and list items alone. */
  lemma {:induction false} AnnotatedViews(p: Pass, ks: seq<Key>, expand: bool)
    requires Fresh(p)
    ensures var q := Annotated(p, ks, expand);
      && Pending(q.roots) == Pending(p.roots) - Elems(ks)
      && Labelled(q.roots) == Labelled(p.roots) + Pending(p.roots) * Elems(ks)
      && WithMenu(q.roots) == WithMenu(p.roots)
      && ListItems(q.roots) == ListItems(p.roots)
    decreases |ks|
  {
    if ks != [] {
      var n := |ks| - 1;
      assert ks == ks[..n] + [ks[n]];
      assert Elems(ks) == Elems(ks[..n]) + {ks[n]};
      AnnotatedViews(p, ks[..n], expand);
    }
  }

  /** What the pass over `ks` does to the registry: each label it adds
      comes with one new checkbox, checked iff `expand`, with a fresh
      identity; the checkboxes already registered keep their state. */
  lemma {:induction false} AnnotatedRegistry(p: Pass, ks: seq<Key>, expand: bool)
    requires Fresh(p)
    ensures var q := Annotated(p, ks, expand);
      && |p.inputs| <= |q.inputs|
      && q.next == p.next + 2 * (|q.inputs| - |p.inputs|)
      && p.inputs.Keys <= q.inputs.Keys
      && (forall b :: b in p.inputs ==> q.inputs[b] == p.inputs[b])
      && (forall b :: b in q.inputs && b !in p.inputs ==> p.next <= b < q.next && q.inputs[b] == expand)
    decreases |ks|
  {
    if ks != [] {
      var n := |ks| - 1;
      AnnotatedRegistry(p, ks[..n], expand);
      var m := Annotated(p, ks[..n], expand);
      var q := Annotated(p, ks, expand);
      assert q == Visit(m, ks[n], expand);
      VisitRegistry(m, ks[n], expand);
      if q != m {
        RegistryStep(p, m, q, expand, |m.inputs| - |p.inputs|);
      }
    }
  }

  /** One iteration either changes nothing or registers the checkbox
      `next + 1` and moves `next` past the two new elements. */
  lemma VisitRegistry(m: Pass, k: Key, expand: bool)
    requires Fresh(m)
    ensures var q := Visit(m, k, expand);
      || q == m
      || (q.next == m.next + 2 && q.inputs == m.inputs[m.next + 1 := expand] && m.next + 1 !in m.inputs)
  {
  }

  /** The pass registers exactly one checkbox per pending item among `ks`. */
  lemma {:induction false} AnnotatedCount(p: Pass, ks: seq<Key>, expand: bool)
    requires Fresh(p)
    ensures |Annotated(p, ks, expand).inputs| == |p.inputs| + |Pending(p.roots) * Elems(ks)|
    decreases |ks|
  {
    if ks != [] {
      var n := |ks| - 1;
      var init := ks[..n];
      var k := ks[n];
      assert ks == init + [k];
      assert Elems(ks) == Elems(init) + {k};
      AnnotatedCount(p, init, expand);
      AnnotatedViews(p, init, expand);
      var m := Annotated(p, init, expand);
      var P := Pending(p.roots);
      if k in Pending(m.roots) {
        CountStep(P, Elems(init), k);
      } else {
        assert P * Elems(ks) == P * Elems(init);
      }
    }
  }

  lemma CountStep(P: set<Key>, E: set<Key>, k: Key)
    requires k in P && k !in E
    ensures |P * (E + {k})| == |P * E| + 1
  {
    assert P * (E + {k}) == P * E + {k};
  }

  lemma RegistryStep(p: Pass, m: Pass, q: Pass, expand: bool, c: nat)
    requires m.next == p.next + 2 * c && |m.inputs| == |p.inputs| + c
    requires p.inputs.Keys <= m.inputs.Keys
    requires forall b :: b in p.inputs ==> m.inputs[b] == p.inputs[b]
    requires forall b :: b in m.inputs && b !in p.inputs ==> p.next <= b < m.next && m.inputs[b] == expand
    requires q.next == m.next + 2 && q.inputs == m.inputs[m.next + 1 := expand] && m.next + 1 !in m.inputs
    ensures q.next == p.next + 2 * (c + 1) && |q.inputs| == |p.inputs| + (c + 1)
    ensures p.inputs.Keys <= q.inputs.Keys
    ensures forall b :: b in p.inputs ==> q.inputs[b] == p.inputs[b]
    ensures forall b :: b in q.inputs && b !in p.inputs ==> p.next <= b < q.next && q.inputs[b] == expand
  {
  }

  /** Running the pass over `xs` and then over `ys` is running it over
      `xs + ys`. */
  lemma {:induction false} AnnotatedConcat(p: Pass, xs: seq<Key>, ys: seq<Key>, expand: bool)
    requires Fresh(p)
    ensures Annotated(Annotated(p, xs, expand), ys, expand) == Annotated(p, xs + ys, expand)
    decreases |ys|
  {
    if ys == [] {
      assert xs + ys == xs;
    } else {
      var n := |ys| - 1;
      AnnotatedConcat(p, xs, ys[..n], expand);
      assert (xs + ys)[..|xs + ys| - 1] == xs + ys[..n];
    }
  }

  /** Once an item has been visited, visiting it again changes nothing. */
  lemma {:induction false} AnnotatedIdle(p: Pass, ks: seq<Key>, expand: bool)
    requires Fresh(p) && Pending(p.roots) * Elems(ks) == {}
    ensures Annotated(p, ks, expand) == p
    decreases |ks|
  {
    if ks != [] {
      var n := |ks| - 1;
      assert Elems(ks[..n]) <= Elems(ks);
      AnnotatedIdle(p, ks[..n], expand);
      assert ks[n] in Elems(ks);
      assert ks[n] !in Pending(p.roots) * Elems(ks);
    }
  }

  /** Running the pass a second time over the same items is a no-op. */
  lemma AnnotatedIdempotent(p: Pass, ks: seq<Key>, expand: bool)
    requires Fresh(p)
    ensures var q := Annotated(p, ks, expand); Annotated(q, ks, expand) == q
  {
    AnnotatedViews(p, ks, expand);
    AnnotatedIdle(Annotated(p, ks, expand), ks, expand);
  }

  /** The pass over every list item of the tree, as `init` runs it, leaves no
      item with a sub-menu and without a label. */
  lemma AnnotatedAll(p: Pass, expand: bool)
    requires Fresh(p)
    ensures Pending(Annotated(p, Select(p.roots, {"li"}), expand).roots) == {}
  {
    var ks := Select(p.roots, {"li"});
    AnnotatedViews(p, ks, expand);
    forall k | k in Pending(p.roots) ensures k in Elems(ks) {
      var i :| i in Infos(p.roots) && IsPending(i) && i.key == k;
      InfosAreSelected(p.roots, i);
    }
  }

  // ---------------------------------------------------------------------------
  // The cases the source documents for its helpers

  function Elem(k: Key, tag: string, children: seq<Node>): Node {
    Element(k, tag, map[], {}, children)
  }

  /** A blank item has no caption; `'foo <menu>bar</menu>'` has its text as
      caption; `'<a>foo</a><menu>bar</menu>'` has its link. */
  lemma CaptionExamples()
    ensures FirstTextOrLink(Elem(1, "li", [])) == None
    ensures FirstTextOrLink(Elem(1, "li", [Text("foo "), Elem(2, "menu", [Text("bar")])])) == Some(0)
    ensures FirstTextOrLink(Elem(1, "li", [Elem(3, "a", [Text("foo")]), Elem(2, "menu", [Text("bar")])])) == Some(0)
  {
    assert !IsJsSpace("foo "[0]);
  }

  /** The widget's content once an item holding
      `<a>bar</a><menu><li><a>baz</a></li></menu>` has been appended to an
      empty widget: the item is a direct child of the element. */
  function AppendedExample(): seq<Node> {
    [Elem(1, "li", [Elem(2, "a", [Text("bar")]), Elem(3, "menu", [Elem(4, "li", [Elem(5, "a", [Text("baz")])])])])]
  }

  lemma AppendedExampleKeys()
    ensures KeysBelow(AppendedExample(), 6)
  {
    var li := AppendedExample()[0];
    var menu3 := li.children[1];
    var inner := menu3.children[0];
    assert KeysBelowNode(inner.children[0], 6) && KeysBelowNode(li.children[0], 6);
    assert KeysBelowNode(inner, 6);
    assert KeysBelowNode(menu3, 6);
    assert KeysBelow(li.children, 6);
    assert KeysBelowNode(li, 6);
  }

  lemma AppendedExampleInfos()
    ensures Pending(AppendedExample()) == {1} && Labelled(AppendedExample()) == {}
  {
    var li := AppendedExample()[0];
    var a2 := li.children[0];
    var menu3 := li.children[1];
    var inner := menu3.children[0];
    var a5 := inner.children[0];
    InfosSingle(a5);
    InfosSingle(inner);
    InfosSingle(menu3);
    InfosSingle(a2);
    assert Infos(li.children) == {InfoOf(a2), InfoOf(menu3), InfoOf(inner), InfoOf(a5)} by {
      InfosAppend([a2], [menu3]);
      assert li.children == [a2] + [menu3];
    }
    InfosSingle(li);
    var all := Infos(AppendedExample());
    assert all == {InfoOf(li), InfoOf(a2), InfoOf(menu3), InfoOf(inner), InfoOf(a5)};
    assert HasChildMenu(li) by { assert IsElementWith(li.children[1], MenuTags); }
    assert !HasLabel(li) && !HasChildMenu(inner) && !HasLabel(inner);
    assert !HasLabel(menu3) && !HasLabel(a2) && !HasLabel(a5);
  }

  /** The observer's record reports the appended item, possibly with other
      nodes: the item, which has a sub-menu, gets a label and one unchecked
      checkbox, and nothing is left pending. */
  lemma AppendedItemIsLabelled(p: Pass, ks: seq<Key>)
    requires p.roots == AppendedExample() && p.inputs == map[] && p.next == 6
    requires 1 in Elems(ks)
    ensures Fresh(p)
    ensures var q := Annotated(p, ks, false);
      && Labelled(q.roots) == {1} && Pending(q.roots) == {}
      && |q.inputs| == 1 && forall b :: b in q.inputs ==> !q.inputs[b]
  {
    AppendedExampleKeys();
    AppendedExampleInfos();
    OnePendingItem(p, ks);
  }

  /** A pass that visits exactly one pending item labels that item and adds
      one unchecked checkbox. */
  lemma OnePendingItem(p: Pass, ks: seq<Key>)
    requires Fresh(p) && p.inputs == map[]
    requires Pending(p.roots) * Elems(ks) == {1}
    ensures var q := Annotated(p, ks, false);
      && Labelled(q.roots) == Labelled(p.roots) + {1} && Pending(q.roots) == Pending(p.roots) - {1}
      && |q.inputs| == 1 && forall b :: b in q.inputs ==> !q.inputs[b]
  {
    AnnotatedViews(p, ks, false);
    AnnotatedRegistry(p, ks, false);
    AnnotatedCount(p, ks, false);
  }
}
