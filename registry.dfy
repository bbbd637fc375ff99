/** The checkbox registry (`#inputs`): every checkbox `addLabel` created,
    with its `checked` state, and the three operations that switch them. */
module Registry {
  import opened Values
  import opened Dom
  import opened Annotate

  /** The registered checkboxes, by identity, with their `checked` state. */
  type Inputs = map<Key, bool>

  /** `expandMenu` (`on`) and `closeMenu` (not `on`). */
  function SetAll(inputs: Inputs, on: bool): (r: Inputs)
    ensures r.Keys == inputs.Keys
    ensures forall b :: b in r ==> r[b] == on
  {
    map b | b in inputs :: on
  }

  /** The checked boxes of a registry. */
  function Checked(inputs: Inputs): (r: set<Key>)
    ensures forall b :: b in r <==> b in inputs && inputs[b]
  {
    set b | b in inputs && inputs[b]
  }

  lemma SetAllChecked(inputs: Inputs, on: bool)
    ensures Checked(SetAll(inputs, on)) == if on then inputs.Keys else {}
  {
  }

  // ---------------------------------------------------------------------------
  // closeAllBut

  /** What `closeAllBut(elem)` reads from the tree: the first checkbox under
      `elem` (`own`), the first checkbox under the parent of the list that
      holds `elem` (`open`), and whether that list is a child of the widget
      itself (`atTop`). */
  datatype Click = Click(own: Option<Key>, open: Option<Key>, atTop: bool)

  /** The checkboxes `closeAllBut` leaves alone: the clicked one, and the
      one that opens the enclosing sub-menu unless that sub-menu is the top
      level. */
  function Kept(c: Click, b: Key): (kept: bool)
    ensures kept <==> Some(b) == c.own || (Some(b) == c.open && !c.atTop)
  {
    var isOpen := Some(b) == c.open;
    var isOwn := Some(b) == c.own;
    if !isOpen && !isOwn then false
    else if c.atTop && !isOwn then false
    else true
  }

  /** The loop of `closeAllBut` over the registry. */
  function ClosedAllBut(inputs: Inputs, c: Click): (r: Inputs)
    ensures r.Keys == inputs.Keys
    ensures forall b :: b in r && r[b] ==> Kept(c, b) && inputs[b]
    ensures forall b :: b in r && Kept(c, b) ==> r[b] == inputs[b]
  {
    map b | b in inputs :: if Kept(c, b) then inputs[b] else false
  }

  /** After `closeAllBut` at most two sub-menus are open: the clicked one and
      the one around it; at the top level only the clicked one. */
  lemma ClosedAllButBound(inputs: Inputs, c: Click)
    ensures |Checked(ClosedAllBut(inputs, c))| <= (if c.atTop then 1 else 2)
  {
    var r := ClosedAllBut(inputs, c);
    var own := if c.own.Some? then {c.own.value} else {};
    var open := if c.open.Some? && !c.atTop then {c.open.value} else {};
    assert Checked(r) <= own + open;
    SubsetCard(Checked(r), own + open);
  }

  lemma SubsetCard(a: set<Key>, b: set<Key>)
    requires a <= b
    ensures |a| <= |b|
  {
    assert b == a + (b - a);
  }

  /** A second click on the same label changes nothing more. */
  lemma ClosedAllButIdempotent(inputs: Inputs, c: Click)
    ensures ClosedAllBut(ClosedAllBut(inputs, c), c) == ClosedAllBut(inputs, c)
  {
  }

  /** Closing the whole menu after `closeAllBut` is closing it directly. */
  lemma CloseAfterClosedAllBut(inputs: Inputs, c: Click)
    ensures SetAll(ClosedAllBut(inputs, c), false) == SetAll(inputs, false)
  {
  }

  /** `querySelector('input')` below `nodes`: the first checkbox in
      document order. */
  function FirstInputUnder(nodes: seq<Node>): (r: Option<Key>)
    ensures r.Some? <==> KeysWith(nodes, {"input"}) != {}
    ensures r.Some? ==> r.value in KeysWith(nodes, {"input"})
    ensures r.Some? ==> exists i :: FirstMatchAt(Preorder(nodes), {"input"}, i) && Preorder(nodes)[i].key == r.value
  {
    QuerySelector(nodes, {"input"})
  }

  /** No element of the chain is a `<ul>` or a `<menu>`. */
  predicate NoList(chain: seq<Node>) {
    forall j :: 0 <= j < |chain| ==> !IsElementWith(chain[j], MenuTags)
  }

  /** `elem.closest('ul') || elem.closest('menu')` is the chain element at
      `j`: the innermost `<ul>`, or the innermost `<menu>` when there is no
      `<ul>`. */
  predicate ClosestList(chain: seq<Node>, j: nat)
    requires j < |chain|
  {
    || (IsElementWith(chain[j], {"ul"}) && forall i :: j < i < |chain| ==> !IsElementWith(chain[i], {"ul"}))
    || (&& IsElementWith(chain[j], {"menu"})
        && (forall i :: j < i < |chain| ==> !IsElementWith(chain[i], {"menu"}))
        && (forall i :: 0 <= i < |chain| ==> !IsElementWith(chain[i], {"ul"})))
  }

  /** The `Click` of `closeAllBut(elem)`, where `elem` is the element with
      key `elem` in the widget's tree. `None` when `elem` is not in the
      tree, or when no `<ul>` or `<menu>` encloses it there: the source then
      fails on `menu.parentElement` before changing anything. */
  function ClickOn(roots: seq<Node>, elem: Key): (r: Option<Click>)
    ensures r.None? <==> Chain(roots, elem).None? || NoList(Chain(roots, elem).value)
    ensures !HasKey(roots, elem) ==> r.None?
    ensures r.Some? ==>
      var chain := Chain(roots, elem).value;
      && r.value.own == FirstInputUnder(chain[|chain| - 1].children)
      && exists j :: 0 <= j < |chain| && ClosestList(chain, j)
           && r.value.atTop == (j == 0)
           && r.value.open == (if j == 0 then FirstInputUnder(roots) else FirstInputUnder(chain[j - 1].children))
  {
    match Chain(roots, elem)
    case None => None
    case Some(chain) =>
      var menu := match Closest(chain, "ul") case Some(j) => Some(j) case None => Closest(chain, "menu");
      match menu
      case None => None
      case Some(j) =>
        var own := FirstInputUnder(chain[|chain| - 1].children);
        assert ClosestList(chain, j);
        if j == 0 then Some(Click(own, FirstInputUnder(roots), true))
        else Some(Click(own, FirstInputUnder(chain[j - 1].children), false))
  }

  /** Clicking a label `addLabel` made finds that label's own checkbox as
      `elem.querySelector('input')`, so `closeAllBut` leaves it alone. */
  lemma LabelOwnsCheckbox(li: Node, lk: Key, bk: Key)
    requires li.Element?
    ensures FirstInputUnder(LabelFor(li, lk, bk).children) == Some(bk)
  {
    var ch := LabelFor(li, lk, bk).children;
    assert ch == [Checkbox(bk)] + [Caption(li)];
    SelectAppend([Checkbox(bk)], [Caption(li)], {"input"});
    assert Select([Checkbox(bk)], {"input"}) == [bk];
  }
}
