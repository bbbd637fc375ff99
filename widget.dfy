/** The `WijitMenu` element: its tree of menu items, its checkbox registry,
    its options, and the methods that change them. */
module Widget {
  import opened Values
  import opened Dom
  import opened Annotate
  import opened Styles
  import opened Registry
  import opened Attributes

  /** An accepted attribute change, as the `change` event reports it. */
  datatype Change = Change(attr: Attr, before: Value, after: Value)

  /** The added nodes of a list of mutation records, in order. */
  function Flat(records: seq<seq<Key>>): (r: seq<Key>)
    ensures forall k :: k in r <==> exists i :: 0 <= i < |records| && k in records[i]
  {
    if records == [] then []
    else
      var n := |records| - 1;
      var r := Flat(records[..n]) + records[n];
      assert forall i :: 0 <= i < n ==> records[..n][i] == records[i];
      r
  }

  /** The tree `init` runs the label pass on: the style class applied when
      the element has no `type` attribute, then the `tabindex`. */
  function Prepared(roots: seq<Node>, kind: Value, hasTypeAttribute: bool): (r: seq<Node>)
    ensures SameShape(roots, r)
    ensures forall b :: KeysBelow(roots, b) ==> KeysBelow(r, b)
  {
    var styled := if hasTypeAttribute then roots else EditMenu(roots, Replace(kind));
    var r := TabIndexed(styled);
    ShapeRefl(roots);
    ShapeTrans(roots, styled, r);
    ShapeKeepsAllBounds(roots, r);
    r
  }

  lemma ShapeKeepsAllBounds(a: seq<Node>, b: seq<Node>)
    requires SameShape(a, b)
    ensures forall bound :: KeysBelow(a, bound) ==> KeysBelow(b, bound)
  {
    forall bound | KeysBelow(a, bound) ensures KeysBelow(b, bound) {
      ShapeKeysBelow(a, b, bound);
    }
  }

  class WijitMenu {
    var roots: seq<Node>
    var inputs: Inputs
    var next: Key
    var expand: bool
    var height: Value
    var nohover: bool
    var speed: Value
    var kind: Value
    var style: map<string, string>
    var events: seq<Change>

    function State(): Pass
      reads this`roots, this`inputs, this`next
    {
      Pass(roots, inputs, next)
    }

    /** Every element and every registered checkbox has an identity below
        `next`, so the identities the widget creates are fresh. */
    ghost predicate Valid()
      reads this`roots, this`inputs, this`next
    {
      Fresh(State())
    }

    /** The element with the children `children`, before any attribute
        reaches it. */
    constructor(children: seq<Node>)
      ensures Valid()
      ensures roots == children && inputs == map[]
      ensures !expand && height == Str("auto") && !nohover && speed == Str(".5s") && kind == Str("default")
      ensures style == map[] && events == []
    {
      roots := children;
      inputs := map[];
      next := KeyBound(children);
      expand := false;
      height := Str("auto");
      nohover := false;
      speed := Str(".5s");
      kind := Str("default");
      style := map[];
      events := [];
    }

    /** `addLabel` on the list item with key `k`. */
    method AddLabel(k: Key)
      requires Valid()
      modifies this`roots, this`inputs, this`next
      ensures Valid()
      ensures State() == Annotate.AddLabel(old(State()), k, expand)
    {
      var p := Annotate.AddLabel(State(), k, expand);
      roots, inputs, next := p.roots, p.inputs, p.next;
    }

    /** `replaceClassName(v)`. */
    method ReplaceClassName(v: Value)
      requires Valid()
      modifies this`roots
      ensures Valid()
      ensures roots == EditMenu(old(roots), Replace(v))
    {
      ShapeKeepsPass(roots, EditMenu(roots, Replace(v)), next);
      roots := EditMenu(roots, Replace(v));
    }

    /** `setHover(on)`. */
    method SetHover(on: bool)
      requires Valid()
      modifies this`roots
      ensures Valid()
      ensures roots == EditMenu(old(roots), Hover(on))
    {
      ShapeKeepsPass(roots, EditMenu(roots, Hover(on)), next);
      roots := EditMenu(roots, Hover(on));
    }

    /** The `tabindex` loop of `init` over the widget's element children. */
    method SetTabIndex()
      requires Valid()
      modifies this`roots
      ensures Valid()
      ensures roots == TabIndexed(old(roots))
    {
      var i := 0;
      while i < |roots| && !IsElementWith(roots[i], MenuTags)
        invariant 0 <= i <= |roots|
        invariant forall j :: 0 <= j < i ==> !IsElementWith(roots[j], MenuTags)
      {
        i := i + 1;
      }
      var r := TabIndexed(roots);
      ShapeKeepsPass(roots, r, next);
      if i < |roots| {
        assert FirstMenuRoot(roots) == Some(i);
        roots := roots[i := roots[i].(attrs := roots[i].attrs["tabindex" := "0"])];
      }
      assert roots == r;
    }

    /** The label loop of `init` and `observeMenu` over the items `ks`. */
    method LabelItems(ks: seq<Key>)
      requires Valid()
      modifies this`roots, this`inputs, this`next
      ensures Valid()
      ensures State() == Annotated(old(State()), ks, expand)
    {
      ghost var p0 := State();
      var n := 0;
      while n < |ks|
        invariant 0 <= n <= |ks|
        invariant Fresh(p0) && Valid()
        invariant State() == Annotated(p0, ks[..n], expand)
      {
        var k := ks[n];
        assert ks[..n + 1][..n] == ks[..n];
        if k in Pending(roots) {
          AddLabel(k);
        }
        n := n + 1;
      }
      assert ks[..n] == ks;
    }

    /** `init`: the list items are collected first, then the style class and
        the `tabindex` are set, then every item with a sub-menu and no label
        gets one. */
    method Init(hasTypeAttribute: bool)
      requires Valid()
      modifies this`roots, this`inputs, this`next
      ensures Valid()
      ensures State() == Annotated(Pass(Prepared(old(roots), kind, hasTypeAttribute), old(inputs), old(next)),
                                   Select(old(roots), {"li"}), expand)
      ensures Pending(roots) == {}
    {
      var lis := Select(roots, {"li"});
      ghost var start := roots;
      if !hasTypeAttribute {
        ReplaceClassName(kind);
      }
      SetTabIndex();
      ghost var prepared := Prepared(start, kind, hasTypeAttribute);
      assert roots == prepared;
      ShapeKeepsPass(start, prepared, next);
      ghost var p0 := State();
      LabelItems(lis);
      AnnotatedAll(p0, expand);
    }

    /** `observeMenu(records)`: the added nodes that are list items with a
        sub-menu and no label get one, then the style class is applied
        again. */
    method Observe(records: seq<seq<Key>>)
      requires Valid()
      modifies this`roots, this`inputs, this`next
      ensures Valid()
      ensures var q := Annotated(old(State()), Flat(records), expand);
        && roots == EditMenu(q.roots, Replace(kind))
        && inputs == q.inputs && next == q.next
      ensures Pending(roots) == Pending(old(roots)) - Elems(Flat(records))
    {
      ghost var p0 := State();
      var r := 0;
      while r < |records|
        invariant 0 <= r <= |records|
        invariant Valid()
        invariant State() == Annotated(p0, Flat(records[..r]), expand)
      {
        LabelItems(records[r]);
        AnnotatedConcat(p0, Flat(records[..r]), records[r], expand);
        assert records[..r + 1][..r] == records[..r];
        r := r + 1;
      }
      assert records[..r] == records;
      ghost var q := State();
      AnnotatedViews(p0, Flat(records), expand);
      ReplaceClassName(kind);
      ShapeKeepsPass(q.roots, roots, next);
    }

    /** `expandMenu` (`on`) and `closeMenu` (not `on`): the loop over the
        registry. */
    method SwitchAll(on: bool)
      requires Valid()
      modifies this`inputs
      ensures Valid()
      ensures inputs == SetAll(old(inputs), on)
    {
      var todo := inputs.Keys;
      while todo != {}
        invariant todo <= inputs.Keys && inputs.Keys == old(inputs).Keys
        invariant forall b :: b in inputs ==> inputs[b] == if b in todo then old(inputs)[b] else on
        decreases |todo|
      {
        var b :| b in todo;
        inputs := inputs[b := on];
        todo := todo - {b};
      }
      assert inputs == SetAll(old(inputs), on);
    }

    method ExpandMenu()
      requires Valid()
      modifies this`inputs
      ensures Valid()
      ensures inputs == SetAll(old(inputs), true)
    {
      SwitchAll(true);
    }

    method CloseMenu()
      requires Valid()
      modifies this`inputs
      ensures Valid()
      ensures inputs == SetAll(old(inputs), false)
    {
      SwitchAll(false);
    }

    /** `closeAllBut(elem)`: every checkbox but the clicked one and, below
        the top level, the one that opens the enclosing sub-menu is
        unchecked. Nothing changes when the source would fail first. */
    method CloseAllBut(elem: Key)
      requires Valid()
      modifies this`inputs
      ensures Valid()
      ensures inputs == match ClickOn(roots, elem)
        case None => old(inputs)
        case Some(c) => ClosedAllBut(old(inputs), c)
    {
      var click := ClickOn(roots, elem);
      if click.Some? {
        Uncheck(click.value);
      }
    }

    /** The loop of `closeAllBut` once its two checkboxes are known. */
    method Uncheck(c: Click)
      requires Valid()
      modifies this`inputs
      ensures Valid()
      ensures inputs == ClosedAllBut(old(inputs), c)
    {
      var todo := inputs.Keys;
      while todo != {}
        invariant todo <= inputs.Keys && inputs.Keys == old(inputs).Keys
        invariant forall b :: b in inputs ==>
          inputs[b] == if b in todo || Kept(c, b) then old(inputs)[b] else false
        decreases |todo|
      {
        var b :| b in todo;
        if !Kept(c, b) {
          inputs := inputs[b := false];
        }
        todo := todo - {b};
      }
      assert inputs == ClosedAllBut(old(inputs), c);
    }

    // -------------------------------------------------------------------------
    // Setters

    method SetExpand(v: Value)
      requires Valid()
      modifies this`expand, this`inputs
      ensures Valid()
      ensures expand == Flag(v) && inputs == SetAll(old(inputs), Flag(v))
    {
      expand := Flag(v);
      if expand {
        ExpandMenu();
      } else {
        CloseMenu();
      }
    }

    method SetHeight(v: Value)
      modifies this`height, this`style
      ensures height == v && style == SetProperty(old(style), "--height", v)
    {
      height := v;
      style := SetProperty(style, "--height", v);
    }

    method SetNoHover(v: Value)
      requires Valid()
      modifies this`nohover, this`roots
      ensures Valid()
      ensures nohover == Flag(v) && roots == EditMenu(old(roots), Hover(!Flag(v)))
    {
      nohover := Flag(v);
      SetHover(!nohover);
    }

    method SetSpeed(v: Value)
      modifies this`speed, this`style
      ensures speed == WithSeconds(v) && style == SetProperty(old(style), "--speed", WithSeconds(v))
    {
      speed := WithSeconds(v);
      style := SetProperty(style, "--speed", speed);
    }

    method SetType(v: Value)
      requires Valid()
      modifies this`kind, this`roots
      ensures Valid()
      ensures kind == v && roots == EditMenu(old(roots), Replace(v))
    {
      kind := v;
      ReplaceClassName(v);
    }

    /** The setter `attributeChangedCallback` runs for `a`; the other
        options are left as they are. */
    method Apply(a: Attr, v: Value)
      requires Valid()
      modifies this`expand, this`inputs, this`nohover, this`roots, this`kind, this`height, this`speed, this`style
      ensures Valid()
      ensures a != Expand ==> expand == old(expand) && inputs == old(inputs)
      ensures a != NoHover ==> nohover == old(nohover)
      ensures a != Type ==> kind == old(kind)
      ensures a != NoHover && a != Type ==> roots == old(roots)
      ensures a != Height ==> height == old(height)
      ensures a != Speed ==> speed == old(speed)
      ensures a != Height && a != Speed ==> style == old(style)
      ensures a == Expand ==> expand == Flag(v) && inputs == SetAll(old(inputs), Flag(v))
      ensures a == NoHover ==> nohover == Flag(v) && roots == EditMenu(old(roots), Hover(!Flag(v)))
      ensures a == Type ==> kind == v && roots == EditMenu(old(roots), Replace(v))
      ensures a == Speed ==> speed == WithSeconds(v) && style == SetProperty(old(style), "--speed", WithSeconds(v))
      ensures a == Height ==> height == v && style == SetProperty(old(style), "--height", v)
    {
      match a {
        case Expand => SetExpand(v);
        case Height => SetHeight(v);
        case NoHover => SetNoHover(v);
        case Speed => SetSpeed(v);
        case Type => SetType(v);
      }
    }

    /** `attributeChangedCallback(a, before, after)`: a refused value changes
        nothing; an accepted one goes through the setter and is reported. */
    method AttributeChanged(a: Attr, before: Value, after: Value) returns (accepted: bool)
      requires Valid()
      modifies this
      ensures Valid()
      ensures accepted == Accepts(a, after)
      ensures !accepted ==> unchanged(this)
      ensures accepted ==> events == old(events) + [Change(a, before, after)] && next == old(next)
      ensures a != Expand || !accepted ==> expand == old(expand) && inputs == old(inputs)
      ensures a != NoHover || !accepted ==> nohover == old(nohover)
      ensures a != Type || !accepted ==> kind == old(kind)
      ensures (a != NoHover && a != Type) || !accepted ==> roots == old(roots)
      ensures a != Height || !accepted ==> height == old(height)
      ensures a != Speed || !accepted ==> speed == old(speed)
      ensures (a != Height && a != Speed) || !accepted ==> style == old(style)
      ensures accepted && a == Expand ==> expand == Flag(after) && inputs == SetAll(old(inputs), Flag(after))
      ensures accepted && a == NoHover ==> nohover == Flag(after) && roots == EditMenu(old(roots), Hover(!Flag(after)))
      ensures accepted && a == Type ==> kind == after && roots == EditMenu(old(roots), Replace(after))
      ensures accepted && a == Speed ==> speed == WithSeconds(after) && style == SetProperty(old(style), "--speed", WithSeconds(after))
      ensures accepted && a == Height ==> height == after && style == SetProperty(old(style), "--height", after)
    {
      if !Accepts(a, after) {
        return false;
      }
      Apply(a, after);
      events := events + [Change(a, before, after)];
      accepted := true;
    }
  }
}
