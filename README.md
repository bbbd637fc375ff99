# wijit-menu in Dafny

A model of the `WijitMenu` custom element (`src/wijit-menu.js`), with proofs about it.
The element takes a nested `<ul>`/`<menu>` list and makes it collapsible.
Every list item that has a sub-menu gets a `<label>`, which holds a hidden checkbox and the item's caption (its first non-blank text or link).
The element keeps a registry of these checkboxes (`#inputs`).
It opens all of them (`expandMenu`), closes all of them (`closeMenu`), or closes all but the clicked one and the one around it (`closeAllBut`).
It also keeps a style class and a `hover` class on its first menu, and it checks the `expand`, `nohover` and `type` attributes against a list of allowed values.

Structure:

- `values.dfy` (`Values`): attribute values, `String.prototype.trim`, the `expand`/`nohover` coercion and the `speed` unit suffix.
- `dom.dfy` (`Dom`): the element's subtree as a value.
  - A node is text, a comment, or an element with a key (its object identity), tag, attributes, classes and children.
  - It holds the queries the element runs: `children` searches, `getFirstTextOrLink`, `querySelector(All)` in document order, and the ancestor chain that `closest` climbs.
  - `Infos` summarises each element as key, tag, "has a child menu" and "has a label".
- `annotate.dfy` (`Annotate`): `addLabel` on the tree, and the guarded label pass that `init` and `observeMenu` run.
- `styles.dfy` (`Styles`): `replaceClassName`, `setHover` and the `tabindex` step, and proofs that none of them changes what the label pass reads.
- `registry.dfy` (`Registry`): the checkbox registry and the `closeAllBut` decision.
- `attributes.dfy` (`Attributes`): `static allowed` and the check `attributeChangedCallback` makes.
- `widget.dfy` (`Widget`): the class `WijitMenu`.
  - Its fields are the tree, the registry, a fresh-identity counter, the private options, the inline style properties and the log of change events.
  - Its methods (`init`, `observeMenu`, `addLabel`, the setters, `attributeChangedCallback`, ...) are proved against the functions above.
  - `SetTabIndex`, `LabelItems`, `Observe`, `SwitchAll` and `Uncheck` (the loop of `closeAllBut`) are loops, as in the source; the other methods call them or assign once.

The `checked` state of a checkbox lives in the registry map, not in the tree.
That matches the source: `#inputs` holds the checkbox objects themselves, whether or not they are still in the document.
New elements get keys from a counter that stays above every key in use (`Fresh`, `Valid`).
`addLabel` rewrites the element whose key it is given.
The model assumes the host gives distinct elements distinct keys.

## Model

| member | source | states |
|---|---|---|
| Values.TrimStart | src/wijit-menu.js:270 | leading white space removed: the result is a suffix, is empty iff the text is all white space, and does not start with white space |
| Values.TrimStartDropsSpace | src/wijit-menu.js:270 | the prefix `TrimStart` removes is all white space |
| Values.TrimEnd | src/wijit-menu.js:270 | trailing white space removed: the result is a prefix, is empty iff the text is all white space, and does not end with white space |
| Values.TrimEndDropsSpace | src/wijit-menu.js:270 | the suffix `TrimEnd` removes is all white space |
| Values.TrimSpec | src/wijit-menu.js:270 | `trim()` is empty exactly when the text is all white space, and otherwise starts and ends with a character that is not white space |
| Values.Flag | src/wijit-menu.js:1035-1044 | `null` and `false` give false, any other boolean itself, and a string is true iff it is not `"false"` |
| Values.FlagOnAllowed | src/wijit-menu.js:1034-1044 | on the allowed values, the coercion gives true exactly for `""`, `"true"` and `true` |
| Values.FlagVersusTruthy | src/wijit-menu.js:1063-1073 | the coercion differs from JavaScript truthiness exactly on `""` (a bare attribute, read as on) and `"false"` (read as off) |
| Values.FlagIdempotent | src/wijit-menu.js:1034-1046 | feeding the stored boolean back through the setter keeps it |
| Values.WithSeconds | src/wijit-menu.js:1082 | a value ending in a digit gets `s` appended and any other value is kept; the result never ends in a digit |
| Values.WithSecondsIdempotent | src/wijit-menu.js:1081-1083 | normalising a speed twice is normalising it once |
| Values.SetProperty | src/wijit-menu.js:1058 | `style.setProperty`: null or an empty value removes the property, any other value sets it to its string form; other properties are untouched |
| Values.SetPropertyLastWins | src/wijit-menu.js:1084 | setting a property twice leaves only the second value |
| Dom.AnyChildWith | src/wijit-menu.js:191-195 | true iff some child is an element with one of the tags |
| Dom.HasChildMenu | src/wijit-menu.js:184-196 | true iff some child element is a `<menu>` or `<ul>` |
| Dom.HasLabel | src/wijit-menu.js:208-219 | true iff some child element, at any position, is a `<label>` |
| Dom.FirstTextOrLinkIn | src/wijit-menu.js:269-277 | the index of the first non-blank text or `<a>` child, with no such child before it; None iff there is none |
| Dom.FirstTextOrLink | src/wijit-menu.js:263-277 | `getFirstTextOrLink` over the item's child nodes, with the first-match property |
| Dom.TextOrLinkCases | src/wijit-menu.js:270-273 | a text node stops the scan iff its `trim()` is not empty; an element stops it iff it is an `<a>`; a comment never does |
| Dom.Select | src/wijit-menu.js:149 | `querySelectorAll` is the keys of the elements with the tag, filtered from the document-order list of all elements (`Preorder`) |
| Dom.TaggedKeysHead | src/wijit-menu.js:286 | a filtered key list is empty iff nothing matches, and otherwise starts with the key of the first match |
| Dom.SelectIsComplete | src/wijit-menu.js:149 | `querySelectorAll` lists exactly the keys of the elements with the tag |
| Dom.SelectFindsTagged | src/wijit-menu.js:149 | every key `querySelectorAll` reports belongs to an element with the tag |
| Dom.SelectEmpty | src/wijit-menu.js:286-287 | `querySelector` finds nothing exactly when no element has the tag |
| Dom.QuerySelector | src/wijit-menu.js:286-287 | `querySelector` gives the key of the first element with the tag in document order, with none before it; None iff no element has the tag |
| Dom.Chain | src/wijit-menu.js:354 | the ancestors `closest` climbs: None iff no element has the key; otherwise elements only, from a top-level node, each a child of the one before, ending at the clicked element |
| Dom.Closest | src/wijit-menu.js:354 | `closest(tag)` in the chain: a chain element with the tag and none below it; None iff the chain has none |
| Dom.InfosAreSelected | src/wijit-menu.js:149 | every element's key is reported by `querySelectorAll` for its tag |
| Dom.PendingAreListItems | src/wijit-menu.js:149-170 | every item that needs a label is among the items `init` collects |
| Annotate.CaptionSpec | src/wijit-menu.js:239-246 | the caption is the first text-or-link child node itself, with no such child before it; without one it is the text "null" |
| Annotate.CheckboxSpec | src/wijit-menu.js:238-242 | the new checkbox is a hidden `wm-checkbox` input with no content: not a list item, menu or label, and the first input of its own subtree |
| Annotate.WithLabel | src/wijit-menu.js:237-247 | the item's first child becomes a label holding the checkbox and the caption; the other children keep their order; only the caption moves (multiset); the item has a label afterwards and has a child menu iff it had one |
| Annotate.LabelIn | src/wijit-menu.js:247 | a forest without an element of key `k` comes back unchanged; otherwise each node keeps its place |
| Annotate.LabelInNode | src/wijit-menu.js:247 | the element with key `k` becomes `WithLabel` of itself (with its subtree relabelled); a subtree without key `k` is unchanged; kind, key and tag are kept |
| Annotate.LabelInKeepsTags | src/wijit-menu.js:247 | relabelling keeps each node's kind, key and tag |
| Annotate.LabelInInfos | src/wijit-menu.js:231-248 | after `addLabel` the element facts are the old ones, with the item marked as labelled, plus the new label and checkbox |
| Annotate.RelabelViews | src/wijit-menu.js:167-170 | one `addLabel` removes the item from the pending set, adds it to the labelled set, and keeps the sets of menus and list items |
| Annotate.LabelInKeysBelow | src/wijit-menu.js:237-238 | the new label and checkbox take fresh identities, so the identity bound still holds |
| Annotate.AddLabel | src/wijit-menu.js:231-248 | one checkbox is registered, checked iff `expand`, with a fresh identity; the old entries are kept; pending loses the item; labelled gains it when it was pending; menus and list items are unchanged |
| Annotate.VisitSpec | src/wijit-menu.js:167-170 | one iteration labels the item iff it is pending, adding one checkbox checked iff `expand`, and otherwise changes nothing; menus and list items are kept |
| Annotate.Annotated | src/wijit-menu.js:167-170 | the pass over `ks` keeps every identity below the counter and never moves the counter back |
| Annotate.AnnotatedViews | src/wijit-menu.js:167-170 | the pass over `ks` labels exactly the pending items among `ks`, and keeps the menus and list items |
| Annotate.AnnotatedRegistry | src/wijit-menu.js:243-244 | each label the pass adds comes with one fresh checkbox, checked iff `expand`; the registered checkboxes keep their state |
| Annotate.AnnotatedCount | src/wijit-menu.js:167-170 | the pass registers exactly one checkbox per pending item among `ks` |
| Annotate.AnnotatedConcat | src/wijit-menu.js:132-140 | running the pass over one list and then another is running it over their concatenation (record after record) |
| Annotate.AnnotatedIdle | src/wijit-menu.js:168-169 | when no listed item is pending, the pass changes nothing |
| Annotate.AnnotatedIdempotent | src/wijit-menu.js:167-171 | a second pass over the same items changes nothing |
| Annotate.AnnotatedAll | src/wijit-menu.js:149-171 | after the pass over all list items, no item with a sub-menu lacks a label |
| Annotate.CaptionExamples | src/wijit-menu.js:256-261 | the documented cases: a blank item has no caption; `'foo <menu>…'` and `'<a>foo</a><menu>…'` have the first child as caption |
| Annotate.AppendedExampleKeys | src/wijit-menu.js:126-128 | the documented tree (the item appended to an empty widget) uses the identities below 6 |
| Annotate.AppendedExampleInfos | src/wijit-menu.js:126-128 | in the documented appended tree only the outer item needs a label, and none has one |
| Annotate.AppendedItemIsLabelled | src/wijit-menu.js:126-129 | the documented case: the item appended directly to the widget, with any record that reports it (e.g. only `[li]`); afterwards it has a label, nothing is pending, and one unchecked checkbox is registered |
| Annotate.OnePendingItem | src/wijit-menu.js:131-140 | a pass whose items include exactly one pending item labels exactly that one and registers one checkbox, unchecked when `expand` is off |
| Styles.ReplacedClasses | src/wijit-menu.js:289-296 | classes that are not style names are untouched, except the value itself when it is truthy, which is added; `default` is present iff the value is truthy and not `sitemap` or `custom`; the only style names left are the value and `default` |
| Styles.ReplacedIdempotent | src/wijit-menu.js:285-297 | applying the same style twice is applying it once |
| Styles.ReplacedLastWins | src/wijit-menu.js:289-296 | for an allowed `type`, a later style replaces it completely |
| Styles.StrayStyleStays | src/wijit-menu.js:289-294 | a style name outside the allowed list, set through the property, survives the next `replaceClassName` |
| Styles.HoverClasses | src/wijit-menu.js:375-379 | `hover` is present iff hovering is on; no other class changes |
| Styles.StyleAndHoverCommute | src/wijit-menu.js:285-380 | for an allowed `type`, choosing a style and switching hovering commute |
| Styles.ShapeInfos | src/wijit-menu.js:155-165 | attribute and class edits keep every element fact the label pass reads |
| Styles.ShapeSelect | src/wijit-menu.js:149-165 | attribute and class edits keep every `querySelectorAll` result |
| Styles.ShapeKeysBelow | src/wijit-menu.js:155-165 | attribute and class edits keep the identity bound |
| Styles.ShapeKeepsPass | src/wijit-menu.js:149-171 | styling before the label loop changes neither the items collected nor the pending, labelled, menu and list-item sets |
| Styles.Restyle | src/wijit-menu.js:290-295 | a class edit keeps the tree's shape and every element's attributes |
| Styles.ClassesOnlyShape | src/wijit-menu.js:290-295 | a class-only edit keeps the shape, so the label pass sees the same tree |
| Styles.RestyleClassLists | src/wijit-menu.js:290-295 | the class edit reaches the element with the key and no other element |
| Styles.MenuTarget | src/wijit-menu.js:286-287 | the element the class edits land on is the first `<menu>` or `<ul>` in document order; None iff the tree has none |
| Styles.EditMenu | src/wijit-menu.js:285-297 | when there is no menu nothing changes; otherwise only the first menu's class list is edited, no attribute changes, and the shape is kept |
| Styles.FirstMenuRoot | src/wijit-menu.js:160-165 | the first top-level `<ul>` or `<menu>`, with none before it; None iff there is none |
| Styles.TabIndexed | src/wijit-menu.js:160-165 | only that element gains `tabindex="0"`; every other top-level node is unchanged |
| Registry.SetAll | src/wijit-menu.js:334-347 | the same checkboxes stay registered, and every one is set to the given state |
| Registry.SetAllChecked | src/wijit-menu.js:334-347 | after `expandMenu` every checkbox is checked; after `closeMenu` none is |
| Registry.Kept | src/wijit-menu.js:359-363 | a box escapes both unchecking branches iff it is the clicked element's own box, or the box that opens the enclosing list when that list is not at the top level |
| Registry.ClosedAllBut | src/wijit-menu.js:358-364 | the registry keeps its checkboxes; a box stays checked only if it is kept (its own, or the enclosing one below the top level) and was checked; kept boxes do not change |
| Registry.ClosedAllButBound | src/wijit-menu.js:353-365 | afterwards at most two boxes are checked, and at most one at the top level |
| Registry.ClosedAllButIdempotent | src/wijit-menu.js:358-364 | a second identical click changes nothing |
| Registry.CloseAfterClosedAllBut | src/wijit-menu.js:343-364 | `closeMenu` after `closeAllBut` is `closeMenu` |
| Registry.FirstInputUnder | src/wijit-menu.js:355-356 | `querySelector('input')` gives the first input in document order; None iff there is no input below |
| Registry.ClickOn | src/wijit-menu.js:353-356 | the decision: own box = first input under the clicked element; the list is the innermost `<ul>`, or else the innermost `<menu>`; `atTop` iff that list is a top-level child; the open box is the first input under the list's parent; None iff the element is missing (no element has its key) or no list encloses it |
| Registry.LabelOwnsCheckbox | src/wijit-menu.js:245-246 | clicking a label `addLabel` made finds that label's own checkbox |
| Attributes.Allowed | src/wijit-menu.js:63-67 | only `expand`, `nohover` and `type` have lists of allowed values |
| Attributes.Accepts | src/wijit-menu.js:109-113 | `expand`/`nohover` accept exactly the flag values, `type` exactly the style values, and `height`/`speed` anything |
| Attributes.AcceptedFlag | src/wijit-menu.js:1034-1044 | an accepted string switches the option on iff it is `""` or `"true"` |
| Attributes.AcceptedTypeReplaces | src/wijit-menu.js:289-296 | an accepted `type` leaves no class behind once the next type is applied |
| Widget.Flat | src/wijit-menu.js:132-133 | a key is among the added nodes iff some record holds it |
| Widget.Prepared | src/wijit-menu.js:155-165 | the tree after the style and `tabindex` steps has the same shape and keeps the identity bound |
| Widget.WijitMenu.constructor | src/wijit-menu.js:15-45 | the private fields start as `false`, `'auto'`, `false`, `'.5s'`, `'default'`, with an empty registry |
| Widget.WijitMenu.AddLabel | src/wijit-menu.js:231-248 | the tree, registry and counter become `Annotate.AddLabel` of the old ones, with the current `expand` |
| Widget.WijitMenu.ReplaceClassName | src/wijit-menu.js:285-297 | the tree becomes the `replaceClassName` edit of the old one |
| Widget.WijitMenu.SetHover | src/wijit-menu.js:371-380 | the tree becomes the `setHover` edit of the old one |
| Widget.WijitMenu.SetTabIndex | src/wijit-menu.js:159-165 | the loop over the top-level elements gives `Styles.TabIndexed` |
| Widget.WijitMenu.LabelItems | src/wijit-menu.js:167-170 | the label loop gives the pass `Annotate.Annotated` over the same items |
| Widget.WijitMenu.Init | src/wijit-menu.js:148-171 | the items are collected before styling; afterwards the state is the pass over them on the styled tree, and no item with a sub-menu lacks a label |
| Widget.WijitMenu.Observe | src/wijit-menu.js:131-143 | the state is the pass over the added nodes in record order, followed by `replaceClassName(type)`; exactly the added pending items are labelled |
| Widget.WijitMenu.SwitchAll | src/wijit-menu.js:334-347 | the loop over the registry sets every box to the given state |
| Widget.WijitMenu.ExpandMenu | src/wijit-menu.js:334-338 | every registered box is checked |
| Widget.WijitMenu.CloseMenu | src/wijit-menu.js:343-347 | every registered box is unchecked |
| Widget.WijitMenu.CloseAllBut | src/wijit-menu.js:353-365 | the registry becomes `ClosedAllBut` of the click decision; it is unchanged when the source would throw first |
| Widget.WijitMenu.Uncheck | src/wijit-menu.js:358-364 | the loop over the registry gives `ClosedAllBut` of the click |
| Widget.WijitMenu.SetExpand | src/wijit-menu.js:1034-1052 | stores the coerced flag, then opens or closes every box accordingly |
| Widget.WijitMenu.SetHeight | src/wijit-menu.js:1056-1059 | stores the value and passes it to `setProperty('--height')`, which removes the property for null or `""` |
| Widget.WijitMenu.SetNoHover | src/wijit-menu.js:1063-1077 | stores the coerced flag and switches hovering to its negation |
| Widget.WijitMenu.SetSpeed | src/wijit-menu.js:1081-1085 | stores the value with the unit suffix and passes it to `setProperty('--speed')`, which removes the property for null or `""` |
| Widget.WijitMenu.SetType | src/wijit-menu.js:1089-1092 | stores the value and applies it as the style class |
| Widget.WijitMenu.Apply | src/wijit-menu.js:115 | runs the setter of the attribute; every other option, the style properties and the parts of the tree and registry that setter does not touch stay as they were |
| Widget.WijitMenu.AttributeChanged | src/wijit-menu.js:108-117 | accepted iff the value passes `static allowed`; a refused value changes nothing; an accepted one runs that attribute's setter with its effects, leaves every other option and the style properties of the other attributes as they were, and logs one change event |

## Left out

- `connectedCallback`, `disconnectedCallback`, the `MutationObserver`, the `AbortController` and the click listeners are left out. `Observe` takes the observer's records as a parameter. `CloseAllBut` takes the clicked element as a parameter.
- `addStyles`, `defaultStyles` and the document's `<head>` are outside the element's tree. So the stylesheet step of `init` (lines 151-153) is not modelled.
- The `content` attribute and setter are left out. They resolve a dotted path on `window` and clone the node found there.
- `sendEvent`, `sendError` and the console are left out. `AttributeChanged` logs each accepted change in `events`; no event objects are modelled.
- The `!li` and `!li instanceof HTMLLIElement` guards are left out. The model always passes an element. The second guard never fires, because `!li` binds before `instanceof`.
- Widget.WijitMenu.Observe: an added list item reaches `addLabel` only while it is still in the tree. The source also labels an item that was removed again before the observer ran, and registers its checkbox.
- Observer records carry element keys only. Added text and comment nodes have no `localName` of `li`, so the source ignores them too.
- Registry.ClickOn: `closest` is followed only up to the element itself. A `<ul>` or `<menu>` around the whole widget in the page is not seen. A click with no list inside the widget leaves the registry unchanged, because the source would throw on `menu.parentElement`.
- Styles.ReplacedClasses: `classList.add` throws for a token that is empty or contains white space. Such a value can only come through the `type` property, and the model adds it to the set as it is.
- A missing caption: `label.append(null)` appends the text `"null"`. The model does exactly that (`Annotate.Caption`).
- Key distinctness of the host's elements is assumed, not proved. The model's own new elements always get fresh keys.
- Values.SetProperty: the CSS parsing `setProperty` does on a value (trimming, rejecting what does not parse) is not modelled; a custom property takes almost any text.
- `Values.Value` has no numbers. Attribute values are strings or null; a property can also receive a boolean.
