/** The observed attributes of the menu widget and the values
    `attributeChangedCallback` lets through (`static allowed`). */
module Attributes {
  import opened Values
  import opened Styles

  /** The observed attributes the model covers. */
  datatype Attr = Expand | Height | NoHover | Speed | Type

  /** The attribute's entry in `static allowed`, if it has one. */
  function Allowed(a: Attr): (r: Option<set<Value>>)
    ensures r.Some? <==> a in {Expand, NoHover, Type}
  {
    match a
    case Expand => Some(FlagValues)
    case NoHover => Some(FlagValues)
    case Type => Some(TypeValues)
    case _ => None
  }

  /** The callback refuses a value exactly when the attribute has a list of
      allowed values and the value is not on it. */
  function Accepts(a: Attr, v: Value): (ok: bool)
    ensures (a == Expand || a == NoHover) ==> (ok <==> v in FlagValues)
    ensures a == Type ==> (ok <==> v in TypeValues)
    ensures (a == Height || a == Speed) ==> ok
  {
    match Allowed(a)
    case None => true
    case Some(vs) => v in vs
  }

  /** A string the callback accepts for `expand` or `nohover` switches the
      option on exactly when it is the empty string or `"true"`. */
  lemma AcceptedFlag(a: Attr, s: string)
    requires (a == Expand || a == NoHover) && Accepts(a, Str(s))
    ensures Flag(Str(s)) <==> s == "" || s == "true"
  {
    FlagOnAllowed(Str(s));
  }

  /** A `type` the callback accepted leaves no class behind once the next
      type is applied. */
  lemma AcceptedTypeReplaces(c: set<string>, v: Value, w: Value)
    requires Accepts(Type, v)
    ensures ReplacedClasses(ReplacedClasses(c, v), w) == ReplacedClasses(c, w)
  {
    ReplacedLastWins(c, v, w);
  }
}
