/** Attribute values and the setters' value normalisers of the menu widget.

    An attribute value reaches the widget either from the DOM (a string, or
    null when the attribute is removed) or from a direct property assignment
    (a boolean is then possible too). */
module Values {

  datatype Option<+T> = None | Some(value: T)

  /** A value a setter or `attributeChangedCallback` can receive. */
  datatype Value = Null | Str(s: string) | Bool(b: bool)

  /** JavaScript truthiness of a value. */
  predicate Truthy(v: Value) {
    match v
    case Null => false
    case Str(s) => s != ""
    case Bool(b) => b
  }

  /** `String(v)`: the token `classList.add(v)` adds. */
  function Name(v: Value): string {
    match v
    case Null => "null"
    case Str(s) => s
    case Bool(b) => if b then "true" else "false"
  }

  // ---------------------------------------------------------------------------
  // String.prototype.trim

  /** WhiteSpace and LineTerminator code points, which `trim()` strips. */
  const JsSpaces: set<char> := {
    '\t', '\n', '\U{B}', '\U{C}', '\r', ' ', '\U{A0}', '\U{1680}',
    '\U{2000}', '\U{2001}', '\U{2002}', '\U{2003}', '\U{2004}', '\U{2005}',
    '\U{2006}', '\U{2007}', '\U{2008}', '\U{2009}', '\U{200A}',
    '\U{2028}', '\U{2029}', '\U{202F}', '\U{205F}', '\U{3000}', '\U{FEFF}'
  }

  predicate IsJsSpace(c: char) {
    c in JsSpaces
  }

  predicate AllSpace(s: string) {
    forall i :: 0 <= i < |s| ==> IsJsSpace(s[i])
  }

  /** Drops the leading white space. */
  function TrimStart(s: string): (r: string)
    ensures |r| <= |s| && r == s[|s| - |r|..]
    ensures r == "" <==> AllSpace(s)
    ensures r != "" ==> !IsJsSpace(r[0])
  {
    if s != [] && IsJsSpace(s[0]) then TrimStart(s[1..]) else s
  }

  /** What `TrimStart` drops is white space. */
  lemma {:induction false} TrimStartDropsSpace(s: string)
    ensures AllSpace(s[..|s| - |TrimStart(s)|])
  {
    if s != [] && IsJsSpace(s[0]) {
      TrimStartDropsSpace(s[1..]);
      var n := |s| - |TrimStart(s)|;
      forall j | 0 <= j < n ensures IsJsSpace(s[j]) {
        if j > 0 {
          assert s[j] == s[1..][..n - 1][j - 1];
        }
      }
    }
  }

  /** Drops the trailing white space. */
  function TrimEnd(s: string): (r: string)
    ensures |r| <= |s| && r == s[..|r|]
    ensures r == "" <==> AllSpace(s)
    ensures r != "" ==> !IsJsSpace(r[|r| - 1])
  {
    if s != [] && IsJsSpace(s[|s| - 1]) then TrimEnd(s[..|s| - 1]) else s
  }

  /** What `TrimEnd` drops is white space. */
  lemma {:induction false} TrimEndDropsSpace(s: string)
    ensures AllSpace(s[|TrimEnd(s)|..])
  {
    if s != [] && IsJsSpace(s[|s| - 1]) {
      TrimEndDropsSpace(s[..|s| - 1]);
      var n := |TrimEnd(s)|;
      forall j | n <= j < |s| ensures IsJsSpace(s[j]) {
        if j < |s| - 1 {
          assert s[j] == s[..|s| - 1][n..][j - n];
        }
      }
    }
  }

  /** `trim()`. */
  function Trim(s: string): string {
    TrimEnd(TrimStart(s))
  }

  /** `trim()` is empty exactly when `s` is all white space, and otherwise
      starts and ends with a character that is not white space; what it
      drops on either side is white space (`TrimStartDropsSpace`,
      `TrimEndDropsSpace`). */
  lemma {:induction false} TrimSpec(s: string)
    ensures Trim(s) == "" <==> AllSpace(s)
    ensures Trim(s) != "" ==> !IsJsSpace(Trim(s)[0]) && !IsJsSpace(Trim(s)[|Trim(s)| - 1])
  {
    var t := TrimStart(s);
    if t != "" {
      assert !AllSpace(t) by { assert !IsJsSpace(t[0]); }
      assert TrimEnd(t)[0] == t[0];
    }
  }

  // ---------------------------------------------------------------------------
  // The `expand` and `nohover` setters

  /** The setters' switch: `null`, `false` and `"false"` become false, every
      other value true. */
  function Flag(v: Value): (b: bool)
    ensures v.Null? ==> !b
    ensures v.Bool? ==> b == v.b
    ensures v.Str? ==> (b <==> v.s != "false")
  {
    !(v == Null || v == Bool(false) || v == Str("false"))
  }

  /** The values `static allowed` lists for `expand` and `nohover`. */
  const FlagValues: set<Value> :=
    {Null, Str(""), Str("true"), Bool(true), Str("false"), Bool(false)}

  /** On the allowed values, the coercion reads `""` (a bare attribute) and
      both spellings of true as true, and the rest as false. */
  lemma FlagOnAllowed(v: Value)
    requires v in FlagValues
    ensures Flag(v) <==> v == Str("") || v == Str("true") || v == Bool(true)
  {
  }

  /** The coercion differs from JavaScript truthiness exactly on `""` and `"false"`. */
  lemma FlagVersusTruthy(v: Value)
    ensures Flag(v) != Truthy(v) <==> v == Str("") || v == Str("false")
  {
  }

  /** Feeding a coerced value back through the setter keeps it. */
  lemma FlagIdempotent(v: Value)
    ensures Flag(Bool(Flag(v))) == Flag(v)
  {
  }

  // ---------------------------------------------------------------------------
  // The `speed` setter

  predicate IsDigit(c: char) {
    '0' <= c <= '9'
  }

  /** `/\d+$/.test(v)`: the string form of the value ends with an ASCII digit. */
  predicate EndsInDigit(v: Value) {
    var s := Name(v);
    s != "" && IsDigit(s[|s| - 1])
  }

  /** A bare number gets the unit `s`; every other value is kept. */
  function WithSeconds(v: Value): (r: Value)
    ensures !EndsInDigit(r)
    ensures !EndsInDigit(v) ==> r == v
    ensures EndsInDigit(v) ==> v.Str? && r == Str(v.s + "s")
  {
    if EndsInDigit(v) then Str(v.s + "s") else v
  }

  // ---------------------------------------------------------------------------
  // Inline style custom properties

  /** The text `style.setProperty` receives: null counts as the empty
      string, any other value as its string form. */
  function CssText(v: Value): string {
    if v.Null? then "" else Name(v)
  }

  /** `style.setProperty(name, v)` on the inline declarations: an empty
      value removes the property, any other value sets it; the other
      properties are untouched. */
  function SetProperty(style: map<string, string>, name: string, v: Value): (r: map<string, string>)
    ensures name in r <==> CssText(v) != ""
    ensures name in r ==> r[name] == CssText(v)
    ensures forall p :: p != name ==> (p in r <==> p in style)
    ensures forall p :: p != name && p in style ==> r[p] == style[p]
  {
    if CssText(v) == "" then style - {name} else style[name := CssText(v)]
  }

  /** Setting a property twice leaves the second value. */
  lemma SetPropertyLastWins(style: map<string, string>, name: string, v: Value, w: Value)
    ensures SetProperty(SetProperty(style, name, v), name, w) == SetProperty(style, name, w)
  {
    var a := SetProperty(SetProperty(style, name, v), name, w);
    var b := SetProperty(style, name, w);
    assert a.Keys == b.Keys;
  }

  /** Normalising a speed twice is normalising it once. */
  lemma WithSecondsIdempotent(v: Value)
    ensures WithSeconds(WithSeconds(v)) == WithSeconds(v)
  {
  }
}
