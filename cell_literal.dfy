/** How one table value becomes the literal sent to the Sheets API
    (`_escaped_string` and `_cellrepr`). */
module CellLiteral {
  import opened Common

  /** A value that is an instance of `numbers.Real`. Python's `bool` is a
      subclass of `int`, so Python booleans are numbers here too; numpy's
      `bool_` is not a `numbers.Real` and is an `Other` value, stringified
      as "True" or "False". Floating-point values are kept as their IEEE 754
      bit pattern; no arithmetic is done. */
  datatype Number = Integer(i: int) | Boolean(b: bool) | Floating(bits: bv64)

  /** A NaN bit pattern: all exponent bits set and a non-zero fraction. */
  predicate IsNaN(n: Number) {
    n.Floating? && (n.bits >> 52) & 0x7FF == 0x7FF && n.bits & 0xF_FFFF_FFFF_FFFF != 0
  }

  /** One value of a table: a missing marker (None, NaT, NA), a real
      number, a text value, or any other object, known by its `str()`. */
  datatype Value = Null | Real(n: Number) | Text(s: string) | Other(repr: string)

  /** What `pd.isnull(value) is True` accepts: the missing markers and NaN. */
  predicate IsNull(v: Value) {
    v.Null? || (v.Real? && IsNaN(v.n))
  }

  /** The `string_escaping` argument: one of the three recognised tags, a
      callable, or anything else. */
  datatype Policy = Default | Off | Full | Predicate(test: string -> bool) | Unrecognized

  /** What is sent for one cell: a number passed through, or a string. */
  datatype Literal = TextLiteral(s: string) | NumberLiteral(n: Number)

  predicate StartsWith(s: string, c: char) {
    |s| > 0 && s[0] == c
  }

  /** The text with Sheets' text-literal marker, an apostrophe, in front. */
  function Quoted(s: string): (q: string)
    ensures |q| == |s| + 1 && q[0] == '\'' && q[1..] == s
  {
    ['\''] + s
  }

  /** The text Sheets keeps for a user-entered string: a leading apostrophe
      is read as the text-literal marker and dropped. */
  function StoredText(literal: string): string {
    if StartsWith(literal, '\'') then literal[1..] else literal
  }

  /** `_escaped_string`: `None` and the empty string become the empty
      string before the policy is looked at; otherwise the policy decides
      whether to put the marker in front, and an unrecognised policy raises. */
  function EscapedString(value: Option<string>, policy: Policy): (r: Result<string>)
    ensures value == None || value == Some("") ==> r == Ok("")
    ensures r.Err? <==> value.Some? && value.value != "" && policy.Unrecognized?
    ensures r.Ok? && value.Some? ==> r.value == value.value || r.value == Quoted(value.value)
  {
    if value == None || value == Some("") then Ok("")
    else
      var s := value.value;
      match policy
      case Default => if StartsWith(s, '\'') then Ok(Quoted(s)) else Ok(s)
      case Off => Ok(s)
      case Full => Ok(Quoted(s))
      case Predicate(test) => if test(s) then Ok(Quoted(s)) else Ok(s)
      case Unrecognized => Err(InvalidStringEscaping)
  }

  /** The text of a value that is neither null nor a number: the string
      itself, or `str()` of any other object. */
  function Stringify(v: Value): string
    requires v.Text? || v.Other?
  {
    match v
    case Text(s) => s
    case Other(repr) => repr
  }

  /** `_cellrepr`: nulls become the empty string, numbers pass through, and
      other values are stringified; with formulas disallowed a leading `=`
      is escaped without consulting the escaping policy. */
  function CellRepr(value: Value, allowFormulas: bool, policy: Policy): (r: Result<Literal>)
    ensures IsNull(value) ==> r == Ok(TextLiteral(""))
    ensures !IsNull(value) && value.Real? ==> r == Ok(NumberLiteral(value.n))
    ensures r.Ok? && r.value.NumberLiteral? ==> value.Real?
  {
    if IsNull(value) then Ok(TextLiteral(""))
    else if value.Real? then Ok(NumberLiteral(value.n))
    else
      var s := Stringify(value);
      if !allowFormulas && StartsWith(s, '=') then Ok(TextLiteral(Quoted(s)))
      else
        match EscapedString(Some(s), policy)
        case Ok(e) => Ok(TextLiteral(e))
        case Err(e) => Err(e)
  }

  /** The four documented policies, for any non-empty text: `default`
      marks exactly the text that starts with an apostrophe, `off` marks
      nothing, `full` marks everything, a callable marks what it accepts;
      any other policy raises. */
  lemma PolicyDecisions(s: string, test: string -> bool)
    requires s != ""
    ensures EscapedString(Some(s), Default) == Ok(Quoted(s)) <==> StartsWith(s, '\'')
    ensures EscapedString(Some(s), Default) == Ok(s) <==> !StartsWith(s, '\'')
    ensures EscapedString(Some(s), Off) == Ok(s)
    ensures EscapedString(Some(s), Full) == Ok(Quoted(s))
    ensures EscapedString(Some(s), Predicate(test)) == Ok(Quoted(s)) <==> test(s)
    ensures EscapedString(Some(s), Predicate(test)) == Ok(s) <==> !test(s)
    ensures EscapedString(Some(s), Unrecognized) == Err(InvalidStringEscaping)
  {
    assert Quoted(s) != s by {
      assert |Quoted(s)| != |s|;
    }
  }

  /** Escaping never loses the text: for any recognised policy Sheets
      stores the original text exactly when the policy marked it or the
      text does not start with an apostrophe; so `default` and `full`
      always preserve it, and `off` loses a leading apostrophe. */
  lemma EscapingPreservesText(s: string, policy: Policy)
    requires s != "" && !policy.Unrecognized?
    ensures EscapedString(Some(s), policy).Ok?
    ensures var r := EscapedString(Some(s), policy).value;
      StoredText(r) == s <==> r == Quoted(s) || !StartsWith(s, '\'')
    ensures policy.Default? || policy.Full? ==> StoredText(EscapedString(Some(s), policy).value) == s
  {
    var r := EscapedString(Some(s), policy).value;
    if r == Quoted(s) {
      assert StoredText(r) == s;
    } else {
      assert r == s;
    }
  }

  /** With formulas disallowed, text that starts with `=` is marked
      whatever the escaping policy, even an unrecognised one. */
  lemma FormulaEscapeFirst(v: Value, policy: Policy)
    requires v.Text? || v.Other?
    requires StartsWith(Stringify(v), '=')
    ensures CellRepr(v, false, policy) == Ok(TextLiteral(Quoted(Stringify(v))))
  {
  }

  /** Text that the formula rule leaves alone goes through the escaping
      policy: all text when formulas are allowed, and with formulas
      disallowed all text that does not start with `=`. */
  lemma EscapingAfterFormulaRule(v: Value, allowFormulas: bool, policy: Policy)
    requires v.Text? || v.Other?
    requires allowFormulas || !StartsWith(Stringify(v), '=')
    ensures CellRepr(v, allowFormulas, policy) ==
      match EscapedString(Some(Stringify(v)), policy)
      case Ok(e) => Ok(TextLiteral(e))
      case Err(e) => Err(e)
  {
  }

  /** With formulas disallowed, no literal sent for any value starts with
      `=`, so Sheets never reads one as a formula. */
  lemma NoFormulaWhenDisallowed(v: Value, policy: Policy)
    requires CellRepr(v, false, policy).Ok?
    ensures var lit := CellRepr(v, false, policy).value;
      lit.TextLiteral? ==> !StartsWith(lit.s, '=')
  {
    if !IsNull(v) && !v.Real? {
      var s := Stringify(v);
      if !StartsWith(s, '=') {
        var e := EscapedString(Some(s), policy);
        assert e.Ok?;
        if e.value == Quoted(s) {
          assert e.value[0] == '\'';
        } else if s != "" {
          assert e.value == s;
        }
      }
    }
  }

  /** `_cellrepr` raises exactly when the policy is unrecognised and the
      value becomes non-empty text that the formula rule does not catch. */
  lemma CellReprRaises(v: Value, allowFormulas: bool, policy: Policy)
    ensures CellRepr(v, allowFormulas, policy).Err? <==>
      && !IsNull(v) && !v.Real? && policy.Unrecognized? && Stringify(v) != ""
      && (allowFormulas || !StartsWith(Stringify(v), '='))
  {
  }
}
