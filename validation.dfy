/**
 * The few Laravel validation semantics the controllers rely on, stated over
 * one request field at a time. Rules that depend on code this model does not
 * see (the `email` rule, say) are passed in as predicates.
 */
module Validation {

  /** A request field as the validator and `$request->has`/`filled` see it. */
  datatype Input = Absent | Null | Text(s: string)

  /** The characters PHP's `trim` strips by default: space, tab, newline, carriage return, NUL, vertical tab. */
  predicate IsTrimChar(c: char)
  {
    c == ' ' || c == '\t' || c == '\n' || c == '\r' || c == '\0' || c as int == 0x0B
  }

  predicate IsBlank(s: string)
  {
    forall i :: 0 <= i < |s| ==> IsTrimChar(s[i])
  }

  /** `$request->has(key)`: the key is in the input, whatever its value. */
  predicate Has(f: Input)
  {
    !f.Absent?
  }

  /**
   * `$request->filled(key)`, which is also what the `required` rule accepts:
   * a string that is not blank after `trim`.
   */
  predicate Filled(f: Input)
  {
    f.Text? && !IsBlank(f.s)
  }

  /**
   * Whether a field passes a rule list made of the presence rules
   * `sometimes`, `required` and `nullable` and further rules `check` (all of
   * which start with `string` or `email`, so they refuse null). Laravel runs
   * the further rules only on a field that is present and not a blank string;
   * `sometimes` skips an absent field altogether, `nullable` skips a null one.
   */
  function Passes(f: Input, sometimes: bool, required: bool, nullable: bool, check: string -> bool): (ok: bool)
    ensures sometimes && f.Absent? ==> ok
    ensures required && !(sometimes && f.Absent?) ==> (ok <==> Filled(f) && check(f.s))
    ensures !required && f.Text? && IsBlank(f.s) ==> ok
  {
    if sometimes && f.Absent? then true
    else if required && !Filled(f) then false
    else match f
      case Absent => true
      case Null => nullable
      case Text(s) => IsBlank(s) || check(s)
  }

  /** The field name if the field failed, so that a request's errors are a union of these. */
  function ErrorIf(failed: bool, field: string): (e: set<string>)
    ensures field in e <==> failed
  {
    if failed then {field} else {}
  }
}
