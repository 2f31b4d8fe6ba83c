/** Request input and the Laravel validation rules the controllers use, read as predicates. */
module Request {
  import opened Common
  import opened Text

  /** One field of the request as the controller's `$request->all()` holds it. A string that PHP's
      date parser accepts is written `Date`, with its text and the instant it denotes. `Int` is a
      JSON integer, which PHP decodes to a 64-bit integer (a larger one arrives as a float);
      `Other` stands for arrays and floats. */
  datatype Value =
    Null | Str(text: string) | Int(i: int) | Bool(b: bool) | Date(dateText: string, instant: int) | Other

  type Req = map<string, Value>

  /** The value of a field, `Null` when the field is absent (`$request->input($k)`). */
  function Get(req: Req, k: string): Value
  {
    if k in req then req[k] else Null
  }

  predicate IsBlankValue(v: Value)
  {
    v.Str? && IsBlank(v.text)
  }

  /** How the validator treats a field under a rule list. `required` fails on an absent field, on
      null and on a blank string; every other rule is skipped for an absent field and for a blank
      string; `nullable` lets null through; otherwise the value must pass the field's own checks,
      which no null passes. */
  predicate FieldOk(req: Req, k: string, required: bool, nullable: bool, valueOk: bool)
  {
    if k !in req then !required
    else if req[k] == Null then !required && nullable
    else if IsBlankValue(req[k]) then !required
    else valueOk
  }

  /** The `string` rule. */
  predicate IsString(v: Value)
  {
    v.Str? || v.Date?
  }

  function TextOf(v: Value): string
    requires IsString(v)
  {
    if v.Str? then v.text else v.dateText
  }

  /** `string|max:n`. */
  predicate StringMax(v: Value, n: nat)
  {
    IsString(v) && |TextOf(v)| <= n
  }

  /** `string|in:...`. */
  predicate StringIn(v: Value, options: set<string>)
  {
    IsString(v) && TextOf(v) in options
  }

  /** The `integer` rule, `filter_var($value, FILTER_VALIDATE_INT) !== false`: a 64-bit integer,
      `true` (which PHP writes as `1`), or a string the integer filter accepts. */
  predicate IsIntegerValue(v: Value)
  {
    (v.Int? && InInt64(v.i)) || v == Bool(true) || (v.Str? && IsIntegerLiteral(v.text))
  }

  /** The integer the filter reads, and the one the integer column stores. */
  function IntegerOf(v: Value): (i: int)
    requires IsIntegerValue(v)
    ensures InInt64(i)
    ensures v.Int? ==> i == v.i
  {
    if v.Int? then v.i else if v.Bool? then 1 else IntegerLiteralValue(v.text)
  }

  /** `true` passes as 1 and `false` fails. */
  lemma IntegerRuleBooleans()
    ensures IsIntegerValue(Bool(true)) && IntegerOf(Bool(true)) == 1 && !IsIntegerValue(Bool(false))
  {
  }

  /** A signed numeral passes and a zero in front of other digits fails. */
  lemma IntegerRuleSigns()
    ensures IsIntegerValue(Str("+7")) && IntegerOf(Str("+7")) == 7
    ensures !IsIntegerValue(Str("007")) && !IsIntegerValue(Str("-007"))
  {
    IntegerLiteralExamples();
  }

  /** A numeral padded with white space passes. */
  lemma IntegerRulePadding()
    ensures IsIntegerValue(Str(" 7\n")) && IntegerOf(Str(" 7\n")) == 7
  {
    PaddedLiteral(" ", "7", "\n");
    assert " " + "7" + "\n" == " 7\n";
    assert FilterTrim("7") == "7" && Unsigned("7") == "7";
  }

  /** An integer beyond 64 bits fails the rule, written as a string or as a number. */
  lemma BeyondInt64Refused(i: int)
    requires !InInt64(i)
    ensures !IsIntegerValue(Str(IntToString(i))) && !IsIntegerValue(Int(i))
  {
    IntegerLiteralOfIntToString(i);
  }

  /** `date|after_or_equal:other`. The comparison is made only when the other field holds a date;
      when it is absent or not a date, PHP compares the instant with null and the rule passes. */
  predicate DateNotBefore(req: Req, other: string, v: Value)
  {
    v.Date? && (Get(req, other).Date? ==> v.instant >= Get(req, other).instant)
  }

  /** The key a value names when it is compared with an auto-increment id: an integer, or a
      string of decimal digits, which the database converts. */
  function AsId(v: Value): (r: Option<nat>)
    ensures v.Int? && v.i >= 0 ==> r == Some(v.i)
  {
    if v.Int? && v.i >= 0 then Some(v.i)
    else if v.Str? && v.text != [] && AllDigits(v.text) then Some(DigitsValue(v.text))
    else None
  }

  /** Mass assignment: only the fillable keys of a request reach the model. */
  function Restrict(req: Req, fillable: set<string>): (r: Req)
    ensures r.Keys == req.Keys * fillable
    ensures forall k :: k in r ==> r[k] == req[k]
  {
    map k | k in req && k in fillable :: req[k]
  }

  /** A fillable key reads the same in the restricted request as in the request. */
  lemma RestrictGet(req: Req, fillable: set<string>, k: string)
    requires k in fillable
    ensures Get(Restrict(req, fillable), k) == Get(req, k)
    ensures k in Restrict(req, fillable) <==> k in req
  {
  }

  /** The value stored in a nullable string column. */
  function OptText(v: Value): Option<string>
  {
    if IsString(v) then Some(TextOf(v)) else None
  }
}
