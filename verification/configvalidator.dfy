/** The configuration normaliser (`validate` in `config/ConfigValidator.js`):
    a user configuration tree is checked against a defaults tree of the same
    shape and repaired. Missing values are filled from the defaults, values
    of the wrong type are replaced by them, object keys the defaults do not
    have are dropped, arrays are accepted whole, and the `gradientType` key
    is checked against its three allowed values.

    JSON values are a datatype; a JavaScript object is a map, so the order of
    its keys is not modelled. `clone` is the identity on this datatype. */
module ConfigValidator {
  import opened Wrappers

  datatype Json =
    | Null
    | Bool(b: bool)
    | Num(n: real)
    | Str(s: string)
    | Arr(items: seq<Json>)
    | Obj(fields: map<string, Json>)

  /** JavaScript's `typeof` on a JSON value: arrays and null are objects,
      and integers and fractions are both numbers. */
  function TypeOf(v: Json): string {
    match v
    case Null => "object"
    case Bool(_) => "boolean"
    case Num(_) => "number"
    case Str(_) => "string"
    case Arr(_) => "object"
    case Obj(_) => "object"
  }

  predicate IsPrimitive(v: Json) {
    v.Bool? || v.Num? || v.Str?
  }

  /** The key whose string value is checked against `GradientTypes`. */
  const GradientKey: string := "gradientType"
  const GradientTypes: seq<string> := ["linear", "radial", "halftone"]

  /** `current` is one of the allowed gradient types; `indexOf` compares
      strictly, so only a string can be. */
  predicate IsGradientType(current: Json) {
    current.Str? && current.s in GradientTypes
  }

  /** `current[key]` on an object: None stands for `undefined`. */
  function Member(fields: map<string, Json>, key: string): Option<Json> {
    if key in fields then Some(fields[key]) else None
  }

  /** `validate(current, defaults, keyName)`. `current` is None where the
      JavaScript value is `undefined`, and `key` is None at the top level. */
  function Validate(current: Option<Json>, defaults: Json, key: Option<string>): (r: Json)
    ensures current.None? || current.value.Null? ==> r == defaults
    ensures defaults.Arr? ==> r.Arr?
    ensures defaults.Obj? ==> r.Obj? && r.fields.Keys == defaults.fields.Keys
    ensures IsPrimitive(defaults) ==> TypeOf(r) == TypeOf(defaults)
    ensures IsPrimitive(defaults) && key == Some(GradientKey) ==> r == defaults || IsGradientType(r)
    decreases defaults
  {
    if current.None? || current.value.Null? then defaults
    else
      var c := current.value;
      if defaults.Arr? then
        if c.Arr? then c else defaults
      else if TypeOf(defaults) == "object" then
        if TypeOf(c) != "object" || c.Arr? then defaults
        else
          match defaults
          case Obj(fields) =>
            Obj(map k | k in fields :: Validate(Member(c.fields, k), fields[k], Some(k)))
          case Null => Obj(map[])
      else if TypeOf(c) != TypeOf(defaults) then defaults
      else if key == Some(GradientKey) && !IsGradientType(c) then defaults
      else c
  }

  // ---------------------------------------------------------------------------
  // What a validated value looks like

  /** `v` has the shape `defaults` demands at key `key`: the reference
      definition of the values `Validate` leaves alone. */
  predicate Conforms(v: Json, defaults: Json, key: Option<string>)
    decreases defaults
  {
    match defaults
    case Null => v == Null || v == Obj(map[])
    case Arr(_) => v.Arr?
    case Obj(fields) =>
      && v.Obj? && v.fields.Keys == fields.Keys
      && forall k <- fields :: Conforms(v.fields[k], fields[k], Some(k))
    case _ =>
      && TypeOf(v) == TypeOf(defaults)
      && (key == Some(GradientKey) ==> v == defaults || IsGradientType(v))
  }

  /** The defaults are a fixed point. */
  lemma {:induction false} DefaultsFixed(defaults: Json, key: Option<string>)
    ensures Validate(Some(defaults), defaults, key) == defaults
    decreases defaults
  {
    match defaults
    case Obj(fields) =>
      forall k <- fields ensures Validate(Member(fields, k), fields[k], Some(k)) == fields[k] {
        DefaultsFixed(fields[k], Some(k));
      }
    case _ =>
  }

  /** The defaults conform to themselves. */
  lemma {:induction false} DefaultsConform(defaults: Json, key: Option<string>)
    ensures Conforms(defaults, defaults, key)
    decreases defaults
  {
    match defaults
    case Obj(fields) =>
      forall k <- fields ensures Conforms(fields[k], fields[k], Some(k)) {
        DefaultsConform(fields[k], Some(k));
      }
    case _ =>
  }

  /** Whatever the user wrote, the result conforms to the defaults. */
  lemma {:induction false} ValidateConforms(current: Option<Json>, defaults: Json, key: Option<string>)
    ensures Conforms(Validate(current, defaults, key), defaults, key)
    decreases defaults
  {
    var r := Validate(current, defaults, key);
    if r == defaults {
      DefaultsConform(defaults, key);
    } else if defaults.Obj? {
      var fields := defaults.fields;
      var c := current.value.fields;
      forall k <- fields ensures Conforms(r.fields[k], fields[k], Some(k)) {
        ValidateConforms(Member(c, k), fields[k], Some(k));
      }
    }
  }

  /** A conforming value is returned unchanged. */
  lemma {:induction false} ConformingKept(v: Json, defaults: Json, key: Option<string>)
    requires Conforms(v, defaults, key)
    ensures Validate(Some(v), defaults, key) == v
    decreases defaults
  {
    match defaults
    case Obj(fields) =>
      forall k <- fields ensures Validate(Member(v.fields, k), fields[k], Some(k)) == v.fields[k] {
        ConformingKept(v.fields[k], fields[k], Some(k));
      }
    case _ =>
  }

  /** A value `Validate` leaves unchanged conforms. */
  lemma KeptConforms(v: Json, defaults: Json, key: Option<string>)
    requires Validate(Some(v), defaults, key) == v
    ensures Conforms(v, defaults, key)
  {
    ValidateConforms(Some(v), defaults, key);
  }

  /** Validation is idempotent: a repaired configuration needs no repair. */
  lemma Idempotent(current: Option<Json>, defaults: Json, key: Option<string>)
    ensures Validate(Some(Validate(current, defaults, key)), defaults, key) == Validate(current, defaults, key)
  {
    ValidateConforms(current, defaults, key);
    ConformingKept(Validate(current, defaults, key), defaults, key);
  }

  // ---------------------------------------------------------------------------
  // The individual rules

  /** An array is accepted whole against an array default; its elements are
      not inspected. Anything else is replaced by the default. */
  lemma ArrayRule(current: Json, items: seq<Json>, key: Option<string>)
    ensures current.Arr? ==> Validate(Some(current), Arr(items), key) == current
    ensures !current.Arr? ==> Validate(Some(current), Arr(items), key) == Arr(items)
  {
  }

  /** Against an object default, an object keeps exactly the default's keys,
      each validated recursively; a primitive or an array is replaced. */
  lemma ObjectRule(current: Json, fields: map<string, Json>, key: Option<string>)
    ensures current.Obj? ==> forall k <- fields ::
      Validate(Some(current), Obj(fields), key).fields[k] == Validate(Member(current.fields, k), fields[k], Some(k))
    ensures current.Obj? ==> forall k <- current.fields :: k !in fields ==>
      k !in Validate(Some(current), Obj(fields), key).fields
    ensures !current.Obj? && !current.Null? ==> Validate(Some(current), Obj(fields), key) == Obj(fields)
  {
  }

  /** A key missing from the user's object takes the default's value. */
  lemma MissingKeyFilled(current: map<string, Json>, fields: map<string, Json>, k: string, key: Option<string>)
    requires k in fields && k !in current
    ensures Validate(Some(Obj(current)), Obj(fields), key).fields[k] == fields[k]
  {
  }

  /** `typeof null` is `object`, so a null default turns an object into `{}`
      and replaces anything else by null. */
  lemma NullDefaultRule(current: Json, key: Option<string>)
    ensures current.Obj? ==> Validate(Some(current), Null, key) == Obj(map[])
    ensures !current.Obj? ==> Validate(Some(current), Null, key) == Null
  {
  }

  /** A primitive of the default's type is kept, and integers and fractions
      are the same type. */
  lemma PrimitiveRule(current: Json, defaults: Json, key: Option<string>)
    requires IsPrimitive(defaults) && key != Some(GradientKey)
    ensures TypeOf(current) == TypeOf(defaults) ==> Validate(Some(current), defaults, key) == current
    ensures TypeOf(current) != TypeOf(defaults) ==> Validate(Some(current), defaults, key) == defaults
  {
  }

  /** Under `gradientType` a primitive is kept only when it is one of the
      three allowed strings, at any depth of the tree. */
  lemma GradientRule(current: Json, defaults: Json)
    requires IsPrimitive(defaults)
    ensures Validate(Some(current), defaults, Some(GradientKey)) == current <==>
      current == defaults || (IsGradientType(current) && defaults.Str?)
  {
  }

  lemma NumbersShareAType()
    ensures Validate(Some(Num(1.5)), Num(1.0), Some("opacity")) == Num(1.5)
  {
  }

  lemma UnknownGradientReplaced()
    ensures Validate(Some(Str("conic")), Str("linear"), Some(GradientKey)) == Str("linear")
  {
    assert "conic" != "linear" && "conic" != "radial" && "conic" != "halftone";
  }
}
