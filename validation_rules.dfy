/**
 * The form validation of the frontend (`frontend/src/validation/rules.js`):
 * four atomic rules, `validateField`, which reports the first rule that
 * fails, and `validateAll`, which collects one message per failing field.
 * A field's value is `undefined`, `null` or a text, as the forms bind it.
 */
module ValidationRules {
  import opened Common
  import JsText

  /** A rule's answer: `true`, or the message it returns instead. */
  datatype Verdict = Pass | Fail(message: string)

  /** The rules, with the arguments given when they are built. */
  datatype Rule =
    | Required(msg: string)
    | IsEmail(msg: string)
      /** `minLength(n, msg)`; a missing or empty `msg` falls back to `Mínimo ${n} caracteres`. */
    | MinLength(n: int, message: Option<string>)
      /** `sameAs(getter, msg)`, with the value the getter returns when the rule runs. */
    | SameAs(other: JsStr, msg: string)

  const DefaultRequired: string := "Este campo es obligatorio"
  const DefaultEmail: string := "Correo inválido"
  const DefaultSameAs: string := "Los valores no coinciden"

  /** `String(v || '')`: the text of a truthy value, the empty text otherwise. */
  function TextOr(v: JsStr): (s: string)
    ensures v.Str? ==> s == v.s
    ensures !v.Str? ==> s == ""
  {
    if v.Truthy() then v.s else ""
  }

  function MinLengthMessage(n: int, msg: Option<string>): string
  {
    if msg.Some? && msg.value != "" then msg.value else "Mínimo " + JsText.IntText(n) + " caracteres"
  }

  /** A rule applied to a value. */
  function Apply(rule: Rule, v: JsStr): (r: Verdict)
    ensures rule.Required? ==> (r.Pass? <==> v.Str? && Trim(v.s) != "")
    ensures rule.IsEmail? ==> (r.Pass? <==> JsText.EmailPattern(Trim(TextOr(v))))
    ensures rule.MinLength? ==> (r.Pass? <==> |TextOr(v)| >= rule.n)
    ensures rule.SameAs? ==> (r.Pass? <==> v == rule.other)
    ensures r.Fail? ==> r.message == (if rule.MinLength? then MinLengthMessage(rule.n, rule.message) else rule.msg)
  {
    match rule
    case Required(msg) => if v.Str? && Trim(v.s) != "" then Pass else Fail(msg)
    case IsEmail(msg) =>
      JsText.EmailIff(Trim(TextOr(v)));
      if JsText.IsEmail(Trim(TextOr(v))) then Pass else Fail(msg)
    case MinLength(n, msg) => if |TextOr(v)| >= n then Pass else Fail(MinLengthMessage(n, msg))
    case SameAs(other, msg) => if v == other then Pass else Fail(msg)
  }

  /** The verdict `validateField` returns. */
  function FirstFailure(v: JsStr, rules: seq<Rule>): Verdict
  {
    if rules == [] then Pass
    else if Apply(rules[0], v).Fail? then Apply(rules[0], v)
    else FirstFailure(v, rules[1..])
  }

  /** `true` exactly when every rule passes; otherwise the message of the first rule that fails. */
  lemma {:induction false} FirstFailureMeaning(v: JsStr, rules: seq<Rule>)
    ensures FirstFailure(v, rules).Pass? <==> forall i :: 0 <= i < |rules| ==> Apply(rules[i], v).Pass?
    ensures FirstFailure(v, rules).Fail? ==>
      exists k :: 0 <= k < |rules| && Apply(rules[k], v) == FirstFailure(v, rules) &&
                  forall i :: 0 <= i < k ==> Apply(rules[i], v).Pass?
  {
    if rules != [] && Apply(rules[0], v).Pass? {
      var tail := rules[1..];
      FirstFailureMeaning(v, tail);
      assert forall i :: 1 <= i < |rules| ==> tail[i - 1] == rules[i];
      var r := FirstFailure(v, tail);
      if r.Fail? {
        var k :| 0 <= k < |tail| && Apply(tail[k], v) == r && forall i :: 0 <= i < k ==> Apply(tail[i], v).Pass?;
        assert Apply(rules[k + 1], v) == r;
      }
    }
  }

  /** The rules that come after a failing one are never consulted. */
  lemma {:induction false} LaterRulesIgnored(v: JsStr, rules: seq<Rule>, more: seq<Rule>)
    requires FirstFailure(v, rules).Fail?
    ensures FirstFailure(v, rules + more) == FirstFailure(v, rules)
  {
    if Apply(rules[0], v).Pass? {
      assert (rules + more)[1..] == rules[1..] + more;
      LaterRulesIgnored(v, rules[1..], more);
    }
  }

  /** `validateField`: the rules are run in order and the first that does not answer `true` decides. */
  method ValidateField(value: JsStr, rules: seq<Rule>) returns (res: Verdict)
    ensures res == FirstFailure(value, rules)
  {
    var i := 0;
    while i < |rules|
      invariant 0 <= i <= |rules|
      invariant FirstFailure(value, rules) == FirstFailure(value, rules[i..])
      invariant forall j :: 0 <= j < i ==> Apply(rules[j], value).Pass?
    {
      var r := Apply(rules[i], value);
      if r.Fail? {
        return r;
      }
      assert rules[i..][1..] == rules[i + 1..];
      i := i + 1;
    }
    return Pass;
  }

  /** A schema: the fields in the order of `Object.keys`, each with its rules. */
  datatype Field = Field(key: string, rules: seq<Rule>)

  /** An object's keys are distinct. */
  predicate DistinctKeys(schema: seq<Field>)
  {
    forall i, j :: 0 <= i < j < |schema| ==> schema[i].key != schema[j].key
  }

  /** `values[key]`: `undefined` for a key the object lacks. */
  function ValueAt(values: map<string, JsStr>, key: string): JsStr
  {
    if key in values then values[key] else Undefined
  }

  /** The `errors` object of `validateAll`. */
  function Errors(schema: seq<Field>, values: map<string, JsStr>): map<string, string>
  {
    if schema == [] then map[]
    else
      var f := schema[|schema| - 1];
      var e := Errors(schema[..|schema| - 1], values);
      match FirstFailure(ValueAt(values, f.key), f.rules)
      case Pass => e
      case Fail(m) => e[f.key := m]
  }

  /** Only keys of the schema carry an error. */
  lemma {:induction false} ErrorsKeys(schema: seq<Field>, values: map<string, JsStr>, k: string)
    requires k in Errors(schema, values)
    ensures exists i :: 0 <= i < |schema| && schema[i].key == k
  {
    var init := schema[..|schema| - 1];
    if k in Errors(init, values) {
      ErrorsKeys(init, values, k);
      var i :| 0 <= i < |init| && init[i].key == k;
      assert schema[i] == init[i];
    }
  }

  /** A key outside the schema carries no error. */
  lemma {:induction false} ErrorsOutside(schema: seq<Field>, values: map<string, JsStr>, k: string)
    requires forall i :: 0 <= i < |schema| ==> schema[i].key != k
    ensures k !in Errors(schema, values)
  {
    if schema != [] {
      var init := schema[..|schema| - 1];
      assert forall i :: 0 <= i < |init| ==> init[i] == schema[i];
      ErrorsOutside(init, values, k);
    }
  }

  /** Each field of the schema carries an error exactly when its rules fail, and the error is the first failing message. */
  lemma {:induction false} ErrorsAt(schema: seq<Field>, values: map<string, JsStr>, i: nat)
    requires DistinctKeys(schema) && i < |schema|
    ensures var v := FirstFailure(ValueAt(values, schema[i].key), schema[i].rules);
      (schema[i].key in Errors(schema, values) <==> v.Fail?) &&
      (v.Fail? ==> Errors(schema, values)[schema[i].key] == v.message)
  {
    var init := schema[..|schema| - 1];
    if i < |init| {
      assert init[i] == schema[i];
      assert DistinctKeys(init);
      ErrorsAt(init, values, i);
      assert schema[i].key != schema[|schema| - 1].key;
    } else {
      assert forall j :: 0 <= j < |init| ==> init[j].key != schema[i].key by {
        assert forall j :: 0 <= j < |init| ==> init[j] == schema[j];
      }
      ErrorsOutside(init, values, schema[i].key);
    }
  }

  /** `validateAll`: every field is validated; the form is valid exactly when no field fails. */
  method ValidateAll(schema: seq<Field>, values: map<string, JsStr>) returns (isValid: bool, errors: map<string, string>)
    requires DistinctKeys(schema)
    ensures errors == Errors(schema, values)
    ensures isValid <==> errors == map[]
  {
    errors := map[];
    isValid := true;
    var i := 0;
    while i < |schema|
      invariant 0 <= i <= |schema|
      invariant errors == Errors(schema[..i], values)
      invariant isValid <==> errors == map[]
    {
      var f := schema[i];
      assert schema[..i + 1][..i] == schema[..i];
      assert schema[..i + 1][i] == f;
      var res := ValidateField(ValueAt(values, f.key), f.rules);
      if res.Fail? {
        errors := errors[f.key := res.message];
        assert f.key in errors;
        isValid := false;
      }
      i := i + 1;
    }
    assert schema[..|schema|] == schema;
  }

  /** The form is valid exactly when every field passes all its rules. */
  lemma ValidIffAllPass(schema: seq<Field>, values: map<string, JsStr>)
    requires DistinctKeys(schema)
    ensures Errors(schema, values) == map[] <==>
      forall i, j :: 0 <= i < |schema| && 0 <= j < |schema[i].rules| ==>
        Apply(schema[i].rules[j], ValueAt(values, schema[i].key)).Pass?
  {
    var e := Errors(schema, values);
    if e != map[] {
      var k :| k in e;
      ErrorsKeys(schema, values, k);
      var i :| 0 <= i < |schema| && schema[i].key == k;
      ErrorsAt(schema, values, i);
      FirstFailureMeaning(ValueAt(values, k), schema[i].rules);
      var j :| 0 <= j < |schema[i].rules| && Apply(schema[i].rules[j], ValueAt(values, k)).Fail?;
    } else {
      forall i, j | 0 <= i < |schema| && 0 <= j < |schema[i].rules|
        ensures Apply(schema[i].rules[j], ValueAt(values, schema[i].key)).Pass?
      {
        ErrorsAt(schema, values, i);
        FirstFailureMeaning(ValueAt(values, schema[i].key), schema[i].rules);
      }
    }
  }

  // ---------------------------------------------------------------------------
  // The two schemas of the forms
  // ---------------------------------------------------------------------------

  const LoginSchema: seq<Field> := [
    Field("email", [Required("El correo es obligatorio"), IsEmail("Formato de correo inválido")]),
    Field("password", [Required("La contraseña es obligatoria"), MinLength(6, Some("Mínimo 6 caracteres"))])
  ]

  function RegisterSchema(password: JsStr): seq<Field>
  {
    [ Field("nombre", [Required("El nombre es obligatorio")]),
      Field("email", [Required("El correo es obligatorio"), IsEmail("Formato de correo inválido")]),
      Field("password", [Required("La contraseña es obligatoria"), MinLength(6, Some("Mínimo 6 caracteres"))]),
      Field("confirm", [Required("Debes confirmar la contraseña"), SameAs(password, "Las contraseñas no coinciden")]) ]
  }

  /** An empty confirmation reports the missing value, never the mismatch. */
  lemma EmptyConfirmReportsRequired(password: JsStr)
    ensures FirstFailure(Str(""), RegisterSchema(password)[3].rules) == Fail("Debes confirmar la contraseña")
  {
    assert Trim("") == "";
  }

  /** A filled confirmation that differs from the password reports the mismatch. */
  lemma MismatchReported(password: JsStr, confirm: string)
    requires Trim(confirm) != "" && password != Str(confirm)
    ensures FirstFailure(Str(confirm), RegisterSchema(password)[3].rules) == Fail("Las contraseñas no coinciden")
  {
    var rules := RegisterSchema(password)[3].rules;
    assert Apply(rules[0], Str(confirm)).Pass?;
    assert rules[1..] == [SameAs(password, "Las contraseñas no coinciden")];
  }
}
