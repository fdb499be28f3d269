/** The request-body validators in front of the handlers: the whitelist and type check of a todo
    update, and the generic emptiness and minimum-length check behind the register, login and
    create-todo validators. Error records are built key by key, as the middleware does. */
module Validation {
  import opened Wrappers
  import opened Json
  import opened Http
  import Seqs
  import Text
  import TodoModel

  // ---------------------------------------------------------------------------------------------
  // validateUpdateTodo

  /** The keys an update may carry, in the order they are checked. */
  const AllowedKeys: seq<string> := ["title", "description", "category", "completed"]

  function NotAllowed(): string -> bool {
    (k: string) => k !in AllowedKeys
  }

  /** The body keys outside the whitelist, in body order. */
  function ExtraKeys(body: Object<Value>): (extra: seq<string>)
    ensures forall k :: k in extra <==> k in Keys(body) && k !in AllowedKeys
    ensures Seqs.IsSubsequence(extra, Keys(body))
  {
    Seqs.FilterIsSubsequence(Keys(body), NotAllowed());
    Seqs.Filter(Keys(body), NotAllowed())
  }

  /** The answer to extra keys names every one of them after a fixed lead-in. */
  function ExtraFieldsMessage(extra: seq<string>): (m: string)
    ensures Text.StartsWith(m, ExtraFieldsLead)
    ensures forall k :: k in extra ==> Text.Includes(m, k)
  {
    var list := Text.Join(extra, ", ");
    var m := ExtraFieldsLead + list;
    assert m[..|ExtraFieldsLead|] == ExtraFieldsLead;
    Text.JoinIncludes(extra, ", ");
    forall k | k in extra ensures Text.Includes(m, k) {
      var i :| 0 <= i <= |list| - |k| && Text.InfixAt(list, k, i);
      var at := |ExtraFieldsLead| + i;
      assert m[at..at + |k|] == list[i..i + |k|];
      assert Text.InfixAt(m, k, at);
    }
    m
  }

  const ExtraFieldsLead: string := "Extra fields to update todo: "

  function InvalidValue(key: string): string {
    "Invalid value for field " + key
  }

  /** The runtime type a key demands: a boolean for `completed`, a string for the others. */
  predicate WellTyped(key: string, v: Value) {
    if key == "completed" then v.Bool? else v.Str?
  }

  /** The body has the key, with a value of the wrong type. */
  predicate Mistyped(body: Object<Value>, key: string) {
    Get(body, key).Some? && !WellTyped(key, Get(body, key).value)
  }

  /** The error record the type checks of `keys` build, one key after the other (see
      `TypeErrorsSpec` for what it holds). */
  function TypeErrors(body: Object<Value>, keys: seq<string>): Object<string> {
    if keys == [] then []
    else
      var k := keys[|keys| - 1];
      var prev := TypeErrors(body, keys[..|keys| - 1]);
      if Mistyped(body, k) then Put(prev, k, InvalidValue(k)) else prev
  }

  /** The record holds exactly the checked keys whose value has the wrong type, each with the
      message naming it. */
  lemma {:induction false} TypeErrorsSpec(body: Object<Value>, keys: seq<string>)
    ensures forall k :: k in Keys(TypeErrors(body, keys)) <==> k in keys && Mistyped(body, k)
    ensures forall k :: k in Keys(TypeErrors(body, keys)) ==> Get(TypeErrors(body, keys), k) == Some(InvalidValue(k))
  {
    if keys != [] {
      var n := |keys| - 1;
      var init, k := keys[..n], keys[n];
      assert keys == init + [k];
      TypeErrorsSpec(body, init);
      TypeErrorsStep(body, init, k);
      if Mistyped(body, k) {
        PutKeys(TypeErrors(body, init), k, InvalidValue(k));
      }
    }
  }

  /** Checking one more key extends the record by that key's error, if it has one. */
  lemma TypeErrorsStep(body: Object<Value>, keys: seq<string>, k: string)
    ensures TypeErrors(body, keys + [k]) ==
      if Mistyped(body, k) then Put(TypeErrors(body, keys), k, InvalidValue(k)) else TypeErrors(body, keys)
  {
    assert (keys + [k])[..|keys|] == keys;
  }

  /** The value an update holds for one of the allowed keys, as a JSON value. */
  function Field(u: TodoModel.TodoUpdate, key: string): Option<Value> {
    if key == "title" then (if u.title.Some? then Some(Str(u.title.value)) else None)
    else if key == "description" then (if u.description.Some? then Some(Str(u.description.value)) else None)
    else if key == "category" then (if u.category.Some? then Some(Str(u.category.value)) else None)
    else if key == "completed" then (if u.completed.Some? then Some(Bool(u.completed.value)) else None)
    else None
  }

  /** A present string value, as `result[key] = value` copies it after the type check. */
  function TextOf(v: Option<Value>): Option<string> {
    if v.Some? && v.value.Str? then Some(v.value.s) else None
  }

  /** A present boolean value, as `result.completed = value` copies it after the type check. */
  function BoolOf(v: Option<Value>): Option<bool> {
    if v.Some? && v.value.Bool? then Some(v.value.b) else None
  }

  /** The update the type checks assemble from a body: each allowed key whose value has the right
      type, and nothing else. */
  function UpdateFrom(body: Object<Value>): TodoModel.TodoUpdate {
    TodoModel.TodoUpdate(
      TextOf(Get(body, "title")), TextOf(Get(body, "description")),
      TextOf(Get(body, "category")), BoolOf(Get(body, "completed")))
  }

  /** `validateUpdateTodo`: extra keys are refused first, listed in body order; then each allowed
      key the body has is type-checked, collecting one error per mistyped key; with no error the
      update is assembled from the body (see `UpdateHoldsBody` for what it then holds). */
  method ValidateUpdateTodo(body: Object<Value>) returns (out: Outcome<TodoModel.TodoUpdate>)
    ensures !out.TypeError?
    ensures ExtraKeys(body) != [] ==>
      out == Respond(Response(400, Error(ExtraFieldsMessage(ExtraKeys(body)))))
    ensures ExtraKeys(body) == [] && TypeErrors(body, AllowedKeys) != [] ==>
      out == Respond(Response(400, FieldErrors(TypeErrors(body, AllowedKeys))))
    ensures out.Next? <==> ExtraKeys(body) == [] && forall k :: k in AllowedKeys ==> !Mistyped(body, k)
    ensures out.Next? ==> out.value == UpdateFrom(body)
  {
    var extra := ExtraKeys(body);
    if |extra| > 0 {
      return Respond(Response(400, Error(ExtraFieldsMessage(extra))));
    }
    var result := TodoModel.TodoUpdate(None, None, None, None);
    var errors: Object<string> := [];
    ghost var want := UpdateFrom(body);
    for i := 0 to |AllowedKeys|
      invariant errors == TypeErrors(body, AllowedKeys[..i])
      invariant result.title == if i > 0 then want.title else None
      invariant result.description == if i > 1 then want.description else None
      invariant result.category == if i > 2 then want.category else None
      invariant result.completed == if i > 3 then want.completed else None
    {
      var key := AllowedKeys[i];
      assert AllowedKeys[..i + 1] == AllowedKeys[..i] + [key];
      TypeErrorsStep(body, AllowedKeys[..i], key);
      if key in Keys(body) {
        var value := Get(body, key).value;
        if key == "completed" {
          if !value.Bool? {
            errors := Put(errors, "completed", InvalidValue(key));
          } else {
            result := result.(completed := Some(value.b));
          }
        } else {
          if !value.Str? {
            errors := Put(errors, key, InvalidValue(key));
          } else {
            result := SetText(result, key, value.s);
          }
        }
      }
    }
    assert AllowedKeys[..|AllowedKeys|] == AllowedKeys;
    NoTypeErrors(body);
    if |Keys(errors)| > 0 {
      return Respond(Response(400, FieldErrors(errors)));
    }
    return Next(result);
  }

  /** The record is empty exactly when no allowed key is mistyped. */
  lemma NoTypeErrors(body: Object<Value>)
    ensures TypeErrors(body, AllowedKeys) == [] <==> forall k :: k in AllowedKeys ==> !Mistyped(body, k)
  {
    var errors := TypeErrors(body, AllowedKeys);
    TypeErrorsSpec(body, AllowedKeys);
    if errors != [] {
      assert Keys(errors)[0] in Keys(errors);
    }
  }

  /** `result[key] = value` for one of the string-valued keys. */
  function SetText(u: TodoModel.TodoUpdate, key: string, s: string): (r: TodoModel.TodoUpdate)
    requires key == "title" || key == "description" || key == "category"
    ensures r.title == if key == "title" then Some(s) else u.title
    ensures r.description == if key == "description" then Some(s) else u.description
    ensures r.category == if key == "category" then Some(s) else u.category
    ensures r.completed == u.completed
  {
    if key == "title" then u.(title := Some(s))
    else if key == "description" then u.(description := Some(s))
    else u.(category := Some(s))
  }

  /** When validation passes, the update holds exactly the allowed keys of the body with their
      values, so an empty body gives the empty update and nothing else does. */
  lemma UpdateHoldsBody(body: Object<Value>)
    requires ExtraKeys(body) == []
    requires forall k :: k in AllowedKeys ==> !Mistyped(body, k)
    ensures forall k :: k in AllowedKeys ==> Field(UpdateFrom(body), k) == Get(body, k)
    ensures UpdateFrom(body).IsEmpty() <==> Keys(body) == []
  {
    var u := UpdateFrom(body);
    assert !Mistyped(body, "title") && !Mistyped(body, "description");
    assert !Mistyped(body, "category") && !Mistyped(body, "completed");
    assert Field(u, "title") == Get(body, "title");
    assert Field(u, "description") == Get(body, "description");
    assert Field(u, "category") == Get(body, "category");
    assert Field(u, "completed") == Get(body, "completed");
    EmptyExactlyWithoutKeys(body, u);
  }

  /** An update agreeing with a whitelisted body on every allowed key is empty exactly when the
      body has no key. */
  lemma EmptyExactlyWithoutKeys(body: Object<Value>, u: TodoModel.TodoUpdate)
    requires ExtraKeys(body) == []
    requires forall k :: k in AllowedKeys ==> Field(u, k) == Get(body, k)
    ensures u.IsEmpty() <==> Keys(body) == []
  {
    if Keys(body) != [] {
      var k := Keys(body)[0];
      assert k in AllowedKeys;
      assert Field(u, k).Some?;
    } else {
      assert Get(body, "title").None? && Get(body, "description").None?;
      assert Get(body, "category").None? && Get(body, "completed").None?;
      assert Field(u, "title").None? && Field(u, "description").None?;
      assert Field(u, "category").None? && Field(u, "completed").None?;
    }
  }

  // ---------------------------------------------------------------------------------------------
  // validationFields

  /** A field to check; a `minLength` of 0 stands for a field with no minimum length. */
  datatype FieldRule = FieldRule(name: string, minLength: nat)

  /** The verdict on one field: `value?.trim()` on a value that is neither a string nor
      null/undefined throws a `TypeError`. */
  datatype Verdict = Passed | Empty | TooShort | Throws

  /** The body holds a string at `name` whose trimmed text is non-empty and at least `n` UTF-16
      code units long (JavaScript's `length`). */
  predicate Filled(body: Object<Value>, name: string, n: nat) {
    Get(body, name).Some? && Get(body, name).value.Str? &&
    var t := Text.Trim(Get(body, name).value.s); t != "" && Text.Utf16Length(t) >= n
  }

  /** The value at `name` cannot be trimmed: present, and neither a string nor null. */
  predicate Untrimmable(body: Object<Value>, name: string) {
    Get(body, name).Some? && !Get(body, name).value.Str? && !Get(body, name).value.Null?
  }

  function Check(body: Object<Value>, rule: FieldRule): (v: Verdict)
    ensures v == Throws <==> Untrimmable(body, rule.name)
    ensures v == Passed <==> Filled(body, rule.name, rule.minLength)
    ensures v == TooShort <==> Filled(body, rule.name, 1) && !Filled(body, rule.name, rule.minLength)
    ensures v == Empty <==> !Untrimmable(body, rule.name) && !Filled(body, rule.name, 1)
  {
    var value := Get(body, rule.name);
    if value.None? || value.value.Null? then Empty
    else if !value.value.Str? then Throws
    else
      var t := Text.Trim(value.value.s);
      if t == "" then Empty
      else if rule.minLength > 0 && Text.Utf16Length(t) < rule.minLength then TooShort
      else Passed
  }

  /** Three emoji (U+1F600) are six UTF-16 code units, so they make a long enough password. */
  lemma AstralPassword(body: Object<Value>)
    requires body == [("password", Str("\U{1F600}\U{1F600}\U{1F600}"))]
    ensures Check(body, FieldRule("password", 6)) == Passed
  {
    var s := "\U{1F600}\U{1F600}\U{1F600}";
    assert Get(body, "password") == Some(Str(s));
    AstralText();
  }

  lemma AstralText()
    ensures var s := "\U{1F600}\U{1F600}\U{1F600}";
      Text.Trim(s) == s && Text.Utf16Length(s) == 6
  {
    var s := "\U{1F600}\U{1F600}\U{1F600}";
    assert Text.TrimStart(s) == s;
    assert Text.TrimEnd(s) == s;
    assert Text.Utf16Length(s[2..]) == 2;
    assert Text.Utf16Length(s[1..]) == 4 by { assert s[1..][1..] == s[2..]; }
  }

  function FieldMessage(rule: FieldRule, v: Verdict): string {
    if v == TooShort then
      rule.name + " must be at least " + Text.NatToString(rule.minLength) + " characters long"
    else rule.name + " is empty"
  }

  predicate Fails(body: Object<Value>, rule: FieldRule) {
    Check(body, rule) == Empty || Check(body, rule) == TooShort
  }

  /** The error record the checks of `rules` build, one rule after the other (see
      `FieldErrorsOfSpec` for what it holds). */
  function FieldErrorsOf(body: Object<Value>, rules: seq<FieldRule>): Object<string> {
    if rules == [] then []
    else
      var rule := rules[|rules| - 1];
      var prev := FieldErrorsOf(body, rules[..|rules| - 1]);
      if Fails(body, rule) then Put(prev, rule.name, FieldMessage(rule, Check(body, rule))) else prev
  }

  /** Some rule for the field `name` fails. */
  predicate FailsFor(body: Object<Value>, rules: seq<FieldRule>, name: string) {
    exists j :: 0 <= j < |rules| && rules[j].name == name && Fails(body, rules[j])
  }

  /** The record holds, for `name`, the message of a failing rule for that field. */
  predicate ReportsFrom(body: Object<Value>, rules: seq<FieldRule>, errors: Object<string>, name: string) {
    exists j :: 0 <= j < |rules| && rules[j].name == name && Fails(body, rules[j]) &&
      Get(errors, name) == Some(FieldMessage(rules[j], Check(body, rules[j])))
  }

  /** The record has one entry per failing field, holding the message of a failing rule for it. */
  lemma FieldErrorsOfSpec(body: Object<Value>, rules: seq<FieldRule>)
    ensures forall k :: k in Keys(FieldErrorsOf(body, rules)) <==> FailsFor(body, rules, k)
    ensures forall k :: k in Keys(FieldErrorsOf(body, rules)) ==>
      ReportsFrom(body, rules, FieldErrorsOf(body, rules), k)
  {
    FieldErrorsKeys(body, rules);
    FieldErrorsMessages(body, rules);
  }

  /** The record has an entry exactly for the fields some rule fails. */
  lemma {:induction false} FieldErrorsKeys(body: Object<Value>, rules: seq<FieldRule>)
    ensures forall k :: k in Keys(FieldErrorsOf(body, rules)) <==> FailsFor(body, rules, k)
  {
    if rules != [] {
      var n := |rules| - 1;
      var init, rule := rules[..n], rules[n];
      assert rules == init + [rule];
      FieldErrorsKeys(body, init);
      FieldErrorsStep(body, init, rule);
      var prev := FieldErrorsOf(body, init);
      var errors := FieldErrorsOf(body, rules);
      if Fails(body, rule) {
        PutKeys(prev, rule.name, FieldMessage(rule, Check(body, rule)));
      }
      forall k ensures k in Keys(errors) <==> FailsFor(body, rules, k) {
        assert k in Keys(errors) <==> k in Keys(prev) || (Fails(body, rule) && k == rule.name);
        FailsForSnoc(body, init, rule, k);
      }
    }
  }

  /** One more rule adds its own field if it fails. */
  lemma FailsForSnoc(body: Object<Value>, init: seq<FieldRule>, rule: FieldRule, name: string)
    ensures FailsFor(body, init + [rule], name) <==>
      FailsFor(body, init, name) || (rule.name == name && Fails(body, rule))
  {
    var rules := init + [rule];
    if FailsFor(body, init, name) {
      var j :| 0 <= j < |init| && init[j].name == name && Fails(body, init[j]);
      assert rules[j] == init[j];
    }
    if rule.name == name && Fails(body, rule) {
      assert rules[|init|] == rule;
    }
    if FailsFor(body, rules, name) {
      var j :| 0 <= j < |rules| && rules[j].name == name && Fails(body, rules[j]);
      if j < |init| {
        assert init[j] == rules[j];
      }
    }
  }

  /** Each entry holds the message of a failing rule for its field. */
  lemma {:induction false} FieldErrorsMessages(body: Object<Value>, rules: seq<FieldRule>)
    ensures forall k :: k in Keys(FieldErrorsOf(body, rules)) ==>
      ReportsFrom(body, rules, FieldErrorsOf(body, rules), k)
  {
    if rules != [] {
      var n := |rules| - 1;
      var init, rule := rules[..n], rules[n];
      assert rules == init + [rule];
      FieldErrorsMessages(body, init);
      FieldErrorsStep(body, init, rule);
      var prev := FieldErrorsOf(body, init);
      var errors := FieldErrorsOf(body, rules);
      var message := FieldMessage(rule, Check(body, rule));
      if Fails(body, rule) {
        PutKeys(prev, rule.name, message);
      }
      forall k | k in Keys(errors) ensures ReportsFrom(body, rules, errors, k) {
        if Fails(body, rule) && k == rule.name {
          assert Get(errors, k) == Some(message);
          assert rules[n] == rule;
        } else {
          assert k in Keys(prev) && Get(errors, k) == Get(prev, k);
          var j :| 0 <= j < |init| && init[j].name == k && Fails(body, init[j]) &&
            Get(prev, k) == Some(FieldMessage(init[j], Check(body, init[j])));
          assert rules[j] == init[j];
        }
      }
    }
  }

  /** Checking one more rule extends the record by that rule's message, if its field fails. */
  lemma FieldErrorsStep(body: Object<Value>, rules: seq<FieldRule>, rule: FieldRule)
    ensures FieldErrorsOf(body, rules + [rule]) ==
      if Fails(body, rule) then Put(FieldErrorsOf(body, rules), rule.name, FieldMessage(rule, Check(body, rule)))
      else FieldErrorsOf(body, rules)
  {
    assert (rules + [rule])[..|rules|] == rules;
  }

  /** `validationFields`: the first untrimmable value throws; otherwise every failing field is
      reported, and control passes on exactly when every field passed. */
  method ValidationFields(body: Object<Value>, rules: seq<FieldRule>) returns (out: Outcome<()>)
    ensures out.TypeError? <==> exists j :: 0 <= j < |rules| && Check(body, rules[j]) == Throws
    ensures out.Next? <==> forall j :: 0 <= j < |rules| ==> Check(body, rules[j]) == Passed
    ensures out.Respond? ==> out.response == Response(400, FieldErrors(FieldErrorsOf(body, rules)))
  {
    var errors: Object<string> := [];
    for i := 0 to |rules|
      invariant forall j :: 0 <= j < i ==> Check(body, rules[j]) != Throws
      invariant errors == FieldErrorsOf(body, rules[..i])
    {
      var verdict := Check(body, rules[i]);
      assert rules[..i + 1] == rules[..i] + [rules[i]];
      FieldErrorsStep(body, rules[..i], rules[i]);
      if verdict == Throws {
        return TypeError;
      }
      if verdict != Passed {
        errors := Put(errors, rules[i].name, FieldMessage(rules[i], verdict));
      }
      forall j | 0 <= j < i + 1 ensures Check(body, rules[j]) != Throws {
        if j == i { assert Check(body, rules[j]) == verdict; }
      }
    }
    assert rules[..|rules|] == rules;
    FieldErrorsOfSpec(body, rules);
    if |Keys(errors)| > 0 {
      assert Keys(errors)[0] in Keys(errors);
      var j :| 0 <= j < |rules| && rules[j].name == Keys(errors)[0] && Fails(body, rules[j]);
      assert Check(body, rules[j]) != Passed;
      return Respond(Response(400, FieldErrors(errors)));
    }
    forall j | 0 <= j < |rules| ensures Check(body, rules[j]) == Passed {
      assert rules[j].name !in Keys(errors);
      assert !Fails(body, rules[j]);
    }
    return Next(());
  }

  /** For three rules: every one passes, or one of them throws, spelled out. */
  lemma ThreeRules(body: Object<Value>, rules: seq<FieldRule>)
    requires |rules| == 3
    ensures (forall j :: 0 <= j < |rules| ==> Check(body, rules[j]) == Passed) <==>
      Check(body, rules[0]) == Passed && Check(body, rules[1]) == Passed && Check(body, rules[2]) == Passed
    ensures (exists j :: 0 <= j < |rules| && Check(body, rules[j]) == Throws) <==>
      Check(body, rules[0]) == Throws || Check(body, rules[1]) == Throws || Check(body, rules[2]) == Throws
  {
    var c0, c1, c2 := Check(body, rules[0]), Check(body, rules[1]), Check(body, rules[2]);
    forall j | 0 <= j < |rules| ensures Check(body, rules[j]) == if j == 0 then c0 else if j == 1 then c1 else c2 {
      if j == 0 {} else if j == 1 {} else {}
    }
    if c0 == Throws { assert Check(body, rules[0]) == Throws; }
    if c1 == Throws { assert Check(body, rules[1]) == Throws; }
    if c2 == Throws { assert Check(body, rules[2]) == Throws; }
  }

  const RegisterRules: seq<FieldRule> :=
    [FieldRule("username", 3), FieldRule("password", 6), FieldRule("email", 0)]
  const LoginRules: seq<FieldRule> := [FieldRule("email", 0), FieldRule("password", 0)]
  const CreateTodoRules: seq<FieldRule> :=
    [FieldRule("title", 0), FieldRule("description", 0), FieldRule("category", 0)]

  /** Middleware `validateRegister`: a username of at least 3 and a password of at least 6
      trimmed characters, and a non-blank email. */
  method ValidateRegister(body: Object<Value>) returns (out: Outcome<()>)
    ensures out.TypeError? <==>
      Untrimmable(body, "username") || Untrimmable(body, "password") || Untrimmable(body, "email")
    ensures out.Next? <==>
      Filled(body, "username", 3) && Filled(body, "password", 6) && Filled(body, "email", 0)
    ensures out.Respond? ==> out.response == Response(400, FieldErrors(FieldErrorsOf(body, RegisterRules)))
  {
    out := ValidationFields(body, RegisterRules);
    ThreeRules(body, RegisterRules);
    assert Check(body, RegisterRules[0]) == Check(body, FieldRule("username", 3));
    assert Check(body, RegisterRules[1]) == Check(body, FieldRule("password", 6));
    assert Check(body, RegisterRules[2]) == Check(body, FieldRule("email", 0));
  }

  /** Middleware `validateLogin`: a non-blank email and a non-blank password. */
  method ValidateLogin(body: Object<Value>) returns (out: Outcome<()>)
    ensures out.TypeError? <==> Untrimmable(body, "email") || Untrimmable(body, "password")
    ensures out.Next? <==> Filled(body, "email", 0) && Filled(body, "password", 0)
    ensures out.Respond? ==> out.response == Response(400, FieldErrors(FieldErrorsOf(body, LoginRules)))
  {
    out := ValidationFields(body, LoginRules);
    assert Check(body, LoginRules[0]) == Check(body, FieldRule("email", 0));
    assert Check(body, LoginRules[1]) == Check(body, FieldRule("password", 0));
  }

  /** Middleware `validateCreateTodo`: a non-blank title, description and category. */
  method ValidateCreateTodo(body: Object<Value>) returns (out: Outcome<()>)
    ensures out.TypeError? <==>
      Untrimmable(body, "title") || Untrimmable(body, "description") || Untrimmable(body, "category")
    ensures out.Next? <==>
      Filled(body, "title", 0) && Filled(body, "description", 0) && Filled(body, "category", 0)
    ensures out.Respond? ==> out.response == Response(400, FieldErrors(FieldErrorsOf(body, CreateTodoRules)))
  {
    out := ValidationFields(body, CreateTodoRules);
    ThreeRules(body, CreateTodoRules);
    assert Check(body, CreateTodoRules[0]) == Check(body, FieldRule("title", 0));
    assert Check(body, CreateTodoRules[1]) == Check(body, FieldRule("description", 0));
    assert Check(body, CreateTodoRules[2]) == Check(body, FieldRule("category", 0));
  }
}
