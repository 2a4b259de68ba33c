/** Laravel's request validation as the controllers use it: a rule list per
    field, evaluated against the request body and the current tables, and
    the "validated data" it hands back. Each controller action's rule array
    is one `RuleSet` below, its fields in the order the source lists them. */
module Rules {
  import opened Values
  import opened Schema

  datatype Rule =
    | Required | Nullable | Str | Int | Boolean | Email
    | Max(n: nat) | Min(n: nat) | Digits(n: nat) | Same(other: string)
    | Unique(table: string, column: string) | Exists(table: string, column: string)

  /** `$request->validate([...])`'s array: field name and its rules. */
  type RuleSet = seq<(string, seq<Rule>)>

  /** The characters PHP's `trim` strips by default: space, tab, newline,
      carriage return, NUL and vertical tab. */
  const TrimmedChars: set<char> := {' ', '\t', '\n', '\r', '\0', '\U{000B}'}

  /** What `required` rejects: null, or a string that trims to nothing. */
  predicate Blank(v: Value)
  {
    v == VNull || (v.VStr? && forall i :: 0 <= i < |v.s| ==> v.s[i] in TrimmedChars)
  }

  /** The size `max`/`min` compare: the number itself for an integer under an
      `integer` rule, otherwise the length of the value's string form. */
  function Size(v: Value, rs: seq<Rule>): int
  {
    if Int in rs && v.VInt? then v.i else |AsString(v)|
  }

  /** One rule on a present value. A rule naming a table that does not exist
      fails (the query throws). */
  predicate Check(r: Rule, v: Value, p: Payload, rs: seq<Rule>, db: Db)
  {
    match r
    case Required => !Blank(v)
    case Nullable => true
    case Str => v.VStr?
    case Int => v.VInt?
    case Boolean => v in {VBool(true), VBool(false), VInt(0), VInt(1), VStr("0"), VStr("1")}
    case Email => v.VStr? && IsEmail(v.s)
    case Max(n) => Size(v, rs) <= n
    case Min(n) => Size(v, rs) >= n
    case Digits(n) => IsDigitString(AsString(v)) && |AsString(v)| == n
    case Same(o) => Col(p, o) == v
    case Unique(t, c) =>
      (match TableNamed(db, t)
       case None => false
       case Some(tab) => !Holds(tab, c, v))
    case Exists(t, c) =>
      (match TableNamed(db, t)
       case None => false
       case Some(tab) => if c == "id" then Refers(v, tab) else Holds(tab, c, v))
  }

  /** Every rule of `rs` holds of `v` (`full` is the field's whole list). */
  predicate AllCheck(rs: seq<Rule>, v: Value, p: Payload, full: seq<Rule>, db: Db)
    decreases |rs|
  {
    |rs| == 0 || (Check(rs[0], v, p, full, db) && AllCheck(rs[1..], v, p, full, db))
  }

  lemma {:induction false} AllCheckEach(rs: seq<Rule>, v: Value, p: Payload, full: seq<Rule>, db: Db)
    ensures AllCheck(rs, v, p, full, db) <==> forall r :: r in rs ==> Check(r, v, p, full, db)
    decreases |rs|
  {
    if |rs| > 0 {
      AllCheckEach(rs[1..], v, p, full, db);
      assert forall r :: r in rs <==> r == rs[0] || r in rs[1..];
    }
  }

  /** One field: an absent field fails only `required`; a null under
      `nullable` skips every other rule; otherwise every rule must pass. */
  predicate Field(p: Payload, k: string, rs: seq<Rule>, db: Db)
  {
    if k !in p then Required !in rs
    else if Nullable in rs && p[k] == VNull then Required !in rs
    else AllCheck(rs, p[k], p, rs, db)
  }

  /** The request passes when every field of the rule set does. */
  predicate Passes(rules: RuleSet, p: Payload, db: Db)
    decreases |rules|
  {
    |rules| == 0 || (Field(p, rules[0].0, rules[0].1, db) && Passes(rules[1..], p, db))
  }

  lemma PassesThree(a: (string, seq<Rule>), b: (string, seq<Rule>), c: (string, seq<Rule>), p: Payload, db: Db)
    ensures Passes([a, b, c], p, db) <==> Field(p, a.0, a.1, db) && Field(p, b.0, b.1, db) && Field(p, c.0, c.1, db)
  {
    assert [a, b, c][1..] == [b, c] && [b, c][1..] == [c] && [c][1..] == [];
    assert Passes([c], p, db) <==> Field(p, c.0, c.1, db);
    assert Passes([b, c], p, db) <==> Field(p, b.0, b.1, db) && Passes([c], p, db);
  }

  lemma PassesFour(a: (string, seq<Rule>), b: (string, seq<Rule>), c: (string, seq<Rule>), d: (string, seq<Rule>),
                   p: Payload, db: Db)
    ensures Passes([a, b, c, d], p, db) <==>
      Field(p, a.0, a.1, db) && Field(p, b.0, b.1, db) && Field(p, c.0, c.1, db) && Field(p, d.0, d.1, db)
  {
    assert [a, b, c, d][1..] == [b, c, d];
    PassesThree(b, c, d, p, db);
  }

  lemma {:induction false} PassesEach(rules: RuleSet, p: Payload, db: Db)
    ensures Passes(rules, p, db) <==> forall i :: 0 <= i < |rules| ==> Field(p, rules[i].0, rules[i].1, db)
    decreases |rules|
  {
    if |rules| > 0 {
      PassesEach(rules[1..], p, db);
      assert forall i :: 1 <= i < |rules| ==> rules[i] == rules[1..][i - 1];
    }
  }

  /** The field names a rule set mentions. */
  function Keys(rules: RuleSet): set<string>
  {
    set f | f in rules :: f.0
  }

  lemma KeysConcat(a: RuleSet, b: RuleSet)
    ensures Keys(a + b) == Keys(a) + Keys(b)
  {
    assert forall f :: f in a + b <==> f in a || f in b;
  }

  /** The array `validate()` returns: the request's values for the fields
      that have rules. */
  function Validated(rules: RuleSet, p: Payload): (d: Payload)
    ensures d.Keys == p.Keys * Keys(rules)
    ensures forall k :: k in d ==> d[k] == p[k]
  {
    map k | k in p && k in Keys(rules) :: p[k]
  }

  // ---- The rule arrays of the controllers ----

  /** CustomerController::store. The phone rule `string:digits:9` is the
      `string` rule with a parameter it ignores. */
  const CustomerStoreRules: RuleSet := [
    ("agency_id", [Required, Int]),
    ("name", [Required, Max(255)]),
    ("dni", [Required, Max(8)]),
    ("phone", [Str, Unique("phones_numbers", "phone")]),
    ("operator_id", [Int, Exists("operators", "id")])]

  const CustomerUpdateRules: RuleSet := [
    ("agency_id", [Int]),
    ("name", [Max(255)]),
    ("dni", [Str, Max(8)]),
    ("operator_id", [Int, Exists("operators", "id")])]

  const PhoneStoreRules: RuleSet := [
    ("phone", [Required, Str, Unique("phones_numbers", "phone"), Max(9)]),
    ("customer_id", [Required, Int]),
    ("operator_id", [Required, Int]),
    ("equip", [Str, Max(255)]),
    ("imei", [Str, Max(15)])]

  /** PhonesNumberController::update. The trailing comma of
      `unique:phones_numbers,phone,` gives an empty ignore-id, which excludes
      no row; the last key is spelled `ime`. */
  const PhoneUpdateRules: RuleSet := [
    ("customer_id", [Int]),
    ("operator_id", [Int]),
    ("phone", [Str, Unique("phones_numbers", "phone")]),
    ("equip", [Str, Max(255)]),
    ("ime", [Str, Max(15)])]

  /** SalesController::store, whose array lists the six foreign keys first. */
  const SaleStoreRules: RuleSet := SaleStoreKeyRules + SaleStoreValueRules

  const SaleStoreKeyRules: RuleSet := [
    ("user_id", [Required, Int, Exists("users", "id")]),
    ("sales_user_id", [Required, Int, Exists("sales_users", "id")]),
    ("customer_id", [Required, Int, Exists("customers", "id")]),
    ("operator_id", [Required, Int, Exists("operators", "id")]),
    ("sales_type_id", [Required, Int, Exists("sales_types", "id")]),
    ("typification_id", [Required, Int, Exists("typifications", "id")])]

  const SaleStoreValueRules: RuleSet := [
    ("origin", [Required, Str]),
    ("sales_order", [Required, Str, Max(9), Unique("sales", "sales_order")]),
    ("phone", [Required, Str, Digits(9)]),
    ("equip", [Nullable, Str]),
    ("imei", [Nullable, Str, Digits(15)]),
    ("notes", [Nullable, Str])]

  /** SalesController::update. Its operator rule names table `operator`,
      which does not exist. */
  const SaleUpdateRules: RuleSet := SaleUpdateKeyRules + SaleUpdateValueRules

  const SaleUpdateKeyRules: RuleSet := [
    ("user_id", [Int, Exists("users", "id")]),
    ("sales_user_id", [Int, Exists("sales_users", "id")]),
    ("customer_id", [Int, Exists("customers", "id")]),
    ("typification_id", [Int, Exists("typifications", "id")]),
    ("operator_id", [Int, Exists("operator", "id")])]

  const SaleUpdateValueRules: RuleSet := [
    ("origin", [Str]),
    ("sales_order", [Str, Digits(9), Unique("sales", "sales_order")]),
    ("phone", [Str, Digits(9)]),
    ("equip", [Str]),
    ("imei", [Str, Digits(15)]),
    ("notes", [Str])]

  const RecordStoreRules: RuleSet := [
    ("user_id", [Required, Exists("users", "id")]),
    ("operator_id", [Required, Exists("operators", "id")]),
    ("customer_id", [Required, Exists("customers", "id")]),
    ("phone", [Required, Str, Digits(9), Unique("customer_records", "phone")]),
    ("schedule_1", [Str, Nullable]),
    ("schedule_2", [Str, Nullable]),
    ("schedule_3", [Str, Nullable])]

  const RecordUpdateRules: RuleSet := [
    ("operator_id", [Int, Exists("operators", "id")]),
    ("customer_id", [Int, Exists("customers", "id")]),
    ("phone", [Str, Digits(9), Unique("customer_records", "phone")]),
    ("schedule_1", [Nullable, Str]),
    ("schedule_2", [Nullable, Str]),
    ("schedule_3", [Nullable, Str]),
    ("status", [Boolean])]

  const AgencyStoreRules: RuleSet := [
    ("name", [Required, Str, Max(100)]),
    ("address", [Required, Str, Max(100)]),
    ("phone", [Nullable, Digits(9)]),
    ("email", [Nullable, Email, Unique("agencies", "email")])]

  const AgencyUpdateRules: RuleSet := [
    ("name", [Str, Max(100)]),
    ("address", [Str, Max(100)]),
    ("phone", [Digits(9)]),
    ("email", [Email, Unique("agencies", "email")])]

  /** OperatorsController::store and ::update use the same array;
      `unique:operators` checks the column named like the field. */
  const OperatorRules: RuleSet := [
    ("name", [Required, Str, Max(10), Unique("operators", "name")])]

  const SalesUserStoreRules: RuleSet := [
    ("agency_id", [Required, Int]),
    ("name", [Required, Str, Unique("sales_users", "name")])]

  /** SalesUserController::update: `unique:sales_users,name,` ignores no row. */
  const SalesUserUpdateRules: RuleSet := [
    ("agency_id", [Int]),
    ("name", [Str, Unique("sales_users", "name")])]

  const SalesTypeStoreRules: RuleSet := [
    ("name", [Required, Str, Max(255)]),
    ("description", [Nullable, Str])]

  const SalesTypeUpdateRules: RuleSet := [
    ("name", [Str, Max(255)]),
    ("description", [Nullable, Str, Max(255)])]

  const TypificationStoreRules: RuleSet := [
    ("name", [Required, Str, Max(100)])]

  const TypificationUpdateRules: RuleSet := [
    ("name", [Nullable, Str, Max(255)])]

  const RegisterRules: RuleSet := [
    ("name", [Required, Max(80)]),
    ("email", [Required, Email, Unique("users", "email")]),
    ("password", [Required, Min(6)]),
    ("c_password", [Required, Same("password")])]

  // ---- What single fields of those arrays demand ----

  lemma AllCheck1(a: Rule, v: Value, p: Payload, full: seq<Rule>, db: Db)
    ensures AllCheck([a], v, p, full, db) <==> Check(a, v, p, full, db)
  {
    AllCheckEach([a], v, p, full, db);
  }

  lemma AllCheck2(a: Rule, b: Rule, v: Value, p: Payload, full: seq<Rule>, db: Db)
    ensures AllCheck([a, b], v, p, full, db) <==> Check(a, v, p, full, db) && Check(b, v, p, full, db)
  {
    AllCheckEach([a, b], v, p, full, db);
  }

  lemma AllCheck3(a: Rule, b: Rule, c: Rule, v: Value, p: Payload, full: seq<Rule>, db: Db)
    ensures AllCheck([a, b, c], v, p, full, db) <==>
      Check(a, v, p, full, db) && Check(b, v, p, full, db) && Check(c, v, p, full, db)
  {
    AllCheckEach([a, b, c], v, p, full, db);
  }

  lemma AllCheck4(a: Rule, b: Rule, c: Rule, d: Rule, v: Value, p: Payload, full: seq<Rule>, db: Db)
    ensures AllCheck([a, b, c, d], v, p, full, db) <==>
      Check(a, v, p, full, db) && Check(b, v, p, full, db) && Check(c, v, p, full, db) && Check(d, v, p, full, db)
  {
    AllCheckEach([a, b, c, d], v, p, full, db);
  }

  /** A digit string is never blank, so `digits` implies `required`'s test. */
  lemma DigitsNotBlank(v: Value, n: nat)
    requires v.VStr? && IsDigitString(v.s) && |v.s| == n && n > 0
    ensures !Blank(v)
  {
    assert IsDigit(v.s[0]);
  }

  /** An address with an '@' is never blank. */
  lemma EmailNotBlank(v: Value)
    requires v.VStr? && IsEmail(v.s)
    ensures !Blank(v)
  {
    var i :| 0 < i < |v.s| - 1 && v.s[i] == '@';
    assert v.s[i] !in {' ', '\t', '\n', '\r'};
  }

  /** `required|integer` */
  lemma RequiredIntField(p: Payload, k: string, db: Db)
    ensures Field(p, k, [Required, Int], db) <==> k in p && p[k].VInt?
  {
    if k in p { AllCheck2(Required, Int, p[k], p, [Required, Int], db); }
  }

  /** `required|max:n` on a non-integer field: a length bound on the string form. */
  lemma RequiredMaxField(p: Payload, k: string, n: nat, db: Db)
    ensures Field(p, k, [Required, Max(n)], db) <==> k in p && !Blank(p[k]) && |AsString(p[k])| <= n
  {
    if k in p { AllCheck2(Required, Max(n), p[k], p, [Required, Max(n)], db); }
  }

  /** `string|unique:t,c` */
  lemma StrUniqueField(p: Payload, k: string, t: string, c: string, db: Db)
    requires TableNamed(db, t).Some?
    ensures Field(p, k, [Str, Unique(t, c)], db) <==>
      (k in p ==> p[k].VStr? && !Holds(TableNamed(db, t).value, c, p[k]))
  {
    if k in p { AllCheck2(Str, Unique(t, c), p[k], p, [Str, Unique(t, c)], db); }
  }

  /** `integer|exists:t,id` */
  lemma IntExistsField(p: Payload, k: string, t: string, db: Db)
    requires TableNamed(db, t).Some?
    ensures Field(p, k, [Int, Exists(t, "id")], db) <==> (k in p ==> Refers(p[k], TableNamed(db, t).value))
  {
    if k in p { AllCheck2(Int, Exists(t, "id"), p[k], p, [Int, Exists(t, "id")], db); }
  }

  /** `required|string|unique:t,c|max:n` */
  lemma RequiredStrUniqueMaxField(p: Payload, k: string, t: string, c: string, n: nat, db: Db)
    requires TableNamed(db, t).Some?
    ensures Field(p, k, [Required, Str, Unique(t, c), Max(n)], db) <==>
      k in p && p[k].VStr? && !Blank(p[k]) && |p[k].s| <= n && !Holds(TableNamed(db, t).value, c, p[k])
  {
    if k in p {
      AllCheck4(Required, Str, Unique(t, c), Max(n), p[k], p, [Required, Str, Unique(t, c), Max(n)], db);
    }
  }

  /** `string|max:n` */
  lemma StrMaxField(p: Payload, k: string, n: nat, db: Db)
    ensures Field(p, k, [Str, Max(n)], db) <==> (k in p ==> StrUpTo(p[k], n))
  {
    if k in p { AllCheck2(Str, Max(n), p[k], p, [Str, Max(n)], db); }
  }

  /** `required|integer|exists:t,id` */
  lemma RequiredIntExistsField(p: Payload, k: string, t: string, db: Db)
    requires TableNamed(db, t).Some?
    ensures Field(p, k, [Required, Int, Exists(t, "id")], db) <==> k in p && Refers(p[k], TableNamed(db, t).value)
  {
    if k in p { AllCheck3(Required, Int, Exists(t, "id"), p[k], p, [Required, Int, Exists(t, "id")], db); }
  }

  /** `required|string` */
  lemma RequiredStrField(p: Payload, k: string, db: Db)
    ensures Field(p, k, [Required, Str], db) <==> k in p && p[k].VStr? && !Blank(p[k])
  {
    if k in p { AllCheck2(Required, Str, p[k], p, [Required, Str], db); }
  }

  /** `required|string|max:n|unique:t,c` */
  lemma RequiredStrMaxUniqueField(p: Payload, k: string, n: nat, t: string, c: string, db: Db)
    requires TableNamed(db, t).Some?
    ensures Field(p, k, [Required, Str, Max(n), Unique(t, c)], db) <==>
      k in p && p[k].VStr? && !Blank(p[k]) && |p[k].s| <= n && !Holds(TableNamed(db, t).value, c, p[k])
  {
    if k in p {
      AllCheck4(Required, Str, Max(n), Unique(t, c), p[k], p, [Required, Str, Max(n), Unique(t, c)], db);
    }
  }

  /** `required|string|digits:n` */
  lemma RequiredStrDigitsField(p: Payload, k: string, n: nat, db: Db)
    requires n > 0
    ensures Field(p, k, [Required, Str, Digits(n)], db) <==>
      k in p && p[k].VStr? && IsDigitString(p[k].s) && |p[k].s| == n
  {
    if k in p {
      AllCheck3(Required, Str, Digits(n), p[k], p, [Required, Str, Digits(n)], db);
      if p[k].VStr? && IsDigitString(p[k].s) && |p[k].s| == n { DigitsNotBlank(p[k], n); }
    }
  }

  /** `nullable|string` */
  lemma NullableStrField(p: Payload, k: string, db: Db)
    ensures Field(p, k, [Nullable, Str], db) <==> (k in p ==> p[k] == VNull || p[k].VStr?)
  {
    if k in p { AllCheck2(Nullable, Str, p[k], p, [Nullable, Str], db); }
  }

  /** `string|nullable`: the order of the rules does not matter. */
  lemma StrNullableField(p: Payload, k: string, db: Db)
    ensures Field(p, k, [Str, Nullable], db) <==> (k in p ==> p[k] == VNull || p[k].VStr?)
  {
    if k in p { AllCheck2(Str, Nullable, p[k], p, [Str, Nullable], db); }
  }

  /** `nullable|string|digits:n` */
  lemma NullableStrDigitsField(p: Payload, k: string, n: nat, db: Db)
    ensures Field(p, k, [Nullable, Str, Digits(n)], db) <==>
      (k in p ==> p[k] == VNull || (p[k].VStr? && IsDigitString(p[k].s) && |p[k].s| == n))
  {
    if k in p { AllCheck3(Nullable, Str, Digits(n), p[k], p, [Nullable, Str, Digits(n)], db); }
  }

  /** `required|exists:t,id` */
  lemma RequiredExistsField(p: Payload, k: string, t: string, db: Db)
    requires TableNamed(db, t).Some?
    ensures Field(p, k, [Required, Exists(t, "id")], db) <==> k in p && Refers(p[k], TableNamed(db, t).value)
  {
    if k in p { AllCheck2(Required, Exists(t, "id"), p[k], p, [Required, Exists(t, "id")], db); }
  }

  /** `required|string|digits:n|unique:t,c` */
  lemma RequiredStrDigitsUniqueField(p: Payload, k: string, n: nat, t: string, c: string, db: Db)
    requires n > 0 && TableNamed(db, t).Some?
    ensures Field(p, k, [Required, Str, Digits(n), Unique(t, c)], db) <==>
      k in p && p[k].VStr? && IsDigitString(p[k].s) && |p[k].s| == n && !Holds(TableNamed(db, t).value, c, p[k])
  {
    if k in p {
      AllCheck4(Required, Str, Digits(n), Unique(t, c), p[k], p, [Required, Str, Digits(n), Unique(t, c)], db);
      if p[k].VStr? && IsDigitString(p[k].s) && |p[k].s| == n { DigitsNotBlank(p[k], n); }
    }
  }

  /** `string|digits:n|unique:t,c` */
  lemma StrDigitsUniqueField(p: Payload, k: string, n: nat, t: string, c: string, db: Db)
    requires TableNamed(db, t).Some?
    ensures Field(p, k, [Str, Digits(n), Unique(t, c)], db) <==>
      (k in p ==> p[k].VStr? && IsDigitString(p[k].s) && |p[k].s| == n && !Holds(TableNamed(db, t).value, c, p[k]))
  {
    if k in p { AllCheck3(Str, Digits(n), Unique(t, c), p[k], p, [Str, Digits(n), Unique(t, c)], db); }
  }

  /** `string` */
  lemma StrField(p: Payload, k: string, db: Db)
    ensures Field(p, k, [Str], db) <==> (k in p ==> p[k].VStr?)
  {
    if k in p { AllCheck1(Str, p[k], p, [Str], db); }
  }

  /** `string|digits:n` */
  lemma StrDigitsField(p: Payload, k: string, n: nat, db: Db)
    ensures Field(p, k, [Str, Digits(n)], db) <==> (k in p ==> p[k].VStr? && IsDigitString(p[k].s) && |p[k].s| == n)
  {
    if k in p { AllCheck2(Str, Digits(n), p[k], p, [Str, Digits(n)], db); }
  }

  /** `integer|exists:t,id` naming a table that does not exist fails for
      every value, so the field passes only when it is absent. */
  lemma IntExistsMissingTableField(p: Payload, k: string, t: string, db: Db)
    requires TableNamed(db, t).None?
    ensures Field(p, k, [Int, Exists(t, "id")], db) <==> k !in p
  {
    if k in p { AllCheck2(Int, Exists(t, "id"), p[k], p, [Int, Exists(t, "id")], db); }
  }

  /** `boolean`: true, false, 0, 1, "0" and "1". */
  lemma BooleanField(p: Payload, k: string, db: Db)
    ensures Field(p, k, [Boolean], db) <==>
      (k in p ==> p[k] in {VBool(true), VBool(false), VInt(0), VInt(1), VStr("0"), VStr("1")})
  {
    if k in p { AllCheck1(Boolean, p[k], p, [Boolean], db); }
  }

  /** `required|string|max:n` */
  lemma RequiredStrMaxField(p: Payload, k: string, n: nat, db: Db)
    ensures Field(p, k, [Required, Str, Max(n)], db) <==> k in p && p[k].VStr? && !Blank(p[k]) && |p[k].s| <= n
  {
    if k in p { AllCheck3(Required, Str, Max(n), p[k], p, [Required, Str, Max(n)], db); }
  }

  /** `nullable|digits:n` */
  lemma NullableDigitsField(p: Payload, k: string, n: nat, db: Db)
    ensures Field(p, k, [Nullable, Digits(n)], db) <==>
      (k in p && p[k] != VNull ==> IsDigitString(AsString(p[k])) && |AsString(p[k])| == n)
  {
    if k in p { AllCheck2(Nullable, Digits(n), p[k], p, [Nullable, Digits(n)], db); }
  }

  /** `nullable|email|unique:t,c` */
  lemma NullableEmailUniqueField(p: Payload, k: string, t: string, c: string, db: Db)
    requires TableNamed(db, t).Some?
    ensures Field(p, k, [Nullable, Email, Unique(t, c)], db) <==>
      (k in p && p[k] != VNull ==> p[k].VStr? && IsEmail(p[k].s) && !Holds(TableNamed(db, t).value, c, p[k]))
  {
    if k in p { AllCheck3(Nullable, Email, Unique(t, c), p[k], p, [Nullable, Email, Unique(t, c)], db); }
  }

  /** `required|email|unique:t,c` */
  lemma RequiredEmailUniqueField(p: Payload, k: string, t: string, c: string, db: Db)
    requires TableNamed(db, t).Some?
    ensures Field(p, k, [Required, Email, Unique(t, c)], db) <==>
      k in p && p[k].VStr? && IsEmail(p[k].s) && !Holds(TableNamed(db, t).value, c, p[k])
  {
    if k in p {
      AllCheck3(Required, Email, Unique(t, c), p[k], p, [Required, Email, Unique(t, c)], db);
      if p[k].VStr? && IsEmail(p[k].s) { EmailNotBlank(p[k]); }
    }
  }

  /** `required|min:n` on a non-integer field. */
  lemma RequiredMinField(p: Payload, k: string, n: nat, db: Db)
    ensures Field(p, k, [Required, Min(n)], db) <==> k in p && !Blank(p[k]) && |AsString(p[k])| >= n
  {
    if k in p { AllCheck2(Required, Min(n), p[k], p, [Required, Min(n)], db); }
  }

  /** `required|same:o` */
  lemma RequiredSameField(p: Payload, k: string, o: string, db: Db)
    ensures Field(p, k, [Required, Same(o)], db) <==> k in p && !Blank(p[k]) && Col(p, o) == p[k]
  {
    if k in p { AllCheck2(Required, Same(o), p[k], p, [Required, Same(o)], db); }
  }

  /** `required|string|unique:t,c` */
  lemma RequiredStrUniqueField(p: Payload, k: string, t: string, c: string, db: Db)
    requires TableNamed(db, t).Some?
    ensures Field(p, k, [Required, Str, Unique(t, c)], db) <==>
      k in p && p[k].VStr? && !Blank(p[k]) && !Holds(TableNamed(db, t).value, c, p[k])
  {
    if k in p { AllCheck3(Required, Str, Unique(t, c), p[k], p, [Required, Str, Unique(t, c)], db); }
  }

  /** `digits:n` */
  lemma DigitsField(p: Payload, k: string, n: nat, db: Db)
    ensures Field(p, k, [Digits(n)], db) <==> (k in p ==> IsDigitString(AsString(p[k])) && |AsString(p[k])| == n)
  {
    if k in p { AllCheck1(Digits(n), p[k], p, [Digits(n)], db); }
  }

  /** `email|unique:t,c` */
  lemma EmailUniqueField(p: Payload, k: string, t: string, c: string, db: Db)
    requires TableNamed(db, t).Some?
    ensures Field(p, k, [Email, Unique(t, c)], db) <==>
      (k in p ==> p[k].VStr? && IsEmail(p[k].s) && !Holds(TableNamed(db, t).value, c, p[k]))
  {
    if k in p { AllCheck2(Email, Unique(t, c), p[k], p, [Email, Unique(t, c)], db); }
  }

  /** `integer` */
  lemma IntField(p: Payload, k: string, db: Db)
    ensures Field(p, k, [Int], db) <==> (k in p ==> p[k].VInt?)
  {
    if k in p { AllCheck1(Int, p[k], p, [Int], db); }
  }

  /** `max:n` alone, on a non-integer field. */
  lemma MaxField(p: Payload, k: string, n: nat, db: Db)
    ensures Field(p, k, [Max(n)], db) <==> (k in p ==> |AsString(p[k])| <= n)
  {
    if k in p { AllCheck1(Max(n), p[k], p, [Max(n)], db); }
  }

  /** `nullable|string|max:n` */
  lemma NullableStrMaxField(p: Payload, k: string, n: nat, db: Db)
    ensures Field(p, k, [Nullable, Str, Max(n)], db) <==> (k in p ==> p[k] == VNull || StrUpTo(p[k], n))
  {
    if k in p { AllCheck3(Nullable, Str, Max(n), p[k], p, [Nullable, Str, Max(n)], db); }
  }

  // ---- What the rule arrays mean ----

  /** A present value under a unique rule that some row already holds fails
      the whole rule set: no rule excludes the row being updated. */
  lemma UniqueRejectsHeldValue(rules: RuleSet, i: nat, p: Payload, db: Db, tname: string, c: string, j: Id)
    requires i < |rules| && Unique(tname, c) in rules[i].1 && rules[i].0 in p
    requires Nullable !in rules[i].1 || p[rules[i].0] != VNull
    requires TableNamed(db, tname).Some? && j in TableNamed(db, tname).value
    requires Col(TableNamed(db, tname).value[j], c) == p[rules[i].0]
    ensures !Passes(rules, p, db)
  {
    var (k, rs) := rules[i];
    PassesEach(rules, p, db);
    AllCheckEach(rs, p[k], p, rs, db);
    assert !Check(Unique(tname, c), p[k], p, rs, db);
  }

  /** CustomerController::store accepts exactly these bodies. */
  lemma CustomerStoreAccepts(p: Payload, db: Db)
    ensures Passes(CustomerStoreRules, p, db) <==>
      && "agency_id" in p && p["agency_id"].VInt?
      && "name" in p && !Blank(p["name"]) && |AsString(p["name"])| <= 255
      && "dni" in p && !Blank(p["dni"]) && |AsString(p["dni"])| <= 8
      && ("phone" in p ==> p["phone"].VStr? && !Holds(db.phones, "phone", p["phone"]))
      && ("operator_id" in p ==> Refers(p["operator_id"], db.operators))
  {
    PassesEach(CustomerStoreRules, p, db);
    RequiredIntField(p, "agency_id", db);
    RequiredMaxField(p, "name", 255, db);
    RequiredMaxField(p, "dni", 8, db);
    StrUniqueField(p, "phone", "phones_numbers", "phone", db);
    IntExistsField(p, "operator_id", "operators", db);
  }

  /** CustomerController::update accepts exactly these bodies: every field
      is optional; a present operator_id must name an operator although the
      update never writes it. */
  lemma CustomerUpdateAccepts(p: Payload, db: Db)
    ensures Passes(CustomerUpdateRules, p, db) <==>
      && ("agency_id" in p ==> p["agency_id"].VInt?)
      && ("name" in p ==> |AsString(p["name"])| <= 255)
      && ("dni" in p ==> StrUpTo(p["dni"], 8))
      && ("operator_id" in p ==> Refers(p["operator_id"], db.operators))
  {
    PassesEach(CustomerUpdateRules, p, db);
    IntField(p, "agency_id", db);
    MaxField(p, "name", 255, db);
    StrMaxField(p, "dni", 8, db);
    IntExistsField(p, "operator_id", "operators", db);
  }

  /** The customer phone rule never looks at digits or length: an eleven
      letter phone passes when no phone row holds it. */
  lemma CustomerPhoneDigitsNotChecked(db: Db)
    requires db.phones == map[] && 1 in db.agencies
    ensures Passes(CustomerStoreRules,
                   map["agency_id" := VInt(1), "name" := VStr("Ana"), "dni" := VStr("1234"),
                       "phone" := VStr("not-a-phone")], db)
  {
    var p := map["agency_id" := VInt(1), "name" := VStr("Ana"), "dni" := VStr("1234"),
                 "phone" := VStr("not-a-phone")];
    CustomerStoreAccepts(p, db);
    assert !Blank(p["name"]) by { assert p["name"].s[0] == 'A'; }
    assert !Blank(p["dni"]) by { assert p["dni"].s[0] == '1'; }
  }

  /** PhonesNumberController::store accepts exactly these bodies; customer and
      operator existence is not among the conditions. */
  lemma PhoneStoreAccepts(p: Payload, db: Db)
    ensures Passes(PhoneStoreRules, p, db) <==>
      && "phone" in p && p["phone"].VStr? && !Blank(p["phone"]) && |p["phone"].s| <= 9
      && !Holds(db.phones, "phone", p["phone"])
      && "customer_id" in p && p["customer_id"].VInt?
      && "operator_id" in p && p["operator_id"].VInt?
      && ("equip" in p ==> StrUpTo(p["equip"], 255))
      && ("imei" in p ==> StrUpTo(p["imei"], 15))
  {
    PassesEach(PhoneStoreRules, p, db);
    RequiredStrUniqueMaxField(p, "phone", "phones_numbers", "phone", 9, db);
    RequiredIntField(p, "customer_id", db);
    RequiredIntField(p, "operator_id", db);
    StrMaxField(p, "equip", 255, db);
    StrMaxField(p, "imei", 15, db);
  }

  /** PhonesNumberController::update accepts exactly these bodies. */
  lemma PhoneUpdateAccepts(p: Payload, db: Db)
    ensures Passes(PhoneUpdateRules, p, db) <==>
      && ("customer_id" in p ==> p["customer_id"].VInt?)
      && ("operator_id" in p ==> p["operator_id"].VInt?)
      && ("phone" in p ==> p["phone"].VStr? && !Holds(db.phones, "phone", p["phone"]))
      && ("equip" in p ==> StrUpTo(p["equip"], 255))
      && ("ime" in p ==> StrUpTo(p["ime"], 15))
  {
    PassesEach(PhoneUpdateRules, p, db);
    IntField(p, "customer_id", db);
    IntField(p, "operator_id", db);
    StrUniqueField(p, "phone", "phones_numbers", "phone", db);
    StrMaxField(p, "equip", 255, db);
    StrMaxField(p, "ime", 15, db);
  }

  /** Two rule arrays written one after the other pass when each does. */
  lemma {:induction false} PassesConcat(a: RuleSet, b: RuleSet, p: Payload, db: Db)
    ensures Passes(a + b, p, db) <==> Passes(a, p, db) && Passes(b, p, db)
    decreases |a|
  {
    if |a| > 0 {
      assert (a + b)[0] == a[0];
      assert (a + b)[1..] == a[1..] + b;
      PassesConcat(a[1..], b, p, db);
    } else {
      assert a + b == b;
    }
  }

  /** The foreign keys of a sale must name existing rows. */
  lemma SaleStoreKeysAccepted(p: Payload, db: Db)
    ensures Passes(SaleStoreKeyRules, p, db) <==>
      && "user_id" in p && Refers(p["user_id"], db.users)
      && "sales_user_id" in p && Refers(p["sales_user_id"], db.salesUsers)
      && "customer_id" in p && Refers(p["customer_id"], db.customers)
      && "operator_id" in p && Refers(p["operator_id"], db.operators)
      && "sales_type_id" in p && Refers(p["sales_type_id"], db.salesTypes)
      && "typification_id" in p && Refers(p["typification_id"], db.typifications)
  {
    PassesEach(SaleStoreKeyRules, p, db);
    RequiredIntExistsField(p, "user_id", "users", db);
    RequiredIntExistsField(p, "sales_user_id", "sales_users", db);
    RequiredIntExistsField(p, "customer_id", "customers", db);
    RequiredIntExistsField(p, "operator_id", "operators", db);
    RequiredIntExistsField(p, "sales_type_id", "sales_types", db);
    RequiredIntExistsField(p, "typification_id", "typifications", db);
  }

  /** The other fields of a sale; imei uniqueness is not among them. */
  lemma SaleStoreValuesAccepted(p: Payload, db: Db)
    ensures Passes(SaleStoreValueRules, p, db) <==>
      && "origin" in p && p["origin"].VStr? && !Blank(p["origin"])
      && "sales_order" in p && p["sales_order"].VStr? && !Blank(p["sales_order"])
      && |p["sales_order"].s| <= 9 && !Holds(db.sales, "sales_order", p["sales_order"])
      && "phone" in p && p["phone"].VStr? && IsDigitString(p["phone"].s) && |p["phone"].s| == 9
      && ("equip" in p ==> p["equip"] == VNull || p["equip"].VStr?)
      && ("imei" in p ==> p["imei"] == VNull || (p["imei"].VStr? && IsDigitString(p["imei"].s) && |p["imei"].s| == 15))
      && ("notes" in p ==> p["notes"] == VNull || p["notes"].VStr?)
  {
    PassesEach(SaleStoreValueRules, p, db);
    RequiredStrField(p, "origin", db);
    RequiredStrMaxUniqueField(p, "sales_order", 9, "sales", "sales_order", db);
    RequiredStrDigitsField(p, "phone", 9, db);
    NullableStrField(p, "equip", db);
    NullableStrDigitsField(p, "imei", 15, db);
    NullableStrField(p, "notes", db);
  }

  /** SalesController::store accepts exactly the bodies both halves accept. */
  lemma SaleStoreAccepts(p: Payload, db: Db)
    ensures Passes(SaleStoreRules, p, db) <==>
      Passes(SaleStoreKeyRules, p, db) && Passes(SaleStoreValueRules, p, db)
  {
    PassesConcat(SaleStoreKeyRules, SaleStoreValueRules, p, db);
  }

  /** The foreign keys of a sale update must name existing rows; the
      operator's rule names table `operator`, which does not exist, so a
      body passes only without operator_id. */
  lemma SaleUpdateKeysAccepted(p: Payload, db: Db)
    ensures Passes(SaleUpdateKeyRules, p, db) <==>
      && ("user_id" in p ==> Refers(p["user_id"], db.users))
      && ("sales_user_id" in p ==> Refers(p["sales_user_id"], db.salesUsers))
      && ("customer_id" in p ==> Refers(p["customer_id"], db.customers))
      && ("typification_id" in p ==> Refers(p["typification_id"], db.typifications))
      && "operator_id" !in p
  {
    PassesEach(SaleUpdateKeyRules, p, db);
    IntExistsField(p, "user_id", "users", db);
    IntExistsField(p, "sales_user_id", "sales_users", db);
    IntExistsField(p, "customer_id", "customers", db);
    IntExistsField(p, "typification_id", "typifications", db);
    IntExistsMissingTableField(p, "operator_id", "operator", db);
  }

  /** The other fields of a sale update: a new sales_order has 9 digits and
      must not be held by any sale, the one updated included. */
  lemma SaleUpdateValuesAccepted(p: Payload, db: Db)
    ensures Passes(SaleUpdateValueRules, p, db) <==>
      && ("origin" in p ==> p["origin"].VStr?)
      && ("sales_order" in p ==> p["sales_order"].VStr? && IsDigitString(p["sales_order"].s)
                                 && |p["sales_order"].s| == 9 && !Holds(db.sales, "sales_order", p["sales_order"]))
      && ("phone" in p ==> p["phone"].VStr? && IsDigitString(p["phone"].s) && |p["phone"].s| == 9)
      && ("equip" in p ==> p["equip"].VStr?)
      && ("imei" in p ==> p["imei"].VStr? && IsDigitString(p["imei"].s) && |p["imei"].s| == 15)
      && ("notes" in p ==> p["notes"].VStr?)
  {
    PassesEach(SaleUpdateValueRules, p, db);
    StrField(p, "origin", db);
    StrDigitsUniqueField(p, "sales_order", 9, "sales", "sales_order", db);
    StrDigitsField(p, "phone", 9, db);
    StrField(p, "equip", db);
    StrDigitsField(p, "imei", 15, db);
    StrField(p, "notes", db);
  }

  /** SalesController::update accepts exactly the bodies both halves accept. */
  lemma SaleUpdateAccepts(p: Payload, db: Db)
    ensures Passes(SaleUpdateRules, p, db) <==>
      Passes(SaleUpdateKeyRules, p, db) && Passes(SaleUpdateValueRules, p, db)
  {
    PassesConcat(SaleUpdateKeyRules, SaleUpdateValueRules, p, db);
  }

  /** SalesController::update with any operator_id fails: the rule queries a
      table that does not exist. */
  lemma SaleUpdateOperatorAlwaysFails(p: Payload, db: Db)
    requires "operator_id" in p
    ensures !Passes(SaleUpdateRules, p, db)
  {
    SaleUpdateAccepts(p, db);
    SaleUpdateKeysAccepted(p, db);
  }

  /** CustomerRecordController::store accepts exactly these bodies. */
  lemma RecordStoreAccepts(p: Payload, db: Db)
    ensures Passes(RecordStoreRules, p, db) <==>
      && "user_id" in p && Refers(p["user_id"], db.users)
      && "operator_id" in p && Refers(p["operator_id"], db.operators)
      && "customer_id" in p && Refers(p["customer_id"], db.customers)
      && "phone" in p && p["phone"].VStr? && IsDigitString(p["phone"].s) && |p["phone"].s| == 9
      && !Holds(db.records, "phone", p["phone"])
      && ("schedule_1" in p ==> p["schedule_1"] == VNull || p["schedule_1"].VStr?)
      && ("schedule_2" in p ==> p["schedule_2"] == VNull || p["schedule_2"].VStr?)
      && ("schedule_3" in p ==> p["schedule_3"] == VNull || p["schedule_3"].VStr?)
  {
    PassesEach(RecordStoreRules, p, db);
    RequiredExistsField(p, "user_id", "users", db);
    RequiredExistsField(p, "operator_id", "operators", db);
    RequiredExistsField(p, "customer_id", "customers", db);
    RequiredStrDigitsUniqueField(p, "phone", 9, "customer_records", "phone", db);
    StrNullableField(p, "schedule_1", db);
    StrNullableField(p, "schedule_2", db);
    StrNullableField(p, "schedule_3", db);
  }

  /** CustomerRecordController::update accepts exactly these bodies: every
      field is optional. */
  lemma RecordUpdateAccepts(p: Payload, db: Db)
    ensures Passes(RecordUpdateRules, p, db) <==>
      && ("operator_id" in p ==> Refers(p["operator_id"], db.operators))
      && ("customer_id" in p ==> Refers(p["customer_id"], db.customers))
      && ("phone" in p ==> p["phone"].VStr? && IsDigitString(p["phone"].s) && |p["phone"].s| == 9
                           && !Holds(db.records, "phone", p["phone"]))
      && ("schedule_1" in p ==> p["schedule_1"] == VNull || p["schedule_1"].VStr?)
      && ("schedule_2" in p ==> p["schedule_2"] == VNull || p["schedule_2"].VStr?)
      && ("schedule_3" in p ==> p["schedule_3"] == VNull || p["schedule_3"].VStr?)
      && ("status" in p ==> p["status"] in {VBool(true), VBool(false), VInt(0), VInt(1), VStr("0"), VStr("1")})
  {
    var rules := RecordUpdateRules;
    PassesConcat(rules[..3], rules[3..], p, db);
    assert rules == rules[..3] + rules[3..];
    RecordUpdateHead(p, db);
    RecordUpdateTail(p, db);
  }

  /** The key and phone fields of CustomerRecordController::update. */
  lemma RecordUpdateHead(p: Payload, db: Db)
    ensures Passes(RecordUpdateRules[..3], p, db) <==>
      && ("operator_id" in p ==> Refers(p["operator_id"], db.operators))
      && ("customer_id" in p ==> Refers(p["customer_id"], db.customers))
      && ("phone" in p ==> p["phone"].VStr? && IsDigitString(p["phone"].s) && |p["phone"].s| == 9
                           && !Holds(db.records, "phone", p["phone"]))
  {
    assert RecordUpdateRules[..3] ==
      [("operator_id", [Int, Exists("operators", "id")]), ("customer_id", [Int, Exists("customers", "id")]),
       ("phone", [Str, Digits(9), Unique("customer_records", "phone")])];
    PassesThree(("operator_id", [Int, Exists("operators", "id")]), ("customer_id", [Int, Exists("customers", "id")]),
                ("phone", [Str, Digits(9), Unique("customer_records", "phone")]), p, db);
    IntExistsField(p, "operator_id", "operators", db);
    IntExistsField(p, "customer_id", "customers", db);
    StrDigitsUniqueField(p, "phone", 9, "customer_records", "phone", db);
  }

  /** The schedule and status fields of CustomerRecordController::update. */
  lemma RecordUpdateTail(p: Payload, db: Db)
    ensures Passes(RecordUpdateRules[3..], p, db) <==>
      && ("schedule_1" in p ==> p["schedule_1"] == VNull || p["schedule_1"].VStr?)
      && ("schedule_2" in p ==> p["schedule_2"] == VNull || p["schedule_2"].VStr?)
      && ("schedule_3" in p ==> p["schedule_3"] == VNull || p["schedule_3"].VStr?)
      && ("status" in p ==> p["status"] in {VBool(true), VBool(false), VInt(0), VInt(1), VStr("0"), VStr("1")})
  {
    assert RecordUpdateRules[3..] ==
      [("schedule_1", [Nullable, Str]), ("schedule_2", [Nullable, Str]), ("schedule_3", [Nullable, Str]), ("status", [Boolean])];
    PassesFour(("schedule_1", [Nullable, Str]), ("schedule_2", [Nullable, Str]), ("schedule_3", [Nullable, Str]),
               ("status", [Boolean]), p, db);
    NullableStrField(p, "schedule_1", db);
    NullableStrField(p, "schedule_2", db);
    NullableStrField(p, "schedule_3", db);
    BooleanField(p, "status", db);
  }

  /** AgencyController::store accepts exactly these bodies. */
  lemma AgencyStoreAccepts(p: Payload, db: Db)
    ensures Passes(AgencyStoreRules, p, db) <==>
      && "name" in p && p["name"].VStr? && !Blank(p["name"]) && |p["name"].s| <= 100
      && "address" in p && p["address"].VStr? && !Blank(p["address"]) && |p["address"].s| <= 100
      && ("phone" in p && p["phone"] != VNull ==> IsDigitString(AsString(p["phone"])) && |AsString(p["phone"])| == 9)
      && ("email" in p && p["email"] != VNull ==>
            p["email"].VStr? && IsEmail(p["email"].s) && !Holds(db.agencies, "email", p["email"]))
  {
    PassesEach(AgencyStoreRules, p, db);
    RequiredStrMaxField(p, "name", 100, db);
    RequiredStrMaxField(p, "address", 100, db);
    NullableDigitsField(p, "phone", 9, db);
    NullableEmailUniqueField(p, "email", "agencies", "email", db);
  }

  /** AgencyController::update accepts exactly these bodies: every field is
      optional, but a present one is checked, null included. */
  lemma AgencyUpdateAccepts(p: Payload, db: Db)
    ensures Passes(AgencyUpdateRules, p, db) <==>
      && ("name" in p ==> StrUpTo(p["name"], 100))
      && ("address" in p ==> StrUpTo(p["address"], 100))
      && ("phone" in p ==> IsDigitString(AsString(p["phone"])) && |AsString(p["phone"])| == 9)
      && ("email" in p ==> p["email"].VStr? && IsEmail(p["email"].s) && !Holds(db.agencies, "email", p["email"]))
  {
    PassesEach(AgencyUpdateRules, p, db);
    StrMaxField(p, "name", 100, db);
    StrMaxField(p, "address", 100, db);
    DigitsField(p, "phone", 9, db);
    EmailUniqueField(p, "email", "agencies", "email", db);
  }

  /** OperatorsController::store and ::update accept exactly these bodies. */
  lemma OperatorAccepts(p: Payload, db: Db)
    ensures Passes(OperatorRules, p, db) <==>
      "name" in p && p["name"].VStr? && !Blank(p["name"]) && |p["name"].s| <= 10
      && !Holds(db.operators, "name", p["name"])
  {
    PassesEach(OperatorRules, p, db);
    RequiredStrMaxUniqueField(p, "name", 10, "operators", "name", db);
  }

  /** SalesUserController::store accepts exactly these bodies; the agency's
      existence is not among the conditions. */
  lemma SalesUserStoreAccepts(p: Payload, db: Db)
    ensures Passes(SalesUserStoreRules, p, db) <==>
      "agency_id" in p && p["agency_id"].VInt?
      && "name" in p && p["name"].VStr? && !Blank(p["name"]) && !Holds(db.salesUsers, "name", p["name"])
  {
    PassesEach(SalesUserStoreRules, p, db);
    RequiredIntField(p, "agency_id", db);
    RequiredStrUniqueField(p, "name", "sales_users", "name", db);
  }

  /** SalesTypeController::store accepts exactly these bodies. */
  lemma SalesTypeStoreAccepts(p: Payload, db: Db)
    ensures Passes(SalesTypeStoreRules, p, db) <==>
      "name" in p && p["name"].VStr? && !Blank(p["name"]) && |p["name"].s| <= 255
      && ("description" in p ==> p["description"] == VNull || p["description"].VStr?)
  {
    PassesEach(SalesTypeStoreRules, p, db);
    RequiredStrMaxField(p, "name", 255, db);
    NullableStrField(p, "description", db);
  }

  /** SalesTypeController::update accepts exactly these bodies. */
  lemma SalesTypeUpdateAccepts(p: Payload, db: Db)
    ensures Passes(SalesTypeUpdateRules, p, db) <==>
      && ("name" in p ==> StrUpTo(p["name"], 255))
      && ("description" in p ==> p["description"] == VNull || StrUpTo(p["description"], 255))
  {
    PassesEach(SalesTypeUpdateRules, p, db);
    StrMaxField(p, "name", 255, db);
    NullableStrMaxField(p, "description", 255, db);
  }

  /** SalesUserController::update accepts exactly these bodies. */
  lemma SalesUserUpdateAccepts(p: Payload, db: Db)
    ensures Passes(SalesUserUpdateRules, p, db) <==>
      && ("agency_id" in p ==> p["agency_id"].VInt?)
      && ("name" in p ==> p["name"].VStr? && !Holds(db.salesUsers, "name", p["name"]))
  {
    PassesEach(SalesUserUpdateRules, p, db);
    IntField(p, "agency_id", db);
    StrUniqueField(p, "name", "sales_users", "name", db);
  }

  /** TypificationController::store accepts exactly these bodies. */
  lemma TypificationStoreAccepts(p: Payload, db: Db)
    ensures Passes(TypificationStoreRules, p, db) <==>
      "name" in p && p["name"].VStr? && !Blank(p["name"]) && |p["name"].s| <= 100
  {
    PassesEach(TypificationStoreRules, p, db);
    RequiredStrMaxField(p, "name", 100, db);
  }

  /** TypificationController::update: an absent or null name passes, any
      other name must be a string of at most 255 characters. */
  lemma TypificationUpdateAccepts(p: Payload, db: Db)
    ensures Passes(TypificationUpdateRules, p, db) <==>
      ("name" in p ==> p["name"] == VNull || StrUpTo(p["name"], 255))
  {
    PassesEach(TypificationUpdateRules, p, db);
    if "name" in p {
      AllCheck3(Nullable, Str, Max(255), p["name"], p, [Nullable, Str, Max(255)], db);
    }
  }

  /** RegisterController::register accepts exactly these bodies. */
  lemma RegisterAccepts(p: Payload, db: Db)
    ensures Passes(RegisterRules, p, db) <==>
      && "name" in p && !Blank(p["name"]) && |AsString(p["name"])| <= 80
      && "email" in p && p["email"].VStr? && IsEmail(p["email"].s) && !Holds(db.users, "email", p["email"])
      && "password" in p && !Blank(p["password"]) && |AsString(p["password"])| >= 6
      && "c_password" in p && p["c_password"] == p["password"]
  {
    PassesEach(RegisterRules, p, db);
    RequiredMaxField(p, "name", 80, db);
    RequiredEmailUniqueField(p, "email", "users", "email", db);
    RequiredMinField(p, "password", 6, db);
    RequiredSameField(p, "c_password", "password", db);
  }

  // ---- Unique rules on update do not exclude the row being updated ----

  /** PhonesNumberController::update: resubmitting any stored phone,
      the row's own included, fails validation. */
  lemma PhoneUpdateRejectsHeldPhone(p: Payload, db: Db, j: Id)
    requires "phone" in p && j in db.phones && Col(db.phones[j], "phone") == p["phone"]
    ensures !Passes(PhoneUpdateRules, p, db)
  {
    UniqueRejectsHeldValue(PhoneUpdateRules, 2, p, db, "phones_numbers", "phone", j);
  }

  /** SalesController::update: resubmitting a stored sales_order fails. */
  lemma SaleUpdateRejectsHeldOrder(p: Payload, db: Db, j: Id)
    requires "sales_order" in p && j in db.sales && Col(db.sales[j], "sales_order") == p["sales_order"]
    ensures !Passes(SaleUpdateRules, p, db)
  {
    UniqueRejectsHeldValue(SaleUpdateValueRules, 1, p, db, "sales", "sales_order", j);
    SaleUpdateAccepts(p, db);
  }

  /** CustomerRecordController::update: resubmitting a stored phone fails. */
  lemma RecordUpdateRejectsHeldPhone(p: Payload, db: Db, j: Id)
    requires "phone" in p && j in db.records && Col(db.records[j], "phone") == p["phone"]
    ensures !Passes(RecordUpdateRules, p, db)
  {
    UniqueRejectsHeldValue(RecordUpdateRules, 2, p, db, "customer_records", "phone", j);
  }

  /** AgencyController::update: resubmitting a stored email fails. */
  lemma AgencyUpdateRejectsHeldEmail(p: Payload, db: Db, j: Id)
    requires "email" in p && j in db.agencies && Col(db.agencies[j], "email") == p["email"]
    ensures !Passes(AgencyUpdateRules, p, db)
  {
    UniqueRejectsHeldValue(AgencyUpdateRules, 3, p, db, "agencies", "email", j);
  }

  /** OperatorsController::update: keeping an operator's own name fails. */
  lemma OperatorRejectsHeldName(p: Payload, db: Db, j: Id)
    requires "name" in p && j in db.operators && Col(db.operators[j], "name") == p["name"]
    ensures !Passes(OperatorRules, p, db)
  {
    UniqueRejectsHeldValue(OperatorRules, 0, p, db, "operators", "name", j);
  }

  /** SalesUserController::update: keeping a sales user's own name fails. */
  lemma SalesUserUpdateRejectsHeldName(p: Payload, db: Db, j: Id)
    requires "name" in p && j in db.salesUsers && Col(db.salesUsers[j], "name") == p["name"]
    ensures !Passes(SalesUserUpdateRules, p, db)
  {
    UniqueRejectsHeldValue(SalesUserUpdateRules, 1, p, db, "sales_users", "name", j);
  }

  // ---- What reaches the columns ----

  /** The validated data of the phone rules, after the model's allow-list,
      never carries equip or imei (nor the misspelled `ime`). */
  lemma PhoneStoreDropsEquipImei(p: Payload)
    ensures Only(Validated(PhoneStoreRules, p), PhoneFillable).Keys <= {"phone", "customer_id", "operator_id"}
  {
  }

  lemma PhoneUpdateDropsEquipImei(p: Payload)
    ensures Only(ArrayFilter(Validated(PhoneUpdateRules, p)), PhoneFillable).Keys <= {"phone", "customer_id", "operator_id"}
  {
  }

  /** CustomerController::update validates operator_id but Customer's
      allow-list drops it. */
  lemma CustomerUpdateDropsOperator(p: Payload)
    ensures "operator_id" !in Only(ArrayFilter(Validated(CustomerUpdateRules, p)), CustomerFillable)
  {
  }

  /** CustomerRecord's allow-list has no sales_id: no request links a record
      to a sale. */
  lemma RecordAllowListDropsSale(d: Payload)
    ensures "sales_id" !in Only(d, RecordFillable) && "id" !in Only(d, RecordFillable)
  {
  }

  /** Whatever a valid record update carries for `status`, what reaches the
      row is true, 1 or "1": status can be set but never cleared. */
  lemma RecordUpdateStatusOnlyTrue(p: Payload, db: Db)
    requires Passes(RecordUpdateRules, p, db)
    ensures var d := Only(ArrayFilter(Validated(RecordUpdateRules, p)), RecordFillable);
            "status" in d ==> d["status"] in {VBool(true), VInt(1), VStr("1")}
  {
    if "status" in p {
      PassesEach(RecordUpdateRules, p, db);
      assert RecordUpdateRules[6] == ("status", [Boolean]);
      BooleanField(p, "status", db);
      TruthyBoolean(p["status"]);
    }
  }

  /** Of the values `boolean` accepts, the truthy ones are true, 1 and "1". */
  lemma TruthyBoolean(v: Value)
    requires v in {VBool(true), VBool(false), VInt(0), VInt(1), VStr("0"), VStr("1")}
    ensures Truthy(v) <==> v in {VBool(true), VInt(1), VStr("1")}
  {
  }
}
