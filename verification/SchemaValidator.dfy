/** The JSON-schema-like validator of feral-core/agents/app_registry.py. */
module SchemaValidator {
  import opened Prelude
  import opened Json

  datatype Step = Key(key: string) | Index(i: nat)

  datatype Violation =
    | NotASchema
    | WrongType
    | NotInEnum
    | TooShort
    | TooLong
    | BelowMinimum
    | AboveMaximum
    | MissingKey(key: string)
    | UnexpectedKeys
    | TooFewItems
    | TooManyItems

  datatype Error = Error(path: seq<Step>, violation: Violation)

  // ---- A schema, as far as the validator reads it ----

  datatype Kind = Object | Array | String | Number | Integer | Boolean | NullKind

  /** Unknown names, and values that are no names, allow every type. */
  datatype TypeSpec = AnyType | Named(kind: Kind) | OneOf(options: seq<TypeSpec>)

  /** A declared property; `None` when its schema is no dictionary and is never used. */
  datatype Property = Property(key: string, schema: Option<Schema>)

  datatype Extras = AllowExtras | ForbidExtras | CheckExtras(schema: Schema)

  datatype Schema =
    | NotADictionary
    | Schema(types: TypeSpec, options: seq<Json>, minLength: Option<int>, maxLength: Option<int>,
             minimum: Option<real>, maximum: Option<real>, required: seq<string>, props: Option<seq<Property>>,
             extras: Extras, minItems: Option<int>, maxItems: Option<int>, items: Option<Schema>)

  function ReadType(expected: Json): TypeSpec {
    match expected
    case JArr(options) => OneOf(seq(|options|, i requires 0 <= i < |options| => ReadType(options[i])))
    case JStr(name) =>
      if name == "object" then Named(Object)
      else if name == "array" then Named(Array)
      else if name == "string" then Named(String)
      else if name == "number" then Named(Number)
      else if name == "integer" then Named(Integer)
      else if name == "boolean" then Named(Boolean)
      else if name == "null" then Named(NullKind)
      else AnyType
    case _ => AnyType
  }

  function ReadBound(j: Option<Json>): Option<int> {
    if j.Some? then IntegerOf(j.value) else None
  }

  function ReadLimit(j: Option<Json>): Option<real> {
    if j.Some? then NumberOf(j.value) else None
  }

  function ReadList(j: Option<Json>): seq<Json> {
    if j.Some? && j.value.JArr? then j.value.items else []
  }

  function ReadStrings(items: seq<Json>): seq<string> {
    if items == [] then []
    else (if items[0].JStr? then [items[0].s] else []) + ReadStrings(items[1..])
  }

  function ReadProps(fields: seq<Field>): seq<Property>
    decreases fields
  {
    seq(|fields|, i requires 0 <= i < |fields| =>
      Property(fields[i].key, if fields[i].value.JObj? then Some(ReadSchema(fields[i].value)) else None))
  }

  /** What the validator reads from a schema: values of an unexpected shape are ignored. */
  function ReadSchema(j: Json): Schema
    decreases j
  {
    if !j.JObj? then NotADictionary
    else
      var props, extras, items := Get(j, "properties"), Get(j, "additionalProperties"), Get(j, "items");
      Schema(
        if Get(j, "type").Some? then ReadType(Get(j, "type").value) else AnyType,
        ReadList(Get(j, "enum")),
        ReadBound(Get(j, "minLength")), ReadBound(Get(j, "maxLength")),
        ReadLimit(Get(j, "minimum")), ReadLimit(Get(j, "maximum")),
        ReadStrings(ReadList(Get(j, "required"))),
        if props.Some? && props.value.JObj? then Some(ReadProps(props.value.fields)) else None,
        if extras.None? then AllowExtras
        else if extras.value == JBool(false) then ForbidExtras
        else if extras.value.JObj? then CheckExtras(ReadSchema(extras.value))
        else AllowExtras,
        ReadBound(Get(j, "minItems")), ReadBound(Get(j, "maxItems")),
        if items.Some? && items.value.JObj? then Some(ReadSchema(items.value)) else None)
  }

  /** The declared property with this key. */
  function PropertyOf(props: seq<Property>, key: string): (r: Option<Property>)
    ensures r.Some? <==> exists i :: 0 <= i < |props| && props[i].key == key
  {
    if props == [] then None
    else if props[0].key == key then Some(props[0])
    else
      var r := PropertyOf(props[1..], key);
      assert forall i :: 1 <= i < |props| ==> props[1..][i - 1] == props[i];
      assert forall i :: 0 <= i < |props[1..]| ==> props[1..][i] == props[i + 1];
      r
  }

  predicate Declared(schema: Schema, key: string)
    requires schema.Schema?
  {
    schema.props.Some? && PropertyOf(schema.props.value, key).Some?
  }

  /** The sub-schema an entry with this key is checked against, if it is checked at all. */
  function SchemaForKey(schema: Schema, key: string): Option<Schema>
    requires schema.Schema?
  {
    if Declared(schema, key) then PropertyOf(schema.props.value, key).value.schema
    else if schema.extras.CheckExtras? then Some(schema.extras.schema)
    else None
  }

  /** The sub-value at a step with the sub-schema it is checked against, if it is checked at all. */
  function Child(v: Json, schema: Schema, step: Step): (r: Option<(Json, Schema)>)
    ensures r.Some? ==> r.value.0 < v
  {
    if schema.NotADictionary? then None
    else match step
      case Key(k) =>
        if Get(v, k).Some? && SchemaForKey(schema, k).Some? then
          Some((Get(v, k).value, SchemaForKey(schema, k).value))
        else None
      case Index(i) =>
        if v.JArr? && i < |v.items| && schema.items.Some? then Some((v.items[i], schema.items.value)) else None
  }

  // ---- What it means to break a rule at the root of a value ----

  predicate IsKind(v: Json, kind: Kind) {
    match kind
    case Object => v.JObj?
    case Array => v.JArr?
    case String => v.JStr?
    case Number => v.JInt? || v.JFloat?
    case Integer => v.JInt?
    case Boolean => v.JBool?
    case NullKind => v.JNull?
  }

  /** Of a list of types one must fit, so an empty list fits nothing. */
  predicate TypeOk(v: Json, types: TypeSpec) {
    match types
    case AnyType => true
    case Named(kind) => IsKind(v, kind)
    case OneOf(options) => exists i :: 0 <= i < |options| && TypeOk(v, options[i])
  }

  /** An empty list of options is no restriction. */
  predicate AllowedByEnum(v: Json, options: seq<Json>) {
    options == [] || exists i :: 0 <= i < |options| && PyEqual(v, options[i])
  }

  /** Undeclared keys are forbidden only beside declared properties. */
  predicate HasForbiddenExtra(v: Json, schema: Schema)
    requires v.JObj? && schema.Schema?
  {
    schema.extras.ForbidExtras? && schema.props.Some? &&
    exists i :: 0 <= i < |v.fields| && !Declared(schema, v.fields[i].key)
  }

  /** The value breaks this rule of the schema by itself, not through a sub-value. */
  predicate Violates(v: Json, schema: Schema, rule: Violation) {
    if schema.NotADictionary? then rule == NotASchema
    else match rule
      case NotASchema => false
      case WrongType => !TypeOk(v, schema.types)
      case NotInEnum => !AllowedByEnum(v, schema.options)
      case TooShort => v.JStr? && schema.minLength.Some? && |v.s| < schema.minLength.value
      case TooLong => v.JStr? && schema.maxLength.Some? && |v.s| > schema.maxLength.value
      case BelowMinimum =>
        (v.JInt? || v.JFloat?) && schema.minimum.Some? && NumberOf(v).value < schema.minimum.value
      case AboveMaximum =>
        (v.JInt? || v.JFloat?) && schema.maximum.Some? && NumberOf(v).value > schema.maximum.value
      case MissingKey(key) => v.JObj? && key in schema.required && Get(v, key).None?
      case UnexpectedKeys => v.JObj? && HasForbiddenExtra(v, schema)
      case TooFewItems => v.JArr? && schema.minItems.Some? && |v.items| < schema.minItems.value
      case TooManyItems => v.JArr? && schema.maxItems.Some? && |v.items| > schema.maxItems.value
  }

  /** Declarative validity: no rule is broken here, and every checked sub-value conforms to its sub-schema. */
  ghost predicate Conforms(v: Json, schema: Schema)
    decreases v
  {
    && (forall rule :: !Violates(v, schema, rule))
    && (forall step :: Child(v, schema, step).Some? ==>
          Conforms(Child(v, schema, step).value.0, Child(v, schema, step).value.1))
  }

  /** The sub-value at a path, with the sub-schema it is checked against. */
  function Reach(v: Json, schema: Schema, path: seq<Step>): Option<(Json, Schema)>
    decreases |path|
  {
    if path == [] then Some((v, schema))
    else match Child(v, schema, path[0])
      case None => None
      case Some(c) => Reach(c.0, c.1, path[1..])
  }

  // ---- The validator ----

  /** The first required key that is missing. */
  function FirstMissing(v: Json, required: seq<string>): (r: Option<string>)
    ensures r.Some? ==> r.value in required && Get(v, r.value).None?
    ensures r.None? ==> forall key :: key in required ==> Get(v, key).Some?
  {
    if required == [] then None
    else if Get(v, required[0]).None? then Some(required[0])
    else FirstMissing(v, required[1..])
  }

  /** The checks made before any sub-value is looked at, in their order. */
  function HeadViolation(v: Json, schema: Schema): Option<Violation> {
    if schema.NotADictionary? then Some(NotASchema)
    else if Violates(v, schema, WrongType) then Some(WrongType)
    else if Violates(v, schema, NotInEnum) then Some(NotInEnum)
    else if Violates(v, schema, TooShort) then Some(TooShort)
    else if Violates(v, schema, TooLong) then Some(TooLong)
    else if Violates(v, schema, BelowMinimum) then Some(BelowMinimum)
    else if Violates(v, schema, AboveMaximum) then Some(AboveMaximum)
    else if v.JObj? && FirstMissing(v, schema.required).Some? then
      Some(MissingKey(FirstMissing(v, schema.required).value))
    else if Violates(v, schema, TooFewItems) then Some(TooFewItems)
    else if Violates(v, schema, TooManyItems) then Some(TooManyItems)
    else None
  }

  /** The properties the validator walks through. */
  function PropsOf(schema: Schema): (r: seq<Property>)
    requires schema.Schema?
    ensures forall i :: 0 <= i < |r| ==> Declared(schema, r[i].key)
    ensures forall key :: Declared(schema, key) ==> exists i :: 0 <= i < |r| && r[i].key == key
  {
    if schema.props.Some? then schema.props.value else []
  }

  /** `_validate_json_like_schema`: the first error met, with the path of the value that has it. */
  function Validate(v: Json, schema: Schema, path: seq<Step>): Option<Error>
    decreases v, 1, 0
  {
    if HeadViolation(v, schema).Some? then Some(Error(path, HeadViolation(v, schema).value))
    else if v.JObj? then
      var inProps := ValidateProps(v, schema, PropsOf(schema), path);
      if inProps.Some? then inProps
      else if Violates(v, schema, UnexpectedKeys) then Some(Error(path, UnexpectedKeys))
      else if schema.extras.CheckExtras? then ValidateExtras(v, schema, v.fields, path)
      else None
    else if v.JArr? && schema.items.Some? then ValidateItems(v, schema, 0, path)
    else None
  }

  /** The declared properties that are present, in the order of the schema. */
  function ValidateProps(v: Json, schema: Schema, props: seq<Property>, path: seq<Step>): Option<Error>
    requires schema.Schema? && forall i :: 0 <= i < |props| ==> Declared(schema, props[i].key)
    decreases v, 0, |props|
  {
    if props == [] then None
    else
      var child := Child(v, schema, Key(props[0].key));
      var first := if child.Some? then Validate(child.value.0, child.value.1, path + [Key(props[0].key)]) else None;
      if first.Some? then first else ValidateProps(v, schema, props[1..], path)
  }

  /** The undeclared keys, in the order of the value. */
  function ValidateExtras(v: Json, schema: Schema, fields: seq<Field>, path: seq<Step>): Option<Error>
    requires schema.Schema?
    decreases v, 0, |fields|
  {
    if fields == [] then None
    else
      var child := Child(v, schema, Key(fields[0].key));
      var first := if child.Some? && !Declared(schema, fields[0].key)
                   then Validate(child.value.0, child.value.1, path + [Key(fields[0].key)]) else None;
      if first.Some? then first else ValidateExtras(v, schema, fields[1..], path)
  }

  function ValidateItems(v: Json, schema: Schema, i: nat, path: seq<Step>): Option<Error>
    requires v.JArr? && i <= |v.items|
    decreases v, 0, |v.items| - i
  {
    if i == |v.items| then None
    else
      var child := Child(v, schema, Index(i));
      var first := if child.Some? then Validate(child.value.0, child.value.1, path + [Index(i)]) else None;
      if first.Some? then first else ValidateItems(v, schema, i + 1, path)
  }

  // ---- The validator decides validity ----

  lemma {:induction false} HeadViolationIsReal(v: Json, schema: Schema)
    ensures HeadViolation(v, schema).Some? ==> Violates(v, schema, HeadViolation(v, schema).value)
  {
  }

  lemma {:induction false} HeadViolationComplete(v: Json, schema: Schema, rule: Violation)
    requires HeadViolation(v, schema).None? && rule != UnexpectedKeys
    ensures !Violates(v, schema, rule)
  {
    if rule.MissingKey? && v.JObj? {
      assert FirstMissing(v, schema.required).None?;
    }
  }

  /** A child the validator accepts, whatever path it reports under. */
  ghost predicate ChildPasses(v: Json, schema: Schema, step: Step, path: seq<Step>) {
    Child(v, schema, step).Some? ==>
      Validate(Child(v, schema, step).value.0, Child(v, schema, step).value.1, path + [step]).None?
  }

  lemma {:induction false} PropsPass(v: Json, schema: Schema, props: seq<Property>, path: seq<Step>)
    requires schema.Schema? && forall i :: 0 <= i < |props| ==> Declared(schema, props[i].key)
    ensures ValidateProps(v, schema, props, path).None? <==>
            forall i :: 0 <= i < |props| ==> ChildPasses(v, schema, Key(props[i].key), path)
    decreases |props|
  {
    if props != [] {
      PropsPass(v, schema, props[1..], path);
      assert forall i :: 0 < i < |props| ==> props[i] == props[1..][i - 1];
      assert forall i :: 0 <= i < |props[1..]| ==> props[1..][i] == props[i + 1];
    }
  }

  lemma {:induction false} ExtrasPass(v: Json, schema: Schema, fields: seq<Field>, path: seq<Step>)
    requires schema.Schema?
    ensures ValidateExtras(v, schema, fields, path).None? <==>
            forall i :: 0 <= i < |fields| && !Declared(schema, fields[i].key) ==>
                          ChildPasses(v, schema, Key(fields[i].key), path)
    decreases |fields|
  {
    if fields != [] {
      ExtrasPass(v, schema, fields[1..], path);
      assert forall i :: 0 < i < |fields| ==> fields[i] == fields[1..][i - 1];
      assert forall i :: 0 <= i < |fields[1..]| ==> fields[1..][i] == fields[i + 1];
    }
  }

  lemma {:induction false} ItemsPass(v: Json, schema: Schema, i: nat, path: seq<Step>)
    requires v.JArr? && i <= |v.items|
    ensures ValidateItems(v, schema, i, path).None? <==>
            forall k :: i <= k < |v.items| ==> ChildPasses(v, schema, Index(k), path)
    decreases |v.items| - i
  {
    if i < |v.items| {
      ItemsPass(v, schema, i + 1, path);
    }
  }

  lemma {:induction false} NoRuleBroken(v: Json, schema: Schema)
    ensures HeadViolation(v, schema).None? && !Violates(v, schema, UnexpectedKeys) <==>
            forall rule :: !Violates(v, schema, rule)
    ensures !v.JObj? && schema.Schema? ==> !Violates(v, schema, UnexpectedKeys)
  {
    HeadViolationIsReal(v, schema);
    if HeadViolation(v, schema).None? && !Violates(v, schema, UnexpectedKeys) {
      forall rule: Violation ensures !Violates(v, schema, rule) {
        if rule != UnexpectedKeys {
          HeadViolationComplete(v, schema, rule);
        }
      }
    }
  }

  lemma {:induction false} ObjectPasses(v: Json, schema: Schema, path: seq<Step>)
    requires v.JObj? && schema.Schema?
    ensures (forall step :: ChildPasses(v, schema, step, path)) <==>
            && ValidateProps(v, schema, PropsOf(schema), path).None?
            && (schema.extras.CheckExtras? ==> ValidateExtras(v, schema, v.fields, path).None?)
  {
    hide Validate, ValidateProps, ValidateExtras;
    PropsPass(v, schema, PropsOf(schema), path);
    ExtrasPass(v, schema, v.fields, path);
  }

  lemma {:induction false} ArrayPasses(v: Json, schema: Schema, path: seq<Step>)
    requires v.JArr? && schema.Schema?
    ensures (forall step :: ChildPasses(v, schema, step, path)) <==>
            (schema.items.Some? ==> ValidateItems(v, schema, 0, path).None?)
  {
    hide Validate, ValidateItems;
    ItemsPass(v, schema, 0, path);
  }

  /** The validator passes a value exactly when no rule is broken at its root and every child passes. */
  lemma {:induction false} ValidatePasses(v: Json, schema: Schema, path: seq<Step>)
    ensures Validate(v, schema, path).None? <==>
            && (forall rule :: !Violates(v, schema, rule))
            && (forall step :: ChildPasses(v, schema, step, path))
  {
    NoRuleBroken(v, schema);
    if schema.Schema? && v.JObj? {
      hide Violates, HeadViolation, ChildPasses, ValidateProps, ValidateExtras;
      ObjectPasses(v, schema, path);
    } else if schema.Schema? && v.JArr? {
      hide Violates, HeadViolation, ChildPasses, ValidateItems;
      ArrayPasses(v, schema, path);
    }
  }

  /** The validator accepts a value exactly when it conforms to the schema. */
  lemma {:induction false} ValidateIffConforms(v: Json, schema: Schema, path: seq<Step>)
    ensures Validate(v, schema, path).None? <==> Conforms(v, schema)
    decreases v
  {
    ValidatePasses(v, schema, path);
    forall step | Child(v, schema, step).Some?
      ensures ChildPasses(v, schema, step, path) <==>
              Conforms(Child(v, schema, step).value.0, Child(v, schema, step).value.1)
    {
      var c := Child(v, schema, step).value;
      ValidateIffConforms(c.0, c.1, path + [step]);
    }
  }

  // ---- Validity, read off the schema keyword by keyword ----

  /** An unknown type name, or a type that is neither a name nor a list, allows everything. */
  ghost predicate HasType(v: Json, type_: Json) {
    match type_
    case JArr(options) => exists i :: 0 <= i < |options| && HasType(v, options[i])
    case JStr(name) =>
      && (name == "object" ==> v.JObj?)
      && (name == "array" ==> v.JArr?)
      && (name == "string" ==> v.JStr?)
      && (name == "number" ==> v.JInt? || v.JFloat?)
      && (name == "integer" ==> v.JInt?)
      && (name == "boolean" ==> v.JBool?)
      && (name == "null" ==> v.JNull?)
    case _ => true
  }

  /** A bound on a size that is no integer is none; `true` and `false` are 1 and 0. */
  predicate BelowSize(n: nat, bound: Option<Json>) {
    match bound case Some(JInt(k)) => n < k case Some(JBool(b)) => b && n < 1 case _ => false
  }

  predicate AboveSize(n: nat, bound: Option<Json>) {
    match bound case Some(JInt(k)) => k < n case Some(JBool(b)) => (if b then 1 else 0) < n case _ => false
  }

  predicate BelowLimit(v: Json, bound: Option<Json>) {
    match v
    case JInt(n) => BelowNumber(n as real, bound)
    case JFloat(x) => BelowNumber(x, bound)
    case _ => false
  }

  predicate AboveLimit(v: Json, bound: Option<Json>) {
    match v
    case JInt(n) => AboveNumber(n as real, bound)
    case JFloat(x) => AboveNumber(x, bound)
    case _ => false
  }

  predicate BelowNumber(x: real, bound: Option<Json>) {
    match bound
    case Some(JInt(k)) => x < k as real
    case Some(JFloat(y)) => x < y
    case Some(JBool(b)) => x < (if b then 1.0 else 0.0)
    case _ => false
  }

  predicate AboveNumber(x: real, bound: Option<Json>) {
    match bound
    case Some(JInt(k)) => k as real < x
    case Some(JFloat(y)) => y < x
    case Some(JBool(b)) => (if b then 1.0 else 0.0) < x
    case _ => false
  }

  predicate IsDictionary(j: Option<Json>) {
    j.Some? && j.value.JObj?
  }

  predicate HasKey(j: Option<Json>, key: string) {
    IsDictionary(j) && Get(j.value, key).Some?
  }

  predicate Lists(j: Option<Json>, x: Json) {
    j.Some? && j.value.JArr? && x in j.value.items
  }

  /** The value breaks a rule of the schema as it is written. */
  ghost predicate Breaks(v: Json, j: Json, rule: Violation) {
    if !j.JObj? then rule == NotASchema
    else match rule
      case NotASchema => false
      case WrongType => Get(j, "type").Some? && !HasType(v, Get(j, "type").value)
      case NotInEnum =>
        (match Get(j, "enum")
         case Some(JArr(options)) => options != [] && forall i :: 0 <= i < |options| ==> !PyEqual(v, options[i])
         case _ => false)
      case TooShort => v.JStr? && BelowSize(|v.s|, Get(j, "minLength"))
      case TooLong => v.JStr? && AboveSize(|v.s|, Get(j, "maxLength"))
      case BelowMinimum => BelowLimit(v, Get(j, "minimum"))
      case AboveMaximum => AboveLimit(v, Get(j, "maximum"))
      case MissingKey(key) => v.JObj? && Lists(Get(j, "required"), JStr(key)) && Get(v, key).None?
      case UnexpectedKeys =>
        && v.JObj? && Get(j, "additionalProperties") == Some(JBool(false)) && IsDictionary(Get(j, "properties"))
        && exists i :: 0 <= i < |v.fields| && !HasKey(Get(j, "properties"), v.fields[i].key)
      case TooFewItems => v.JArr? && BelowSize(|v.items|, Get(j, "minItems"))
      case TooManyItems => v.JArr? && AboveSize(|v.items|, Get(j, "maxItems"))
  }

  /**
   * The sub-value at a step with the sub-schema written for it: an entry goes with its declared property, an undeclared
   * one with the schema of additional properties, an item with that of items.
   */
  function Part(v: Json, j: Json, step: Step): (r: Option<(Json, Json)>)
    ensures r.Some? ==> r.value.0 < v
  {
    match step
    case Key(k) =>
      var props, additional := Get(j, "properties"), Get(j, "additionalProperties");
      if Get(v, k).None? then None
      else if HasKey(props, k) then
        if Get(props.value, k).value.JObj? then Some((Get(v, k).value, Get(props.value, k).value)) else None
      else if IsDictionary(additional) then Some((Get(v, k).value, additional.value)) else None
    case Index(i) =>
      if v.JArr? && i < |v.items| && IsDictionary(Get(j, "items")) then Some((v.items[i], Get(j, "items").value))
      else None
  }

  /** A value is valid for a schema: no rule is broken, and every part is valid for the schema written for it. */
  ghost predicate IsValid(v: Json, j: Json)
    decreases v
  {
    && (forall rule :: !Breaks(v, j, rule))
    && (forall step :: Part(v, j, step).Some? ==> IsValid(Part(v, j, step).value.0, Part(v, j, step).value.1))
  }

  /** The part at a path, with the schema written for it. */
  function PartAt(v: Json, j: Json, path: seq<Step>): Option<(Json, Json)>
    decreases |path|
  {
    if path == [] then Some((v, j))
    else match Part(v, j, path[0])
      case None => None
      case Some(part) => PartAt(part.0, part.1, path[1..])
  }

  // ---- The schema as it is read says the same ----

  lemma {:induction false} TypeMeaning(v: Json, type_: Json)
    ensures TypeOk(v, ReadType(type_)) <==> HasType(v, type_)
    decreases type_
  {
    if type_.JArr? {
      var options := ReadType(type_).options;
      forall i | 0 <= i < |type_.items| ensures TypeOk(v, options[i]) <==> HasType(v, type_.items[i]) {
        TypeMeaning(v, type_.items[i]);
      }
      hide ReadType;
    }
  }

  lemma {:induction false} StringsMeaning(items: seq<Json>, key: string)
    ensures key in ReadStrings(items) <==> JStr(key) in items
    decreases |items|
  {
    if items != [] {
      StringsMeaning(items[1..], key);
      assert items == [items[0]] + items[1..];
    }
  }

  lemma {:induction false} PropsMeaning(fields: seq<Field>, key: string)
    ensures PropertyOf(ReadProps(fields), key) ==
            match Find(fields, key)
            case None => None
            case Some(j) => Some(Property(key, if j.JObj? then Some(ReadSchema(j)) else None))
    decreases |fields|
  {
    hide ReadSchema;
    if fields != [] {
      PropsMeaning(fields[1..], key);
      assert ReadProps(fields)[1..] == ReadProps(fields[1..]);
    }
  }

  /** What is read for each keyword. */
  lemma {:induction false} ReadFields(j: Json)
    ensures ReadSchema(j).NotADictionary? <==> !j.JObj?
    ensures j.JObj? ==>
              var schema := ReadSchema(j);
              && schema.types == (if Get(j, "type").Some? then ReadType(Get(j, "type").value) else AnyType)
              && schema.options == ReadList(Get(j, "enum"))
              && schema.minLength == ReadBound(Get(j, "minLength"))
              && schema.maxLength == ReadBound(Get(j, "maxLength"))
              && schema.minimum == ReadLimit(Get(j, "minimum")) && schema.maximum == ReadLimit(Get(j, "maximum"))
              && schema.minItems == ReadBound(Get(j, "minItems")) && schema.maxItems == ReadBound(Get(j, "maxItems"))
              && schema.required == ReadStrings(ReadList(Get(j, "required")))
  {
    hide Get, ReadType, ReadList, ReadBound, ReadLimit, ReadStrings, ReadProps;
  }

  lemma {:induction false} ReadSubSchemas(j: Json)
    requires j.JObj?
    ensures var schema, props := ReadSchema(j), Get(j, "properties");
            var additional, items := Get(j, "additionalProperties"), Get(j, "items");
            && schema.Schema?
            && schema.props == (if IsDictionary(props) then Some(ReadProps(props.value.fields)) else None)
            && (schema.extras.ForbidExtras? <==> additional == Some(JBool(false)))
            && (schema.extras.CheckExtras? <==> IsDictionary(additional))
            && (IsDictionary(additional) ==> schema.extras.schema == ReadSchema(additional.value))
            && schema.items == (if IsDictionary(items) then Some(ReadSchema(items.value)) else None)
  {
    hide Get, ReadType, ReadList, ReadBound, ReadLimit, ReadStrings, ReadProps;
  }

  /** The declared properties of the schema, by key. */
  lemma {:induction false} DeclaredMeaning(j: Json, key: string)
    requires j.JObj? && ReadSchema(j).Schema?
    ensures Declared(ReadSchema(j), key) <==> HasKey(Get(j, "properties"), key)
    ensures Declared(ReadSchema(j), key) ==>
              PropertyOf(ReadSchema(j).props.value, key).value.schema ==
              var declared := Get(Get(j, "properties").value, key).value;
              if declared.JObj? then Some(ReadSchema(declared)) else None
  {
    hide ReadSchema, ReadProps, PropertyOf, Find;
    ReadSubSchemas(j);
    if IsDictionary(Get(j, "properties")) {
      PropsMeaning(Get(j, "properties").value.fields, key);
    }
  }

  lemma {:induction false} TypeRule(v: Json, j: Json)
    requires j.JObj?
    ensures Violates(v, ReadSchema(j), WrongType) <==> Breaks(v, j, WrongType)
  {
    ReadFields(j);
    if Get(j, "type").Some? {
      TypeMeaning(v, Get(j, "type").value);
    }
    hide Get, ReadSchema, ReadType, HasType, ReadList, ReadBound, ReadLimit, ReadStrings;
  }

  lemma {:induction false} EnumRule(v: Json, j: Json)
    requires j.JObj?
    ensures Violates(v, ReadSchema(j), NotInEnum) <==> Breaks(v, j, NotInEnum)
  {
    ReadFields(j);
    hide Get, ReadSchema, ReadType, PyEqual, ReadBound, ReadLimit, ReadStrings;
  }

  lemma {:induction false} BoundRules(v: Json, j: Json, rule: Violation)
    requires j.JObj? && rule in {TooShort, TooLong, BelowMinimum, AboveMaximum, TooFewItems, TooManyItems}
    ensures Violates(v, ReadSchema(j), rule) <==> Breaks(v, j, rule)
  {
    ReadFields(j);
    hide Get, ReadSchema, ReadType, ReadList, ReadStrings;
  }

  lemma {:induction false} MissingRule(v: Json, j: Json, key: string)
    requires j.JObj?
    ensures Violates(v, ReadSchema(j), MissingKey(key)) <==> Breaks(v, j, MissingKey(key))
  {
    ReadFields(j);
    StringsMeaning(ReadList(Get(j, "required")), key);
    hide Get, ReadSchema, ReadType, ReadBound, ReadLimit, ReadStrings;
  }

  lemma {:induction false} ExtraRule(v: Json, schema: Schema, j: Json)
    requires schema.Schema? && j.JObj? && v.JObj?
    requires schema.extras.ForbidExtras? <==> Get(j, "additionalProperties") == Some(JBool(false))
    requires schema.props.Some? <==> IsDictionary(Get(j, "properties"))
    requires forall i :: 0 <= i < |v.fields| ==>
               (Declared(schema, v.fields[i].key) <==> HasKey(Get(j, "properties"), v.fields[i].key))
    ensures Violates(v, schema, UnexpectedKeys) <==> Breaks(v, j, UnexpectedKeys)
  {
    hide Declared, HasKey, IsDictionary, Get;
  }

  lemma {:induction false} UnexpectedRule(v: Json, j: Json)
    requires j.JObj? && v.JObj?
    ensures Violates(v, ReadSchema(j), UnexpectedKeys) <==> Breaks(v, j, UnexpectedKeys)
  {
    hide ReadSchema, Declared, HasKey, Get, Violates, Breaks, IsDictionary;
    ReadSubSchemas(j);
    forall i | 0 <= i < |v.fields|
      ensures Declared(ReadSchema(j), v.fields[i].key) <==> HasKey(Get(j, "properties"), v.fields[i].key)
    {
      DeclaredMeaning(j, v.fields[i].key);
    }
    ExtraRule(v, ReadSchema(j), j);
  }

  /** The schema as it is read has the rules it is written with. */
  lemma {:induction false} RuleMeaning(v: Json, j: Json, rule: Violation)
    ensures Violates(v, ReadSchema(j), rule) <==> Breaks(v, j, rule)
  {
    hide ReadSchema;
    ReadFields(j);
    if j.JObj? {
      match rule
      case NotASchema =>
      case WrongType => TypeRule(v, j);
      case NotInEnum => EnumRule(v, j);
      case MissingKey(key) => MissingRule(v, j, key);
      case UnexpectedKeys =>
        if v.JObj? {
          UnexpectedRule(v, j);
        }
      case _ => BoundRules(v, j, rule);
    }
  }

  /** It checks the parts against the schemas written for them. */
  lemma {:induction false} ChildMeaning(v: Json, j: Json, step: Step)
    requires j.JObj?
    ensures Child(v, ReadSchema(j), step) ==
            match Part(v, j, step) case None => None case Some(part) => Some((part.0, ReadSchema(part.1)))
  {
    hide ReadSchema, Get, PropertyOf, ReadProps;
    ReadSubSchemas(j);
    if step.Key? {
      DeclaredMeaning(j, step.key);
      hide Declared;
    }
  }

  lemma {:induction false} NoDictionaryIsInvalid(v: Json, j: Json)
    requires !j.JObj?
    ensures !IsValid(v, j) && !Conforms(v, ReadSchema(j))
  {
    assert Breaks(v, j, NotASchema) && Violates(v, ReadSchema(j), NotASchema);
  }

  /** The parts of a value fare the same under the schema as it is read. */
  ghost predicate PartsAgree(v: Json, j: Json, step: Step) {
    var child, part := Child(v, ReadSchema(j), step), Part(v, j, step);
    && (child.Some? <==> part.Some?)
    && (child.Some? ==> (Conforms(child.value.0, child.value.1) <==> IsValid(part.value.0, part.value.1)))
  }

  lemma {:induction false} AgreeingParts(v: Json, j: Json)
    requires forall rule :: Violates(v, ReadSchema(j), rule) <==> Breaks(v, j, rule)
    requires forall step :: PartsAgree(v, j, step)
    ensures Conforms(v, ReadSchema(j)) <==> IsValid(v, j)
  {
    hide ReadSchema, Violates, Breaks, Child, Part;
    if Conforms(v, ReadSchema(j)) {
      forall step | Part(v, j, step).Some? ensures IsValid(Part(v, j, step).value.0, Part(v, j, step).value.1) {
        assert PartsAgree(v, j, step);
      }
    }
    if IsValid(v, j) {
      forall step | Child(v, ReadSchema(j), step).Some?
        ensures Conforms(Child(v, ReadSchema(j), step).value.0, Child(v, ReadSchema(j), step).value.1)
      {
        assert PartsAgree(v, j, step);
      }
    }
  }

  /** A value conforms to a schema as it is read exactly when it is valid for the schema as it is written. */
  lemma {:induction false} ConformsIffValid(v: Json, j: Json)
    ensures Conforms(v, ReadSchema(j)) <==> IsValid(v, j)
    decreases v
  {
    if j.JObj? {
      hide ReadSchema, Violates, Breaks, Child, Part, Conforms, IsValid;
      forall rule ensures Violates(v, ReadSchema(j), rule) <==> Breaks(v, j, rule) {
        RuleMeaning(v, j, rule);
      }
      forall step ensures PartsAgree(v, j, step) {
        ChildMeaning(v, j, step);
        if Part(v, j, step).Some? {
          ConformsIffValid(Part(v, j, step).value.0, Part(v, j, step).value.1);
        }
      }
      AgreeingParts(v, j);
    } else {
      NoDictionaryIsInvalid(v, j);
    }
  }

  /** The validator accepts a value exactly when it is valid for the schema as it is written. */
  lemma {:induction false} ValidateIffValid(v: Json, j: Json, path: seq<Step>)
    ensures Validate(v, ReadSchema(j), path).None? <==> IsValid(v, j)
  {
    hide *;
    ValidateIffConforms(v, ReadSchema(j), path);
    ConformsIffValid(v, j);
  }

  // ---- What a rejection says ----

  /** The error names a sub-value, reached from here, that breaks the named rule of its own sub-schema. */
  ghost predicate PointsAtViolation(v: Json, schema: Schema, path: seq<Step>, e: Error) {
    && path <= e.path
    && Reach(v, schema, e.path[|path|..]).Some?
    && var at := Reach(v, schema, e.path[|path|..]).value; Violates(at.0, at.1, e.violation)
  }

  lemma {:induction false} PointsThroughChild(v: Json, schema: Schema, path: seq<Step>, step: Step, e: Error)
    requires Child(v, schema, step).Some?
    requires PointsAtViolation(Child(v, schema, step).value.0, Child(v, schema, step).value.1, path + [step], e)
    ensures PointsAtViolation(v, schema, path, e)
  {
    var rel := e.path[|path|..];
    assert rel[0] == step && rel[1..] == e.path[|path| + 1..];
  }

  lemma {:induction false} PropsPoint(v: Json, schema: Schema, props: seq<Property>, path: seq<Step>)
    requires schema.Schema? && forall i :: 0 <= i < |props| ==> Declared(schema, props[i].key)
    ensures ValidateProps(v, schema, props, path).Some? ==>
              PointsAtViolation(v, schema, path, ValidateProps(v, schema, props, path).value)
    decreases v, 0, |props|
  {
    if props != [] {
      var step := Key(props[0].key);
      var child := Child(v, schema, step);
      if child.Some? && Validate(child.value.0, child.value.1, path + [step]).Some? {
        RejectionPointsAtViolation(child.value.0, child.value.1, path + [step]);
        PointsThroughChild(v, schema, path, step, Validate(child.value.0, child.value.1, path + [step]).value);
      } else {
        PropsPoint(v, schema, props[1..], path);
      }
    }
  }

  lemma {:induction false} ExtrasPoint(v: Json, schema: Schema, fields: seq<Field>, path: seq<Step>)
    requires schema.Schema?
    ensures ValidateExtras(v, schema, fields, path).Some? ==>
              PointsAtViolation(v, schema, path, ValidateExtras(v, schema, fields, path).value)
    decreases v, 0, |fields|
  {
    if fields != [] {
      var step := Key(fields[0].key);
      var child := Child(v, schema, step);
      if child.Some? && !Declared(schema, step.key) &&
         Validate(child.value.0, child.value.1, path + [step]).Some? {
        RejectionPointsAtViolation(child.value.0, child.value.1, path + [step]);
        PointsThroughChild(v, schema, path, step, Validate(child.value.0, child.value.1, path + [step]).value);
      } else {
        ExtrasPoint(v, schema, fields[1..], path);
      }
    }
  }

  lemma {:induction false} ItemsPoint(v: Json, schema: Schema, i: nat, path: seq<Step>)
    requires v.JArr? && i <= |v.items|
    ensures ValidateItems(v, schema, i, path).Some? ==>
              PointsAtViolation(v, schema, path, ValidateItems(v, schema, i, path).value)
    decreases v, 0, |v.items| - i
  {
    if i < |v.items| {
      var step := Index(i);
      var child := Child(v, schema, step);
      if child.Some? && Validate(child.value.0, child.value.1, path + [step]).Some? {
        RejectionPointsAtViolation(child.value.0, child.value.1, path + [step]);
        PointsThroughChild(v, schema, path, step, Validate(child.value.0, child.value.1, path + [step]).value);
      } else {
        ItemsPoint(v, schema, i + 1, path);
      }
    }
  }

  /** On rejection the reported path leads to a sub-value that breaks the reported rule of its sub-schema. */
  lemma {:induction false} RejectionPointsAtViolation(v: Json, schema: Schema, path: seq<Step>)
    ensures Validate(v, schema, path).Some? ==>
              PointsAtViolation(v, schema, path, Validate(v, schema, path).value)
    decreases v, 1, 0
  {
    HeadViolationIsReal(v, schema);
    assert path[|path|..] == [];
    if HeadViolation(v, schema).None? {
      if v.JObj? {
        PropsPoint(v, schema, PropsOf(schema), path);
        ExtrasPoint(v, schema, v.fields, path);
      } else if v.JArr? {
        ItemsPoint(v, schema, 0, path);
      }
    }
  }

  lemma {:induction false} ReachMeaning(v: Json, j: Json, path: seq<Step>)
    ensures path == [] || j.JObj? ==>
              Reach(v, ReadSchema(j), path) ==
              match PartAt(v, j, path) case None => None case Some(part) => Some((part.0, ReadSchema(part.1)))
    decreases |path|
  {
    hide ReadSchema, Child, Part;
    if path != [] && j.JObj? {
      ChildMeaning(v, j, path[0]);
      if Part(v, j, path[0]).Some? {
        PartHasSchema(v, j, path[0]);
        ReachMeaning(Part(v, j, path[0]).value.0, Part(v, j, path[0]).value.1, path[1..]);
      }
    }
  }

  lemma {:induction false} PartHasSchema(v: Json, j: Json, step: Step)
    requires Part(v, j, step).Some?
    ensures Part(v, j, step).value.1.JObj?
  {
    hide Get;
  }

  /** On rejection the path leads to a part that breaks the reported rule of the schema written for it. */
  lemma {:induction false} RejectionBreaksRule(v: Json, j: Json, path: seq<Step>)
    ensures match Validate(v, ReadSchema(j), path)
            case None => true
            case Some(e) =>
              path <= e.path &&
              match PartAt(v, j, e.path[|path|..])
              case None => false
              case Some(part) => Breaks(part.0, part.1, e.violation)
  {
    hide ReadSchema, Violates, Breaks, Reach, PartAt, Validate;
    RejectionPointsAtViolation(v, ReadSchema(j), path);
    if Validate(v, ReadSchema(j), path).Some? {
      var e := Validate(v, ReadSchema(j), path).value;
      NoSchemaNoReach(v, j, e.path[|path|..]);
      ReachMeaning(v, j, e.path[|path|..]);
      var part := PartAt(v, j, e.path[|path|..]).value;
      RuleMeaning(part.0, part.1, e.violation);
    }
  }

  lemma {:induction false} NoSchemaNoReach(v: Json, j: Json, path: seq<Step>)
    requires Reach(v, ReadSchema(j), path).Some?
    ensures path == [] || j.JObj?
  {
  }

  // ---- Where the validator departs from JSON Schema ----

  /** A schema with this one keyword. */
  function Only(keyword: string, value: Json): Json {
    JObj([Field(keyword, value)])
  }

  lemma {:induction false} GetOnly(keyword: string, value: Json, key: string)
    ensures Get(Only(keyword, value), key) == if key == keyword then Some(value) else None
  {
    assert [Field(keyword, value)][1..] == [];
  }

  /** A schema with nothing but types, options and a rule for extra keys. */
  function Plain(types: TypeSpec, options: seq<Json>, extras: Extras): Schema {
    Schema(types, options, None, None, None, None, [], None, extras, None, None, None)
  }

  /** No keyword but the given one is there. */
  ghost predicate HasOnly(j: Json, keyword: string) {
    j.JObj? && forall key :: key != keyword ==> Get(j, key).None?
  }

  lemma {:induction false} OnlyHasOnly(keyword: string, value: Json)
    ensures HasOnly(Only(keyword, value), keyword) && Get(Only(keyword, value), keyword) == Some(value)
  {
    forall key ensures Get(Only(keyword, value), key) == if key == keyword then Some(value) else None {
      GetOnly(keyword, value, key);
    }
  }

  /** None of the other keywords is there. */
  lemma {:induction false} OtherKeywordsMissing(j: Json, keyword: string)
    requires HasOnly(j, keyword) && keyword in {"type", "enum", "additionalProperties"}
    ensures j.JObj?
    ensures Get(j, "minLength").None? && Get(j, "maxLength").None?
    ensures Get(j, "minimum").None? && Get(j, "maximum").None?
    ensures Get(j, "required").None? && Get(j, "properties").None?
    ensures Get(j, "minItems").None? && Get(j, "maxItems").None? && Get(j, "items").None?
    ensures keyword != "type" ==> Get(j, "type").None?
    ensures keyword != "enum" ==> Get(j, "enum").None?
    ensures keyword != "additionalProperties" ==> Get(j, "additionalProperties").None?
  {
    hide Get;
    assert forall k :: k in {"type", "enum", "additionalProperties"} ==> |k| == 4 || |k| == 20;
  }

  lemma KeywordsDiffer()
    ensures "type" != "enum" && "type" != "additionalProperties" && "enum" != "additionalProperties"
  {
    assert "type"[0] != "enum"[0];
  }

  lemma {:induction false} ReadOnlyType(value: Json)
    ensures ReadSchema(Only("type", value)) == Plain(ReadType(value), [], AllowExtras)
  {
    hide Get, ReadType, Only, HasOnly;
    KeywordsDiffer();
    OnlyHasOnly("type", value);
    OtherKeywordsMissing(Only("type", value), "type");
  }

  lemma {:induction false} ReadOnlyEnum(options: seq<Json>)
    ensures ReadSchema(Only("enum", JArr(options))) == Plain(AnyType, options, AllowExtras)
  {
    hide Get, ReadType, Only, HasOnly;
    KeywordsDiffer();
    OnlyHasOnly("enum", JArr(options));
    OtherKeywordsMissing(Only("enum", JArr(options)), "enum");
  }

  lemma ReadOnlyForbidden()
    ensures ReadSchema(Only("additionalProperties", JBool(false))) == Plain(AnyType, [], ForbidExtras)
  {
    hide Get, ReadType, Only, HasOnly;
    KeywordsDiffer();
    OnlyHasOnly("additionalProperties", JBool(false));
    OtherKeywordsMissing(Only("additionalProperties", JBool(false)), "additionalProperties");
  }

  lemma {:induction false} PlainPasses(v: Json, types: TypeSpec, extras: Extras, path: seq<Step>)
    requires TypeOk(v, types) && !extras.CheckExtras?
    ensures Validate(v, Plain(types, [], extras), path).None?
  {
    var schema := Plain(types, [], extras);
    forall step ensures ChildPasses(v, schema, step, path) {
      assert Child(v, schema, step).None?;
    }
    hide TypeOk;
    ValidatePasses(v, schema, path);
  }

  lemma {:induction false} PlainRejects(v: Json, types: TypeSpec, path: seq<Step>)
    requires !TypeOk(v, types)
    ensures Validate(v, Plain(types, [], AllowExtras), path) == Some(Error(path, WrongType))
  {
    hide TypeOk;
  }

  /** An unknown type, an empty list of options, and forbidden extras without declared properties restrict nothing. */
  lemma {:induction false} IgnoredKeywords(v: Json, name: string, path: seq<Step>)
    requires ReadType(JStr(name)) == AnyType
    ensures Validate(v, ReadSchema(Only("type", JStr(name))), path).None?
    ensures Validate(v, ReadSchema(Only("enum", JArr([]))), path).None?
    ensures Validate(v, ReadSchema(Only("additionalProperties", JBool(false))), path).None?
  {
    ReadOnlyType(JStr(name));
    ReadOnlyEnum([]);
    ReadOnlyForbidden();
    hide ReadSchema, Validate, ReadType;
    PlainPasses(v, AnyType, AllowExtras, path);
    PlainPasses(v, AnyType, ForbidExtras, path);
  }

  lemma ReadTypes()
    ensures ReadType(JArr([])) == OneOf([])
    ensures ReadType(JStr("integer")) == Named(Integer) && ReadType(JStr("number")) == Named(Number)
  {
  }

  /**
   * No value has a type from an empty list, and only an integer is an "integer", not a number like 1.0; as in JSON
   * Schema, a boolean is neither.
   */
  lemma {:induction false} StricterTypes(v: Json, path: seq<Step>)
    ensures Validate(v, ReadSchema(Only("type", JArr([]))), path) == Some(Error(path, WrongType))
    ensures v.JFloat? || v.JBool? ==>
              Validate(v, ReadSchema(Only("type", JStr("integer"))), path) == Some(Error(path, WrongType))
    ensures v.JBool? ==> Validate(v, ReadSchema(Only("type", JStr("number"))), path) == Some(Error(path, WrongType))
  {
    ReadOnlyType(JArr([]));
    ReadOnlyType(JStr("integer"));
    ReadOnlyType(JStr("number"));
    ReadTypes();
    hide ReadSchema, Validate, ReadType;
    PlainRejects(v, OneOf([]), path);
    if v.JBool? || v.JFloat? {
      PlainRejects(v, Named(Integer), path);
    }
    if v.JBool? {
      PlainRejects(v, Named(Number), path);
    }
  }

  /** An enum allows what Python calls equal, so `true` passes for 1, which it does not equal in JSON. */
  lemma {:induction false} EnumUsesPythonEquality(path: seq<Step>)
    ensures Validate(JBool(true), ReadSchema(Only("enum", JArr([JInt(1)]))), path).None?
    ensures Validate(JBool(true), ReadSchema(Only("enum", JArr([JInt(0)]))), path) == Some(Error(path, NotInEnum))
  {
    ReadOnlyEnum([JInt(1)]);
    ReadOnlyEnum([JInt(0)]);
    hide ReadSchema;
    var one, zero := Plain(AnyType, [JInt(1)], AllowExtras), Plain(AnyType, [JInt(0)], AllowExtras);
    assert PyEqual(JBool(true), one.options[0]) && !PyEqual(JBool(true), zero.options[0]);
    assert AllowedByEnum(JBool(true), one.options) && !AllowedByEnum(JBool(true), zero.options);
  }
}
