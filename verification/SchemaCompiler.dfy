/** From a JSON Schema (draft 2020-12) to a MongoDB `$jsonSchema`: what the compiled validator accepts,
    compared with what the schema accepts. */
module SchemaCompiler {
  import opened Common

  // ---------------------------------------------------------------- documents

  /** How a formatted string is stored: as binary data or as a date. */
  datatype Storage = Binary | Date

  /** A stored document. Integers are stored narrow or wide, other numbers as decimal or double, and a
      string under a format in that format's storage. */
  datatype Doc =
    | Null
    | Bool(value: bool)
    | Int(number: int, wide: bool)
    | Fraction(digits: string, decimal: bool)
    | Str(text: string)
    | Formatted(storage: Storage, text: string)
    | Arr(items: seq<Doc>)
    | Obj(fields: map<string, Doc>)

  function BsonTypeOf(v: Doc): string {
    match v
    case Null => "null"
    case Bool(_) => "bool"
    case Int(_, wide) => if wide then "long" else "int"
    case Fraction(_, decimal) => if decimal then "decimal" else "double"
    case Str(_) => "string"
    case Formatted(storage, _) => if storage.Binary? then "binData" else "date"
    case Arr(_) => "array"
    case Obj(_) => "object"
  }

  /** The JSON value of a formatted string is its text. */
  function Plain(v: Doc): Doc { if v.Formatted? then Str(v.text) else v }

  // ---------------------------------------------------------------- schemas

  datatype Ref = Def(name: string) | Foreign(text: string)
  datatype Types = One(name: string) | Many(names: seq<string>)
  datatype Branches = NoBranches | Branches(options: seq<Schema>)
  datatype Properties = NoProperties | Properties(of: map<string, Schema>)
  datatype Additional = Allowed(allowed: bool) | Each(schema: Schema)

  /** A schema object. `limits` are the keywords that both sides give the same meaning; of `const` and
      `enum` the dictionary's order says which comes last. */
  datatype Schema = Schema(
    ref: Option<Ref>, format: Option<string>, types: Option<Types>, properties: Properties,
    items: Option<Schema>, negated: Option<Schema>, additional: Option<Additional>,
    anyOf: Branches, oneOf: Branches, allOf: Branches,
    constant: Option<Doc>, enumeration: Option<seq<Doc>>, constLast: bool,
    required: Option<seq<string>>, limits: map<string, Doc>, annotations: set<string>, unknown: set<string>)

  datatype MongoBranches = NoMongoBranches | MongoBranches(options: seq<Mongo>)
  datatype MongoProperties = NoMongoProperties | MongoProperties(of: map<string, Mongo>)
  datatype MongoAdditional = MongoAllowed(allowed: bool) | MongoEach(schema: Mongo)

  datatype Mongo = Mongo(
    bsonType: Option<seq<string>>, properties: MongoProperties, items: Option<Mongo>, negated: Option<Mongo>,
    additional: Option<MongoAdditional>, anyOf: MongoBranches, oneOf: MongoBranches, allOf: MongoBranches,
    enumeration: Option<seq<Doc>>, required: Option<seq<string>>, limits: map<string, Doc>)

  const ANYTHING := Mongo(None, NoMongoProperties, None, None, None, NoMongoBranches, NoMongoBranches, NoMongoBranches,
                          None, None, map[])

  type Defs = map<string, Schema>

  datatype Unsupported = Unsupported

  const STRING_ONLY := {"pattern", "minLength", "maxLength"}

  function StorageOf(format: string): Option<Storage> {
    if format == "uuid" || format == "base64url" then Some(Binary)
    else if format == "date-time" then Some(Date)
    else None
  }

  function StorageType(storage: Storage): string { if storage.Binary? then "binData" else "date" }

  function MappedType(name: string): seq<string> {
    match name
    case "string" => ["string"]
    case "integer" => ["int", "long"]
    case "number" => ["int", "long", "double", "decimal"]
    case "boolean" => ["bool"]
    case "object" => ["object"]
    case "array" => ["array"]
    case "null" => ["null"]
    case _ => []
  }

  function AddNew(types: seq<string>, more: seq<string>): seq<string> {
    if more == [] then types
    else
      var init := AddNew(types, more[..|more| - 1]);
      if more[|more| - 1] in init then init else init + [more[|more| - 1]]
  }

  /** The BSON types of a list of JSON types, each once; an unknown JSON type is an error. */
  function BsonTypes(names: seq<string>): Result<seq<string>, Unsupported> {
    if names == [] then Ok([])
    else
      var init := BsonTypes(names[..|names| - 1]);
      var mapped := MappedType(names[|names| - 1]);
      if init.Err? || mapped == [] then Err(Unsupported) else Ok(AddNew(init.value, mapped))
  }

  function TypeNames(types: Types): seq<string> { if types.One? then [types.name] else types.names }

  function ConvertTypes(node: Schema): Result<Option<seq<string>>, Unsupported> {
    if node.format.Some? then
      if StorageOf(node.format.value).None? || node.types != Some(One("string")) then Err(Unsupported)
      else Ok(Some([StorageType(StorageOf(node.format.value).value)]))
    else if node.types.None? then Ok(None)
    else
      var types := BsonTypes(TypeNames(node.types.value));
      if types.Err? then Err(Unsupported) else Ok(Some(types.value))
  }

  function Over<T>(base: Option<T>, over: Option<T>): Option<T> { if over.Some? then over else base }

  function OverBranches(base: Branches, over: Branches): Branches { if over.Branches? then over else base }

  /** The definition's dictionary overridden by the keywords beside its reference. */
  function Merged(base: Schema, node: Schema): Schema {
    Schema(base.ref, Over(base.format, node.format), Over(base.types, node.types),
      if node.properties.Properties? then node.properties else base.properties,
      Over(base.items, node.items), Over(base.negated, node.negated), Over(base.additional, node.additional),
      OverBranches(base.anyOf, node.anyOf), OverBranches(base.oneOf, node.oneOf), OverBranches(base.allOf, node.allOf),
      Over(base.constant, node.constant), Over(base.enumeration, node.enumeration),
      if base.constant.Some? && base.enumeration.Some? then base.constLast
      else if base.constant.Some? then false else if base.enumeration.Some? then true else node.constLast,
      Over(base.required, node.required), base.limits + node.limits, base.annotations + node.annotations,
      base.unknown + node.unknown)
  }

  function ConvertEnum(node: Schema): Option<seq<Doc>> {
    if node.constant.Some? && (node.enumeration.None? || node.constLast) then Some([node.constant.value])
    else node.enumeration
  }

  function ConvertLimits(node: Schema): map<string, Doc> {
    if node.format.Some? then map k | k in node.limits && k !in STRING_ONLY :: node.limits[k] else node.limits
  }

  /** The conversion. A reference to a definition that is being converted becomes the schema that
      accepts anything, which is what makes mutually recursive definitions come to an end: either a
      definition more is on the stack, or the node is smaller. */
  function Convert(node: Schema, defs: Defs, stack: set<string>): Result<Mongo, Unsupported>
    decreases |defs.Keys - stack|, node, 1
  {
    if node.ref.Some? then
      if node.ref.value.Foreign? then Err(Unsupported)
      else
        var name := node.ref.value.name;
        if name in stack then Ok(ANYTHING)
        else if name !in defs then Err(Unsupported)
        else
          StackGrows(defs, stack, name);
          Convert(Merged(defs[name], node), defs, stack + {name})
    else
      var types := ConvertTypes(node);
      var properties := ConvertMap(node.properties, defs, stack);
      var items := ConvertOption(node.items, defs, stack);
      var negated := ConvertOption(node.negated, defs, stack);
      var additional := ConvertAdditional(node.additional, defs, stack);
      var anyOf := ConvertList(node.anyOf, defs, stack);
      var oneOf := ConvertList(node.oneOf, defs, stack);
      var allOf := ConvertList(node.allOf, defs, stack);
      if types.Err? || properties.Err? || items.Err? || negated.Err? || additional.Err? || anyOf.Err? || oneOf.Err?
         || allOf.Err? || node.unknown != {} then Err(Unsupported)
      else
        Ok(Mongo(types.value, properties.value, items.value, negated.value, additional.value, anyOf.value, oneOf.value,
                 allOf.value, ConvertEnum(node), node.required, ConvertLimits(node)))
  }

  lemma StackGrows(defs: Defs, stack: set<string>, name: string)
    requires name in defs && name !in stack
    ensures |defs.Keys - (stack + {name})| < |defs.Keys - stack|
  {
    assert defs.Keys - stack == (defs.Keys - (stack + {name})) + {name};
  }

  function ConvertOption(o: Option<Schema>, defs: Defs, stack: set<string>): Result<Option<Mongo>, Unsupported>
    decreases |defs.Keys - stack|, o, 0
  {
    if o.None? then Ok(None)
    else
      var r := Convert(o.value, defs, stack);
      if r.Err? then Err(Unsupported) else Ok(Some(r.value))
  }

  function ConvertAdditional(o: Option<Additional>, defs: Defs, stack: set<string>): Result<Option<MongoAdditional>, Unsupported>
    decreases |defs.Keys - stack|, o, 0
  {
    match o
    case None => Ok(None)
    case Some(Allowed(allowed)) => Ok(Some(MongoAllowed(allowed)))
    case Some(Each(schema)) =>
      var r := Convert(schema, defs, stack);
      if r.Err? then Err(Unsupported) else Ok(Some(MongoEach(r.value)))
  }

  function ConvertAll(o: Branches, defs: Defs, stack: set<string>): (rs: seq<Result<Mongo, Unsupported>>)
    requires o.Branches?
    ensures |rs| == |o.options| && forall i :: 0 <= i < |rs| ==> rs[i] == Convert(o.options[i], defs, stack)
    decreases |defs.Keys - stack|, o, 0
  {
    seq(|o.options|, i requires 0 <= i < |o.options| => Convert(o.options[i], defs, stack))
  }

  function ConvertList(o: Branches, defs: Defs, stack: set<string>): Result<MongoBranches, Unsupported>
    decreases |defs.Keys - stack|, o, 1
  {
    if o.NoBranches? then Ok(NoMongoBranches)
    else
      var rs := ConvertAll(o, defs, stack);
      if exists i :: 0 <= i < |rs| && rs[i].Err? then Err(Unsupported)
      else Ok(MongoBranches(seq(|rs|, i requires 0 <= i < |rs| => rs[i].value)))
  }

  function ConvertMap(o: Properties, defs: Defs, stack: set<string>): Result<MongoProperties, Unsupported>
    decreases |defs.Keys - stack|, o, 0
  {
    if o.NoProperties? then Ok(NoMongoProperties)
    else
      var rs := map n | n in o.of :: Convert(o.of[n], defs, stack);
      if exists n :: n in rs && rs[n].Err? then Err(Unsupported)
      else Ok(MongoProperties(map n | n in rs :: rs[n].value))
  }

  // ---------------------------------------------------------------- what a schema accepts

  /** Whether a limit keyword with its argument holds of a value: the same on both sides. */
  type Holds = (string, Doc, Doc) -> bool

  /** What the definitions accept, by name. */
  type Meaning = (string, Doc) -> bool

  /** The instance that the value keywords of a node look at. */
  function Instance(s: Schema, v: Doc): Doc { if s.format.Some? then Plain(v) else v }

  predicate HasJsonType(name: string, v: Doc, formatted: bool) {
    match name
    case "string" => if formatted then v.Formatted? else v.Str?
    case "integer" => v.Int?
    case "number" => v.Int? || v.Fraction?
    case "boolean" => v.Bool?
    case "object" => v.Obj?
    case "array" => v.Arr?
    case "null" => v.Null?
    case _ => false
  }

  /** A string is stored in the storage of its format exactly where the schema gives it one. */
  predicate SatTypes(s: Schema, v: Doc) {
    && (s.types.Some? ==> exists i :: 0 <= i < |TypeNames(s.types.value)| && HasJsonType(TypeNames(s.types.value)[i], v, s.format.Some?))
    && (s.format.Some? && v.Formatted? ==> StorageOf(s.format.value) == Some(v.storage))
  }

  predicate SatValues(h: Holds, s: Schema, v: Doc) {
    && (s.constant.Some? ==> Instance(s, v) == s.constant.value)
    && (s.enumeration.Some? ==> Instance(s, v) in s.enumeration.value)
    && (s.required.Some? && v.Obj? ==> forall n :: n in s.required.value ==> n in v.fields)
    && (forall k :: k in s.limits ==> h(k, s.limits[k], Instance(s, v)))
  }

  ghost predicate Sat(rho: Meaning, h: Holds, s: Schema, v: Doc)
    decreases s, 1
  {
    && (s.ref.Some? ==> s.ref.value.Def? && rho(s.ref.value.name, v))
    && SatTypes(s, v) && SatValues(h, s, v)
    && SatProperties(rho, h, s.properties, v)
    && SatItems(rho, h, s.items, v)
    && (s.negated.Some? ==> !Sat(rho, h, s.negated.value, v))
    && (s.additional.Some? ==> SatAdditional(rho, h, s.additional.value, Names(s.properties), v))
    && SatAny(rho, h, s.anyOf, v) && SatOne(rho, h, s.oneOf, v) && SatAll(rho, h, s.allOf, v)
  }

  ghost predicate SatItems(rho: Meaning, h: Holds, o: Option<Schema>, v: Doc)
    decreases o, 0
  {
    o.Some? && v.Arr? ==> forall i :: 0 <= i < |v.items| ==> Sat(rho, h, o.value, v.items[i])
  }

  ghost predicate SatAny(rho: Meaning, h: Holds, b: Branches, v: Doc)
    decreases b, 2
  {
    b.Branches? ==> exists i :: 0 <= i < |b.options| && Sat(rho, h, b.options[i], v)
  }

  ghost predicate SatOne(rho: Meaning, h: Holds, b: Branches, v: Doc)
    decreases b, 2
  {
    b.Branches? ==> exists i :: (0 <= i < |b.options| && Sat(rho, h, b.options[i], v)
      && forall j :: 0 <= j < |b.options| && j != i ==> !Sat(rho, h, b.options[j], v))
  }

  ghost predicate SatAll(rho: Meaning, h: Holds, b: Branches, v: Doc)
    decreases b, 2
  {
    b.Branches? ==> forall i :: 0 <= i < |b.options| ==> Sat(rho, h, b.options[i], v)
  }

  function Names(p: Properties): set<string> { if p.Properties? then p.of.Keys else {} }

  ghost predicate SatProperties(rho: Meaning, h: Holds, p: Properties, v: Doc)
    decreases p, 0
  {
    p.Properties? && v.Obj? ==> forall n :: n in p.of && n in v.fields ==> Sat(rho, h, p.of[n], v.fields[n])
  }

  ghost predicate SatAdditional(rho: Meaning, h: Holds, a: Additional, names: set<string>, v: Doc)
    decreases a, 0
  {
    v.Obj? ==> forall n :: n in v.fields && n !in names ==>
      if a.Allowed? then a.allowed else Sat(rho, h, a.schema, v.fields[n])
  }

  /** A meaning of the definitions that agrees with each of their schemas. */
  ghost predicate Consistent(rho: Meaning, h: Holds, defs: Defs) {
    forall n, v :: n in defs ==> (rho(n, v) <==> Sat(rho, h, defs[n], v))
  }

  // ---------------------------------------------------------------- what a validator accepts

  ghost predicate Accepts(h: Holds, m: Mongo, v: Doc)
    decreases m, 1
  {
    && (m.bsonType.Some? ==> BsonTypeOf(v) in m.bsonType.value)
    && AcceptsValues(h, m, v)
    && AcceptsProperties(h, m.properties, v)
    && AcceptsItems(h, m.items, v)
    && (m.negated.Some? ==> !Accepts(h, m.negated.value, v))
    && (m.additional.Some? ==> AcceptsAdditional(h, m.additional.value, MongoNames(m.properties), v))
    && AcceptsAny(h, m.anyOf, v) && AcceptsOne(h, m.oneOf, v) && AcceptsAll(h, m.allOf, v)
  }

  ghost predicate AcceptsItems(h: Holds, o: Option<Mongo>, v: Doc)
    decreases o, 0
  {
    o.Some? && v.Arr? ==> forall i :: 0 <= i < |v.items| ==> Accepts(h, o.value, v.items[i])
  }

  ghost predicate AcceptsAny(h: Holds, b: MongoBranches, v: Doc)
    decreases b, 2
  {
    b.MongoBranches? ==> exists i :: 0 <= i < |b.options| && Accepts(h, b.options[i], v)
  }

  ghost predicate AcceptsOne(h: Holds, b: MongoBranches, v: Doc)
    decreases b, 2
  {
    b.MongoBranches? ==> exists i :: (0 <= i < |b.options| && Accepts(h, b.options[i], v)
      && forall j :: 0 <= j < |b.options| && j != i ==> !Accepts(h, b.options[j], v))
  }

  ghost predicate AcceptsAll(h: Holds, b: MongoBranches, v: Doc)
    decreases b, 2
  {
    b.MongoBranches? ==> forall i :: 0 <= i < |b.options| ==> Accepts(h, b.options[i], v)
  }

  predicate AcceptsValues(h: Holds, m: Mongo, v: Doc) {
    && (m.enumeration.Some? ==> v in m.enumeration.value)
    && (m.required.Some? && v.Obj? ==> forall n :: n in m.required.value ==> n in v.fields)
    && (forall k :: k in m.limits ==> h(k, m.limits[k], v))
  }

  function MongoNames(p: MongoProperties): set<string> { if p.MongoProperties? then p.of.Keys else {} }

  ghost predicate AcceptsProperties(h: Holds, p: MongoProperties, v: Doc)
    decreases p, 0
  {
    p.MongoProperties? && v.Obj? ==> forall n :: n in p.of && n in v.fields ==> Accepts(h, p.of[n], v.fields[n])
  }

  ghost predicate AcceptsAdditional(h: Holds, a: MongoAdditional, names: set<string>, v: Doc)
    decreases a, 0
  {
    v.Obj? ==> forall n :: n in v.fields && n !in names ==>
      if a.MongoAllowed? then a.allowed else Accepts(h, a.schema, v.fields[n])
  }

  // ---------------------------------------------------------------- the schemas the compiler is faithful to

  predicate OnlyAnnotations(node: Schema) {
    && node.format.None? && node.types.None? && node.properties.NoProperties? && node.items.None? && node.negated.None?
    && node.additional.None? && node.anyOf.NoBranches? && node.oneOf.NoBranches? && node.allOf.NoBranches?
    && node.constant.None? && node.enumeration.None? && node.required.None? && node.limits == map[] && node.unknown == {}
  }

  /** Nothing but annotations beside a reference and no listed values under a format, and beneath a
      `not` or `oneOf` nothing that is dropped. When `exact`, nothing is dropped anywhere: no reference
      to a definition being converted, no length or pattern under a format, no `const` beside `enum`. */
  predicate Faithful(node: Schema, defs: Defs, stack: set<string>, exact: bool)
    decreases |defs.Keys - stack|, node, 1
  {
    if node.ref.Some? then
      OnlyAnnotations(node)
      && (node.ref.value.Def? ==>
            if node.ref.value.name in stack then !exact
            else if node.ref.value.name !in defs then true
            else
              StackGrows(defs, stack, node.ref.value.name);
              Faithful(Merged(defs[node.ref.value.name], node), defs, stack + {node.ref.value.name}, exact))
    else
      && (node.format.Some? ==> node.constant.None? && node.enumeration.None?)
      && (exact ==> KeepsAll(node))
      && FaithfulMap(node.properties, defs, stack, exact)
      && FaithfulOption(node.items, defs, stack, exact)
      && FaithfulOption(node.negated, defs, stack, true)
      && FaithfulAdditional(node.additional, defs, stack, exact)
      && FaithfulList(node.anyOf, defs, stack, exact)
      && FaithfulList(node.oneOf, defs, stack, true)
      && FaithfulList(node.allOf, defs, stack, exact)
  }

  predicate KeepsAll(node: Schema) {
    && (node.constant.None? || node.enumeration.None?)
    && (node.format.Some? ==> forall k :: k in node.limits ==> k !in STRING_ONLY)
  }

  predicate FaithfulOption(o: Option<Schema>, defs: Defs, stack: set<string>, exact: bool)
    decreases |defs.Keys - stack|, o, 0
  {
    o.Some? ==> Faithful(o.value, defs, stack, exact)
  }

  predicate FaithfulAdditional(o: Option<Additional>, defs: Defs, stack: set<string>, exact: bool)
    decreases |defs.Keys - stack|, o, 0
  {
    match o
    case Some(Each(schema)) => Faithful(schema, defs, stack, exact)
    case _ => true
  }

  predicate FaithfulList(o: Branches, defs: Defs, stack: set<string>, exact: bool)
    decreases |defs.Keys - stack|, o, 0
  {
    o.Branches? ==> forall i :: 0 <= i < |o.options| ==> Faithful(o.options[i], defs, stack, exact)
  }

  predicate FaithfulMap(o: Properties, defs: Defs, stack: set<string>, exact: bool)
    decreases |defs.Keys - stack|, o, 0
  {
    o.Properties? ==> forall n :: n in o.of ==> Faithful(o.of[n], defs, stack, exact)
  }

  /** Limits other than those on text say nothing about text. */
  ghost predicate TextLimitsOnly(h: Holds) {
    forall k, a, v: Doc :: k !in STRING_ONLY && (v.Str? || v.Formatted?) ==> h(k, a, v)
  }

  /** What the schema accepts the validator accepts, and the other way round when exact. */
  predicate Agree(exact: bool, sat: bool, accepts: bool) { (sat ==> accepts) && (exact && accepts ==> sat) }

  // ---------------------------------------------------------------- one node

  lemma {:induction false} AddNewHolds(types: seq<string>, more: seq<string>)
    ensures forall t :: t in AddNew(types, more) <==> t in types || t in more
  {
    if more != [] { AddNewHolds(types, more[..|more| - 1]); }
  }

  lemma {:induction false} TypesAgree(names: seq<string>, v: Doc)
    requires BsonTypes(names).Ok?
    ensures BsonTypeOf(v) in BsonTypes(names).value <==> exists i :: 0 <= i < |names| && HasJsonType(names[i], v, false)
  {
    if names != [] {
      var init, last := names[..|names| - 1], names[|names| - 1];
      TypesAgree(init, v);
      AddNewHolds(BsonTypes(init).value, MappedType(last));
      OneTypeAgrees(last, v);
      if i :| 0 <= i < |init| && HasJsonType(init[i], v, false) {
        assert HasJsonType(names[i], v, false);
      }
      if HasJsonType(last, v, false) { assert HasJsonType(names[|names| - 1], v, false); }
    }
  }

  lemma OneTypeAgrees(name: string, v: Doc)
    requires MappedType(name) != []
    ensures BsonTypeOf(v) in MappedType(name) <==> HasJsonType(name, v, false)
  {
  }

  lemma NodeTypesAgree(s: Schema, v: Doc)
    requires ConvertTypes(s).Ok?
    ensures SatTypes(s, v) <==> (ConvertTypes(s).value.Some? ==> BsonTypeOf(v) in ConvertTypes(s).value.value)
    ensures s.format.Some? && SatTypes(s, v) ==> v.Formatted?
  {
    if s.format.Some? {
      assert TypeNames(s.types.value) == ["string"];
      assert HasJsonType(TypeNames(s.types.value)[0], v, true) <==> v.Formatted?;
    } else if s.types.Some? {
      TypesAgree(TypeNames(s.types.value), v);
    }
  }

  /** How each format is stored: what a converted node accepts under it has the BSON type of its format. */
  lemma FormatStored(h: Holds, node: Schema, defs: Defs, stack: set<string>, v: Doc)
    requires node.ref.None? && node.format.Some? && Convert(node, defs, stack).Ok?
    requires Accepts(h, Convert(node, defs, stack).value, v)
    ensures node.format == Some("date-time") ==> BsonTypeOf(v) == "date"
    ensures node.format == Some("uuid") || node.format == Some("base64url") ==> BsonTypeOf(v) == "binData"
    ensures node.format in {Some("date-time"), Some("uuid"), Some("base64url")}
  {
  }

  /** Under a format a node converts exactly when the format is one of the three, the type is string, and
      the rest of it converts. */
  lemma FormatConvertsExactlyWhen(node: Schema, defs: Defs, stack: set<string>)
    requires node.ref.None? && node.format.Some?
    ensures Convert(node, defs, stack).Ok? <==>
      && node.format in {Some("date-time"), Some("uuid"), Some("base64url")} && node.types == Some(One("string"))
      && Convert(node.(format := None), defs, stack).Ok?
  {
    if node.types == Some(One("string")) {
      assert ["string"][..|["string"]| - 1] == [];
      assert BsonTypes(["string"]).Ok?;
    }
  }

  /** The limits a converted node keeps: all, or under a format all but those on text. */
  lemma LimitsKept(node: Schema, defs: Defs, stack: set<string>, k: string)
    requires node.ref.None? && Convert(node, defs, stack).Ok?
    ensures var kept := Convert(node, defs, stack).value.limits;
            && (k in kept <==> k in node.limits && (node.format.Some? ==> k != "pattern" && k != "minLength" && k != "maxLength"))
            && (k in kept ==> kept[k] == node.limits[k])
  {
  }

  lemma NodeValuesAgree(h: Holds, s: Schema, m: Mongo, v: Doc, exact: bool)
    requires TextLimitsOnly(h) && (s.format.Some? ==> v.Formatted? && s.constant.None? && s.enumeration.None?)
    requires exact ==> KeepsAll(s)
    requires m.enumeration == ConvertEnum(s) && m.required == s.required && m.limits == ConvertLimits(s)
    ensures Agree(exact, SatValues(h, s, v), AcceptsValues(h, m, v))
  {
  }

  // ---------------------------------------------------------------- the whole schema

  /** What the validator accepts is what the schema accepts: at least that when the compiler is
      faithful to it, exactly that when nothing is dropped. */
  lemma {:induction false} Compiles(rho: Meaning, h: Holds, node: Schema, defs: Defs, stack: set<string>, exact: bool, v: Doc)
    requires Consistent(rho, h, defs) && TextLimitsOnly(h)
    requires Faithful(node, defs, stack, exact) && Convert(node, defs, stack).Ok?
    ensures Agree(exact, Sat(rho, h, node, v), Accepts(h, Convert(node, defs, stack).value, v))
    decreases |defs.Keys - stack|, node, 2
  {
    if node.ref.None? {
      NodeCompiles(rho, h, node, defs, stack, exact, v);
    } else if node.ref.value.name !in stack {
      RefCompiles(rho, h, node, defs, stack, exact, v);
    }
  }

  lemma {:induction false} RefCompiles(rho: Meaning, h: Holds, node: Schema, defs: Defs, stack: set<string>, exact: bool, v: Doc)
    requires Consistent(rho, h, defs) && TextLimitsOnly(h)
    requires Faithful(node, defs, stack, exact) && Convert(node, defs, stack).Ok?
    requires node.ref.Some? && node.ref.value.name !in stack
    ensures Agree(exact, Sat(rho, h, node, v), Accepts(h, Convert(node, defs, stack).value, v))
    decreases |defs.Keys - stack|, node, 0
  {
    var name := node.ref.value.name;
    var merged, deeper := Merged(defs[name], node), stack + {name};
    StackGrows(defs, stack, name);
    RefUnfolds(node, defs, stack, exact);
    RefMeansDefinition(rho, h, node, defs, v);
    Compiles(rho, h, merged, defs, deeper, exact, v);
    MergedMeansTheSame(rho, h, defs[name], node, v);
  }

  /** Converting a reference, and asking whether that is faithful, is asking about its definition. */
  lemma RefUnfolds(node: Schema, defs: Defs, stack: set<string>, exact: bool)
    requires node.ref.Some? && node.ref.value.Def? && node.ref.value.name !in stack
    requires Faithful(node, defs, stack, exact) && Convert(node, defs, stack).Ok?
    ensures node.ref.value.name in defs && OnlyAnnotations(node)
    ensures var merged := Merged(defs[node.ref.value.name], node);
            && Convert(node, defs, stack) == Convert(merged, defs, stack + {node.ref.value.name})
            && Faithful(merged, defs, stack + {node.ref.value.name}, exact)
  {
    if node.ref.value.name in defs { StackGrows(defs, stack, node.ref.value.name); }
  }

  lemma RefMeansDefinition(rho: Meaning, h: Holds, node: Schema, defs: Defs, v: Doc)
    requires Consistent(rho, h, defs) && node.ref.Some? && node.ref.value.Def? && OnlyAnnotations(node)
    ensures node.ref.value.name in defs ==> (Sat(rho, h, node, v) <==> Sat(rho, h, defs[node.ref.value.name], v))
  {
    assert node.ref.value.name in defs ==> (rho(node.ref.value.name, v) <==> Sat(rho, h, defs[node.ref.value.name], v));
  }

  lemma ConvertedParts(node: Schema, defs: Defs, stack: set<string>)
    requires node.ref.None? && Convert(node, defs, stack).Ok?
    ensures var m := Convert(node, defs, stack).value;
            && ConvertTypes(node) == Ok(m.bsonType) && ConvertMap(node.properties, defs, stack) == Ok(m.properties)
            && ConvertOption(node.items, defs, stack) == Ok(m.items) && ConvertOption(node.negated, defs, stack) == Ok(m.negated)
            && ConvertAdditional(node.additional, defs, stack) == Ok(m.additional)
            && ConvertList(node.anyOf, defs, stack) == Ok(m.anyOf) && ConvertList(node.oneOf, defs, stack) == Ok(m.oneOf)
            && ConvertList(node.allOf, defs, stack) == Ok(m.allOf)
            && m.enumeration == ConvertEnum(node) && m.required == node.required && m.limits == ConvertLimits(node)
  {
  }

  lemma FaithfulParts(node: Schema, defs: Defs, stack: set<string>, exact: bool)
    requires node.ref.None? && Faithful(node, defs, stack, exact)
    ensures (node.format.Some? ==> node.constant.None? && node.enumeration.None?) && (exact ==> KeepsAll(node))
    ensures FaithfulMap(node.properties, defs, stack, exact) && FaithfulOption(node.items, defs, stack, exact)
    ensures FaithfulOption(node.negated, defs, stack, true) && FaithfulAdditional(node.additional, defs, stack, exact)
    ensures FaithfulList(node.anyOf, defs, stack, exact) && FaithfulList(node.oneOf, defs, stack, true)
    ensures FaithfulList(node.allOf, defs, stack, exact)
  {
  }

  lemma {:induction false} NodeCompiles(rho: Meaning, h: Holds, node: Schema, defs: Defs, stack: set<string>, exact: bool, v: Doc)
    requires Consistent(rho, h, defs) && TextLimitsOnly(h) && node.ref.None?
    requires Faithful(node, defs, stack, exact) && Convert(node, defs, stack).Ok?
    ensures Agree(exact, Sat(rho, h, node, v), Accepts(h, Convert(node, defs, stack).value, v))
    decreases |defs.Keys - stack|, node, 1
  {
    ValuesCompile(h, node, defs, stack, exact, v);
    StructureCompiles(rho, h, node, defs, stack, exact, v);
    BranchesCompile(rho, h, node, defs, stack, exact, v);
    PartsAgree(rho, h, node, Convert(node, defs, stack).value, exact, v);
  }

  ghost predicate ValuesAgree(h: Holds, s: Schema, m: Mongo, exact: bool, v: Doc) {
    && (SatTypes(s, v) <==> (m.bsonType.Some? ==> BsonTypeOf(v) in m.bsonType.value))
    && (SatTypes(s, v) ==> Agree(exact, SatValues(h, s, v), AcceptsValues(h, m, v)))
  }

  ghost predicate StructureAgrees(rho: Meaning, h: Holds, s: Schema, m: Mongo, exact: bool, v: Doc) {
    && Agree(exact, SatProperties(rho, h, s.properties, v), AcceptsProperties(h, m.properties, v))
    && Names(s.properties) == MongoNames(m.properties)
    && Agree(exact, SatItems(rho, h, s.items, v), AcceptsItems(h, m.items, v))
    && (s.negated.Some? <==> m.negated.Some?)
    && (s.negated.Some? ==> (Sat(rho, h, s.negated.value, v) <==> Accepts(h, m.negated.value, v)))
    && (s.additional.Some? <==> m.additional.Some?)
    && (s.additional.Some? ==> Agree(exact, SatAdditional(rho, h, s.additional.value, Names(s.properties), v),
                                     AcceptsAdditional(h, m.additional.value, Names(s.properties), v)))
  }

  ghost predicate BranchesAgree(rho: Meaning, h: Holds, s: Schema, m: Mongo, exact: bool, v: Doc) {
    && Agree(exact, SatAny(rho, h, s.anyOf, v), AcceptsAny(h, m.anyOf, v))
    && (SatOne(rho, h, s.oneOf, v) <==> AcceptsOne(h, m.oneOf, v))
    && Agree(exact, SatAll(rho, h, s.allOf, v), AcceptsAll(h, m.allOf, v))
  }

  lemma ValuesCompile(h: Holds, node: Schema, defs: Defs, stack: set<string>, exact: bool, v: Doc)
    requires TextLimitsOnly(h) && node.ref.None? && Faithful(node, defs, stack, exact) && Convert(node, defs, stack).Ok?
    ensures ValuesAgree(h, node, Convert(node, defs, stack).value, exact, v)
  {
    ConvertedParts(node, defs, stack);
    FaithfulParts(node, defs, stack, exact);
    NodeTypesAgree(node, v);
    if SatTypes(node, v) { NodeValuesAgree(h, node, Convert(node, defs, stack).value, v, exact); }
  }

  lemma {:induction false} StructureCompiles(rho: Meaning, h: Holds, node: Schema, defs: Defs, stack: set<string>, exact: bool, v: Doc)
    requires Consistent(rho, h, defs) && TextLimitsOnly(h) && node.ref.None?
    requires Faithful(node, defs, stack, exact) && Convert(node, defs, stack).Ok?
    ensures StructureAgrees(rho, h, node, Convert(node, defs, stack).value, exact, v)
    decreases |defs.Keys - stack|, node, 0
  {
    ConvertedParts(node, defs, stack);
    FaithfulParts(node, defs, stack, exact);
    PropertiesAgree(rho, h, node.properties, defs, stack, exact, v);
    ItemsAgree(rho, h, node.items, defs, stack, exact, v);
    OptionAgrees(rho, h, node.negated, defs, stack, true, v);
    AdditionalAgrees(rho, h, node.additional, Names(node.properties), defs, stack, exact, v);
  }

  lemma {:induction false} BranchesCompile(rho: Meaning, h: Holds, node: Schema, defs: Defs, stack: set<string>, exact: bool, v: Doc)
    requires Consistent(rho, h, defs) && TextLimitsOnly(h) && node.ref.None?
    requires Faithful(node, defs, stack, exact) && Convert(node, defs, stack).Ok?
    ensures BranchesAgree(rho, h, node, Convert(node, defs, stack).value, exact, v)
    decreases |defs.Keys - stack|, node, 0
  {
    ConvertedParts(node, defs, stack);
    FaithfulParts(node, defs, stack, exact);
    ListAgrees(rho, h, node.anyOf, defs, stack, exact, v);
    ListAgrees(rho, h, node.oneOf, defs, stack, true, v);
    ListAgrees(rho, h, node.allOf, defs, stack, exact, v);
  }

  lemma MergedMeansTheSame(rho: Meaning, h: Holds, base: Schema, node: Schema, v: Doc)
    requires OnlyAnnotations(node)
    ensures Sat(rho, h, Merged(base, node), v) <==> Sat(rho, h, base, v)
  {
    assert base.limits + node.limits == base.limits && base.unknown + node.unknown == base.unknown;
    var merged := Merged(base, node);
    assert merged == base.(annotations := merged.annotations, constLast := merged.constLast);
    AnnotationsMeanNothing(rho, h, base, merged.annotations, merged.constLast, v);
  }

  lemma AnnotationsMeanNothing(rho: Meaning, h: Holds, s: Schema, annotations: set<string>, constLast: bool, v: Doc)
    ensures Sat(rho, h, s.(annotations := annotations, constLast := constLast), v) <==> Sat(rho, h, s, v)
  {
  }

  /** A node agrees when all its parts do. */
  lemma PartsAgree(rho: Meaning, h: Holds, s: Schema, m: Mongo, exact: bool, v: Doc)
    requires s.ref.None?
    requires ValuesAgree(h, s, m, exact, v) && StructureAgrees(rho, h, s, m, exact, v) && BranchesAgree(rho, h, s, m, exact, v)
    ensures Agree(exact, Sat(rho, h, s, v), Accepts(h, m, v))
  {
  }

  lemma {:induction false} OptionAgrees(rho: Meaning, h: Holds, o: Option<Schema>, defs: Defs, stack: set<string>, exact: bool, v: Doc)
    requires Consistent(rho, h, defs) && TextLimitsOnly(h)
    requires FaithfulOption(o, defs, stack, exact) && ConvertOption(o, defs, stack).Ok?
    ensures o.Some? <==> ConvertOption(o, defs, stack).value.Some?
    ensures o.Some? ==> Agree(exact, Sat(rho, h, o.value, v), Accepts(h, ConvertOption(o, defs, stack).value.value, v))
    decreases |defs.Keys - stack|, o, 0
  {
    if o.Some? { Compiles(rho, h, o.value, defs, stack, exact, v); }
  }

  lemma {:induction false} ItemsAgree(rho: Meaning, h: Holds, o: Option<Schema>, defs: Defs, stack: set<string>, exact: bool, v: Doc)
    requires Consistent(rho, h, defs) && TextLimitsOnly(h)
    requires FaithfulOption(o, defs, stack, exact) && ConvertOption(o, defs, stack).Ok?
    ensures Agree(exact, SatItems(rho, h, o, v), AcceptsItems(h, ConvertOption(o, defs, stack).value, v))
    decreases |defs.Keys - stack|, o, 1
  {
    if o.Some? && v.Arr? {
      forall i | 0 <= i < |v.items|
        ensures Agree(exact, Sat(rho, h, o.value, v.items[i]), Accepts(h, ConvertOption(o, defs, stack).value.value, v.items[i]))
      {
        OptionAgrees(rho, h, o, defs, stack, exact, v.items[i]);
      }
    }
  }

  lemma {:induction false} PropertiesAgree(rho: Meaning, h: Holds, o: Properties, defs: Defs, stack: set<string>, exact: bool, v: Doc)
    requires Consistent(rho, h, defs) && TextLimitsOnly(h)
    requires FaithfulMap(o, defs, stack, exact) && ConvertMap(o, defs, stack).Ok?
    ensures Agree(exact, SatProperties(rho, h, o, v), AcceptsProperties(h, ConvertMap(o, defs, stack).value, v))
    ensures MongoNames(ConvertMap(o, defs, stack).value) == Names(o)
    decreases |defs.Keys - stack|, o, 0
  {
    if o.Properties? && v.Obj? {
      var p := ConvertMap(o, defs, stack).value;
      forall n | n in o.of && n in v.fields
        ensures Agree(exact, Sat(rho, h, o.of[n], v.fields[n]), Accepts(h, p.of[n], v.fields[n]))
      {
        Compiles(rho, h, o.of[n], defs, stack, exact, v.fields[n]);
      }
    }
  }

  lemma {:induction false} AdditionalAgrees(rho: Meaning, h: Holds, o: Option<Additional>, names: set<string>, defs: Defs,
                                            stack: set<string>, exact: bool, v: Doc)
    requires Consistent(rho, h, defs) && TextLimitsOnly(h)
    requires FaithfulAdditional(o, defs, stack, exact) && ConvertAdditional(o, defs, stack).Ok?
    ensures o.Some? ==> Agree(exact, SatAdditional(rho, h, o.value, names, v),
                              AcceptsAdditional(h, ConvertAdditional(o, defs, stack).value.value, names, v))
    ensures o.Some? <==> ConvertAdditional(o, defs, stack).value.Some?
    decreases |defs.Keys - stack|, o, 0
  {
    if o.Some? && o.value.Each? && v.Obj? {
      var a := ConvertAdditional(o, defs, stack).value.value;
      forall n | n in v.fields
        ensures Agree(exact, Sat(rho, h, o.value.schema, v.fields[n]), Accepts(h, a.schema, v.fields[n]))
      {
        Compiles(rho, h, o.value.schema, defs, stack, exact, v.fields[n]);
      }
    }
  }

  lemma {:induction false} ListAgrees(rho: Meaning, h: Holds, o: Branches, defs: Defs, stack: set<string>, exact: bool, v: Doc)
    requires Consistent(rho, h, defs) && TextLimitsOnly(h)
    requires FaithfulList(o, defs, stack, exact) && ConvertList(o, defs, stack).Ok?
    ensures var b := ConvertList(o, defs, stack).value;
            && Agree(exact, SatAny(rho, h, o, v), AcceptsAny(h, b, v))
            && Agree(exact, SatAll(rho, h, o, v), AcceptsAll(h, b, v))
            && (exact ==> (SatOne(rho, h, o, v) <==> AcceptsOne(h, b, v)))
    decreases |defs.Keys - stack|, o, 0
  {
    if o.Branches? {
      var b := ConvertList(o, defs, stack).value;
      assert forall i :: 0 <= i < |o.options| ==> !ConvertAll(o, defs, stack)[i].Err?;
      forall i | 0 <= i < |o.options| ensures Agree(exact, Sat(rho, h, o.options[i], v), Accepts(h, b.options[i], v)) {
        Compiles(rho, h, o.options[i], defs, stack, exact, v);
      }
      AnyAgree(rho, h, o, b, exact, v);
      AllAgree(rho, h, o, b, exact, v);
      if exact { OneAgree(rho, h, o, b, v); }
    }
  }

  lemma AnyAgree(rho: Meaning, h: Holds, o: Branches, b: MongoBranches, exact: bool, v: Doc)
    requires o.Branches? && b.MongoBranches? && |o.options| == |b.options|
    requires forall i :: 0 <= i < |o.options| ==> Agree(exact, Sat(rho, h, o.options[i], v), Accepts(h, b.options[i], v))
    ensures Agree(exact, SatAny(rho, h, o, v), AcceptsAny(h, b, v))
  {
  }

  lemma AllAgree(rho: Meaning, h: Holds, o: Branches, b: MongoBranches, exact: bool, v: Doc)
    requires o.Branches? && b.MongoBranches? && |o.options| == |b.options|
    requires forall i :: 0 <= i < |o.options| ==> Agree(exact, Sat(rho, h, o.options[i], v), Accepts(h, b.options[i], v))
    ensures Agree(exact, SatAll(rho, h, o, v), AcceptsAll(h, b, v))
  {
  }

  lemma OneAgree(rho: Meaning, h: Holds, o: Branches, b: MongoBranches, v: Doc)
    requires o.Branches? && b.MongoBranches? && |o.options| == |b.options|
    requires forall i :: 0 <= i < |o.options| ==> (Sat(rho, h, o.options[i], v) <==> Accepts(h, b.options[i], v))
    ensures SatOne(rho, h, o, v) <==> AcceptsOne(h, b, v)
  {
  }

  // ---------------------------------------------------------------- the validator of a collection

  /** How a collection's validator is made from its contract. */
  datatype Recipe = Recipe(openTopLevel: bool, extra: map<string, Mongo>, required: seq<string>)

  function Opened(body: Mongo, openTopLevel: bool): Mongo { if openTopLevel then body.(additional := None) else body }

  /** Adds the fields the contract does not have; those it has keep the contract's schema. */
  function Extended(body: Mongo, extra: map<string, Mongo>): Mongo {
    if extra == map[] then body
    else body.(properties := MongoProperties(extra + if body.properties.MongoProperties? then body.properties.of else map[]))
  }

  function MongoValidator(schema: Schema, defs: Defs, openTopLevel: bool, extra: map<string, Mongo>): Result<Mongo, Unsupported> {
    var body := Convert(schema, defs, {});
    if body.Err? then Err(Unsupported) else Ok(Extended(Opened(body.value, openTopLevel), extra))
  }

  function Demanding(body: Mongo, required: seq<string>): Mongo {
    if required == [] then body
    else body.(required := Some(AddNew(if body.required.Some? then body.required.value else [], required)))
  }

  function Build(recipe: Recipe, schema: Schema, defs: Defs): Result<Mongo, Unsupported> {
    var body := MongoValidator(schema, defs, recipe.openTopLevel, recipe.extra);
    if body.Err? || exists i :: 0 <= i < |recipe.required| && recipe.required[i] !in MongoNames(body.value.properties)
    then Err(Unsupported)
    else Ok(Demanding(body.value, recipe.required))
  }

  predicate HasAll(v: Doc, names: seq<string>) { v.Obj? ==> forall i :: 0 <= i < |names| ==> names[i] in v.fields }

  lemma DemandingAsksFor(h: Holds, body: Mongo, required: seq<string>, v: Doc)
    ensures Accepts(h, Demanding(body, required), v) <==> Accepts(h, body, v) && HasAll(v, required)
  {
    if required != [] {
      AddNewHolds(if body.required.Some? then body.required.value else [], required);
      assert forall i :: 0 <= i < |required| ==> required[i] in required;
    }
  }

  /** The fields of a document that only the extra properties know, as they should be stored. */
  ghost predicate ExtraFit(h: Holds, body: Mongo, extra: map<string, Mongo>, v: Doc) {
    v.Obj? ==> forall n :: n in extra && n !in MongoNames(body.properties) && n in v.fields ==> Accepts(h, extra[n], v.fields[n])
  }

  predicate NoExtra(body: Mongo, extra: map<string, Mongo>, v: Doc) {
    v.Obj? ==> forall n :: n in extra && n !in MongoNames(body.properties) ==> n !in v.fields
  }

  lemma ExtendedProperties(h: Holds, body: Mongo, extra: map<string, Mongo>, v: Doc)
    ensures AcceptsProperties(h, Extended(body, extra).properties, v) <==>
      AcceptsProperties(h, body.properties, v) && ExtraFit(h, body, extra, v)
    ensures MongoNames(Extended(body, extra).properties) == MongoNames(body.properties) + extra.Keys
  {
    var of := if body.properties.MongoProperties? then body.properties.of else map[];
    assert forall n :: n in of ==> (extra + of)[n] == of[n];
    assert forall n :: n in extra && n !in of ==> (extra + of)[n] == extra[n];
  }

  /** Extra properties reject nothing but extra fields that are stored wrongly, and without such fields
      they accept nothing new. */
  lemma ExtendedAccepts(h: Holds, body: Mongo, extra: map<string, Mongo>, v: Doc)
    ensures Accepts(h, body, v) && ExtraFit(h, body, extra, v) ==> Accepts(h, Extended(body, extra), v)
    ensures NoExtra(body, extra, v) ==> (Accepts(h, Extended(body, extra), v) <==> Accepts(h, body, v))
  {
    ExtendedProperties(h, body, extra, v);
    var more := Extended(body, extra);
    if body.additional.Some? {
      assert AcceptsAdditional(h, body.additional.value, MongoNames(body.properties), v) ==>
        AcceptsAdditional(h, body.additional.value, MongoNames(more.properties), v);
    }
  }

  lemma OpenedAccepts(h: Holds, body: Mongo, v: Doc)
    requires Accepts(h, body, v)
    ensures Accepts(h, Opened(body, true), v)
  {
  }

  /** A document that the contract accepts, with the fields the recipe demands and its extra fields
      stored as the recipe says, is accepted by the built validator; without extra fields and with the
      top level closed, nothing else is. */
  lemma BuildIsFaithful(rho: Meaning, h: Holds, recipe: Recipe, schema: Schema, defs: Defs, exact: bool, v: Doc)
    requires Consistent(rho, h, defs) && TextLimitsOnly(h)
    requires Faithful(schema, defs, {}, exact) && Build(recipe, schema, defs).Ok?
    ensures var body, built := Convert(schema, defs, {}).value, Build(recipe, schema, defs).value;
            && (Sat(rho, h, schema, v) && HasAll(v, recipe.required) && ExtraFit(h, body, recipe.extra, v) ==> Accepts(h, built, v))
            && (exact && !recipe.openTopLevel && NoExtra(body, recipe.extra, v) ==>
                  (Accepts(h, built, v) <==> Sat(rho, h, schema, v) && HasAll(v, recipe.required)))
  {
    var body := Convert(schema, defs, {}).value;
    Compiles(rho, h, schema, defs, {}, exact, v);
    if Accepts(h, body, v) { OpenedAccepts(h, body, v); }
    ExtendedAccepts(h, Opened(body, recipe.openTopLevel), recipe.extra, v);
    DemandingAsksFor(h, Extended(Opened(body, recipe.openTopLevel), recipe.extra), recipe.required, v);
  }

  // ---------------------------------------------------------------- why each condition is there

  const EMPTY := Schema(None, None, None, NoProperties, None, None, None, NoBranches, NoBranches, NoBranches, None, None, false,
                        None, map[], {}, {})

  const CLOSED_X := EMPTY.(properties := Properties(map["x" := EMPTY]), additional := Some(Allowed(false)))
  const CLOSED_X_AND_Y := EMPTY.(ref := Some(Def("A")), properties := Properties(map["y" := EMPTY]))

  lemma EmptyConverts(defs: Defs, stack: set<string>)
    ensures Convert(EMPTY, defs, stack) == Ok(ANYTHING)
  {
    assert ConvertLimits(EMPTY) == map[];
  }

  const CLOSED_Y := EMPTY.(properties := Properties(map["y" := EMPTY]), additional := Some(Allowed(false)))
  const CLOSED_Y_VALIDATOR := ANYTHING.(properties := MongoProperties(map["y" := ANYTHING]), additional := Some(MongoAllowed(false)))

  lemma SiblingsMerge()
    ensures Merged(CLOSED_X, CLOSED_X_AND_Y) == CLOSED_Y
  {
    assert CLOSED_X.limits + CLOSED_X_AND_Y.limits == map[];
    assert CLOSED_X.annotations + CLOSED_X_AND_Y.annotations == {} && CLOSED_X.unknown + CLOSED_X_AND_Y.unknown == {};
  }

  lemma ClosedConverts(defs: Defs, stack: set<string>)
    ensures Convert(CLOSED_Y, defs, stack) == Ok(CLOSED_Y_VALIDATOR)
  {
    EmptyConverts(defs, stack);
    var of := ConvertMap(CLOSED_Y.properties, defs, stack);
    assert CLOSED_Y.properties.of["y"] == EMPTY;
    assert of.Ok? && of.value.of.Keys == {"y"} && of.value.of["y"] == ANYTHING;
    assert of.value.of == map["y" := ANYTHING];
    assert ConvertLimits(CLOSED_Y) == map[];
  }

  lemma SiblingsConvert(defs: Defs)
    requires defs == map["A" := CLOSED_X]
    ensures Convert(CLOSED_X_AND_Y, defs, {}) == Ok(CLOSED_Y_VALIDATOR)
  {
    SiblingsMerge();
    ClosedConverts(defs, {} + {"A"});
    StackGrows(defs, {}, "A");
  }

  lemma AbsentParts(rho: Meaning, h: Holds, v: Doc)
    ensures SatItems(rho, h, None, v) && SatProperties(rho, h, NoProperties, v)
    ensures SatAny(rho, h, NoBranches, v) && SatOne(rho, h, NoBranches, v) && SatAll(rho, h, NoBranches, v)
  {
  }

  /** Keywords beside a reference override the definition's: the compiled schema forbids the very
      fields the definition lists. */
  lemma SiblingsOverride(rho: Meaning, h: Holds, defs: Defs)
    requires defs == map["A" := CLOSED_X] && Consistent(rho, h, defs)
    ensures Convert(CLOSED_X_AND_Y, defs, {}).Ok? && Sat(rho, h, CLOSED_X_AND_Y, Obj(map["x" := Null]))
    ensures !Accepts(h, Convert(CLOSED_X_AND_Y, defs, {}).value, Obj(map["x" := Null]))
  {
    SiblingsConvert(defs);
    var v := Obj(map["x" := Null]);
    assert Sat(rho, h, EMPTY, Null);
    AbsentParts(rho, h, v);
    assert SatProperties(rho, h, CLOSED_X.properties, v) by {
      assert CLOSED_X.properties.of["x"] == EMPTY && v.fields["x"] == Null;
    }
    assert SatAdditional(rho, h, CLOSED_X.additional.value, Names(CLOSED_X.properties), v);
    assert Sat(rho, h, CLOSED_X, v);
    assert rho("A", v);
    assert SatProperties(rho, h, CLOSED_X_AND_Y.properties, v);
    var m := Convert(CLOSED_X_AND_Y, defs, {}).value;
    assert "x" in v.fields && "x" !in MongoNames(m.properties);
    assert !AcceptsAdditional(h, m.additional.value, MongoNames(m.properties), v);
  }

  /** Values listed under a format are compared with what is stored instead of the string: whatever the
      node says beside them, its validator accepts nothing. */
  lemma ListedFormatsReject(h: Holds, node: Schema, defs: Defs, stack: set<string>, v: Doc)
    requires node.ref.None? && node.format.Some? && Convert(node, defs, stack).Ok?
    requires ConvertEnum(node).Some? && forall x :: x in ConvertEnum(node).value ==> !x.Formatted?
    ensures !Accepts(h, Convert(node, defs, stack).value, v)
  {
    var m := Convert(node, defs, stack).value;
    var storage := StorageOf(node.format.value).value;
    assert m.bsonType == Some([StorageType(storage)]) && m.enumeration == ConvertEnum(node);
    if v.Formatted? {
      assert !AcceptsValues(h, m, v);
    } else {
      assert BsonTypeOf(v) !in [StorageType(storage)];
    }
  }

  /** The schema itself accepts a document under such a node. */
  lemma ListedFormatsMean(rho: Meaning, h: Holds)
    ensures var node := EMPTY.(types := Some(One("string")), format := Some("uuid"), enumeration := Some([Str("u")]));
            Sat(rho, h, node, Formatted(Binary, "u")) && Convert(node, map[], {}).Ok?
  {
    var node := EMPTY.(types := Some(One("string")), format := Some("uuid"), enumeration := Some([Str("u")]));
    var v := Formatted(Binary, "u");
    assert HasJsonType(TypeNames(node.types.value)[0], v, true);
    assert Str("u") in [Str("u")];
    assert SatTypes(node, v) && SatValues(h, node, v);
  }

  /** Of `const` and `enum` in one node the first one is lost, whatever else the node says. */
  lemma FirstIsLost(node: Schema, defs: Defs, stack: set<string>)
    requires node.ref.None? && node.constant.Some? && node.enumeration.Some?
    ensures Convert(node, defs, stack)
         == Convert(if node.constLast then node.(enumeration := None) else node.(constant := None), defs, stack)
  {
  }

  function Listing(c: Doc, list: seq<Doc>, constLast: bool): Schema {
    EMPTY.(constant := Some(c), enumeration := Some(list), constLast := constLast)
  }

  lemma ListingConverts(c: Doc, list: seq<Doc>, constLast: bool)
    ensures Convert(Listing(c, list, constLast), map[], {})
         == Ok(ANYTHING.(enumeration := Some(if constLast then [c] else list)))
  {
    var node := Listing(c, list, constLast);
    assert ConvertLimits(node) == map[];
    assert node.ref == None && node.unknown == {} && ConvertTypes(node) == Ok(None);
    assert ConvertMap(node.properties, map[], {}) == Ok(NoMongoProperties);
    assert ConvertOption(node.items, map[], {}) == Ok(None) && ConvertOption(node.negated, map[], {}) == Ok(None);
    assert ConvertAdditional(node.additional, map[], {}) == Ok(None);
    assert ConvertList(node.anyOf, map[], {}) == Ok(NoMongoBranches);
    assert ConvertList(node.oneOf, map[], {}) == Ok(NoMongoBranches);
    assert ConvertList(node.allOf, map[], {}) == Ok(NoMongoBranches);
  }

  ghost predicate Agrees(rho: Meaning, h: Holds, node: Schema, m: Mongo, v: Doc) {
    Sat(rho, h, node, v) <==> Accepts(h, m, v)
  }

  /** So the two together keep their meaning exactly when the last one says it all. */
  lemma ConstIsLost(rho: Meaning, h: Holds, c: Doc, list: seq<Doc>, constLast: bool)
    ensures Convert(Listing(c, list, constLast), map[], {}).Ok?
    ensures var node := Listing(c, list, constLast);
            (forall v :: Agrees(rho, h, node, Convert(node, map[], {}).value, v))
              <==> if constLast then c in list else forall x :: x in list ==> x == c
  {
    var node := Listing(c, list, constLast);
    var kept := if constLast then [c] else list;
    ListingConverts(c, list, constLast);
    var m := Convert(node, map[], {}).value;
    forall v ensures Agrees(rho, h, node, m, v) <==> (v == c && c in list <==> v in kept) {
      ListingMeans(rho, h, c, list, constLast, v);
      ListingAccepts(h, kept, v);
    }
    if constLast {
      assert Agrees(rho, h, node, m, c) <==> c in list;
    } else if x :| x in list && x != c {
      assert !Agrees(rho, h, node, m, x);
    }
  }

  lemma ListingAccepts(h: Holds, kept: seq<Doc>, v: Doc)
    ensures Accepts(h, ANYTHING.(enumeration := Some(kept)), v) <==> v in kept
  {
  }

  lemma ListingMeans(rho: Meaning, h: Holds, c: Doc, list: seq<Doc>, constLast: bool, v: Doc)
    ensures Sat(rho, h, Listing(c, list, constLast), v) <==> v == c && c in list
  {
    var node := Listing(c, list, constLast);
    AbsentParts(rho, h, v);
    assert node.ref == None && node.additional == None && node.negated == None;
    assert SatTypes(node, v);
    assert SatValues(h, node, v) <==> v == c && c in list;
  }

  const NOTHING := EMPTY.(types := Some(One("null")))
  const REFERENCE := EMPTY.(ref := Some(Def("A")))
  const LIST := EMPTY.(types := Some(One("array")), items := Some(REFERENCE))

  /** Null, or a list of such: a definition that refers to itself. */
  const NESTED := EMPTY.(anyOf := Branches([NOTHING, LIST]))

  lemma TypeConverts(name: string, bson: string)
    requires MappedType(name) == [bson]
    ensures ConvertTypes(EMPTY.(types := Some(One(name)))) == Ok(Some([bson]))
  {
    assert [name][..|[name]| - 1] == [] && AddNew([], []) == [];
    assert [bson][..|[bson]| - 1] == [];
    assert AddNew([], [bson]) == [bson];
  }

  lemma NothingConverts(defs: Defs, stack: set<string>)
    ensures Convert(NOTHING, defs, stack) == Ok(ANYTHING.(bsonType := Some(["null"])))
  {
    TypeConverts("null", "null");
    assert ConvertLimits(NOTHING) == map[];
  }

  lemma ListConverts(defs: Defs)
    ensures Convert(LIST, defs, {"A"}) == Ok(ANYTHING.(bsonType := Some(["array"]), items := Some(ANYTHING)))
  {
    TypeConverts("array", "array");
    assert ConvertTypes(LIST) == ConvertTypes(EMPTY.(types := Some(One("array"))));
    assert Convert(REFERENCE, defs, {"A"}) == Ok(ANYTHING);
    assert ConvertOption(LIST.items, defs, {"A"}) == Ok(Some(ANYTHING));
    assert ConvertLimits(LIST) == map[];
  }

  const NESTED_VALIDATOR := ANYTHING.(anyOf := MongoBranches([ANYTHING.(bsonType := Some(["null"])),
                                                              ANYTHING.(bsonType := Some(["array"]), items := Some(ANYTHING))]))

  lemma NestedConverts(defs: Defs)
    requires defs == map["A" := NESTED]
    ensures Convert(REFERENCE, defs, {}) == Ok(NESTED_VALIDATOR)
  {
    NothingConverts(defs, {"A"});
    ListConverts(defs);
    NestedListConverts(defs);
    assert {} + {"A"} == {"A"};
    assert Convert(NESTED, defs, {"A"}) == Ok(NESTED_VALIDATOR) by {
      assert ConvertLimits(NESTED) == map[];
    }
    NestedMerges();
    StackGrows(defs, {}, "A");
  }

  lemma NestedMerges()
    ensures Merged(NESTED, REFERENCE) == NESTED
  {
    assert NESTED.limits + REFERENCE.limits == map[];
    assert NESTED.annotations + REFERENCE.annotations == {} && NESTED.unknown + REFERENCE.unknown == {};
  }

  lemma NestedListConverts(defs: Defs)
    requires Convert(NOTHING, defs, {"A"}) == Ok(ANYTHING.(bsonType := Some(["null"])))
    requires Convert(LIST, defs, {"A"}) == Ok(ANYTHING.(bsonType := Some(["array"]), items := Some(ANYTHING)))
    ensures ConvertList(NESTED.anyOf, defs, {"A"}) == Ok(NESTED_VALIDATOR.anyOf)
  {
    var rs := ConvertAll(NESTED.anyOf, defs, {"A"});
    assert |rs| == 2 && NESTED.anyOf.options[0] == NOTHING && NESTED.anyOf.options[1] == LIST;
    assert rs[0].Ok? && rs[1].Ok?;
    var list := ConvertList(NESTED.anyOf, defs, {"A"});
    assert list.Ok? && list.value.options == NESTED_VALIDATOR.anyOf.options;
  }

  /** Beneath a `not` what is dropped turns round: the compiled schema rejects what the schema accepts. */
  lemma DroppedUnderNot(rho: Meaning, h: Holds, defs: Defs)
    requires defs == map["A" := NESTED] && Consistent(rho, h, defs)
    ensures var node, v := EMPTY.(negated := Some(REFERENCE)), Arr([Bool(true)]);
            Sat(rho, h, node, v) && Convert(node, defs, {}).Ok? && !Accepts(h, Convert(node, defs, {}).value, v)
  {
    var node, v := EMPTY.(negated := Some(REFERENCE)), Arr([Bool(true)]);
    NestedConverts(defs);
    NestedAccepts(h, v);
    assert ConvertOption(node.negated, defs, {}) == Ok(Some(NESTED_VALIDATOR));
    assert Convert(node, defs, {}).Ok? && Convert(node, defs, {}).value.negated == Some(NESTED_VALIDATOR);
    NestedMeans(rho, h, defs);
    AbsentParts(rho, h, v);
    assert !Sat(rho, h, REFERENCE, v);
  }

  lemma NestedAccepts(h: Holds, v: Doc)
    requires v.Arr?
    ensures Accepts(h, NESTED_VALIDATOR, v)
  {
    var list := NESTED_VALIDATOR.anyOf.options[1];
    forall i | 0 <= i < |v.items| ensures Accepts(h, ANYTHING, v.items[i]) {}
    assert "array" in list.bsonType.value;
    assert AcceptsItems(h, list.items, v);
    assert Accepts(h, list, v);
    assert AcceptsAny(h, NESTED_VALIDATOR.anyOf, v);
  }

  lemma NestedMeans(rho: Meaning, h: Holds, defs: Defs)
    requires defs == map["A" := NESTED] && Consistent(rho, h, defs)
    ensures !rho("A", Bool(true)) && !rho("A", Arr([Bool(true)]))
  {
    assert !Sat(rho, h, NOTHING, Bool(true)) && !Sat(rho, h, LIST, Bool(true));
    assert !SatAny(rho, h, NESTED.anyOf, Bool(true));
    assert !Sat(rho, h, NESTED, Bool(true));
    assert !rho("A", Bool(true));
    var v := Arr([Bool(true)]);
    assert !Sat(rho, h, NOTHING, v);
    assert !Sat(rho, h, REFERENCE, v.items[0]);
    assert !SatItems(rho, h, LIST.items, v);
    assert !Sat(rho, h, LIST, v);
    assert !SatAny(rho, h, NESTED.anyOf, v);
    assert !Sat(rho, h, NESTED, v);
  }
}
