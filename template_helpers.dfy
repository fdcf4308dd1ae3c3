/**
  The small template helpers of the Godot SDK generator besides
  `ParseUrlParams`: the Swagger-to-Godot type mapping, the `$ref` lookup
  of a schema, and the last index of a list.
 */
module TemplateHelpers {
  import opened Swagger

  /** The Swagger primitive type names and the Godot types they become. */
  const PrimitiveTypes: map<string, string> :=
    map["string" := "String", "integer" := "int", "number" := "float", "boolean" := "bool"]

  /** The Godot type of every other Swagger type name. */
  const FallbackType := "Object"

  /** The key of a Swagger Reference Object. */
  const RefKey := "$ref"

  /**
    `ToGodotType`: a switch over the Swagger primitive type names. It is
    total: a primitive gets its Godot type, anything else (the empty name
    included) gets the fallback, which no primitive is mapped to.
   */
  function ToGodotType(v: string): (r: string)
    ensures v in PrimitiveTypes ==> r == PrimitiveTypes[v]
    ensures v !in PrimitiveTypes ==> r == FallbackType
    ensures r == FallbackType <==> v !in PrimitiveTypes
  {
    if v == "string" then "String"
    else if v == "integer" then "int"
    else if v == "number" then "float"
    else if v == "boolean" then "bool"
    else "Object"
  }

  /** Different primitive types map to different Godot types, none of them the fallback. */
  lemma ToGodotTypeSeparatesPrimitives(v: string, w: string)
    requires v in PrimitiveTypes && v != w
    ensures ToGodotType(v) != ToGodotType(w)
  {
  }

  /**
    `GetSchemRef`: the schema's `$ref` entry when present, the empty string
    when absent; a `$ref` that is not a string fails the type assertion.
   */
  function GetSchemRef(schema: map<string, JsonValue>): (r: Result<string>)
    ensures r.Err? <==> RefKey in schema && !schema[RefKey].JString?
    ensures r.Err? ==> r.error == RefNotAString
    ensures RefKey !in schema ==> r == Ok("")
    ensures RefKey in schema && schema[RefKey].JString? ==> r == Ok(schema[RefKey].str)
    ensures r.Ok? && r.value != "" ==> RefKey in schema && schema[RefKey] == JString(r.value)
  {
    if RefKey in schema then
      match schema[RefKey]
      case JString(s) => Ok(s)
      case JNonString => Err(RefNotAString)
    else
      Ok("")
  }

  /** Storing a string under `$ref` and looking it up gives it back. */
  lemma GetSchemRefAfterStore(schema: map<string, JsonValue>, ref: string)
    ensures GetSchemRef(schema[RefKey := JString(ref)]) == Ok(ref)
  {
  }

  /** Entries other than `$ref` do not affect the lookup. */
  lemma GetSchemRefIgnoresOtherKeys(schema: map<string, JsonValue>, key: string, v: JsonValue)
    requires key != RefKey
    ensures GetSchemRef(schema[key := v]) == GetSchemRef(schema)
  {
  }

  /**
    `MaxIndex`: the index of the last element, so that the indices `0`
    through the result cover the whole list; `-1` for an empty list.
   */
  function MaxIndex<T>(list: seq<T>): (r: int)
    ensures -1 <= r < |list|
    ensures list[..r + 1] == list
  {
    |list| - 1
  }
}
