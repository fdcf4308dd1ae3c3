/**
  The decoded Swagger 2.0 data that the generator's template helpers see.
  Go's `encoding/json` decodes a document into `interface{}` values; the
  helpers only ever ask whether such a value is a string, so every other
  JSON value (number, boolean, null, array, object) is one constructor.
 */
module Swagger {

  /** A decoded JSON value, as far as the helpers can tell values apart. */
  datatype JsonValue = JString(str: string) | JNonString

  /**
    One element of an operation's `parameters` array: either a JSON object
    (a Swagger Parameter Object, decoded to `map[string]interface{}`) or
    some other JSON value, which the type assertion turns into a nil map.
   */
  datatype Param = ParamObject(fields: map<string, JsonValue>) | NotAnObject

  /**
    The panics a helper can raise: a failed `.(string)` type assertion.
    `text/template` recovers a panic raised inside a helper and reports it
    as an execution error, which the generator then treats as fatal.
   */
  datatype TemplateError =
    | NameNotAString  // a path parameter's `name` is missing or not a string
    | RefNotAString   // a schema's `$ref` is present but not a string

  datatype Option<T> = None | Some(value: T)

  /** The outcome of a helper call: its value, or the panic it raised. */
  datatype Result<T> = Ok(value: T) | Err(error: TemplateError)
}
