# Godot SDK generator: template helpers

The Agones Godot SDK is generated by `sdks/godot/gen.go`. For each Swagger
description (`sdk`, `alpha`, `beta`), it renders every path through a text
template and writes the result to `addons/com.google.agones/Agones<Id>.gd`.
The template relies on a handful of helper functions. This project models
those helpers and the output file name, and proves what they compute.

- `ParseUrlParams` (module `UrlParams`) turns a URL template such as
  `/v1/a/{x}` and an operation's parameter list into a GDScript expression
  such as `("/v1/a/%s"% [x])`. It is a method with the helper's loop, and its
  contract says that it equals `Render`, a fold over the parameters.
  Lemmas about `Render` say:
  - it fails exactly when a path parameter's name is not a string;
  - only path parameters matter;
  - when no name contains `}`, it builds the intended expression `Intended`,
    with the placeholders substituted and the names as format arguments in
    input order;
  - for plain names, a placeholder is left exactly when no path parameter
    has its name.

  Replacement scans the whole text built so far, argument list included.
  The model keeps that behaviour, and `SubstitutionReachesArguments` shows
  where it departs from the intended expression.
- `ToGodotType`, `GetSchemRef` and `MaxIndex` (module `TemplateHelpers`):
  - the Swagger-to-Godot type table;
  - the `$ref` lookup, including its failure on a non-string value;
  - the last index of a list.
- The output file name (module `OutputFiles`) uses `strings.Title` on ASCII
  text. The model proves that Title is idempotent, that lower-case
  identifiers give distinct files, and what the three actual file names are.
- `GoStrings` gives the meaning of `strings.Replace(s, old, new, -1)`:
  leftmost, non-overlapping replacement, scanning from the left. Its lemmas
  say what replacement keeps, removes and cannot create.
- `Swagger` holds the decoded JSON values the helpers receive. A value is a
  string or something else. A parameter is an object or something else.

A Go panic inside a helper becomes an execution error of the template, so
the model returns it as an `Err` value. One example is the type assertion
`.(string)` on a name or a `$ref` that is not a string.

## Model

| member | source | states |
|---|---|---|
| UrlParams.ParseUrlParams | sdks/godot/gen.go:66-91 | the loop computes `Render(url, params)`: the left fold over the parameters, closed with `]` when an argument list was opened and parenthesised; a non-string path parameter name yields the error |
| UrlParams.AccumulateErrPersists | sdks/godot/gen.go:70-81 | once a path parameter's name fails the string assertion, later parameters cannot change the outcome |
| UrlParams.AccumulateShape | sdks/godot/gen.go:67-84 | the loop succeeds iff every path parameter has a string name; `pathVars` counts the path parameters; the text still starts with the opening quote, and it is the quoted URL when there were no path parameters |
| UrlParams.RenderShape | sdks/godot/gen.go:66-91 | the result succeeds iff all path parameter names are strings; it starts with `("` and ends with `)`; the character before the `)` is `]` exactly when there is a path parameter |
| UrlParams.RenderWithoutPathParams | sdks/godot/gen.go:86-90 | the result is the parenthesised quoted URL if and only if there are no path parameters |
| UrlParams.RenderIgnoresOtherParams | sdks/godot/gen.go:71-72 | the loop state and the result are the same as for the list of path parameters alone, so parameters whose `in` is not `"path"`, and non-objects, are ignored |
| UrlParams.RenderWithoutParamAt | sdks/godot/gen.go:71-72 | dropping any one parameter that is not a path parameter leaves the result unchanged |
| UrlParams.PathParamsMembers | sdks/godot/gen.go:72 | the reference filter keeps a parameter iff it is in the list and its `in` field is the string `"path"` |
| UrlParams.PathParamsAppend | sdks/godot/gen.go:70-72 | the reference filter distributes over concatenation of parameter lists |
| UrlParams.QuoteSubstitute | sdks/godot/gen.go:67-74 | substituting a placeholder in the quoted URL is the same as quoting the substituted URL |
| UrlParams.OpenArgsAppend | sdks/godot/gen.go:77-81 | the first path parameter opens the argument list with `% [`; each later one adds `, ` and its name |
| UrlParams.OpenArgsWithoutClosingBrace | sdks/godot/gen.go:77-88 | the argument list contains no `}` when no name does |
| UrlParams.AddPathParamIntended | sdks/godot/gen.go:74-82 | one path parameter turns the intended state for the earlier names into the intended state for the longer list |
| UrlParams.AccumulateIntended | sdks/godot/gen.go:70-84 | when no name contains `}`, the loop state is the quoted URL with every path placeholder substituted in order, followed by the open argument list of the path names |
| UrlParams.RenderMatchesIntended | sdks/godot/gen.go:66-91 | when no name contains `}`, the result is the intended GDScript expression: substituted URL literal, `%` and the path parameter names in input order |
| UrlParams.RenderEndsWithArguments | sdks/godot/gen.go:76-90 | when there is at least one path parameter and no path parameter name contains `}`, the result ends with `% [` then the names joined by `, `, in input order with duplicates kept, then `])` |
| UrlParams.PlaceholderMismatch | sdks/godot/gen.go:74 | for two different names that both lack `}`, the placeholder of one never matches where the other's placeholder starts |
| UrlParams.SubstituteAllPlaceholders | sdks/godot/gen.go:74 | after substituting plain names in order, a plain name's placeholder remains iff it was in the URL and the name was not substituted |
| UrlParams.RenderPlaceholders | sdks/godot/gen.go:66-91 | for plain names, the result contains a placeholder iff the URL template did and no path parameter has that name |
| UrlParams.SubstituteWithoutBrace | sdks/godot/gen.go:74 | a text without `{` is left unchanged by the substitution |
| UrlParams.SubstituteFirst | sdks/godot/gen.go:74 | a placeholder preceded by brace-free text becomes `%s`, and the scan continues after it |
| UrlParams.OnePathParam | sdks/godot/gen.go:66-91 | a URL with a single placeholder and a matching path parameter renders as `("pre%spost"% [name])` |
| UrlParams.ExampleBodyParamIgnored | sdks/godot/gen.go:72 | a body parameter named like a placeholder leaves the URL untouched and opens no argument list |
| UrlParams.RenderPlaceholderThenName | sdks/godot/gen.go:74-80 | for parameters `{n}` then `n`, the second substitution rewrites the first argument to `%s` |
| UrlParams.SubstitutionReachesArguments | sdks/godot/gen.go:74 | for parameters `{n}` then `n`, the result differs from the intended expression, because the substitution also scans the argument list |
| TemplateHelpers.ToGodotType | sdks/godot/gen.go:45-57 | `string`, `integer`, `number` and `boolean` map to `String`, `int`, `float` and `bool`; every other name maps to `Object`, and only other names do |
| TemplateHelpers.ToGodotTypeSeparatesPrimitives | sdks/godot/gen.go:46-56 | a primitive's Godot type differs from that of any other type name |
| TemplateHelpers.GetSchemRef | sdks/godot/gen.go:59-64 | an absent `$ref` gives the empty string; a string `$ref` gives that string; the lookup fails iff `$ref` is present and not a string |
| TemplateHelpers.GetSchemRefAfterStore | sdks/godot/gen.go:60-61 | storing a string under `$ref` and looking it up gives that string back |
| TemplateHelpers.GetSchemRefIgnoresOtherKeys | sdks/godot/gen.go:60 | entries other than `$ref` do not affect the lookup |
| TemplateHelpers.MaxIndex | sdks/godot/gen.go:93-95 | the result is between -1 and the last valid index, and indices 0 through it cover the whole list |
| OutputFiles.TitleAfter | sdks/godot/gen.go:123 | the same length as the input; each ASCII character is title-cased exactly when the character before it is a separator |
| OutputFiles.Title | sdks/godot/gen.go:123 | a character is title-cased exactly when it starts the text or follows a separator; everything else is kept |
| OutputFiles.TitleIdempotent | sdks/godot/gen.go:123 | title-casing twice gives the same as title-casing once |
| OutputFiles.TitleOfWord | sdks/godot/gen.go:123 | a lower-case word gets only its first letter upper-cased |
| OutputFiles.OutputFileNameInjective | sdks/godot/gen.go:123 | two identifiers of lower-case letters and digits with the same output file are equal |
| OutputFiles.SdkOutput | sdks/godot/gen.go:123 | the `sdk` description is written to `addons/com.google.agones/AgonesSdk.gd` |
| OutputFiles.AlphaOutput | sdks/godot/gen.go:123 | the `alpha` description is written to `addons/com.google.agones/AgonesAlpha.gd` |
| OutputFiles.BetaOutput | sdks/godot/gen.go:123 | the `beta` description is written to `addons/com.google.agones/AgonesBeta.gd` |
| GoStrings.ReplaceWithoutOccurrence | sdks/godot/gen.go:74 | replacement changes nothing in a text without the pattern |
| GoStrings.ReplaceKeepsPrefix | sdks/godot/gen.go:74 | a prefix without the pattern's first character is copied unchanged |
| GoStrings.ReplaceKeepsSuffix | sdks/godot/gen.go:74 | a suffix without the pattern's last character is copied unchanged |
| GoStrings.ReplaceSplitsBeforeHead | sdks/godot/gen.go:74 | when the pattern's first character does not recur in the pattern, replacing in `x + y` where `y` starts with that character is replacing in `x` and in `y` separately |
| GoStrings.ReplacePrefixOrigin | sdks/godot/gen.go:74 | a prefix of the result that lacks the replacement's first character was already a prefix of the input |
| GoStrings.ReplaceLeavesNoOccurrence | sdks/godot/gen.go:74 | when the pattern and the replacement do not share first characters with each other, no occurrence of the pattern is left |
| GoStrings.ReplaceCreatesNoOccurrence | sdks/godot/gen.go:74 | a text absent from the input stays absent from the result, when its first character is not in the replacement and the replacement's first character is not in it |
| GoStrings.ReplaceKeepsOccurrence | sdks/godot/gen.go:74 | when the pattern's first character does not recur in the pattern, a text `t` that starts with that character, holds it nowhere else and is not the start of a match is copied unchanged, and replacement continues on each side of it |

## Left out

- Reading the Swagger files, JSON decoding, the loop over `paths`, template parsing and execution, creating the directory and the output file, logging, and `log.Fatalf`. These are I/O and library code. The helpers receive already-decoded values.
- JSON values are reduced to "a string" or "something else". The helpers only test for strings, so the other JSON kinds are not distinguished.
- The text of a panic message is not modelled. A panic is modelled as an error value that names which assertion failed.
- `UrlParams.ParseUrlParams`: a path parameter with a non-string name stops the helper. Go first substitutes the `fmt` rendering of that name, such as `{%!s(<nil>)}`, and then panics. The model skips the substitution because the panic discards its result anyway.
- `ToUpper` and `Replace` are registered as template functions, but they are Go's `strings.ToUpper` and `strings.Replace` themselves. The template files that call them are not part of this model.
- OutputFiles.Title: covers ASCII text only, through a precondition. For non-ASCII characters, `strings.Title` uses Unicode letter and digit classes and Unicode title case, and those are not modelled.
- UrlParams.RenderMatchesIntended: holds only when no path parameter name contains `}`. `UrlParams.SubstitutionReachesArguments` shows that the helper departs from the intended expression when a name is itself a placeholder.
- UrlParams.RenderPlaceholders: holds only for names without `{`, `}` or `%`.
- UrlParams.RenderEndsWithArguments: holds only when no path parameter name contains `}`. The substitution also rewrites the argument list, so with names `{a}` and then `a`, the argument list reads `% [%s, a]` (see `UrlParams.SubstitutionReachesArguments`).
- Go strings are byte strings, and the model works on characters. The two give the same results here, for two reasons. `encoding/json` only produces valid UTF-8. Every placeholder starts with the ASCII byte `{`, so byte matching in `strings.Replace` finds the same leftmost, non-overlapping matches as character matching.
