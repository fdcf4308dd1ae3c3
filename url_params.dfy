/**
  The `ParseUrlParams` template helper of the Godot SDK generator. It turns
  a Swagger path template such as `/v1/a/{x}/b/{y}` and an operation's
  parameter list into a GDScript expression that builds the URL at run
  time, such as `("/v1/a/%s/b/%s"% [x, y])`.
 */
module UrlParams {
  import opened GoStrings
  import opened Swagger

  /** The Swagger parameter location of parameters that are part of the path. */
  const PathLocation := "path"

  /** GDScript's positional format marker. */
  const FormatMarker := "%s"

  /** The parameter's `in` field is the string `"path"`. */
  predicate IsPathParam(p: Param) {
    p.ParamObject? && "in" in p.fields && p.fields["in"] == JString(PathLocation)
  }

  /** The parameter's `name` field, when it is present and a string. */
  function NameOf(p: Param): Option<string> {
    if p.ParamObject? && "name" in p.fields && p.fields["name"].JString? then
      Some(p.fields["name"].str)
    else
      None
  }

  /** The URL template as a GDScript string literal. */
  function Quote(s: string): string {
    "\"" + s + "\""
  }

  /** The placeholder that names a path parameter in a URL template. */
  function Placeholder(name: string): string {
    "{" + name + "}"
  }

  /** Every placeholder of `name` in `s` becomes the format marker. */
  function Substitute(s: string, name: string): string {
    ReplaceAll(s, Placeholder(name), FormatMarker)
  }

  // ---------------------------------------------------------------------
  // The helper as written: a loop over the parameters
  // ---------------------------------------------------------------------

  /** The loop's state: the expression built so far and the path parameters seen. */
  datatype Scan = Scan(text: string, pathVars: nat)

  /** One path parameter named `name`: substitute its placeholder, then add it to the argument list. */
  function AddPathParam(scan: Scan, name: string): Scan {
    var text := Substitute(scan.text, name);
    Scan(text + (if scan.pathVars == 0 then "% [" else ", ") + name, scan.pathVars + 1)
  }

  /**
    The loop's state after the parameters `ps`, one parameter at a time:
    parameters that are not path parameters change nothing, and a path
    parameter without a string name stops the helper with a panic.
   */
  function Accumulate(url: string, ps: seq<Param>): Result<Scan>
    decreases |ps|
  {
    if ps == [] then Ok(Scan(Quote(url), 0))
    else
      var last := ps[|ps| - 1];
      match Accumulate(url, ps[..|ps| - 1])
      case Err(e) => Err(e)
      case Ok(scan) =>
        if !IsPathParam(last) then Ok(scan)
        else
          match NameOf(last)
          case None => Err(NameNotAString)
          case Some(name) => Ok(AddPathParam(scan, name))
  }

  /** The helper's result: the argument list is closed when it was opened, and the whole is parenthesised. */
  function Render(url: string, ps: seq<Param>): Result<string> {
    match Accumulate(url, ps)
    case Err(e) => Err(e)
    case Ok(scan) => Ok("(" + scan.text + (if scan.pathVars > 0 then "]" else "") + ")")
  }

  /** `ParseUrlParams(url, params)`, step by step as the generator runs it. */
  method ParseUrlParams(url: string, params: seq<Param>) returns (r: Result<string>)
    ensures r == Render(url, params)
  {
    var text := Quote(url);
    var pathVars := 0;
    for i := 0 to |params|
      invariant Accumulate(url, params[..i]) == Ok(Scan(text, pathVars))
    {
      var param := params[i];
      assert params[..i + 1][..i] == params[..i];
      if IsPathParam(param) {
        match NameOf(param) {
          case None =>
            assert Accumulate(url, params[..i + 1]) == Err(NameNotAString);
            AccumulateErrPersists(url, params, i + 1);
            return Err(NameNotAString);
          case Some(name) =>
            text := Substitute(text, name);
            if pathVars == 0 {
              text := text + "% [" + name;
            } else {
              text := text + ", " + name;
            }
            pathVars := pathVars + 1;
        }
      }
    }
    assert params[..|params|] == params;
    ghost var open := text;
    assert Accumulate(url, params) == Ok(Scan(open, pathVars));
    if pathVars > 0 {
      text := text + "]";
    }
    r := Ok("(" + text + ")");
    assert "(" + text + ")" == "(" + open + (if pathVars > 0 then "]" else "") + ")";
  }

  /** Once a prefix of the parameters panics, the whole list does, with the same panic. */
  lemma {:induction false} AccumulateErrPersists(url: string, ps: seq<Param>, j: nat)
    requires j <= |ps| && Accumulate(url, ps[..j]).Err?
    ensures Accumulate(url, ps) == Accumulate(url, ps[..j])
    decreases |ps|
  {
    if j < |ps| {
      var init := ps[..|ps| - 1];
      assert init[..j] == ps[..j];
      AccumulateErrPersists(url, init, j);
    } else {
      assert ps[..j] == ps;
    }
  }

  // ---------------------------------------------------------------------
  // Reference definitions: which parameters count, and the intended output
  // ---------------------------------------------------------------------

  /** Every path parameter has a string name, so the type assertion cannot panic. */
  predicate NamesAreStrings(ps: seq<Param>) {
    forall i | 0 <= i < |ps| && IsPathParam(ps[i]) :: NameOf(ps[i]).Some?
  }

  /** The path parameters of `ps`, in their input order. */
  function PathParams(ps: seq<Param>): seq<Param>
    decreases |ps|
  {
    if ps == [] then []
    else PathParams(ps[..|ps| - 1]) + (if IsPathParam(ps[|ps| - 1]) then [ps[|ps| - 1]] else [])
  }

  /** The names of the path parameters of `ps`, in their input order, duplicates kept. */
  function PathNames(ps: seq<Param>): seq<string>
    requires NamesAreStrings(ps)
    decreases |ps|
  {
    if ps == [] then []
    else
      var init, last := ps[..|ps| - 1], ps[|ps| - 1];
      assert NamesAreStrings(init) by {
        assert forall i | 0 <= i < |init| :: init[i] == ps[i];
      }
      PathNames(init) + (if IsPathParam(last) then [NameOf(last).value] else [])
  }

  /** The placeholders of `names` substituted one after the other, in order. */
  function SubstituteAll(s: string, names: seq<string>): string
    decreases |names|
  {
    if names == [] then s
    else Substitute(SubstituteAll(s, names[..|names| - 1]), names[|names| - 1])
  }

  /** `names` separated by `", "`. */
  function Join(names: seq<string>): string
    decreases |names|
  {
    if names == [] then ""
    else if |names| == 1 then names[0]
    else Join(names[..|names| - 1]) + ", " + names[|names| - 1]
  }

  /** The argument list while it is still open: empty, or `% [` and the names. */
  function OpenArgs(names: seq<string>): string {
    if names == [] then "" else "% [" + Join(names)
  }

  /** The format operator with its argument list, or nothing without arguments. */
  function ArgList(names: seq<string>): string {
    if names == [] then "" else "% [" + Join(names) + "]"
  }

  /**
    The expression the helper is meant to build: the URL literal with the
    placeholders of the path parameters substituted, formatted with those
    parameters as arguments.
   */
  function Intended(url: string, names: seq<string>): string {
    "(" + Quote(SubstituteAll(url, names)) + ArgList(names) + ")"
  }

  /** No name contains a closing brace, so no placeholder can end inside the argument list. */
  predicate NoClosingBrace(names: seq<string>) {
    forall i | 0 <= i < |names| :: '}' !in names[i]
  }

  /** A name that cannot take part in a placeholder other than its own, nor in a format marker. */
  predicate PlainName(name: string) {
    '{' !in name && '}' !in name && '%' !in name
  }

  predicate PlainNames(names: seq<string>) {
    forall i | 0 <= i < |names| :: PlainName(names[i])
  }

  // ---------------------------------------------------------------------
  // Facts about the reference definitions
  // ---------------------------------------------------------------------

  /** `PathParams` keeps exactly the path parameters. */
  lemma {:induction false} PathParamsMembers(ps: seq<Param>, p: Param)
    ensures p in PathParams(ps) <==> p in ps && IsPathParam(p)
    decreases |ps|
  {
    if ps != [] {
      var init := ps[..|ps| - 1];
      PathParamsMembers(init, p);
      assert ps == init + [ps[|ps| - 1]];
    }
  }

  /** `PathParams` distributes over concatenation. */
  lemma {:induction false} PathParamsAppend(a: seq<Param>, b: seq<Param>)
    ensures PathParams(a + b) == PathParams(a) + PathParams(b)
    decreases |b|
  {
    if b == [] {
      assert a + b == a;
    } else {
      var b' := b[..|b| - 1];
      assert (a + b)[..|a + b| - 1] == a + b';
      PathParamsAppend(a, b');
    }
  }

  /** Quoting commutes with substitution: the quotes are never part of a placeholder. */
  lemma QuoteSubstitute(s: string, name: string)
    ensures Substitute(Quote(s), name) == Quote(Substitute(s, name))
  {
    var pat := Placeholder(name);
    assert pat[0] == '{' && pat[|pat| - 1] == '}';
    assert Quote(s) == "\"" + (s + "\"");
    ReplaceKeepsPrefix("\"", s + "\"", pat, FormatMarker);
    ReplaceKeepsSuffix(s, "\"", pat, FormatMarker);
  }

  /** Appending one more name to the argument list. */
  lemma OpenArgsAppend(names: seq<string>, name: string)
    ensures OpenArgs(names) + (if names == [] then "% [" else ", ") + name == OpenArgs(names + [name])
  {
    assert (names + [name])[..|names|] == names;
  }

  /** The argument list holds no closing brace when no name does. */
  lemma {:induction false} OpenArgsWithoutClosingBrace(names: seq<string>)
    requires NoClosingBrace(names)
    ensures '}' !in OpenArgs(names) && '}' !in ArgList(names)
    decreases |names|
  {
    if |names| > 1 {
      var init := names[..|names| - 1];
      OpenArgsWithoutClosingBrace(init);
      assert Join(names) == Join(init) + ", " + names[|names| - 1];
    }
  }

  // ---------------------------------------------------------------------
  // What the helper returns
  // ---------------------------------------------------------------------

  /**
    The loop panics exactly when some path parameter has no string name;
    otherwise it has counted every path parameter, and its text is still
    the quoted URL when there were none and starts with the opening quote
    in any case.
   */
  lemma {:induction false} AccumulateShape(url: string, ps: seq<Param>)
    ensures Accumulate(url, ps).Ok? <==> NamesAreStrings(ps)
    ensures Accumulate(url, ps).Ok? ==>
      var scan := Accumulate(url, ps).value;
      && scan.pathVars == |PathParams(ps)|
      && |scan.text| >= 2 && scan.text[0] == '"'
      && (scan.pathVars == 0 ==> scan.text == Quote(url))
    decreases |ps|
  {
    if ps != [] {
      var init, last := ps[..|ps| - 1], ps[|ps| - 1];
      AccumulateShape(url, init);
      assert NamesAreStrings(ps) <==> NamesAreStrings(init) && (IsPathParam(last) ==> NameOf(last).Some?) by {
        assert forall i | 0 <= i < |init| :: init[i] == ps[i];
      }
      if Accumulate(url, init).Ok? && IsPathParam(last) && NameOf(last).Some? {
        var scan := Accumulate(url, init).value;
        var name := NameOf(last).value;
        assert scan.text == "\"" + scan.text[1..];
        ReplaceKeepsPrefix("\"", scan.text[1..], Placeholder(name), FormatMarker);
      }
    }
  }

  /**
    The result is a parenthesised expression that starts with the URL's
    opening quote; it ends in `])`, closing an argument list, exactly when
    there is a path parameter. The helper fails exactly when a path
    parameter's name is not a string.
   */
  lemma RenderShape(url: string, ps: seq<Param>)
    ensures Render(url, ps).Ok? <==> NamesAreStrings(ps)
    ensures Render(url, ps).Ok? ==>
      var r := Render(url, ps).value;
      && |r| >= 4 && r[..2] == "(\"" && r[|r| - 1] == ')'
      && (r[|r| - 2] == ']' <==> PathParams(ps) != [])
  {
    AccumulateShape(url, ps);
  }

  /** Without path parameters the result is the quoted URL in parentheses, and only then. */
  lemma RenderWithoutPathParams(url: string, ps: seq<Param>)
    ensures Render(url, ps) == Ok("(" + Quote(url) + ")") <==> PathParams(ps) == []
  {
    AccumulateShape(url, ps);
    RenderShape(url, ps);
    var lit := "(" + Quote(url) + ")";
    if PathParams(ps) == [] {
      forall i | 0 <= i < |ps| ensures !IsPathParam(ps[i]) {
        PathParamsMembers(ps, ps[i]);
      }
      var scan := Accumulate(url, ps).value;
      assert scan.pathVars == 0 && scan.text == Quote(url);
      assert "(" + scan.text + "" + ")" == lit;
    } else if Render(url, ps).Ok? {
      var r := Render(url, ps).value;
      assert r[|r| - 2] == ']';
      assert lit[|lit| - 2] == '"';
    }
  }

  /** Only path parameters matter: the others can be dropped from the list. */
  lemma {:induction false} RenderIgnoresOtherParams(url: string, ps: seq<Param>)
    ensures Accumulate(url, ps) == Accumulate(url, PathParams(ps))
    ensures Render(url, ps) == Render(url, PathParams(ps))
    decreases |ps|
  {
    if ps != [] {
      var init, last := ps[..|ps| - 1], ps[|ps| - 1];
      RenderIgnoresOtherParams(url, init);
      if IsPathParam(last) {
        var pp := PathParams(init) + [last];
        assert PathParams(ps) == pp;
        assert pp[..|pp| - 1] == PathParams(init);
        assert pp[|pp| - 1] == last;
        assert Accumulate(url, ps) == Accumulate(url, pp);
      } else {
        assert PathParams(ps) == PathParams(init);
        assert Accumulate(url, ps) == Accumulate(url, init);
      }
    }
  }

  /** Removing one parameter that is not a path parameter leaves the result unchanged. */
  lemma RenderWithoutParamAt(url: string, ps: seq<Param>, i: nat)
    requires i < |ps| && !IsPathParam(ps[i])
    ensures Render(url, ps[..i] + ps[i + 1..]) == Render(url, ps)
  {
    var before, after := ps[..i], ps[i + 1..];
    assert ps == (before + [ps[i]]) + after;
    assert PathParams([ps[i]]) == [] by {
      assert [ps[i]][..0] == [];
    }
    PathParamsAppend(before + [ps[i]], after);
    PathParamsAppend(before, [ps[i]]);
    PathParamsAppend(before, after);
    assert PathParams(ps) == PathParams(before + after);
    RenderIgnoresOtherParams(url, ps);
    RenderIgnoresOtherParams(url, before + after);
  }

  /** One path parameter, in the intended form of the loop state. */
  lemma AddPathParamIntended(s: string, names: seq<string>, name: string)
    requires NoClosingBrace(names)
    ensures AddPathParam(Scan(Quote(s) + OpenArgs(names), |names|), name)
         == Scan(Quote(Substitute(s, name)) + OpenArgs(names + [name]), |names| + 1)
  {
    OpenArgsWithoutClosingBrace(names);
    ReplaceKeepsSuffix(Quote(s), OpenArgs(names), Placeholder(name), FormatMarker);
    QuoteSubstitute(s, name);
    OpenArgsAppend(names, name);
  }

  /**
    When no path parameter's name contains `}`, the loop state is the URL
    literal with all placeholders substituted, followed by the open
    argument list of the path parameters in input order.
   */
  lemma {:induction false} AccumulateIntended(url: string, ps: seq<Param>)
    requires NamesAreStrings(ps) && NoClosingBrace(PathNames(ps))
    ensures
      var names := PathNames(ps);
      Accumulate(url, ps) == Ok(Scan(Quote(SubstituteAll(url, names)) + OpenArgs(names), |names|))
    decreases |ps|
  {
    if ps != [] {
      var init, last := ps[..|ps| - 1], ps[|ps| - 1];
      assert NamesAreStrings(init) by {
        assert forall i | 0 <= i < |init| :: init[i] == ps[i];
      }
      var names := PathNames(init);
      assert NoClosingBrace(names) by {
        assert forall i | 0 <= i < |names| :: names[i] == PathNames(ps)[i];
      }
      AccumulateIntended(url, init);
      if IsPathParam(last) {
        var name := NameOf(last).value;
        assert PathNames(ps) == names + [name];
        var s := SubstituteAll(url, names);
        assert (names + [name])[..|names|] == names;
        assert SubstituteAll(url, names + [name]) == Substitute(s, name);
        var scan := Scan(Quote(s) + OpenArgs(names), |names|);
        assert Accumulate(url, init) == Ok(scan);
        assert Accumulate(url, ps) == Ok(AddPathParam(scan, name));
        AddPathParamIntended(s, names, name);
      } else {
        assert PathNames(ps) == names;
      }
    } else {
      assert Quote(url) + OpenArgs([]) == Quote(url);
    }
  }

  /**
    When no path parameter's name contains `}`, the helper builds the
    intended expression: every placeholder of a path parameter replaced
    by `%s`, and the path parameters as format arguments in input order.
   */
  lemma RenderMatchesIntended(url: string, ps: seq<Param>)
    requires NamesAreStrings(ps) && NoClosingBrace(PathNames(ps))
    ensures Render(url, ps) == Ok(Intended(url, PathNames(ps)))
  {
    AccumulateIntended(url, ps);
    var names := PathNames(ps);
    var lit := Quote(SubstituteAll(url, names));
    var close := if |names| > 0 then "]" else "";
    assert ArgList(names) == OpenArgs(names) + close;
    assert Render(url, ps) == Ok("(" + (lit + OpenArgs(names)) + close + ")");
    assert "(" + (lit + OpenArgs(names)) + close + ")" == "(" + lit + (OpenArgs(names) + close) + ")";
  }

  /**
    With at least one path parameter and no `}` in any name, the result
    ends with the format operator applied to the parameter names, in input
    order and with duplicates kept.
   */
  lemma RenderEndsWithArguments(url: string, ps: seq<Param>)
    requires NamesAreStrings(ps) && NoClosingBrace(PathNames(ps)) && PathNames(ps) != []
    ensures Render(url, ps).Ok?
    ensures HasSuffix(Render(url, ps).value, "% [" + Join(PathNames(ps)) + "])")
  {
    RenderMatchesIntended(url, ps);
    var names := PathNames(ps);
    var tail := "% [" + Join(names) + "])";
    var r := Intended(url, names);
    assert r == "(" + Quote(SubstituteAll(url, names)) + tail;
  }

  // ---------------------------------------------------------------------
  // Placeholders: which ones are substituted and which are left
  // ---------------------------------------------------------------------

  /** Two different plain placeholders cannot start at the same position. */
  lemma PlaceholderMismatch(n: string, m: string, z: string)
    requires n != m && '}' !in n && '}' !in m
    ensures !HasPrefix(Placeholder(n) + z, Placeholder(m))
  {
    var s, pat := Placeholder(n) + z, Placeholder(m);
    if |m| < |n| {
      assert s[|m| + 1] == n[|m|];
      assert pat[|m| + 1] == '}';
      if |pat| <= |s| {
        assert s[..|pat|][|m| + 1] == n[|m|];
      }
    } else if |n| < |m| {
      assert s[|n| + 1] == '}';
      assert pat[|n| + 1] == m[|n|];
      if |pat| <= |s| {
        assert s[..|pat|][|n| + 1] == '}';
      }
    } else {
      assert s[..|pat|] == Placeholder(n);
      assert Placeholder(n)[1..|n| + 1] == n;
      assert pat[1..|m| + 1] == m;
    }
  }

  /**
    After substituting plain names one after the other, the placeholder of
    a plain name is left exactly when the URL had it and the name was not
    substituted.
   */
  lemma {:induction false} SubstituteAllPlaceholders(s: string, names: seq<string>, n: string)
    requires PlainNames(names) && PlainName(n)
    ensures Contains(SubstituteAll(s, names), Placeholder(n)) <==> Contains(s, Placeholder(n)) && n !in names
    decreases |names|
  {
    if names != [] {
      var init, m := names[..|names| - 1], names[|names| - 1];
      assert PlainNames(init) by {
        assert forall i | 0 <= i < |init| :: init[i] == names[i];
      }
      assert names == init + [m];
      SubstituteAllPlaceholders(s, init, n);
      var before := SubstituteAll(s, init);
      var t, pat := Placeholder(n), Placeholder(m);
      assert t[0] == '{' && t[1..] == n + "}";
      assert pat[0] == '{' && pat[1..] == m + "}";
      if m == n {
        ReplaceLeavesNoOccurrence(before, t, FormatMarker);
      } else {
        if !Contains(before, t) {
          ReplaceCreatesNoOccurrence(before, pat, FormatMarker, t);
        } else {
          var x, z := ContainsSplit(before, t);
          PlaceholderMismatch(n, m, z);
          ReplaceKeepsOccurrence(x, t, z, pat, FormatMarker);
          ContainsInfix(ReplaceAll(x, pat, FormatMarker), t, ReplaceAll(z, pat, FormatMarker));
        }
      }
    }
  }

  /**
    With plain path parameter names, the result holds the placeholder of a
    plain name exactly when the URL template holds it and no path parameter
    has that name: a placeholder without a matching path parameter passes
    through unchanged, and every matched one is gone.
   */
  lemma RenderPlaceholders(url: string, ps: seq<Param>, n: string)
    requires NamesAreStrings(ps) && PlainNames(PathNames(ps)) && PlainName(n)
    ensures Render(url, ps).Ok?
    ensures Contains(Render(url, ps).value, Placeholder(n)) <==> Contains(url, Placeholder(n)) && n !in PathNames(ps)
  {
    var names := PathNames(ps);
    RenderMatchesIntended(url, ps);
    OpenArgsWithoutClosingBrace(names);
    SubstituteAllPlaceholders(url, names, n);
    var s := SubstituteAll(url, names);
    var head, tail := "(\"", "\"" + ArgList(names) + ")";
    var t := Placeholder(n);
    assert Intended(url, names) == head + (s + tail);
    assert t[0] == '{' && t[|t| - 1] == '}';
    ContainsSkipsHead(head, s + tail, t);
    ContainsSkipsTail(s, tail, t);
    if Contains(s, t) {
      ContainsInLeft(s, tail, t);
      ContainsInRight(head, s + tail, t);
    }
  }

  // ---------------------------------------------------------------------
  // Examples
  // ---------------------------------------------------------------------

  /** A decoded Swagger Parameter Object with the given location and name. */
  function ParamIn(location: string, name: string): Param {
    ParamObject(map["in" := JString(location), "name" := JString(name)])
  }

  /** Text without an opening brace holds no placeholder. */
  lemma SubstituteWithoutBrace(s: string, name: string)
    requires '{' !in s
    ensures Substitute(s, name) == s
  {
    assert Placeholder(name)[0] == '{';
    assert s + [] == s;
    ReplaceKeepsPrefix(s, [], Placeholder(name), FormatMarker);
  }

  /** A placeholder preceded by text without an opening brace is replaced by `%s`. */
  lemma SubstituteFirst(pre: string, name: string, post: string)
    requires '{' !in pre
    ensures Substitute(pre + Placeholder(name) + post, name) == pre + FormatMarker + Substitute(post, name)
  {
    var pat := Placeholder(name);
    assert pat[0] == '{';
    assert pre + pat + post == pre + (pat + post);
    ReplaceKeepsPrefix(pre, pat + post, pat, FormatMarker);
    assert (pat + post)[..|pat|] == pat && (pat + post)[|pat|..] == post;
  }

  /**
    A URL with one placeholder and one path parameter of that name: the
    placeholder becomes `%s` and the name is the only format argument.
   */
  lemma OnePathParam(pre: string, name: string, post: string)
    requires '{' !in pre && '{' !in post
    ensures Render(pre + Placeholder(name) + post, [ParamIn(PathLocation, name)])
         == Ok("(" + Quote(pre + FormatMarker + post) + "% [" + name + "])")
  {
    var url, ps := pre + Placeholder(name) + post, [ParamIn(PathLocation, name)];
    assert ps[..|ps| - 1] == [];
    assert NameOf(ps[0]) == Some(name);
    assert Quote(url) == ("\"" + pre) + Placeholder(name) + (post + "\"");
    SubstituteFirst("\"" + pre, name, post + "\"");
    SubstituteWithoutBrace(post + "\"", name);
    var text := Quote(pre + FormatMarker + post) + "% [" + name;
    assert AddPathParam(Scan(Quote(url), 0), name) == Scan(text, 1);
    assert Accumulate(url, ps) == Ok(Scan(text, 1));
    assert "(" + text + "]" + ")" == "(" + Quote(pre + FormatMarker + post) + "% [" + name + "])";
  }

  /** A body parameter is ignored even when its name matches a placeholder. */
  lemma ExampleBodyParamIgnored()
    ensures Render("/v1/a/{x}", [ParamIn("body", "x")]) == Ok("(\"/v1/a/{x}\")")
  {
    var url, ps := "/v1/a/{x}", [ParamIn("body", "x")];
    assert ps[..0] == [];
    assert "body"[0] != "path"[0];
    assert !IsPathParam(ps[0]);
    assert Accumulate(url, ps) == Ok(Scan(Quote(url), 0));
    assert "(" + Quote(url) + "" + ")" == "(\"/v1/a/{x}\")";
  }

  /** A path parameter named `{n}` followed by one named `n`. */
  function PlaceholderThenName(n: string): seq<Param> {
    [ParamIn(PathLocation, Placeholder(n)), ParamIn(PathLocation, n)]
  }

  /**
    For a URL without placeholders, the parameters `{n}` then `n` render
    with `%s` as the first format argument: the second substitution rewrites
    the first parameter's name in the argument list.
   */
  lemma RenderPlaceholderThenName(url: string, n: string)
    requires '{' !in url && '{' !in n
    ensures Render(url, PlaceholderThenName(n)) == Ok("(" + Quote(url) + "% [" + FormatMarker + ", " + n + "])")
  {
    var ps := PlaceholderThenName(n);
    assert ps[..|ps| - 1] == [ps[0]] && ps[..1] == [ps[0]] && ps[..1][..0] == [];
    assert NameOf(ps[0]) == Some(Placeholder(n)) && NameOf(ps[1]) == Some(n);
    var lit := Quote(url);
    assert '{' !in lit;
    // the parameter named `{n}`: the quoted URL holds no placeholder
    SubstituteWithoutBrace(lit, Placeholder(n));
    var text1 := lit + "% [" + Placeholder(n);
    assert Accumulate(url, ps[..1]) == Ok(Scan(text1, 1));
    // the parameter named `n`: its placeholder is the first argument
    assert '{' !in lit + "% [";
    assert text1 == (lit + "% [") + Placeholder(n) + "";
    SubstituteFirst(lit + "% [", n, "");
    assert Substitute("", n) == "";
    var text2 := lit + "% [" + FormatMarker + ", " + n;
    assert AddPathParam(Scan(text1, 1), n) == Scan(text2, 2);
    assert Accumulate(url, ps) == Ok(Scan(text2, 2));
    assert "(" + text2 + "]" + ")" == "(" + Quote(url) + "% [" + FormatMarker + ", " + n + "])";
  }

  /**
    The substitution runs over everything built so far, argument list
    included, so a path parameter whose name is another one's placeholder
    does not render as intended: the expression has `%s` where the intended
    one has `{n}`.
   */
  lemma SubstitutionReachesArguments(url: string, n: string)
    requires '{' !in url && '{' !in n
    ensures Render(url, PlaceholderThenName(n)) != Ok(Intended(url, [Placeholder(n), n]))
  {
    RenderPlaceholderThenName(url, n);
    var lit := Quote(url);
    var r := "(" + lit + "% [" + FormatMarker + ", " + n + "])";
    var names := [Placeholder(n), n];
    assert names[..|names| - 1] == [names[0]] && names[..1][..0] == [];
    SubstituteWithoutBrace(url, Placeholder(n));
    SubstituteWithoutBrace(url, n);
    assert SubstituteAll(url, [names[0]]) == Substitute(SubstituteAll(url, []), names[0]) == url;
    assert SubstituteAll(url, names) == Substitute(SubstituteAll(url, [names[0]]), n) == url;
    assert Join(names) == Placeholder(n) + ", " + n;
    var intended := "(" + lit + ("% [" + (Placeholder(n) + ", " + n) + "]") + ")";
    assert Intended(url, names) == intended;
    var k := |lit| + 4;
    assert r[k] == '%';
    assert intended[k] == '{';
  }
}
