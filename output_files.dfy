/**
  The name of the GDScript file generated for one Swagger description:
  the output directory, `Agones`, the description's identifier in title
  case (Go's `strings.Title`, here for ASCII text), and `.gd`.
 */
module OutputFiles {

  /** The directory the generated files go to. */
  const Directory := "addons/com.google.agones"

  /** The Swagger descriptions the generator processes, in order. */
  const SwaggerFiles := ["sdk", "alpha", "beta"]

  predicate IsAscii(s: string) {
    forall i | 0 <= i < |s| :: s[i] < 128 as char
  }

  /** For ASCII, `strings.Title` starts a word after anything but a letter, a digit or `_`. */
  predicate IsSeparator(c: char) {
    !('a' <= c <= 'z' || 'A' <= c <= 'Z' || '0' <= c <= '9' || c == '_')
  }

  /** `unicode.ToTitle` on ASCII: lower-case letters become upper-case, the rest stay. */
  function ToTitle(c: char): char {
    if 'a' <= c <= 'z' then (c as int - 32) as char else c
  }

  /**
    `strings.Title`'s scan from a previous character `prev`: each character
    that follows a separator is title-cased, every other one is kept.
   */
  function TitleAfter(prev: char, s: string): (r: string)
    requires prev < 128 as char && IsAscii(s)
    ensures |r| == |s| && IsAscii(r)
    ensures forall i | 0 <= i < |s| ::
      r[i] == if IsSeparator(if i == 0 then prev else s[i - 1]) then ToTitle(s[i]) else s[i]
    decreases |s|
  {
    if s == [] then []
    else [if IsSeparator(prev) then ToTitle(s[0]) else s[0]] + TitleAfter(s[0], s[1..])
  }

  /**
    `strings.Title` on ASCII text: a character is title-cased exactly when
    it starts the text or follows a separator.
   */
  function Title(s: string): (r: string)
    requires IsAscii(s)
    ensures |r| == |s| && IsAscii(r)
    ensures forall i | 0 <= i < |s| ::
      r[i] == if i == 0 || IsSeparator(s[i - 1]) then ToTitle(s[i]) else s[i]
  {
    TitleAfter(' ', s)
  }

  /** Title-casing neither makes nor unmakes a separator. */
  lemma ToTitleKeepsSeparator(c: char)
    ensures IsSeparator(ToTitle(c)) == IsSeparator(c)
  {
    if 'a' <= c <= 'z' {
      assert 'A' <= ToTitle(c) <= 'Z';
    }
  }

  lemma ToTitleTwice(c: char)
    ensures ToTitle(ToTitle(c)) == ToTitle(c)
  {
    if 'a' <= c <= 'z' {
      assert 'A' <= ToTitle(c) <= 'Z';
    }
  }

  /** Title-casing twice is title-casing once. */
  lemma TitleIdempotent(s: string)
    requires IsAscii(s)
    ensures Title(Title(s)) == Title(s)
  {
    var t := Title(s);
    var tt := Title(t);
    forall i | 0 <= i < |s| ensures tt[i] == t[i] {
      ToTitleTwice(s[i]);
      if i == 0 {
        assert tt[i] == ToTitle(t[i]);
      } else {
        ToTitleKeepsSeparator(s[i - 1]);
        assert t[i - 1] == if i - 1 == 0 || IsSeparator(s[i - 2]) then ToTitle(s[i - 1]) else s[i - 1];
      }
    }
  }

  /** The path of the file generated for the description `id`. */
  function OutputFileName(id: string): (r: string)
    requires IsAscii(id)
  {
    Directory + "/Agones" + Title(id) + ".gd"
  }

  /** Identifiers of lower-case letters and digits, like the descriptions' own. */
  predicate IsLowerIdentifier(id: string) {
    forall i | 0 <= i < |id| :: 'a' <= id[i] <= 'z' || '0' <= id[i] <= '9'
  }

  /** Different lower-case identifiers get different output files, so no file overwrites another. */
  lemma OutputFileNameInjective(a: string, b: string)
    requires IsLowerIdentifier(a) && IsLowerIdentifier(b)
    requires OutputFileName(a) == OutputFileName(b)
    ensures a == b
  {
    var prefix := Directory + "/Agones";
    var ta, tb := Title(a), Title(b);
    assert prefix + ta + ".gd" == prefix + tb + ".gd";
    assert |ta| == |tb|;
    assert ta == (prefix + ta + ".gd")[|prefix|..|prefix| + |ta|];
    assert tb == (prefix + tb + ".gd")[|prefix|..|prefix| + |tb|];
    forall i | 0 <= i < |a| ensures a[i] == b[i] {
      assert ta[i] == tb[i];
      if i > 0 {
        assert !IsSeparator(a[i - 1]) && !IsSeparator(b[i - 1]);
      }
    }
  }

  /** The output files of the three descriptions, `sdk` first. */
  lemma SdkOutput()
    ensures OutputFileName(SwaggerFiles[0]) == "addons/com.google.agones/AgonesSdk.gd"
  {
    TitleOfWord('s', "dk");
    assert "sdk" == ['s'] + "dk";
  }

  lemma AlphaOutput()
    ensures OutputFileName(SwaggerFiles[1]) == "addons/com.google.agones/AgonesAlpha.gd"
  {
    TitleOfWord('a', "lpha");
    assert "alpha" == ['a'] + "lpha";
  }

  lemma BetaOutput()
    ensures OutputFileName(SwaggerFiles[2]) == "addons/com.google.agones/AgonesBeta.gd"
  {
    TitleOfWord('b', "eta");
    assert "beta" == ['b'] + "eta";
  }

  /** A word of lower-case letters gets only its first letter upper-cased. */
  lemma TitleOfWord(c: char, rest: string)
    requires 'a' <= c <= 'z' && IsLowerIdentifier(rest)
    ensures Title([c] + rest) == [(c as int - 32) as char] + rest
  {
    var s := [c] + rest;
    forall i | 0 < i < |s| ensures Title(s)[i] == s[i] {
      assert !IsSeparator(s[i - 1]);
    }
  }
}
