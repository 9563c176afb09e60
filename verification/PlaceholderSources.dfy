/**
 Which value a placeholder stands for (crates/containerproxy/src/config/loader.rs), spelled out in characters.
 */
module PlaceholderSources {
  import opened Wrappers
  import opened TextSearch
  import opened Placeholders
  import opened PlaceholderChains
  import opened ConfigPaths
  import opened ConfigTree
  import ConfigPlaceholders

  /** There is no `${`. */
  predicate IsPlainText(text: string) {
    forall i | 0 <= i < |text| - 1 :: !(text[i] == '$' && text[i + 1] == '{')
  }

  predicate IsBlank(text: string) {
    forall c | c in text :: c in WHITE_SPACE
  }

  /** A name ends no sooner than the first colon or brace, and has no white space around it. */
  predicate IsPropertyName(name: string) {
    && ':' !in name && '}' !in name
    && (name != "" ==> name[0] !in WHITE_SPACE && name[|name| - 1] !in WHITE_SPACE)
  }

  const WHITE_SPACE := "\t\n\U{0B}\U{0C}\r \U{85}\U{A0}\U{1680}\U{2000}\U{2001}\U{2002}\U{2003}\U{2004}\U{2005}"
    + "\U{2006}\U{2007}\U{2008}\U{2009}\U{200A}\U{2028}\U{2029}\U{202F}\U{205F}\U{3000}"

  lemma WhiteSpaceIsListed(c: char)
    ensures IsWhitespace(c) <==> c in WHITE_SPACE
  {
  }

  /** The environment variable of a property: `proxy.heartbeat-rate` is `PROXY_HEARTBEAT_RATE`. */
  predicate IsVariableOf(variable: string, name: string) {
    && |variable| == |name|
    && forall i | 0 <= i < |name| ::
         if name[i] == '.' || name[i] == '-' then variable[i] == '_'
         else if 'a' <= name[i] <= 'z' then variable[i] as int - 'A' as int == name[i] as int - 'a' as int
         else variable[i] == name[i]
  }

  function Joined(before: string, value: Option<string>, after: Option<string>): Option<string> {
    if value.None? || after.None? then None else Some(before + value.value + after.value)
  }

  lemma VariableIsEnvName(variable: string, name: string)
    requires IsVariableOf(variable, name)
    ensures variable == EnvName(name)
  {
    forall i | 0 <= i < |name|
      ensures variable[i] == EnvName(name)[i]
    {
    }
  }

  lemma FirstCharacter(text: string, c: char, at: nat)
    requires at < |text| && text[at] == c && forall i | 0 <= i < at :: text[i] != c
    ensures Find(text, [c]) == Some(at)
  {
    assert Occurs(text, [c], at, |text|);
    forall i: nat | i < at
      ensures !Occurs(text, [c], i, |text|)
    {
      assert text[i..i + 1] == [text[i]];
    }
  }

  lemma NoCharacter(text: string, c: char)
    requires c !in text
    ensures Find(text, [c]) == None
  {
    forall i: nat | i <= |text|
      ensures !Occurs(text, [c], i, |text|)
    {
      if i < |text| {
        assert text[i..i + 1] == [text[i]];
      }
    }
  }

  lemma FirstPlaceholder(before: string, rest: string)
    requires IsPlainText(before)
    ensures Find(before + "${" + rest, "${") == Some(|before|)
  {
    var text := before + "${" + rest;
    assert Occurs(text, "${", |before|, |text|);
    forall i: nat | i < |before|
      ensures !Occurs(text, "${", i, |text|)
    {
      assert text[i..i + 2] == [text[i], text[i + 1]];
      if i + 1 < |before| {
        assert !(before[i] == '$' && before[i + 1] == '{');
      } else {
        assert text[i + 1] == '$';
      }
    }
  }

  lemma NoPlaceholder(text: string)
    requires IsPlainText(text)
    ensures Pieces(text) == [Literal(text)]
  {
    forall i: nat | i <= |text|
      ensures !Occurs(text, "${", i, |text|)
    {
      if i + 2 <= |text| {
        assert text[i..i + 2] == [text[i], text[i + 1]];
      }
    }
  }

  lemma PlainIsUnchanged(sources: Sources, text: string, depth: nat)
    requires IsPlainText(text) && depth <= 8
    ensures Resolve(sources, text, depth) == Some(text)
  {
    hide Pieces, Resolve;
    NoPlaceholder(text);
    UnboundIsUnchanged(sources, text, depth);
  }

  // The name in an expression.

  lemma NameIsTrimmed(left: string, name: string, right: string)
    requires IsBlank(left) && IsBlank(right) && IsPropertyName(name)
    ensures Trim(left + name + right) == name
  {
    hide IsWhitespace, Trim, WHITE_SPACE;
    if name != "" {
      WhiteSpaceIsListed(name[0]);
      WhiteSpaceIsListed(name[|name| - 1]);
    }
    BlankIsTrimmed(left, name, right);
  }

  lemma {:induction false} BlankIsTrimmed(left: string, name: string, right: string)
    requires IsBlank(left) && IsBlank(right)
    requires name != "" ==> !IsWhitespace(name[0]) && !IsWhitespace(name[|name| - 1])
    ensures Trim(left + name + right) == name
    decreases |left| + |right|
  {
    hide IsWhitespace;
    var text := left + name + right;
    BlankIsWhitespace(left);
    BlankIsWhitespace(right);
    if left != "" {
      assert text[1..] == left[1..] + name + right;
      assert forall c | c in left[1..] :: c in left;
      BlankIsTrimmed(left[1..], name, right);
    } else if name == "" {
      assert text == right;
      AllTrimmed(right);
    } else {
      assert text == name + right;
      RightTrimmed(name, right);
    }
  }

  lemma BlankIsWhitespace(text: string)
    requires IsBlank(text)
    ensures forall c | c in text :: IsWhitespace(c)
  {
    hide IsWhitespace, WHITE_SPACE;
    forall c | c in text
      ensures IsWhitespace(c)
    {
      WhiteSpaceIsListed(c);
    }
  }

  lemma {:induction false} AllTrimmed(text: string)
    requires forall c | c in text :: IsWhitespace(c)
    ensures Trim(text) == ""
  {
    hide IsWhitespace;
    if text != "" {
      AllTrimmed(text[1..]);
    }
  }

  lemma {:induction false} RightTrimmed(name: string, right: string)
    requires name != "" && !IsWhitespace(name[|name| - 1])
    requires forall c | c in right :: IsWhitespace(c)
    ensures TrimEnd(name + right) == name
  {
    hide IsWhitespace;
    var text := name + right;
    if right != "" {
      assert text[..|text| - 1] == name + right[..|right| - 1];
      assert text[|text| - 1] == right[|right| - 1];
      RightTrimmed(name, right[..|right| - 1]);
    } else {
      assert text == name;
    }
  }

  lemma BoundWithDefault(sources: Sources, left: string, name: string, right: string, default: string)
    requires IsBlank(left) && IsBlank(right) && IsPropertyName(name)
    ensures var value := Lookup(sources, name);
      Bound(sources, left + name + right + ":" + default) == if value.Some? then value else Some(default)
  {
    hide IsWhitespace, Lookup, FindIn, Trim, WHITE_SPACE;
    var key := left + name + right;
    var expression := key + ":" + default;
    BlankHasNoMark(left);
    BlankHasNoMark(right);
    assert ':' !in key;
    assert forall i | 0 <= i < |key| :: expression[i] == key[i];
    FirstCharacter(expression, ':', |key|);
    assert expression[..|key|] == key && expression[|key| + 1..] == default;
    NameIsTrimmed(left, name, right);
  }

  lemma BoundWithoutDefault(sources: Sources, left: string, name: string, right: string)
    requires IsBlank(left) && IsBlank(right) && IsPropertyName(name)
    ensures Bound(sources, left + name + right) == Lookup(sources, name)
  {
    hide IsWhitespace, Lookup, FindIn, Trim, WHITE_SPACE;
    BlankHasNoMark(left);
    BlankHasNoMark(right);
    NoCharacter(left + name + right, ':');
    NameIsTrimmed(left, name, right);
  }

  // The placeholder in its text.

  lemma PlaceholderInText(sources: Sources, before: string, expression: string, after: string, depth: nat)
    requires IsPlainText(before) && '}' !in expression && depth <= 8
    ensures Resolve(sources, before + "${" + expression + "}" + after, depth)
         == Joined(before, ResolvePiece(sources, Placeholder(expression), depth), Resolve(sources, after, depth))
  {
    hide FindIn, ResolvePiece, ResolveAll, Pieces;
    var rest := expression + "}" + after;
    var text := before + "${" + expression + "}" + after;
    assert text == before + "${" + rest;
    FirstPlaceholder(before, rest);
    assert text[|before| + 2..] == rest;
    FirstCharacter(rest, '}', |expression|);
    assert rest[..|expression|] == expression && rest[|expression| + 1..] == after && text[..|before|] == before;
    FirstPieces(sources, text, depth);
    var piece := ResolvePiece(sources, Placeholder(expression), depth);
    var tail := Resolve(sources, after, depth);
    if piece.Some? && tail.Some? {
      assert before + (piece.value + tail.value) == before + piece.value + tail.value;
    }
  }

  /**
   A placeholder with a default stands for the first of these there is: the environment variable spelled like the name,
   the variable of the name, the property, the default. The value is resolved in turn, and so is the text behind.
   */
  lemma ValueOrDefault(
      sources: Sources, before: string, left: string, name: string, right: string, default: string, after: string,
      variable: string, depth: nat)
    requires IsPlainText(before) && IsBlank(left) && IsPropertyName(name) && IsBlank(right) && '}' !in default
    requires IsVariableOf(variable, name) && depth <= 8
    ensures var text := before + "${" + left + name + right + ":" + default + "}" + after;
      var result, rest := Resolve(sources, text, depth), Resolve(sources, after, depth);
      && (name in sources.env ==>
            result == Joined(before, Resolve(sources, sources.env[name], depth + 1), rest))
      && (name !in sources.env && variable in sources.env ==>
            result == Joined(before, Resolve(sources, sources.env[variable], depth + 1), rest))
      && (name !in sources.env && variable !in sources.env && sources.property(name).Some? ==>
            result == Joined(before, Resolve(sources, sources.property(name).value, depth + 1), rest))
      && (name !in sources.env && variable !in sources.env && sources.property(name).None? ==>
            result == Joined(before, Resolve(sources, default, depth + 1), rest))
  {
    hide IsWhitespace, Resolve, Bound, IsBlank, IsPlainText, IsVariableOf;
    var expression := left + name + right + ":" + default;
    BlankHasNoMark(left);
    BlankHasNoMark(right);
    assert before + "${" + left + name + right + ":" + default + "}" + after
        == before + "${" + expression + "}" + after;
    PlaceholderInText(sources, before, expression, after, depth);
    BoundWithDefault(sources, left, name, right, default);
    VariableIsEnvName(variable, name);
  }

  lemma BlankHasNoMark(text: string)
    requires IsBlank(text)
    ensures '}' !in text && ':' !in text
  {
    hide WHITE_SPACE;
    WhiteSpaceIsListed('}');
    WhiteSpaceIsListed(':');
  }

  /** Without a default, a placeholder that none of the sources has stays as it is written. */
  lemma ValueOrUnchanged(
      sources: Sources, before: string, left: string, name: string, right: string, after: string,
      variable: string, depth: nat)
    requires IsPlainText(before) && IsBlank(left) && IsPropertyName(name) && IsBlank(right)
    requires IsVariableOf(variable, name) && depth <= 8
    ensures var text := before + "${" + left + name + right + "}" + after;
      var result, rest := Resolve(sources, text, depth), Resolve(sources, after, depth);
      && (name in sources.env ==>
            result == Joined(before, Resolve(sources, sources.env[name], depth + 1), rest))
      && (name !in sources.env && variable in sources.env ==>
            result == Joined(before, Resolve(sources, sources.env[variable], depth + 1), rest))
      && (name !in sources.env && variable !in sources.env && sources.property(name).Some? ==>
            result == Joined(before, Resolve(sources, sources.property(name).value, depth + 1), rest))
      && (name !in sources.env && variable !in sources.env && sources.property(name).None? ==>
            result == Joined(before, Some("${" + left + name + right + "}"), rest))
  {
    hide IsWhitespace, Resolve, Bound, IsBlank, IsPlainText, IsVariableOf;
    var expression := left + name + right;
    BlankHasNoMark(left);
    BlankHasNoMark(right);
    assert before + "${" + left + name + right + "}" + after == before + "${" + expression + "}" + after;
    PlaceholderInText(sources, before, expression, after, depth);
    BoundWithoutDefault(sources, left, name, right);
    VariableIsEnvName(variable, name);
    assert "${" + expression + "}" == "${" + left + name + right + "}";
  }

  /** A value without placeholders is put in as it is, up to eight levels deep. */
  lemma PlainValues(
      sources: Sources, before: string, name: string, default: string, variable: string, depth: nat)
    requires IsPlainText(before) && IsPropertyName(name) && '}' !in default && IsPlainText(default)
    requires IsVariableOf(variable, name) && depth < 8
    requires name in sources.env ==> IsPlainText(sources.env[name])
    requires variable in sources.env ==> IsPlainText(sources.env[variable])
    requires sources.property(name).Some? ==> IsPlainText(sources.property(name).value)
    ensures Resolve(sources, before + "${" + name + ":" + default + "}", depth)
         == Some(before +
                 if name in sources.env then sources.env[name]
                 else if variable in sources.env then sources.env[variable]
                 else if sources.property(name).Some? then sources.property(name).value
                 else default)
    ensures Resolve(sources, before + "${" + name + "}", depth)
         == Some(before +
                 if name in sources.env then sources.env[name]
                 else if variable in sources.env then sources.env[variable]
                 else if sources.property(name).Some? then sources.property(name).value
                 else "${" + name + "}")
  {
    hide Resolve, IsPlainText, IsVariableOf, IsPropertyName;
    ValueOrDefault(sources, before, "", name, "", default, "", variable, depth);
    ValueOrUnchanged(sources, before, "", name, "", "", variable, depth);
    NothingIsPlain();
    PlainIsUnchanged(sources, "", depth);
    var written := before + "${" + name;
    assert before + "${" + "" + name + "" + ":" + default + "}" + "" == written + ":" + default + "}";
    assert before + "${" + "" + name + "" + "}" + "" == written + "}";
    assert "${" + "" + name + "" + "}" == "${" + name + "}";
    forall value: string
      ensures Joined(before, Some(value), Some("")) == Some(before + value)
    {
      assert before + value + "" == before + value;
    }
    PlainIsUnchanged(sources, default, depth + 1);
    if name in sources.env {
      PlainIsUnchanged(sources, sources.env[name], depth + 1);
    }
    if variable in sources.env {
      PlainIsUnchanged(sources, sources.env[variable], depth + 1);
    }
    if sources.property(name).Some? {
      PlainIsUnchanged(sources, sources.property(name).value, depth + 1);
    }
  }

  lemma NothingIsPlain()
    ensures IsPlainText("")
  {
  }

  /** A text is resolved in nine rounds at most, each one level deeper. */
  lemma TooDeepAtTen(sources: Sources, raw: string)
    ensures Resolve(sources, raw, 0).None? <==> exists chain :: IsChainFrom(sources, raw, chain) && |chain| == 10
  {
    hide Resolve, IsChainFrom;
    FailsExactlyWhenTooDeep(sources, raw, 0);
  }

  /** A property stands for its text; a boolean is written out, and null is no value. */
  lemma PropertyIsText(
      root: Value, env: map<string, string>, json: Value -> string, before: string, name: string, variable: string)
    requires IsPlainText(before) && IsPropertyName(name) && IsVariableOf(variable, name)
    requires name !in env && variable !in env
    ensures var text := before + "${" + name + "}";
      var result := ConfigPlaceholders.Resolver(root, env, json)(text);
      var found := GetAt(root, Segments(name));
      && (found.None? || found == Some(Null) ==> result == Some(text))
      && (found.Some? && found.value.Text? && IsPlainText(found.value.text) ==>
            result == Some(before + found.value.text))
      && (found == Some(Bool(true)) ==> result == Some(before + "true"))
      && (found == Some(Bool(false)) ==> result == Some(before + "false"))
      && (found.Some? && !found.value.Null? && !found.value.Text? && !found.value.Bool?
            && IsPlainText(json(found.value)) ==>
            result == Some(before + json(found.value)))
  {
    hide Resolve, IsPlainText, IsPropertyName, IsVariableOf, GetAt, Segments;
    var sources := ConfigPlaceholders.SourcesOf(root, env, json);
    var rest := before + "${" + name;
    assert before + "${" + "" + name + "" + "}" + "" == before + "${" + name + "}";
    assert before + ("${" + "" + name + "" + "}") + "" == before + "${" + name + "}";
    NothingIsPlain();
    PlainIsUnchanged(sources, "", 0);
    ValueOrUnchanged(sources, before, "", name, "", "", variable, 0);
    var value := sources.property(name);
    if value.Some? {
      BooleanTextsArePlain();
      assert before + value.value + "" == before + value.value;
      if IsPlainText(value.value) {
        PlainIsUnchanged(sources, value.value, 1);
      }
    }
  }

  lemma BooleanTextsArePlain()
    ensures IsPlainText("true") && IsPlainText("false")
  {
  }
}
