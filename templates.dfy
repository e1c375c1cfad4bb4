/**
 * Prompt templates: a template file's text with `{{key}}` placeholders that
 * are replaced, keyword argument by keyword argument, by the given values.
 * Reading the file is not modelled: its content is the `template` input.
 */
module Templates {
  import opened Strings

  /** The placeholder that the keyword argument `key` fills: `{{key}}`. */
  function Marker(key: string): (m: string)
    ensures |m| == |key| + 4
    ensures StartsWith(m, "{{") && m[|m| - 2..] == "}}"
    ensures m[2..|m| - 2] == key
  {
    "{{" + key + "}}"
  }

  /**
   * The text after the replacements have been applied in argument order,
   * each one to the result of the previous one.
   */
  function Rendered(template: string, replacements: seq<(string, string)>): string
    decreases |replacements|
  {
    if replacements == [] then template
    else
      var (key, value) := replacements[|replacements| - 1];
      ReplaceAll(Rendered(template, replacements[..|replacements| - 1]), Marker(key), value)
  }

  /** Loads nothing: substitutes into the already-loaded `template`, one key at a time. */
  method RenderTemplate(template: string, replacements: seq<(string, string)>) returns (content: string)
    ensures content == Rendered(template, replacements)
    ensures replacements == [] ==> content == template
  {
    content := template;
    for i := 0 to |replacements|
      invariant content == Rendered(template, replacements[..i])
    {
      var (key, value) := replacements[i];
      assert replacements[..i + 1][..i] == replacements[..i];
      content := ReplaceAll(content, Marker(key), value);
    }
    assert replacements[..|replacements|] == replacements;
  }

  /** Rendering with a list of replacements is rendering with its first part, then with the rest. */
  lemma {:induction false} RenderedSequential(template: string, first: seq<(string, string)>, rest: seq<(string, string)>)
    ensures Rendered(template, first + rest) == Rendered(Rendered(template, first), rest)
    decreases |rest|
  {
    if rest == [] {
      assert first + rest == first;
    } else {
      var all := first + rest;
      assert all[..|all| - 1] == first + rest[..|rest| - 1];
      assert all[|all| - 1] == rest[|rest| - 1];
      RenderedSequential(template, first, rest[..|rest| - 1]);
    }
  }

  /** A template containing none of the markers comes back unchanged. */
  lemma {:induction false} RenderedWithoutMarkers(template: string, replacements: seq<(string, string)>)
    requires forall i :: 0 <= i < |replacements| ==> !Occurs(template, Marker(replacements[i].0))
    ensures Rendered(template, replacements) == template
    decreases |replacements|
  {
    if replacements != [] {
      var n := |replacements| - 1;
      RenderedWithoutMarkers(template, replacements[..n]);
      ReplaceAbsent(template, Marker(replacements[n].0), replacements[n].1);
    }
  }

  /** A single-brace `{key}` is not a placeholder. */
  lemma SingleBracesAreKept(key: string, value: string)
    ensures Rendered("{" + key + "}", [(key, value)]) == "{" + key + "}"
  {
    var t := "{" + key + "}";
    assert !Occurs(t, Marker(key)) by {
      assert |t| < |Marker(key)|;
    }
    RenderedWithoutMarkers(t, [(key, value)]);
  }

  /** Both placeholders for one key are replaced, not just the first. */
  lemma EveryOccurrenceReplaced(key: string, middle: string, value: string)
    requires '{' !in middle
    ensures Rendered(Marker(key) + middle + Marker(key), [(key, value)]) == value + middle + value
  {
    var t := Marker(key) + middle + Marker(key);
    assert [(key, value)][..0] == [];
    assert Rendered(t, [(key, value)]) == ReplaceAll(t, Marker(key), value);
    ReplaceAroundMiddle(Marker(key), middle, value);
  }

  /** A value inserted for an earlier key is itself rewritten by a later key. */
  lemma LaterKeyRewritesEarlierValue()
    ensures Rendered("{{a}}", [("a", "{{b}}"), ("b", "x")]) == "x"
    ensures Rendered("{{a}}", [("b", "x"), ("a", "{{b}}")]) == "{{b}}"
  {
    var ma, mb := Marker("a"), Marker("b");
    assert ma == "{{a}}" && mb == "{{b}}";
    assert [("a", "{{b}}"), ("b", "x")][..1] == [("a", "{{b}}")];
    assert [("b", "x"), ("a", "{{b}}")][..1] == [("b", "x")];
    assert ReplaceAll(ma, ma, mb) == mb;
    assert ReplaceAll(mb, mb, "x") == "x";
    assert !Occurs(ma, mb);
    ReplaceAbsent(ma, mb, "x");
  }
}
