/**
 * The relationship-recommendation pipeline's two data steps: cleaning the
 * semantic model (MDL) before it is shown to the language model, and
 * validating the relationships the language model proposes against the
 * MDL's models and columns.
 *
 * JSON dictionaries are modelled by the keys these steps read; every other
 * key of a model, column or relationship is carried in `rest` untouched.
 */
module RelationshipRecommendation {
  import opened Optional

  /** A `properties` entry: missing, a dictionary, or present but not a dictionary. */
  datatype Properties = NoProperties | Dict(entries: map<string, string>) | NotADict(raw: string)

  /** A column's `relationship` key: missing, present with a falsy value, or present with a truthy one. */
  datatype RelationshipKey = NoRelationshipKey | FalsyRelationship | TruthyRelationship

  /** A column of a model. */
  datatype Column = Column(name: string, relationship: RelationshipKey, properties: Properties, rest: map<string, string>)

  /** A model; `columns` is `None` when the key is missing. */
  datatype Model = Model(name: string, columns: Option<seq<Column>>, properties: Properties, rest: map<string, string>)

  /** The MDL; `models` is `None` when the key is missing. */
  datatype Mdl = Mdl(models: Option<seq<Model>>)

  /** The property that cleaning removes. */
  const DisplayNameKey: string := "displayName"

  /** `remove_display_name` on the `properties` entry: only a dictionary is touched. */
  function RemoveDisplayName(p: Properties): (r: Properties)
    ensures r.Dict? <==> p.Dict?
    ensures !p.Dict? ==> r == p
    ensures p.Dict? ==> DisplayNameKey !in r.entries
    ensures p.Dict? ==> forall k :: k in r.entries <==> k in p.entries && k != DisplayNameKey
    ensures p.Dict? ==> forall k :: k in r.entries ==> r.entries[k] == p.entries[k]
  {
    match p
    case Dict(entries) => Dict(entries - {DisplayNameKey})
    case _ => p
  }

  /** The cleaned copy of a kept column. */
  function CleanColumn(c: Column): (r: Column)
    ensures r.(properties := c.properties) == c
    ensures c.properties.Dict? ==> r.properties.Dict? && DisplayNameKey !in r.properties.entries
  {
    c.(properties := RemoveDisplayName(c.properties))
  }

  /** The columns `column_filter` keeps, cleaned, in order. */
  function KeptColumns(columns: seq<Column>): (kept: seq<Column>)
    ensures |kept| <= |columns|
    ensures forall c :: c in kept ==> c.relationship == NoRelationshipKey
    ensures forall c :: c in kept ==> c.properties.Dict? ==> DisplayNameKey !in c.properties.entries
    ensures forall c :: c in kept ==> exists d :: d in columns && c == CleanColumn(d)
    decreases |columns|
  {
    if columns == [] then []
    else
      var last := columns[|columns| - 1];
      assert forall d :: d in columns[..|columns| - 1] ==> d in columns;
      KeptColumns(columns[..|columns| - 1]) + (if last.relationship == NoRelationshipKey then [CleanColumn(last)] else [])
  }

  /** `column_filter`: appends the cleaned copy of each column without a `relationship` key. */
  method ColumnFilter(columns: seq<Column>) returns (filtered: seq<Column>)
    ensures filtered == KeptColumns(columns)
  {
    filtered := [];
    for i := 0 to |columns|
      invariant filtered == KeptColumns(columns[..i])
    {
      assert columns[..i + 1][..i] == columns[..i];
      if columns[i].relationship == NoRelationshipKey {
        filtered := filtered + [CleanColumn(columns[i])];
      }
    }
    assert columns[..|columns|] == columns;
  }

  /** Filtering works segment by segment, so kept columns stay in their original order. */
  lemma {:induction false} KeptColumnsConcat(x: seq<Column>, y: seq<Column>)
    ensures KeptColumns(x + y) == KeptColumns(x) + KeptColumns(y)
    decreases |y|
  {
    if y == [] {
      assert x + y == x;
    } else {
      var n := |y| - 1;
      assert (x + y)[..|x + y| - 1] == x + y[..n];
      assert (x + y)[|x + y| - 1] == y[n];
      KeptColumnsConcat(x, y[..n]);
    }
  }

  /** A column without a `relationship` key is kept (cleaned); one with the key, whatever its value, is dropped. */
  lemma KeptColumnsSingle(c: Column)
    ensures KeptColumns([c]) == if c.relationship == NoRelationshipKey then [CleanColumn(c)] else []
  {
    assert [c][..0] == [];
  }

  /** `cleaned_models`: one cleaned model per input model, in order; none when `models` is missing. */
  function CleanedModels(mdl: Mdl): (r: seq<Model>)
    ensures mdl.models.None? ==> r == []
    ensures mdl.models.Some? ==> |r| == |mdl.models.value|
    ensures mdl.models.Some? ==> forall i :: 0 <= i < |r| ==>
      var m := mdl.models.value[i];
      && r[i].name == m.name && r[i].rest == m.rest
      && r[i].properties == RemoveDisplayName(m.properties)
      && r[i].columns == Some(KeptColumns(m.columns.GetOr([])))
  {
    match mdl.models
    case None => []
    case Some(models) =>
      seq(|models|, i requires 0 <= i < |models| =>
        models[i].(columns := Some(KeptColumns(models[i].columns.GetOr([]))),
                   properties := RemoveDisplayName(models[i].properties)))
  }

  // ---------------------------------------------------------------------
  // Validation

  /** The relationship types a recommendation may have. */
  datatype RelationType = ManyToOne | OneToMany | OneToOne {
    /** The enum value. */
    function Value(): string {
      match this
      case ManyToOne => "MANY_TO_ONE"
      case OneToMany => "ONE_TO_MANY"
      case OneToOne => "ONE_TO_ONE"
    }
  }

  /** The enum member with value `s`, if any. */
  function ParseRelationType(s: string): (t: Option<RelationType>)
    ensures t.Some? ==> t.value.Value() == s
  {
    if s == "MANY_TO_ONE" then Some(ManyToOne)
    else if s == "ONE_TO_MANY" then Some(OneToMany)
    else if s == "ONE_TO_ONE" then Some(OneToOne)
    else None
  }

  /** Every member's value parses back to that member. */
  lemma ParseRelationTypeOfValue(t: RelationType)
    ensures ParseRelationType(t.Value()) == Some(t)
  {
  }

  /** `RelationType.is_include`: the value is one of the enum's values (a missing value is not). */
  function IsInclude(value: Option<string>): (b: bool)
    ensures b <==> value.Some? && ParseRelationType(value.value).Some?
    ensures b ==> value.value in {"MANY_TO_ONE", "ONE_TO_MANY", "ONE_TO_ONE"}
  {
    value.Some? && value.value in {"MANY_TO_ONE", "ONE_TO_MANY", "ONE_TO_ONE"}
  }

  /** A proposed relationship; a missing key is `None`. */
  datatype Relationship = Relationship(
    relationType: Option<string>, fromModel: Option<string>, fromColumn: Option<string>,
    toModel: Option<string>, toColumn: Option<string>, rest: map<string, string>)

  /** The names of the columns whose `relationship` value is missing or falsy. */
  function ColumnNames(m: Model): set<string> {
    set c | c in m.columns.GetOr([]) && c.relationship != TruthyRelationship :: c.name
  }

  /** `model_columns`: each model name to its non-relationship column names; a later model of the same name wins. */
  function ModelColumns(models: seq<Model>): (mc: map<string, set<string>>)
    ensures mc.Keys == set m | m in models :: m.name
    decreases |models|
  {
    if models == [] then map[]
    else
      var n := |models| - 1;
      assert forall m :: m in models <==> m in models[..n] || m == models[n];
      ModelColumns(models[..n])[models[n].name := ColumnNames(models[n])]
  }

  /** The entry for a name lists the columns of the last model of that name. */
  lemma {:induction false} ModelColumnsLastWins(models: seq<Model>, i: int)
    requires 0 <= i < |models|
    requires forall j :: i < j < |models| ==> models[j].name != models[i].name
    ensures models[i].name in ModelColumns(models)
    ensures ModelColumns(models)[models[i].name] == ColumnNames(models[i])
    decreases |models|
  {
    var n := |models| - 1;
    if i < n {
      ModelColumnsLastWins(models[..n], i);
    }
  }

  /** A column name listed for a model belongs to a column of a model with that name whose `relationship` is not truthy. */
  lemma ModelColumnsSound(models: seq<Model>, name: string, column: string)
    requires name in ModelColumns(models) && column in ModelColumns(models)[name]
    ensures exists m, c :: m in models && m.name == name && c in m.columns.GetOr([]) && c.name == column && c.relationship != TruthyRelationship
    decreases |models|
  {
    var n := |models| - 1;
    if models[n].name == name {
      var c :| c in models[n].columns.GetOr([]) && c.relationship != TruthyRelationship && c.name == column;
      assert models[n] in models;
    } else {
      ModelColumnsSound(models[..n], name, column);
      var m, c :| m in models[..n] && m.name == name && c in m.columns.GetOr([]) && c.name == column && c.relationship != TruthyRelationship;
      assert m in models;
    }
  }

  /** The checks a proposed relationship must pass against `model_columns`. */
  predicate IsValid(r: Relationship, mc: map<string, set<string>>) {
    && IsInclude(r.relationType)
    && r.fromModel.Some? && r.fromModel.value in mc
    && r.toModel.Some? && r.toModel.value in mc
    && r.fromColumn.Some? && r.fromColumn.value in mc[r.fromModel.value]
    && r.toColumn.Some? && r.toColumn.value in mc[r.toModel.value]
  }

  /** The relationships that pass the checks, in their original order. */
  function Filtered(relationships: seq<Relationship>, mc: map<string, set<string>>): (kept: seq<Relationship>)
    ensures |kept| <= |relationships|
    ensures forall r :: r in kept <==> r in relationships && IsValid(r, mc)
  {
    if relationships == [] then []
    else (if IsValid(relationships[0], mc) then [relationships[0]] else []) + Filtered(relationships[1..], mc)
  }

  /** `validated`: the proposed relationships that name valid types, models and columns. */
  function Validated(relationships: Option<seq<Relationship>>, mdl: Mdl): (kept: seq<Relationship>)
    ensures relationships.None? ==> kept == []
    ensures forall r :: r in kept <==> r in relationships.GetOr([]) && IsValid(r, ModelColumns(mdl.models.GetOr([])))
  {
    Filtered(relationships.GetOr([]), ModelColumns(mdl.models.GetOr([])))
  }

  /** Filtering a concatenation filters each part: the result is a sub-list in the original order. */
  lemma {:induction false} FilteredConcat(x: seq<Relationship>, y: seq<Relationship>, mc: map<string, set<string>>)
    ensures Filtered(x + y, mc) == Filtered(x, mc) + Filtered(y, mc)
  {
    if x == [] {
      assert x + y == y;
    } else {
      assert (x + y)[0] == x[0];
      assert (x + y)[1..] == x[1..] + y;
      FilteredConcat(x[1..], y, mc);
    }
  }

  /** Every kept relationship has an enum type and joins non-relationship columns of models of the MDL. */
  lemma ValidatedSound(relationships: Option<seq<Relationship>>, mdl: Mdl, r: Relationship)
    requires r in Validated(relationships, mdl)
    ensures ParseRelationType(r.relationType.value).Some?
    ensures exists m, c :: m in mdl.models.GetOr([]) && Some(m.name) == r.fromModel && c in m.columns.GetOr([]) && Some(c.name) == r.fromColumn && c.relationship != TruthyRelationship
    ensures exists m, c :: m in mdl.models.GetOr([]) && Some(m.name) == r.toModel && c in m.columns.GetOr([]) && Some(c.name) == r.toColumn && c.relationship != TruthyRelationship
  {
    var models := mdl.models.GetOr([]);
    ModelColumnsSound(models, r.fromModel.value, r.fromColumn.value);
    ModelColumnsSound(models, r.toModel.value, r.toColumn.value);
  }

  /** Validating the validated list again against the same MDL changes nothing. */
  lemma {:induction false} FilteredIdempotent(relationships: seq<Relationship>, mc: map<string, set<string>>)
    ensures Filtered(Filtered(relationships, mc), mc) == Filtered(relationships, mc)
  {
    if relationships != [] {
      var head, tail := relationships[0], relationships[1..];
      var once := Filtered(relationships, mc);
      FilteredIdempotent(tail, mc);
      if IsValid(head, mc) {
        assert once == [head] + Filtered(tail, mc);
        FilteredConcat([head], Filtered(tail, mc), mc);
        assert Filtered([head], mc) == [head] by {
          assert [head][1..] == [];
        }
      } else {
        assert once == Filtered(tail, mc);
      }
    }
  }

  /** `validated` is idempotent for a fixed MDL. */
  lemma ValidatedIdempotent(relationships: Option<seq<Relationship>>, mdl: Mdl)
    ensures Validated(Some(Validated(relationships, mdl)), mdl) == Validated(relationships, mdl)
  {
    FilteredIdempotent(relationships.GetOr([]), ModelColumns(mdl.models.GetOr([])));
  }

  /**
   * A column whose `relationship` value is falsy is a valid endpoint for
   * `validated`, although cleaning drops it for merely having the key.
   */
  lemma FalsyRelationshipColumnStillAnEndpoint(model: string, column: string, rest: map<string, string>)
    ensures var c := Column(column, FalsyRelationship, NoProperties, map[]);
      var mdl := Mdl(Some([Model(model, Some([c]), NoProperties, map[])]));
      var r := Relationship(Some("ONE_TO_ONE"), Some(model), Some(column), Some(model), Some(column), rest);
      && Validated(Some([r]), mdl) == [r]
      && CleanedModels(mdl)[0].columns == Some([])
  {
    var c := Column(column, FalsyRelationship, NoProperties, map[]);
    var m := Model(model, Some([c]), NoProperties, map[]);
    assert ColumnNames(m) == {column} by {
      assert c in m.columns.GetOr([]);
    }
    assert ModelColumns([m]) == map[model := {column}] by {
      assert [m][..0] == [];
    }
    KeptColumnsSingle(c);
  }
}
