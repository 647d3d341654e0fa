/** `get_nomis_datasets_titles_descriptions`: the names and descriptions of the datasets
    listed in the Nomis `def.sdmx.json` document. The request and its JSON decoding are
    inputs: the document is given as the decoded `structure.keyfamilies.keyfamily` list. */
module Nomis {
  import opened Outcomes

  /** The `description` of one dataset definition: missing, or present with its `value`
      field (which may itself be missing). */
  datatype NomisDescription = NoDescription | Description(value: Option<string>)

  /** One `keyfamily` entry: the `value` of its `name` (missing when either key is), and its
      description. */
  datatype KeyFamily = KeyFamily(name: Option<string>, description: NomisDescription)

  /** The response body: not JSON, or a JSON document in which the path
      `structure.keyfamilies.keyfamily` is missing (`None`) or leads to the list. */
  datatype NomisBody = NotJson | Json(keyfamilies: Option<seq<KeyFamily>>)

  /** `dataset['name']['value']` and `dataset['description']['value']` both resolve when
      they are read. */
  predicate Readable(k: KeyFamily) {
    k.name.Some? && (k.description.Description? ==> k.description.value.Some?)
  }

  /** What line 234 or 236 appends for one entry. */
  function DescriptionOf(k: KeyFamily): (d: OrNaN<string>)
    requires Readable(k)
    ensures d.NaN? <==> k.description.NoDescription?
    ensures d.Val? ==> k.description == Description(Some(d.value))
  {
    match k.description
    case NoDescription => NaN
    case Description(v) => Val(v.value)
  }

  /** Lines 223-238. The two lists are built in lockstep, one name and one description per
      entry in document order; an entry whose `name` or `description` cannot be read raises
      `KeyError`, and so does a document without the `keyfamily` path. */
  method GetNomisTitlesDescriptions(body: NomisBody) returns (out: Outcome<(seq<string>, seq<OrNaN<string>>)>)
    ensures !out.NeedsMoreInput?
    ensures body.NotJson? ==> out == Raised(JsonDecodeError)
    ensures body.Json? && body.keyfamilies.None? ==> out == Raised(KeyError)
    ensures body.Json? && body.keyfamilies.Some? ==>
      var ks := body.keyfamilies.value;
      && (out.Raised? <==> exists i :: 0 <= i < |ks| && !Readable(ks[i]))
      && (out.Raised? ==> out.error == KeyError)
      && (out.Returned? ==>
            var (names, descriptions) := out.value;
            && |names| == |ks| && |descriptions| == |ks|
            && (forall i :: 0 <= i < |ks| ==> Readable(ks[i]) && Some(names[i]) == ks[i].name)
            && (forall i :: 0 <= i < |ks| ==> descriptions[i] == DescriptionOf(ks[i])))
  {
    match body
    case NotJson =>
      out := Raised(JsonDecodeError);
    case Json(path) =>
      if path.None? {
        return Raised(KeyError);
      }
      var ks := path.value;
      var names: seq<string> := [];
      var descriptions: seq<OrNaN<string>> := [];
      for i := 0 to |ks|
        invariant |names| == i && |descriptions| == i
        invariant forall m :: 0 <= m < i ==> Readable(ks[m]) && Some(names[m]) == ks[m].name
        invariant forall m :: 0 <= m < i ==> descriptions[m] == DescriptionOf(ks[m])
      {
        var dataset := ks[i];
        if dataset.name.None? {
          return Raised(KeyError);
        }
        names := names + [dataset.name.value];
        match dataset.description
        case NoDescription =>
          descriptions := descriptions + [NaN];
        case Description(v) =>
          if v.None? {
            return Raised(KeyError);
          }
          descriptions := descriptions + [Val(v.value)];
      }
      out := Returned((names, descriptions));
  }
}
