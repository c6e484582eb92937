/** The file-based execution contract that training and prediction share: the parameters
    read from params.json, the names of the files present in a directory, and the
    algorithm type that selects what to run. */
module Contract {
  import opened Wrappers
  import opened JavaText

  /** A member of params.json as Jackson presents it: JSON null, or any other node,
      kept as the text its asText() returns. */
  datatype JsonValue = JNull | JText(text: string)

  type Params = map<string, JsonValue>

  /** `params.get(key).asText()`: a missing key makes get() return null and the call on
      it throw; JSON null reads as the text "null". */
  function Required(params: Params, key: string): Result<string>
  {
    if key !in params then Err(MissingParam(key))
    else match params[key]
      case JNull => Ok("null")
      case JText(t) => Ok(t)
  }

  /** `params.has(key) && !params.get(key).isNull() ? params.get(key).asText() : null`. */
  function Optional(params: Params, key: string): Option<string>
  {
    if key in params && params[key].JText? then Some(params[key].text) else None
  }

  /** The names of the files present in a directory. */
  type Files = set<string>

  datatype AlgorithmType = Classification | Regression | Clustering

  /** The lower-case spelling of each algorithm type. */
  function Lowered(t: AlgorithmType): string
  {
    match t
    case Classification => "classification"
    case Regression => "regression"
    case Clustering => "clustering"
  }

  /** `switch (algorithmType.toUpperCase())` over the three names; any other value
      raises IllegalArgumentException. Case is compared on ASCII letters. */
  function ParseAlgorithmType(s: string): Result<AlgorithmType>
  {
    match TypeNamed(ToLower(s))
    case Some(t) => Ok(t)
    case None => Err(UnknownAlgorithmType(s))
  }

  /** The type whose lower-case name is low, if any. */
  function TypeNamed(low: string): Option<AlgorithmType>
  {
    if low == "classification" then Some(Classification)
    else if low == "regression" then Some(Regression)
    else if low == "clustering" then Some(Clustering)
    else None
  }

  lemma TypeNamedSpec(low: string)
    ensures forall t :: TypeNamed(low) == Some(t) <==> low == Lowered(t)
  {
    assert "classification" != "regression" && "classification" != "clustering";
    assert "regression" != "clustering";
  }

  /** `"CLUSTERING".equalsIgnoreCase(algorithmType)`. */
  predicate IsClustering(s: string)
  {
    ToLower(s) == "clustering"
  }

  /** The dispatch accepts a value exactly when it spells one of the three types in some
      mix of cases, and then yields that type; every other value fails with itself. */
  lemma ParseAlgorithmTypeSpec(s: string)
    ensures forall t :: ParseAlgorithmType(s) == Ok(t) <==> ToLower(s) == Lowered(t)
    ensures ParseAlgorithmType(s).Err? <==> forall t :: ToLower(s) != Lowered(t)
    ensures ParseAlgorithmType(s).Err? ==> ParseAlgorithmType(s).error == UnknownAlgorithmType(s)
  {
    TypeNamedSpec(ToLower(s));
    if ParseAlgorithmType(s).Ok? {
      assert ToLower(s) == Lowered(ParseAlgorithmType(s).value);
    }
  }

  /** Each type's own name, in any case, is accepted; the two case-insensitive tests in
      the source (equalsIgnoreCase and the upper-cased switch) agree about CLUSTERING. */
  lemma ParseLowered(t: AlgorithmType, s: string)
    requires ToLower(s) == Lowered(t)
    ensures ParseAlgorithmType(s) == Ok(t)
    ensures IsClustering(s) <==> t == Clustering
  {
    ParseAlgorithmTypeSpec(s);
  }
}
