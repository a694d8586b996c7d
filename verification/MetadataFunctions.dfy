/** The function a metadata closure belongs to: the declared identity and the names in its parameters. */
module MetadataFunctions {
  import opened MetadataNodes
  import opened MetadataReferences
  import Wrappers

  type Identity = Wrappers.Option<string>

  /** The rows of a metadata reply; the list of declared functions may be missing altogether. */
  datatype Closure = Closure(
    functionNames: Wrappers.Option<seq<string>>, typeRows: seq<TypeRow>, indirectRows: seq<IndirectRow>, parameterRows: seq<ParameterRow>)

  /** All of the names are the same. */
  ghost predicate OneName(names: seq<string>) {
    forall i, j :: 0 <= i < j < |names| ==> names[i] == names[j]
  }

  /** The names agree with each other and with the identity, if there is one. */
  ghost predicate NamesFit(names: seq<string>, identity: Identity) {
    OneName(names) && (identity.Some? && names != [] ==> names[0] == identity.value)
  }

  function FunctionNames(rows: seq<ParameterRow>): (r: seq<string>)
    ensures |r| == |rows| && forall i :: 0 <= i < |rows| ==> r[i] == rows[i].functionName
  {
    seq(|rows|, i requires 0 <= i < |rows| => rows[i].functionName)
  }

  lemma {:induction false} SameMember(s: set<string>, x: string, y: string)
    requires x in s && y in s && |s| <= 1
    ensures x == y
  {
    var rest := s - {x};
    assert |rest| == 0;
    assert y !in rest;
  }

  lemma {:induction false} OneMember(s: set<string>, x: string)
    requires x in s && forall y :: y in s ==> y == x
    ensures |s| == 1
  {
    assert s == {x};
  }

  /** The distinct names; there is at most one exactly when all are the same. */
  method DistinctNamesIn(names: seq<string>) returns (distinct: set<string>)
    ensures distinct == set i | 0 <= i < |names| :: names[i]
    ensures |distinct| <= 1 <==> OneName(names)
    ensures |distinct| == 0 <==> names == []
  {
    distinct := {};
    for k := 0 to |names|
      invariant distinct == set i | 0 <= i < k :: names[i]
    {
      distinct := distinct + {names[k]};
    }
    if |distinct| <= 1 {
      forall i, j | 0 <= i < j < |names| ensures names[i] == names[j] {
        SameMember(distinct, names[i], names[j]);
      }
    }
    if names != [] {
      assert names[0] in distinct;
      if OneName(names) {
        OneMember(distinct, names[0]);
      }
    }
  }

  /** The declared identity: none, the only one, or an error when there are several. */
  function IdentityOf(functionNames: Wrappers.Option<seq<string>>): Result<Identity> {
    if functionNames.None? || |functionNames.value| == 0 then Ok(Wrappers.None)
    else if |functionNames.value| != 1 then Err(SeveralIdentities)
    else Ok(Wrappers.Some(functionNames.value[0]))
  }

  /**
   * At most one function is declared, all parameters belong to one function, to the declared
   * one if there is one, and there are none if the list of declared functions is empty.
   */
  ghost predicate FunctionsAcceptable(c: Closure) {
    && (c.functionNames.Some? ==> |c.functionNames.value| <= 1)
    && OneName(FunctionNames(c.parameterRows))
    && (c.functionNames.Some? && c.parameterRows != [] ==> c.functionNames.value == [c.parameterRows[0].functionName])
  }

  /** Accepted exactly when the functions are acceptable; the code names the first thing wrong. */
  method FunctionIdentity(c: Closure) returns (r: Result<Identity>)
    ensures r.Ok? <==> FunctionsAcceptable(c)
    ensures r.Ok? ==> r == IdentityOf(c.functionNames) && NamesFit(FunctionNames(c.parameterRows), r.value)
    ensures r.Err? ==>
              r.code ==
              if IdentityOf(c.functionNames).Err? then SeveralIdentities
              else if !OneName(FunctionNames(c.parameterRows)) then SeveralFunctions
              else if IdentityOf(c.functionNames).value.None? then MissingIdentity
              else ForeignFunction
  {
    var identity := IdentityOf(c.functionNames);
    if identity.Err? {
      return Err(identity.code);
    }
    var names := DistinctNamesIn(FunctionNames(c.parameterRows));
    if |names| > 1 {
      return Err(SeveralFunctions);
    }
    if c.functionNames.Some? && identity.value.None? && |names| > 0 {
      return Err(MissingIdentity);
    }
    if |names| == 1 {
      assert c.parameterRows[0].functionName in names;
    }
    if identity.value.Some? && |names| == 1 && identity.value.value !in names {
      return Err(ForeignFunction);
    }
    return identity;
  }
}
