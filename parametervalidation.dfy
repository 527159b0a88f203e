/** `WithParameterValidation`: an endpoint convention that finds the handler
    parameters whose type is to be validated and, if there are any, declares a
    400 `application/problem+json` response and installs a filter that
    validates those arguments before the handler runs. */
module ParameterValidation {
  import opened Wrappers
  import opened Todos

  /** A CLR type, by name. */
  type TypeName = string

  const HttpValidationProblemDetails: TypeName := "HttpValidationProblemDetails"
  const Status400BadRequest: int := 400
  const ProblemJson: string := "application/problem+json"

  datatype ParameterInfo = ParameterInfo(parameterType: TypeName, position: nat)

  /** Entries of an endpoint's metadata collection. */
  datatype Metadata =
    | MethodInfo(parameters: seq<ParameterInfo>)
    | ProducesResponseType(responseType: TypeName, statusCode: int, contentType: string)
    | OtherMetadata(description: string)

  /** `eb.Metadata.OfType<MethodInfo>().FirstOrDefault()`, as its parameter list. */
  function FirstMethodInfo(metadata: seq<Metadata>): (r: Option<seq<ParameterInfo>>)
    ensures r.None? <==> forall i :: 0 <= i < |metadata| ==> !metadata[i].MethodInfo?
    ensures r.Some? ==> exists i :: 0 <= i < |metadata| && metadata[i] == MethodInfo(r.value) &&
                                   forall j :: 0 <= j < i ==> !metadata[j].MethodInfo?
  {
    if metadata == [] then None
    else if metadata[0].MethodInfo? then Some(metadata[0].parameters)
    else
      var r := FirstMethodInfo(metadata[1..]);
      assert forall i :: 1 <= i < |metadata| ==> metadata[i] == metadata[1..][i - 1];
      if r.Some? then
        var k :| 0 <= k < |metadata[1..]| && metadata[1..][k] == MethodInfo(r.value) &&
                 forall j :: 0 <= j < k ==> !metadata[1..][j].MethodInfo?;
        assert metadata[k + 1] == MethodInfo(r.value);
        r
      else r
  }

  /** The positions of the parameters whose type is to be validated, in
      parameter order. */
  function MatchingPositions(parameters: seq<ParameterInfo>, typesToValidate: seq<TypeName>): seq<nat> {
    if parameters == [] then []
    else
      var last := parameters[|parameters| - 1];
      var init := MatchingPositions(parameters[..|parameters| - 1], typesToValidate);
      if last.parameterType in typesToValidate then init + [last.position] else init
  }

  predicate AnyMatches(parameters: seq<ParameterInfo>, typesToValidate: seq<TypeName>) {
    exists i :: 0 <= i < |parameters| && parameters[i].parameterType in typesToValidate
  }

  /** A position is collected iff some parameter at that position has a type
      to validate; none are collected iff no parameter matches. */
  lemma {:induction false} MatchingPositionsMembers(parameters: seq<ParameterInfo>, typesToValidate: seq<TypeName>, p: nat)
    ensures p in MatchingPositions(parameters, typesToValidate) <==>
      exists i :: 0 <= i < |parameters| && parameters[i].position == p && parameters[i].parameterType in typesToValidate
    ensures MatchingPositions(parameters, typesToValidate) == [] <==> !AnyMatches(parameters, typesToValidate)
  {
    if parameters != [] {
      var init := parameters[..|parameters| - 1];
      MatchingPositionsMembers(init, typesToValidate, p);
      assert forall i :: 0 <= i < |init| ==> init[i] == parameters[i];
      if exists i :: 0 <= i < |parameters| && parameters[i].position == p && parameters[i].parameterType in typesToValidate {
        var i :| 0 <= i < |parameters| && parameters[i].position == p && parameters[i].parameterType in typesToValidate;
        if i < |init| {
          assert init[i].position == p && init[i].parameterType in typesToValidate;
        }
      }
      if AnyMatches(parameters, typesToValidate) {
        var i :| 0 <= i < |parameters| && parameters[i].parameterType in typesToValidate;
        if i < |init| {
          assert AnyMatches(init, typesToValidate) by {
            assert init[i].parameterType in typesToValidate;
          }
        }
      }
    }
  }

  /** The `foreach` over `GetParameters()`: the list stays null until the
      first matching parameter and then collects every matching position. */
  method CollectParameterIndexes(parameters: seq<ParameterInfo>, typesToValidate: seq<TypeName>)
    returns (indexes: Option<seq<nat>>)
    ensures indexes.None? <==> !AnyMatches(parameters, typesToValidate)
    ensures indexes.Some? ==> indexes.value == MatchingPositions(parameters, typesToValidate)
  {
    indexes := None;
    var n := 0;
    while n < |parameters|
      invariant 0 <= n <= |parameters|
      invariant indexes.None? <==> !AnyMatches(parameters[..n], typesToValidate)
      invariant indexes.Some? ==> indexes.value == MatchingPositions(parameters[..n], typesToValidate)
      invariant indexes.None? ==> MatchingPositions(parameters[..n], typesToValidate) == []
    {
      var p := parameters[n];
      assert parameters[..n + 1][..n] == parameters[..n];
      assert parameters[..n + 1][n] == p;
      if p.parameterType !in typesToValidate {
        n := n + 1;
        continue;
      }
      if indexes.None? {
        indexes := Some([]);
      }
      indexes := Some(indexes.value + [p.position]);
      n := n + 1;
    }
    assert parameters[..n] == parameters;
  }

  /** A filter installed by the convention, identified by the indexes it checks. */
  datatype FilterFactory = ValidationFilter(indexes: seq<nat>)

  class EndpointBuilder {
    var metadata: seq<Metadata>
    var filterFactories: seq<FilterFactory>

    constructor (metadata: seq<Metadata>)
      ensures this.metadata == metadata && filterFactories == []
    {
      this.metadata, filterFactories := metadata, [];
    }

    /** The convention `WithParameterValidation(typesToValidate)` adds: no
        `MethodInfo` or no matching parameter leaves the endpoint alone;
        otherwise the 400 problem metadata and the filter are appended. */
    method ApplyParameterValidation(typesToValidate: seq<TypeName>)
      modifies this
      ensures var info := FirstMethodInfo(old(metadata));
        if info.None? || !AnyMatches(info.value, typesToValidate) then
          metadata == old(metadata) && filterFactories == old(filterFactories)
        else
          && metadata == old(metadata) + [ProducesResponseType(HttpValidationProblemDetails, Status400BadRequest, ProblemJson)]
          && filterFactories == old(filterFactories) + [ValidationFilter(MatchingPositions(info.value, typesToValidate))]
    {
      var methodInfo := FirstMethodInfo(metadata);
      if methodInfo.None? {
        return;
      }
      var parameterIndexesToValidate := CollectParameterIndexes(methodInfo.value, typesToValidate);
      if parameterIndexesToValidate.None? {
        return;
      }
      metadata := metadata + [ProducesResponseType(HttpValidationProblemDetails, Status400BadRequest, ProblemJson)];
      filterFactories := filterFactories + [ValidationFilter(parameterIndexesToValidate.value)];
    }
  }

  /** Validation errors by member name; `TryValidate` succeeds iff there are none. */
  type Errors = map<string, seq<string>>

  /** What the filter answers: a validation problem, or the call passed on to
      `next` with the arguments it was given. */
  datatype FilterResult<A> = ValidationProblem(errors: Errors) | Next(arguments: seq<Option<A>>)

  predicate IndexesInRange<A>(indexes: seq<nat>, arguments: seq<Option<A>>) {
    forall k :: 0 <= k < |indexes| ==> indexes[k] < |arguments|
  }

  /** The argument at the k-th checked index is present and invalid. */
  predicate RejectedAt<A>(indexes: seq<nat>, arguments: seq<Option<A>>, validate: A -> Errors, k: nat)
    requires IndexesInRange(indexes, arguments)
  {
    k < |indexes| && arguments[indexes[k]].Some? && validate(arguments[indexes[k]].value) != map[]
  }

  /** The filter's answer, one index at a time. */
  function FilterOutcome<A>(indexes: seq<nat>, arguments: seq<Option<A>>, validate: A -> Errors): FilterResult<A>
    requires IndexesInRange(indexes, arguments)
  {
    if indexes == [] then Next(arguments)
    else
      var arg := arguments[indexes[0]];
      if arg.Some? && validate(arg.value) != map[] then ValidationProblem(validate(arg.value))
      else FilterOutcome(indexes[1..], arguments, validate)
  }

  /** The handler is reached iff no checked argument is present and invalid;
      otherwise the problem reports the errors of the first such argument. */
  lemma {:induction false} FilterOutcomeFirstRejection<A>(indexes: seq<nat>, arguments: seq<Option<A>>, validate: A -> Errors)
    requires IndexesInRange(indexes, arguments)
    ensures FilterOutcome(indexes, arguments, validate).Next? <==>
      forall k :: 0 <= k < |indexes| ==> !RejectedAt(indexes, arguments, validate, k)
    ensures FilterOutcome(indexes, arguments, validate).Next? ==>
      FilterOutcome(indexes, arguments, validate).arguments == arguments
    ensures FilterOutcome(indexes, arguments, validate).ValidationProblem? ==>
      exists k :: 0 <= k < |indexes| && RejectedAt(indexes, arguments, validate, k) &&
        (forall j :: 0 <= j < k ==> !RejectedAt(indexes, arguments, validate, j)) &&
        FilterOutcome(indexes, arguments, validate).errors == validate(arguments[indexes[k]].value)
  {
    if indexes != [] {
      var rest := indexes[1..];
      FilterOutcomeFirstRejection(rest, arguments, validate);
      assert forall k :: 1 <= k < |indexes| ==>
        RejectedAt(indexes, arguments, validate, k) == RejectedAt(rest, arguments, validate, k - 1);
      var r := FilterOutcome(indexes, arguments, validate);
      if !RejectedAt(indexes, arguments, validate, 0) && r.ValidationProblem? {
        var k :| 0 <= k < |rest| && RejectedAt(rest, arguments, validate, k) &&
          (forall j :: 0 <= j < k ==> !RejectedAt(rest, arguments, validate, j)) &&
          r.errors == validate(arguments[rest[k]].value);
        assert RejectedAt(indexes, arguments, validate, k + 1);
        assert forall j :: 1 <= j < k + 1 ==> !RejectedAt(indexes, arguments, validate, j);
      }
    }
  }

  /** The endpoint filter: walk the indexes in order, skip null arguments,
      stop at the first invalid one with a validation problem, else call `next`. */
  method InvokeValidationFilter<A>(indexes: seq<nat>, arguments: seq<Option<A>>, validate: A -> Errors)
    returns (r: FilterResult<A>)
    requires IndexesInRange(indexes, arguments)
    ensures r == FilterOutcome(indexes, arguments, validate)
  {
    var n := 0;
    while n < |indexes|
      invariant 0 <= n <= |indexes|
      invariant FilterOutcome(indexes[n..], arguments, validate) == FilterOutcome(indexes, arguments, validate)
    {
      var arg := arguments[indexes[n]];
      assert indexes[n..][0] == indexes[n] && indexes[n..][1..] == indexes[n + 1..];
      if arg.Some? {
        var errors := validate(arg.value);
        if errors != map[] {
          return ValidationProblem(errors);
        }
      }
      n := n + 1;
    }
    r := Next(arguments);
  }

  /** The todo endpoints validate `TodoItem` arguments: posting an item with
      no title never reaches the handler, and an item with a title always
      does, for any validator that flags exactly the missing title. */
  lemma PostRequiresTitle(item: TodoItem, position: nat, arguments: seq<Option<TodoItem>>, validate: TodoItem -> Errors)
    requires position < |arguments| && arguments[position] == Some(item)
    requires forall x :: validate(x) == map[] <==> HasTitle(x)
    ensures FilterOutcome([position], arguments, validate).ValidationProblem? <==> !HasTitle(item)
  {
  }
}
