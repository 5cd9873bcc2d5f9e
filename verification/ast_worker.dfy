/**
 * `findAllVariablesForRequiredModule`: collect the paths of every
 * `require('<moduleName>')` or `require('<moduleName>/...')` in a file and the local names bound to the
 * shallow ones, failing on any binding shape it does not recognise.
 */
module AstWorker {
  import opened Wrappers
  import opened Strings
  import opened Ast
  import opened RequireSpec

  /** What visiting one call adds to the result. */
  datatype Contribution =
    | Skipped
    | Required(path: string)
    | Bound(path: string, variable: Variable)

  /** The `switch` on the declarator's `id`: which local name it binds, and how. */
  function DeclaredVariable(id: Pattern): (r: Result<Variable, Error>)
    ensures r.Ok? <==> Bindable(id)
    ensures id.Identifier? ==> r == Ok(Variable(id.name, Module))
    ensures r.Ok? ==> r.value == BoundVariable(id)
  {
    match id
    case Identifier(name) => Ok(Variable(name, Module))
    case ObjectPattern(properties) =>
      if |properties| != 1 || !properties[0].ObjectProperty? then Err(UnknownWayToRequire)
      else if !properties[0].value.Identifier? then Err(UnknownWayToRequire)
      else Ok(Variable(properties[0].value.name, Method))
    case OtherPattern(_) => Err(UnknownWayToRequire)
  }

  /** The `CallExpression` visitor, applied to one call. */
  function Visit(c: CallExpression, moduleName: string): (r: Result<Contribution, Error>)
    ensures !MatchesModule(c, moduleName) ==> r == Ok(Skipped)
    ensures MatchesModule(c, moduleName) && !IsShallow(RequiredPath(c)) ==> r == Ok(Required(RequiredPath(c)))
    ensures r.Err? <==> Fails(c, moduleName)
    ensures Binds(c, moduleName) ==> r == Ok(Bound(RequiredPath(c), BoundVariable(c.container.id)))
  {
    if c.calleeName != Some("require") || |c.arguments| != 1 || !c.arguments[0].StringLiteral? then
      Ok(Skipped)
    else
      var requiredPath := c.arguments[0].value;
      var parts := Split(requiredPath, PathSeparator);
      if parts[0] != moduleName then Ok(Skipped)
      else if |parts| > 2 then Ok(Required(requiredPath))
      else
        match c.container
        case VariableDeclarator(id) =>
          var variable :- DeclaredVariable(id);
          Ok(Bound(requiredPath, variable))
        case _ => Err(UnknownWayToRequire)
  }

  /** The pushes a contribution makes onto the two result lists. */
  function Record(a: Analysis, step: Contribution): (r: Analysis)
  {
    match step
    case Skipped => a
    case Required(path) => a.(requiredPaths := a.requiredPaths + [path])
    case Bound(path, variable) => Analysis(a.variables + [variable], a.requiredPaths + [path])
  }

  /** The whole traversal: visit the calls in order; the first error aborts everything. */
  function Analyze(calls: seq<CallExpression>, moduleName: string): (r: Result<Analysis, Error>)
    decreases |calls|
  {
    if |calls| == 0 then Ok(Analysis([], []))
    else
      var before :- Analyze(calls[..|calls| - 1], moduleName);
      var step :- Visit(calls[|calls| - 1], moduleName);
      Ok(Record(before, step))
  }

  /** Results of two consecutive stretches of calls combined; the earlier error wins. */
  function Combine(x: Result<Analysis, Error>, y: Result<Analysis, Error>): (r: Result<Analysis, Error>)
  {
    if x.Err? then x
    else if y.Err? then y
    else Ok(Analysis(x.value.variables + y.value.variables, x.value.requiredPaths + y.value.requiredPaths))
  }

  /** Analysing `a + b` is analysing `a` and `b` separately and concatenating the lists. */
  lemma {:induction false} AnalyzeAppend(a: seq<CallExpression>, b: seq<CallExpression>, moduleName: string)
    ensures Analyze(a + b, moduleName) == Combine(Analyze(a, moduleName), Analyze(b, moduleName))
    decreases |b|
  {
    var ab := a + b;
    if |b| == 0 {
      assert ab == a;
      assert b == [];
      if Analyze(a, moduleName).Ok? {
        var v := Analyze(a, moduleName).value;
        assert v.variables + [] == v.variables;
        assert v.requiredPaths + [] == v.requiredPaths;
      }
    } else {
      var b' := b[..|b| - 1];
      var c := b[|b| - 1];
      assert ab[..|ab| - 1] == a + b';
      assert ab[|ab| - 1] == c;
      AnalyzeAppend(a, b', moduleName);
      var ra := Analyze(a, moduleName);
      var rb := Analyze(b', moduleName);
      var vc := Visit(c, moduleName);
      if ra.Ok? && rb.Ok? && vc.Ok? {
        var x := ra.value;
        var y := rb.value;
        match vc.value
        case Skipped =>
        case Required(p) =>
          assert x.requiredPaths + (y.requiredPaths + [p]) == (x.requiredPaths + y.requiredPaths) + [p];
        case Bound(p, v) =>
          assert x.requiredPaths + (y.requiredPaths + [p]) == (x.requiredPaths + y.requiredPaths) + [p];
          assert x.variables + (y.variables + [v]) == (x.variables + y.variables) + [v];
      }
    }
  }

  /** The analysis fails exactly when some visited call binds a shallow matching require in an unrecognised way. */
  lemma {:induction false} AnalyzeFailsIff(calls: seq<CallExpression>, moduleName: string)
    ensures Analyze(calls, moduleName).Err? <==> SomeCallFails(calls, moduleName)
    decreases |calls|
  {
    if |calls| > 0 {
      var init := calls[..|calls| - 1];
      var last := calls[|calls| - 1];
      AnalyzeFailsIff(init, moduleName);
      assert calls == init + [last];
      if SomeCallFails(calls, moduleName) {
        var i :| 0 <= i < |calls| && Fails(calls[i], moduleName);
        if i < |calls| - 1 {
          assert calls[i] == init[i];
        }
      }
      if SomeCallFails(init, moduleName) {
        var i :| 0 <= i < |init| && Fails(init[i], moduleName);
        assert calls[i] == init[i];
      }
    }
  }

  /** On success, the required paths are exactly the paths of the matching require calls, in visit order. */
  lemma {:induction false} AnalyzeRequiredPaths(calls: seq<CallExpression>, moduleName: string)
    requires Analyze(calls, moduleName).Ok?
    ensures Analyze(calls, moduleName).value.requiredPaths == MatchingPaths(calls, moduleName)
    decreases |calls|
  {
    if |calls| > 0 {
      var init := calls[..|calls| - 1];
      var last := calls[|calls| - 1];
      assert calls == init + [last];
      AnalyzeRequiredPaths(init, moduleName);
      MatchingPathsAppend(init, [last], moduleName);
      assert MatchingPaths([last], moduleName)
          == (if MatchesModule(last, moduleName) then [RequiredPath(last)] else []) + MatchingPaths([], moduleName);
    }
  }

  /** On success, the variables are exactly those bound by the calls that bind one, in visit order. */
  lemma {:induction false} AnalyzeVariables(calls: seq<CallExpression>, moduleName: string)
    requires Analyze(calls, moduleName).Ok?
    ensures Analyze(calls, moduleName).value.variables == BoundVariables(calls, moduleName)
    decreases |calls|
  {
    if |calls| > 0 {
      var init := calls[..|calls| - 1];
      var last := calls[|calls| - 1];
      assert calls == init + [last];
      AnalyzeVariables(init, moduleName);
      BoundVariablesAppend(init, [last], moduleName);
      assert BoundVariables([last], moduleName)
          == (if Binds(last, moduleName) then [BoundVariable(last.container.id)] else []) + BoundVariables([], moduleName);
    }
  }

  /** A file with no matching require yields two empty lists. */
  lemma {:induction false} AnalyzeNoMatches(calls: seq<CallExpression>, moduleName: string)
    requires forall i :: 0 <= i < |calls| ==> !MatchesModule(calls[i], moduleName)
    ensures Analyze(calls, moduleName) == Ok(Analysis([], []))
    decreases |calls|
  {
    if |calls| > 0 {
      var init := calls[..|calls| - 1];
      assert forall i :: 0 <= i < |init| ==> init[i] == calls[i];
      AnalyzeNoMatches(init, moduleName);
    }
  }

  /** On success there are never more variables than required paths. */
  lemma {:induction false} AnalyzeVariablesBounded(calls: seq<CallExpression>, moduleName: string)
    requires Analyze(calls, moduleName).Ok?
    ensures |Analyze(calls, moduleName).value.variables| <= |Analyze(calls, moduleName).value.requiredPaths|
  {
    AnalyzeRequiredPaths(calls, moduleName);
    AnalyzeVariables(calls, moduleName);
    BoundVariablesAtMostMatchingPaths(calls, moduleName);
  }

  /**
   * The lists only grow by appending: when a file succeeds, so does every
   * prefix of its visit order, and the prefix's lists are prefixes of the
   * file's lists.
   */
  lemma AnalyzePrefix(calls: seq<CallExpression>, k: nat, moduleName: string)
    requires k <= |calls|
    requires Analyze(calls, moduleName).Ok?
    ensures Analyze(calls[..k], moduleName).Ok?
    ensures Analyze(calls[..k], moduleName).value.requiredPaths <= Analyze(calls, moduleName).value.requiredPaths
    ensures Analyze(calls[..k], moduleName).value.variables <= Analyze(calls, moduleName).value.variables
  {
    assert calls == calls[..k] + calls[k..];
    AnalyzeAppend(calls[..k], calls[k..], moduleName);
  }

  /** Appending one call appends its path when it matches and its variable when it binds, and keeps everything before. */
  lemma AnalyzeStep(calls: seq<CallExpression>, c: CallExpression, moduleName: string)
    requires Analyze(calls + [c], moduleName).Ok?
    ensures Analyze(calls, moduleName).Ok?
    ensures var before := Analyze(calls, moduleName).value;
            var after := Analyze(calls + [c], moduleName).value;
            && after.requiredPaths == before.requiredPaths + (if MatchesModule(c, moduleName) then [RequiredPath(c)] else [])
            && after.variables == before.variables + (if Binds(c, moduleName) then [BoundVariable(c.container.id)] else [])
  {
    assert (calls + [c])[..|calls + [c]| - 1] == calls;
  }

  /**
   * The traversal as the source writes it: one pass over the visited calls,
   * pushing onto `variables` and `requires`, returning the error on the first
   * unrecognised binding.
   */
  method FindAllVariablesForRequiredModule(calls: seq<CallExpression>, moduleName: string)
    returns (r: Result<Analysis, Error>)
    ensures r == Analyze(calls, moduleName)
    ensures r.Err? <==> SomeCallFails(calls, moduleName)
    ensures r.Ok? ==> r.value.requiredPaths == MatchingPaths(calls, moduleName)
    ensures r.Ok? ==> r.value.variables == BoundVariables(calls, moduleName)
  {
    var variables: seq<Variable> := [];
    var requiredPaths: seq<string> := [];
    for i := 0 to |calls|
      invariant Analyze(calls[..i], moduleName) == Ok(Analysis(variables, requiredPaths))
    {
      var c := calls[i];
      assert calls[..i + 1][..i] == calls[..i];
      if c.calleeName == Some("require") && |c.arguments| == 1 && c.arguments[0].StringLiteral? {
        var requiredPath := c.arguments[0].value;
        var requiredPathParts := Split(requiredPath, PathSeparator);
        if requiredPathParts[0] == moduleName {
          requiredPaths := requiredPaths + [requiredPath];
          if |requiredPathParts| <= 2 {
            if !c.container.VariableDeclarator? {
              r := Err(UnknownWayToRequire);
              AnalyzeStopsAt(calls, i, moduleName);
              return;
            }
            var declared := DeclaredVariable(c.container.id);
            if declared.Err? {
              r := Err(UnknownWayToRequire);
              AnalyzeStopsAt(calls, i, moduleName);
              return;
            }
            variables := variables + [declared.value];
          }
        }
      }
    }
    assert calls[..|calls|] == calls;
    r := Ok(Analysis(variables, requiredPaths));
    AnalyzeFailsIff(calls, moduleName);
    AnalyzeRequiredPaths(calls, moduleName);
    AnalyzeVariables(calls, moduleName);
  }

  /** A call that fails makes the whole file fail, whatever comes after it. */
  lemma AnalyzeStopsAt(calls: seq<CallExpression>, i: nat, moduleName: string)
    requires i < |calls|
    requires Visit(calls[i], moduleName).Err?
    ensures Analyze(calls, moduleName) == Err(UnknownWayToRequire)
    ensures SomeCallFails(calls, moduleName)
  {
    AnalyzeFailsIff(calls, moduleName);
    match Analyze(calls, moduleName).error
    case UnknownWayToRequire =>
  }
}
