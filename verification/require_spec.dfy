/**
 * What the require analysis promises, stated without the analyzer's own
 * steps: path segments are described by "text before the first slash" and
 * "one more segment than slashes" rather than by splitting, and whole-file
 * results by filtering the visited calls.
 */
module RequireSpec {
  import opened Wrappers
  import opened Strings
  import opened Ast

  /** How a tracked name was bound: to the whole module, or to one destructured member. */
  datatype VariableKind = Module | Method

  /** One entry of `variables`: the bound local name and how it was bound. */
  datatype Variable = Variable(name: string, kind: VariableKind)

  /** The successful result of analysing one file. */
  datatype Analysis = Analysis(variables: seq<Variable>, requiredPaths: seq<string>)

  /** The one error the analysis raises: a matching require bound in an unrecognised way. */
  datatype Error = UnknownWayToRequire

  const PathSeparator: char := '/'

  /** `require('<string literal>')`: callee named exactly `require`, one argument, a string literal. */
  predicate IsRequireCall(c: CallExpression)
  {
    && c.calleeName == Some("require")
    && |c.arguments| == 1
    && c.arguments[0].StringLiteral?
  }

  function RequiredPath(c: CallExpression): (path: string)
    requires IsRequireCall(c)
  {
    c.arguments[0].value
  }

  /** A require call whose path starts with the segment `moduleName`. */
  predicate MatchesModule(c: CallExpression, moduleName: string)
  {
    IsRequireCall(c) && PrefixBefore(RequiredPath(c), PathSeparator) == moduleName
  }

  /** A path of at most two segments, that is, with at most one separator. */
  predicate IsShallow(path: string)
  {
    Count(path, PathSeparator) <= 1
  }

  /** The declarator shapes that bind a name: `x` and `{ key: x }` with exactly one such property. */
  predicate Bindable(id: Pattern)
  {
    || id.Identifier?
    || (&& id.ObjectPattern?
        && |id.properties| == 1
        && id.properties[0].ObjectProperty?
        && id.properties[0].value.Identifier?)
  }

  /** The entry a bindable declarator contributes; for `{ key: x }` it is the local `x`, not `key`. */
  function BoundVariable(id: Pattern): (v: Variable)
    requires Bindable(id)
  {
    if id.Identifier? then Variable(id.name, Module)
    else Variable(id.properties[0].value.name, Method)
  }

  /** A call that must bind a variable and is found in a shape that cannot. */
  predicate Fails(c: CallExpression, moduleName: string)
  {
    && MatchesModule(c, moduleName)
    && IsShallow(RequiredPath(c))
    && !(c.container.VariableDeclarator? && Bindable(c.container.id))
  }

  /** A call that binds a variable. */
  predicate Binds(c: CallExpression, moduleName: string)
  {
    && MatchesModule(c, moduleName)
    && IsShallow(RequiredPath(c))
    && c.container.VariableDeclarator?
    && Bindable(c.container.id)
  }

  /** The paths of the matching require calls, in visit order. */
  function MatchingPaths(calls: seq<CallExpression>, moduleName: string): (paths: seq<string>)
  {
    if |calls| == 0 then []
    else
      (if MatchesModule(calls[0], moduleName) then [RequiredPath(calls[0])] else [])
      + MatchingPaths(calls[1..], moduleName)
  }

  /** The variables bound by the calls that bind one, in visit order. */
  function BoundVariables(calls: seq<CallExpression>, moduleName: string): (variables: seq<Variable>)
  {
    if |calls| == 0 then []
    else
      (if Binds(calls[0], moduleName) then [BoundVariable(calls[0].container.id)] else [])
      + BoundVariables(calls[1..], moduleName)
  }

  /** Some visited call fails. */
  predicate SomeCallFails(calls: seq<CallExpression>, moduleName: string)
  {
    exists i :: 0 <= i < |calls| && Fails(calls[i], moduleName)
  }

  /** Filtering a concatenation filters each part. */
  lemma {:induction false} MatchingPathsAppend(a: seq<CallExpression>, b: seq<CallExpression>, moduleName: string)
    ensures MatchingPaths(a + b, moduleName) == MatchingPaths(a, moduleName) + MatchingPaths(b, moduleName)
    decreases |a|
  {
    if |a| > 0 {
      assert (a + b)[0] == a[0];
      assert (a + b)[1..] == a[1..] + b;
      MatchingPathsAppend(a[1..], b, moduleName);
    } else {
      assert a + b == b;
    }
  }

  lemma {:induction false} BoundVariablesAppend(a: seq<CallExpression>, b: seq<CallExpression>, moduleName: string)
    ensures BoundVariables(a + b, moduleName) == BoundVariables(a, moduleName) + BoundVariables(b, moduleName)
    decreases |a|
  {
    if |a| > 0 {
      assert (a + b)[0] == a[0];
      assert (a + b)[1..] == a[1..] + b;
      BoundVariablesAppend(a[1..], b, moduleName);
    } else {
      assert a + b == b;
    }
  }

  /** Every bound variable comes from a matching require, so there are never more variables than requires. */
  lemma {:induction false} BoundVariablesAtMostMatchingPaths(calls: seq<CallExpression>, moduleName: string)
    ensures |BoundVariables(calls, moduleName)| <= |MatchingPaths(calls, moduleName)|
    decreases |calls|
  {
    if |calls| > 0 {
      BoundVariablesAtMostMatchingPaths(calls[1..], moduleName);
    }
  }
}
