# Require-binding discovery, modelled in Dafny

This project models `findAllVariablesForRequiredModule` from the js-code-analyzer
repository. It is the binding-discovery step of a static usage analysis.
Given the syntax tree of one JavaScript file and a module name, it finds every
`require('<string literal>')` whose first `/`-separated segment equals that module
name, so `require('name-extra/x')` is not a match for `name`. It returns
`{ variables, requires }`:

- `requires` lists every such path, in visit order.
- `variables` lists the local name bound by each shallow path (at most two `/`
  segments), tagged `module` for `const x = require(...)` and `method` for
  `const { key: x } = require(...)`.

Any other way of binding a shallow matching require throws and aborts the whole
analysis.

The model is functional:

- `ast.dfy` (`Ast`): the node shapes the analyzer reads. These are call
  expressions, their arguments, the container of each call, and binding patterns.
  A file is given as its call expressions in the order the tree walk visits them.
- `strings.dfy` (`Strings`): `split('/')` with JavaScript's semantics. It is
  characterised by "first segment = text before the first separator" and "one more
  segment than separators", and it round-trips with `join` in both directions.
- `require_spec.dfy` (`RequireSpec`): the result types and the reference
  definitions. These say which calls are matching requires, which bind, and which
  fail, and define the expected lists by filtering the visited calls.
- `ast_worker.dfy` (`AstWorker`): the visitor (`Visit`, `DeclaredVariable`), the
  fold over the visit order (`Analyze`), and the imperative traversal
  (`FindAllVariablesForRequiredModule`). Lemmas tie these to the reference
  definitions.
- `wrappers.dfy` (`Wrappers`): `Option` and `Result`. A thrown exception is an
  `Err`, and it carries no partial result.

The result field `requires` is named `requiredPaths`, because `requires` is a
Dafny keyword.

The code never looks at the key of a destructured property. It accepts
`{ key: x }` and `{ [expr]: x }` alike and records the local name `x`, not the key.
`ObjectProperty` therefore carries its key and `computed` flag, and
`DeclaredVariable` ignores both.

Node kinds the analyzer does not tell apart keep only their type name. Those
names are subset types that exclude the names the analyzer tests for: an
`OtherNode` is never a `VariableDeclarator`, an `OtherArgument` never a
`StringLiteral`, and an `OtherPattern` never an `Identifier` or `ObjectPattern`.

## Model

| member | source | states |
|---|---|---|
| Strings.Split | src/workers/ASTWorker.js:21 | the segments of a path number one more than its `/` characters; the first segment is the text before the first `/`; no segment contains `/` |
| Strings.JoinSplit | src/workers/ASTWorker.js:21 | joining the segments of a path with `/` gives back the path |
| Strings.SplitJoin | src/workers/ASTWorker.js:21 | splitting the `/`-join of `/`-free segments gives back those segments |
| AstWorker.DeclaredVariable | src/workers/ASTWorker.js:37-57 | a declarator id binds exactly when it is an Identifier, or an object pattern with exactly one ObjectProperty whose value is an Identifier; an Identifier gives `{name, module}`; the object pattern gives the local value name as a `method`, whatever the key; every other shape (no or several properties, rest element, default or nested value, array pattern) is an error |
| AstWorker.Visit | src/workers/ASTWorker.js:13-58 | a call that is not `require` of one string literal, or whose first path segment differs from the module name, contributes nothing; a matching path of more than two segments contributes only its path, whatever its container; a call errs exactly when it is a shallow matching require outside a bindable declarator; otherwise it contributes its path and the declarator's variable |
| AstWorker.AnalyzeFailsIff | src/workers/ASTWorker.js:33-56 | the whole analysis fails if and only if some visited call is a shallow matching require whose container is not a VariableDeclarator or whose id is not a bindable shape |
| AstWorker.AnalyzeStopsAt | src/workers/ASTWorker.js:33-56 | one failing call makes the whole file fail, whatever was collected before and whatever follows |
| AstWorker.AnalyzeRequiredPaths | src/workers/ASTWorker.js:16-26 | on success, `requires` is exactly the paths of the `require('<literal>')` calls whose first segment is the module name, in visit order |
| AstWorker.AnalyzeVariables | src/workers/ASTWorker.js:29-52 | on success, `variables` is exactly the variables of the shallow matching requires, in visit order |
| AstWorker.AnalyzeNoMatches | src/workers/ASTWorker.js:8-24 | a file with no matching require succeeds with two empty lists |
| AstWorker.AnalyzeVariablesBounded | src/workers/ASTWorker.js:26-52 | on success there are never more variables than required paths |
| AstWorker.AnalyzeStep | src/workers/ASTWorker.js:20-52 | visiting one more call keeps both lists as they were and appends its path to `requires` exactly when it matches and its variable (the declarator's local name and kind) to `variables` exactly when it binds |
| AstWorker.AnalyzePrefix | src/workers/ASTWorker.js:26-52 | the lists only grow by appending: every prefix of a successful visit order succeeds, with prefixes of the final lists |
| AstWorker.AnalyzeAppend | src/workers/ASTWorker.js:8-62 | analysing two consecutive stretches of calls is analysing each and concatenating both lists; the earlier error wins |
| AstWorker.FindAllVariablesForRequiredModule | src/workers/ASTWorker.js:8-62 | the single pass with early exit computes the functional model; it fails exactly when some call fails, and otherwise returns the matching paths and the bound variables |

## Left out

- The Babel parser and `@babel/traverse`. A file is the sequence of its call
  expressions in visit order, and the model says nothing about how that order
  arises.
- The message of the thrown `Error`. It is the same text at every throw site, so
  the model uses the single error `UnknownWayToRequire`.
- The contents of nodes the analyzer does not inspect. Every argument other than a
  string literal, every container other than a variable declarator, and every
  pattern other than an identifier or object pattern is represented only by its
  type name.
- `runInParallel` in src/workers/promisePool.js. Its behaviour is asynchronous
  promise interleaving, which is not sequential logic.
- src/services/githubService.js: network access through the GitHub API.
- src/scripts/analyzeUsageOfApiClient.js: command-line glue and console output.
- Usage resolution, call-site classification, re-export propagation and `varies`
  marking. None of these exist in the analyzer's code.
