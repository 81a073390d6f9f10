# Structural pattern matching over Python syntax trees

This project is a Dafny model of the matcher in `flaws/patterns.py`. A
*rule* is written as example code. The template compiler turns the parsed
example into a *template*, which is an ordinary syntax tree with some
leaves replaced by predicates:

- a declared placeholder becomes a *capture*, which accepts a node of the
  declared class and records it;
- any other identifier becomes a *sticky identifier*, which must stand
  for the same input identifier everywhere, one-to-one;
- `ast.X` becomes a class test.

`match(template, tree)` walks the input tree in pre-order. It keeps three
things:

- the path from the root (`stack`, whose steps are field names, 0 for the
  head of a list and 1 for its tail);
- the candidate matches still being checked (`potential`);
- the confirmed ones (`matches`).

At every value the walk does three things in order:

1. It updates each candidate. A candidate is confirmed once the walk has
   left the value where it started. Otherwise it is kept when the value
   matches the part of the template found by `get_sub_template` at the
   same relative path, and dropped when it does not.
2. It starts a new candidate when the value matches the whole template.
3. It recurses into the fields, or into the head and then the tail of a
   list.

`node_matches` compares one value with one template value:

- a node template needs the same node class;
- a list template needs a list at least as long, with a matching head;
- a scalar template needs an equal value;
- anything else is a predicate and is called.

Modules:

- `Results` (results.dfy): `Option`, `Result`, and the ways a match can
  fail.
- `Trees` (trees.dfy): input values, traversal steps, and the value a
  path leads to (`At`).
- `Templates` (templates.dfy): the template datatype. The predicates are
  a tagged variant rather than closures: `Capture`, `Sticky`,
  `IsInstance`, and the two fallbacks `Never` and `Always`.
- `Bindings` (bindings.dfy): the match context (`names`, `rev`,
  `captures`), the sticky-identifier predicate and the capture predicate.
- `NodeMatching` (node_matches.dfy): `node_matches`, in the corrected and
  in the as-written form.
- `SubTemplates` (sub_template.dfy): `get_sub_template`, both as a
  recursive specification and as the source's loop.
- `Compiler` (compiler.dfy): the leaf rewrites of `TemplateCompiler`, the
  argument-to-class dictionary, and the Expr unwrap of
  `compile_template`.
- `Matching` (matcher.dfy):
  - the walk as functions (`Advance`, `Start`, `Walk`, `MatchSpec`);
  - the class `Matcher`, whose methods update `stack`, `potential` and
    `matches` in place as `_match` does, each proved to compute what the
    functions say;
  - the method `Match`.
- `MatchSoundness` (soundness.dfy): what a reported match means.
  Everything under a reported value matches the template part at the same
  path under the candidate's final bindings. The renaming is a bijection.
  Only declared placeholders and identifiers of the template are bound,
  each capture is the fragment found at its placeholder's position, and
  every placeholder of the template is captured.

The class hierarchy of the `ast` module is read through three names per
node: its own class, its category (`expr`, `stmt`, and so on) and the
root `AST`. `isinstance(v, cls)` holds exactly when `v` is a node and
`cls` is one of those three (`Trees.InstanceOf`, which `Bindings.MatchCapture` uses to test the declared
class of a placeholder).

Three behaviours of the code deserve a note:

- Past a predicate, `get_sub_template` answers the always-true predicate
  only for a field step (`flaws/patterns.py:124-127`). A step 0 or 1 on a
  predicate indexes or slices a function, and that raises TypeError. The
  model returns an error there (`SubTemplates.FirstStep`).
- A `None` leaf of a template is neither a node, a list nor a scalar, so
  `node_matches` calls it (`flaws/patterns.py:109`). This is recorded
  under Findings. The rest of the model compares `None` by equality.
- The transformer splices what the visit of a list element gives back
  into the list, so a placeholder or an `ast.X` test written as a list
  element (an argument of a call, say) cannot be compiled: a predicate is
  not iterable. The model fails compilation there with `NotIterable`
  (`Compiler.CompileTemplate`).

## Model

| member | source | states |
|---|---|---|
| Bindings.FreshIsInverse | flaws/patterns.py:64 | a new candidate's empty context is a (trivial) bijection |
| Bindings.StickyName | flaws/patterns.py:169-177 | the sticky predicate accepts a bound key only with its own name, and an unbound key only with an untaken name. On success both directions are bound. A bijection stays a bijection. A failure leaves the context unchanged. Captures are never touched, and only `key` can be newly bound |
| Bindings.StickyConsistency | flaws/patterns.py:170-173 | when exactly one of "key bound" and "name bound" holds, the predicate fails and changes nothing. When both hold, it succeeds iff the name is the bound one, and changes nothing |
| Bindings.StickyBinding | flaws/patterns.py:174-177 | a fresh pair is accepted, `names[key] == name` and `rev[name] == key` afterwards, and nothing else changes |
| Bindings.StickySound | flaws/patterns.py:169-177 | after a key is bound to a name, the key accepts no other name, and no other key accepts that name |
| Bindings.MatchCapture | flaws/patterns.py:160-164 | the capture succeeds iff the value is an instance of the declared class. On success, `captures[id]` is that value. On failure the context is unchanged. The renaming and the other captures are kept |
| NodeMatching.NodeMatches | flaws/patterns.py:100-109 | a failed match leaves the context unchanged. A match keeps the bijection and extends the renaming. New renamings come only from sticky leaves of the template. New captures come only from capture leaves of the template, each of the declared class |
| NodeMatching.NodeAndScalarCases | flaws/patterns.py:101-107 | a node template matches exactly the nodes of its own class: another class of the same category is an instance of the category, yet does not match. A scalar template matches exactly the equal scalar. Neither changes the context |
| NodeMatching.ListCase | flaws/patterns.py:103-105 | a long-enough list matches iff the template is empty or the heads match. Two lists that agree on the head give the same verdict, so the tail is not examined |
| NodeMatching.ListNeedsLength | flaws/patterns.py:104 | a shorter list, or a value that is not a list, never matches a list template |
| NodeMatching.MatchKeepsDeclared | flaws/patterns.py:100-109 | captures and renamings declared among a set of leaves stay declared after a match against a template whose leaves are in that set |
| NodeMatching.LiftMatchesItself | flaws/patterns.py:100-109 | corrected semantics, at the top: every value matches its own verbatim template, `None` fields included, and the context is unchanged |
| NodeMatching.NodeMatchesAsWritten | flaws/patterns.py:108-109 | as written: whenever it does not raise, it agrees with the corrected `NodeMatches` |
| NodeMatching.AsWrittenRaisesOnlyAtNone | flaws/patterns.py:106-109 | as written, `node_matches` raises iff it reaches a `None` template leaf, and the error is "not callable" |
| NodeMatching.AsWrittenRejectsOwnExample | flaws/patterns.py:106-109 | an absent child (`None`) raises against its own verbatim template as written, and matches under the corrected semantics |
| SubTemplates.SubTemplate | flaws/patterns.py:111-131 | the only failure of sub-template lookup is "unknown path" |
| SubTemplates.GetSubTemplate | flaws/patterns.py:111-131 | the loop that walks `sub` down the path, returning early at a fallback, computes exactly `SubTemplate` |
| SubTemplates.FirstStep | flaws/patterns.py:117-129 | the first step: 0 on an empty list template gives the always-false predicate; 1 on a non-empty list gives its tail; a field present on a node template gives that field; a field step on a predicate gives the always-true predicate; a 0 or 1 step on a non-list, or a field step on anything else, fails |
| SubTemplates.TailsThenHead | flaws/patterns.py:117-123 | k steps of 1 address the list template without its first k elements. Adding a step 0 then gives element k, or the always-false predicate when the template has at most k elements |
| SubTemplates.SubTemplateLeaves | flaws/patterns.py:111-131 | a found sub-template holds no predicate that the template lacks, apart from the two fallbacks |
| SubTemplates.SubTemplateAppend | flaws/patterns.py:111-131 | a path that reaches a template part without stopping at a predicate can be extended: the longer path continues the lookup from that part |
| SubTemplates.PastPredicate | flaws/patterns.py:124-127 | once a path reaches a predicate (other than the always-false fallback), a further field step gives the always-true predicate, whatever follows |
| Compiler.VisitName | flaws/patterns.py:156-180 | `True`, `False` and `None` stay verbatim with no predicate. A declared placeholder becomes its capture with its declared class. Any other identifier becomes the Name node itself, lifted, with only its `id` replaced by that identifier's sticky predicate: the path `id` finds the predicate, the path `ctx` finds the node's own context, and the predicate is its only one |
| Compiler.VisitAttribute | flaws/patterns.py:149-154 | `ast.X` becomes the class test for X. Any other attribute access is kept verbatim, with no predicate |
| Compiler.ZipDict | flaws/patterns.py:138 | the dictionary has exactly the parameters as keys. Each parameter maps to its class, unless a later parameter with the same name overrides it |
| Compiler.Compile | flaws/patterns.py:145-180 | the visit fails only with "not iterable". A node compiles to a node exactly when it is neither a declared placeholder nor an `ast.X` test; those two become predicates. A node that stays a node keeps its class, a list stays a list of the same length, and a scalar or `None` stays verbatim |
| Compiler.CompileFields | flaws/patterns.py:145-180 | the fields of a node are visited in order: on success, one compiled field per field, each under its own name |
| Compiler.CompileItems | flaws/patterns.py:145-180 | the elements of a list are visited: on success, one element per element, none of them a predicate, and every element that is not a node kept verbatim |
| Compiler.CompileFails | flaws/patterns.py:145-180 | compiling a value fails iff some list inside it, reached through fields and lists that are not themselves rewritten, holds a placeholder or an `ast.X` test as an element |
| Compiler.CompileFieldsFail | flaws/patterns.py:145-180 | the fields of a node fail to compile iff one of them does |
| Compiler.CompileItemsFail | flaws/patterns.py:145-180 | a list fails to compile iff one of its node elements becomes a predicate or fails to compile |
| Compiler.CompileVerbatim | flaws/patterns.py:145-180 | a value compiles to itself, lifted, exactly when the compiler rewrites nothing in it: every visited identifier is `True`, `False` or `None`, and no visited attribute access is `ast.X` |
| Compiler.VerbatimCompiles | flaws/patterns.py:145-180 | a value in which nothing is rewritten compiles to itself, lifted |
| Compiler.RewrittenLeaves | flaws/patterns.py:145-180 | a value in which something is rewritten compiles, if at all, to a template holding a predicate |
| Compiler.CompileFieldsAt | flaws/patterns.py:145-180 | each compiled field holds the compilation of the field's value |
| Compiler.CompileItemsAt | flaws/patterns.py:145-180 | each compiled node element of a list is the compilation of that element |
| Compiler.CompileFieldsPointwise | flaws/patterns.py:145-180 | fields that each compile compile together, in order and under their own names |
| Compiler.CompiledLeaves | flaws/patterns.py:145-180 | every predicate in a compiled template is a capture of a declared placeholder with its declared class, a sticky identifier that is neither declared nor reserved, or a class test |
| Compiler.CompileBody | flaws/patterns.py:139 | every statement is compiled in order: on success, template i is the compilation of statement i, and it holds only those predicates; the only failure is "not iterable" |
| Compiler.CompileBodyFails | flaws/patterns.py:139 | the body fails to compile iff one of its statements does |
| Compiler.Unwrap | flaws/patterns.py:141-142 | a body that is a single `Expr` statement with a `value` becomes that value. Any other body stays the list of statements. Unwrapping adds no predicate |
| Compiler.CompileTemplate | flaws/patterns.py:134-143 | compilation fails iff some parameter has no class (an assertion error) or some statement puts a predicate into a list (not iterable), with that fault. Otherwise the template holds only the predicates allowed by `CompiledLeaf`. A body that is one `Expr` statement gives the compilation of its `value`; any other body gives the list whose item i is the compilation of statement i |
| Compiler.UnwrapCompiled | flaws/patterns.py:139-142 | the compiled body is a lone `Expr` statement exactly when the body was one, and its `value` is then the compiled `value` of the statement |
| Matching.Advance | flaws/patterns.py:45-61 | the update can fail only with "unknown path", and never grows the candidate lists |
| Matching.AdvanceFails | flaws/patterns.py:45-61 | the update fails iff some candidate whose path is a prefix of the stack expects a template part that cannot be found |
| Matching.AdvanceConfirms | flaws/patterns.py:46-50 | a candidate is confirmed iff its path is no longer a prefix of the stack |
| Matching.AdvanceKeeps | flaws/patterns.py:51-58 | every kept candidate comes from one whose path is a prefix of the stack and whose expected part matches the value. It keeps the start and the node, and carries the context that the match produced |
| Matching.AdvanceKeepsMatching | flaws/patterns.py:51-58 | conversely, every candidate that is still under way and matches is kept, with its new context |
| Matching.Start | flaws/patterns.py:63-72 | a candidate starts iff the value matches the whole template from an empty context. It records the current stack and that context. Its node is the head for a list, and an empty list that matches fails the match |
| Matching.Walk | flaws/patterns.py:41-90 | one visit and everything below it only ever append confirmed candidates |
| Matching.WalkFields | flaws/patterns.py:76-80 | the visits of a node's fields only ever append confirmed candidates |
| Matching.WalkFieldsFailurePersists | flaws/patterns.py:76-80 | a failure while visiting one field fails the whole loop over the fields with the same fault |
| Matching.Matcher.constructor | flaws/patterns.py:37-39 | a match starts with an empty stack and empty candidate lists |
| Matching.Matcher.Sift | flaws/patterns.py:45-61 | the candidate loop leaves `potential` and `matches` as `Advance` says (confirmed candidates appended to `matches`), or fails with its fault. The stack is unchanged |
| Matching.Matcher.Begin | flaws/patterns.py:63-72 | appends the new candidate exactly when `Start` gives one, or fails with its fault |
| Matching.Matcher.Visit | flaws/patterns.py:41-90 | `_match(node)` leaves the lists as `Walk` says, or fails with the same fault. On return the stack is what it was, every push having been popped |
| Matching.Matcher.VisitFields | flaws/patterns.py:76-80 | the loop over the fields, each pushed before its visit and popped after, leaves the lists as `WalkFields` says, with the stack restored |
| Matching.Match | flaws/patterns.py:31-98 | `match` fails exactly when the walk does, with the same fault. Otherwise it reports, in order, every confirmed candidate and then every candidate still under way, each as its node paired with its captures |
| MatchSoundness.SettledAfterMatch | flaws/patterns.py:100-109 | a value that matched still matches, with no new renaming and no new capture, under any bijection that extends the renaming and the captures the match produced |
| MatchSoundness.StartedIsOpen | flaws/patterns.py:63-72 | a new candidate sits at the current value (the head, for a list), holds a bijection, and binds only what the template declares |
| MatchSoundness.AfterAdvance | flaws/patterns.py:45-72 | after the update and the start, every confirmed candidate has matched its whole value. Every candidate under way matches the current value, and either started here or extends the renaming of a candidate under way before |
| MatchSoundness.WalkSound | flaws/patterns.py:41-90 | after the visit of a value, every candidate under way at that value has matched all of it, level by level, and the lists stay sound |
| MatchSoundness.WalkFieldsSound | flaws/patterns.py:76-80 | after the visits of the first j fields of a node, every candidate under way at the node has matched those fields all the way down |
| MatchSoundness.MatchSound | flaws/patterns.py:31-98 | every reported candidate sits at a value of the tree and reports it (its head, for a list). Every part of that value matches the template part at the same path under the candidate's bindings. The renaming is a bijection. Only declared placeholders and identifiers of the template are bound, each capture to a node of its declared class. Each capture is the fragment of the reported value found at a path where the template holds that placeholder |
| MatchSoundness.MatchTraced | flaws/patterns.py:100-109 | matching a value found at some path against the template part at that path captures, for each placeholder it binds, the fragment at the placeholder's own position, and keeps every earlier capture traced |
| MatchSoundness.LiftDeepMatch | flaws/patterns.py:45-90 | wherever the template holds a well-formed value kept verbatim, every part of that value matches the template part at the same path, `None` fields included |
| MatchSoundness.LiftDeepMatchesItself | flaws/patterns.py:45-109 | corrected semantics, all the way down: a well-formed value matches its own verbatim template at every path the walk visits below it |
| MatchSoundness.CapturesComplete | flaws/patterns.py:45-109 | where a value matches deeply, every placeholder of the template part it sits at has been captured, when value and template give each node class the same fields |
| MatchSoundness.MatchCapturesAll | flaws/patterns.py:31-98 | every reported candidate has captured every placeholder of the template, when the tree and the template give each node class the same fields. With `MatchSound`, the captures are exactly the placeholders |
| MatchSoundness.AtConforms | flaws/patterns.py:76-90 | a part of a well-formed tree whose nodes have their class's fields is again such a tree |
| MatchSoundness.AbsentStarargs | flaws/patterns.py:100-109 | a rule without placeholders whose example is a call `f(a)` compiles to the call's template, which holds `None` at `starargs`. Any call `g(b)` starts a candidate and has `None` there too. Once the walk reaches the input's `starargs`, comparing it with the template's raises as written and matches when corrected |

## Left out

- The debug output of `match` (`print`, `astor.dump`) is side-channel I/O.
- Reflection and parsing are not part of this model: `inspect.getargspec`, `get_body_ast`, `get_ast` and `func_file`. The model takes the parameters, their classes and the parsed body as arguments (`Compiler.CompileTemplate`).
- `ast.NodeTransformer` is library code and is not part of this model. `Compiler.Compile` follows its `generic_visit` as far as these rewrites need: a field holding a node is replaced by that node's visit, an element of a list that is a node is replaced by its visit when that visit is a node, and an element that is not a node is kept. When the visit of a list element is a predicate, the transformer hands it to `list.extend` and raises TypeError; the model fails with `NotIterable` instead.
- `getattr(ast, node.attr)` is assumed to name a class. An attribute `ast` does not define would raise at compile time, and that raise is not modelled.
- The compiler dispatches on the node's exact class (`Name` or `Attribute`, both expressions). A Name node or Attribute node of unusual shape is compiled field by field, and an `Expr` without a `value` field is not unwrapped.
- MatchSoundness.AbsentStarargs: does not prove that the candidate started at `bar(y)` survives the comparisons of `func`, `args` and `keywords`; it states what happens once the walk reaches `starargs`.
- `m['node'].captures = ...` is modelled as returning (node, captures) pairs (`Matching.Report`). The aliasing it implies is not modelled: two reports with the same node share one `captures` attribute, and the later write wins.
- The binding context is a value threaded through the predicates. In the source, each candidate owns a fresh dictionary, so no sharing between candidates is lost.
- Matching.Match: a candidate whose node is a scalar or `None` is reported, whereas setting `captures` on it (`flaws/patterns.py:96`) raises AttributeError. Only a template that accepts a non-node at its root, or at the head of its root list, starts such a candidate, and `Compiler.CompileTemplate` never produces one; `Matching.Match` takes any template.
- Matching.Match: every exception raised on the way is modelled as one `Err` with a fault tag. The exception classes (IndexError, TypeError, the path exception) are not distinguished beyond that tag. A step 0 or 1 on a template that is not a list is tagged "unknown path", although in Python it is a TypeError.
- SubTemplates.SubTemplate: a step 0 or 1 on a string literal template would index or slice the string in Python. The model fails there instead. Traversal steps 0 and 1 are only produced below list values, and a list value never matches a string template, so no candidate reaches such a step.
- Bindings.StickyName: a list value given to a sticky predicate would raise (a list is unhashable as a key of `rev`). Sticky predicates only sit at the `id` field of Name nodes, which holds a string, so that raise is not modelled.
- Float, long and unicode scalars are left out. Scalars are strings and integers, compared by equality.
- Completeness is not proved. The model does not prove that every value matching the template is reported: the walk reports only candidates that started where the whole template matched at the top.
- MatchSoundness.MatchCapturesAll: it assumes that the tree and the template give each node class the same fields, in the same order (the `schema` parameter). Every class of the `ast` module has a fixed `_fields` list, but the model does not derive that from parsing, so it takes the schema as a hypothesis.
- `UselessIf` and `MapLambda` (`flaws/patterns.py:13-28`) are rule definitions, i.e. data, and are not modelled. `MapLambda`'s example passes the placeholder `seq` as a call argument, which is a list element, so it falls under the `NotIterable` failure of `Compiler.CompileTemplate`.

## Findings

| source | as written | input that shows it | evidently intended | confidence | as-written member | corrected member |
|---|---|---|---|---|---|---|
| flaws/patterns.py:106-109 | `None` is not among the scalar types, so a `None` leaf of a template falls through to the predicate case and is called | a rule without placeholders whose example is `foo(x)`: it compiles, and its Call node has `starargs = None`. The input `bar(y)` starts a candidate at its Call; once the walk reaches its `starargs`, which is `None` too, `node_matches` calls the template's `None` and raises TypeError | compare `None` by equality, like the scalars, so that an example matches its own verbatim parts | high, not executed | MatchSoundness.AbsentStarargs | MatchSoundness.LiftDeepMatchesItself |
