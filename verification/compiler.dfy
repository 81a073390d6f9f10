/**
 * The template compiler: the example code of a rule, already parsed, is
 * turned into a template. An identifier declared as a template argument
 * becomes the capture of that placeholder, `True`, `False` and `None` stay
 * literal, any other identifier becomes a sticky identifier, and `ast.X`
 * becomes a test for class X. A body that is a single expression statement
 * is unwrapped to its expression.
 */
module Compiler {

  import opened Results
  import opened Trees
  import opened Templates
  import opened SubTemplates

  const NameKind: Kind := Kind("Name", "expr")
  const AttributeKind: Kind := Kind("Attribute", "expr")

  /** The identifiers that the compiler keeps literal. */
  const Reserved: set<string> := {"True", "False", "None"}

  /** The name under which the syntax-tree module is imported in example code. */
  const AstModule: string := "ast"

  function NameNode(id: string, ctx: Value): Value
  {
    Node(NameKind, [("id", Atom(Str(id))), ("ctx", ctx)])
  }

  function AttributeNode(value: Value, attr: string, ctx: Value): Value
  {
    Node(AttributeKind, [("value", value), ("attr", Atom(Str(attr))), ("ctx", ctx)])
  }

  /** `visit_Name`: the template an identifier `id` (with context `ctx`) of the example code becomes. */
  function VisitName(id: string, ctx: Value, args: map<string, string>): (r: Template)
    ensures id in Reserved ==> r == Lift(NameNode(id, ctx)) && Leaves(r) == {}
    ensures id !in Reserved && id in args ==> r == Capture(id, args[id])
    ensures id !in Reserved && id !in args ==>
      && r == TNode(NameKind, LiftFields(NameNode(id, ctx).fields)[0 := ("id", Sticky(id))])
      && Leaves(r) == {Sticky(id)}
      && SubTemplate(r, [Field("id")]) == Ok(Sticky(id))
      && SubTemplate(r, [Field("ctx")]) == Ok(Lift(ctx))
  {
    LiftHasNoLeaves(NameNode(id, ctx));
    LiftHasNoLeaves(ctx);
    if id in Reserved then Lift(NameNode(id, ctx))
    else if id in args then Capture(id, args[id])
    else
      var fields := [("id", Sticky(id)), ("ctx", Lift(ctx))];
      assert fields[..1] == [("id", Sticky(id))] && fields[..1][..0] == [];
      assert FieldLeaves(fields) == FieldLeaves(fields[..1]) + Leaves(Lift(ctx));
      assert FieldLeaves(fields[..1]) == FieldLeaves(fields[..1][..0]) + Leaves(Sticky(id));
      LiftFieldAt(NameNode(id, ctx).fields, 1);
      assert LiftFields(NameNode(id, ctx).fields)[0 := ("id", Sticky(id))] == fields;
      assert [Field("ctx")][1..] == [];
      TNode(NameKind, fields)
  }

  /** The value is the identifier `ast`. */
  predicate IsAstModule(v: Value)
  {
    && v.Node? && v.kind.name == NameKind.name
    && FieldIndex(v.fields, "id").Some?
    && v.fields[FieldIndex(v.fields, "id").value].1 == Atom(Str(AstModule))
  }

  /**
   * `visit_Attribute`: `ast.X` becomes a test for class X; any other
   * attribute access is kept verbatim, its parts left uncompiled.
   */
  function VisitAttribute(value: Value, attr: string, ctx: Value): (r: Template)
    ensures IsAstModule(value) ==> r == IsInstance(attr)
    ensures !IsAstModule(value) ==> r == Lift(AttributeNode(value, attr, ctx)) && Leaves(r) == {}
  {
    LiftHasNoLeaves(AttributeNode(value, attr, ctx));
    if IsAstModule(value) then IsInstance(attr) else Lift(AttributeNode(value, attr, ctx))
  }

  /** The fields of an identifier node: `id` holding a string, then `ctx`. */
  predicate NameShaped(fields: seq<(string, Value)>)
  {
    |fields| == 2 && fields[0].0 == "id" && fields[0].1.Atom? && fields[0].1.scalar.Str? && fields[1].0 == "ctx"
  }

  /** The fields of an attribute node: `value`, `attr` holding a string, then `ctx`. */
  predicate AttributeShaped(fields: seq<(string, Value)>)
  {
    && |fields| == 3 && fields[0].0 == "value"
    && fields[1].0 == "attr" && fields[1].1.Atom? && fields[1].1.scalar.Str? && fields[2].0 == "ctx"
  }

  /**
   * A node that `visit_Name` or `visit_Attribute` turns into a predicate:
   * a declared placeholder, or a class test `ast.X`.
   */
  predicate RewrittenToPredicate(v: Value, args: map<string, string>)
  {
    && v.Node?
    && (|| (v.kind == NameKind && NameShaped(v.fields)
            && v.fields[0].1.scalar.s !in Reserved && v.fields[0].1.scalar.s in args)
        || (v.kind == AttributeKind && AttributeShaped(v.fields) && IsAstModule(v.fields[0].1)))
  }

  /**
   * Somewhere the compiler visits, a list holds a node that becomes a
   * predicate. The transformer splices whatever a list element's visit
   * gives back that is not a node into the list, and a predicate cannot
   * be spliced.
   */
  predicate ListedPredicate(v: Value, args: map<string, string>)
    decreases v, 0
  {
    match v
    case Node(k, fields) =>
      && !(k == NameKind && NameShaped(fields))
      && !(k == AttributeKind && AttributeShaped(fields))
      && exists i | 0 <= i < |fields| :: (assert fields[i] in fields; ListedPredicate(fields[i].1, args))
    case List(items) =>
      exists i | 0 <= i < |items| :: ElementFails(items[i], args)
    case _ => false
  }

  /** A list element whose visit does not give back a node. */
  predicate ElementFails(v: Value, args: map<string, string>)
    decreases v, 1
  {
    v.Node? && (RewrittenToPredicate(v, args) || ListedPredicate(v, args))
  }

  /**
   * The compiler's visit: identifier and attribute nodes are rewritten,
   * every other node has its fields visited, and a list has its nodes
   * visited, each of which must give back a node.
   */
  function Compile(v: Value, args: map<string, string>): (r: Result<Template>)
    ensures r.Err? ==> r.fault == NotIterable
    ensures r.Ok? && v.Node? ==> (r.value.TNode? <==> !RewrittenToPredicate(v, args))
    ensures r.Ok? && v.Node? && r.value.TNode? ==> r.value.kind == v.kind
    ensures r.Ok? && v.List? ==> r.value.TList? && |r.value.items| == |v.items|
    ensures v.Atom? || v.Null? ==> r == Ok(Lift(v))
    decreases v
  {
    match v
    case Node(k, fields) =>
      if k == NameKind && NameShaped(fields) then
        Ok(VisitName(fields[0].1.scalar.s, fields[1].1, args))
      else if k == AttributeKind && AttributeShaped(fields) then
        Ok(VisitAttribute(fields[0].1, fields[1].1.scalar.s, fields[2].1))
      else
        var compiled :- CompileFields(fields, args);
        Ok(TNode(k, compiled))
    case List(items) =>
      var compiled :- CompileItems(items, args);
      Ok(TList(compiled))
    case _ => Ok(Lift(v))
  }

  /** The fields of a node visited in order; each keeps its name. */
  function CompileFields(fields: seq<(string, Value)>, args: map<string, string>): (r: Result<seq<(string, Template)>>)
    ensures r.Err? ==> r.fault == NotIterable
    ensures r.Ok? ==> |r.value| == |fields| && forall i | 0 <= i < |fields| :: r.value[i].0 == fields[i].0
    decreases fields
  {
    if fields == [] then Ok([])
    else
      var last := fields[|fields| - 1];
      assert last in fields && last.1 < last;
      var init :- CompileFields(fields[..|fields| - 1], args);
      var t :- Compile(last.1, args);
      Ok(init + [(last.0, t)])
  }

  /**
   * The elements of a list: a node is visited and must give back a node
   * (a predicate fails the compilation); anything else is kept verbatim.
   */
  function CompileItems(items: seq<Value>, args: map<string, string>): (r: Result<seq<Template>>)
    ensures r.Err? ==> r.fault == NotIterable
    ensures r.Ok? ==> |r.value| == |items| && forall i | 0 <= i < |items| :: !IsCallable(r.value[i])
    ensures r.Ok? ==> forall i | 0 <= i < |items| && !items[i].Node? :: r.value[i] == Lift(items[i])
    decreases items
  {
    if items == [] then Ok([])
    else
      var head :-
        if items[0].Node? then
          var c :- Compile(items[0], args);
          if c.TNode? then Ok(c) else Err(NotIterable)
        else Ok(Lift(items[0]));
      var rest :- CompileItems(items[1..], args);
      Ok([head] + rest)
  }

  /** Fields that each compile compile together, in order and under their own names. */
  lemma {:induction false} CompileFieldsPointwise(fields: seq<(string, Value)>, ts: seq<(string, Template)>, args: map<string, string>)
    requires |fields| == |ts|
    requires forall k | 0 <= k < |fields| :: fields[k].0 == ts[k].0 && Compile(fields[k].1, args) == Ok(ts[k].1)
    ensures CompileFields(fields, args) == Ok(ts)
    decreases |fields|
  {
    if fields != [] {
      var n := |fields| - 1;
      CompileFieldsPointwise(fields[..n], ts[..n], args);
      assert ts == ts[..n] + [(ts[n].0, ts[n].1)];
    }
  }

  /**
   * The compiler leaves `v` as it is: every identifier it visits is
   * `True`, `False` or `None`, and no attribute it visits is `ast.X`. An
   * attribute access is not visited below, and a list element that is not
   * a node is not visited at all.
   */
  predicate Verbatim(v: Value)
    decreases v
  {
    match v
    case Node(k, fields) =>
      if k == NameKind && NameShaped(fields) then fields[0].1.scalar.s in Reserved
      else if k == AttributeKind && AttributeShaped(fields) then !IsAstModule(fields[0].1)
      else forall i | 0 <= i < |fields| :: (assert fields[i] in fields && fields[i].1 < fields[i]; Verbatim(fields[i].1))
    case List(items) => forall i | 0 <= i < |items| :: items[i].Node? ==> Verbatim(items[i])
    case _ => true
  }

  /**
   * The literal parts of an example stay literal: the compiler gives back
   * a value unchanged, as its verbatim template, exactly when nothing in
   * it is rewritten.
   */
  lemma CompileVerbatim(v: Value, args: map<string, string>)
    ensures Compile(v, args) == Ok(Lift(v)) <==> Verbatim(v)
  {
    if Verbatim(v) {
      VerbatimCompiles(v, args);
    } else if Compile(v, args).Ok? {
      RewrittenLeaves(v, args);
      LiftHasNoLeaves(v);
    }
  }

  lemma {:induction false} VerbatimCompiles(v: Value, args: map<string, string>)
    requires Verbatim(v)
    ensures Compile(v, args) == Ok(Lift(v))
    decreases v
  {
    match v
    case Node(k, fields) =>
      if k == NameKind && NameShaped(fields) {
        assert fields == [("id", Atom(Str(fields[0].1.scalar.s))), ("ctx", fields[1].1)];
      } else if k == AttributeKind && AttributeShaped(fields) {
        assert fields == [("value", fields[0].1), ("attr", Atom(Str(fields[1].1.scalar.s))), ("ctx", fields[2].1)];
      } else {
        forall i | 0 <= i < |fields|
          ensures fields[i].0 == LiftFields(fields)[i].0 && Compile(fields[i].1, args) == Ok(LiftFields(fields)[i].1)
        {
          assert fields[i] in fields && fields[i].1 < fields[i];
          LiftFieldAt(fields, i);
          VerbatimCompiles(fields[i].1, args);
        }
        CompileFieldsPointwise(fields, LiftFields(fields), args);
      }
    case List(items) => VerbatimItemsCompile(items, args);
    case _ =>
  }

  lemma {:induction false} VerbatimItemsCompile(items: seq<Value>, args: map<string, string>)
    requires forall i | 0 <= i < |items| :: items[i].Node? ==> Verbatim(items[i])
    ensures CompileItems(items, args) == Ok(LiftItems(items))
    decreases items
  {
    if items != [] {
      if items[0].Node? {
        VerbatimCompiles(items[0], args);
      }
      VerbatimItemsCompile(items[1..], args);
    }
  }

  /** A value the compiler rewrites somewhere compiles, if at all, to a template holding a predicate. */
  lemma {:induction false} RewrittenLeaves(v: Value, args: map<string, string>)
    requires !Verbatim(v) && Compile(v, args).Ok?
    ensures Leaves(Compile(v, args).value) != {}
    decreases v
  {
    match v
    case Node(k, fields) =>
      if !(k == NameKind && NameShaped(fields)) && !(k == AttributeKind && AttributeShaped(fields)) {
        var i :| 0 <= i < |fields| && !Verbatim(fields[i].1);
        assert fields[i] in fields && fields[i].1 < fields[i];
        var cf := CompileFields(fields, args).value;
        CompileFieldsAt(fields, i, args);
        RewrittenLeaves(fields[i].1, args);
        FieldLeavesInclude(cf, i);
      }
    case List(items) =>
      var i :| 0 <= i < |items| && items[i].Node? && !Verbatim(items[i]);
      var ci := CompileItems(items, args).value;
      CompileItemsAt(items, i, args);
      RewrittenLeaves(items[i], args);
      ItemLeavesInclude(ci, i);
  }

  /** A compiled field holds its value's compilation. */
  lemma {:induction false} CompileFieldsAt(fields: seq<(string, Value)>, i: nat, args: map<string, string>)
    requires i < |fields| && CompileFields(fields, args).Ok?
    ensures Compile(fields[i].1, args) == Ok(CompileFields(fields, args).value[i].1)
    decreases |fields|
  {
    var n := |fields| - 1;
    if i < n {
      CompileFieldsAt(fields[..n], i, args);
      assert fields[..n][i] == fields[i];
    }
  }

  /** A compiled list holds, for each node element, that element's compilation. */
  lemma {:induction false} CompileItemsAt(items: seq<Value>, i: nat, args: map<string, string>)
    requires i < |items| && items[i].Node? && CompileItems(items, args).Ok?
    ensures Compile(items[i], args) == Ok(CompileItems(items, args).value[i])
    decreases |items|
  {
    if i > 0 {
      CompileItemsAt(items[1..], i - 1, args);
    }
  }

  /**
   * The compilation of a value fails exactly when a list it holds would
   * receive a predicate.
   */
  lemma {:induction false} CompileFails(v: Value, args: map<string, string>)
    ensures Compile(v, args).Err? <==> ListedPredicate(v, args)
    decreases v
  {
    match v
    case Node(k, fields) =>
      if !(k == NameKind && NameShaped(fields)) && !(k == AttributeKind && AttributeShaped(fields)) {
        CompileFieldsFail(fields, args);
      }
    case List(items) => CompileItemsFail(items, args);
    case _ =>
  }

  lemma {:induction false} CompileFieldsFail(fields: seq<(string, Value)>, args: map<string, string>)
    ensures CompileFields(fields, args).Err? <==> exists i | 0 <= i < |fields| :: ListedPredicate(fields[i].1, args)
    decreases fields
  {
    if fields != [] {
      var n := |fields| - 1;
      assert fields[n] in fields && fields[n].1 < fields[n];
      CompileFieldsFail(fields[..n], args);
      CompileFails(fields[n].1, args);
      CompileFieldsStep(fields, args);
      ListedSplit(fields, fields[..n], args);
    }
  }

  lemma CompileFieldsStep(fields: seq<(string, Value)>, args: map<string, string>)
    requires fields != []
    ensures CompileFields(fields, args).Err?
      <==> CompileFields(fields[..|fields| - 1], args).Err? || Compile(fields[|fields| - 1].1, args).Err?
  {
  }

  lemma ListedSplit(fields: seq<(string, Value)>, init: seq<(string, Value)>, args: map<string, string>)
    requires fields != [] && init == fields[..|fields| - 1]
    ensures (exists i | 0 <= i < |fields| :: ListedPredicate(fields[i].1, args))
      == ((exists i | 0 <= i < |init| :: ListedPredicate(init[i].1, args)) || ListedPredicate(fields[|fields| - 1].1, args))
  {
    var n := |fields| - 1;
    if exists i | 0 <= i < n :: ListedPredicate(fields[..n][i].1, args) {
      var i :| 0 <= i < n && ListedPredicate(fields[..n][i].1, args);
      assert fields[i] == fields[..n][i];
    }
    if exists i | 0 <= i < |fields| :: ListedPredicate(fields[i].1, args) {
      var i :| 0 <= i < |fields| && ListedPredicate(fields[i].1, args);
      if i < n {
        assert fields[..n][i] == fields[i];
      }
    }
  }

  lemma {:induction false} CompileItemsFail(items: seq<Value>, args: map<string, string>)
    ensures CompileItems(items, args).Err? <==> exists i | 0 <= i < |items| :: ElementFails(items[i], args)
    decreases items
  {
    if items != [] {
      CompileFails(items[0], args);
      CompileItemsFail(items[1..], args);
      CompileItemsStep(items, args);
      if exists i | 1 <= i < |items| :: ElementFails(items[i], args) {
        var i :| 1 <= i < |items| && ElementFails(items[i], args);
        assert items[1..][i - 1] == items[i];
      }
      if exists i | 0 <= i < |items[1..]| :: ElementFails(items[1..][i], args) {
        var i :| 0 <= i < |items[1..]| && ElementFails(items[1..][i], args);
        assert items[1..][i] == items[i + 1];
      }
    }
  }

  lemma CompileItemsStep(items: seq<Value>, args: map<string, string>)
    requires items != []
    requires Compile(items[0], args).Err? <==> ListedPredicate(items[0], args)
    ensures CompileItems(items, args).Err? <==> ElementFails(items[0], args) || CompileItems(items[1..], args).Err?
  {
  }

  /**
   * The predicates a compiled template can hold: captures of declared
   * placeholders carrying their declared class, sticky identifiers that
   * are neither placeholders nor reserved, and class tests.
   */
  predicate CompiledLeaf(l: Template, args: map<string, string>)
  {
    || (l.Capture? && l.id in args && l.cls == args[l.id] && l.id !in Reserved)
    || (l.Sticky? && l.key !in args && l.key !in Reserved)
    || l.IsInstance?
  }

  lemma {:induction false} CompiledLeaves(v: Value, args: map<string, string>)
    requires Compile(v, args).Ok?
    ensures forall l | l in Leaves(Compile(v, args).value) :: CompiledLeaf(l, args)
    decreases v
  {
    match v
    case Node(k, fields) =>
      if !(k == NameKind && NameShaped(fields)) && !(k == AttributeKind && AttributeShaped(fields)) {
        CompiledFieldLeaves(fields, args);
      }
    case List(items) => CompiledItemLeaves(items, args);
    case _ => LiftHasNoLeaves(v);
  }

  lemma {:induction false} CompiledFieldLeaves(fields: seq<(string, Value)>, args: map<string, string>)
    requires CompileFields(fields, args).Ok?
    ensures forall l | l in FieldLeaves(CompileFields(fields, args).value) :: CompiledLeaf(l, args)
    decreases fields
  {
    if fields != [] {
      var last := fields[|fields| - 1];
      assert last in fields && last.1 < last;
      CompiledFieldLeaves(fields[..|fields| - 1], args);
      CompiledLeaves(last.1, args);
      var r := CompileFields(fields, args).value;
      assert r[..|r| - 1] == CompileFields(fields[..|fields| - 1], args).value;
    }
  }

  lemma {:induction false} CompiledItemLeaves(items: seq<Value>, args: map<string, string>)
    requires CompileItems(items, args).Ok?
    ensures forall l | l in ItemLeaves(CompileItems(items, args).value) :: CompiledLeaf(l, args)
    decreases items
  {
    if items != [] {
      if items[0].Node? {
        CompiledLeaves(items[0], args);
      } else {
        LiftHasNoLeaves(items[0]);
      }
      CompiledItemLeaves(items[1..], args);
      var r := CompileItems(items, args).value;
      assert r[1..] == CompileItems(items[1..], args).value;
    }
  }

  /** `zipdict`: each key paired with the value at the same position; a later repeat of a key wins. */
  function ZipDict(keys: seq<string>, values: seq<string>): (m: map<string, string>)
    requires |keys| == |values|
    ensures forall k :: k in m <==> k in keys
    ensures forall i | 0 <= i < |keys| :: m[keys[i]] == values[i] || keys[i] in keys[i + 1..]
    decreases |keys|
  {
    if keys == [] then map[]
    else
      var m := ZipDict(keys[1..], values[1..]);
      var r := if keys[0] in m then m else m[keys[0] := values[0]];
      assert forall i | 1 <= i < |keys| :: r[keys[i]] == values[i] || keys[i] in keys[i + 1..] by {
        forall i | 1 <= i < |keys|
          ensures r[keys[i]] == values[i] || keys[i] in keys[i + 1..]
        {
          assert keys[1..][i - 1] == keys[i] && keys[1..][i..] == keys[i + 1..];
        }
      }
      r
  }

  /** The body is a single expression statement holding an expression. */
  predicate SingleExpr(body: seq<Template>)
  {
    |body| == 1 && body[0].TNode? && body[0].kind.name == "Expr" && FieldIndex(body[0].fields, "value").Some?
  }

  /** A body of a single expression statement is unwrapped to its expression; any other body stays a list. */
  function Unwrap(body: seq<Template>): (r: Template)
    ensures SingleExpr(body) ==> r == body[0].fields[FieldIndex(body[0].fields, "value").value].1
    ensures !SingleExpr(body) ==> r == TList(body)
    ensures Leaves(r) <= Leaves(TList(body))
  {
    if SingleExpr(body) then
      FieldLeavesInclude(body[0].fields, FieldIndex(body[0].fields, "value").value);
      assert ItemLeaves(body) == Leaves(body[0]) + ItemLeaves(body[1..]);
      body[0].fields[FieldIndex(body[0].fields, "value").value].1
    else TList(body)
  }

  /** The body is one expression statement, before compilation. */
  predicate ExprStatement(body: seq<Value>)
  {
    |body| == 1 && body[0].Node? && body[0].kind.name == "Expr" && FieldIndex(body[0].fields, "value").Some?
  }

  /** The expression of an expression statement. */
  function ExprValue(stmt: Value): Value
    requires stmt.Node? && FieldIndex(stmt.fields, "value").Some?
  {
    stmt.fields[FieldIndex(stmt.fields, "value").value].1
  }

  /**
   * A compiled body is a lone expression statement exactly when the body
   * was one, and its expression is then the compiled expression.
   */
  lemma UnwrapCompiled(body: seq<Value>, args: map<string, string>)
    requires CompileBody(body, args).Ok?
    ensures SingleExpr(CompileBody(body, args).value) <==> ExprStatement(body)
    ensures ExprStatement(body) ==>
      var ts := CompileBody(body, args).value;
      Compile(ExprValue(body[0]), args) == Ok(ts[0].fields[FieldIndex(ts[0].fields, "value").value].1)
  {
    var ts := CompileBody(body, args).value;
    if |body| == 1 {
      assert Compile(body[0], args) == Ok(ts[0]);
      if body[0].Node? && body[0].kind.name == "Expr" {
        var fields := body[0].fields;
        assert !RewrittenToPredicate(body[0], args);
        var cf := CompileFields(fields, args).value;
        assert ts[0] == TNode(body[0].kind, cf);
        FieldIndexSameNames(fields, cf, "value");
        if FieldIndex(fields, "value").Some? {
          CompileFieldsAt(fields, FieldIndex(fields, "value").value, args);
        }
      }
    }
  }

  /** Two field lists with the same names in the same order locate a name at the same index. */
  lemma {:induction false} FieldIndexSameNames<S, T>(a: seq<(string, S)>, b: seq<(string, T)>, name: string)
    requires |a| == |b| && forall i | 0 <= i < |a| :: a[i].0 == b[i].0
    ensures FieldIndex(a, name) == FieldIndex(b, name)
    decreases |a|
  {
    if a != [] {
      FieldIndexSameNames(a[1..], b[1..], name);
    }
  }

  /**
   * `compile_template` on a rule whose template has the parameters `args`,
   * the defaults `defaults` (the declared classes, for the last parameters)
   * and the parsed statements `body`.
   */
  function CompileTemplate(args: seq<string>, defaults: seq<string>, body: seq<Value>): (r: Result<Template>)
    ensures r.Err? <==>
      || |args| != |defaults|
      || exists i | 0 <= i < |body| :: ListedPredicate(body[i], ZipDict(args, defaults))
    ensures r.Err? ==> r.fault == if |args| != |defaults| then MissingClass else NotIterable
    ensures r.Ok? ==> forall l | l in Leaves(r.value) :: CompiledLeaf(l, ZipDict(args, defaults))
    ensures r.Ok? && ExprStatement(body) ==> Compile(ExprValue(body[0]), ZipDict(args, defaults)) == Ok(r.value)
    ensures r.Ok? && !ExprStatement(body) ==>
      && r.value.TList? && |r.value.items| == |body|
      && forall i | 0 <= i < |body| :: Compile(body[i], ZipDict(args, defaults)) == Ok(r.value.items[i])
  {
    if |args| != |defaults| then Err(MissingClass)
    else
      var classes := ZipDict(args, defaults);
      CompileBodyFails(body, classes);
      var compiled :- CompileBody(body, classes);
      UnwrapCompiled(body, classes);
      Ok(Unwrap(compiled))
  }

  /** Each statement of the body visited. */
  function CompileBody(body: seq<Value>, args: map<string, string>): (r: Result<seq<Template>>)
    ensures r.Err? ==> r.fault == NotIterable
    ensures r.Ok? ==> |r.value| == |body| && forall l | l in ItemLeaves(r.value) :: CompiledLeaf(l, args)
    ensures r.Ok? ==> forall i | 0 <= i < |body| :: Compile(body[i], args) == Ok(r.value[i])
    decreases |body|
  {
    if body == [] then Ok([])
    else
      var first :- Compile(body[0], args);
      var rest :- CompileBody(body[1..], args);
      CompiledLeaves(body[0], args);
      var r := [first] + rest;
      assert r[1..] == rest;
      assert forall i | 1 <= i < |body| :: body[i] == body[1..][i - 1] && r[i] == rest[i - 1];
      Ok(r)
  }

  /** The body fails to compile exactly when one of its statements does. */
  lemma {:induction false} CompileBodyFails(body: seq<Value>, args: map<string, string>)
    ensures CompileBody(body, args).Err? <==> exists i | 0 <= i < |body| :: ListedPredicate(body[i], args)
    decreases |body|
  {
    if body != [] {
      CompileFails(body[0], args);
      CompileBodyFails(body[1..], args);
      if exists i | 1 <= i < |body| :: ListedPredicate(body[i], args) {
        var i :| 1 <= i < |body| && ListedPredicate(body[i], args);
        assert body[1..][i - 1] == body[i];
      }
      if exists i | 0 <= i < |body[1..]| :: ListedPredicate(body[1..][i], args) {
        var i :| 0 <= i < |body[1..]| && ListedPredicate(body[1..][i], args);
        assert body[1..][i] == body[i + 1];
      }
    }
  }
}
