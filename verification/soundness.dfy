/**
 * What a reported match means. Every candidate that `match` reports is
 * anchored at a value of the input tree (its node is that value, or its
 * head for a list), every part of that value down to the leaves matches
 * the template part at the same path under the candidate's final bindings,
 * its renaming is one-to-one, and it captured and renamed only what the
 * template declares.
 */
module MatchSoundness {

  import opened Results
  import opened Trees
  import opened Templates
  import opened Bindings
  import opened NodeMatching
  import opened SubTemplates
  import opened Matching
  import opened Compiler

  /** `v` matches `s` under `c` and needs no renaming and no capture that `c` lacks. */
  predicate Settled(v: Value, s: Template, c: Context)
  {
    var r := NodeMatches(v, s, c);
    r.ok && r.ctx.names == c.names && r.ctx.rev == c.rev && r.ctx.captures.Keys == c.captures.Keys
  }

  /**
   * A match stays a match once the renaming grows: a value that matched
   * under `c` is settled under any one-to-one renaming extending the one
   * that match produced.
   */
  lemma {:induction false} SettledAfterMatch(v: Value, s: Template, c: Context, d: Context)
    requires NodeMatches(v, s, c).ok && Extends(NodeMatches(v, s, c).ctx, d) && Inverse(d)
    ensures Settled(v, s, d)
    decreases s
  {
    if s.TList? && v.List? && |v.items| >= |s.items| && s.items != [] {
      ListHead(v, s.items, c);
      SettledAfterMatch(v.items[0], s.items[0], c, d);
      ListHead(v, s.items, d);
    } else if s.Sticky? {
      StickySettled(s.key, v, c, d);
    } else {
      SettledAtTop(v, s, c, d);
    }
  }

  /** A list template long enough for the list asks only about the head. */
  lemma ListHead(v: Value, ts: seq<Template>, c: Context)
    requires v.List? && |v.items| >= |ts| && ts != []
    ensures NodeMatches(v, TList(ts), c) == NodeMatches(v.items[0], ts[0], c)
  {
  }

  /** The templates that decide at the top, without consulting the renaming. */
  lemma SettledAtTop(v: Value, s: Template, c: Context, d: Context)
    requires !(s.TList? && v.List? && |v.items| >= |s.items| && s.items != []) && !s.Sticky?
    requires NodeMatches(v, s, c).ok && Extends(NodeMatches(v, s, c).ctx, d)
    ensures Settled(v, s, d)
  {
    if s.Capture? {
      CaptureSettled(s.id, s.cls, v, c, d);
    } else {
      assert NodeMatches(v, s, d) == Verdict(true, d);
    }
  }

  /** A capture that took a node takes it again, with nothing new bound, once its binding is kept. */
  lemma CaptureSettled(id: string, cls: string, n: Value, c: Context, d: Context)
    requires MatchCapture(id, cls, n, c).ok && Extends(MatchCapture(id, cls, n, c).ctx, d)
    ensures Settled(n, Capture(id, cls), d)
  {
    assert id in d.captures;
    assert d.captures[id := n].Keys == d.captures.Keys;
  }

  /** An identifier the sticky key accepted is accepted again, with nothing new bound, once the binding is kept. */
  lemma StickySettled(key: string, name: Value, c: Context, d: Context)
    requires StickyName(key, name, c).ok && Extends(StickyName(key, name, c).ctx, d)
    ensures StickyName(key, name, d) == Verdict(true, d)
  {
    var e := StickyName(key, name, c).ctx;
    assert key in e.names && name in e.rev;
    assert key in d.names && d.names[key] == name && name in d.rev;
  }

  lemma SettledPersists(v: Value, s: Template, c: Context, d: Context)
    requires Settled(v, s, c) && Extends(c, d) && Inverse(d)
    ensures Settled(v, s, d)
  {
    SettledAfterMatch(v, s, c, d);
  }

  lemma ExtendsTransitive(a: Context, b: Context, c: Context)
    requires Extends(a, b) && Extends(b, c)
    ensures Extends(a, c)
  {
  }

  /**
   * Every part of `v` matches the template part at the same path, `path`
   * being where `v` itself sits below the candidate's start: the fields of
   * a node are followed by name, a list by its head and its tail.
   */
  predicate DeepMatch(v: Value, t: Template, path: seq<Step>, c: Context)
    decreases Size(v), 1
  {
    && SubTemplate(t, path).Ok?
    && Settled(v, SubTemplate(t, path).value, c)
    && match v
       case Node(_, fields) => FieldsDeepMatch(fields, t, path, c)
       case List(items) =>
         if items == [] then true
         else
           ItemsSmaller(items);
           DeepMatch(items[0], t, path + [Head], c) && DeepMatch(List(items[1..]), t, path + [Tail], c)
       case _ => true
  }

  predicate FieldsDeepMatch(fields: seq<(string, Value)>, t: Template, path: seq<Step>, c: Context)
    decreases FieldsSize(fields), 2
  {
    if fields == [] then true
    else
      var n := |fields| - 1;
      FieldsDeepMatch(fields[..n], t, path, c) && DeepMatch(fields[n].1, t, path + [Field(fields[n].0)], c)
  }

  lemma {:induction false} DeepMatchPersists(v: Value, t: Template, path: seq<Step>, c: Context, d: Context)
    requires DeepMatch(v, t, path, c) && Extends(c, d) && Inverse(d)
    ensures DeepMatch(v, t, path, d)
    decreases Size(v), 1
  {
    SettledPersists(v, SubTemplate(t, path).value, c, d);
    match v
    case Node(_, fields) => FieldsDeepMatchPersists(fields, t, path, c, d);
    case List(items) =>
      if items != [] {
        DeepListPersists(items, t, path, c, d);
      }
    case _ =>
  }

  lemma {:induction false} DeepListPersists(items: seq<Value>, t: Template, path: seq<Step>, c: Context, d: Context)
    requires items != [] && DeepMatch(List(items), t, path, c) && Extends(c, d) && Inverse(d)
    ensures DeepMatch(List(items), t, path, d)
    decreases Size(List(items)), 0
  {
    ItemsSmaller(items);
    DeepList(items, t, path, c);
    SettledPersists(List(items), SubTemplate(t, path).value, c, d);
    DeepMatchPersists(items[0], t, path + [Head], c, d);
    DeepMatchPersists(List(items[1..]), t, path + [Tail], c, d);
    DeepList(items, t, path, d);
  }

  /** A non-empty list matches deeply when it is settled and its head and its tail match deeply. */
  lemma DeepList(items: seq<Value>, t: Template, path: seq<Step>, c: Context)
    requires items != []
    ensures DeepMatch(List(items), t, path, c) <==>
      && SubTemplate(t, path).Ok? && Settled(List(items), SubTemplate(t, path).value, c)
      && DeepMatch(items[0], t, path + [Head], c) && DeepMatch(List(items[1..]), t, path + [Tail], c)
  {
  }

  lemma {:induction false} FieldsDeepMatchPersists(fields: seq<(string, Value)>, t: Template, path: seq<Step>, c: Context, d: Context)
    requires FieldsDeepMatch(fields, t, path, c) && Extends(c, d) && Inverse(d)
    ensures FieldsDeepMatch(fields, t, path, d)
    decreases FieldsSize(fields), 2
  {
    if fields != [] {
      var n := |fields| - 1;
      FieldsDeepMatchPersists(fields[..n], t, path, c, d);
      DeepMatchPersists(fields[n].1, t, path + [Field(fields[n].0)], c, d);
    }
  }

  /**
   * A value matches its own verbatim template all the way down: wherever
   * the template holds `v` kept verbatim, every part of `v` matches the
   * template part at the same path, and nothing is bound.
   */
  lemma {:induction false} LiftDeepMatch(v: Value, t: Template, path: seq<Step>, c: Context)
    requires WellFormed(v) && SubTemplate(t, path) == Ok(Lift(v))
    ensures DeepMatch(v, t, path, c)
    decreases Size(v), 1
  {
    LiftMatchesItself(v, c);
    match v
    case Node(k, fields) =>
      LiftFieldsDeepMatch(k, fields, |fields|, t, path, c);
      assert fields[..|fields|] == fields;
    case List(items) =>
      if items != [] {
        ItemsSmaller(items);
        LiftItemsSplit(items);
        LiftHeadTail(items, t, path);
        ItemsWellFormedSplit(items);
        LiftDeepMatch(items[0], t, path + [Head], c);
        LiftDeepMatch(List(items[1..]), t, path + [Tail], c);
        DeepList(items, t, path, c);
      }
    case _ =>
  }

  /** The head and the tail of a list kept verbatim are addressed by steps 0 and 1. */
  lemma LiftHeadTail(items: seq<Value>, t: Template, path: seq<Step>)
    requires items != [] && SubTemplate(t, path) == Ok(Lift(List(items)))
    requires LiftItems(items)[0] == Lift(items[0]) && LiftItems(items)[1..] == LiftItems(items[1..])
    ensures SubTemplate(t, path + [Head]) == Ok(Lift(items[0]))
    ensures SubTemplate(t, path + [Tail]) == Ok(Lift(List(items[1..])))
  {
    SubTemplateAppend(t, path, [Head]);
    SubTemplateAppend(t, path, [Tail]);
    assert SubTemplate(TList(LiftItems(items)), [Head]) == Ok(LiftItems(items)[0]);
    assert SubTemplate(TList(LiftItems(items)), [Tail]) == SubTemplate(TList(LiftItems(items)[1..]), []);
  }

  /** The first `j` fields of a node kept verbatim match deeply. */
  lemma {:induction false} LiftFieldsDeepMatch(k: Kind, fields: seq<(string, Value)>, j: nat, t: Template, path: seq<Step>, c: Context)
    requires j <= |fields| && WellFormed(Node(k, fields)) && SubTemplate(t, path) == Ok(Lift(Node(k, fields)))
    ensures FieldsDeepMatch(fields[..j], t, path, c)
    decreases Size(Node(k, fields)), 0, j
  {
    if j > 0 {
      var n := j - 1;
      assert fields[..j][..n] == fields[..n] && fields[..j][n] == fields[n];
      LiftFieldsDeepMatch(k, fields, n, t, path, c);
      FieldSmaller(fields, n);
      FieldWellFormed(fields, n);
      LiftFieldStep(k, fields, n, t, path);
      LiftDeepMatch(fields[n].1, t, path + [Field(fields[n].0)], c);
    }
  }

  /** In a node kept verbatim with distinct field names, the step named after field `i` leads to that field kept verbatim. */
  lemma LiftFieldStep(k: Kind, fields: seq<(string, Value)>, i: nat, t: Template, path: seq<Step>)
    requires i < |fields| && DistinctNames(fields) && SubTemplate(t, path) == Ok(Lift(Node(k, fields)))
    ensures SubTemplate(t, path + [Field(fields[i].0)]) == Ok(Lift(fields[i].1))
  {
    var lifted := LiftFields(fields);
    LiftFieldAt(fields, i);
    var r := FieldIndex(lifted, fields[i].0);
    assert r.Some? && r.value == i by {
      assert lifted[i].0 == fields[i].0;
      forall j | 0 <= j < |lifted| && j != i
        ensures lifted[j].0 != fields[i].0
      {
        assert lifted[j].0 == fields[j].0;
      }
    }
    SubTemplateAppend(t, path, [Field(fields[i].0)]);
    FirstStep(Lift(Node(k, fields)), Field(fields[i].0), []);
    assert [Field(fields[i].0)] + [] == [Field(fields[i].0)];
  }

  /** Every well-formed value matches its own verbatim template deeply from the top. */
  lemma LiftDeepMatchesItself(v: Value, c: Context)
    requires WellFormed(v)
    ensures DeepMatch(v, Lift(v), [], c)
  {
    LiftDeepMatch(v, Lift(v), [], c);
  }

  /** Field `i` of a node that matches deeply matches deeply at the step named after it. */
  lemma {:induction false} FieldsDeepMatchAt(fields: seq<(string, Value)>, t: Template, path: seq<Step>, c: Context, i: nat)
    requires i < |fields| && FieldsDeepMatch(fields, t, path, c)
    ensures DeepMatch(fields[i].1, t, path + [Field(fields[i].0)], c)
    decreases |fields|
  {
    var n := |fields| - 1;
    if i < n {
      FieldsDeepMatchAt(fields[..n], t, path, c, i);
      assert fields[..n][i] == fields[i];
    }
  }

  /**
   * Capture completeness: where a value matches deeply, every placeholder
   * of the template part it sits at has been captured, provided the value
   * and the template give each node class the same fields.
   */
  lemma {:induction false} CapturesComplete(v: Value, t: Template, path: seq<Step>, c: Context, schema: Kind -> seq<string>)
    requires WellFormed(v) && Conforms(v, schema)
    requires DeepMatch(v, t, path, c) && TConforms(SubTemplate(t, path).value, schema)
    ensures forall l | l in Leaves(SubTemplate(t, path).value) && l.Capture? :: l.id in c.captures
    decreases Size(v), 1
  {
    var u := SubTemplate(t, path).value;
    forall l | l in Leaves(u) && l.Capture?
      ensures l.id in c.captures
    {
      match u
      case Capture(id, cls) =>
        assert Settled(v, u, c);
      case TNode(_, _) =>
        NodeCaptured(v, t, path, c, schema, l);
      case TList(ts) =>
        ListCaptured(v, t, path, c, schema, l);
      case _ =>
    }
  }

  lemma {:induction false} NodeCaptured(v: Value, t: Template, path: seq<Step>, c: Context, schema: Kind -> seq<string>, l: Template)
    requires WellFormed(v) && Conforms(v, schema)
    requires DeepMatch(v, t, path, c) && SubTemplate(t, path).value.TNode? && TConforms(SubTemplate(t, path).value, schema)
    requires l in Leaves(SubTemplate(t, path).value) && l.Capture?
    ensures l.id in c.captures
    decreases Size(v), 0
  {
    var u := SubTemplate(t, path).value;
    var tf := u.fields;
    assert Settled(v, u, c);
    var vf := v.fields;
    assert Names(vf) == schema(u.kind) == Names(tf);
    FieldLeavesFrom(tf, l);
    var i :| 0 <= i < |tf| && l in Leaves(tf[i].1);
    assert Names(vf)[i] == vf[i].0 && Names(tf)[i] == tf[i].0;
    NamesMatch(vf, tf, i);
    var step := Field(vf[i].0);
    SubTemplateAppend(t, path, [step]);
    FirstStep(u, step, []);
    assert [step] + [] == [step];
    assert tf[i] in tf && tf[i].1 < tf[i];
    FieldsDeepMatchAt(vf, t, path, c, i);
    FieldSmaller(vf, i);
    FieldWellFormed(vf, i);
    FieldConforms(vf, i, schema);
    CapturesComplete(vf[i].1, t, path + [step], c, schema);
  }

  /** Two field lists with the same names: the distinct names of one locate field `i` of the other. */
  lemma NamesMatch(vf: seq<(string, Value)>, tf: seq<(string, Template)>, i: nat)
    requires Names(vf) == Names(tf) && DistinctNames(vf) && i < |tf|
    ensures FieldIndex(tf, vf[i].0) == Some(i)
  {
    assert |vf| == |Names(vf)| == |Names(tf)| == |tf|;
    forall j, k | 0 <= j < k < |tf|
      ensures tf[j].0 != tf[k].0
    {
      assert Names(vf)[j] == vf[j].0 && Names(tf)[j] == tf[j].0;
      assert Names(vf)[k] == vf[k].0 && Names(tf)[k] == tf[k].0;
    }
    assert Names(vf)[i] == vf[i].0 && Names(tf)[i] == tf[i].0;
    FieldIndexOfDistinct(tf, i);
  }

  lemma {:induction false} ListCaptured(v: Value, t: Template, path: seq<Step>, c: Context, schema: Kind -> seq<string>, l: Template)
    requires WellFormed(v) && Conforms(v, schema)
    requires DeepMatch(v, t, path, c) && SubTemplate(t, path).value.TList? && TConforms(SubTemplate(t, path).value, schema)
    requires l in Leaves(SubTemplate(t, path).value) && l.Capture?
    ensures l.id in c.captures
    decreases Size(v), 0
  {
    var ts := SubTemplate(t, path).value.items;
    assert ts != [];
    assert Settled(v, TList(ts), c);
    var items := v.items;
    assert items != [];
    ListStep(t, path, ts);
    DeepList(items, t, path, c);
    ItemsSmaller(items);
    ItemsWellFormedSplit(items);
    ItemsConformSplit(items, schema);
    assert TConforms(ts[0], schema) && TConforms(TList(ts[1..]), schema);
    if l in Leaves(ts[0]) {
      CapturesComplete(items[0], t, path + [Head], c, schema);
    } else {
      CapturesComplete(List(items[1..]), t, path + [Tail], c, schema);
    }
  }

  /** Steps 0 and 1 from a non-empty list template address its head and its tail. */
  lemma ListStep(t: Template, path: seq<Step>, ts: seq<Template>)
    requires SubTemplate(t, path) == Ok(TList(ts)) && ts != []
    ensures SubTemplate(t, path + [Head]) == Ok(ts[0])
    ensures SubTemplate(t, path + [Tail]) == Ok(TList(ts[1..]))
  {
    SubTemplateAppend(t, path, [Head]);
    SubTemplateAppend(t, path, [Tail]);
    assert SubTemplate(TList(ts), [Head]) == Ok(ts[0]);
    assert SubTemplate(TList(ts), [Tail]) == SubTemplate(TList(ts[1..]), []);
  }

  /** The template holds placeholder `id` at `q`, and the value `q` leads to below `anchor` is `n`. */
  ghost predicate CapturedAt(anchor: Value, t: Template, q: seq<Step>, id: string, n: Value)
  {
    && SubTemplate(t, q).Ok? && SubTemplate(t, q).value.Capture? && SubTemplate(t, q).value.id == id
    && At(anchor, q) == Some(n)
  }

  /**
   * Every capture of `c` is a fragment of `anchor` found at a position
   * where the template holds that placeholder. A placeholder used twice
   * keeps the fragment of whichever use captured last.
   */
  ghost predicate Traced(anchor: Value, t: Template, c: Context)
  {
    forall id | id in c.captures :: exists q :: CapturedAt(anchor, t, q, id, c.captures[id])
  }

  /**
   * Matching `v`, found at `path` below `anchor`, against the template part
   * at `path` captures only the fragments at the placeholders' positions.
   */
  lemma {:induction false} MatchTraced(v: Value, s: Template, c: Context, anchor: Value, t: Template, path: seq<Step>)
    requires SubTemplate(t, path) == Ok(s) && At(anchor, path) == Some(v) && Traced(anchor, t, c)
    ensures Traced(anchor, t, NodeMatches(v, s, c).ctx)
    decreases s
  {
    match s
    case TList(ts) =>
      if v.List? && |v.items| >= |ts| && ts != [] {
        ListStep(t, path, ts);
        AtSnoc(anchor, path, Head, v);
        MatchTraced(v.items[0], ts[0], c, anchor, t, path + [Head]);
      }
    case Capture(id, cls) =>
      CaptureTraced(id, cls, v, c, anchor, t, path);
    case _ =>
  }

  lemma CaptureTraced(id: string, cls: string, v: Value, c: Context, anchor: Value, t: Template, path: seq<Step>)
    requires SubTemplate(t, path) == Ok(Capture(id, cls)) && At(anchor, path) == Some(v) && Traced(anchor, t, c)
    ensures Traced(anchor, t, MatchCapture(id, cls, v, c).ctx)
  {
    var d := MatchCapture(id, cls, v, c).ctx;
    forall k | k in d.captures
      ensures exists q :: CapturedAt(anchor, t, q, k, d.captures[k])
    {
      if k == id && InstanceOf(v, cls) {
        assert CapturedAt(anchor, t, path, id, v);
      } else {
        assert d.captures[k] == c.captures[k];
      }
    }
  }

  /** The predicates a template part can hold: its own, or the two fallbacks of sub-template lookup. */
  function Known(t: Template): set<Template>
  {
    Leaves(t) + {Never, Always}
  }

  /**
   * A candidate sits at a value of `tree` and reports that value, or its
   * head for a list; its renaming is one-to-one and it has captured and
   * renamed only what the template declares.
   */
  ghost predicate Anchored(tree: Value, t: Template, p: Candidate)
  {
    && At(tree, p.stack).Some?
    && (var v := At(tree, p.stack).value;
        if v.List? then v.items != [] && p.node == v.items[0] else p.node == v)
    && Inverse(p.ctx)
    && CapturesDeclared(p.ctx, Known(t))
    && NamesDeclared(p.ctx, Known(t))
    && Traced(At(tree, p.stack).value, t, p.ctx)
  }

  /** An anchored candidate whose whole value matches the template. */
  ghost predicate Complete(tree: Value, t: Template, p: Candidate)
  {
    Anchored(tree, t, p) && DeepMatch(At(tree, p.stack).value, t, [], p.ctx)
  }

  /**
   * The walk's lists when `stack` is about to be visited: the confirmed
   * candidates are complete, and so is every candidate the walk has left.
   */
  ghost predicate Sound(tree: Value, t: Template, stack: seq<Step>, w: Walked)
  {
    && (forall p | p in w.matches :: Complete(tree, t, p))
    && (forall p | p in w.potential :: Anchored(tree, t, p) && (!(p.stack <= stack) ==> Complete(tree, t, p)))
  }

  /** A candidate under way at `node`, reached by `stack`: `node` matches what the candidate expects there. */
  ghost predicate Open(tree: Value, t: Template, node: Value, stack: seq<Step>, p: Candidate)
  {
    && Anchored(tree, t, p)
    && p.stack <= stack
    && Expected(t, p, stack).Ok?
    && Settled(node, Expected(t, p, stack).value, p.ctx)
  }

  /** `p` is a later state of a candidate among `ps`: same start, more bindings. */
  ghost predicate Descends(p: Candidate, ps: seq<Candidate>)
  {
    exists q | q in ps :: q.stack == p.stack && Extends(q.ctx, p.ctx)
  }

  lemma DescendsThrough(p: Candidate, qs: seq<Candidate>, ps: seq<Candidate>, stack: seq<Step>)
    requires Descends(p, qs)
    requires forall q | q in qs :: q.stack == stack || Descends(q, ps)
    ensures p.stack == stack || Descends(p, ps)
  {
    var q :| q in qs && q.stack == p.stack && Extends(q.ctx, p.ctx);
    if q.stack != stack {
      var q0 :| q0 in ps && q0.stack == q.stack && Extends(q0.ctx, q.ctx);
      ExtendsTransitive(q0.ctx, q.ctx, p.ctx);
    }
  }

  /** A path that is a prefix of `stack + [s]` but not of `stack` is `stack + [s]` itself. */
  lemma PrefixOfSnoc(a: seq<Step>, stack: seq<Step>, s: Step)
    ensures a <= stack ==> a <= stack + [s]
    ensures a <= stack + [s] && !(a <= stack) ==> a == stack + [s]
    ensures a <= stack ==> (stack + [s])[|a|..] == stack[|a|..] + [s]
  {
    if a <= stack + [s] && |a| <= |stack| {
      assert a == (stack + [s])[..|a|] == stack[..|a|];
    }
    if a <= stack {
      assert (stack + [s])[|a|..] == stack[|a|..] + [s];
    }
  }

  /**
   * A candidate kept at `node` stays anchored where it was, with a context
   * still one-to-one and still declared by the template.
   */
  lemma KeptAnchored(tree: Value, t: Template, node: Value, stack: seq<Step>, p: Candidate, q: Candidate)
    requires At(tree, stack) == Some(node) && Anchored(tree, t, p)
    requires p.stack == q.stack && p.node == q.node && p.stack <= stack && Expected(t, p, stack).Ok?
    requires NodeMatches(node, Expected(t, p, stack).value, p.ctx) == Verdict(true, q.ctx)
    ensures Anchored(tree, t, q) && Extends(p.ctx, q.ctx)
  {
    var sub := Expected(t, p, stack).value;
    SubTemplateLeaves(t, stack[|p.stack|..]);
    MatchKeepsDeclared(node, sub, p.ctx, Known(t));
    var anchor := At(tree, p.stack).value;
    var path := stack[|p.stack|..];
    assert p.stack + path == stack;
    AtAppend(tree, p.stack, path, anchor);
    MatchTraced(node, sub, p.ctx, anchor, t, path);
  }

  /** A candidate kept at `node` is open there. */
  lemma KeptOpen(tree: Value, t: Template, node: Value, stack: seq<Step>, p: Candidate, q: Candidate)
    requires Anchored(tree, t, q)
    requires p.stack == q.stack && p.stack <= stack && Expected(t, p, stack).Ok?
    requires NodeMatches(node, Expected(t, p, stack).value, p.ctx) == Verdict(true, q.ctx)
    ensures Open(tree, t, node, stack, q)
  {
    SettledAfterMatch(node, Expected(t, p, stack).value, p.ctx, q.ctx);
  }

  /** A kept candidate is open at `node` and descends from a candidate under way before. */
  lemma KeptIsOpen(tree: Value, t: Template, node: Value, stack: seq<Step>, ps: seq<Candidate>, q: Candidate)
    requires At(tree, stack) == Some(node) && forall p | p in ps :: Anchored(tree, t, p)
    requires Advance(t, stack, node, ps).Ok? && q in Advance(t, stack, node, ps).value.kept
    ensures Open(tree, t, node, stack, q) && Descends(q, ps)
  {
    AdvanceKeeps(t, stack, node, ps);
    var p :| p in ps && p.stack == q.stack && p.node == q.node && Expected(t, p, stack).Ok?
      && NodeMatches(node, Expected(t, p, stack).value, p.ctx) == Verdict(true, q.ctx);
    KeptAnchored(tree, t, node, stack, p, q);
    KeptOpen(tree, t, node, stack, p, q);
  }

  /** A candidate started at `node` is open there. */
  lemma StartedIsOpen(tree: Value, t: Template, node: Value, stack: seq<Step>)
    requires At(tree, stack) == Some(node)
    requires Start(t, stack, node).Ok? && Start(t, stack, node).value.Some?
    ensures Open(tree, t, node, stack, Start(t, stack, node).value.value)
  {
    var r := NodeMatches(node, t, Fresh);
    var c := Start(t, stack, node).value.value;
    assert c.stack == stack && c.ctx == r.ctx;
    FreshIsInverse();
    MatchKeepsDeclared(node, t, Fresh, Known(t));
    SettledAfterMatch(node, t, Fresh, r.ctx);
    assert stack[|stack|..] == [];
    assert Expected(t, c, stack) == Ok(t);
    MatchTraced(node, t, Fresh, node, t, []);
    assert Anchored(tree, t, c);
  }

  /**
   * The lists right after the update and the start at `node`: the
   * confirmed candidates are complete, and every candidate under way is
   * open at `node`, having started there or descending from one under way
   * before.
   */
  ghost predicate Begun(tree: Value, t: Template, node: Value, stack: seq<Step>, w: Walked, w1: Walked)
  {
    && (forall p | p in w1.matches :: Complete(tree, t, p))
    && (forall p | p in w1.potential :: Open(tree, t, node, stack, p) && (p.stack == stack || Descends(p, w.potential)))
  }

  /**
   * What the visit of `node`, reached by `stack`, leaves behind: sound
   * lists, and every candidate under way at `node` has matched all of
   * `node`, having started there or descending from one under way before.
   */
  ghost predicate WalkPost(tree: Value, t: Template, node: Value, stack: seq<Step>, w: Walked, w': Walked)
  {
    && Sound(tree, t, stack, w')
    && forall p | p in w'.potential && p.stack <= stack ::
      DeepMatch(node, t, stack[|p.stack|..], p.ctx) && (p.stack == stack || Descends(p, w.potential))
  }

  /** What the visits of the first `j` fields of the node `Node(k, all)` leave behind. */
  ghost predicate FieldsPost(tree: Value, t: Template, k: Kind, all: seq<(string, Value)>, j: nat, stack: seq<Step>, w: Walked, w': Walked)
    requires j <= |all|
  {
    && Sound(tree, t, stack, w')
    && forall p | p in w'.potential && p.stack <= stack ::
      && Open(tree, t, Node(k, all), stack, p)
      && FieldsDeepMatch(all[..j], t, stack[|p.stack|..], p.ctx)
      && Descends(p, w.potential)
  }

  lemma AfterAdvance(tree: Value, t: Template, node: Value, stack: seq<Step>, w: Walked)
    requires At(tree, stack) == Some(node) && Sound(tree, t, stack, w)
    requires Advance(t, stack, node, w.potential).Ok? && Start(t, stack, node).Ok?
    ensures var s := Advance(t, stack, node, w.potential).value;
      Begun(tree, t, node, stack, w, Walked(s.kept + Started(Start(t, stack, node).value), w.matches + s.confirmed))
  {
    var s := Advance(t, stack, node, w.potential).value;
    var c := Start(t, stack, node).value;
    AdvanceConfirms(t, stack, node, w.potential);
    forall p | p in w.matches + s.confirmed
      ensures Complete(tree, t, p)
    {
      if p !in w.matches {
        assert p in s.confirmed;
      }
    }
    forall p | p in s.kept + Started(c)
      ensures Open(tree, t, node, stack, p) && (p.stack == stack || Descends(p, w.potential))
    {
      if p in s.kept {
        KeptIsOpen(tree, t, node, stack, w.potential, p);
      } else {
        StartedIsOpen(tree, t, node, stack);
      }
    }
  }

  /** The lists right after the update are sound. */
  lemma BegunSound(tree: Value, t: Template, node: Value, stack: seq<Step>, w: Walked, w1: Walked)
    requires Begun(tree, t, node, stack, w, w1)
    ensures Sound(tree, t, stack, w1)
  {
  }

  /** Going one step deeper keeps the lists sound: a candidate the walk had left it has still left. */
  lemma SoundDeeper(tree: Value, t: Template, stack: seq<Step>, s: Step, w: Walked)
    requires Sound(tree, t, stack, w)
    ensures Sound(tree, t, stack + [s], w)
  {
    forall p | p in w.potential
      ensures !(p.stack <= stack + [s]) ==> !(p.stack <= stack)
    {
      PrefixOfSnoc(p.stack, stack, s);
    }
  }

  /**
   * Coming back from a child keeps the lists sound: the candidates that
   * started at the child are complete, the walk having matched all of it.
   */
  lemma SoundShallower(tree: Value, t: Template, stack: seq<Step>, s: Step, child: Value, w: Walked, w': Walked)
    requires At(tree, stack + [s]) == Some(child)
    requires WalkPost(tree, t, child, stack + [s], w, w')
    ensures Sound(tree, t, stack, w')
  {
    forall p | p in w'.potential
      ensures !(p.stack <= stack) ==> Complete(tree, t, p)
    {
      PrefixOfSnoc(p.stack, stack, s);
      if p.stack == stack + [s] {
        assert (stack + [s])[|p.stack|..] == [];
      }
    }
  }

  /**
   * The visit of `node`, reached by `stack`, keeps the lists sound, and
   * every candidate under way at `node` when it ends has matched all of
   * `node`.
   */
  lemma {:induction false} WalkSound(tree: Value, t: Template, node: Value, stack: seq<Step>, w: Walked)
    requires At(tree, stack) == Some(node) && WellFormed(node) && Sound(tree, t, stack, w)
    requires Walk(t, node, stack, w).Ok?
    ensures WalkPost(tree, t, node, stack, w, Walk(t, node, stack, w).value)
    decreases Size(node), 2
  {
    var s := Advance(t, stack, node, w.potential).value;
    var c := Start(t, stack, node).value;
    var w1 := Walked(s.kept + Started(c), w.matches + s.confirmed);
    AfterAdvance(tree, t, node, stack, w);
    match node
    case Node(k, fields) =>
      NodeCaseSound(tree, t, k, fields, stack, w, w1);
    case List(items) =>
      if items == [] {
        LeafCaseSound(tree, t, node, stack, w, w1);
      } else {
        ListCaseSound(tree, t, items, stack, w, w1);
      }
    case _ =>
      LeafCaseSound(tree, t, node, stack, w, w1);
  }

  /** A value with nothing below it: what holds after the update holds at the end. */
  lemma LeafCaseSound(tree: Value, t: Template, node: Value, stack: seq<Step>, w: Walked, w1: Walked)
    requires !node.Node? && (node.List? ==> node.items == [])
    requires Begun(tree, t, node, stack, w, w1)
    ensures WalkPost(tree, t, node, stack, w, w1)
  {
    BegunSound(tree, t, node, stack, w, w1);
    forall p | p in w1.potential && p.stack <= stack
      ensures DeepMatch(node, t, stack[|p.stack|..], p.ctx)
    {
      assert Open(tree, t, node, stack, p);
    }
  }

  /** A node: the visits of its fields complete the match of every candidate under way. */
  lemma NodeCaseSound(tree: Value, t: Template, k: Kind, fields: seq<(string, Value)>, stack: seq<Step>, w: Walked, w1: Walked)
    requires At(tree, stack) == Some(Node(k, fields)) && WellFormed(Node(k, fields))
    requires Begun(tree, t, Node(k, fields), stack, w, w1)
    requires WalkFields(t, fields, stack, w1).Ok?
    ensures WalkPost(tree, t, Node(k, fields), stack, w, WalkFields(t, fields, stack, w1).value)
    decreases Size(Node(k, fields)), 1
  {
    assert fields[..|fields|] == fields;
    WalkFieldsSound(tree, t, k, fields, |fields|, stack, w1);
    var w' := WalkFields(t, fields, stack, w1).value;
    forall p | p in w'.potential && p.stack <= stack
      ensures DeepMatch(Node(k, fields), t, stack[|p.stack|..], p.ctx)
      ensures p.stack == stack || Descends(p, w.potential)
    {
      DescendsThrough(p, w1.potential, w.potential, stack);
    }
  }

  /** The visits of the first `j` fields of a node keep every candidate under way at the node matching. */
  lemma {:induction false} WalkFieldsSound(tree: Value, t: Template, k: Kind, all: seq<(string, Value)>, j: nat, stack: seq<Step>, w: Walked)
    requires At(tree, stack) == Some(Node(k, all)) && WellFormed(Node(k, all)) && j <= |all|
    requires forall p | p in w.matches :: Complete(tree, t, p)
    requires forall p | p in w.potential :: Open(tree, t, Node(k, all), stack, p)
    requires WalkFields(t, all[..j], stack, w).Ok?
    ensures FieldsPost(tree, t, k, all, j, stack, w, WalkFields(t, all[..j], stack, w).value)
    decreases Size(Node(k, all)), 0, j
  {
    if j == 0 {
      FieldsBase(tree, t, k, all, stack, w);
    } else {
      var n := j - 1;
      var f := Field(all[n].0);
      FieldsUnfold(t, all, j, stack, w);
      WalkFieldsSound(tree, t, k, all, n, stack, w);
      var wn := WalkFields(t, all[..n], stack, w).value;
      FieldReady(tree, k, all, n, stack);
      SoundDeeper(tree, t, stack, f, wn);
      WalkSound(tree, t, all[n].1, stack + [f], wn);
      FieldStepPost(tree, t, k, all, j, stack, w, wn, Walk(t, all[n].1, stack + [f], wn).value);
    }
  }

  /** No field visited yet: the candidates under way are those at the start. */
  lemma FieldsBase(tree: Value, t: Template, k: Kind, all: seq<(string, Value)>, stack: seq<Step>, w: Walked)
    requires forall p | p in w.matches :: Complete(tree, t, p)
    requires forall p | p in w.potential :: Open(tree, t, Node(k, all), stack, p)
    ensures WalkFields(t, all[..0], stack, w) == Ok(w)
    ensures FieldsPost(tree, t, k, all, 0, stack, w, w)
  {
    assert all[..0] == [];
    forall p | p in w.potential
      ensures Anchored(tree, t, p) && p.stack <= stack
      ensures FieldsDeepMatch(all[..0], t, stack[|p.stack|..], p.ctx)
      ensures Descends(p, w.potential)
    {
      assert Open(tree, t, Node(k, all), stack, p);
      assert Extends(p.ctx, p.ctx);
    }
    assert Sound(tree, t, stack, w);
  }

  /** The visits of the first `j` fields are those of the first `j - 1`, then the visit of field `j - 1`. */
  lemma FieldsUnfold(t: Template, all: seq<(string, Value)>, j: nat, stack: seq<Step>, w: Walked)
    requires 1 <= j <= |all| && WalkFields(t, all[..j], stack, w).Ok?
    ensures WalkFields(t, all[..j - 1], stack, w).Ok?
    ensures WalkFields(t, all[..j], stack, w) ==
      Walk(t, all[j - 1].1, stack + [Field(all[j - 1].0)], WalkFields(t, all[..j - 1], stack, w).value)
  {
    assert all[..j][..j - 1] == all[..j - 1] && all[..j][j - 1] == all[j - 1];
  }

  /** The field `n` of a node sits one field step below it, is well formed and smaller. */
  lemma FieldReady(tree: Value, k: Kind, all: seq<(string, Value)>, n: nat, stack: seq<Step>)
    requires At(tree, stack) == Some(Node(k, all)) && WellFormed(Node(k, all)) && n < |all|
    ensures At(tree, stack + [Field(all[n].0)]) == Some(all[n].1)
    ensures WellFormed(all[n].1) && Size(all[n].1) < Size(Node(k, all))
  {
    FieldStep(k, all, n);
    AtSnoc(tree, stack, Field(all[n].0), Node(k, all));
    FieldWellFormed(all, n);
    FieldSmaller(all, n);
  }

  /** After the visit of field `j - 1`, the first `j` fields have been matched. */
  lemma FieldStepPost(tree: Value, t: Template, k: Kind, all: seq<(string, Value)>, j: nat, stack: seq<Step>,
                      w: Walked, wn: Walked, w': Walked)
    requires 1 <= j <= |all|
    requires At(tree, stack + [Field(all[j - 1].0)]) == Some(all[j - 1].1)
    requires FieldsPost(tree, t, k, all, j - 1, stack, w, wn)
    requires WalkPost(tree, t, all[j - 1].1, stack + [Field(all[j - 1].0)], wn, w')
    ensures FieldsPost(tree, t, k, all, j, stack, w, w')
  {
    SoundShallower(tree, t, stack, Field(all[j - 1].0), all[j - 1].1, wn, w');
    forall p | p in w'.potential && p.stack <= stack
      ensures Open(tree, t, Node(k, all), stack, p)
      ensures FieldsDeepMatch(all[..j], t, stack[|p.stack|..], p.ctx)
      ensures Descends(p, w.potential)
    {
      FieldInherit(tree, t, k, all, j, stack, w, wn, w', p);
    }
  }

  /** One candidate under way at a node, after the visit of field `j - 1`. */
  lemma FieldInherit(tree: Value, t: Template, k: Kind, all: seq<(string, Value)>, j: nat, stack: seq<Step>,
                     w: Walked, wn: Walked, w': Walked, p: Candidate)
    requires 1 <= j <= |all|
    requires FieldsPost(tree, t, k, all, j - 1, stack, w, wn)
    requires WalkPost(tree, t, all[j - 1].1, stack + [Field(all[j - 1].0)], wn, w')
    requires Sound(tree, t, stack, w')
    requires p in w'.potential && p.stack <= stack
    ensures Open(tree, t, Node(k, all), stack, p)
    ensures FieldsDeepMatch(all[..j], t, stack[|p.stack|..], p.ctx)
    ensures Descends(p, w.potential)
  {
    var f := Field(all[j - 1].0);
    PrefixOfSnoc(p.stack, stack, f);
    assert DeepMatch(all[j - 1].1, t, stack[|p.stack|..] + [f], p.ctx);
    assert Descends(p, wn.potential);
    var q :| q in wn.potential && q.stack == p.stack && Extends(q.ctx, p.ctx);
    assert Anchored(tree, t, p);
    FieldExtend(tree, t, k, all, j, stack, q, p);
    var q0 :| q0 in w.potential && q0.stack == q.stack && Extends(q0.ctx, q.ctx);
    ExtendsTransitive(q0.ctx, q.ctx, p.ctx);
  }

  /** A candidate that matched the first `j - 1` fields, grown by the visit of field `j - 1`. */
  lemma FieldExtend(tree: Value, t: Template, k: Kind, all: seq<(string, Value)>, j: nat, stack: seq<Step>,
                    q: Candidate, p: Candidate)
    requires 1 <= j <= |all|
    requires Open(tree, t, Node(k, all), stack, q) && FieldsDeepMatch(all[..j - 1], t, stack[|q.stack|..], q.ctx)
    requires Anchored(tree, t, p) && p.stack == q.stack && Extends(q.ctx, p.ctx)
    requires DeepMatch(all[j - 1].1, t, stack[|p.stack|..] + [Field(all[j - 1].0)], p.ctx)
    ensures Open(tree, t, Node(k, all), stack, p)
    ensures FieldsDeepMatch(all[..j], t, stack[|p.stack|..], p.ctx)
  {
    assert Expected(t, p, stack) == Expected(t, q, stack);
    SettledPersists(Node(k, all), Expected(t, q, stack).value, q.ctx, p.ctx);
    FieldsDeepMatchPersists(all[..j - 1], t, stack[|p.stack|..], q.ctx, p.ctx);
    assert all[..j][..j - 1] == all[..j - 1] && all[..j][j - 1] == all[j - 1];
  }

  /** A non-empty list: the visits of its head and then its tail complete the match of every candidate under way. */
  lemma ListCaseSound(tree: Value, t: Template, items: seq<Value>, stack: seq<Step>, w: Walked, w1: Walked)
    requires items != [] && At(tree, stack) == Some(List(items)) && WellFormed(List(items))
    requires Begun(tree, t, List(items), stack, w, w1)
    requires Walk(t, items[0], stack + [Head], w1).Ok?
    requires Walk(t, List(items[1..]), stack + [Tail], Walk(t, items[0], stack + [Head], w1).value).Ok?
    ensures WalkPost(tree, t, List(items), stack, w,
      Walk(t, List(items[1..]), stack + [Tail], Walk(t, items[0], stack + [Head], w1).value).value)
    decreases Size(List(items)), 1
  {
    ItemsSmaller(items);
    AtSnoc(tree, stack, Head, List(items));
    AtSnoc(tree, stack, Tail, List(items));
    BegunSound(tree, t, List(items), stack, w, w1);
    SoundDeeper(tree, t, stack, Head, w1);
    WalkSound(tree, t, items[0], stack + [Head], w1);
    var w2 := Walk(t, items[0], stack + [Head], w1).value;
    SoundShallower(tree, t, stack, Head, items[0], w1, w2);
    SoundDeeper(tree, t, stack, Tail, w2);
    WalkSound(tree, t, List(items[1..]), stack + [Tail], w2);
    var w' := Walk(t, List(items[1..]), stack + [Tail], w2).value;
    SoundShallower(tree, t, stack, Tail, List(items[1..]), w2, w');
    ListInheritAll(tree, t, items, stack, w, w1, w2, w');
  }

  /** Every candidate under way at a non-empty list, after the visits of its head and its tail. */
  lemma ListInheritAll(tree: Value, t: Template, items: seq<Value>, stack: seq<Step>, w: Walked, w1: Walked, w2: Walked, w': Walked)
    requires items != []
    requires Begun(tree, t, List(items), stack, w, w1)
    requires WalkPost(tree, t, items[0], stack + [Head], w1, w2)
    requires WalkPost(tree, t, List(items[1..]), stack + [Tail], w2, w')
    requires Sound(tree, t, stack, w')
    ensures forall p | p in w'.potential && p.stack <= stack ::
      DeepMatch(List(items), t, stack[|p.stack|..], p.ctx) && (p.stack == stack || Descends(p, w.potential))
  {
    forall p | p in w'.potential && p.stack <= stack
      ensures DeepMatch(List(items), t, stack[|p.stack|..], p.ctx)
      ensures p.stack == stack || Descends(p, w.potential)
    {
      ListInherit(tree, t, items, stack, w, w1, w2, w', p);
    }
  }

  /** One candidate under way at a non-empty list, after the visits of its head and its tail. */
  lemma ListInherit(tree: Value, t: Template, items: seq<Value>, stack: seq<Step>,
                    w: Walked, w1: Walked, w2: Walked, w': Walked, p: Candidate)
    requires items != []
    requires Begun(tree, t, List(items), stack, w, w1)
    requires WalkPost(tree, t, items[0], stack + [Head], w1, w2)
    requires WalkPost(tree, t, List(items[1..]), stack + [Tail], w2, w')
    requires Sound(tree, t, stack, w')
    requires p in w'.potential && p.stack <= stack
    ensures DeepMatch(List(items), t, stack[|p.stack|..], p.ctx)
    ensures p.stack == stack || Descends(p, w.potential)
  {
    var path := stack[|p.stack|..];
    PrefixOfSnoc(p.stack, stack, Head);
    PrefixOfSnoc(p.stack, stack, Tail);
    assert DeepMatch(List(items[1..]), t, path + [Tail], p.ctx) && Descends(p, w2.potential);
    var q :| q in w2.potential && q.stack == p.stack && Extends(q.ctx, p.ctx);
    assert DeepMatch(items[0], t, path + [Head], q.ctx) && Descends(q, w1.potential);
    var q0 :| q0 in w1.potential && q0.stack == q.stack && Extends(q0.ctx, q.ctx);
    assert Open(tree, t, List(items), stack, q0) && (q0.stack == stack || Descends(q0, w.potential));
    assert Anchored(tree, t, p);
    ListExtend(tree, t, items, stack, q0, q, p);
    if q0.stack != stack {
      var q1 :| q1 in w.potential && q1.stack == q0.stack && Extends(q1.ctx, q0.ctx);
      ExtendsTransitive(q1.ctx, q0.ctx, p.ctx);
    }
  }

  /** A candidate open at a non-empty list, grown by the visits of the head and then of the tail. */
  lemma ListExtend(tree: Value, t: Template, items: seq<Value>, stack: seq<Step>, q0: Candidate, q: Candidate, p: Candidate)
    requires items != []
    requires Open(tree, t, List(items), stack, q0)
    requires q.stack == q0.stack && Extends(q0.ctx, q.ctx) && DeepMatch(items[0], t, stack[|q.stack|..] + [Head], q.ctx)
    requires p.stack == q.stack && Extends(q.ctx, p.ctx) && Anchored(tree, t, p)
    requires DeepMatch(List(items[1..]), t, stack[|p.stack|..] + [Tail], p.ctx)
    ensures DeepMatch(List(items), t, stack[|p.stack|..], p.ctx)
    ensures Extends(q0.ctx, p.ctx)
  {
    ExtendsTransitive(q0.ctx, q.ctx, p.ctx);
    DeepMatchPersists(items[0], t, stack[|p.stack|..] + [Head], q.ctx, p.ctx);
    assert Expected(t, p, stack) == Expected(t, q0, stack);
    SettledPersists(List(items), Expected(t, q0, stack).value, q0.ctx, p.ctx);
  }

  /** Captures and renamings declared among the fallbacks are declared in the template itself. */
  lemma DeclaredInTemplate(c: Context, t: Template)
    requires CapturesDeclared(c, Known(t)) && NamesDeclared(c, Known(t))
    ensures CapturesDeclared(c, Leaves(t)) && NamesDeclared(c, Leaves(t))
  {
    forall id | id in c.captures
      ensures exists cls :: Capture(id, cls) in Leaves(t) && InstanceOf(c.captures[id], cls)
    {
      var cls :| Capture(id, cls) in Known(t) && InstanceOf(c.captures[id], cls);
      assert Capture(id, cls) in Leaves(t);
    }
  }

  /**
   * What `match` reports is sound: every reported candidate sits at a value
   * of the tree and reports that value (its head for a list); every part of
   * that value matches the template part at the same path under the
   * candidate's bindings; the renaming between template identifiers and
   * input identifiers is one-to-one; and only placeholders and identifiers
   * of the template were captured or renamed, each capture a node of the
   * placeholder's declared class and the very fragment of the reported
   * value found where the template holds that placeholder.
   */
  lemma MatchSound(t: Template, tree: Value)
    requires WellFormed(tree) && MatchSpec(t, tree).Ok?
    ensures forall p | p in MatchSpec(t, tree).value ::
      && At(tree, p.stack).Some?
      && (var v := At(tree, p.stack).value;
          && (if v.List? then v.items != [] && p.node == v.items[0] else p.node == v)
          && DeepMatch(v, t, [], p.ctx))
      && Inverse(p.ctx)
      && CapturesDeclared(p.ctx, Leaves(t))
      && NamesDeclared(p.ctx, Leaves(t))
      && Traced(At(tree, p.stack).value, t, p.ctx)
  {
    var w0 := Walked([], []);
    WalkSound(tree, t, tree, [], w0);
    var w := Walk(t, tree, [], w0).value;
    assert Sound(tree, t, [], w);
    forall p | p in w.matches + w.potential
      ensures Complete(tree, t, p)
    {
      if p in w.potential && p.stack <= [] {
        var root: seq<Step> := [];
        assert p.stack == root && root[|p.stack|..] == root;
      }
    }
    forall p | p in MatchSpec(t, tree).value
      ensures CapturesDeclared(p.ctx, Leaves(t)) && NamesDeclared(p.ctx, Leaves(t))
    {
      DeclaredInTemplate(p.ctx, t);
    }
  }

  /** A part of a well-formed, conforming tree is well-formed and conforming. */
  lemma {:induction false} AtConforms(v: Value, path: seq<Step>, schema: Kind -> seq<string>)
    requires WellFormed(v) && Conforms(v, schema) && At(v, path).Some?
    ensures WellFormed(At(v, path).value) && Conforms(At(v, path).value, schema)
    decreases |path|
  {
    if path != [] {
      var child := Child(v, path[0]).value;
      if path[0].Field? {
        var i := FieldIndex(v.fields, path[0].name).value;
        FieldWellFormed(v.fields, i);
        FieldConforms(v.fields, i, schema);
      } else {
        ItemsWellFormedSplit(v.items);
        ItemsConformSplit(v.items, schema);
      }
      AtConforms(child, path[1..], schema);
    }
  }

  /**
   * Every placeholder of the template is captured by every reported
   * match, when the input and the template give each node class the same
   * fields: together with `MatchSound`, the captures of a match are
   * exactly the template's placeholders.
   */
  lemma MatchCapturesAll(t: Template, tree: Value, schema: Kind -> seq<string>)
    requires WellFormed(tree) && Conforms(tree, schema) && TConforms(t, schema) && MatchSpec(t, tree).Ok?
    ensures forall p, l | p in MatchSpec(t, tree).value && l in Leaves(t) && l.Capture? :: l.id in p.ctx.captures
  {
    MatchSound(t, tree);
    forall p | p in MatchSpec(t, tree).value
      ensures forall l | l in Leaves(t) && l.Capture? :: l.id in p.ctx.captures
    {
      AtConforms(tree, p.stack, schema);
      CapturesComplete(At(tree, p.stack).value, t, [], p.ctx, schema);
    }
  }

  /** The call `f(a)` with no star arguments, as the parser gives it (fields in class order). */
  function CallOf(f: string, a: string): Value
  {
    Node(Kind("Call", "expr"), [
      ("func", NameNode(f, Load)), ("args", List([NameNode(a, Load)])), ("keywords", List([])),
      ("starargs", Null), ("kwargs", Null)])
  }

  const Load: Value := Node(Kind("Load", "expr_context"), [])

  /** What `CallOf(f, a)` compiles to in a rule without placeholders. */
  function CallTemplate(f: string, a: string): seq<(string, Template)>
  {
    [ ("func", VisitName(f, Load, map[])), ("args", TList([VisitName(a, Load, map[])])), ("keywords", TList([])),
      ("starargs", TNull), ("kwargs", TNull)]
  }

  lemma CallCompiles(f: string, a: string)
    requires f !in Reserved && a !in Reserved
    ensures CompileFields(CallOf(f, a).fields, map[]) == Ok(CallTemplate(f, a))
  {
    var fs := CallOf(f, a).fields;
    var ts := CallTemplate(f, a);
    NameCompiles(f);
    SingleItemCompiles(a);
    PlainCompiles();
    CompileFieldsPointwise(fs, ts, map[]);
  }

  lemma NameCompiles(id: string)
    requires id !in Reserved
    ensures Compile(NameNode(id, Load), map[]) == Ok(VisitName(id, Load, map[]))
    ensures VisitName(id, Load, map[]).TNode?
  {
  }

  lemma PlainCompiles()
    ensures Compile(List([]), map[]) == Ok(TList([]))
    ensures Compile(Null, map[]) == Ok(TNull)
    ensures CompileFields([], map[]) == Ok([])
  {
    assert CompileItems([], map[]) == Ok([]);
  }

  lemma SingleItemCompiles(a: string)
    requires a !in Reserved
    ensures Compile(List([NameNode(a, Load)]), map[]) == Ok(TList([VisitName(a, Load, map[])]))
  {
    var args: map<string, string> := map[];
    NameCompiles(a);
    var items := [NameNode(a, Load)];
    assert items[1..] == [];
    assert CompileItems(items[1..], args) == Ok([]);
    assert items[0].Node? && Compile(items[0], args).value.TNode?;
    assert CompileItems(items, args) == Ok([VisitName(a, Load, args)] + []);
    assert [VisitName(a, Load, args)] + [] == [VisitName(a, Load, args)];
  }

  /**
   * A rule without placeholders whose example is a call `f(a)`, such as
   * `foo(x)`, compiles, and its template holds `None` at `starargs`. Any
   * call `g(b)`, such as `bar(y)`, starts a candidate, and its own
   * `starargs` is `None`: once the walk reaches it, the comparison as
   * written raises, while the corrected one accepts.
   */
  lemma AbsentStarargs(f: string, a: string, g: string, b: string, c: Context)
    requires f !in Reserved && a !in Reserved
    ensures CompileTemplate([], [], [Node(Kind("Expr", "stmt"), [("value", CallOf(f, a))])])
      == Ok(TNode(Kind("Call", "expr"), CallTemplate(f, a)))
    ensures NodeMatches(CallOf(g, b), TNode(Kind("Call", "expr"), CallTemplate(f, a)), Fresh).ok
    ensures SubTemplate(TNode(Kind("Call", "expr"), CallTemplate(f, a)), [Field("starargs")]) == Ok(TNull)
    ensures Child(CallOf(g, b), Field("starargs")) == Some(Null)
    ensures NodeMatchesAsWritten(Null, TNull, c) == Err(NotCallable)
    ensures NodeMatches(Null, TNull, c) == Verdict(true, c)
  {
    TemplateOfCall(f, a);
    CallStarts(f, a, g, b);
    StarargsOfCall(f, a, g, b);
    NoneAgainstNone(c);
  }

  /** `None` against a template's `None`: the comparison as written calls it, the corrected one accepts. */
  lemma NoneAgainstNone(c: Context)
    ensures NodeMatchesAsWritten(Null, TNull, c) == Err(NotCallable)
    ensures NodeMatches(Null, TNull, c) == Verdict(true, c)
  {
  }

  /** Any call starts a candidate of the call template, whose `starargs` part is `None`. */
  lemma CallStarts(f: string, a: string, g: string, b: string)
    ensures NodeMatches(CallOf(g, b), TNode(Kind("Call", "expr"), CallTemplate(f, a)), Fresh).ok
    ensures SubTemplate(TNode(Kind("Call", "expr"), CallTemplate(f, a)), [Field("starargs")]) == Ok(TNull)
  {
    KindMatches(CallOf(g, b), CallTemplate(f, a), Fresh);
    StarargsIndex(CallTemplate(f, a));
    StarargsStep(CallTemplate(f, a));
  }

  lemma KindMatches(v: Value, fields: seq<(string, Template)>, c: Context)
    requires v.Node?
    ensures NodeMatches(v, TNode(v.kind, fields), c).ok
  {
  }

  lemma StarargsStep(fields: seq<(string, Template)>)
    requires FieldIndex(fields, "starargs").Some? && fields[FieldIndex(fields, "starargs").value].1 == TNull
    ensures SubTemplate(TNode(Kind("Call", "expr"), fields), [Field("starargs")]) == Ok(TNull)
  {
    assert [Field("starargs")][1..] == [];
  }

  lemma TemplateOfCall(f: string, a: string)
    requires f !in Reserved && a !in Reserved
    ensures CompileTemplate([], [], [Node(Kind("Expr", "stmt"), [("value", CallOf(f, a))])])
      == Ok(TNode(Kind("Call", "expr"), CallTemplate(f, a)))
  {
    ExprCompiles(f, a);
    assert ZipDict([], []) == map[];
  }

  lemma StarargsOfCall(f: string, a: string, g: string, b: string)
    ensures FieldIndex(CallTemplate(f, a), "starargs") == Some(3)
    ensures Child(CallOf(g, b), Field("starargs")) == Some(Null)
  {
    StarargsIndex(CallTemplate(f, a));
    StarargsIndex(CallOf(g, b).fields);
  }

  /** In the fields of a call, `starargs` is the fourth. */
  lemma StarargsIndex<T>(fields: seq<(string, T)>)
    requires |fields| == 5 && fields[0].0 == "func" && fields[1].0 == "args" && fields[2].0 == "keywords"
    requires fields[3].0 == "starargs"
    ensures FieldIndex(fields, "starargs") == Some(3)
  {
    var rest := fields[1..][1..][1..];
    assert rest[0] == fields[3];
    assert FieldIndex(rest, "starargs") == Some(0);
  }

  /** The statement `f(a)` compiles to its call's template, which the unwrap then exposes. */
  lemma ExprCompiles(f: string, a: string)
    requires f !in Reserved && a !in Reserved
    ensures var t := TNode(Kind("Call", "expr"), CallTemplate(f, a));
      CompileBody([Node(Kind("Expr", "stmt"), [("value", CallOf(f, a))])], map[]) == Ok([TNode(Kind("Expr", "stmt"), [("value", t)])])
      && Unwrap([TNode(Kind("Expr", "stmt"), [("value", t)])]) == t
  {
    var t := TNode(Kind("Call", "expr"), CallTemplate(f, a));
    CallCompiles(f, a);
    StmtCompiles(CallOf(f, a), t, map[]);
    OneStatement(Node(Kind("Expr", "stmt"), [("value", CallOf(f, a))]), TNode(Kind("Expr", "stmt"), [("value", t)]), map[]);
    UnwrapExpr(t);
  }

  lemma StmtCompiles(v: Value, t: Template, args: map<string, string>)
    requires Compile(v, args) == Ok(t)
    ensures Compile(Node(Kind("Expr", "stmt"), [("value", v)]), args) == Ok(TNode(Kind("Expr", "stmt"), [("value", t)]))
  {
    CompileFieldsPointwise([("value", v)], [("value", t)], args);
  }

  lemma OneStatement(s: Value, t: Template, args: map<string, string>)
    requires Compile(s, args) == Ok(t)
    ensures CompileBody([s], args) == Ok([t])
  {
    assert [s][1..] == [];
    assert CompileBody([], args) == Ok([]);
    assert [t] + [] == [t];
  }

  lemma UnwrapExpr(t: Template)
    ensures Unwrap([TNode(Kind("Expr", "stmt"), [("value", t)])]) == t
  {
    var body := [TNode(Kind("Expr", "stmt"), [("value", t)])];
    assert FieldIndex(body[0].fields, "value") == Some(0);
  }
}
