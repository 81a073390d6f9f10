/**
 * Checking one input value against one template value (`node_matches`).
 * Only the value itself is examined: for a node its kind, for a list its
 * length and its head. The parts below are checked by the traversal, one
 * visited node at a time.
 */
module NodeMatching {

  import opened Results
  import opened Trees
  import opened Templates
  import opened Bindings

  /**
   * `node_matches(v, t, c)`: whether `v` matches `t`, and the context after
   * the predicates `t` called. A node template requires the very same kind,
   * a list template a list at least as long whose head matches, a scalar or
   * None template an equal value; any other template is a predicate and is
   * applied.
   */
  function NodeMatches(v: Value, t: Template, c: Context): (r: Verdict)
    ensures !r.ok ==> r.ctx == c
    ensures Inverse(c) ==> Inverse(r.ctx)
    ensures Extends(c, r.ctx)
    ensures forall k | k in r.ctx.names :: k in c.names || Sticky(k) in Leaves(t)
    ensures forall id | id in r.ctx.captures ::
      || (id in c.captures && r.ctx.captures[id] == c.captures[id])
      || exists cls :: Capture(id, cls) in Leaves(t) && InstanceOf(r.ctx.captures[id], cls)
    decreases t
  {
    match t
    case TNode(k, _) => Verdict(v.Node? && v.kind == k, c)
    case TList(ts) =>
      if v.List? && |v.items| >= |ts| && ts != [] then NodeMatches(v.items[0], ts[0], c)
      else Verdict(v.List? && |v.items| >= |ts|, c)
    case Literal(a) => Verdict(v == Atom(a), c)
    case TNull => Verdict(v == Null, c)
    case Capture(id, cls) => MatchCapture(id, cls, v, c)
    case Sticky(key) => StickyName(key, v, c)
    case IsInstance(cls) => Verdict(InstanceOf(v, cls), c)
    case Never => Verdict(false, c)
    case Always => Verdict(true, c)
  }

  /**
   * A node template matches exactly the nodes of its own kind (another kind
   * of the same category does not match), and a scalar template exactly the
   * equal scalar; neither changes the context.
   */
  lemma NodeAndScalarCases(v: Value, t: Template, c: Context)
    ensures t.TNode? ==> NodeMatches(v, t, c) == Verdict(v.Node? && v.kind == t.kind, c)
    ensures t.TNode? && v.Node? && v.kind != t.kind && v.kind.category == t.kind.category ==>
      InstanceOf(v, t.kind.category) && !NodeMatches(v, t, c).ok
    ensures t.Literal? ==> NodeMatches(v, t, c) == Verdict(v == Atom(t.scalar), c)
  {
  }

  /**
   * A list template asks for a list at least as long and, when it is not
   * empty, a matching head; the rest of the input list is not examined.
   */
  lemma ListCase(items: seq<Value>, others: seq<Value>, ts: seq<Template>, c: Context)
    requires |items| >= |ts| && |others| >= |ts|
    requires ts != [] ==> items[0] == others[0]
    ensures NodeMatches(List(items), TList(ts), c).ok <==> (ts == [] || NodeMatches(items[0], ts[0], c).ok)
    ensures NodeMatches(List(items), TList(ts), c) == NodeMatches(List(others), TList(ts), c)
  {
  }

  /** A list template never matches a shorter list or a value that is not a list. */
  lemma ListNeedsLength(v: Value, ts: seq<Template>, c: Context)
    requires !v.List? || |v.items| < |ts|
    ensures NodeMatches(v, TList(ts), c) == Verdict(false, c)
  {
  }

  /** A match keeps every capture declared by the template's leaves and every renaming among them. */
  lemma MatchKeepsDeclared(v: Value, t: Template, c: Context, leaves: set<Template>)
    requires Leaves(t) <= leaves
    requires CapturesDeclared(c, leaves) && NamesDeclared(c, leaves)
    ensures CapturesDeclared(NodeMatches(v, t, c).ctx, leaves)
    ensures NamesDeclared(NodeMatches(v, t, c).ctx, leaves)
  {
    var d := NodeMatches(v, t, c).ctx;
    forall id | id in d.captures
      ensures exists cls :: Capture(id, cls) in leaves && InstanceOf(d.captures[id], cls)
    {
      if id in c.captures && d.captures[id] == c.captures[id] {
        var cls :| Capture(id, cls) in leaves && InstanceOf(c.captures[id], cls);
      }
    }
  }

  /** Every value of the example code matches its own verbatim template at the top, and changes nothing. */
  lemma {:induction false} LiftMatchesItself(v: Value, c: Context)
    ensures NodeMatches(v, Lift(v), c) == Verdict(true, c)
    decreases v
  {
    match v
    case List(items) =>
      if items != [] {
        LiftMatchesItself(items[0], c);
      }
    case _ =>
  }

  /**
   * `node_matches` as written: a None leaf of the template is neither an
   * AST node, a list nor a scalar, so it is called as a predicate, and
   * calling None raises.
   */
  function NodeMatchesAsWritten(v: Value, t: Template, c: Context): (r: Result<Verdict>)
    ensures r.Ok? ==> r.value == NodeMatches(v, t, c)
    decreases t
  {
    match t
    case TNull => Err(NotCallable)
    case TList(ts) =>
      if v.List? && |v.items| >= |ts| && ts != [] then NodeMatchesAsWritten(v.items[0], ts[0], c)
      else Ok(NodeMatches(v, t, c))
    case _ => Ok(NodeMatches(v, t, c))
  }

  /** None is reached at the head of `t`: the only place where the two definitions part. */
  predicate NullAtHead(v: Value, t: Template)
    decreases t
  {
    match t
    case TNull => true
    case TList(ts) => v.List? && |v.items| >= |ts| && ts != [] && NullAtHead(v.items[0], ts[0])
    case _ => false
  }

  /** The two definitions agree exactly when no None leaf is reached; at a None leaf the one as written raises. */
  lemma {:induction false} AsWrittenRaisesOnlyAtNone(v: Value, t: Template, c: Context)
    ensures NodeMatchesAsWritten(v, t, c).Err? <==> NullAtHead(v, t)
    ensures NodeMatchesAsWritten(v, t, c).Err? ==> NodeMatchesAsWritten(v, t, c).fault == NotCallable
    decreases t
  {
    match t
    case TList(ts) =>
      if v.List? && |v.items| >= |ts| && ts != [] {
        AsWrittenRaisesOnlyAtNone(v.items[0], ts[0], c);
      }
    case _ =>
  }

  /** An example fragment holding an absent child cannot even match itself as written. */
  lemma AsWrittenRejectsOwnExample(c: Context)
    ensures NodeMatchesAsWritten(Null, Lift(Null), c) == Err(NotCallable)
    ensures NodeMatches(Null, Lift(Null), c) == Verdict(true, c)
  {
  }
}
