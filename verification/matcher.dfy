/**
 * The matcher (`match` and its inner `_match`): a pre-order walk over the
 * input that keeps the path from the root to the current value (`stack`),
 * the candidate matches still being checked (`potential`) and the
 * confirmed ones (`matches`).
 *
 * The functions `Advance`, `Start`, `Walk` and `MatchSpec` state what one
 * visit and the whole walk compute; the class `Matcher` performs the walk
 * in place, as the source does, and is proved to compute exactly that.
 */
module Matching {

  import opened Results
  import opened Trees
  import opened Templates
  import opened Bindings
  import opened NodeMatching
  import opened SubTemplates

  /**
   * A candidate match: the path of the value where the template matched at
   * the top, the node reported for it (the head when that value is a list)
   * and its binding context.
   */
  datatype Candidate = Candidate(stack: seq<Step>, node: Value, ctx: Context)

  /** The walk's lists: candidates still being checked, and confirmed ones. */
  datatype Walked = Walked(potential: seq<Candidate>, matches: seq<Candidate>)

  /** The candidates one visit keeps checking, and those it confirms. */
  datatype Sifted = Sifted(kept: seq<Candidate>, confirmed: seq<Candidate>)

  /** The template part a candidate started at `p.stack` expects at `stack`. */
  function Expected(t: Template, p: Candidate, stack: seq<Step>): Result<Template>
    requires p.stack <= stack
  {
    SubTemplate(t, stack[|p.stack|..])
  }

  /**
   * The update of the candidates at the value `node` reached by `stack`:
   * each candidate in turn is confirmed, kept with the context its
   * predicates produced, or dropped (see `AdvanceConfirms` and `AdvanceKeeps`). A path the template
   * cannot follow fails the whole match.
   */
  function Advance(t: Template, stack: seq<Step>, node: Value, ps: seq<Candidate>): (r: Result<Sifted>)
    ensures r.Err? ==> r.fault == UnknownPath
    ensures r.Ok? ==> |r.value.kept| + |r.value.confirmed| <= |ps|
    decreases |ps|
  {
    if ps == [] then Ok(Sifted([], []))
    else
      var n := |ps| - 1;
      var s :- Advance(t, stack, node, ps[..n]);
      var p := ps[n];
      if !(p.stack <= stack) then Ok(Sifted(s.kept, s.confirmed + [p]))
      else
        var sub :- Expected(t, p, stack);
        var v := NodeMatches(node, sub, p.ctx);
        Ok(if v.ok then Sifted(s.kept + [p.(ctx := v.ctx)], s.confirmed) else s)
  }

  /** The update fails exactly when the template part a candidate expects cannot be found. */
  lemma {:induction false} AdvanceFails(t: Template, stack: seq<Step>, node: Value, ps: seq<Candidate>)
    ensures Advance(t, stack, node, ps).Err? <==> exists p | p in ps :: p.stack <= stack && Expected(t, p, stack).Err?
    decreases |ps|
  {
    if ps != [] {
      var n := |ps| - 1;
      AdvanceFails(t, stack, node, ps[..n]);
      AdvanceFailsStep(t, stack, node, ps);
      assert ps == ps[..n] + [ps[n]];
    }
  }

  /** The update of the candidates fails when that of all but the last fails, or the last one's lookup does. */
  lemma AdvanceFailsStep(t: Template, stack: seq<Step>, node: Value, ps: seq<Candidate>)
    requires ps != []
    ensures Advance(t, stack, node, ps).Err? <==>
      || Advance(t, stack, node, ps[..|ps| - 1]).Err?
      || (ps[|ps| - 1].stack <= stack && Expected(t, ps[|ps| - 1], stack).Err?)
  {
  }

  /** The update of the first `i + 1` candidates: that of the first `i`, then candidate `i`. */
  lemma AdvancePrefix(t: Template, stack: seq<Step>, node: Value, ps: seq<Candidate>, i: nat)
    requires i < |ps|
    ensures var r := Advance(t, stack, node, ps[..i]);
      var p := ps[i];
      Advance(t, stack, node, ps[..i + 1]) ==
        if r.Err? then r
        else if !(p.stack <= stack) then Ok(Sifted(r.value.kept, r.value.confirmed + [p]))
        else if Expected(t, p, stack).Err? then Err(UnknownPath)
        else
          var v := NodeMatches(node, Expected(t, p, stack).value, p.ctx);
          Ok(if v.ok then Sifted(r.value.kept + [p.(ctx := v.ctx)], r.value.confirmed) else r.value)
  {
    assert ps[..i + 1][..i] == ps[..i];
  }

  /**
   * The confirmation rule: a candidate is confirmed exactly when its path
   * is no longer a prefix of `stack`, i.e. the walk has left the value it
   * started at.
   */
  lemma {:induction false} AdvanceConfirms(t: Template, stack: seq<Step>, node: Value, ps: seq<Candidate>)
    requires Advance(t, stack, node, ps).Ok?
    ensures forall p :: p in Advance(t, stack, node, ps).value.confirmed <==> p in ps && !(p.stack <= stack)
    decreases |ps|
  {
    if ps != [] {
      var n := |ps| - 1;
      var last := ps[n];
      AdvanceConfirms(t, stack, node, ps[..n]);
      var before := Advance(t, stack, node, ps[..n]).value.confirmed;
      var after := Advance(t, stack, node, ps).value.confirmed;
      assert after == if !(last.stack <= stack) then before + [last] else before;
      forall p
        ensures p in after <==> p in ps && !(p.stack <= stack)
      {
        assert ps == ps[..n] + [last];
        assert p in ps <==> p in ps[..n] || p == last;
      }
    }
  }

  /**
   * Every kept candidate is a candidate whose path is a prefix of `stack`
   * and at which `node` matches the template part the rest of the path
   * leads to; it carries the context that match produced.
   */
  lemma {:induction false} AdvanceKeeps(t: Template, stack: seq<Step>, node: Value, ps: seq<Candidate>)
    requires Advance(t, stack, node, ps).Ok?
    ensures forall q | q in Advance(t, stack, node, ps).value.kept ::
      && q.stack <= stack
      && exists p | p in ps ::
        p.stack == q.stack && p.node == q.node && Expected(t, p, stack).Ok? && NodeMatches(node, Expected(t, p, stack).value, p.ctx) == Verdict(true, q.ctx)
    decreases |ps|
  {
    if ps != [] {
      var n := |ps| - 1;
      AdvanceKeeps(t, stack, node, ps[..n]);
      AdvancePrefix(t, stack, node, ps, n);
      assert ps[..n + 1] == ps;
      assert ps[n] in ps && forall p | p in ps[..n] :: p in ps;
    }
  }

  /** Conversely, every candidate whose path is a prefix of `stack` and that matches `node` is kept. */
  lemma {:induction false} AdvanceKeepsMatching(t: Template, stack: seq<Step>, node: Value, ps: seq<Candidate>)
    requires Advance(t, stack, node, ps).Ok?
    ensures forall p | p in ps && p.stack <= stack && Expected(t, p, stack).Ok? && NodeMatches(node, Expected(t, p, stack).value, p.ctx).ok ::
      p.(ctx := NodeMatches(node, Expected(t, p, stack).value, p.ctx).ctx) in Advance(t, stack, node, ps).value.kept
    decreases |ps|
  {
    if ps != [] {
      var n := |ps| - 1;
      var last := ps[n];
      assert ps[..n + 1] == ps;
      AdvanceKeptGrows(t, stack, node, ps, n);
      AdvanceKeepsMatching(t, stack, node, ps[..n]);
      AdvanceKeptLast(t, stack, node, ps, n);
      assert ps == ps[..n] + [last];
      forall p | p in ps && p.stack <= stack && Expected(t, p, stack).Ok? && NodeMatches(node, Expected(t, p, stack).value, p.ctx).ok
        ensures p.(ctx := NodeMatches(node, Expected(t, p, stack).value, p.ctx).ctx) in Advance(t, stack, node, ps).value.kept
      {
        assert p == last || p in ps[..n];
      }
    }
  }

  /** What the first `i` candidates keep, the first `i + 1` keep too. */
  lemma AdvanceKeptGrows(t: Template, stack: seq<Step>, node: Value, ps: seq<Candidate>, i: nat)
    requires i < |ps| && Advance(t, stack, node, ps[..i + 1]).Ok?
    ensures Advance(t, stack, node, ps[..i]).Ok?
    ensures forall q | q in Advance(t, stack, node, ps[..i]).value.kept :: q in Advance(t, stack, node, ps[..i + 1]).value.kept
  {
    AdvancePrefix(t, stack, node, ps, i);
  }

  /** Candidate `i`, when it matches, is kept by the update of the first `i + 1`. */
  lemma AdvanceKeptLast(t: Template, stack: seq<Step>, node: Value, ps: seq<Candidate>, i: nat)
    requires i < |ps| && Advance(t, stack, node, ps[..i + 1]).Ok?
    ensures var p := ps[i];
      p.stack <= stack && Expected(t, p, stack).Ok? && NodeMatches(node, Expected(t, p, stack).value, p.ctx).ok ==>
        p.(ctx := NodeMatches(node, Expected(t, p, stack).value, p.ctx).ctx) in Advance(t, stack, node, ps[..i + 1]).value.kept
  {
    AdvancePrefix(t, stack, node, ps, i);
  }

  /**
   * A new candidate at `node` when it matches the whole template with a
   * fresh context. Its node is the head when `node` is a list, and taking
   * the head of an empty list fails the whole match.
   */
  function Start(t: Template, stack: seq<Step>, node: Value): (r: Result<Option<Candidate>>)
    ensures r.Err? <==> NodeMatches(node, t, Fresh).ok && node == List([])
    ensures r.Err? ==> r.fault == EmptyListHead
    ensures r.Ok? ==> (r.value.Some? <==> NodeMatches(node, t, Fresh).ok)
    ensures r.Ok? && r.value.Some? ==>
      && r.value.value.stack == stack
      && r.value.value.ctx == NodeMatches(node, t, Fresh).ctx
      && if node.List? then node.items != [] && r.value.value.node == node.items[0] else r.value.value.node == node
  {
    var v := NodeMatches(node, t, Fresh);
    if !v.ok then Ok(None)
    else if node.List? && node.items == [] then Err(EmptyListHead)
    else Ok(Some(Candidate(stack, if node.List? then node.items[0] else node, v.ctx)))
  }

  /** `[c]` for a started candidate, nothing otherwise. */
  function Started(c: Option<Candidate>): seq<Candidate>
  {
    if c.Some? then [c.value] else []
  }

  /**
   * One visit of `node`, reached by `stack`, and of everything below it:
   * the candidates are updated, one may start here, and then the fields
   * are visited in their order, or the head and then the tail of a list.
   * Confirmed candidates are only ever appended.
   */
  function Walk(t: Template, node: Value, stack: seq<Step>, w: Walked): (r: Result<Walked>)
    ensures r.Ok? ==> w.matches <= r.value.matches
    decreases Size(node), 1
  {
    var s :- Advance(t, stack, node, w.potential);
    var c :- Start(t, stack, node);
    var w1 := Walked(s.kept + Started(c), w.matches + s.confirmed);
    match node
    case Node(_, fields) => WalkFields(t, fields, stack, w1)
    case List(items) =>
      if items == [] then Ok(w1)
      else
        ItemsSmaller(items);
        var w2 :- Walk(t, items[0], stack + [Head], w1);
        Walk(t, List(items[1..]), stack + [Tail], w2)
    case _ => Ok(w1)
  }

  /** The visits of the fields of a node reached by `stack`, in their order. */
  function WalkFields(t: Template, fields: seq<(string, Value)>, stack: seq<Step>, w: Walked): (r: Result<Walked>)
    ensures r.Ok? ==> w.matches <= r.value.matches
    decreases FieldsSize(fields), 2
  {
    if fields == [] then Ok(w)
    else
      var n := |fields| - 1;
      var w1 :- WalkFields(t, fields[..n], stack, w);
      Walk(t, fields[n].1, stack + [Field(fields[n].0)], w1)
  }

  /** What a whole match finds: the confirmed candidates, then those still being checked at the end. */
  function MatchSpec(t: Template, tree: Value): Result<seq<Candidate>>
  {
    var w :- Walk(t, tree, [], Walked([], []));
    Ok(w.matches + w.potential)
  }

  /** The node reported for a candidate, paired with what its placeholders captured. */
  function Report(c: Candidate): (Value, map<string, Value>)
  {
    (c.node, c.ctx.captures)
  }

  /** A failure in the visit of one of the first `j` fields fails the visit of all of them. */
  lemma {:induction false} WalkFieldsFailurePersists(t: Template, fields: seq<(string, Value)>, j: nat, stack: seq<Step>, w: Walked)
    requires j <= |fields| && WalkFields(t, fields[..j], stack, w).Err?
    ensures WalkFields(t, fields, stack, w) == WalkFields(t, fields[..j], stack, w)
    decreases |fields|
  {
    if j == |fields| {
      assert fields[..j] == fields;
    } else {
      var n := |fields| - 1;
      assert fields[..n][..j] == fields[..j];
      WalkFieldsFailurePersists(t, fields[..n], j, stack, w);
    }
  }

  /** The state of one run of `match`: the template and the three lists the walk updates. */
  class Matcher {
    const template: Template
    var stack: seq<Step>
    var potential: seq<Candidate>
    var matches: seq<Candidate>

    constructor(t: Template)
      ensures template == t && stack == [] && potential == [] && matches == []
    {
      template := t;
      stack := [];
      potential := [];
      matches := [];
    }

    /**
     * The first part of `_match(node)`: every candidate is confirmed, kept
     * or dropped as `Advance` says, with `stack` leading to `node`.
     */
    method Sift(node: Value) returns (r: Outcome)
      modifies this
      ensures var s := Advance(template, stack, node, old(potential));
        && stack == old(stack)
        && (r.Pass? <==> s.Ok?)
        && (r.Pass? ==> potential == s.value.kept && matches == old(matches) + s.value.confirmed)
        && (r.Fail? ==> r.fault == s.fault)
    {
      var next: seq<Candidate> := [];
      ghost var confirmed: seq<Candidate> := [];
      var i := 0;
      while i < |potential|
        invariant 0 <= i <= |potential|
        invariant stack == old(stack) && potential == old(potential)
        invariant matches == old(matches) + confirmed
        invariant Advance(template, stack, node, potential[..i]) == Ok(Sifted(next, confirmed))
      {
        var p := potential[i];
        AdvancePrefix(template, stack, node, potential, i);
        if !(p.stack <= stack) {
          matches := matches + [p];
          confirmed := confirmed + [p];
        } else {
          var sub := GetSubTemplate(template, stack[|p.stack|..]);
          if sub.Err? {
            assert p in potential && Expected(template, p, stack).Err?;
            AdvanceFails(template, stack, node, potential);
            return Fail(sub.fault);
          }
          var v := NodeMatches(node, sub.value, p.ctx);
          if v.ok {
            next := next + [p.(ctx := v.ctx)];
          }
        }
        i := i + 1;
      }
      assert potential[..i] == potential;
      potential := next;
      return Pass;
    }

    /** The second part of `_match(node)`: a candidate starts at `node` as `Start` says. */
    method Begin(node: Value) returns (r: Outcome)
      modifies this
      ensures var c := Start(template, stack, node);
        && stack == old(stack) && matches == old(matches)
        && (r.Pass? <==> c.Ok?)
        && (r.Pass? ==> potential == old(potential) + Started(c.value))
        && (r.Fail? ==> r.fault == c.fault)
    {
      var v := NodeMatches(node, template, Fresh);
      if v.ok {
        if node.List? && node.items == [] {
          return Fail(EmptyListHead);
        }
        potential := potential + [Candidate(stack, if node.List? then node.items[0] else node, v.ctx)];
      }
      return Pass;
    }

    /**
     * `_match(node)`, with `stack` leading to `node`. It ends as `Walk`
     * says, or fails with the same fault; when it ends normally `stack` is
     * back to what it was, every push having been popped.
     */
    method Visit(node: Value) returns (r: Outcome)
      modifies this
      ensures var w := Walk(template, node, old(stack), Walked(old(potential), old(matches)));
        && (r.Pass? <==> w.Ok?)
        && (r.Pass? ==> stack == old(stack) && potential == w.value.potential && matches == w.value.matches)
        && (r.Fail? ==> r.fault == w.fault)
      decreases Size(node), 0
    {
      r := Sift(node);
      if r.Fail? {
        return;
      }
      r := Begin(node);
      if r.Fail? {
        return;
      }
      if node.Node? {
        r := VisitFields(node.fields);
      } else if node.List? && node.items != [] {
        ItemsSmaller(node.items);
        stack := stack + [Head];
        r := Visit(node.items[0]);
        if r.Fail? {
          return;
        }
        stack := stack[..|stack| - 1];
        stack := stack + [Tail];
        r := Visit(List(node.items[1..]));
        if r.Fail? {
          return;
        }
        stack := stack[..|stack| - 1];
      }
    }

    /** The loop of `_match` over the fields of a node that `stack` leads to. */
    method VisitFields(fields: seq<(string, Value)>) returns (r: Outcome)
      modifies this
      ensures var w := WalkFields(template, fields, old(stack), Walked(old(potential), old(matches)));
        && (r.Pass? <==> w.Ok?)
        && (r.Pass? ==> stack == old(stack) && potential == w.value.potential && matches == w.value.matches)
        && (r.Fail? ==> r.fault == w.fault)
      decreases FieldsSize(fields), 1
    {
      ghost var w0 := Walked(potential, matches);
      for j := 0 to |fields|
        invariant stack == old(stack)
        invariant WalkFields(template, fields[..j], stack, w0) == Ok(Walked(potential, matches))
      {
        assert fields[..j + 1][..j] == fields[..j];
        FieldSmaller(fields, j);
        stack := stack + [Field(fields[j].0)];
        r := Visit(fields[j].1);
        if r.Fail? {
          WalkFieldsFailurePersists(template, fields, j + 1, old(stack), w0);
          return;
        }
        stack := stack[..|stack| - 1];
      }
      assert fields[..|fields|] == fields;
      return Pass;
    }
  }

  /**
   * `match(template, tree)`: the walk from the root with an empty stack,
   * then the report of every confirmed candidate and of every candidate
   * still being checked, in that order.
   */
  method Match(t: Template, tree: Value) returns (r: Result<seq<(Value, map<string, Value>)>>)
    ensures r.Ok? <==> MatchSpec(t, tree).Ok?
    ensures r.Err? ==> r.fault == MatchSpec(t, tree).fault
    ensures r.Ok? ==>
      && |r.value| == |MatchSpec(t, tree).value|
      && forall i | 0 <= i < |r.value| :: r.value[i] == Report(MatchSpec(t, tree).value[i])
  {
    var m := new Matcher(t);
    ghost var w := Walk(t, tree, [], Walked([], []));
    var o := m.Visit(tree);
    if o.Fail? {
      assert w.Err?;
      return Err(o.fault);
    }
    var found := m.matches + m.potential;
    assert w.Ok? && found == w.value.matches + w.value.potential;
    assert MatchSpec(t, tree) == Ok(found);
    var results: seq<(Value, map<string, Value>)> := [];
    for i := 0 to |found|
      invariant |results| == i
      invariant forall k | 0 <= k < i :: results[k] == Report(found[k])
    {
      results := results + [Report(found[i])];
    }
    return Ok(results);
  }
}
