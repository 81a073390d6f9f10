/**
 * Addressing a template by a traversal path (`get_sub_template`): the part
 * of the template that a node reached by that path must match.
 */
module SubTemplates {

  import opened Results
  import opened Trees
  import opened Templates

  /**
   * The template part a path leads to. Step 0 takes the head of a list
   * template (the always-false predicate when the list is empty), step 1
   * its tail, a field name that field of a node template; a field step on
   * a predicate gives the always-true predicate, and anything else fails.
   */
  function SubTemplate(t: Template, path: seq<Step>): (r: Result<Template>)
    ensures r.Err? ==> r.fault == UnknownPath
    decreases |path|
  {
    if path == [] then Ok(t)
    else match path[0]
      case Head =>
        if !t.TList? then Err(UnknownPath)
        else if t.items == [] then Ok(Never)
        else SubTemplate(t.items[0], path[1..])
      case Tail =>
        if !t.TList? then Err(UnknownPath)
        else SubTemplate(TList(if t.items == [] then [] else t.items[1..]), path[1..])
      case Field(name) =>
        if t.TNode? && FieldIndex(t.fields, name).Some? then
          SubTemplate(t.fields[FieldIndex(t.fields, name).value].1, path[1..])
        else if IsCallable(t) then Ok(Always)
        else Err(UnknownPath)
  }

  /** The loop of `get_sub_template`, which walks `sub` down the path step by step. */
  method GetSubTemplate(t: Template, path: seq<Step>) returns (r: Result<Template>)
    ensures r == SubTemplate(t, path)
  {
    var sub := t;
    var i := 0;
    while i < |path|
      invariant 0 <= i <= |path|
      invariant SubTemplate(t, path) == SubTemplate(sub, path[i..])
    {
      assert path[i..][1..] == path[i + 1..];
      match path[i] {
        case Head =>
          if !sub.TList? {
            return Err(UnknownPath);
          }
          if sub.items == [] {
            return Ok(Never);
          }
          sub := sub.items[0];
        case Tail =>
          if !sub.TList? {
            return Err(UnknownPath);
          }
          sub := TList(if sub.items == [] then [] else sub.items[1..]);
        case Field(name) =>
          if sub.TNode? && FieldIndex(sub.fields, name).Some? {
            sub := sub.fields[FieldIndex(sub.fields, name).value].1;
          } else if IsCallable(sub) {
            return Ok(Always);
          } else {
            return Err(UnknownPath);
          }
      }
      i := i + 1;
    }
    return Ok(sub);
  }

  /** The first step: the fallbacks for running off a list, for going past a predicate, and the failure. */
  lemma FirstStep(t: Template, step: Step, rest: seq<Step>)
    ensures step == Head && t == TList([]) ==> SubTemplate(t, [step] + rest) == Ok(Never)
    ensures step == Tail && t.TList? && t.items != [] ==>
      SubTemplate(t, [step] + rest) == SubTemplate(TList(t.items[1..]), rest)
    ensures step.Field? && t.TNode? && FieldIndex(t.fields, step.name).Some? ==>
      SubTemplate(t, [step] + rest) == SubTemplate(t.fields[FieldIndex(t.fields, step.name).value].1, rest)
    ensures step.Field? && IsCallable(t) ==> SubTemplate(t, [step] + rest) == Ok(Always)
    ensures !step.Field? && !t.TList? ==> SubTemplate(t, [step] + rest) == Err(UnknownPath)
    ensures step.Field? && !IsCallable(t) && (!t.TNode? || FieldIndex(t.fields, step.name).None?) ==>
      SubTemplate(t, [step] + rest) == Err(UnknownPath)
  {
    assert ([step] + rest)[1..] == rest;
  }

  /** Steps 1 taken k times: the list template without its first k elements. */
  function Tails(k: nat): (p: seq<Step>)
    ensures |p| == k && forall i | 0 <= i < k :: p[i] == Tail
  {
    if k == 0 then [] else [Tail] + Tails(k - 1)
  }

  /**
   * Cons-list addressing: after k tail steps the rest of the path is
   * applied to the list template without its first k elements, and step 0
   * then addresses element k, or the always-false predicate when the
   * template is too short.
   */
  lemma {:induction false} TailsThenHead(ts: seq<Template>, k: nat, rest: seq<Step>)
    ensures k <= |ts| ==> SubTemplate(TList(ts), Tails(k) + rest) == SubTemplate(TList(ts[k..]), rest)
    ensures SubTemplate(TList(ts), Tails(k) + [Head]) == Ok(if k < |ts| then ts[k] else Never)
    decreases k
  {
    if k == 0 {
      assert ts[0..] == ts;
      assert Tails(0) + rest == rest;
      assert Tails(0) + [Head] == [Head];
    } else {
      var tail := if ts == [] then [] else ts[1..];
      assert (Tails(k) + rest)[0] == Tail && (Tails(k) + rest)[1..] == Tails(k - 1) + rest;
      assert (Tails(k) + [Head])[0] == Tail && (Tails(k) + [Head])[1..] == Tails(k - 1) + [Head];
      TailsThenHead(tail, k - 1, rest);
      if k <= |ts| {
        assert tail[k - 1..] == ts[k..];
      }
      if k < |ts| {
        assert tail[k - 1] == ts[k];
      }
    }
  }

  /**
   * A found sub-template is part of the template, or one of the two
   * constant predicates: it has no predicate leaf the template lacks.
   */
  lemma {:induction false} SubTemplateLeaves(t: Template, path: seq<Step>)
    requires SubTemplate(t, path).Ok?
    ensures Leaves(SubTemplate(t, path).value) <= Leaves(t) + {Never, Always}
    decreases |path|
  {
    if path != [] {
      match path[0]
      case Head =>
        if t.items != [] {
          SubTemplateLeaves(t.items[0], path[1..]);
        }
      case Tail =>
        if t.items != [] {
          TailLeaves(t.items);
        }
        SubTemplateLeaves(TList(if t.items == [] then [] else t.items[1..]), path[1..]);
      case Field(name) =>
        if t.TNode? && FieldIndex(t.fields, name).Some? {
          var i := FieldIndex(t.fields, name).value;
          FieldLeavesInclude(t.fields, i);
          SubTemplateLeaves(t.fields[i].1, path[1..]);
        }
    }
  }

  /**
   * A path that reaches a template part without stopping at a predicate
   * can be extended: the longer path continues from that part.
   */
  lemma {:induction false} SubTemplateAppend(t: Template, path: seq<Step>, rest: seq<Step>)
    requires SubTemplate(t, path).Ok? && !IsCallable(SubTemplate(t, path).value)
    ensures SubTemplate(t, path + rest) == SubTemplate(SubTemplate(t, path).value, rest)
    decreases |path|
  {
    if path == [] {
      assert path + rest == rest;
    } else {
      assert (path + rest)[0] == path[0] && (path + rest)[1..] == path[1..] + rest;
      match path[0]
      case Head =>
        SubTemplateAppend(t.items[0], path[1..], rest);
      case Tail =>
        SubTemplateAppend(TList(if t.items == [] then [] else t.items[1..]), path[1..], rest);
      case Field(n) =>
        SubTemplateAppend(t.fields[FieldIndex(t.fields, n).value].1, path[1..], rest);
    }
  }

  /**
   * Past a predicate the template says nothing: once a path has reached a
   * predicate other than the always-false one, any field step further on
   * gives the always-true predicate, whatever follows it.
   */
  lemma {:induction false} PastPredicate(t: Template, path: seq<Step>, name: string, rest: seq<Step>)
    requires SubTemplate(t, path).Ok?
    requires IsCallable(SubTemplate(t, path).value) && SubTemplate(t, path).value != Never
    ensures SubTemplate(t, path + [Field(name)] + rest) == Ok(Always)
    decreases |path|
  {
    var p := path + [Field(name)] + rest;
    if path == [] {
      assert p == [Field(name)] + rest;
      FirstStep(t, Field(name), rest);
    } else {
      assert p[0] == path[0] && p[1..] == path[1..] + [Field(name)] + rest;
      match path[0]
      case Head =>
        PastPredicate(t.items[0], path[1..], name, rest);
      case Tail =>
        PastPredicate(TList(if t.items == [] then [] else t.items[1..]), path[1..], name, rest);
      case Field(n) =>
        if t.TNode? && FieldIndex(t.fields, n).Some? {
          PastPredicate(t.fields[FieldIndex(t.fields, n).value].1, path[1..], name, rest);
        }
    }
  }
}
