/**
 * The binding context of one match attempt, and the two predicates the
 * template compiler builds that change it: the capture of a declared
 * placeholder and the sticky identifier.
 *
 * `names` maps an identifier of the template to the input identifier it
 * stands for and `rev` maps back; together they keep the renaming
 * one-to-one. `captures` maps a placeholder to the subtree it matched.
 */
module Bindings {

  import opened Trees
  import opened Templates

  datatype Context = Context(names: map<string, Value>, rev: map<Value, string>, captures: map<string, Value>)

  /** The empty context a new candidate starts with. */
  const Fresh: Context := Context(map[], map[], map[])

  /** What a predicate answers, and the context after the call. */
  datatype Verdict = Verdict(ok: bool, ctx: Context)

  /** `names` and `rev` are inverse maps: the renaming is a bijection. */
  predicate Inverse(c: Context)
  {
    && (forall k | k in c.names :: c.names[k] in c.rev && c.rev[c.names[k]] == k)
    && (forall v | v in c.rev :: c.rev[v] in c.names && c.names[c.rev[v]] == v)
  }

  /** `d` keeps every renaming `c` has made, and every placeholder `c` has captured stays captured. */
  predicate Extends(c: Context, d: Context)
  {
    && (forall k | k in c.names :: k in d.names && d.names[k] == c.names[k])
    && (forall v | v in c.rev :: v in d.rev && d.rev[v] == c.rev[v])
    && c.captures.Keys <= d.captures.Keys
  }

  /** Every capture binds a placeholder declared among `leaves` to a node of its declared class. */
  ghost predicate CapturesDeclared(c: Context, leaves: set<Template>)
  {
    forall id | id in c.captures :: exists cls :: Capture(id, cls) in leaves && InstanceOf(c.captures[id], cls)
  }

  /** Every renamed identifier is a sticky identifier among `leaves`. */
  ghost predicate NamesDeclared(c: Context, leaves: set<Template>)
  {
    forall k | k in c.names :: Sticky(k) in leaves
  }

  lemma FreshIsInverse()
    ensures Inverse(Fresh)
  {
  }

  /**
   * The sticky identifier `key` applied to the input identifier `name`.
   * A bound key accepts only the name it is bound to; an unbound key
   * accepts only a name that no other key has taken, and binds the two.
   */
  function StickyName(key: string, name: Value, c: Context): (r: Verdict)
    ensures Inverse(c) ==> (r.ok <==> if key in c.names then c.names[key] == name else name !in c.rev)
    ensures r.ok ==> key in r.ctx.names && r.ctx.names[key] == name && name in r.ctx.rev
    ensures Inverse(c) ==> Inverse(r.ctx)
    ensures !r.ok ==> r.ctx == c
    ensures Extends(c, r.ctx) && r.ctx.captures == c.captures
    ensures forall k | k in r.ctx.names :: k in c.names || k == key
  {
    if (key in c.names) != (name in c.rev) then Verdict(false, c)
    else if key in c.names then Verdict(name == c.names[key], c)
    else Verdict(true, c.(names := c.names[key := name], rev := c.rev[name := key]))
  }

  /** Exactly one of "key bound" and "name bound" fails outright; a bound key compares and changes nothing. */
  lemma StickyConsistency(key: string, name: Value, c: Context)
    ensures (key in c.names) != (name in c.rev) ==> StickyName(key, name, c) == Verdict(false, c)
    ensures key in c.names && name in c.rev ==> StickyName(key, name, c) == Verdict(name == c.names[key], c)
  {
  }

  /** A fresh pair is accepted and bound in both directions, and nothing else changes. */
  lemma StickyBinding(key: string, name: Value, c: Context)
    requires key !in c.names && name !in c.rev
    ensures var r := StickyName(key, name, c);
      && r.ok && r.ctx.names == c.names[key := name] && r.ctx.rev == c.rev[name := key]
      && r.ctx.captures == c.captures
  {
  }

  /**
   * Within one match, a template identifier cannot stand for two input
   * identifiers, and two template identifiers cannot stand for one input
   * identifier.
   */
  lemma StickySound(x: string, y: string, a: Value, b: Value, c: Context)
    requires Inverse(c) && StickyName(x, a, c).ok
    ensures var d := StickyName(x, a, c).ctx;
      && Inverse(d)
      && (StickyName(x, b, d).ok <==> b == a)
      && (x != y ==> !StickyName(y, a, d).ok)
  {
    var d := StickyName(x, a, c).ctx;
    assert d.rev[a] == x;
  }

  /** The capture of placeholder `id`, declared with class `cls`, applied to `n`. */
  function MatchCapture(id: string, cls: string, n: Value, c: Context): (r: Verdict)
    ensures r.ok == InstanceOf(n, cls)
    ensures r.ok ==> id in r.ctx.captures && r.ctx.captures[id] == n
    ensures !r.ok ==> r.ctx == c
    ensures r.ctx.names == c.names && r.ctx.rev == c.rev
    ensures forall k | k in c.captures && k != id :: k in r.ctx.captures && r.ctx.captures[k] == c.captures[k]
    ensures r.ctx.captures.Keys <= c.captures.Keys + {id}
  {
    if InstanceOf(n, cls) then Verdict(true, c.(captures := c.captures[id := n])) else Verdict(false, c)
  }
}
