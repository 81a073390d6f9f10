/**
 * Compiled templates. A template has the shape of the example code it was
 * compiled from: syntax-tree nodes, lists and scalars stay as they are and
 * are compared structurally, while some leaves become predicates (the
 * capture of a declared placeholder, a sticky identifier, a class test, and
 * the two constant predicates that sub-template lookup falls back to).
 */
module Templates {

  import opened Trees

  datatype Template =
    | TNode(kind: Kind, fields: seq<(string, Template)>)  // a node: matched by exact kind
    | TList(items: seq<Template>)                         // a list: matched by length and head
    | Literal(scalar: Scalar)                             // a scalar: matched by equality
    | TNull                                               // the absent value None
    | Capture(id: string, cls: string)                    // a declared placeholder and its class
    | Sticky(key: string)                                 // an identifier of the example code
    | IsInstance(cls: string)                             // a class test written `ast.X`
    | Never                                               // the predicate that always fails
    | Always                                              // the predicate that always succeeds

  /** The leaves that are predicates, i.e. the callables of the template. */
  predicate IsCallable(t: Template)
  {
    t.Capture? || t.Sticky? || t.IsInstance? || t.Never? || t.Always?
  }

  /** The predicate leaves occurring anywhere in a template. */
  function Leaves(t: Template): (r: set<Template>)
    ensures forall l | l in r :: IsCallable(l)
    decreases t
  {
    match t
    case TNode(_, fields) => FieldLeaves(fields)
    case TList(items) => ItemLeaves(items)
    case _ => if IsCallable(t) then {t} else {}
  }

  function FieldLeaves(fields: seq<(string, Template)>): (r: set<Template>)
    ensures forall l | l in r :: IsCallable(l)
    decreases fields
  {
    if fields == [] then {}
    else
      var last := fields[|fields| - 1];
      assert last in fields && last.1 < last;
      FieldLeaves(fields[..|fields| - 1]) + Leaves(last.1)
  }

  function ItemLeaves(items: seq<Template>): (r: set<Template>)
    ensures forall l | l in r :: IsCallable(l)
    decreases items
  {
    if items == [] then {} else Leaves(items[0]) + ItemLeaves(items[1..])
  }

  lemma {:induction false} FieldLeavesInclude(fields: seq<(string, Template)>, i: nat)
    requires i < |fields|
    ensures Leaves(fields[i].1) <= FieldLeaves(fields)
    decreases |fields|
  {
    if i < |fields| - 1 {
      FieldLeavesInclude(fields[..|fields| - 1], i);
    }
  }

  /** A leaf of a node template is a leaf of one of its fields. */
  lemma {:induction false} FieldLeavesFrom(fields: seq<(string, Template)>, l: Template)
    requires l in FieldLeaves(fields)
    ensures exists i | 0 <= i < |fields| :: l in Leaves(fields[i].1)
    decreases |fields|
  {
    var n := |fields| - 1;
    if l !in Leaves(fields[n].1) {
      FieldLeavesFrom(fields[..n], l);
      var i :| 0 <= i < n && l in Leaves(fields[..n][i].1);
      assert fields[..n][i] == fields[i];
    }
  }

  /** Every node template has exactly the fields, in order, that `schema` declares for its class. */
  predicate TConforms(t: Template, schema: Kind -> seq<string>)
    decreases t
  {
    match t
    case TNode(k, fields) => Names(fields) == schema(k) && TFieldsConform(fields, schema)
    case TList(items) => forall i | 0 <= i < |items| :: TConforms(items[i], schema)
    case _ => true
  }

  predicate TFieldsConform(fields: seq<(string, Template)>, schema: Kind -> seq<string>)
    decreases fields
  {
    forall i | 0 <= i < |fields| :: (assert fields[i] in fields && fields[i].1 < fields[i]; TConforms(fields[i].1, schema))
  }

  lemma {:induction false} ItemLeavesInclude(items: seq<Template>, i: nat)
    requires i < |items|
    ensures Leaves(items[i]) <= ItemLeaves(items)
    decreases |items|
  {
    if i > 0 {
      ItemLeavesInclude(items[1..], i - 1);
    }
  }

  /** The leaves of a list's tail are among the list's leaves. */
  lemma TailLeaves(items: seq<Template>)
    requires items != []
    ensures Leaves(TList(items[1..])) <= Leaves(TList(items))
  {
  }

  /** A value of the example code kept verbatim in a template. */
  function Lift(v: Value): Template
    decreases v
  {
    match v
    case Node(k, fields) => TNode(k, LiftFields(fields))
    case List(items) => TList(LiftItems(items))
    case Atom(a) => Literal(a)
    case Null => TNull
  }

  function LiftFields(fields: seq<(string, Value)>): (r: seq<(string, Template)>)
    ensures |r| == |fields|
    ensures forall i | 0 <= i < |fields| :: r[i].0 == fields[i].0
    decreases fields
  {
    if fields == [] then []
    else
      var last := fields[|fields| - 1];
      assert last in fields && last.1 < last;
      LiftFields(fields[..|fields| - 1]) + [(last.0, Lift(last.1))]
  }

  function LiftItems(items: seq<Value>): (r: seq<Template>)
    ensures |r| == |items|
    decreases items
  {
    if items == [] then [] else [Lift(items[0])] + LiftItems(items[1..])
  }

  /** Field `i` of a node kept verbatim is that field's value kept verbatim. */
  lemma {:induction false} LiftFieldAt(fields: seq<(string, Value)>, i: nat)
    requires i < |fields|
    ensures LiftFields(fields)[i] == (fields[i].0, Lift(fields[i].1))
    decreases |fields|
  {
    var n := |fields| - 1;
    if i < n {
      LiftFieldAt(fields[..n], i);
    }
  }

  /** A list kept verbatim: its head and its tail kept verbatim. */
  lemma LiftItemsSplit(items: seq<Value>)
    requires items != []
    ensures LiftItems(items)[0] == Lift(items[0]) && LiftItems(items)[1..] == LiftItems(items[1..])
  {
  }

  /** A value kept verbatim contains no predicate at all. */
  lemma {:induction false} LiftHasNoLeaves(v: Value)
    ensures Leaves(Lift(v)) == {}
    decreases v
  {
    match v
    case Node(k, fields) => LiftFieldsHaveNoLeaves(fields);
    case List(items) => LiftItemsHaveNoLeaves(items);
    case _ =>
  }

  lemma {:induction false} LiftFieldsHaveNoLeaves(fields: seq<(string, Value)>)
    ensures FieldLeaves(LiftFields(fields)) == {}
    decreases fields
  {
    if fields != [] {
      var last := fields[|fields| - 1];
      assert last in fields && last.1 < last;
      LiftFieldsHaveNoLeaves(fields[..|fields| - 1]);
      LiftHasNoLeaves(last.1);
      var r := LiftFields(fields);
      assert r[..|r| - 1] == LiftFields(fields[..|fields| - 1]);
    }
  }

  lemma {:induction false} LiftItemsHaveNoLeaves(items: seq<Value>)
    ensures ItemLeaves(LiftItems(items)) == {}
    decreases items
  {
    if items != [] {
      LiftHasNoLeaves(items[0]);
      LiftItemsHaveNoLeaves(items[1..]);
      var r := LiftItems(items);
      assert r[1..] == LiftItems(items[1..]);
    }
  }
}
