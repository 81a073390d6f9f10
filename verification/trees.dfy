/**
 * Input trees as the matcher sees them: syntax-tree nodes with a kind and
 * ordered named fields, lists of values, scalars and the absent value
 * (None). Paths into a tree are sequences of steps: a field name, or 0/1
 * for the head/tail of a list.
 */
module Trees {

  import opened Results

  /** A node class: its own name and the abstract class it derives from
      (`expr`, `stmt`, ... or `AST` for classes such as `arguments`). */
  datatype Kind = Kind(name: string, category: string)

  /** The scalars that can stand in a node field (identifiers, string and
      integer literals). */
  datatype Scalar = Str(s: string) | Int(i: int)

  datatype Value =
    | Node(kind: Kind, fields: seq<(string, Value)>)
    | List(items: seq<Value>)
    | Atom(scalar: Scalar)
    | Null

  /** One traversal token: a field name, 0 (list head) or 1 (list tail). */
  datatype Step = Field(name: string) | Head | Tail

  /** The root class of every syntax-tree node. */
  const RootClass: string := "AST"

  /** `isinstance(v, cls)`: true of nodes whose class is `cls` or derives from it. */
  predicate InstanceOf(v: Value, cls: string)
  {
    v.Node? && (cls == v.kind.name || cls == v.kind.category || cls == RootClass)
  }

  /** Number of constructors in a value; strictly decreases from a node or
      list to each of its parts and from a list to its tail. */
  function Size(v: Value): (n: nat)
    ensures n >= 1
  {
    match v
    case Node(_, fields) => 1 + FieldsSize(fields)
    case List(items) => 1 + ItemsSize(items)
    case _ => 1
  }

  function FieldsSize(fields: seq<(string, Value)>): nat
  {
    if fields == [] then 0
    else
      var last := fields[|fields| - 1];
      assert last in fields && last.1 < last;
      FieldsSize(fields[..|fields| - 1]) + Size(last.1)
  }

  function ItemsSize(items: seq<Value>): nat
  {
    if items == [] then 0 else Size(items[0]) + ItemsSize(items[1..])
  }

  /** The head and the tail of a non-empty list are smaller than the list. */
  lemma ItemsSmaller(items: seq<Value>)
    requires items != []
    ensures Size(items[0]) < Size(List(items)) && Size(List(items[1..])) < Size(List(items))
  {
  }

  lemma {:induction false} FieldSmaller(fields: seq<(string, Value)>, i: nat)
    requires i < |fields|
    ensures Size(fields[i].1) <= FieldsSize(fields)
    decreases |fields|
  {
    if i < |fields| - 1 {
      FieldSmaller(fields[..|fields| - 1], i);
    }
  }

  /** The position of the first field called `name`, if there is one. */
  function FieldIndex<T>(fields: seq<(string, T)>, name: string): (r: Option<nat>)
    ensures r.Some? ==> r.value < |fields| && fields[r.value].0 == name
    ensures r.Some? ==> forall j | 0 <= j < r.value :: fields[j].0 != name
    ensures r.None? ==> forall j | 0 <= j < |fields| :: fields[j].0 != name
    decreases |fields|
  {
    if fields == [] then None
    else if fields[0].0 == name then Some(0)
    else match FieldIndex(fields[1..], name)
      case None => None
      case Some(j) => Some(j + 1)
  }

  /** No two fields of a node share a name (a node class has each field once). */
  predicate DistinctNames<T>(fields: seq<(string, T)>)
  {
    forall i, j | 0 <= i < j < |fields| :: fields[i].0 != fields[j].0
  }

  /** Every node in the value has distinct field names. */
  predicate WellFormed(v: Value)
    decreases Size(v), 1
  {
    match v
    case Node(_, fields) => DistinctNames(fields) && FieldsWellFormed(fields)
    case List(items) => ItemsWellFormed(items)
    case _ => true
  }

  predicate FieldsWellFormed(fields: seq<(string, Value)>)
    decreases FieldsSize(fields), 2
  {
    if fields == [] then true
    else FieldsWellFormed(fields[..|fields| - 1]) && WellFormed(fields[|fields| - 1].1)
  }

  predicate ItemsWellFormed(items: seq<Value>)
    decreases ItemsSize(items), 2
  {
    if items == [] then true else WellFormed(items[0]) && ItemsWellFormed(items[1..])
  }

  lemma {:induction false} FieldWellFormed(fields: seq<(string, Value)>, i: nat)
    requires i < |fields| && FieldsWellFormed(fields)
    ensures WellFormed(fields[i].1)
    decreases |fields|
  {
    if i < |fields| - 1 {
      FieldWellFormed(fields[..|fields| - 1], i);
    }
  }

  lemma ItemsWellFormedSplit(items: seq<Value>)
    requires items != [] && WellFormed(List(items))
    ensures WellFormed(items[0]) && WellFormed(List(items[1..]))
  {
  }

  /** The field names of a node, in order. */
  function Names<T>(fields: seq<(string, T)>): seq<string>
  {
    seq(|fields|, i requires 0 <= i < |fields| => fields[i].0)
  }

  /** With distinct names, the first field called like field `i` is field `i`. */
  lemma FieldIndexOfDistinct<T>(fields: seq<(string, T)>, i: nat)
    requires i < |fields| && DistinctNames(fields)
    ensures FieldIndex(fields, fields[i].0) == Some(i)
  {
  }

  /**
   * Every node in the value has exactly the fields, in order, that
   * `schema` declares for its class (every node class of the syntax tree
   * has a fixed list of fields).
   */
  predicate Conforms(v: Value, schema: Kind -> seq<string>)
    decreases Size(v), 1
  {
    match v
    case Node(k, fields) => Names(fields) == schema(k) && FieldsConform(fields, schema)
    case List(items) => ItemsConform(items, schema)
    case _ => true
  }

  predicate FieldsConform(fields: seq<(string, Value)>, schema: Kind -> seq<string>)
    decreases FieldsSize(fields), 2
  {
    if fields == [] then true
    else FieldsConform(fields[..|fields| - 1], schema) && Conforms(fields[|fields| - 1].1, schema)
  }

  predicate ItemsConform(items: seq<Value>, schema: Kind -> seq<string>)
    decreases ItemsSize(items), 2
  {
    if items == [] then true else Conforms(items[0], schema) && ItemsConform(items[1..], schema)
  }

  lemma {:induction false} FieldConforms(fields: seq<(string, Value)>, i: nat, schema: Kind -> seq<string>)
    requires i < |fields| && FieldsConform(fields, schema)
    ensures Conforms(fields[i].1, schema)
    decreases |fields|
  {
    if i < |fields| - 1 {
      FieldConforms(fields[..|fields| - 1], i, schema);
    }
  }

  lemma ItemsConformSplit(items: seq<Value>, schema: Kind -> seq<string>)
    requires items != [] && Conforms(List(items), schema)
    ensures Conforms(items[0], schema) && Conforms(List(items[1..]), schema)
  {
  }

  /** The part of `v` one step away, if the step leads anywhere. */
  function Child(v: Value, step: Step): Option<Value>
  {
    match step
    case Field(name) =>
      if v.Node? then
        match FieldIndex(v.fields, name)
        case Some(i) => Some(v.fields[i].1)
        case None => None
      else None
    case Head => if v.List? && v.items != [] then Some(v.items[0]) else None
    case Tail => if v.List? && v.items != [] then Some(List(v.items[1..])) else None
  }

  /** The part of `v` that a traversal path leads to. */
  function At(v: Value, path: seq<Step>): Option<Value>
    decreases |path|
  {
    if path == [] then Some(v)
    else match Child(v, path[0])
      case Some(c) => At(c, path[1..])
      case None => None
  }

  /** Extending a path by one step moves one step further from where it led. */
  lemma {:induction false} AtSnoc(v: Value, path: seq<Step>, step: Step, w: Value)
    requires At(v, path) == Some(w)
    ensures At(v, path + [step]) == Child(w, step)
    decreases |path|
  {
    if path == [] {
      assert [] + [step] == [step];
    } else {
      assert (path + [step])[1..] == path[1..] + [step];
      AtSnoc(Child(v, path[0]).value, path[1..], step, w);
    }
  }

  /** A path that starts with `a` first leads to where `a` leads, then goes on from there. */
  lemma {:induction false} AtAppend(v: Value, a: seq<Step>, b: seq<Step>, w: Value)
    requires At(v, a) == Some(w)
    ensures At(v, a + b) == At(w, b)
    decreases |a|
  {
    if a == [] {
      assert [] + b == b;
    } else {
      assert (a + b)[1..] == a[1..] + b;
      AtAppend(Child(v, a[0]).value, a[1..], b, w);
    }
  }

  /** In a node with distinct field names, the step named after field `i` leads to that field. */
  lemma FieldStep(k: Kind, fields: seq<(string, Value)>, i: nat)
    requires i < |fields| && DistinctNames(fields)
    ensures Child(Node(k, fields), Field(fields[i].0)) == Some(fields[i].1)
  {
    var r := FieldIndex(fields, fields[i].0);
    assert r.Some? ==> r.value == i;
  }
}
