/**
 Metadata filters (src/metadata.cc): a filter document is compiled into a predicate
 tree, which is matched against a payload document. Compiling preserves meaning;
 the matcher's depth guard, which is not in step with the parser's, can only deny,
 and denies nothing when the compiled tree stays within it.
 */
module Filters {

  /** Numbers compare by value; fields come in key order, so equal objects are equal values. */
  datatype Json =
    | Null
    | Bool(b: bool)
    | Num(n: real)
    | Str(s: string)
    | Arr(items: seq<Json>)
    | Obj(fields: seq<Field>)

  datatype Field = Field(key: string, value: Json)

  datatype Found = Missing | Value(json: Json)

  datatype Kind = Eq | Ne | Gt | Gte | Lt | Lte | In | Nin | Exists | ContainsAny | ContainsAll

  datatype Predicate =
    | Leaf(kind: Kind, path: seq<string>, value: Json, values: seq<Json>, existsExpected: bool)
    | And(children: seq<Predicate>)
    | Or(children: seq<Predicate>)

  datatype Error =
    | TooDeep
    | NotAnObject
    | LogicalNeedsArray
    | ElementNotObject
    | MixedKeys
    | OperatorNeedsArray
    | ExistsNeedsBoolean
    | UnknownOperator

  datatype Result<+T> = Ok(value: T) | Err(error: Error)

  const MAX_PREDICATE_DEPTH: nat := 32

  // ----- Documents -----

  function Lookup(fields: seq<Field>, key: string): Found {
    if fields == [] then Missing else if fields[0].key == key then Value(fields[0].value) else Lookup(fields[1..], key)
  }

  /** The value a path leads to, if every step is a field of an object. */
  function Resolve(doc: Json, path: seq<string>): Found
    decreases |path|
  {
    if path == [] then Value(doc)
    else if !doc.Obj? then Missing
    else
      var next := Lookup(doc.fields, path[0]);
      if next.Missing? then Missing else Resolve(next.json, path[1..])
  }

  predicate StrLess(a: string, b: string)
    decreases |a|
  {
    b != [] && (a == [] || a[0] < b[0] || (a[0] == b[0] && StrLess(a[1..], b[1..])))
  }

  predicate SameOrderingKind(a: Json, b: Json) {
    (a.Num? && b.Num?) || (a.Str? && b.Str?)
  }

  predicate Less(a: Json, b: Json)
    requires SameOrderingKind(a, b)
  {
    if a.Num? then a.n < b.n else StrLess(a.s, b.s)
  }

  // ----- Paths -----

  function Join(path: seq<string>): string {
    if path == [] then [] else if |path| == 1 then path[0] else path[0] + "." + Join(path[1..])
  }

  predicate NoDot(s: string) {
    '.' !in s
  }

  function Dots(s: string): nat {
    if s == [] then 0 else (if s[0] == '.' then 1 else 0) + Dots(s[1..])
  }

  /** The parts between the dots; a key without a dot, even the empty one, is one part. */
  function SplitPath(key: string): (path: seq<string>) {
    SplitFrom("", key)
  }

  function SplitFrom(part: string, rest: string): seq<string>
    decreases |rest|
  {
    if rest == [] then [part]
    else if rest[0] == '.' then [part] + SplitFrom("", rest[1..])
    else SplitFrom(part + [rest[0]], rest[1..])
  }

  lemma {:induction false} SplitJoins(part: string, rest: string)
    requires NoDot(part)
    ensures var path := SplitFrom(part, rest);
            |path| == 1 + Dots(rest) && Join(path) == part + rest && forall i :: 0 <= i < |path| ==> NoDot(path[i])
    decreases |rest|
  {
    if rest == [] {
      assert part + rest == part;
    } else if rest[0] == '.' {
      SplitJoins("", rest[1..]);
      var tail := SplitFrom("", rest[1..]);
      assert ([part] + tail)[1..] == tail;
      assert "" + rest[1..] == rest[1..];
      assert part + "." + rest[1..] == part + rest;
    } else {
      SplitJoins(part + [rest[0]], rest[1..]);
      assert part + [rest[0]] + rest[1..] == part + rest;
    }
  }

  /** Splitting loses nothing: the parts, one more than there are dots, have no dot and joined by dots are the key. */
  lemma SplitIsInverse(key: string)
    ensures |SplitPath(key)| == 1 + Dots(key) && Join(SplitPath(key)) == key
    ensures forall i :: 0 <= i < |SplitPath(key)| ==> NoDot(SplitPath(key)[i])
  {
    SplitJoins("", key);
    assert "" + key == key;
  }

  /** And nothing else does: any other way to write the key as dotless parts joined by dots is the same. */
  lemma {:induction false} SplitIsUnique(path: seq<string>)
    requires path != [] && forall i :: 0 <= i < |path| ==> NoDot(path[i])
    ensures SplitPath(Join(path)) == path
  {
    if |path| == 1 {
      SplitNoDot("", path[0], "");
      assert path[0] + "" == path[0] && "" + path[0] == path[0];
    } else {
      SplitIsUnique(path[1..]);
      var rest := "." + Join(path[1..]);
      SplitNoDot("", path[0], rest);
      assert "" + path[0] == path[0] && path[0] + "." + Join(path[1..]) == path[0] + rest;
      assert rest[1..] == Join(path[1..]);
      assert path == [path[0]] + path[1..];
    }
  }

  lemma {:induction false} SplitNoDot(part: string, s: string, rest: string)
    requires NoDot(s)
    ensures SplitFrom(part, s + rest) == SplitFrom(part + s, rest)
    decreases |s|
  {
    if s == [] {
      assert s + rest == rest && part + s == part;
    } else {
      assert (s + rest)[0] == s[0] && (s + rest)[1..] == s[1..] + rest;
      SplitNoDot(part + [s[0]], s[1..], rest);
      assert part + [s[0]] + s[1..] == part + s;
    }
  }

  /** The empty key and a lone dot: one and two parts, all empty, and never no part at all. */
  lemma EmptyParts()
    ensures SplitPath("") == [""] && SplitPath(".") == ["", ""]
  {
    SplitIsUnique([""]);
    assert Join(["", ""]) == "" + "." + Join(["", ""][1..]);
    SplitIsUnique(["", ""]);
  }

  // ----- The meaning of a filter, read off the filter itself -----

  predicate IsOperatorKey(key: string) {
    key != [] && key[0] == '$'
  }

  /** All of an object's keys start with a dollar sign, and there are some. */
  predicate IsOperatorObject(val: Json) {
    val.Obj? && val.fields != [] && forall i :: 0 <= i < |val.fields| ==> IsOperatorKey(val.fields[i].key)
  }

  predicate Ordered(v: Found, arg: Json) {
    v.Value? && SameOrderingKind(v.json, arg)
  }

  /** What an operator says of a resolved value. */
  predicate Holds(op: string, arg: Json, v: Found) {
    if op == "$eq" then v == Value(arg)
    else if op == "$ne" then v != Value(arg)
    else if op == "$gt" then Ordered(v, arg) && Less(arg, v.json)
    else if op == "$gte" then Ordered(v, arg) && !Less(v.json, arg)
    else if op == "$lt" then Ordered(v, arg) && Less(v.json, arg)
    else if op == "$lte" then Ordered(v, arg) && !Less(arg, v.json)
    else if op == "$in" then v.Value? && arg.Arr? && v.json in arg.items
    else if op == "$nin" then v.Missing? || (arg.Arr? && v.json !in arg.items)
    else if op == "$contains_any" then
      v.Value? && v.json.Arr? && arg.Arr? && exists i :: 0 <= i < |arg.items| && arg.items[i] in v.json.items
    else if op == "$contains_all" then
      v.Value? && v.json.Arr? && arg.Arr? && forall i :: 0 <= i < |arg.items| ==> arg.items[i] in v.json.items
    else op == "$exists" && v.Value? == (arg == Bool(true))
  }

  /** A filter object matches if all its fields do. */
  predicate Means(obj: Json, doc: Json)
    decreases obj, 1
  {
    obj.Obj? && forall i :: 0 <= i < |obj.fields| ==> FieldMeans(obj.fields[i].key, obj.fields[i].value, doc)
  }

  predicate FieldMeans(key: string, val: Json, doc: Json)
    decreases val, 0
  {
    if key == "$and" then val.Arr? && forall i :: 0 <= i < |val.items| ==> Means(val.items[i], doc)
    else if key == "$or" then val.Arr? && exists i :: 0 <= i < |val.items| && Means(val.items[i], doc)
    else if IsOperatorObject(val) then OperatorsMean(val, Resolve(doc, SplitPath(key)))
    else Resolve(doc, SplitPath(key)) == Value(val)
  }

  predicate OperatorsMean(val: Json, v: Found)
    requires val.Obj?
  {
    forall i :: 0 <= i < |val.fields| ==> Holds(val.fields[i].key, val.fields[i].value, v)
  }

  // ----- Compiling -----

  predicate TakesArray(op: string) {
    op == "$in" || op == "$nin" || op == "$contains_any" || op == "$contains_all"
  }

  function KindOf(op: string): Kind {
    if op == "$eq" then Eq else if op == "$ne" then Ne else if op == "$gt" then Gt else if op == "$gte" then Gte
    else if op == "$lt" then Lt else if op == "$lte" then Lte else if op == "$in" then In else if op == "$nin" then Nin
    else if op == "$contains_any" then ContainsAny else if op == "$contains_all" then ContainsAll
    else Exists
  }

  predicate IsComparison(op: string) {
    op == "$eq" || op == "$ne" || op == "$gt" || op == "$gte" || op == "$lt" || op == "$lte"
  }

  function CompileOperator(path: seq<string>, op: string, arg: Json): Result<Predicate> {
    if IsComparison(op) then Ok(Leaf(KindOf(op), path, arg, [], true))
    else if TakesArray(op) then
      if arg.Arr? then Ok(Leaf(KindOf(op), path, Null, arg.items, true)) else Err(OperatorNeedsArray)
    else if op == "$exists" then
      if arg.Bool? then Ok(Leaf(Exists, path, Null, [], arg.b)) else Err(ExistsNeedsBoolean)
    else Err(UnknownOperator)
  }

  function CompileOperators(path: seq<string>, fields: seq<Field>): Result<seq<Predicate>> {
    if fields == [] then Ok([])
    else
      var front := CompileOperators(path, fields[..|fields| - 1]);
      var last := fields[|fields| - 1];
      if front.Err? then front
      else
        var leaf := CompileOperator(path, last.key, last.value);
        if leaf.Err? then Err(leaf.error) else Ok(front.value + [leaf.value])
  }

  /** A single part stands for itself, several are a conjunction. */
  function Conjunction(parts: seq<Predicate>): Predicate {
    if |parts| == 1 then parts[0] else And(parts)
  }

  predicate IsMixed(val: Json) {
    && val.Obj?
    && (exists i :: 0 <= i < |val.fields| && IsOperatorKey(val.fields[i].key))
    && (exists i :: 0 <= i < |val.fields| && !IsOperatorKey(val.fields[i].key))
  }

  function CompileObject(obj: Json, depth: nat): Result<Predicate>
    decreases obj, 2, 0
  {
    if depth > MAX_PREDICATE_DEPTH then Err(TooDeep)
    else if !obj.Obj? then Err(NotAnObject)
    else
      var parts := CompileFields(obj, |obj.fields|, depth);
      if parts.Err? then Err(parts.error) else Ok(Conjunction(parts.value))
  }

  /** The first `n` fields, or the first error among them. */
  function CompileFields(obj: Json, n: nat, depth: nat): Result<seq<Predicate>>
    requires obj.Obj? && n <= |obj.fields|
    decreases obj, 1, n
  {
    if n == 0 then Ok([])
    else
      var front := CompileFields(obj, n - 1, depth);
      if front.Err? then front
      else
        var part := CompileField(obj.fields[n - 1].key, obj.fields[n - 1].value, depth);
        if part.Err? then Err(part.error) else Ok(front.value + [part.value])
  }

  function CompileField(key: string, val: Json, depth: nat): Result<Predicate>
    decreases val, 3, 0
  {
    if key == "$and" || key == "$or" then CompileLogical(key == "$and", val, depth + 1)
    else if IsMixed(val) then Err(MixedKeys)
    else if IsOperatorObject(val) then
      var leaves := CompileOperators(SplitPath(key), val.fields);
      if leaves.Err? then Err(leaves.error) else Ok(Conjunction(leaves.value))
    else Ok(Leaf(Eq, SplitPath(key), val, [], true))
  }

  function CompileLogical(isAnd: bool, val: Json, depth: nat): Result<Predicate>
    decreases val, 2, 0
  {
    if depth > MAX_PREDICATE_DEPTH then Err(TooDeep)
    else if !val.Arr? then Err(LogicalNeedsArray)
    else
      var parts := CompileElements(val, |val.items|, depth);
      if parts.Err? then Err(parts.error) else Ok(if isAnd then And(parts.value) else Or(parts.value))
  }

  function CompileElements(arr: Json, n: nat, depth: nat): Result<seq<Predicate>>
    requires arr.Arr? && n <= |arr.items|
    decreases arr, 1, n
  {
    if n == 0 then Ok([])
    else
      var front := CompileElements(arr, n - 1, depth);
      if front.Err? then front
      else if !arr.items[n - 1].Obj? then Err(ElementNotObject)
      else
        var part := CompileObject(arr.items[n - 1], depth + 1);
        if part.Err? then Err(part.error) else Ok(front.value + [part.value])
  }

  // ----- Matching -----

  /** What a leaf says of a resolved value. */
  predicate LeafMatches(p: Predicate, v: Found)
    requires p.Leaf?
  {
    match p.kind
    case Eq => v.Value? && v.json == p.value
    case Ne => v.Missing? || v.json != p.value
    case Gt => v.Value? && SameOrderingKind(v.json, p.value) && Less(p.value, v.json)
    case Gte => v.Value? && SameOrderingKind(v.json, p.value) && !Less(v.json, p.value)
    case Lt => v.Value? && SameOrderingKind(v.json, p.value) && Less(v.json, p.value)
    case Lte => v.Value? && SameOrderingKind(v.json, p.value) && !Less(p.value, v.json)
    case In => v.Value? && v.json in p.values
    case Nin => v.Missing? || v.json !in p.values
    case Exists => v.Value? == p.existsExpected
    case ContainsAny => v.Value? && v.json.Arr? && exists i :: 0 <= i < |p.values| && p.values[i] in v.json.items
    case ContainsAll => v.Value? && v.json.Arr? && forall i :: 0 <= i < |p.values| ==> p.values[i] in v.json.items
  }

  /** Beyond the depth limit nothing matches. */
  predicate Matches(p: Predicate, doc: Json, depth: nat)
    decreases p
  {
    depth <= MAX_PREDICATE_DEPTH &&
    match p
    case Leaf(_, path, _, _, _) => LeafMatches(p, Resolve(doc, path))
    case And(children) => forall i :: 0 <= i < |children| ==> Matches(children[i], doc, depth + 1)
    case Or(children) => exists i :: 0 <= i < |children| && Matches(children[i], doc, depth + 1)
  }

  /** What the tree says when nobody counts the depth. */
  predicate Eval(p: Predicate, doc: Json) {
    match p
    case Leaf(_, path, _, _, _) => LeafMatches(p, Resolve(doc, path))
    case And(children) => forall i :: 0 <= i < |children| ==> Eval(children[i], doc)
    case Or(children) => exists i :: 0 <= i < |children| && Eval(children[i], doc)
  }

  // ----- Meaning is preserved -----

  /** A compiled operator says what the operator means. */
  lemma OperatorMeaning(path: seq<string>, op: string, arg: Json, doc: Json)
    requires CompileOperator(path, op, arg).Ok?
    ensures var p := CompileOperator(path, op, arg).value;
            p.Leaf? && p.path == path && LeafMatches(p, Resolve(doc, path)) == Holds(op, arg, Resolve(doc, path))
  {
    hide Resolve, Less, SameOrderingKind;
  }

  lemma {:induction false} OperatorsCompiled(path: seq<string>, fields: seq<Field>)
    requires CompileOperators(path, fields).Ok?
    ensures var leaves := CompileOperators(path, fields).value;
            && |leaves| == |fields|
            && forall i :: 0 <= i < |fields| ==> CompileOperator(path, fields[i].key, fields[i].value) == Ok(leaves[i])
  {
    if fields != [] {
      var front := fields[..|fields| - 1];
      OperatorsCompiled(path, front);
      assert forall i :: 0 <= i < |front| ==> front[i] == fields[i];
    }
  }

  lemma OperatorsMeaning(path: seq<string>, val: Json, doc: Json)
    requires val.Obj? && CompileOperators(path, val.fields).Ok?
    ensures Eval(Conjunction(CompileOperators(path, val.fields).value), doc) == OperatorsMean(val, Resolve(doc, path))
  {
    hide Holds, LeafMatches, CompileOperator;
    var leaves := CompileOperators(path, val.fields).value;
    OperatorsCompiled(path, val.fields);
    forall i | 0 <= i < |leaves|
      ensures Eval(leaves[i], doc) == Holds(val.fields[i].key, val.fields[i].value, Resolve(doc, path))
    {
      OperatorMeaning(path, val.fields[i].key, val.fields[i].value, doc);
    }
    ConjunctionEval(leaves, doc);
  }

  lemma ConjunctionEval(parts: seq<Predicate>, doc: Json)
    ensures Eval(Conjunction(parts), doc) == forall i :: 0 <= i < |parts| ==> Eval(parts[i], doc)
  {}

  lemma {:induction false} FieldsCompiled(obj: Json, n: nat, depth: nat)
    requires obj.Obj? && n <= |obj.fields| && CompileFields(obj, n, depth).Ok?
    ensures var parts := CompileFields(obj, n, depth).value;
            && |parts| == n
            && forall i :: 0 <= i < n ==> CompileField(obj.fields[i].key, obj.fields[i].value, depth) == Ok(parts[i])
  {
    hide CompileField;
    if n > 0 {
      FieldsCompiled(obj, n - 1, depth);
    }
  }

  lemma {:induction false} ElementsCompiled(arr: Json, n: nat, depth: nat)
    requires arr.Arr? && n <= |arr.items| && CompileElements(arr, n, depth).Ok?
    ensures var parts := CompileElements(arr, n, depth).value;
            && |parts| == n
            && forall i :: 0 <= i < n ==> CompileObject(arr.items[i], depth + 1) == Ok(parts[i])
  {
    hide CompileObject;
    if n > 0 {
      ElementsCompiled(arr, n - 1, depth);
    }
  }

  /** Compiling preserves meaning: whatever the parser accepts says, as a tree, what it says as it reads. */
  lemma {:induction false} ObjectMeaning(obj: Json, depth: nat, doc: Json)
    requires CompileObject(obj, depth).Ok?
    ensures Eval(CompileObject(obj, depth).value, doc) == Means(obj, doc)
    decreases obj, 1
  {
    hide CompileField, FieldMeans, Eval, CompileFields, Conjunction;
    var parts := CompileFields(obj, |obj.fields|, depth).value;
    FieldsCompiled(obj, |obj.fields|, depth);
    ConjunctionEval(parts, doc);
    forall i | 0 <= i < |parts|
      ensures Eval(parts[i], doc) == FieldMeans(obj.fields[i].key, obj.fields[i].value, doc)
    {
      FieldMeaning(obj.fields[i].key, obj.fields[i].value, depth, doc);
    }
  }

  lemma {:induction false} FieldMeaning(key: string, val: Json, depth: nat, doc: Json)
    requires CompileField(key, val, depth).Ok?
    ensures Eval(CompileField(key, val, depth).value, doc) == FieldMeans(key, val, doc)
    decreases val, 0
  {
    hide CompileObject, Means, Resolve, SplitPath, CompileOperators, Conjunction, CompileElements;
    if key == "$and" || key == "$or" {
      var parts := CompileElements(val, |val.items|, depth + 1).value;
      ElementsCompiled(val, |val.items|, depth + 1);
      forall i | 0 <= i < |parts|
        ensures Eval(parts[i], doc) == Means(val.items[i], doc)
      {
        ObjectMeaning(val.items[i], depth + 2, doc);
      }
    } else if IsOperatorObject(val) {
      OperatorsMeaning(SplitPath(key), val, doc);
    }
  }

  // ----- The guard of the matcher -----

  /** No node of the tree lies below the depth the matcher goes to. */
  predicate WithinGuard(p: Predicate, depth: nat)
    decreases p
  {
    depth <= MAX_PREDICATE_DEPTH &&
    match p
    case Leaf(_, _, _, _, _) => true
    case And(children) => forall i :: 0 <= i < |children| ==> WithinGuard(children[i], depth + 1)
    case Or(children) => forall i :: 0 <= i < |children| ==> WithinGuard(children[i], depth + 1)
  }

  /** The tree with all that lies below that depth replaced by what never holds. */
  function Pruned(p: Predicate, depth: nat): (q: Predicate)
    ensures depth <= MAX_PREDICATE_DEPTH && p.And? ==> q.And? && |q.children| == |p.children|
    ensures depth <= MAX_PREDICATE_DEPTH && p.Or? ==> q.Or? && |q.children| == |p.children|
    decreases p
  {
    if depth > MAX_PREDICATE_DEPTH then Or([])
    else
      match p
      case Leaf(_, _, _, _, _) => p
      case And(children) => And(seq(|children|, i requires 0 <= i < |children| => Pruned(children[i], depth + 1)))
      case Or(children) => Or(seq(|children|, i requires 0 <= i < |children| => Pruned(children[i], depth + 1)))
  }

  /** Matching is evaluating the pruned tree. */
  lemma {:induction false} GuardPrunes(p: Predicate, doc: Json, depth: nat)
    ensures Matches(p, doc, depth) == Eval(Pruned(p, depth), doc)
    decreases p
  {
    hide LeafMatches, Resolve;
    if depth <= MAX_PREDICATE_DEPTH && !p.Leaf? {
      var cut := Pruned(p, depth).children;
      forall i | 0 <= i < |p.children|
        ensures Matches(p.children[i], doc, depth + 1) == Eval(cut[i], doc)
      {
        GuardPrunes(p.children[i], doc, depth + 1);
      }
    }
  }

  /** The guard can only deny. */
  lemma {:induction false} GuardDenies(p: Predicate, doc: Json, depth: nat)
    ensures Matches(p, doc, depth) ==> Eval(p, doc)
    decreases p
  {
    hide LeafMatches, Resolve;
    if !p.Leaf? {
      forall i | 0 <= i < |p.children|
        ensures Matches(p.children[i], doc, depth + 1) ==> Eval(p.children[i], doc)
      {
        GuardDenies(p.children[i], doc, depth + 1);
      }
    }
  }

  /** With nothing below it the guard cuts nothing off. */
  lemma {:induction false} NothingPruned(p: Predicate, depth: nat)
    requires WithinGuard(p, depth)
    ensures Pruned(p, depth) == p
    decreases p
  {
    if !p.Leaf? {
      var cut := Pruned(p, depth).children;
      forall i | 0 <= i < |p.children|
        ensures cut[i] == p.children[i]
      {
        NothingPruned(p.children[i], depth + 1);
      }
      assert cut == p.children;
    }
  }

  /**
     For every filter the parser accepts and every document: it matches iff it does so with
     what the guard cuts off taken as false. So a match is always right, a denial is wrong iff
     the filter holds of the document on the strength of what was cut off, and there is no
     wrong denial when nothing is.
   */
  lemma AcceptedFilterMeans(filter: Json, doc: Json)
    requires CompileObject(filter, 0).Ok?
    ensures var p := CompileObject(filter, 0).value;
            && (Matches(p, doc, 0) <==> Eval(Pruned(p, 0), doc))
            && (Matches(p, doc, 0) ==> Means(filter, doc))
            && (WithinGuard(p, 0) ==> Matches(p, doc, 0) == Means(filter, doc))
  {
    hide CompileObject, Matches, Means, Eval, WithinGuard, Pruned;
    var p := CompileObject(filter, 0).value;
    ObjectMeaning(filter, 0, doc);
    GuardPrunes(p, doc, 0);
    GuardDenies(p, doc, 0);
    if WithinGuard(p, 0) {
      NothingPruned(p, 0);
    }
  }

  /** Every filter object within, this one at the given depth, is at most at depth `limit`. */
  predicate ObjectsUpTo(obj: Json, depth: nat, limit: nat)
    decreases obj, 1
  {
    depth <= limit &&
    (obj.Obj? ==> forall i :: 0 <= i < |obj.fields| ==> FieldUpTo(obj.fields[i].key, obj.fields[i].value, depth, limit))
  }

  predicate FieldUpTo(key: string, val: Json, depth: nat, limit: nat)
    decreases val, 0
  {
    (key == "$and" || key == "$or") && val.Arr? ==>
      forall i :: 0 <= i < |val.items| ==> ObjectsUpTo(val.items[i], depth + 2, limit)
  }

  const SAFE_DEPTH: nat := 30

  lemma ConjunctionWithin(parts: seq<Predicate>, depth: nat)
    requires depth <= MAX_PREDICATE_DEPTH
    ensures WithinGuard(Conjunction(parts), depth) ==
              if |parts| == 1 then WithinGuard(parts[0], depth)
              else forall i :: 0 <= i < |parts| ==> WithinGuard(parts[i], depth + 1)
  {}

  lemma OperatorsWithin(path: seq<string>, val: Json, depth: nat)
    requires val.Obj? && CompileOperators(path, val.fields).Ok? && depth < MAX_PREDICATE_DEPTH
    ensures WithinGuard(Conjunction(CompileOperators(path, val.fields).value), depth)
  {
    hide CompileOperators;
    var leaves := CompileOperators(path, val.fields).value;
    OperatorsCompiled(path, val.fields);
    forall i | 0 <= i < |leaves|
      ensures leaves[i].Leaf?
    {
      OperatorMeaning(path, val.fields[i].key, val.fields[i].value, Null);
    }
    ConjunctionWithin(leaves, depth);
  }

  /** Objects at most at depth 30 compile to a tree within the guard, entered no deeper than they were parsed. */
  lemma {:induction false} ObjectWithin(obj: Json, depth: nat, m: nat)
    requires CompileObject(obj, depth).Ok? && ObjectsUpTo(obj, depth, SAFE_DEPTH) && m <= depth
    ensures WithinGuard(CompileObject(obj, depth).value, m)
    decreases obj, 1
  {
    hide CompileField, FieldUpTo, WithinGuard, CompileFields, Conjunction;
    var parts := CompileFields(obj, |obj.fields|, depth).value;
    FieldsCompiled(obj, |obj.fields|, depth);
    ConjunctionWithin(parts, m);
    forall i | 0 <= i < |parts|
      ensures WithinGuard(parts[i], m + 1) && WithinGuard(parts[i], m)
    {
      FieldWithin(obj.fields[i].key, obj.fields[i].value, depth, m + 1);
      FieldWithin(obj.fields[i].key, obj.fields[i].value, depth, m);
    }
  }

  lemma {:induction false} FieldWithin(key: string, val: Json, depth: nat, m: nat)
    requires CompileField(key, val, depth).Ok? && FieldUpTo(key, val, depth, SAFE_DEPTH) && m <= depth + 1 <= SAFE_DEPTH + 1
    ensures WithinGuard(CompileField(key, val, depth).value, m)
    decreases val, 0
  {
    hide CompileObject, ObjectsUpTo, SplitPath, CompileOperators, Conjunction, CompileElements;
    if key == "$and" || key == "$or" {
      var parts := CompileElements(val, |val.items|, depth + 1).value;
      ElementsCompiled(val, |val.items|, depth + 1);
      forall i | 0 <= i < |parts|
        ensures WithinGuard(parts[i], m + 1)
      {
        ObjectWithin(val.items[i], depth + 2, m + 1);
      }
    } else if IsOperatorObject(val) {
      OperatorsWithin(SplitPath(key), val, m);
    }
  }

  /** In particular for every filter the parser accepts whose objects are at depth at most 30, and every document. */
  lemma CompiledFilterMeans(filter: Json, doc: Json)
    requires CompileObject(filter, 0).Ok? && ObjectsUpTo(filter, 0, SAFE_DEPTH)
    ensures Matches(CompileObject(filter, 0).value, doc, 0) == Means(filter, doc)
  {
    hide CompileObject, ObjectsUpTo, Matches, Means, WithinGuard, Pruned, Eval;
    ObjectWithin(filter, 0, 0);
    AcceptedFilterMeans(filter, doc);
  }

  // ----- Where the limits part ways -----

  /** Objects with two conjuncts each, nested `n` times in arrays. */
  function Tower(n: nat): Json {
    if n == 0 then Obj([Field("a", Num(1.0)), Field("b", Num(1.0))])
    else Obj([Field("$and", Arr([Tower(n - 1)])), Field("x", Num(1.0))])
  }

  const TOWER_DOC: Json := Obj([Field("a", Num(1.0)), Field("b", Num(1.0)), Field("x", Num(1.0))])

  function One(key: string): Predicate {
    Leaf(Eq, SplitPath(key), Num(1.0), [], true)
  }

  function TowerTree(n: nat): Predicate {
    if n == 0 then And([One("a"), One("b")]) else And([And([TowerTree(n - 1)]), One("x")])
  }

  lemma PlainField(key: string, depth: nat)
    requires key != "$and" && key != "$or"
    ensures CompileField(key, Num(1.0), depth) == Ok(One(key))
  {}

  lemma TwoFields(obj: Json, depth: nat, a: Predicate, b: Predicate)
    requires obj.Obj? && |obj.fields| == 2 && depth <= MAX_PREDICATE_DEPTH
    requires CompileField(obj.fields[0].key, obj.fields[0].value, depth) == Ok(a)
    requires CompileField(obj.fields[1].key, obj.fields[1].value, depth) == Ok(b)
    ensures CompileObject(obj, depth) == Ok(And([a, b]))
  {
    hide CompileField;
    assert CompileFields(obj, 0, depth) == Ok([]);
    var none: seq<Predicate> := [];
    assert none + [a] == [a] && [a] + [b] == [a, b];
    assert CompileFields(obj, 1, depth) == Ok(none + [a]);
    assert CompileFields(obj, 2, depth) == Ok([a] + [b]);
  }

  lemma {:induction false} TowerCompiles(n: nat, depth: nat)
    requires depth + 2 * n <= MAX_PREDICATE_DEPTH
    ensures CompileObject(Tower(n), depth) == Ok(TowerTree(n))
  {
    if n == 0 {
      PlainField("a", depth);
      PlainField("b", depth);
      TwoFields(Tower(0), depth, One("a"), One("b"));
    } else {
      TowerCompiles(n - 1, depth + 2);
      var val := Arr([Tower(n - 1)]);
      assert Tower(n - 1).Obj?;
      assert CompileElements(val, 0, depth + 1) == Ok([]);
      var none: seq<Predicate> := [];
      assert none + [TowerTree(n - 1)] == [TowerTree(n - 1)];
      assert CompileElements(val, 1, depth + 1) == Ok(none + [TowerTree(n - 1)]);
      PlainField("x", depth);
      TwoFields(Tower(n), depth, And([TowerTree(n - 1)]), One("x"));
    }
  }

  lemma SplitPlain()
    ensures SplitPath("a") == ["a"] && SplitPath("b") == ["b"] && SplitPath("x") == ["x"]
    ensures forall key | key == "a" || key == "b" || key == "x" :: Resolve(TOWER_DOC, [key]) == Value(Num(1.0))
  {
    assert "" + ['a'] == "a" && "" + ['b'] == "b" && "" + ['x'] == "x";
    assert "a"[1..] == "" && "b"[1..] == "" && "x"[1..] == "";
    assert SplitFrom("a", "") == ["a"] && SplitFrom("b", "") == ["b"] && SplitFrom("x", "") == ["x"];
    var d := TOWER_DOC.fields;
    assert d[1..][0] == Field("b", Num(1.0)) && d[1..][1..][0] == Field("x", Num(1.0));
    assert Lookup(d, "a") == Value(Num(1.0));
    assert Lookup(d[1..], "b") == Value(Num(1.0));
    assert Lookup(d[1..][1..], "x") == Value(Num(1.0));
    assert Lookup(d[1..], "x") == Value(Num(1.0));
    forall key | key == "a" || key == "b" || key == "x"
      ensures Resolve(TOWER_DOC, [key]) == Value(Num(1.0))
    {
      assert [key][1..] == [];
      assert Resolve(Num(1.0), []) == Value(Num(1.0));
    }
  }

  lemma {:induction false} TowerMeans(n: nat)
    ensures Means(Tower(n), TOWER_DOC)
  {
    hide SplitPath, Resolve;
    SplitPlain();
    if n > 0 {
      TowerMeans(n - 1);
      assert FieldMeans("$and", Arr([Tower(n - 1)]), TOWER_DOC);
    }
  }

  /** The innermost conjuncts lie two levels deeper for each nesting, and one more. */
  lemma {:induction false} TowerMatches(n: nat, m: nat)
    ensures Matches(TowerTree(n), TOWER_DOC, m) <==> m + 2 * n + 1 <= MAX_PREDICATE_DEPTH
  {
    hide SplitPath, Resolve;
    SplitPlain();
    if n == 0 {
      assert TowerTree(0).children[0] == One("a");
    } else {
      TowerMatches(n - 1, m + 2);
      var inner := And([TowerTree(n - 1)]);
      assert inner.children[0] == TowerTree(n - 1);
      assert TowerTree(n).children[0] == inner && TowerTree(n).children[1] == One("x");
      assert Matches(inner, TOWER_DOC, m + 1) ==> Matches(TowerTree(n - 1), TOWER_DOC, m + 2);
    }
  }

  /** With an object at depth 32 the parser still accepts, and the matcher gives up on what it accepted. */
  lemma DeepFilterDiffers()
    ensures CompileObject(Tower(16), 0).Ok?
    ensures Means(Tower(16), TOWER_DOC) && !Matches(CompileObject(Tower(16), 0).value, TOWER_DOC, 0)
  {
    TowerCompiles(16, 0);
    TowerMeans(16);
    TowerMatches(16, 0);
  }
}
