/**
 The loops of the filter parser and matcher (src/metadata.cc), proved to compute
 what the functions of Filters say.
 */
module FilterParser {
  import opened Filters
  import opened FilterLaws

  method SplitPathLoop(key: string) returns (path: seq<string>)
    ensures path == SplitPath(key)
    ensures Join(path) == key && |path| == 1 + Dots(key)
  {
    path := [];
    var start := 0;
    for i := 0 to |key| + 1
      invariant 0 <= start <= |key| + 1 && (i <= |key| ==> start <= i)
      invariant if i <= |key| then path + SplitFrom(key[start..i], key[i..]) == SplitPath(key)
                else path == SplitPath(key)
    {
      if i == |key| || key[i] == '.' {
        path := path + [key[start..i]];
        start := i + 1;
        if i < |key| {
          assert key[i..][1..] == key[i + 1..] && key[i + 1..i + 1] == "";
        }
      } else {
        assert key[i..][1..] == key[i + 1..] && key[start..i] + [key[i]] == key[start..i + 1];
      }
    }
    SplitIsInverse(key);
  }

  method ResolveLoop(doc: Json, path: seq<string>) returns (v: Found)
    ensures v == Resolve(doc, path)
  {
    var cur := doc;
    for k := 0 to |path|
      invariant Resolve(doc, path) == Resolve(cur, path[k..])
    {
      assert path[k..][0] == path[k] && path[k..][1..] == path[k + 1..];
      if !cur.Obj? {
        return Missing;
      }
      var next := Lookup(cur.fields, path[k]);
      if next.Missing? {
        return Missing;
      }
      cur := next.json;
    }
    return Value(cur);
  }

  /** One leaf per operator of an operator object. */
  method ParseOperatorObject(path: seq<string>, obj: Json) returns (r: Result<Predicate>)
    requires obj.Obj?
    ensures r == var leaves := CompileOperators(path, obj.fields);
                 if leaves.Err? then Err(leaves.error) else Ok(Conjunction(leaves.value))
  {
    hide CompileOperator;
    var leaves: seq<Predicate> := [];
    for i := 0 to |obj.fields|
      invariant CompileOperators(path, obj.fields[..i]) == Ok(leaves)
    {
      assert obj.fields[..i + 1][..i] == obj.fields[..i];
      var leaf := CompileOperator(path, obj.fields[i].key, obj.fields[i].value);
      if leaf.Err? {
        OperatorsStop(path, obj.fields, i + 1);
        return Err(leaf.error);
      }
      leaves := leaves + [leaf.value];
    }
    assert obj.fields[..|obj.fields|] == obj.fields;
    return Ok(if |leaves| == 1 then leaves[0] else And(leaves));
  }

  /** The first error decides. */
  lemma {:induction false} OperatorsStop(path: seq<string>, fields: seq<Field>, n: nat)
    requires n <= |fields| && CompileOperators(path, fields[..n]).Err?
    ensures CompileOperators(path, fields) == CompileOperators(path, fields[..n])
    decreases |fields|
  {
    hide CompileOperator;
    if n < |fields| {
      assert fields[..|fields| - 1][..n] == fields[..n];
      OperatorsStop(path, fields[..|fields| - 1], n);
    } else {
      assert fields[..n] == fields;
    }
  }

  lemma {:induction false} FieldsStop(obj: Json, n: nat, k: nat, depth: nat)
    requires obj.Obj? && n <= k <= |obj.fields| && CompileFields(obj, n, depth).Err?
    ensures CompileFields(obj, k, depth) == CompileFields(obj, n, depth)
  {
    hide CompileField;
    if n < k {
      FieldsStop(obj, n, k - 1, depth);
    }
  }

  lemma {:induction false} ElementsStop(arr: Json, n: nat, k: nat, depth: nat)
    requires arr.Arr? && n <= k <= |arr.items| && CompileElements(arr, n, depth).Err?
    ensures CompileElements(arr, k, depth) == CompileElements(arr, n, depth)
  {
    hide CompileObject;
    if n < k {
      ElementsStop(arr, n, k - 1, depth);
    }
  }

  method ParseLogicalArray(arr: Json, isAnd: bool, depth: nat) returns (r: Result<Predicate>)
    ensures r == CompileLogical(isAnd, arr, depth)
    decreases arr, 1
  {
    hide CompileObject;
    if depth > MAX_PREDICATE_DEPTH {
      return Err(TooDeep);
    }
    if !arr.Arr? {
      return Err(LogicalNeedsArray);
    }
    var children: seq<Predicate> := [];
    for i := 0 to |arr.items|
      invariant CompileElements(arr, i, depth) == Ok(children)
    {
      if !arr.items[i].Obj? {
        ElementsStop(arr, i + 1, |arr.items|, depth);
        return Err(ElementNotObject);
      }
      var child := ParseObject(arr.items[i], depth + 1);
      if child.Err? {
        ElementsStop(arr, i + 1, |arr.items|, depth);
        return Err(child.error);
      }
      children := children + [child.value];
    }
    return Ok(if isAnd then And(children) else Or(children));
  }

  /** Finds out whether an object has operator keys and others. */
  method ClassifyKeys(val: Json) returns (isOperatorObject: bool, mixed: bool)
    ensures isOperatorObject == IsOperatorObject(val) && mixed == IsMixed(val)
  {
    isOperatorObject, mixed := false, false;
    if !val.Obj? || val.fields == [] {
      return;
    }
    isOperatorObject := true;
    var hasOp, hasNonOp := false, false;
    for i := 0 to |val.fields|
      invariant hasOp == exists j :: 0 <= j < i && IsOperatorKey(val.fields[j].key)
      invariant hasNonOp == exists j :: 0 <= j < i && !IsOperatorKey(val.fields[j].key)
      invariant isOperatorObject == !hasNonOp
    {
      if val.fields[i].key != "" && val.fields[i].key[0] == '$' {
        hasOp := true;
      } else {
        hasNonOp := true;
        isOperatorObject := false;
      }
    }
    mixed := hasOp && hasNonOp;
  }

  method ParseField(key: string, val: Json, depth: nat) returns (r: Result<Predicate>)
    ensures r == CompileField(key, val, depth)
    decreases val, 2
  {
    hide CompileLogical, CompileOperators;
    if key == "$and" || key == "$or" {
      r := ParseLogicalArray(val, key == "$and", depth + 1);
      return;
    }
    var path := SplitPathLoop(key);
    var isOperatorObject, mixed := ClassifyKeys(val);
    if mixed {
      return Err(MixedKeys);
    }
    if isOperatorObject {
      r := ParseOperatorObject(path, val);
      return;
    }
    return Ok(Leaf(Eq, path, val, [], true));
  }

  method ParseObject(obj: Json, depth: nat) returns (r: Result<Predicate>)
    ensures r == CompileObject(obj, depth)
    decreases obj, 1
  {
    hide CompileField;
    if depth > MAX_PREDICATE_DEPTH {
      return Err(TooDeep);
    }
    if !obj.Obj? {
      return Err(NotAnObject);
    }
    var conjuncts: seq<Predicate> := [];
    for i := 0 to |obj.fields|
      invariant CompileFields(obj, i, depth) == Ok(conjuncts)
    {
      var child := ParseField(obj.fields[i].key, obj.fields[i].value, depth);
      if child.Err? {
        FieldsStop(obj, i + 1, |obj.fields|, depth);
        return Err(child.error);
      }
      conjuncts := conjuncts + [child.value];
    }
    return Ok(if |conjuncts| == 1 then conjuncts[0] else And(conjuncts));
  }

  method ContainsAnyLoop(values: seq<Json>, items: seq<Json>) returns (r: bool)
    ensures r == exists i :: 0 <= i < |values| && values[i] in items
  {
    for i := 0 to |values|
      invariant forall j :: 0 <= j < i ==> values[j] !in items
    {
      for k := 0 to |items|
        invariant forall j :: 0 <= j < k ==> items[j] != values[i]
      {
        if items[k] == values[i] {
          return true;
        }
      }
    }
    return false;
  }

  method ContainsAllLoop(values: seq<Json>, items: seq<Json>) returns (r: bool)
    ensures r == forall i :: 0 <= i < |values| ==> values[i] in items
  {
    for i := 0 to |values|
      invariant forall j :: 0 <= j < i ==> values[j] in items
    {
      var found := false;
      for k := 0 to |items|
        invariant found == (values[i] in items[..k])
      {
        assert items[..k + 1] == items[..k] + [items[k]];
        if items[k] == values[i] {
          found := true;
        }
      }
      assert items[..|items|] == items;
      if !found {
        return false;
      }
    }
    return true;
  }

  method LeafLoop(p: Predicate, v: Found) returns (r: bool)
    requires p.Leaf?
    ensures r == LeafMatches(p, v)
  {
    match p.kind {
      case ContainsAny =>
        if v.Missing? || !v.json.Arr? {
          return false;
        }
        r := ContainsAnyLoop(p.values, v.json.items);
      case ContainsAll =>
        if v.Missing? || !v.json.Arr? {
          return false;
        }
        r := ContainsAllLoop(p.values, v.json.items);
      case _ => r := LeafMatches(p, v);
    }
  }

  method MatchesWithDepth(p: Predicate, doc: Json, depth: nat) returns (r: bool)
    ensures r == Matches(p, doc, depth)
    decreases p
  {
    if depth > MAX_PREDICATE_DEPTH {
      return false;
    }
    match p {
      case Leaf(_, path, _, _, _) =>
        var v := ResolveLoop(doc, path);
        r := LeafLoop(p, v);
      case And(children) =>
        for i := 0 to |children|
          invariant forall j :: 0 <= j < i ==> Matches(children[j], doc, depth + 1)
        {
          var one := MatchesWithDepth(children[i], doc, depth + 1);
          if !one {
            return false;
          }
        }
        return true;
      case Or(children) =>
        for i := 0 to |children|
          invariant forall j :: 0 <= j < i ==> !Matches(children[j], doc, depth + 1)
        {
          var one := MatchesWithDepth(children[i], doc, depth + 1);
          if one {
            return true;
          }
        }
        return false;
    }
  }

  /**
     Parsed and matched: an accepted filter never matches a document it does not hold of. It
     decides as it reads if the compiled tree stays within the matcher's guard, as it does when
     its objects are at depth at most 30; beyond that, as it reads with the rest taken as false.
   */
  method FilterMatches(filter: Json, doc: Json) returns (accepted: bool, r: bool)
    ensures accepted == CompileObject(filter, 0).Ok? == Acceptable(filter, 0)
    ensures accepted ==> r == Eval(Pruned(CompileObject(filter, 0).value, 0), doc)
    ensures r ==> accepted && Means(filter, doc)
    ensures accepted && WithinGuard(CompileObject(filter, 0).value, 0) ==> r == Means(filter, doc)
    ensures accepted && ObjectsUpTo(filter, 0, SAFE_DEPTH) ==> WithinGuard(CompileObject(filter, 0).value, 0)
  {
    hide CompileObject, Matches, Means, ObjectsUpTo, WithinGuard, Pruned, Eval, Acceptable;
    AcceptedIff(filter, 0);
    var parsed := ParseObject(filter, 0);
    if parsed.Err? {
      return false, false;
    }
    r := MatchesWithDepth(parsed.value, doc, 0);
    AcceptedFilterMeans(filter, doc);
    if ObjectsUpTo(filter, 0, SAFE_DEPTH) {
      ObjectWithin(filter, 0, 0);
    }
    return true, r;
  }
}
