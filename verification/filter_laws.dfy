/**
 What filters say, in the plainest terms (src/metadata.cc): which filters are accepted,
 which value a path leads to, how values are ordered, and what each operator says of a
 value.
 */
module FilterLaws {
  import opened Filters

  // ----- Paths -----

  /** The first field of that name. */
  ghost predicate FirstField(fields: seq<Field>, key: string, i: nat) {
    i < |fields| && fields[i].key == key && forall j :: 0 <= j < i ==> fields[j].key != key
  }

  lemma {:induction false} LookupIs(fields: seq<Field>, key: string)
    ensures Lookup(fields, key).Missing? <==> forall i :: 0 <= i < |fields| ==> fields[i].key != key
    ensures forall i: nat :: FirstField(fields, key, i) ==> Lookup(fields, key) == Value(fields[i].value)
  {
    if fields != [] {
      LookupIs(fields[1..], key);
      assert forall i :: 0 < i < |fields| ==> fields[i] == fields[1..][i - 1];
      forall i: nat | FirstField(fields, key, i)
        ensures Lookup(fields, key) == Value(fields[i].value)
      {
        if i > 0 {
          assert fields[0].key != key;
          assert FirstField(fields[1..], key, i - 1);
        }
      }
    }
  }

  ghost predicate FieldIs(doc: Json, key: string, x: Json) {
    doc.Obj? && exists i: nat :: FirstField(doc.fields, key, i) && doc.fields[i].value == x
  }

  /** The documents passed through: each is an object with the next as the field named by the next part. */
  ghost predicate Trail(docs: seq<Json>, path: seq<string>) {
    |docs| == |path| + 1 && forall i :: 0 <= i < |path| ==> FieldIs(docs[i], path[i], docs[i + 1])
  }

  ghost predicate LeadsTo(doc: Json, path: seq<string>, x: Json) {
    exists docs :: Trail(docs, path) && docs[0] == doc && docs[|path|] == x
  }

  lemma LookupField(doc: Json, key: string, x: Json)
    requires doc.Obj?
    ensures Lookup(doc.fields, key) == Value(x) <==> FieldIs(doc, key, x)
  {
    LookupIs(doc.fields, key);
    if Lookup(doc.fields, key) == Value(x) {
      var i := FirstWith(doc.fields, key);
      assert FirstField(doc.fields, key, i);
    }
  }

  lemma {:induction false} FirstWith(fields: seq<Field>, key: string) returns (i: nat)
    requires exists j :: 0 <= j < |fields| && fields[j].key == key
    ensures FirstField(fields, key, i)
  {
    i := 0;
    while fields[i].key != key
      invariant i < |fields| && forall j :: 0 <= j < i ==> fields[j].key != key
      decreases |fields| - i
    {
      i := i + 1;
    }
  }

  /** A value is found iff each part of the path is a field of an object on the way to it. */
  lemma {:induction false} ResolveIs(doc: Json, path: seq<string>, x: Json)
    ensures Resolve(doc, path) == Value(x) <==> LeadsTo(doc, path, x)
    decreases |path|
  {
    hide FieldIs;
    if path == [] {
      assert Resolve(doc, path) == Value(x) ==> Trail([doc], path);
    } else if doc.Obj? {
      var next := Lookup(doc.fields, path[0]);
      if next.Value? {
        LookupField(doc, path[0], next.json);
        ResolveIs(next.json, path[1..], x);
      }
      if next.Value? && LeadsTo(next.json, path[1..], x) {
        var docs :| Trail(docs, path[1..]) && docs[0] == next.json && docs[|path| - 1] == x;
        FirstPart(doc, docs, path);
      }
      if LeadsTo(doc, path, x) {
        var docs :| Trail(docs, path) && docs[0] == doc && docs[|path|] == x;
        assert FieldIs(docs[0], path[0], docs[0 + 1]);
        LookupField(doc, path[0], docs[1]);
        RestOfTrail(docs, path);
        assert LeadsTo(docs[1], path[1..], x);
      }
    } else {
      if LeadsTo(doc, path, x) {
        var docs :| Trail(docs, path) && docs[0] == doc && docs[|path|] == x;
        assert FieldIs(docs[0], path[0], docs[0 + 1]);
        OnlyObjects(doc, path[0], docs[1]);
      }
    }
  }

  lemma OnlyObjects(doc: Json, key: string, x: Json)
    requires FieldIs(doc, key, x)
    ensures doc.Obj?
  {}

  lemma FirstPart(doc: Json, docs: seq<Json>, path: seq<string>)
    requires path != [] && Trail(docs, path[1..]) && FieldIs(doc, path[0], docs[0])
    ensures Trail([doc] + docs, path)
  {
    hide FieldIs;
    var all := [doc] + docs;
    forall i | 0 <= i < |path|
      ensures FieldIs(all[i], path[i], all[i + 1])
    {
      if i > 0 {
        assert FieldIs(docs[i - 1], path[1..][i - 1], docs[i - 1 + 1]);
      }
    }
  }

  lemma RestOfTrail(docs: seq<Json>, path: seq<string>)
    requires path != [] && Trail(docs, path)
    ensures Trail(docs[1..], path[1..])
  {
    hide FieldIs;
    forall i | 0 <= i < |path| - 1
      ensures FieldIs(docs[1..][i], path[1..][i], docs[1..][i + 1])
    {
      assert FieldIs(docs[i + 1], path[i + 1], docs[i + 1 + 1]);
    }
  }

  // ----- The order of values -----

  /** At position `n` the first string has ended or has the smaller character, and up to there they are equal. */
  ghost predicate DiffersAt(a: string, b: string, n: nat) {
    n <= |a| && n < |b| && a[..n] == b[..n] && (n == |a| || a[n] < b[n])
  }

  ghost predicate Precedes(a: string, b: string) {
    exists n: nat :: DiffersAt(a, b, n)
  }

  /** A proper prefix, or the smaller character where the two first differ. */
  lemma {:induction false} StrLessIs(a: string, b: string)
    ensures StrLess(a, b) <==> Precedes(a, b)
    decreases |a|
  {
    if StrLess(a, b) {
      if a == [] || a[0] < b[0] {
        assert DiffersAt(a, b, 0);
      } else {
        StrLessIs(a[1..], b[1..]);
        var n: nat :| DiffersAt(a[1..], b[1..], n);
        assert a[..n + 1] == [a[0]] + a[1..][..n] && b[..n + 1] == [b[0]] + b[1..][..n];
        assert DiffersAt(a, b, n + 1);
      }
    }
    if Precedes(a, b) {
      var n: nat :| DiffersAt(a, b, n);
      if n > 0 {
        assert a[0] == a[..n][0] == b[..n][0] == b[0];
        assert a[1..][..n - 1] == a[..n][1..] && b[1..][..n - 1] == b[..n][1..];
        assert DiffersAt(a[1..], b[1..], n - 1);
        StrLessIs(a[1..], b[1..]);
      }
    }
  }

  predicate ExactlyOne(p: bool, q: bool, r: bool) {
    (p && !q && !r) || (!p && q && !r) || (!p && !q && r)
  }

  lemma {:induction false} StringsCompare(a: string, b: string)
    ensures ExactlyOne(StrLess(a, b), a == b, StrLess(b, a))
    decreases |a|
  {
    if a != [] && b != [] {
      StringsCompare(a[1..], b[1..]);
      assert a == [a[0]] + a[1..] && b == [b[0]] + b[1..];
    }
  }

  /** Of two values of a kind, one is less, or they are equal, or the other is less; the weak operators add equality. */
  lemma OrderingOperators(x: Json, arg: Json)
    requires SameOrderingKind(x, arg)
    ensures var v := Value(x);
            && ExactlyOne(Holds("$lt", arg, v), Holds("$eq", arg, v), Holds("$gt", arg, v))
            && (Holds("$lte", arg, v) <==> Holds("$lt", arg, v) || Holds("$eq", arg, v))
            && (Holds("$gte", arg, v) <==> Holds("$gt", arg, v) || Holds("$eq", arg, v))
            && (Holds("$eq", arg, v) <==> x == arg)
    ensures x.Num? ==> (Holds("$lt", arg, Value(x)) <==> x.n < arg.n) && (Holds("$gt", arg, Value(x)) <==> x.n > arg.n)
    ensures x.Str? ==> (Holds("$lt", arg, Value(x)) <==> Precedes(x.s, arg.s))
                       && (Holds("$gt", arg, Value(x)) <==> Precedes(arg.s, x.s))
  {
    if x.Str? {
      StringsCompare(x.s, arg.s);
      StrLessIs(x.s, arg.s);
      StrLessIs(arg.s, x.s);
    }
  }

  /** Numbers are ordered against numbers and strings against strings only; what is missing is not ordered. */
  lemma UnorderedOperators(v: Found, arg: Json)
    requires v.Missing? || !((v.json.Num? && arg.Num?) || (v.json.Str? && arg.Str?))
    ensures !Holds("$lt", arg, v) && !Holds("$lte", arg, v) && !Holds("$gt", arg, v) && !Holds("$gte", arg, v)
  {}

  /** The other operators, by equality and by each other. */
  lemma MembershipOperators(v: Found, arg: Json)
    ensures Holds("$eq", arg, v) <==> v.Value? && v.json == arg
    ensures Holds("$ne", arg, v) <==> !Holds("$eq", arg, v)
    ensures arg.Arr? ==> (Holds("$in", arg, v) <==> exists i :: 0 <= i < |arg.items| && Holds("$eq", arg.items[i], v))
    ensures arg.Arr? ==> (Holds("$nin", arg, v) <==> !Holds("$in", arg, v))
    ensures Holds("$exists", Bool(true), v) <==> v.Value?
    ensures Holds("$exists", Bool(false), v) <==> v.Missing?
  {
    if arg.Arr? {
      if v.Value? && v.json in arg.items {
        var i :| 0 <= i < |arg.items| && arg.items[i] == v.json;
        assert Holds("$eq", arg.items[i], v);
      }
      if i :| 0 <= i < |arg.items| && Holds("$eq", arg.items[i], v) {
        assert v.json in arg.items;
      }
    }
  }

  /** What a list must have: one of the values named, or all of them. */
  lemma ContainmentOperators(v: Found, args: seq<Json>)
    ensures Holds("$contains_any", Arr(args), v) <==>
              v.Value? && v.json.Arr? && exists i, k :: 0 <= i < |args| && 0 <= k < |v.json.items| && args[i] == v.json.items[k]
    ensures Holds("$contains_all", Arr(args), v) <==>
              v.Value? && v.json.Arr? && forall i :: 0 <= i < |args| ==> exists k :: 0 <= k < |v.json.items| && args[i] == v.json.items[k]
  {
    if v.Value? && v.json.Arr? {
      var items := v.json.items;
      forall x
        ensures x in items <==> exists k :: 0 <= k < |items| && x == items[k]
      {}
      if Holds("$contains_any", Arr(args), v) {
        var i :| 0 <= i < |args| && args[i] in items;
        var k :| 0 <= k < |items| && items[k] == args[i];
        assert args[i] == items[k];
      }
      if i, k :| 0 <= i < |args| && 0 <= k < |items| && args[i] == items[k] {
        assert args[i] in items;
      }
    }
  }

  // ----- Whole filters -----

  /** Operators are the keys that start with a dollar sign. */
  lemma OperatorKeys(key: string)
    ensures IsOperatorKey(key) <==> exists rest :: key == "$" + rest
  {
    if IsOperatorKey(key) {
      assert key == "$" + key[1..];
    }
  }

  /** One field with one operator says what the operator says of the value its path leads to. */
  lemma OneOperator(key: string, op: string, arg: Json, doc: Json)
    requires key != "$and" && key != "$or" && IsOperatorKey(op)
    ensures Means(Obj([Field(key, Obj([Field(op, arg)]))]), doc) <==> Holds(op, arg, Resolve(doc, SplitPath(key)))
  {
    hide Holds, Resolve, SplitPath;
    var val := Obj([Field(op, arg)]);
    assert IsOperatorObject(val);
    var filter := Obj([Field(key, val)]);
    assert filter.fields[0] == Field(key, val) && val.fields[0] == Field(op, arg);
    assert Means(filter, doc) <==> FieldMeans(key, val, doc);
  }

  /** A number asked to be greater, at least, less or at most. */
  lemma NumberFilter(key: string, arg: real, doc: Json, x: real)
    requires key != "$and" && key != "$or" && LeadsTo(doc, SplitPath(key), Num(x))
    ensures Means(Obj([Field(key, Obj([Field("$gt", Num(arg))]))]), doc) <==> x > arg
    ensures Means(Obj([Field(key, Obj([Field("$gte", Num(arg))]))]), doc) <==> x >= arg
    ensures Means(Obj([Field(key, Obj([Field("$lt", Num(arg))]))]), doc) <==> x < arg
    ensures Means(Obj([Field(key, Obj([Field("$lte", Num(arg))]))]), doc) <==> x <= arg
  {
    hide Means, Holds, SplitPath, Resolve, LeadsTo;
    ResolveIs(doc, SplitPath(key), Num(x));
    OneOperator(key, "$gt", Num(arg), doc);
    OneOperator(key, "$gte", Num(arg), doc);
    OneOperator(key, "$lt", Num(arg), doc);
    OneOperator(key, "$lte", Num(arg), doc);
    OrderingOperators(Num(x), Num(arg));
  }

  /** Fields are a conjunction. */
  lemma FieldsJoin(a: Json, b: Json, doc: Json)
    requires a.Obj? && b.Obj?
    ensures Means(Obj(a.fields + b.fields), doc) <==> Means(a, doc) && Means(b, doc)
  {
    hide FieldMeans;
    var both := Obj(a.fields + b.fields);
    forall i | 0 <= i < |a.fields|
      ensures both.fields[i] == a.fields[i]
    {}
    forall i | 0 <= i < |b.fields|
      ensures both.fields[|a.fields| + i] == b.fields[i]
    {}
  }

  /** The two connectives mean what their names say, of two filters and of none. */
  lemma Connectives(a: Json, b: Json, doc: Json)
    ensures Means(Obj([Field("$and", Arr([a, b]))]), doc) <==> Means(a, doc) && Means(b, doc)
    ensures Means(Obj([Field("$or", Arr([a, b]))]), doc) <==> Means(a, doc) || Means(b, doc)
    ensures Means(Obj([]), doc) && Means(Obj([Field("$and", Arr([]))]), doc) && !Means(Obj([Field("$or", Arr([]))]), doc)
  {
    OneField("$and", Arr([a, b]), doc);
    OneField("$or", Arr([a, b]), doc);
    OneField("$and", Arr([]), doc);
    OneField("$or", Arr([]), doc);
    PairMeans(a, b, doc);
    hide FieldMeans;
  }

  lemma PairMeans(a: Json, b: Json, doc: Json)
    ensures FieldMeans("$and", Arr([a, b]), doc) <==> Means(a, doc) && Means(b, doc)
    ensures FieldMeans("$or", Arr([a, b]), doc) <==> Means(a, doc) || Means(b, doc)
    ensures FieldMeans("$and", Arr([]), doc) && !FieldMeans("$or", Arr([]), doc)
  {
    hide Means, IsOperatorObject, OperatorsMean, Resolve, SplitPath;
    var pair := Arr([a, b]);
    assert pair.items[0] == a && pair.items[1] == b;
  }

  lemma OneField(key: string, val: Json, doc: Json)
    ensures Means(Obj([Field(key, val)]), doc) <==> FieldMeans(key, val, doc)
  {
    hide FieldMeans;
    var filter := Obj([Field(key, val)]);
    assert filter.fields[0] == Field(key, val);
  }

  // ----- Acceptance -----

  predicate KnownOperator(op: string) {
    op in {"$eq", "$ne", "$gt", "$gte", "$lt", "$lte", "$in", "$nin", "$contains_any", "$contains_all", "$exists"}
  }

  /** The operators on lists take a list, `$exists` a truth value, and the others anything. */
  predicate ProperArgument(op: string, arg: Json) {
    && (op in {"$in", "$nin", "$contains_any", "$contains_all"} ==> arg.Arr?)
    && (op == "$exists" ==> arg.Bool?)
  }

  /** A field's value with an operator among its keys has known operators only, each with a proper argument. */
  predicate AcceptableValue(val: Json) {
    val.Obj? && (exists i :: 0 <= i < |val.fields| && IsOperatorKey(val.fields[i].key)) ==>
      forall i :: 0 <= i < |val.fields| ==> KnownOperator(val.fields[i].key) && ProperArgument(val.fields[i].key, val.fields[i].value)
  }

  /** A filter may be accepted at this depth: an object, not too deep, and all of its fields may. */
  predicate Acceptable(obj: Json, depth: nat)
    decreases obj, 1
  {
    depth <= 32 && obj.Obj? &&
    forall i :: 0 <= i < |obj.fields| ==> AcceptableField(obj.fields[i].key, obj.fields[i].value, depth)
  }

  predicate AcceptableField(key: string, val: Json, depth: nat)
    decreases val, 0
  {
    if key == "$and" || key == "$or" then
      depth + 1 <= 32 && val.Arr? && forall i :: 0 <= i < |val.items| ==> Acceptable(val.items[i], depth + 2)
    else AcceptableValue(val)
  }

  lemma OperatorAccepted(path: seq<string>, op: string, arg: Json)
    ensures CompileOperator(path, op, arg).Ok? <==> KnownOperator(op) && ProperArgument(op, arg)
  {}

  lemma {:induction false} OperatorsAccepted(path: seq<string>, fields: seq<Field>)
    ensures CompileOperators(path, fields).Ok? <==>
              forall i :: 0 <= i < |fields| ==> KnownOperator(fields[i].key) && ProperArgument(fields[i].key, fields[i].value)
  {
    hide CompileOperator, KnownOperator, ProperArgument;
    if fields != [] {
      var front, last := fields[..|fields| - 1], fields[|fields| - 1];
      OperatorsAccepted(path, front);
      OperatorAccepted(path, last.key, last.value);
      assert forall i :: 0 <= i < |front| ==> front[i] == fields[i];
    }
  }

  lemma KnownIsOperator(op: string)
    requires KnownOperator(op)
    ensures IsOperatorKey(op)
  {}

  lemma ValueAccepted(path: seq<string>, val: Json)
    ensures AcceptableValue(val) <==>
              !IsMixed(val) && (IsOperatorObject(val) ==> CompileOperators(path, val.fields).Ok?)
  {
    hide KnownOperator, ProperArgument, IsOperatorKey, CompileOperators;
    if val.Obj? {
      OperatorsAccepted(path, val.fields);
      forall i | 0 <= i < |val.fields| && KnownOperator(val.fields[i].key)
        ensures IsOperatorKey(val.fields[i].key)
      {
        KnownIsOperator(val.fields[i].key);
      }
    }
  }

  /** The parser accepts exactly the filters that read well and are not nested too deep. */
  lemma {:induction false} AcceptedIff(obj: Json, depth: nat)
    ensures CompileObject(obj, depth).Ok? <==> Acceptable(obj, depth)
    decreases obj, 1
  {
    hide CompileField, AcceptableField;
    if depth <= 32 && obj.Obj? {
      forall i | 0 <= i < |obj.fields|
        ensures CompileField(obj.fields[i].key, obj.fields[i].value, depth).Ok? <==>
                AcceptableField(obj.fields[i].key, obj.fields[i].value, depth)
      {
        FieldAcceptedIff(obj.fields[i].key, obj.fields[i].value, depth);
      }
      FieldsAccepted(obj, |obj.fields|, depth);
    }
  }

  lemma {:induction false} FieldsAccepted(obj: Json, n: nat, depth: nat)
    requires obj.Obj? && n <= |obj.fields|
    ensures CompileFields(obj, n, depth).Ok? <==>
              forall i :: 0 <= i < n ==> CompileField(obj.fields[i].key, obj.fields[i].value, depth).Ok?
  {
    hide CompileField;
    if n > 0 {
      FieldsAccepted(obj, n - 1, depth);
    }
  }

  lemma {:induction false} ElementsAccepted(arr: Json, n: nat, depth: nat)
    requires arr.Arr? && n <= |arr.items|
    ensures CompileElements(arr, n, depth).Ok? <==>
              forall i :: 0 <= i < n ==> arr.items[i].Obj? && CompileObject(arr.items[i], depth + 1).Ok?
  {
    hide CompileObject;
    if n > 0 {
      ElementsAccepted(arr, n - 1, depth);
    }
  }

  lemma {:induction false} FieldAcceptedIff(key: string, val: Json, depth: nat)
    ensures CompileField(key, val, depth).Ok? <==> AcceptableField(key, val, depth)
    decreases val, 0
  {
    hide CompileObject, CompileOperators, AcceptableValue, IsMixed, IsOperatorObject, Conjunction, SplitPath;
    if key == "$and" || key == "$or" {
      if depth + 1 <= 32 && val.Arr? {
        forall i | 0 <= i < |val.items|
          ensures CompileObject(val.items[i], depth + 2).Ok? <==> Acceptable(val.items[i], depth + 2)
        {
          AcceptedIff(val.items[i], depth + 2);
        }
        ElementsAccepted(val, |val.items|, depth + 1);
      }
    } else {
      ValueAccepted(SplitPath(key), val);
    }
  }
}
