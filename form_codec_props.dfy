/** What `unFlattenForm` and `cleanArrays` do, stated over the model in FormCodec. */
module FormCodecProps {
  import opened JsValues
  import opened TreePaths
  import opened FormCodec

  // ---------------------------------------------------------------------------
  // Splitting keys

  lemma {:induction false} SplitWithoutComma(a: string)
    requires ',' !in a
    ensures SplitComma(a) == [a]
    decreases |a|
  {
    if |a| > 0 {
      assert ',' !in a[1..] by {
        forall j | 0 <= j < |a[1..]| ensures a[1..][j] != ',' {
          assert a[1..][j] == a[j + 1];
        }
      }
      SplitWithoutComma(a[1..]);
      assert [a[0]] + a[1..] == a;
    }
  }

  lemma {:induction false} SplitAtFirstComma(a: string, b: string)
    requires ',' !in a
    ensures SplitComma(a + "," + b) == [a] + SplitComma(b)
    decreases |a|
  {
    var s := a + "," + b;
    if |a| == 0 {
      assert s[0] == ',' && s[1..] == b;
    } else {
      assert s[0] == a[0] && s[1..] == a[1..] + "," + b;
      assert ',' !in a[1..] by {
        forall j | 0 <= j < |a[1..]| ensures a[1..][j] != ',' {
          assert a[1..][j] == a[j + 1];
        }
      }
      SplitAtFirstComma(a[1..], b);
      assert [a[0]] + a[1..] == a;
    }
  }

  /** Splitting a comma-join of comma-free segments gives the segments back (the other
      direction, join after split, is part of SplitComma's contract). */
  lemma {:induction false} SplitJoin(parts: seq<string>)
    requires |parts| >= 1 && forall j :: 0 <= j < |parts| ==> ',' !in parts[j]
    ensures SplitComma(JoinComma(parts)) == parts
    decreases |parts|
  {
    if |parts| == 1 {
      SplitWithoutComma(parts[0]);
    } else {
      SplitJoin(parts[1..]);
      SplitAtFirstComma(parts[0], JoinComma(parts[1..]));
      assert [parts[0]] + parts[1..] == parts;
    }
  }

  /** A two-segment key splits into its segments. */
  lemma SplitPair(a: string, b: string)
    requires ',' !in a && ',' !in b
    ensures SplitComma(a + "," + b) == [a, b]
  {
    SplitAtFirstComma(a, b);
    SplitWithoutComma(b);
  }

  // ---------------------------------------------------------------------------
  // The walk phase, entry by entry

  /** A form with one entry is that entry's walk from the empty object. */
  lemma BuildOne(k: string, v: JsVal)
    ensures Build([(k, v)]) == Walk(Obj(map[]), SplitComma(k), 0, v)
  {
    assert [(k, v)][..0] == [];
  }

  /** One more entry walks from the result of the earlier ones, unless they failed. */
  lemma BuildSnoc(entries: seq<(string, JsVal)>, k: string, v: JsVal)
    ensures Build(entries + [(k, v)]) ==
      match Build(entries)
      case Err(e) => Err(e)
      case Ok(t) => Walk(t, SplitComma(k), 0, v)
  {
    assert (entries + [(k, v)])[..|entries|] == entries;
  }

  // ---------------------------------------------------------------------------
  // Single-segment keys

  /** The plain record a sequence of entries denotes (a later key overwrites). */
  function RecordOf(entries: seq<(string, JsVal)>): map<string, JsVal>
    decreases |entries|
  {
    if entries == [] then map[]
    else
      var last := entries[|entries| - 1];
      RecordOf(entries[..|entries| - 1])[last.0 := last.1]
  }

  predicate DistinctKeys(entries: seq<(string, JsVal)>) {
    forall i, j :: 0 <= i < j < |entries| ==> entries[i].0 != entries[j].0
  }

  /** The record's keys are exactly the entries' keys. */
  lemma {:induction false} RecordOfKeys(entries: seq<(string, JsVal)>)
    ensures forall k :: k in RecordOf(entries) <==> exists j :: 0 <= j < |entries| && entries[j].0 == k
    decreases |entries|
  {
    if entries != [] {
      var n := |entries| - 1;
      var init := entries[..n];
      RecordOfKeys(init);
      forall j | 0 <= j < |entries| ensures entries[j].0 in RecordOf(entries) {
        if j < n {
          assert init[j] == entries[j];
        }
      }
      forall k | k in RecordOf(entries) ensures exists j :: 0 <= j < |entries| && entries[j].0 == k {
        if k != entries[n].0 {
          assert k in RecordOf(init);
          var j :| 0 <= j < |init| && init[j].0 == k;
          assert entries[j].0 == k;
        }
      }
    }
  }

  /** With distinct keys, the record holds each entry's key with that entry's value and
      no other key. */
  lemma {:induction false} RecordOfEntries(entries: seq<(string, JsVal)>)
    requires DistinctKeys(entries)
    ensures forall k :: k in RecordOf(entries) <==> exists j :: 0 <= j < |entries| && entries[j].0 == k
    ensures forall j :: 0 <= j < |entries| ==> RecordOf(entries)[entries[j].0] == entries[j].1
    decreases |entries|
  {
    RecordOfKeys(entries);
    if entries != [] {
      var n := |entries| - 1;
      var init := entries[..n];
      assert DistinctKeys(init);
      RecordOfEntries(init);
      forall j | 0 <= j < |entries| ensures RecordOf(entries)[entries[j].0] == entries[j].1 {
        if j < n {
          assert entries[j] == init[j] && entries[j].0 != entries[n].0;
          assert RecordOf(entries)[entries[j].0] == RecordOf(init)[init[j].0];
        }
      }
    }
  }

  /** Keys without a comma write their value straight into the result, as a plain record. */
  lemma {:induction false} BuildFlatKeys(entries: seq<(string, JsVal)>)
    requires forall j :: 0 <= j < |entries| ==> ',' !in entries[j].0
    ensures Build(entries) == Ok(Obj(RecordOf(entries)))
    decreases |entries|
  {
    if entries != [] {
      var n := |entries| - 1;
      BuildFlatKeys(entries[..n]);
      SplitWithoutComma(entries[n].0);
    }
  }

  /** Single-segment keys with already-clean values: the result is the record itself when
      some key is not numeric, and the array the keys index when all of them are. */
  lemma UnflattenFlatKeys(entries: seq<(string, JsVal)>)
    requires forall j :: 0 <= j < |entries| ==> ',' !in entries[j].0 && IsClean(entries[j].1)
    ensures var rec := RecordOf(entries);
      Unflatten(entries) == if AllKeysNumeric(rec) then Ok(Arr(NumericKeysToArray(rec))) else Ok(Obj(rec))
  {
    BuildFlatKeys(entries);
    RecordOfClean(entries);
    CleanedCleanObject(RecordOf(entries));
  }

  /** Cleaning an object whose values are already clean only decides object or array. */
  lemma CleanedCleanObject(fields: map<string, JsVal>)
    requires forall k :: k in fields ==> IsClean(fields[k])
    ensures Cleaned(Obj(fields)) == if AllKeysNumeric(fields) then Arr(NumericKeysToArray(fields)) else Obj(fields)
  {
    forall k | k in fields ensures Cleaned(fields[k]) == fields[k] {
      CleanFixed(fields[k]);
    }
    assert (map k | k in fields :: Cleaned(fields[k])) == fields;
  }

  lemma {:induction false} RecordOfClean(entries: seq<(string, JsVal)>)
    requires forall j :: 0 <= j < |entries| ==> IsClean(entries[j].1)
    ensures forall k :: k in RecordOf(entries) ==> IsClean(RecordOf(entries)[k])
    decreases |entries|
  {
    if entries != [] {
      RecordOfClean(entries[..|entries| - 1]);
    }
  }

  // ---------------------------------------------------------------------------
  // Named segments

  /** A key "p,q" with q not numeric: the value lands at result[p][q]. A falsy slot at p
      becomes a fresh object; an object there is kept and extended; any other truthy
      value there makes the walk fail. */
  lemma WalkNamedPair(m: map<string, JsVal>, p: string, q: string, v: JsVal)
    requires !IsNumericSeg(q)
    ensures var slot := Get(m, p);
      Walk(Obj(m), [p, q], 0, v) ==
        if !Truthy(slot) then Ok(Obj(m[p := Obj(map[q := v])]))
        else if slot.Obj? then Ok(Obj(m[p := Obj(slot.fields[q := v])]))
        else Err(WriteError(slot))
  {
    var parts := [p, q];
    var slot := Get(m, p);
    var child := if Truthy(slot) then slot else Obj(map[]);
    var d := Descend(Obj(m), parts, 0, v);
    assert d == Move(Obj(m[p := child]), [Field(p)], child);
    if child.Obj? {
      var leaf := Obj(child.fields[q := v]);
      assert Walk(child, parts, 1, v) == Ok(leaf);
      assert Replace(d.node, d.down, leaf) == Obj(m[p := child][p := leaf]);
      assert m[p := child][p := leaf] == m[p := leaf];
      if !Truthy(slot) {
        assert child.fields[q := v] == map[q := v];
      }
    } else {
      assert Walk(child, parts, 1, v) == Err(WriteError(child));
    }
  }

  /** Keys sharing a prefix merge into one object: {"p,a": x, "p,b": y} gives
      {p: {a: x, b: y}}. */
  lemma BuildSharedPrefix(p: string, a: string, b: string, x: JsVal, y: JsVal)
    requires ',' !in p && ',' !in a && ',' !in b
    requires !IsNumericSeg(a) && !IsNumericSeg(b)
    ensures Build([(p + "," + a, x), (p + "," + b, y)]) == Ok(Obj(map[p := Obj(map[a := x, b := y])]))
  {
    SplitPair(p, a);
    SplitPair(p, b);
    BuildOne(p + "," + a, x);
    WalkNamedPair(map[], p, a, x);
    var first := Obj(map[p := Obj(map[a := x])]);
    assert map[][p := Obj(map[][a := x])] == first.fields;
    BuildSnoc([(p + "," + a, x)], p + "," + b, y);
    assert [(p + "," + a, x)] + [(p + "," + b, y)] == [(p + "," + a, x), (p + "," + b, y)];
    WalkNamedPair(first.fields, p, b, y);
    assert first.fields[p := Obj(map[a := x][b := y])] == map[p := Obj(map[a := x, b := y])];
  }

  // ---------------------------------------------------------------------------
  // Numeric segments, as written

  /** A numeric segment after a named one: the array is created under the SAME name
      inside the object just entered, so "p,n,q" lands at result[p][p][n][q], and
      result[p] is an object, not an array. */
  lemma WalkIndexedFromEmpty(p: string, n: string, q: string, v: JsVal)
    requires IsNumericSeg(n) && !IsNumericSeg(q)
    ensures Walk(Obj(map[]), [p, n, q], 0, v) == Ok(IndexedResult(p, DecimalValue(n), q, v))
  {
    var parts := [p, n, q];
    var inner := Obj(map[p := Arr(SetElement([], DecimalValue(n), Obj(map[q := v])))]);
    WalkIndexedInner(parts, v);
    WalkNamedStep(map[], parts, 0, v);
    assert map[][p := inner] == map[p := inner];
  }

  /** A named segment that is not the last: the walk enters the slot (a fresh object if
      the slot is falsy) and stores what the rest of the walk makes of it. */
  lemma WalkNamedStep(m: map<string, JsVal>, parts: seq<string>, i: nat, v: JsVal)
    requires i < |parts| - 1 && !(i > 0 && IsNumericSeg(parts[i]))
    ensures var slot := Get(m, parts[i]);
      var child := if Truthy(slot) then slot else Obj(map[]);
      Walk(Obj(m), parts, i, v) ==
        match Walk(child, parts, i + 1, v)
        case Err(e) => Err(e)
        case Ok(sub) => Ok(Obj(m[parts[i] := sub]))
  {
    var key := parts[i];
    var slot := Get(m, key);
    var child := if Truthy(slot) then slot else Obj(map[]);
    var node := Obj(m[key := child]);
    assert Descend(Obj(m), parts, i, v) == Move(node, [Field(key)], child);
    match Walk(child, parts, i + 1, v)
    case Err(e) =>
    case Ok(sub) =>
      assert Replace(node, [Field(key)], sub) == Obj(m[key := sub]) by {
        assert m[key := child][key := sub] == m[key := sub];
      }
  }

  /** Writing `x` twice at the same index is writing the second value. */
  lemma SetElementTwice(arr: seq<Option<JsVal>>, n: nat, x: JsVal, y: JsVal)
    ensures SetElement(arr, n, x)[n := Some(y)] == SetElement(arr, n, y)
  {
    var l, r := SetElement(arr, n, x)[n := Some(y)], SetElement(arr, n, y);
    assert |l| == |r|;
    forall j | 0 <= j < |l| ensures l[j] == r[j] {
    }
  }

  /** Storing `sub` through the path that a numeric segment moves `cur` along. */
  lemma ReplaceIndexed(m: map<string, JsVal>, arrKey: string, holder: seq<Option<JsVal>>, n: nat, child: JsVal, sub: JsVal)
    ensures var t := Obj(m[arrKey := Arr(SetElement(holder, n, child))]);
      At(t, [Field(arrKey), Index(n)]) == Some(child) &&
      Replace(t, [Field(arrKey), Index(n)], sub) == Obj(m[arrKey := Arr(SetElement(holder, n, sub))])
  {
    var arr := SetElement(holder, n, child);
    var t := Obj(m[arrKey := Arr(arr)]);
    var p := [Field(arrKey), Index(n)];
    assert p[1..] == [Index(n)] && [Index(n)][1..] == [];
    assert At(Arr(arr), [Index(n)]) == At(child, []);
    assert Replace(Arr(arr), [Index(n)], sub) == Arr(arr[n := Some(sub)]);
    SetElementTwice(holder, n, child, sub);
    assert m[arrKey := Arr(arr)][arrKey := Arr(arr[n := Some(sub)])] == m[arrKey := Arr(SetElement(holder, n, sub))];
  }

  /** A numeric segment that is not the last: the array is taken from (or put at)
      cur[parts[i-1]], the element at the index is entered (a fresh object if it is
      falsy), and the rest of the walk's result is stored back at that index. */
  lemma WalkIndexedStep(m: map<string, JsVal>, parts: seq<string>, i: nat, v: JsVal)
    requires 0 < i < |parts| - 1 && IsNumericSeg(parts[i])
    ensures var arrKey := parts[i - 1];
      var holder := ArrayOrEmpty(Get(m, arrKey));
      var n := DecimalValue(parts[i]);
      var slot := ElementOrUndef(holder, n);
      var child := if Truthy(slot) then slot else Obj(map[]);
      Walk(Obj(m), parts, i, v) ==
        match Walk(child, parts, i + 1, v)
        case Err(e) => Err(e)
        case Ok(sub) => Ok(Obj(m[arrKey := Arr(SetElement(holder, n, sub))]))
  {
    var arrKey := parts[i - 1];
    var holder := ArrayOrEmpty(Get(m, arrKey));
    var n := DecimalValue(parts[i]);
    var slot := ElementOrUndef(holder, n);
    var child := if Truthy(slot) then slot else Obj(map[]);
    var d := Descend(Obj(m), parts, i, v);
    assert d == Move(Obj(m[arrKey := Arr(SetElement(holder, n, child))]), [Field(arrKey), Index(n)], child);
    var w := Walk(child, parts, i + 1, v);
    if w.Ok? {
      ReplaceIndexed(m, arrKey, holder, n, child, w.value);
    } else {
      ReplaceIndexed(m, arrKey, holder, n, child, child);
    }
  }

  /** Storing `sub` through the path that a numeric segment moves `cur` along when `cur`
      is an array. */
  lemma ReplaceInArray(elems: seq<Option<JsVal>>, k: nat, holder: seq<Option<JsVal>>, n: nat, child: JsVal, sub: JsVal)
    ensures var t := Arr(SetElement(elems, k, Arr(SetElement(holder, n, child))));
      At(t, [Index(k), Index(n)]) == Some(child) &&
      Replace(t, [Index(k), Index(n)], sub) == Arr(SetElement(elems, k, Arr(SetElement(holder, n, sub))))
  {
    var arr := SetElement(holder, n, child);
    var p := [Index(k), Index(n)];
    assert p[1..] == [Index(n)] && [Index(n)][1..] == [];
    assert At(Arr(arr), [Index(n)]) == At(child, []);
    assert Replace(Arr(arr), [Index(n)], sub) == Arr(arr[n := Some(sub)]);
    SetElementTwice(holder, n, child, sub);
    SetElementTwice(elems, k, Arr(arr), Arr(SetElement(holder, n, sub)));
  }

  /** A numeric segment that is not the last, taken at an array after another numeric
      segment: cur[parts[i-1]] is the array's element at that index, which becomes an
      array when it is not one; its element at the index parts[i] is entered (a fresh
      object if it is falsy), and the rest of the walk's result is stored back there. */
  lemma WalkIndexInArrayStep(elems: seq<Option<JsVal>>, parts: seq<string>, i: nat, v: JsVal)
    requires 0 < i < |parts| - 1 && IsNumericSeg(parts[i]) && IsNumericSeg(parts[i - 1])
    ensures var k := DecimalValue(parts[i - 1]);
      var holder := ArrayOrEmpty(ElementOrUndef(elems, k));
      var n := DecimalValue(parts[i]);
      var slot := ElementOrUndef(holder, n);
      var child := if Truthy(slot) then slot else Obj(map[]);
      Walk(Arr(elems), parts, i, v) ==
        match Walk(child, parts, i + 1, v)
        case Err(e) => Err(e)
        case Ok(sub) => Ok(Arr(SetElement(elems, k, Arr(SetElement(holder, n, sub)))))
  {
    var k := DecimalValue(parts[i - 1]);
    var holder := ArrayOrEmpty(ElementOrUndef(elems, k));
    var n := DecimalValue(parts[i]);
    var slot := ElementOrUndef(holder, n);
    var child := if Truthy(slot) then slot else Obj(map[]);
    var d := Descend(Arr(elems), parts, i, v);
    assert d == Move(Arr(SetElement(elems, k, Arr(SetElement(holder, n, child)))), [Index(k), Index(n)], child);
    var w := Walk(child, parts, i + 1, v);
    if w.Ok? {
      ReplaceInArray(elems, k, holder, n, child, w.value);
    } else {
      ReplaceInArray(elems, k, holder, n, child, child);
    }
  }

  /** Two index segments in a row go through the array the first one entered: from
      {p: {p: [[x]]}}, with x not an array, the key "p,0,0,q" replaces x by an array and
      gives {p: {p: [[[{q: v}]]]}}. */
  lemma ArrayThroughIndex(p: string, q: string, x: JsVal, v: JsVal)
    requires !IsNumericSeg(p) && !IsNumericSeg(q) && !x.Arr?
    ensures Walk(Obj(map[p := Obj(map[p := Arr([Some(Arr([Some(x)]))])])]), [p, "0", "0", q], 0, v)
      == Ok(Obj(map[p := Obj(map[p := Arr([Some(Arr([Some(Arr([Some(Obj(map[q := v]))]))]))])])]))
  {
    var parts := [p, "0", "0", q];
    assert IsNumericSeg("0") && DecimalValue("0") == 0;
    var one := Arr([Some(x)]);
    var nested := Arr([Some(Arr([Some(Obj(map[q := v]))]))]);
    ArrayThroughIndexInner(parts, x, v);
    WalkEntersElementZero(p, one, nested, parts, v);
    WalkEntersField(p, Obj(map[p := Arr([Some(one)])]), Obj(map[p := Arr([Some(nested)])]), parts, v);
  }

  /** A walk entering the truthy field `p` of {p: child} at its first segment. */
  lemma WalkEntersField(p: string, child: JsVal, sub: JsVal, parts: seq<string>, v: JsVal)
    requires |parts| > 2 && parts[0] == p && Truthy(child) && Walk(child, parts, 1, v) == Ok(sub)
    ensures Walk(Obj(map[p := child]), parts, 0, v) == Ok(Obj(map[p := sub]))
  {
    WalkNamedStep(map[p := child], parts, 0, v);
    assert map[p := child][p := sub] == map[p := sub];
  }

  /** A walk entering element 0 of the array {p: [one]}, with one truthy, at an index
      segment after the segment p. */
  lemma WalkEntersElementZero(p: string, one: JsVal, sub: JsVal, parts: seq<string>, v: JsVal)
    requires |parts| > 2 && parts[0] == p && IsNumericSeg(parts[1]) && DecimalValue(parts[1]) == 0
    requires Truthy(one) && Walk(one, parts, 2, v) == Ok(sub)
    ensures Walk(Obj(map[p := Arr([Some(one)])]), parts, 1, v) == Ok(Obj(map[p := Arr([Some(sub)])]))
  {
    var m := map[p := Arr([Some(one)])];
    WalkIndexedStep(m, parts, 1, v);
    assert SetElement([Some(one)], 0, sub) == [Some(sub)];
    assert m[p := Arr([Some(sub)])] == map[p := Arr([Some(sub)])];
  }

  /** The last two segments of that walk, at the array [x]. */
  lemma ArrayThroughIndexInner(parts: seq<string>, x: JsVal, v: JsVal)
    requires |parts| == 4 && parts[2] == parts[1] && IsNumericSeg(parts[1]) && DecimalValue(parts[1]) == 0
    requires !IsNumericSeg(parts[3]) && !x.Arr?
    ensures Walk(Arr([Some(x)]), parts, 2, v) == Ok(Arr([Some(Arr([Some(Obj(map[parts[3] := v]))]))]))
  {
    var leaf := Obj(map[parts[3] := v]);
    WalkLastNamed(map[], parts, v);
    assert map[][parts[3] := v] == map[parts[3] := v];
    WalkIndexInArrayStep([Some(x)], parts, 2, v);
    assert SetElement([], 0, leaf) == [Some(leaf)];
    assert SetElement([Some(x)], 0, Arr([Some(leaf)])) == [Some(Arr([Some(leaf)]))];
  }

  /** The last segment, named: the value is written into the object `cur` points at. */
  lemma WalkLastNamed(m: map<string, JsVal>, parts: seq<string>, v: JsVal)
    requires |parts| > 0 && !(|parts| > 1 && IsNumericSeg(parts[|parts| - 1]))
    ensures Walk(Obj(m), parts, |parts| - 1, v) == Ok(Obj(m[parts[|parts| - 1] := v]))
  {
  }

  /** The last segment, numeric (and not the first): only the placeholder is written;
      the value is not. */
  lemma WalkLastIndex(m: map<string, JsVal>, parts: seq<string>, v: JsVal)
    requires |parts| > 1 && IsNumericSeg(parts[|parts| - 1])
    ensures var arrKey := parts[|parts| - 2];
      var holder := ArrayOrEmpty(Get(m, arrKey));
      var n := DecimalValue(parts[|parts| - 1]);
      var slot := ElementOrUndef(holder, n);
      Walk(Obj(m), parts, |parts| - 1, v)
        == Ok(Obj(m[arrKey := Arr(SetElement(holder, n, if Truthy(slot) then slot else Obj(map[])))]))
  {
  }

  /** What the walk of "p,n,q" builds from nothing: {p: {p: [..holes.., {q: v}]}}. */
  function IndexedResult(p: string, idx: nat, q: string, v: JsVal): JsVal {
    Obj(map[p := Obj(map[p := Arr(SetElement([], idx, Obj(map[q := v])))])])
  }

  /** The second and third segments of "p,n,q", inside the fresh object entered for p. */
  lemma WalkIndexedInner(parts: seq<string>, v: JsVal)
    requires |parts| == 3 && IsNumericSeg(parts[1]) && !IsNumericSeg(parts[2])
    ensures Walk(Obj(map[]), parts, 1, v)
      == Ok(Obj(map[parts[0] := Arr(SetElement([], DecimalValue(parts[1]), Obj(map[parts[2] := v])))]))
  {
    var p, idx, q := parts[0], DecimalValue(parts[1]), parts[2];
    var arr := SetElement([], idx, Obj(map[]));
    var d1 := Descend(Obj(map[]), parts, 1, v);
    assert d1 == Move(Obj(map[p := Arr(arr)]), [Field(p), Index(idx)], Obj(map[]));
    var leaf := Obj(map[q := v]);
    assert Walk(Obj(map[]), parts, 2, v) == Ok(leaf);
    var arr' := SetElement([], idx, leaf);
    assert arr[idx := Some(leaf)] == arr';
    assert Replace(Arr(arr), [Index(idx)], leaf) == Arr(arr');
    assert Replace(d1.node, d1.down, leaf) == Obj(map[p := Arr(arr)][p := Arr(arr')]);
    assert map[p := Arr(arr)][p := Arr(arr')] == map[p := Arr(arr')];
  }

  /** In that result the value sits at p.p[n].q, and p[n] does not exist. */
  lemma PathsInIndexedResult(p: string, idx: nat, q: string, v: JsVal)
    ensures At(IndexedResult(p, idx, q, v), [Field(p), Field(p), Index(idx), Field(q)]) == Some(v)
    ensures At(IndexedResult(p, idx, q, v), [Field(p), Index(idx)]) == None
  {
    var leaf := Obj(map[q := v]);
    var arr := Arr(SetElement([], idx, leaf));
    var inner := Obj(map[p := arr]);
    var r := IndexedResult(p, idx, q, v);
    assert r == Obj(map[p := inner]);
    assert At(leaf, [Field(q)]) == Some(v) by {
      assert At(leaf, [Field(q)]) == At(v, []);
    }
    assert At(arr, [Index(idx), Field(q)]) == At(leaf, [Field(q)]);
    assert At(inner, [Field(p), Index(idx), Field(q)]) == At(arr, [Index(idx), Field(q)]);
    assert At(r, [Field(p), Field(p), Index(idx), Field(q)]) == At(inner, [Field(p), Index(idx), Field(q)]);
    assert At(r, [Field(p), Index(idx)]) == At(inner, [Index(idx)]);
  }

  /** A key whose last segment is numeric (and not the first) never stores its value:
      the walk's outcome is the same whatever the value. */
  lemma {:induction false} TrailingIndexDropsValue(node: JsVal, parts: seq<string>, i: nat, v: JsVal, w: JsVal)
    requires i < |parts| && |parts| >= 2 && IsNumericSeg(parts[|parts| - 1])
    ensures Walk(node, parts, i, v) == Walk(node, parts, i, w)
    decreases |parts| - i
  {
    if Enterable(node, parts, i) {
      DescendIgnoresValue(node, parts, i, v, w);
      if i < |parts| - 1 {
        var d := Descend(node, parts, i, v);
        TrailingIndexDropsValue(d.child, parts, i + 1, v, w);
      }
    }
  }

  /** Only a named last segment writes the value: every other step is the same whatever
      the value. */
  lemma DescendIgnoresValue(node: JsVal, parts: seq<string>, i: nat, v: JsVal, w: JsVal)
    requires i < |parts| && Enterable(node, parts, i) && (i < |parts| - 1 || (i > 0 && IsNumericSeg(parts[i])))
    ensures Descend(node, parts, i, v) == Descend(node, parts, i, w)
  {
  }

  // ---------------------------------------------------------------------------
  // The cleanArrays post-pass

  /** A value `cleanArrays` leaves alone: no object in it, at any depth, has keys that
      are all numeric. */
  ghost predicate IsClean(v: JsVal)
    decreases v
  {
    match v
    case Arr(elems) => forall i :: 0 <= i < |elems| && elems[i].Some? ==> IsClean(elems[i].value)
    case Obj(fields) => !AllKeysNumeric(fields) && forall k :: k in fields ==> IsClean(fields[k])
    case _ => true
  }

  /** Everything `cleanArrays` returns is clean. */
  lemma {:induction false} CleanedIsClean(v: JsVal)
    ensures IsClean(Cleaned(v))
    decreases v
  {
    match v
    case Arr(elems) =>
      forall i | 0 <= i < |elems| && elems[i].Some? ensures IsClean(Cleaned(elems[i].value)) {
        CleanedIsClean(elems[i].value);
      }
    case Obj(fields) =>
      var f := map k | k in fields :: Cleaned(fields[k]);
      forall k | k in fields ensures IsClean(f[k]) {
        CleanedIsClean(fields[k]);
      }
      if AllKeysNumeric(f) {
        var r := NumericKeysToArray(f);
        NumericKeysLayout(f);
        forall i | 0 <= i < |r| && r[i].Some? ensures IsClean(r[i].value) {
          assert NatToString(i) in f;
          NumeralOfIndex(NatToString(i), i);
          assert r[DecimalValue(NatToString(i))] == Some(f[NatToString(i)]);
        }
      }
    case _ =>
  }

  /** A clean value is a fixed point of `cleanArrays`. */
  lemma {:induction false} CleanFixed(v: JsVal)
    requires IsClean(v)
    ensures Cleaned(v) == v
    decreases v
  {
    match v
    case Arr(elems) =>
      forall i | 0 <= i < |elems| && elems[i].Some? ensures Cleaned(elems[i].value) == elems[i].value {
        CleanFixed(elems[i].value);
      }
      assert Cleaned(v).elems == elems;
    case Obj(fields) =>
      forall k | k in fields ensures Cleaned(fields[k]) == fields[k] {
        CleanFixed(fields[k]);
      }
      assert (map k | k in fields :: Cleaned(fields[k])) == fields;
    case _ =>
  }

  /** Cleaning twice is cleaning once. */
  lemma CleanedIdempotent(v: JsVal)
    ensures Cleaned(Cleaned(v)) == Cleaned(v)
  {
    CleanedIsClean(v);
    CleanFixed(Cleaned(v));
  }

  /** `cleanArrays` leaves scalars and functions unchanged. */
  lemma CleanedScalar(v: JsVal)
    requires !v.Arr? && !v.Obj?
    ensures Cleaned(v) == v
  {
  }

  /** `cleanArrays` maps an array element by element and keeps its holes. */
  lemma CleanedArray(elems: seq<Option<JsVal>>)
    ensures Cleaned(Arr(elems)).Arr? && |Cleaned(Arr(elems)).elems| == |elems|
    ensures forall i :: 0 <= i < |elems| ==>
      (Cleaned(Arr(elems)).elems[i].Some? <==> elems[i].Some?)
      && (elems[i].Some? ==> Cleaned(Arr(elems)).elems[i].value == Cleaned(elems[i].value))
  {
  }

  /** An object whose keys are all numeric becomes an array holding each cleaned value at
      the index its key names, with holes exactly where no key names the index. */
  lemma CleanedNumericObject(fields: map<string, JsVal>)
    requires AllKeysNumeric(fields)
    ensures Cleaned(Obj(fields)).Arr?
    ensures forall k :: k in fields ==>
      DecimalValue(k) < |Cleaned(Obj(fields)).elems|
      && Cleaned(Obj(fields)).elems[DecimalValue(k)] == Some(Cleaned(fields[k]))
    ensures forall i :: 0 <= i < |Cleaned(Obj(fields)).elems| ==>
      (Cleaned(Obj(fields)).elems[i].None? <==> NatToString(i) !in fields)
  {
    var f := map k | k in fields :: Cleaned(fields[k]);
    assert f.Keys == fields.Keys;
    assert AllKeysNumeric(f);
    CleanedFields(fields, f);
    NumericKeysLayout(f);
  }

  /** Any other object, the empty one included, stays an object with the same keys and
      cleaned values. */
  lemma CleanedOtherObject(fields: map<string, JsVal>)
    requires !AllKeysNumeric(fields)
    ensures Cleaned(Obj(fields)).Obj? && Cleaned(Obj(fields)).fields.Keys == fields.Keys
    ensures forall k :: k in fields ==> Cleaned(Obj(fields)).fields[k] == Cleaned(fields[k])
  {
    var f := map k | k in fields :: Cleaned(fields[k]);
    assert f.Keys == fields.Keys;
    assert !AllKeysNumeric(f);
  }

  /** The walk phase over the whole input, then the post-pass, yields a clean value. */
  lemma UnflattenIsClean(entries: seq<(string, JsVal)>)
    requires Unflatten(entries).Ok?
    ensures IsClean(Unflatten(entries).value)
  {
    CleanedIsClean(Build(entries).value);
  }
}
