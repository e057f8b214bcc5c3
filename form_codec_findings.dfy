/** Two discrepancies in `unFlattenForm`'s handling of numeric segments, and the walk
    they evidently meant.

    As written, at a numeric segment the walk has already descended into the property
    named by the previous segment, and then looks the array up again under that same
    name: "items,0,name" builds items.items[0].name instead of items[0].name. And when
    the numeric segment is the last one, only an empty placeholder object is stored at
    the index: the value itself is lost.

    The corrected walk lets each segment choose the container it descends into by the
    kind of the NEXT segment (an array before a numeric segment, an object otherwise),
    and writes the value at the last segment whatever its kind. */
module FormCodecFindings {
  import opened JsValues
  import opened TreePaths
  import opened FormCodec
  import opened FormCodecProps

  // ---------------------------------------------------------------------------
  // The discrepancies, on the walk as written

  /** The key of a two-element list of records, as a form library flattens it. */
  function ItemKey(p: string, n: string, q: string): string {
    p + "," + n + "," + q
  }

  lemma SplitItemKey(p: string, n: string, q: string)
    requires ',' !in p && ',' !in n && ',' !in q
    ensures SplitComma(ItemKey(p, n, q)) == [p, n, q]
  {
    var parts := [p, n, q];
    SplitJoin(parts);
    assert parts[1..] == [n, q] && [n, q][1..] == [q];
    assert JoinComma([q]) == q;
    assert JoinComma([n, q]) == n + "," + q;
    assert JoinComma(parts) == p + "," + (n + "," + q);
    assert ItemKey(p, n, q) == p + "," + (n + "," + q);
  }

  /** As written, the first of the two keys. */
  lemma FirstItemAsWritten(p: string, q: string, x: JsVal)
    requires ',' !in p && ',' !in q && !IsNumericSeg(q)
    ensures Build([(ItemKey(p, "0", q), x)]) == Ok(Obj(map[p := Obj(map[p := Arr([Some(Obj(map[q := x]))])])]))
  {
    assert IsNumericSeg("0") && DecimalValue("0") == 0;
    SplitItemKey(p, "0", q);
    BuildOne(ItemKey(p, "0", q), x);
    WalkIndexedFromEmpty(p, "0", q, x);
    assert SetElement([], 0, Obj(map[q := x])) == [Some(Obj(map[q := x]))];
  }

  /** As written, inside p the second key looks the array up under p again and
      appends {q: y} to it. */
  lemma SecondItemInner(p: string, q: string, leaf: JsVal, y: JsVal)
    requires !IsNumericSeg(q)
    ensures Walk(Obj(map[p := Arr([Some(leaf)])]), [p, "1", q], 1, y)
      == Ok(Obj(map[p := Arr([Some(leaf), Some(Obj(map[q := y]))])]))
  {
    assert IsNumericSeg("1") && DecimalValue("1") == 1;
    var parts := [p, "1", q];
    var one := [Some(leaf)];
    var inner := map[p := Arr(one)];
    WalkLastNamed(map[], parts, y);
    assert map[][q := y] == map[q := y];
    WalkIndexedStep(inner, parts, 1, y);
    var two := [Some(leaf), Some(Obj(map[q := y]))];
    assert SetElement(one, 1, Obj(map[q := y])) == two;
    assert inner[p := Arr(two)] == map[p := Arr(two)];
  }

  /** As written, the second key walks into p, then looks the array up as p.p. */
  lemma SecondItemAsWritten(p: string, q: string, leaf: JsVal, y: JsVal)
    requires !IsNumericSeg(q)
    ensures Walk(Obj(map[p := Obj(map[p := Arr([Some(leaf)])])]), [p, "1", q], 0, y)
      == Ok(Obj(map[p := Obj(map[p := Arr([Some(leaf), Some(Obj(map[q := y]))])])]))
  {
    var parts := [p, "1", q];
    var inner := Obj(map[p := Arr([Some(leaf)])]);
    var first := map[p := inner];
    var after := map[p := Arr([Some(leaf), Some(Obj(map[q := y]))])];
    SecondItemInner(p, q, leaf, y);
    assert Walk(inner, parts, 1, y) == Ok(Obj(after));
    assert Get(first, p) == inner && Truthy(inner);
    WalkNamedStep(first, parts, 0, y);
    assert Walk(Obj(first), parts, 0, y) == Ok(Obj(first[p := Obj(after)]));
    assert first[p := Obj(after)] == map[p := Obj(after)];
  }

  /** As written: "p,0,q" and "p,1,q" end up under p.p, not under p. */
  lemma BuildItemsAsWritten(p: string, q: string, x: JsVal, y: JsVal)
    requires ',' !in p && ',' !in q && !IsNumericSeg(q)
    ensures Build([(ItemKey(p, "0", q), x), (ItemKey(p, "1", q), y)])
      == Ok(Obj(map[p := Obj(map[p := Arr([Some(Obj(map[q := x])), Some(Obj(map[q := y]))])])]))
  {
    var e0, e1 := (ItemKey(p, "0", q), x), (ItemKey(p, "1", q), y);
    FirstItemAsWritten(p, q, x);
    BuildSnoc([e0], e1.0, e1.1);
    assert [e0] + [e1] == [e0, e1];
    SplitItemKey(p, "1", q);
    SecondItemAsWritten(p, q, Obj(map[q := x]), y);
  }

  /** A record with one non-numeric key and a clean value is clean. */
  lemma CleanRecord(k: string, x: JsVal)
    requires !IsNumericSeg(k) && IsClean(x)
    ensures IsClean(Obj(map[k := x]))
  {
    assert !AllKeysNumeric(map[k := x]);
  }

  /** A list of clean records is clean. */
  lemma CleanList(a: JsVal, b: JsVal)
    requires IsClean(a) && IsClean(b)
    ensures IsClean(Arr([Some(a)])) && IsClean(Arr([Some(a), Some(b)]))
  {
  }


  /** As written, the decoded form of "p,0,q" and "p,1,q": with p = "items" and
      q = "name", items.items[0].name and items.items[1].name. */
  lemma UnflattenItemsAsWritten(p: string, q: string, x: JsVal, y: JsVal)
    requires ',' !in p && ',' !in q && !IsNumericSeg(p) && !IsNumericSeg(q)
    requires IsClean(x) && IsClean(y)
    ensures Unflatten([(ItemKey(p, "0", q), x), (ItemKey(p, "1", q), y)])
      == Ok(Obj(map[p := Obj(map[p := Arr([Some(Obj(map[q := x])), Some(Obj(map[q := y]))])])]))
  {
    BuildItemsAsWritten(p, q, x, y);
    var leafX, leafY := Obj(map[q := x]), Obj(map[q := y]);
    CleanRecord(q, x);
    CleanRecord(q, y);
    CleanList(leafX, leafY);
    var arr := Arr([Some(leafX), Some(leafY)]);
    CleanRecord(p, arr);
    CleanRecord(p, Obj(map[p := arr]));
    CleanFixed(Obj(map[p := Obj(map[p := arr])]));
  }

  /** As written: a key ending in an index, "p,n", stores an empty object at p.p[n];
      the value given for the key appears nowhere. */
  lemma BuildTrailingIndexAsWritten(p: string, n: string, x: JsVal)
    requires ',' !in p && ',' !in n && IsNumericSeg(n)
    ensures Build([(p + "," + n, x)])
      == Ok(Obj(map[p := Obj(map[p := Arr(SetElement([], DecimalValue(n), Obj(map[])))])]))
  {
    var parts := [p, n];
    SplitPair(p, n);
    BuildOne(p + "," + n, x);
    var idx := DecimalValue(n);
    var inner := map[p := Arr(SetElement([], idx, Obj(map[])))];
    TrailingIndexInner(parts, x);
    assert Walk(Obj(map[]), parts, 1, x) == Ok(Obj(inner));
    WalkNamedStep(map[], parts, 0, x);
    assert map[][p := Obj(inner)] == map[p := Obj(inner)];
  }

  /** As written, inside the fresh object entered for p, the trailing index stores an
      empty placeholder under p. */
  lemma TrailingIndexInner(parts: seq<string>, x: JsVal)
    requires |parts| == 2 && IsNumericSeg(parts[1])
    ensures Walk(Obj(map[]), parts, 1, x) == Ok(Obj(map[parts[0] := Arr(SetElement([], DecimalValue(parts[1]), Obj(map[])))]))
  {
    var m: map<string, JsVal> := map[];
    WalkLastIndex(m, parts, x);
    assert ArrayOrEmpty(Get(m, parts[0])) == [];
    assert ElementOrUndef([], DecimalValue(parts[1])) == Undef;
  }

  /** As written, the decoded form of the single key "p,0" (with p = "tags": tags.tags
      holding one empty object). */
  lemma UnflattenTagsAsWritten(p: string, x: JsVal)
    requires ',' !in p && !IsNumericSeg(p)
    ensures Unflatten([(p + ",0", x)]) == Ok(Obj(map[p := Obj(map[p := Arr([Some(Obj(map[]))])])]))
  {
    assert IsNumericSeg("0") && DecimalValue("0") == 0;
    assert p + "," + "0" == p + ",0";
    BuildTrailingIndexAsWritten(p, "0", x);
    assert SetElement([], 0, Obj(map[])) == [Some(Obj(map[]))];
    var arr := Arr([Some(Obj(map[]))]);
    assert IsClean(Obj(map[]));
    CleanList(Obj(map[]), Obj(map[]));
    CleanRecord(p, arr);
    CleanRecord(p, Obj(map[p := arr]));
    CleanFixed(Obj(map[p := Obj(map[p := arr])]));
  }

  // ---------------------------------------------------------------------------
  // The corrected walk

  /** The step segment `i` denotes: an index for a numeric segment after the first,
      a property name otherwise. */
  function StepOf(parts: seq<string>, i: nat): Step
    requires i < |parts|
  {
    if i > 0 && IsNumericSeg(parts[i]) then Index(DecimalValue(parts[i])) else Field(parts[i])
  }

  /** The path a whole key denotes. */
  function PathOf(parts: seq<string>): Path {
    seq(|parts|, (i: nat) requires i < |parts| => StepOf(parts, i))
  }

  /** A container a step can be taken in. */
  predicate Fits(v: JsVal, s: Step) {
    match s
    case Field(_) => v.Obj?
    case Index(_) => v.Arr?
  }

  /** The empty container for a step. */
  function FreshFor(s: Step): (r: JsVal)
    ensures Fits(r, s)
  {
    if s.Index? then Arr([]) else Obj(map[])
  }

  /** `node[s]`, undefined when absent. */
  function ReadStep(node: JsVal, s: Step): JsVal
    requires Fits(node, s)
  {
    match s
    case Field(k) => Get(node.fields, k)
    case Index(n) => ElementOrUndef(node.elems, n)
  }

  /** `node[s] = x`: afterwards the step leads to `x`, and nothing else in `node` changes. */
  function WriteStep(node: JsVal, s: Step, x: JsVal): (r: JsVal)
    requires Fits(node, s)
    ensures Fits(r, s) && Child(r, s) == Some(x)
    ensures forall t: Step :: t != s && Fits(node, t) ==> Child(r, t) == Child(node, t)
  {
    match s
    case Field(k) => Obj(node.fields[k := x])
    case Index(n) => Arr(SetElement(node.elems, n, x))
  }

  /** The corrected walk of one key from segment `i` on: the container entered at each
      step is kept when it is of the kind the next step needs, and replaced by an empty
      one of that kind otherwise; the value is written at the last step. */
  function WalkIntended(node: JsVal, parts: seq<string>, i: nat, v: JsVal): (r: JsVal)
    requires i < |parts| && Fits(node, StepOf(parts, i))
    ensures Fits(r, StepOf(parts, i))
    decreases |parts| - i
  {
    var s := StepOf(parts, i);
    if i == |parts| - 1 then WriteStep(node, s, v)
    else
      var next := StepOf(parts, i + 1);
      var slot := ReadStep(node, s);
      var child := if Fits(slot, next) then slot else FreshFor(next);
      WriteStep(node, s, WalkIntended(child, parts, i + 1, v))
  }

  /** The corrected walk phase over all entries, in order, from the empty object. */
  function BuildIntended(entries: seq<(string, JsVal)>): (r: JsVal)
    ensures r.Obj?
    decreases |entries|
  {
    if entries == [] then Obj(map[])
    else
      var last := entries[|entries| - 1];
      var t := BuildIntended(entries[..|entries| - 1]);
      assert StepOf(SplitComma(last.0), 0).Field?;
      WalkIntended(t, SplitComma(last.0), 0, last.1)
  }

  /** The corrected decoder: the corrected walk, then the same post-pass. */
  ghost function UnflattenIntended(entries: seq<(string, JsVal)>): JsVal {
    Cleaned(BuildIntended(entries))
  }

  /** Get after put: after the corrected walk of a key, reading along the path the key
      denotes gives back the value written. */
  lemma {:induction false} IntendedGetAfterPut(node: JsVal, parts: seq<string>, i: nat, v: JsVal)
    requires i < |parts| && Fits(node, StepOf(parts, i))
    ensures At(WalkIntended(node, parts, i, v), PathOf(parts)[i..]) == Some(v)
    decreases |parts| - i
  {
    var s := StepOf(parts, i);
    var p := PathOf(parts)[i..];
    assert p[0] == s && p[1..] == PathOf(parts)[i + 1..];
    var r := WalkIntended(node, parts, i, v);
    if i == |parts| - 1 {
      assert p[1..] == [];
      assert At(r, p) == At(v, []);
    } else {
      var next := StepOf(parts, i + 1);
      var slot := ReadStep(node, s);
      var child := if Fits(slot, next) then slot else FreshFor(next);
      IntendedGetAfterPut(child, parts, i + 1, v);
      assert At(r, p) == At(WalkIntended(child, parts, i + 1, v), p[1..]);
    }
  }

  /** The last entry of a form can always be read back from the corrected result at
      the path its key denotes. */
  lemma BuildIntendedGetLast(entries: seq<(string, JsVal)>)
    requires entries != []
    ensures var last := entries[|entries| - 1];
      At(BuildIntended(entries), PathOf(SplitComma(last.0))) == Some(last.1)
  {
    var last := entries[|entries| - 1];
    var parts := SplitComma(last.0);
    var t := BuildIntended(entries[..|entries| - 1]);
    assert StepOf(parts, 0).Field?;
    IntendedGetAfterPut(t, parts, 0, last.1);
    assert PathOf(parts)[0..] == PathOf(parts);
  }

  /** A named segment followed by a named one: the corrected walk enters the slot when
      it holds an object, a fresh object otherwise. */
  lemma IntendedNamedStep(m: map<string, JsVal>, parts: seq<string>, i: nat, v: JsVal)
    requires i < |parts| - 1 && StepOf(parts, i) == Field(parts[i]) && StepOf(parts, i + 1) == Field(parts[i + 1])
    ensures var slot := Get(m, parts[i]);
      var child := if slot.Obj? then slot else Obj(map[]);
      WalkIntended(Obj(m), parts, i, v) == Obj(m[parts[i] := WalkIntended(child, parts, i + 1, v)])
  {
  }

  /** The correction changes nothing where the code as written does not fail and no
      segment after the first is numeric. */
  lemma {:induction false} IntendedAgreesOnNamedKeys(m: map<string, JsVal>, parts: seq<string>, i: nat, v: JsVal)
    requires i < |parts| && forall j :: 0 < j < |parts| ==> !IsNumericSeg(parts[j])
    requires Walk(Obj(m), parts, i, v).Ok?
    ensures StepOf(parts, i) == Field(parts[i])
    ensures WalkIntended(Obj(m), parts, i, v) == Walk(Obj(m), parts, i, v).value
    decreases |parts| - i
  {
    if i == |parts| - 1 {
      WalkLastNamed(m, parts, v);
    } else {
      var key := parts[i];
      var slot := Get(m, key);
      var child := if Truthy(slot) then slot else Obj(map[]);
      WalkNamedStep(m, parts, i, v);
      var w := Walk(child, parts, i + 1, v);
      assert w.Ok?;
      assert Walk(Obj(m), parts, i, v).value == Obj(m[key := w.value]);
      WalkOkEnterable(child, parts, i + 1, v);
      assert (if slot.Obj? then slot else Obj(map[])) == child;
      assert StepOf(parts, i + 1) == Field(parts[i + 1]);
      IntendedNamedStep(m, parts, i, v);
      assert Obj(child.fields) == child;
      IntendedAgreesOnNamedKeys(child.fields, parts, i + 1, v);
    }
  }

  /** A walk that succeeds starts at a node that can take its first segment. */
  lemma WalkOkEnterable(node: JsVal, parts: seq<string>, i: nat, v: JsVal)
    requires i < |parts| && Walk(node, parts, i, v).Ok?
    ensures Enterable(node, parts, i)
  {
  }

  /** The corrected walk phase, one entry at a time. */
  lemma BuildIntendedSnoc(entries: seq<(string, JsVal)>, k: string, v: JsVal)
    ensures BuildIntended(entries + [(k, v)]) == WalkIntended(BuildIntended(entries), SplitComma(k), 0, v)
  {
    assert (entries + [(k, v)])[..|entries|] == entries;
  }

  /** Corrected, the first of the two keys. */
  lemma FirstItemIntended(p: string, q: string, x: JsVal)
    requires ',' !in p && ',' !in q && !IsNumericSeg(q)
    ensures BuildIntended([(ItemKey(p, "0", q), x)]) == Obj(map[p := Arr([Some(Obj(map[q := x]))])])
  {
    assert IsNumericSeg("0") && DecimalValue("0") == 0;
    SplitItemKey(p, "0", q);
    BuildIntendedSnoc([], ItemKey(p, "0", q), x);
    assert [] + [(ItemKey(p, "0", q), x)] == [(ItemKey(p, "0", q), x)];
    var parts := [p, "0", q];
    var leaf := Obj(map[q := x]);
    assert WalkIntended(Obj(map[]), parts, 2, x) == leaf;
    assert SetElement([], 0, leaf) == [Some(leaf)];
    assert WalkIntended(Arr([]), parts, 1, x) == Arr([Some(leaf)]);
    assert WalkIntended(Obj(map[]), parts, 0, x) == Obj(map[p := Arr([Some(leaf)])]);
  }

  /** Corrected, the second key appends to the list under p. */
  lemma SecondItemIntended(p: string, q: string, leaf: JsVal, y: JsVal)
    requires ',' !in p && ',' !in q && !IsNumericSeg(q)
    ensures WalkIntended(Obj(map[p := Arr([Some(leaf)])]), SplitComma(ItemKey(p, "1", q)), 0, y)
      == Obj(map[p := Arr([Some(leaf), Some(Obj(map[q := y]))])])
  {
    assert IsNumericSeg("1") && DecimalValue("1") == 1;
    SplitItemKey(p, "1", q);
    var parts := [p, "1", q];
    var leafY := Obj(map[q := y]);
    var one := [Some(leaf)];
    var two := [Some(leaf), Some(leafY)];
    assert WalkIntended(Obj(map[]), parts, 2, y) == leafY;
    assert SetElement(one, 1, leafY) == two;
    assert WalkIntended(Arr(one), parts, 1, y) == Arr(two);
    assert map[p := Arr(one)][p := Arr(two)] == map[p := Arr(two)];
  }

  /** Corrected: "p,0,q" and "p,1,q" build a list of two records under p. */
  lemma BuildItemsIntended(p: string, q: string, x: JsVal, y: JsVal)
    requires ',' !in p && ',' !in q && !IsNumericSeg(q)
    ensures BuildIntended([(ItemKey(p, "0", q), x), (ItemKey(p, "1", q), y)])
      == Obj(map[p := Arr([Some(Obj(map[q := x])), Some(Obj(map[q := y]))])])
  {
    var e0, e1 := (ItemKey(p, "0", q), x), (ItemKey(p, "1", q), y);
    FirstItemIntended(p, q, x);
    BuildIntendedSnoc([e0], e1.0, e1.1);
    assert [e0] + [e1] == [e0, e1];
    SecondItemIntended(p, q, Obj(map[q := x]), y);
  }

  /** Corrected, the decoded form of "p,0,q" and "p,1,q" is a list of two records
      under p (with p = "items" and q = "name": items[0].name and items[1].name). */
  lemma UnflattenItemsIntended(p: string, q: string, x: JsVal, y: JsVal)
    requires ',' !in p && ',' !in q && !IsNumericSeg(p) && !IsNumericSeg(q)
    requires IsClean(x) && IsClean(y)
    ensures UnflattenIntended([(ItemKey(p, "0", q), x), (ItemKey(p, "1", q), y)])
      == Obj(map[p := Arr([Some(Obj(map[q := x])), Some(Obj(map[q := y]))])])
  {
    BuildItemsIntended(p, q, x, y);
    var leafX, leafY := Obj(map[q := x]), Obj(map[q := y]);
    CleanRecord(q, x);
    CleanRecord(q, y);
    CleanList(leafX, leafY);
    var arr := Arr([Some(leafX), Some(leafY)]);
    CleanRecord(p, arr);
    CleanFixed(Obj(map[p := arr]));
  }

  /** Corrected: a key ending in an index, "p,n", stores the value at p[n]. */
  lemma BuildTrailingIndexIntended(p: string, n: string, x: JsVal)
    requires ',' !in p && ',' !in n && IsNumericSeg(n)
    ensures BuildIntended([(p + "," + n, x)]) == Obj(map[p := Arr(SetElement([], DecimalValue(n), x))])
  {
    var parts := [p, n];
    SplitPair(p, n);
    BuildIntendedSnoc([], p + "," + n, x);
    assert [] + [(p + "," + n, x)] == [(p + "," + n, x)];
    assert WalkIntended(Arr([]), parts, 1, x) == Arr(SetElement([], DecimalValue(n), x));
    assert map[][p := Arr(SetElement([], DecimalValue(n), x))] == map[p := Arr(SetElement([], DecimalValue(n), x))];
  }

  /** Corrected, the decoded form of the single key "p,0" is a one-element list under p. */
  lemma UnflattenTagsIntended(p: string, x: JsVal)
    requires ',' !in p && !IsNumericSeg(p) && IsClean(x)
    ensures UnflattenIntended([(p + ",0", x)]) == Obj(map[p := Arr([Some(x)])])
  {
    assert IsNumericSeg("0") && DecimalValue("0") == 0;
    assert p + "," + "0" == p + ",0";
    BuildTrailingIndexIntended(p, "0", x);
    assert SetElement([], 0, x) == [Some(x)];
    CleanList(x, x);
    CleanRecord(p, Arr([Some(x)]));
    CleanFixed(Obj(map[p := Arr([Some(x)])]));
  }
}
