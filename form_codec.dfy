/** The form data codec of src/utils.ts: `unFlattenForm`, which turns a record keyed
    by comma-joined paths into a nested value, its `cleanArrays` post-pass, and
    `filterEmptyValues`. */
module FormCodec {
  import opened JsValues
  import opened TreePaths

  /** Why a key's walk fails. A write onto a string, number or boolean throws a
      TypeError (the module runs in strict mode); a named property on an array or a
      function is something this model does not represent. */
  datatype WalkError = TypeError | UnmodelledProperty

  // ---------------------------------------------------------------------------
  // Splitting keys

  /** `s.split(',')`. */
  function SplitComma(s: string): (parts: seq<string>)
    ensures |parts| >= 1
    ensures forall j :: 0 <= j < |parts| ==> ',' !in parts[j]
    ensures JoinComma(parts) == s
    decreases |s|
  {
    if |s| == 0 then [""]
    else
      var rest := SplitComma(s[1..]);
      if s[0] == ',' then [""] + rest
      else
        var parts := [[s[0]] + rest[0]] + rest[1..];
        assert parts[1..] == rest[1..];
        parts
  }

  /** `parts.join(',')`. */
  function JoinComma(parts: seq<string>): string
    requires |parts| >= 1
    decreases |parts|
  {
    if |parts| == 1 then parts[0] else parts[0] + "," + JoinComma(parts[1..])
  }

  // ---------------------------------------------------------------------------
  // The walk of one key

  /** The array at `cur[arrKey]` if it is one, else the fresh `[]` the walk puts there. */
  function ArrayOrEmpty(v: JsVal): seq<Option<JsVal>> {
    if v.Arr? then v.elems else []
  }

  /** `arr[n]`: a hole or an index past the end reads as undefined. */
  function ElementOrUndef(arr: seq<Option<JsVal>>, n: nat): JsVal {
    if n < |arr| && arr[n].Some? then arr[n].value else Undef
  }

  /** `arr[n] = x`: writing past the end lengthens the array and leaves holes between. */
  function SetElement(arr: seq<Option<JsVal>>, n: nat, x: JsVal): (r: seq<Option<JsVal>>)
    ensures |r| == if n < |arr| then |arr| else n + 1
    ensures r[n] == Some(x)
    ensures forall j :: 0 <= j < |r| && j != n ==> r[j] == if j < |arr| then arr[j] else None
  {
    if n < |arr| then arr[n := Some(x)] else arr + seq(n - |arr|, _ => None) + [Some(x)]
  }

  /** What one iteration of the segment loop does to the object `cur` points at, the
      path along which `cur` then moves down (empty when it does not move), and the
      node `cur` then points at. */
  datatype Move = Move(node: JsVal, down: Path, child: JsVal)

  /** Whether segment `i` can be taken at `cur`. An object always can. An array can
      only at an index segment whose previous segment is an index too: there
      `cur[parts[i - 1]]` reads and writes one of its elements. Anywhere else the
      segment is a named property of the array. */
  predicate Enterable(cur: JsVal, parts: seq<string>, i: nat)
    requires i < |parts|
  {
    cur.Obj? || (cur.Arr? && i > 0 && IsNumericSeg(parts[i]) && IsNumericSeg(parts[i - 1]))
  }

  /** An index segment `n` taken at the array `elems`, whose element `k` holds the
      array: that element becomes an array when it is not one, and its element `n`
      becomes a fresh object when it is falsy. */
  function IndexInArray(elems: seq<Option<JsVal>>, k: nat, n: nat): (m: Move)
    ensures At(m.node, m.down) == Some(m.child)
  {
    var holder := ArrayOrEmpty(ElementOrUndef(elems, k));
    var slot := ElementOrUndef(holder, n);
    var child := if Truthy(slot) then slot else Obj(map[]);
    var arr := SetElement(holder, n, child);
    var m := Move(Arr(SetElement(elems, k, Arr(arr))), [Index(k), Index(n)], child);
    assert Child(m.node, Index(k)) == Some(Arr(arr)) && m.down[1..] == [Index(n)];
    assert At(Arr(arr), [Index(n)]) == At(child, []);
    m
  }

  /** One iteration of the segment loop, at segment `i`, on the node `cur`. */
  function Descend(cur: JsVal, parts: seq<string>, i: nat, value: JsVal): (m: Move)
    requires i < |parts| && Enterable(cur, parts, i)
    ensures At(m.node, m.down) == Some(m.child)
  {
    var part := parts[i];
    if i > 0 && IsNumericSeg(part) && cur.Arr? then
      IndexInArray(cur.elems, DecimalValue(parts[i - 1]), DecimalValue(part))
    else if i > 0 && IsNumericSeg(part) then
      // an array index: the holder is looked up in `cur` under the previous segment
      var arrKey := parts[i - 1];
      var holder := ArrayOrEmpty(Get(cur.fields, arrKey));
      var n := DecimalValue(part);
      var slot := ElementOrUndef(holder, n);
      var child := if Truthy(slot) then slot else Obj(map[]);
      var arr := SetElement(holder, n, child);
      var m := Move(Obj(cur.fields[arrKey := Arr(arr)]), [Field(arrKey), Index(n)], child);
      assert Child(m.node, Field(arrKey)) == Some(Arr(arr)) && m.down[1..] == [Index(n)];
      assert At(Arr(arr), [Index(n)]) == At(child, []);
      m
    else if i == |parts| - 1 then
      var node := Obj(cur.fields[part := value]);
      Move(node, [], node)
    else
      var slot := Get(cur.fields, part);
      var child := if Truthy(slot) then slot else Obj(map[]);
      var m := Move(Obj(cur.fields[part := child]), [Field(part)], child);
      assert At(m.node, m.down) == At(child, []);
      m
  }

  /** The error a walk meets when it cannot take the segment at `cur`. */
  function WriteError(v: JsVal): WalkError {
    if v.Arr? || v.Fun? then UnmodelledProperty else TypeError
  }

  /** The walk of one key from segment `i` on, with `node` in the place of `cur`:
      the new `node`, or the error the walk meets. */
  function Walk(node: JsVal, parts: seq<string>, i: nat, value: JsVal): Result<JsVal, WalkError>
    requires i < |parts|
    decreases |parts| - i
  {
    if !Enterable(node, parts, i) then Err(WriteError(node))
    else
      var m := Descend(node, parts, i, value);
      if i == |parts| - 1 then Ok(m.node)
      else Plug(m.node, m.down, Walk(m.child, parts, i + 1, value))
  }

  /** A result computed for the node at `p`, put back in place in `t`. */
  function Plug(t: JsVal, p: Path, r: Result<JsVal, WalkError>): Result<JsVal, WalkError>
    requires At(t, p).Some?
  {
    match r
    case Err(e) => Err(e)
    case Ok(x) => Ok(Replace(t, p, x))
  }

  /** The walk phase over all entries, in order, from the empty object: the first
      failing key ends the decoding. */
  function Build(entries: seq<(string, JsVal)>): Result<JsVal, WalkError>
    decreases |entries|
  {
    if entries == [] then Ok(Obj(map[]))
    else
      var last := entries[|entries| - 1];
      match Build(entries[..|entries| - 1])
      case Err(e) => Err(e)
      case Ok(t) => Walk(t, SplitComma(last.0), 0, last.1)
  }

  // ---------------------------------------------------------------------------
  // The cleanArrays post-pass

  /** The largest index among numeric keys. */
  ghost function MaxIndex(keys: set<string>): (r: nat)
    requires keys != {} && forall k :: k in keys ==> IsNumericSeg(k)
    ensures forall k :: k in keys ==> DecimalValue(k) <= r
    ensures exists k :: k in keys && DecimalValue(k) == r
    decreases keys
  {
    var k :| k in keys;
    if keys == {k} then DecimalValue(k)
    else
      var m := MaxIndex(keys - {k});
      if DecimalValue(k) > m then DecimalValue(k) else m
  }

  /** `n` slots, slot `i` holding the value of the key that is the numeral of `i`. */
  ghost function Slots(m: map<string, JsVal>, n: nat): (r: seq<Option<JsVal>>)
    ensures |r| == n
    ensures forall i :: 0 <= i < n ==> r[i] == if NatToString(i) in m then Some(m[NatToString(i)]) else None
  {
    seq(n, (i: nat) => if NatToString(i) in m then Some(m[NatToString(i)]) else None)
  }

  /** The array `arr[Number(k)] = obj[k]` builds from an object whose keys are all
      numeric; `NumericKeysLayout` states its shape. */
  ghost function NumericKeysToArray(m: map<string, JsVal>): seq<Option<JsVal>>
    requires m != map[] && forall k :: k in m ==> IsNumericSeg(k)
  {
    Slots(m, MaxIndex(m.Keys) + 1)
  }

  /** The array is one past the largest index long, holds each key's value at the index
      the key names, and has a hole wherever no key names the index. */
  lemma NumericKeysLayout(m: map<string, JsVal>)
    requires m != map[] && forall k :: k in m ==> IsNumericSeg(k)
    ensures var r := NumericKeysToArray(m);
      && (forall k :: k in m ==> DecimalValue(k) < |r| && r[DecimalValue(k)] == Some(m[k]))
      && (forall i :: 0 <= i < |r| ==> (r[i].Some? <==> NatToString(i) in m))
      && |r| > 0 && r[|r| - 1].Some?
  {
    var r := NumericKeysToArray(m);
    forall k | k in m ensures DecimalValue(k) < |r| && r[DecimalValue(k)] == Some(m[k]) {
      NumericSegRoundTrip(k);
    }
    var top :| top in m && DecimalValue(top) == MaxIndex(m.Keys);
    NumericSegRoundTrip(top);
  }

  /** An object is turned into an array when it has keys and all of them are numeric. */
  predicate AllKeysNumeric(m: map<string, JsVal>) {
    m != map[] && forall k :: k in m ==> IsNumericSeg(k)
  }

  /** `cleanArrays`: bottom-up, arrays are cleaned element-wise, objects have their
      values cleaned and then become arrays when all their keys are numeric. */
  ghost function Cleaned(v: JsVal): JsVal
    decreases v
  {
    match v
    case Arr(elems) =>
      Arr(seq(|elems|, i requires 0 <= i < |elems| =>
        if elems[i].Some? then Some(Cleaned(elems[i].value)) else None))
    case Obj(fields) =>
      var f := map k | k in fields :: Cleaned(fields[k]);
      if AllKeysNumeric(f) then Arr(NumericKeysToArray(f)) else Obj(f)
    case _ => v
  }

  /** `unFlattenForm`: the walk over every entry, then the post-pass. */
  ghost function Unflatten(entries: seq<(string, JsVal)>): Result<JsVal, WalkError> {
    match Build(entries)
    case Err(e) => Err(e)
    case Ok(t) => Ok(Cleaned(t))
  }

  // ---------------------------------------------------------------------------
  // The imperative code

  /** The outcome of finishing the segment loop from the state where `cur` is at `p`
      in the result `t` and segment `i` is next. */
  function Resume(t: JsVal, p: Path, parts: seq<string>, i: nat, value: JsVal): Result<JsVal, WalkError>
    requires At(t, p).Some?
  {
    if i < |parts| then Plug(t, p, Walk(At(t, p).value, parts, i, value)) else Ok(t)
  }

  /** The segment loop of one key: `cur` starts at the root and moves down as the
      segments are consumed; every write goes through `cur`. */
  method WalkKey(root: JsVal, parts: seq<string>, value: JsVal) returns (r: Result<JsVal, WalkError>)
    requires |parts| > 0
    ensures r == Walk(root, parts, 0, value)
  {
    var result := root;
    var cur: Path := [];
    var i := 0;
    ResumeStart(root, parts, value);
    while i < |parts|
      invariant 0 <= i <= |parts| && At(result, cur).Some?
      invariant Resume(result, cur, parts, i, value) == Walk(root, parts, 0, value)
    {
      var node := At(result, cur).value;
      if !Enterable(node, parts, i) {
        ResumeStuck(result, cur, parts, i, value);
        return Err(WriteError(node));
      }
      var m := Descend(node, parts, i, value);
      WalkStepResume(result, cur, parts, i, value);
      result := Replace(result, cur, m.node);
      cur := cur + m.down;
      i := i + 1;
    }
    r := Ok(result);
  }

  lemma ResumeStart(root: JsVal, parts: seq<string>, value: JsVal)
    requires |parts| > 0
    ensures At(root, []) == Some(root) && Resume(root, [], parts, 0, value) == Walk(root, parts, 0, value)
  {
    match Walk(root, parts, 0, value)
    case Err(_) =>
    case Ok(x) => assert Replace(root, [], x) == x;
  }

  /** The loop stops with the walk's error when `cur` cannot take the segment. */
  lemma ResumeStuck(t: JsVal, p: Path, parts: seq<string>, i: nat, value: JsVal)
    requires i < |parts| && At(t, p).Some? && !Enterable(At(t, p).value, parts, i)
    ensures Resume(t, p, parts, i, value) == Err(WriteError(At(t, p).value))
  {
  }

  /** One iteration of the segment loop, written through `cur`, leaves the outcome of
      the rest of the loop unchanged. */
  lemma WalkStepResume(t: JsVal, p: Path, parts: seq<string>, i: nat, value: JsVal)
    requires i < |parts| && At(t, p).Some? && Enterable(At(t, p).value, parts, i)
    ensures var m := Descend(At(t, p).value, parts, i, value);
      var t' := Replace(t, p, m.node);
      && At(t', p + m.down).Some?
      && Resume(t', p + m.down, parts, i + 1, value) == Resume(t, p, parts, i, value)
  {
    var m := Descend(At(t, p).value, parts, i, value);
    AtReplace(t, p, m.node, m.down);
    if i < |parts| - 1 {
      var sub := Walk(m.child, parts, i + 1, value);
      if sub.Ok? {
        ReplaceReplace(t, p, m.node, m.down, sub.value);
      }
    }
  }

  /** `cleanArrays`, which rewrites each property of an object in place before
      deciding whether the object becomes an array. */
  method CleanArrays(obj: JsVal) returns (r: JsVal)
    ensures r == Cleaned(obj)
    decreases obj
  {
    match obj {
      case Arr(elems) =>
        var out: seq<Option<JsVal>> := [];
        var i := 0;
        while i < |elems|
          invariant 0 <= i <= |elems| && |out| == i
          invariant forall j :: 0 <= j < i ==> out[j] == if elems[j].Some? then Some(Cleaned(elems[j].value)) else None
        {
          if elems[i].Some? {
            var c := CleanArrays(elems[i].value);
            out := out + [Some(c)];
          } else {
            out := out + [None];
          }
          i := i + 1;
        }
        CleanedElements(elems, out);
        r := Arr(out);
      case Obj(fields) =>
        var f := fields;
        var todo := fields.Keys;
        while todo != {}
          invariant todo <= fields.Keys && f.Keys == fields.Keys
          invariant forall k :: k in fields ==> f[k] == if k in todo then fields[k] else Cleaned(fields[k])
          decreases todo
        {
          var k :| k in todo;
          var c := CleanArrays(fields[k]);
          f := f[k := c];
          todo := todo - {k};
        }
        CleanedFields(fields, f);
        if f != map[] && forall k :: k in f ==> IsNumericSeg(k) {
          var arr := KeysToArray(f);
          r := Arr(arr);
        } else {
          r := Obj(f);
        }
      case _ =>
        r := obj;
    }
  }

  /** An array whose elements have been cleaned one by one is the cleaned array. */
  lemma CleanedElements(elems: seq<Option<JsVal>>, out: seq<Option<JsVal>>)
    requires |out| == |elems|
    requires forall j :: 0 <= j < |elems| ==> out[j] == if elems[j].Some? then Some(Cleaned(elems[j].value)) else None
    ensures Cleaned(Arr(elems)) == Arr(out)
  {
  }

  /** An object whose values have been cleaned one by one is cleaned, then turned into
      an array when its keys are all numeric. */
  lemma CleanedFields(fields: map<string, JsVal>, f: map<string, JsVal>)
    requires f.Keys == fields.Keys
    requires forall k :: k in fields ==> f[k] == Cleaned(fields[k])
    ensures Cleaned(Obj(fields)) == if AllKeysNumeric(f) then Arr(NumericKeysToArray(f)) else Obj(f)
  {
    assert f == map k | k in fields :: Cleaned(fields[k]);
  }

  /** `keys.forEach(k => arr[Number(k)] = obj[k])`, in whatever order the keys come. */
  method KeysToArray(f: map<string, JsVal>) returns (arr: seq<Option<JsVal>>)
    requires f != map[] && forall k :: k in f ==> IsNumericSeg(k)
    ensures arr == NumericKeysToArray(f)
  {
    arr := [];
    var todo := f.Keys;
    while todo != {}
      invariant todo <= f.Keys && ArrayOfKeys(arr, f, f.Keys - todo)
      decreases todo
    {
      var k :| k in todo;
      KeyWritten(arr, f, todo, k);
      arr := SetElement(arr, DecimalValue(k), f[k]);
      todo := todo - {k};
    }
    AllKeysWritten(arr, f, todo);
  }

  /** Writing one more key keeps the array equal to what the written keys determine. */
  lemma KeyWritten(arr: seq<Option<JsVal>>, f: map<string, JsVal>, todo: set<string>, k: string)
    requires forall k :: k in f ==> IsNumericSeg(k)
    requires todo <= f.Keys && k in todo && ArrayOfKeys(arr, f, f.Keys - todo)
    ensures todo - {k} <= f.Keys
    ensures ArrayOfKeys(SetElement(arr, DecimalValue(k), f[k]), f, f.Keys - (todo - {k}))
  {
    var done := f.Keys - todo;
    assert done + {k} == f.Keys - (todo - {k});
    ArrayOfKeysInsert(arr, f, done, k);
  }

  /** Once every key is written, the array is the one the keys determine. */
  lemma AllKeysWritten(arr: seq<Option<JsVal>>, f: map<string, JsVal>, todo: set<string>)
    requires f != map[] && forall k :: k in f ==> IsNumericSeg(k)
    requires todo == {} && ArrayOfKeys(arr, f, f.Keys - todo)
    ensures arr == NumericKeysToArray(f)
  {
    assert f.Keys - todo == f.Keys;
    assert arr == Slots(f, MaxIndex(f.Keys) + 1);
  }

  /** `arr` is what the writes for the keys in `done` have built. */
  ghost predicate ArrayOfKeys(arr: seq<Option<JsVal>>, f: map<string, JsVal>, done: set<string>)
    requires done <= f.Keys && forall k :: k in f ==> IsNumericSeg(k)
  {
    && (done == {} ==> arr == [])
    && (done != {} ==> |arr| == MaxIndex(done) + 1)
    && forall i :: 0 <= i < |arr| ==> arr[i] == if NatToString(i) in done then Some(f[NatToString(i)]) else None
  }

  lemma ArrayOfKeysInsert(arr: seq<Option<JsVal>>, f: map<string, JsVal>, done: set<string>, k: string)
    requires done <= f.Keys && k in f && forall k :: k in f ==> IsNumericSeg(k)
    requires ArrayOfKeys(arr, f, done)
    ensures ArrayOfKeys(SetElement(arr, DecimalValue(k), f[k]), f, done + {k})
  {
    assert IsNumericSeg(k);
    var n := DecimalValue(k);
    var arr' := SetElement(arr, n, f[k]);
    MaxIndexInsert(done, k);
    forall i | 0 <= i < |arr'|
      ensures arr'[i] == if NatToString(i) in done + {k} then Some(f[NatToString(i)]) else None
    {
      NumeralOfIndex(k, i);
      if i >= |arr| && i != n {
        forall d | d in done ensures NatToString(i) != d {
          assert IsNumericSeg(d);
          NumeralOfIndex(d, i);
        }
      }
    }
  }

  /** Adding a key to a set of numeric keys raises the largest index to at least its own. */
  lemma MaxIndexInsert(done: set<string>, k: string)
    requires IsNumericSeg(k) && forall d :: d in done ==> IsNumericSeg(d)
    ensures done == {} ==> MaxIndex(done + {k}) == DecimalValue(k)
    ensures done != {} ==> MaxIndex(done + {k}) == if DecimalValue(k) > MaxIndex(done) then DecimalValue(k) else MaxIndex(done)
  {
    var m := MaxIndex(done + {k});
    var w :| w in done + {k} && DecimalValue(w) == m;
    if done != {} {
      var w' :| w' in done && DecimalValue(w') == MaxIndex(done);
    }
  }

  /** The walk phase then the post-pass, as `unFlattenForm` runs them. */
  method UnFlattenForm(values: seq<(string, JsVal)>) returns (r: Result<JsVal, WalkError>)
    ensures r == Unflatten(values)
  {
    var result := Obj(map[]);
    var k := 0;
    while k < |values|
      invariant 0 <= k <= |values|
      invariant Build(values[..k]) == Ok(result)
    {
      assert values[..k + 1][..k] == values[..k];
      var walked := WalkKey(result, SplitComma(values[k].0), values[k].1);
      if walked.Err? {
        assert Build(values[..k + 1]) == walked;
        BuildStopsAtError(values, k + 1);
        return Err(walked.error);
      }
      result := walked.value;
      k := k + 1;
    }
    assert values[..k] == values;
    var cleaned := CleanArrays(result);
    r := Ok(cleaned);
  }

  /** Once a key fails, the whole decoding fails with that error. */
  lemma {:induction false} BuildStopsAtError(entries: seq<(string, JsVal)>, k: nat)
    requires k <= |entries| && Build(entries[..k]).Err?
    ensures Build(entries) == Build(entries[..k])
    decreases |entries| - k
  {
    if k == |entries| {
      assert entries[..k] == entries;
    } else {
      assert entries[..k + 1][..k] == entries[..k];
      BuildStopsAtError(entries, k + 1);
    }
  }

  // ---------------------------------------------------------------------------
  // filterEmptyValues

  /** The values `filterEmptyValues` drops: '', null and undefined (and nothing else
      falsy: 0 and false stay). */
  predicate IsEmptyValue(v: JsVal) {
    v == Str("") || v == Null || v == Undef
  }

  /** `filterEmptyValues`: copy the record, then delete each key whose value is empty. */
  method FilterEmptyValues(data: map<string, JsVal>) returns (r: map<string, JsVal>)
    ensures forall k :: k in r <==> k in data && !IsEmptyValue(data[k])
    ensures forall k :: k in r ==> r[k] == data[k]
  {
    r := data;
    var keys := r.Keys;
    while keys != {}
      invariant keys <= data.Keys && r.Keys <= data.Keys
      invariant forall k :: k in r ==> r[k] == data[k]
      invariant forall k :: k in keys ==> k in r
      invariant forall k :: k in data && k !in keys ==> (k in r <==> !IsEmptyValue(data[k]))
      decreases keys
    {
      var key :| key in keys;
      var value := r[key];
      if value == Str("") || value == Null || value == Undef {
        r := r - {key};
      }
      keys := keys - {key};
    }
  }
}
