/** The column-descriptor utilities: `validateColumns`, which reports what is wrong
    with each descriptor of a column list, and `normalizeColumns`, which fills in the
    fields a descriptor may leave implicit. */
module Columns {
  import opened JsValues

  // ---------------------------------------------------------------------------
  // Validation

  /** What a single descriptor can be reported for, in the order of the checks. */
  datatype Problem =
    | NotAnObject
    | MissingTitleAndDataIndex
    | DataIndexNotString
    | NameNotString
    | OrderNotNumber
    | BadComponent

  /** A problem of the descriptor at (0-based) position `index`. */
  datatype ColumnIssue = ColumnIssue(index: nat, problem: Problem)

  /** The `{ valid, errors }` record `validateColumns` returns. */
  datatype Validation = Validation(valid: bool, errors: seq<string>)

  /** `col.k`: objects have their own properties; on any other value that passes the
      object test (an array) a descriptor property reads as undefined. */
  function Prop(col: JsVal, k: string): JsVal {
    if col.Obj? then Get(col.fields, k) else Undef
  }

  /** The descriptor is truthy and its `typeof` is object: it can be checked field by field. */
  predicate IsObjectElement(col: JsVal) {
    Truthy(col) && IsTypeofObject(col)
  }

  /** Whether the descriptor is reported for `p`: `NotAnObject` alone for a value that
      is not an object, and otherwise each field check on its own. */
  predicate Violates(col: JsVal, p: Problem) {
    match p
    case NotAnObject => !IsObjectElement(col)
    case MissingTitleAndDataIndex =>
      IsObjectElement(col) && !Truthy(Prop(col, "title")) && !Truthy(Prop(col, "dataIndex"))
    case DataIndexNotString =>
      IsObjectElement(col) && Truthy(Prop(col, "dataIndex")) && !Prop(col, "dataIndex").Str?
    case NameNotString =>
      IsObjectElement(col) && Truthy(Prop(col, "name")) && !Prop(col, "name").Str?
    case OrderNotNumber =>
      IsObjectElement(col) && Prop(col, "order") != Undef && !Prop(col, "order").Num?
    case BadComponent =>
      var c := Prop(col, "component");
      IsObjectElement(col) && Truthy(c) && !c.Fun? && !IsTypeofObject(c)
  }

  /** The position of a problem in the sequence of checks. */
  function Rank(p: Problem): nat {
    match p
    case NotAnObject => 0
    case MissingTitleAndDataIndex => 1
    case DataIndexNotString => 2
    case NameNotString => 3
    case OrderNotNumber => 4
    case BadComponent => 5
  }

  /** The problem `p`, reported when its check `c` fails. */
  function Report(c: bool, p: Problem): seq<Problem> {
    if c then [p] else []
  }

  /** The field checks of an object descriptor, in order. */
  function FieldProblems(col: JsVal): seq<Problem> {
    Report(Violates(col, MissingTitleAndDataIndex), MissingTitleAndDataIndex)
    + Report(Violates(col, DataIndexNotString), DataIndexNotString)
    + Report(Violates(col, NameNotString), NameNotString)
    + Report(Violates(col, OrderNotNumber), OrderNotNumber)
    + Report(Violates(col, BadComponent), BadComponent)
  }

  predicate RankSorted(r: seq<Problem>) {
    forall a, b :: 0 <= a < b < |r| ==> Rank(r[a]) < Rank(r[b])
  }

  /** Appending a check that comes later than every problem found so far keeps the
      problems in check order. */
  lemma AppendIf(r: seq<Problem>, c: bool, p: Problem)
    requires RankSorted(r) && forall q :: q in r ==> Rank(q) < Rank(p)
    ensures RankSorted(r + Report(c, p))
    ensures forall q :: q in r + Report(c, p) <==> q in r || (c && q == p)
    ensures forall q :: q in r + Report(c, p) ==> Rank(q) <= Rank(p)
    ensures |r + Report(c, p)| == |r| + (if c then 1 else 0)
  {
    if c {
      forall a, b | 0 <= a < b < |r| + 1 ensures Rank((r + [p])[a]) < Rank((r + [p])[b]) {
        assert (r + [p])[a] == r[a];
        if b == |r| {
          assert r[a] in r;
        } else {
          assert (r + [p])[b] == r[b];
        }
      }
    } else {
      assert r + [] == r;
    }
  }

  /** The five field checks, given their outcomes, report those that fail, in check
      order; the first two cannot fail together. */
  lemma ChecksFacts(c1: bool, c2: bool, c3: bool, c4: bool, c5: bool)
    requires !(c1 && c2)
    ensures var r := Report(c1, MissingTitleAndDataIndex) + Report(c2, DataIndexNotString)
                   + Report(c3, NameNotString) + Report(c4, OrderNotNumber) + Report(c5, BadComponent);
      && (forall p :: p in r <==>
            || (c1 && p == MissingTitleAndDataIndex) || (c2 && p == DataIndexNotString)
            || (c3 && p == NameNotString) || (c4 && p == OrderNotNumber) || (c5 && p == BadComponent))
      && RankSorted(r) && |r| <= 4
  {
    var r0: seq<Problem> := [];
    AppendIf(r0, c1, MissingTitleAndDataIndex);
    var r1 := r0 + Report(c1, MissingTitleAndDataIndex);
    AppendIf(r1, c2, DataIndexNotString);
    var r2 := r1 + Report(c2, DataIndexNotString);
    AppendIf(r2, c3, NameNotString);
    var r3 := r2 + Report(c3, NameNotString);
    AppendIf(r3, c4, OrderNotNumber);
    var r4 := r3 + Report(c4, OrderNotNumber);
    AppendIf(r4, c5, BadComponent);
    assert r0 + Report(c1, MissingTitleAndDataIndex) == Report(c1, MissingTitleAndDataIndex);
  }

  /** The field checks of an object descriptor report exactly its violations, in check
      order, at most four of them. */
  lemma FieldProblemsFacts(col: JsVal)
    requires IsObjectElement(col)
    ensures var r := FieldProblems(col);
      && (forall p :: p in r <==> Violates(col, p))
      && RankSorted(r) && |r| <= 4
  {
    ChecksFacts(Violates(col, MissingTitleAndDataIndex), Violates(col, DataIndexNotString),
      Violates(col, NameNotString), Violates(col, OrderNotNumber), Violates(col, BadComponent));
    assert !Violates(col, NotAnObject);
  }

  /** The problems one descriptor is reported for, in the order they are checked. At
      most four: a missing title and dataIndex rules out a dataIndex of the wrong type. */
  function ElementProblems(col: JsVal): (r: seq<Problem>)
    ensures forall p :: p in r <==> Violates(col, p)
    ensures forall a, b :: 0 <= a < b < |r| ==> Rank(r[a]) < Rank(r[b])
    ensures NotAnObject in r ==> r == [NotAnObject]
    ensures |r| <= 4
  {
    if !IsObjectElement(col) then [NotAnObject]
    else
      FieldProblemsFacts(col);
      FieldProblems(col)
  }

  /** The problems of one descriptor, tagged with its position. */
  function Tagged(i: nat, ps: seq<Problem>): seq<ColumnIssue> {
    seq(|ps|, j requires 0 <= j < |ps| => ColumnIssue(i, ps[j]))
  }

  /** The problems of a whole column list, element by element; `forEach` skips holes. */
  function ColumnsProblems(elems: seq<Option<JsVal>>): (r: seq<ColumnIssue>)
    ensures forall j :: 0 <= j < |r| ==> r[j].index < |elems|
    ensures forall a, b :: 0 <= a < b < |r| ==> r[a].index <= r[b].index
    decreases |elems|
  {
    if elems == [] then []
    else
      var i := |elems| - 1;
      var before := ColumnsProblems(elems[..i]);
      before + (if elems[i].Some? then Tagged(i, ElementProblems(elems[i].value)) else [])
  }

  /** The message text of each problem. */
  function ProblemText(p: Problem): string {
    match p
    case NotAnObject => "必须是一个对象"
    case MissingTitleAndDataIndex => "必须提供 title 或 dataIndex"
    case DataIndexNotString => "dataIndex 必须是字符串"
    case NameNotString => "name 必须是字符串"
    case OrderNotNumber => "order 必须是数字"
    case BadComponent => "component 必须是函数或组件对象"
  }

  /** The reported message: the 1-based position, then the problem's text. */
  function Message(issue: ColumnIssue): string {
    "第 " + NatToString(issue.index + 1) + " 列: " + ProblemText(issue.problem)
  }

  const NotAnArrayMessage: string := "columns 必须是一个数组"

  /** The message of each issue, in order. */
  function Render(issues: seq<ColumnIssue>): seq<string> {
    seq(|issues|, j requires 0 <= j < |issues| => Message(issues[j]))
  }

  /** `validateColumns`: a non-array is one error; otherwise one message per problem of
      each descriptor, in element order, and the list is valid exactly when there are
      none. */
  function Validate(columns: JsVal): (r: Validation)
    ensures r.valid <==> r.errors == []
    ensures !columns.Arr? ==> r.errors == [NotAnArrayMessage]
    ensures columns.Arr? ==> |r.errors| == |ColumnsProblems(columns.elems)|
  {
    if !columns.Arr? then Validation(false, [NotAnArrayMessage])
    else
      var errors := Render(ColumnsProblems(columns.elems));
      Validation(errors == [], errors)
  }

  lemma RenderAppend(a: seq<ColumnIssue>, b: seq<ColumnIssue>)
    ensures Render(a + b) == Render(a) + Render(b)
  {
    assert |Render(a + b)| == |Render(a) + Render(b)|;
    forall j | 0 <= j < |a| + |b| ensures Render(a + b)[j] == (Render(a) + Render(b))[j] {
      if j < |a| {
        assert (a + b)[j] == a[j];
      } else {
        assert (a + b)[j] == b[j - |a|];
      }
    }
  }

  lemma RenderTaggedSnoc(i: nat, ps: seq<Problem>, p: Problem)
    ensures Render(Tagged(i, ps + [p])) == Render(Tagged(i, ps)) + [Message(ColumnIssue(i, p))]
  {
    assert |Render(Tagged(i, ps + [p]))| == |ps| + 1;
    forall j | 0 <= j <= |ps|
      ensures Render(Tagged(i, ps + [p]))[j] == (Render(Tagged(i, ps)) + [Message(ColumnIssue(i, p))])[j]
    {
      if j < |ps| {
        assert (ps + [p])[j] == ps[j];
      }
    }
  }

  /** The checks of one descriptor at position `i`, pushing a message for each failing
      check, as the body of the `forEach` callback does. */
  method CheckColumn(col: JsVal, i: nat) returns (msgs: seq<string>)
    ensures msgs == Render(Tagged(i, ElementProblems(col)))
  {
    if !Truthy(col) || !IsTypeofObject(col) {
      msgs := [Message(ColumnIssue(i, NotAnObject))];
      RenderTaggedSnoc(i, [], NotAnObject);
      assert [] + [NotAnObject] == [NotAnObject];
      return;
    }
    msgs := [];
    var missing := !Truthy(Prop(col, "title")) && !Truthy(Prop(col, "dataIndex"));
    RenderStep(i, [], missing, MissingTitleAndDataIndex, msgs);
    if missing {
      msgs := msgs + [Message(ColumnIssue(i, MissingTitleAndDataIndex))];
    }
    ghost var ps := Report(missing, MissingTitleAndDataIndex);
    assert [] + ps == ps;
    var dataIndex := Prop(col, "dataIndex");
    var badIndex := Truthy(dataIndex) && !dataIndex.Str?;
    RenderStep(i, ps, badIndex, DataIndexNotString, msgs);
    if badIndex {
      msgs := msgs + [Message(ColumnIssue(i, DataIndexNotString))];
    }
    ps := ps + Report(badIndex, DataIndexNotString);
    var name := Prop(col, "name");
    var badName := Truthy(name) && !name.Str?;
    RenderStep(i, ps, badName, NameNotString, msgs);
    if badName {
      msgs := msgs + [Message(ColumnIssue(i, NameNotString))];
    }
    ps := ps + Report(badName, NameNotString);
    var order := Prop(col, "order");
    var badOrder := order != Undef && !order.Num?;
    RenderStep(i, ps, badOrder, OrderNotNumber, msgs);
    if badOrder {
      msgs := msgs + [Message(ColumnIssue(i, OrderNotNumber))];
    }
    ps := ps + Report(badOrder, OrderNotNumber);
    var component := Prop(col, "component");
    var badComponent := Truthy(component) && !component.Fun? && !IsTypeofObject(component);
    RenderStep(i, ps, badComponent, BadComponent, msgs);
    if badComponent {
      msgs := msgs + [Message(ColumnIssue(i, BadComponent))];
    }
    ps := ps + Report(badComponent, BadComponent);
    FieldChecks(col, missing, badIndex, badName, badOrder, badComponent);
  }

  /** The field checks of an object descriptor, given the outcome of each. */
  lemma FieldChecks(col: JsVal, c1: bool, c2: bool, c3: bool, c4: bool, c5: bool)
    requires IsObjectElement(col)
    requires c1 == (!Truthy(Prop(col, "title")) && !Truthy(Prop(col, "dataIndex")))
    requires c2 == (Truthy(Prop(col, "dataIndex")) && !Prop(col, "dataIndex").Str?)
    requires c3 == (Truthy(Prop(col, "name")) && !Prop(col, "name").Str?)
    requires c4 == (Prop(col, "order") != Undef && !Prop(col, "order").Num?)
    requires c5 == (Truthy(Prop(col, "component")) && !Prop(col, "component").Fun? && !IsTypeofObject(Prop(col, "component")))
    ensures FieldProblems(col) == Report(c1, MissingTitleAndDataIndex) + Report(c2, DataIndexNotString)
      + Report(c3, NameNotString) + Report(c4, OrderNotNumber) + Report(c5, BadComponent)
  {
    assert c1 == Violates(col, MissingTitleAndDataIndex);
    assert c2 == Violates(col, DataIndexNotString);
    assert c3 == Violates(col, NameNotString);
    assert c4 == Violates(col, OrderNotNumber);
    assert c5 == Violates(col, BadComponent);
  }


  /** One check of `CheckColumn`: pushing the message when the check fails renders the
      problems found so far followed by this one. */
  lemma RenderStep(i: nat, ps: seq<Problem>, c: bool, p: Problem, msgs: seq<string>)
    requires msgs == Render(Tagged(i, ps))
    ensures (if c then msgs + [Message(ColumnIssue(i, p))] else msgs) == Render(Tagged(i, ps + Report(c, p)))
  {
    if c {
      RenderTaggedSnoc(i, ps, p);
    } else {
      assert ps + [] == ps;
    }
  }


  /** One more element of the list adds the problems of that element, if present. */
  lemma ColumnsProblemsSnoc(elems: seq<Option<JsVal>>, i: nat)
    requires i < |elems|
    ensures ColumnsProblems(elems[..i + 1]) == ColumnsProblems(elems[..i])
      + (if elems[i].Some? then Tagged(i, ElementProblems(elems[i].value)) else [])
  {
    assert elems[..i + 1][..i] == elems[..i];
  }

  /** `validateColumns`, as the loop over the elements that pushes onto `errors`. */
  method ValidateColumns(columns: JsVal) returns (r: Validation)
    ensures r == Validate(columns)
  {
    if !columns.Arr? {
      return Validation(false, [NotAnArrayMessage]);
    }
    var elems := columns.elems;
    var errors: seq<string> := [];
    var i := 0;
    while i < |elems|
      invariant 0 <= i <= |elems|
      invariant errors == Render(ColumnsProblems(elems[..i]))
    {
      ColumnsProblemsSnoc(elems, i);
      if elems[i].Some? {
        var msgs := CheckColumn(elems[i].value, i);
        RenderAppend(ColumnsProblems(elems[..i]), Tagged(i, ElementProblems(elems[i].value)));
        errors := errors + msgs;
      } else {
        assert ColumnsProblems(elems[..i]) + [] == ColumnsProblems(elems[..i]);
      }
      i := i + 1;
    }
    assert elems[..i] == elems;
    return Validation(|errors| == 0, errors);
  }

  /** The descriptor at position `i` is reported for `p` exactly when it is present
      and violates the check. */
  lemma {:induction false} IssueOf(elems: seq<Option<JsVal>>, i: nat, p: Problem)
    ensures ColumnIssue(i, p) in ColumnsProblems(elems)
      <==> i < |elems| && elems[i].Some? && Violates(elems[i].value, p)
    decreases |elems|
  {
    if elems != [] {
      var n := |elems| - 1;
      IssueOf(elems[..n], i, p);
      IssueOfLast(elems, i, p);
      if i < n {
        assert elems[..n][i] == elems[i];
      }
    }
  }

  /** The issues of a non-empty list: those of all but its last element, and those of
      the last. */
  lemma IssueOfLast(elems: seq<Option<JsVal>>, i: nat, p: Problem)
    requires elems != []
    ensures var n, x := |elems| - 1, ColumnIssue(i, p);
      x in ColumnsProblems(elems) <==> x in ColumnsProblems(elems[..n]) || (i == n && elems[n].Some? && Violates(elems[n].value, p))
  {
    var n := |elems| - 1;
    var before := ColumnsProblems(elems[..n]);
    var here := if elems[n].Some? then Tagged(n, ElementProblems(elems[n].value)) else [];
    assert ColumnsProblems(elems) == before + here;
    if elems[n].Some? {
      TaggedMembership(n, ElementProblems(elems[n].value), i, p);
    }
  }


  lemma TaggedMembership(n: nat, ps: seq<Problem>, i: nat, p: Problem)
    ensures ColumnIssue(i, p) in Tagged(n, ps) <==> i == n && p in ps
  {
    if i == n && p in ps {
      var j :| 0 <= j < |ps| && ps[j] == p;
      assert Tagged(n, ps)[j] == ColumnIssue(i, p);
    }
  }


  /** A list is valid exactly when every present descriptor passes every check. */
  lemma ValidIffAllPass(elems: seq<Option<JsVal>>)
    ensures Validate(Arr(elems)).valid
      <==> forall i, p :: 0 <= i < |elems| && elems[i].Some? ==> !Violates(elems[i].value, p)
  {
    var issues := ColumnsProblems(elems);
    if issues != [] {
      var x := issues[0];
      IssueOf(elems, x.index, x.problem);
    }
    if !Validate(Arr(elems)).valid {
      assert issues != [];
    }
    forall i, p | 0 <= i < |elems| && elems[i].Some? && Violates(elems[i].value, p)
      ensures issues != []
    {
      IssueOf(elems, i, p);
    }
  }

  /** A non-object element is reported once, and only for that. */
  lemma NonObjectReportedOnce(elems: seq<Option<JsVal>>, i: nat)
    requires i < |elems| && elems[i].Some? && !IsObjectElement(elems[i].value)
    ensures forall p :: ColumnIssue(i, p) in ColumnsProblems(elems) <==> p == NotAnObject
  {
    forall p ensures ColumnIssue(i, p) in ColumnsProblems(elems) <==> p == NotAnObject {
      IssueOf(elems, i, p);
    }
  }

  // ---------------------------------------------------------------------------
  // Normalisation

  /** The own enumerable properties of the elements of an array, keyed by index. */
  function ArraySpread(elems: seq<Option<JsVal>>): (r: map<string, JsVal>)
    ensures forall k :: k in r ==> IsNumericSeg(k)
    decreases |elems|
  {
    if elems == [] then map[]
    else
      var i := |elems| - 1;
      var before := ArraySpread(elems[..i]);
      if elems[i].Some? then before[NatToString(i) := elems[i].value] else before
  }

  /** The characters of a string, keyed by index. */
  function StringSpread(s: string): (r: map<string, JsVal>)
    ensures forall k :: k in r ==> IsNumericSeg(k)
    decreases |s|
  {
    if s == [] then map[]
    else
      var i := |s| - 1;
      StringSpread(s[..i])[NatToString(i) := Str([s[i]])]
  }

  /** `{ ...col }`: objects are copied; arrays and strings give their index keys; every
      other value gives the empty object. */
  function Spread(col: JsVal): map<string, JsVal> {
    match col
    case Obj(f) => f
    case Arr(elems) => ArraySpread(elems)
    case Str(s) => StringSpread(s)
    case _ => map[]
  }

  /** The `fieldProps` given to a descriptor with a component and none of its own. */
  const DefaultFieldProps: JsVal := Obj(map["placeholder" := Str("请输入"), "allowClear" := Bool(true)])

  /** The four fields normalisation may fill in. */
  const FilledKeys: set<string> := {"name", "label", "hideInTable", "fieldProps"}

  /** What a fill step may do: add or change only one of `FilledKeys`, and only to a
      truthy value. Every other key keeps its value. */
  predicate Extends(s: map<string, JsVal>, r: map<string, JsVal>) {
    s.Keys <= r.Keys && forall k :: k in r && (k !in s || r[k] != s[k]) ==> k in FilledKeys && Truthy(r[k])
  }

  lemma ExtendsTrans(a: map<string, JsVal>, b: map<string, JsVal>, c: map<string, JsVal>)
    requires Extends(a, b) && Extends(b, c)
    ensures Extends(a, c)
  {
    forall k | k in c && (k !in a || c[k] != a[k]) ensures k in FilledKeys && Truthy(c[k]) {
      if k !in b || c[k] != b[k] {
      } else {
        assert k !in a || b[k] != a[k];
      }
    }
  }

  /** A falsy `name` is filled from a truthy `dataIndex`. */
  function FillName(s: map<string, JsVal>): map<string, JsVal> {
    if !Truthy(Get(s, "name")) && Truthy(Get(s, "dataIndex")) then s["name" := s["dataIndex"]] else s
  }

  /** A falsy `label` is filled from a truthy `title`. */
  function FillLabel(s: map<string, JsVal>): map<string, JsVal> {
    if !Truthy(Get(s, "label")) && Truthy(Get(s, "title")) then s["label" := s["title"]] else s
  }

  /** A column whose `visible` is false and whose `hideInTable` is undefined is hidden
      in the table. */
  function FillHideInTable(s: map<string, JsVal>): map<string, JsVal> {
    if Get(s, "visible") == Bool(false) && Get(s, "hideInTable") == Undef then s["hideInTable" := Bool(true)] else s
  }

  /** A column with a component and falsy `fieldProps` gets the default props. */
  function FillFieldProps(s: map<string, JsVal>): map<string, JsVal> {
    if Truthy(Get(s, "component")) && !Truthy(Get(s, "fieldProps")) then s["fieldProps" := DefaultFieldProps] else s
  }

  /** The four fill steps in turn touch only `FilledKeys`, and only to truthy values. */
  lemma FillsExtend(s: map<string, JsVal>)
    ensures Extends(s, FillFieldProps(FillHideInTable(FillLabel(FillName(s)))))
  {
    var s1 := FillName(s);
    var s2 := FillLabel(s1);
    var s3 := FillHideInTable(s2);
    var r := FillFieldProps(s3);
    assert Extends(s, s1) && Extends(s1, s2) && Extends(s2, s3) && Extends(s3, r);
    ExtendsTrans(s, s1, s2);
    ExtendsTrans(s, s2, s3);
    ExtendsTrans(s, s3, r);
  }


  /** The normalisation of one descriptor: the copy with `name`, `label`, `hideInTable`
      and `fieldProps` filled in under their conditions. Keys are only added, only those
      four, and only with truthy values. */
  function NormalizeColumn(col: JsVal): (r: map<string, JsVal>)
    ensures var s := Spread(col);
      s.Keys <= r.Keys && r.Keys <= s.Keys + FilledKeys &&
      (forall k :: k in r && k !in FilledKeys ==> r[k] == s[k]) &&
      (forall k :: k in r && k !in s ==> Truthy(r[k]))
  {
    var s := Spread(col);
    FillsExtend(s);
    FillFieldProps(FillHideInTable(FillLabel(FillName(s))))
  }

  /** `normalizeColumns`: every element normalised, holes left in place. */
  function NormalizeColumns(columns: seq<Option<JsVal>>): (r: seq<Option<JsVal>>)
    ensures |r| == |columns|
    ensures forall i :: 0 <= i < |r| ==> (r[i].Some? <==> columns[i].Some?)
  {
    seq(|columns|, i requires 0 <= i < |columns| =>
      if columns[i].Some? then Some(Obj(NormalizeColumn(columns[i].value))) else None)
  }

  /** `name` is filled from a truthy `dataIndex` when it is falsy; a truthy `name` is
      kept. Afterwards `name` is truthy exactly when `name` or `dataIndex` was. */
  lemma NormalizeName(col: JsVal)
    ensures var s, r := Spread(col), NormalizeColumn(col);
      (Truthy(Get(s, "name")) ==> Get(r, "name") == Get(s, "name")) &&
      (!Truthy(Get(s, "name")) && Truthy(Get(s, "dataIndex")) ==> Get(r, "name") == Get(s, "dataIndex")) &&
      (!Truthy(Get(s, "name")) && !Truthy(Get(s, "dataIndex")) ==> Get(r, "name") == Get(s, "name")) &&
      (Truthy(Get(r, "name")) <==> Truthy(Get(s, "name")) || Truthy(Get(s, "dataIndex")))
  {
  }

  /** `label` is filled from a truthy `title` when it is falsy; a truthy `label` is kept. */
  lemma NormalizeLabel(col: JsVal)
    ensures var s, r := Spread(col), NormalizeColumn(col);
      (Truthy(Get(s, "label")) ==> Get(r, "label") == Get(s, "label")) &&
      (!Truthy(Get(s, "label")) && Truthy(Get(s, "title")) ==> Get(r, "label") == Get(s, "title")) &&
      (!Truthy(Get(s, "label")) && !Truthy(Get(s, "title")) ==> Get(r, "label") == Get(s, "label")) &&
      (Truthy(Get(r, "label")) <==> Truthy(Get(s, "label")) || Truthy(Get(s, "title")))
  {
    var s := Spread(col);
    var s1 := FillName(s);
    var s2 := FillLabel(s1);
    assert Get(s1, "label") == Get(s, "label") && Get(s1, "title") == Get(s, "title");
    assert Get(NormalizeColumn(col), "label") == Get(s2, "label");
  }

  /** `hideInTable` changes only when `visible` is false and `hideInTable` is undefined,
      and then it becomes true. */
  lemma NormalizeHideInTable(col: JsVal)
    ensures var s, r := Spread(col), NormalizeColumn(col);
      ((Get(r, "hideInTable") != Get(s, "hideInTable"))
        <==> (Get(s, "visible") == Bool(false) && Get(s, "hideInTable") == Undef)) &&
      (Get(r, "hideInTable") != Get(s, "hideInTable") ==> Get(r, "hideInTable") == Bool(true))
  {
  }

  /** A descriptor with a truthy component always ends up with truthy `fieldProps`; the
      default is supplied exactly when it had none. */
  lemma NormalizeFieldProps(col: JsVal)
    ensures var s, r := Spread(col), NormalizeColumn(col);
      ((Get(r, "fieldProps") != Get(s, "fieldProps"))
        <==> (Truthy(Get(s, "component")) && !Truthy(Get(s, "fieldProps")))) &&
      (Get(r, "fieldProps") != Get(s, "fieldProps") ==> Get(r, "fieldProps") == DefaultFieldProps) &&
      (Truthy(Get(s, "component")) ==> Truthy(Get(r, "fieldProps")))
  {
  }

  /** Normalising a normalised descriptor changes nothing. */
  lemma NormalizeColumnIdempotent(col: JsVal)
    ensures NormalizeColumn(Obj(NormalizeColumn(col))) == NormalizeColumn(col)
  {
    var r := NormalizeColumn(col);
    NameSettled(col);
    LabelSettled(col);
    HideInTableSettled(col);
    FieldPropsSettled(col);
    assert Spread(Obj(r)) == r;
  }

  lemma NameSettled(col: JsVal)
    ensures FillName(NormalizeColumn(col)) == NormalizeColumn(col)
  {
    var s, r := Spread(col), NormalizeColumn(col);
    NormalizeName(col);
    assert Get(r, "dataIndex") == Get(s, "dataIndex");
  }

  lemma LabelSettled(col: JsVal)
    ensures FillLabel(NormalizeColumn(col)) == NormalizeColumn(col)
  {
    var s, r := Spread(col), NormalizeColumn(col);
    NormalizeLabel(col);
    assert Get(r, "title") == Get(s, "title");
  }

  lemma HideInTableSettled(col: JsVal)
    ensures FillHideInTable(NormalizeColumn(col)) == NormalizeColumn(col)
  {
    var s, r := Spread(col), NormalizeColumn(col);
    NormalizeHideInTable(col);
    assert Get(r, "visible") == Get(s, "visible");
  }

  lemma FieldPropsSettled(col: JsVal)
    ensures FillFieldProps(NormalizeColumn(col)) == NormalizeColumn(col)
  {
    var s, r := Spread(col), NormalizeColumn(col);
    NormalizeFieldProps(col);
    assert Get(r, "component") == Get(s, "component");
  }

  /** `normalizeColumns` twice is `normalizeColumns` once. */
  lemma NormalizeColumnsIdempotent(columns: seq<Option<JsVal>>)
    ensures NormalizeColumns(NormalizeColumns(columns)) == NormalizeColumns(columns)
  {
    var once := NormalizeColumns(columns);
    forall i | 0 <= i < |columns| && columns[i].Some?
      ensures NormalizeColumns(once)[i] == once[i]
    {
      NormalizeColumnIdempotent(columns[i].value);
    }
  }

  /** A list of one descriptor is valid exactly when that descriptor passes every check. */
  lemma ValidSingle(col: JsVal)
    ensures ColumnsProblems([Some(col)]) == Tagged(0, ElementProblems(col))
    ensures Validate(Arr([Some(col)])).valid <==> ElementProblems(col) == []
  {
    var elems := [Some(col)];
    assert elems[..0] == [];
    assert ColumnsProblems(elems) == [] + Tagged(0, ElementProblems(col));
    assert [] + Tagged(0, ElementProblems(col)) == Tagged(0, ElementProblems(col));
  }

  /** The problems of a list of two descriptors: those of the first, then those of the
      second. */
  lemma ProblemsOfTwo(a: JsVal, b: JsVal)
    ensures ColumnsProblems([Some(a), Some(b)]) == Tagged(0, ElementProblems(a)) + Tagged(1, ElementProblems(b))
  {
    var elems := [Some(a), Some(b)];
    assert elems[..1] == [Some(a)];
    ValidSingle(a);
  }

  /** A descriptor that is not an object is invalid, and so is the spread copy of it:
      neither has a title or a dataIndex. */
  lemma NormalizeNonObject(col: JsVal)
    requires !col.Obj?
    ensures ElementProblems(col) != [] && ElementProblems(Obj(NormalizeColumn(col))) != []
  {
    var r := Obj(NormalizeColumn(col));
    assert !IsNumericSeg("title") by {
      assert !IsDigit("title"[0]);
    }
    assert !IsNumericSeg("dataIndex") by {
      assert !IsDigit("dataIndex"[0]);
    }
    assert "title" !in Spread(col) && "dataIndex" !in Spread(col);
    UnfilledKept(col, "title");
    UnfilledKept(col, "dataIndex");
    assert Prop(r, "title") == Undef && Prop(r, "dataIndex") == Undef;
    assert IsObjectElement(r);
    assert Violates(r, MissingTitleAndDataIndex);
    if IsObjectElement(col) {
      assert Violates(col, MissingTitleAndDataIndex);
    } else {
      assert Violates(col, NotAnObject);
    }
  }

  /** Normalisation leaves every key outside `FilledKeys` as the spread copy has it. */
  lemma UnfilledKept(col: JsVal, k: string)
    requires k !in FilledKeys
    ensures Get(NormalizeColumn(col), k) == Get(Spread(col), k)
  {
  }

  /** On an object descriptor, the copy keeps every failed check, and fails only those
      and, when `name` was filled from a `dataIndex` that is not a string, the name check. */
  lemma NormalizeObject(fields: map<string, JsVal>)
    ensures var r := Obj(NormalizeColumn(Obj(fields)));
      (forall p :: Violates(Obj(fields), p) ==> Violates(r, p)) &&
      (forall p :: Violates(r, p) ==> Violates(Obj(fields), p) || Violates(Obj(fields), DataIndexNotString))
  {
    var col := Obj(fields);
    var n := NormalizeColumn(col);
    var r := Obj(n);
    NormalizeName(col);
    UnfilledKept(col, "title");
    UnfilledKept(col, "dataIndex");
    UnfilledKept(col, "order");
    UnfilledKept(col, "component");
    forall p ensures (Violates(col, p) ==> Violates(r, p))
      && (Violates(r, p) ==> Violates(col, p) || Violates(col, DataIndexNotString))
    {
      if p == NameNotString {
        if !Truthy(Prop(col, "name")) && Truthy(Prop(col, "dataIndex")) {
          assert Prop(r, "name") == Prop(col, "dataIndex");
        } else {
          assert Prop(r, "name") == Prop(col, "name");
        }
      }
    }
  }

  /** Normalising a descriptor never turns a valid one invalid or an invalid one valid. */
  lemma NormalizeKeepsValidity(col: JsVal)
    ensures ElementProblems(Obj(NormalizeColumn(col))) == [] <==> ElementProblems(col) == []
  {
    if !col.Obj? {
      NormalizeNonObject(col);
    } else {
      var r := Obj(NormalizeColumn(col));
      NormalizeObject(col.fields);
      if ElementProblems(r) != [] {
        assert Violates(r, ElementProblems(r)[0]);
      }
      if ElementProblems(col) != [] {
        assert Violates(col, ElementProblems(col)[0]);
      }
    }
  }

  // ---------------------------------------------------------------------------
  // Worked examples

  /** A descriptor with a non-empty string title and dataIndex passes every check. */
  lemma CompleteDescriptor(t: string, d: string)
    requires t != "" && d != ""
    ensures ElementProblems(Obj(map["title" := Str(t), "dataIndex" := Str(d)])) == []
  {
    var col := Obj(map["title" := Str(t), "dataIndex" := Str(d)]);
    assert forall p :: !Violates(col, p);
  }

  /** Two complete descriptors are valid. */
  lemma ValidateGoodExample()
    ensures Validate(Arr([Some(Obj(map["title" := Str("ID"), "dataIndex" := Str("id")])),
                          Some(Obj(map["title" := Str("Name"), "dataIndex" := Str("name")]))]))
      == Validation(true, [])
  {
    var good := [Some(Obj(map["title" := Str("ID"), "dataIndex" := Str("id")])),
                 Some(Obj(map["title" := Str("Name"), "dataIndex" := Str("name")]))];
    CompleteDescriptor("ID", "id");
    CompleteDescriptor("Name", "name");
    ColumnsProblemsSnoc(good, 0);
    ColumnsProblemsSnoc(good, 1);
    assert good[..0] == [] && good[..2] == good;
  }

  lemma OnlyHideInSearch()
    ensures ElementProblems(Obj(map["hideInSearch" := Bool(true)])) == [MissingTitleAndDataIndex]
  {
    var a := Obj(map["hideInSearch" := Bool(true)]);
    assert forall p :: Violates(a, p) <==> p == MissingTitleAndDataIndex;
  }

  lemma NumericDataIndex()
    ensures ElementProblems(Obj(map["title" := Str("Test"), "dataIndex" := Num(123)])) == [DataIndexNotString]
  {
    var b := Obj(map["title" := Str("Test"), "dataIndex" := Num(123)]);
    assert forall p :: Violates(b, p) <==> p == DataIndexNotString;
  }

  lemma FirstMessage()
    ensures Message(ColumnIssue(0, MissingTitleAndDataIndex)) == "第 1 列: " + "必须提供 title 或 dataIndex"
  {
    assert NatToString(1) == "1";
    assert "第 " + NatToString(1) + " 列: " == "第 1 列: ";
  }

  lemma SecondMessage()
    ensures Message(ColumnIssue(1, DataIndexNotString)) == "第 2 列: " + "dataIndex 必须是字符串"
  {
    assert NatToString(2) == "2";
    assert "第 " + NatToString(2) + " 列: " == "第 2 列: ";
  }

  lemma FirstTwoMessages()
    ensures Render([ColumnIssue(0, MissingTitleAndDataIndex), ColumnIssue(1, DataIndexNotString)])
      == ["第 1 列: " + "必须提供 title 或 dataIndex", "第 2 列: " + "dataIndex 必须是字符串"]
  {
    var issues := [ColumnIssue(0, MissingTitleAndDataIndex), ColumnIssue(1, DataIndexNotString)];
    FirstMessage();
    SecondMessage();
    assert Render(issues) == [Message(issues[0]), Message(issues[1])];
  }

  /** A descriptor with neither title nor dataIndex and one with a numeric dataIndex give
      one message each, numbered from 1. */
  lemma ValidateBadExample()
    ensures Validate(Arr([Some(Obj(map["hideInSearch" := Bool(true)])),
                          Some(Obj(map["title" := Str("Test"), "dataIndex" := Num(123)]))]))
      == Validation(false, ["第 1 列: " + "必须提供 title 或 dataIndex", "第 2 列: " + "dataIndex 必须是字符串"])
  {
    var a := Obj(map["hideInSearch" := Bool(true)]);
    var b := Obj(map["title" := Str("Test"), "dataIndex" := Num(123)]);
    var issues := [ColumnIssue(0, MissingTitleAndDataIndex), ColumnIssue(1, DataIndexNotString)];
    OnlyHideInSearch();
    NumericDataIndex();
    ProblemsOfTwo(a, b);
    assert Tagged(0, [MissingTitleAndDataIndex]) + Tagged(1, [DataIndexNotString]) == issues;
    FirstTwoMessages();
  }


  /** `name` is filled from `dataIndex`. */
  lemma NameExample()
    ensures Get(NormalizeColumn(Obj(map["title" := Str("ID"), "dataIndex" := Str("id")])), "name") == Str("id")
  {
    var c := Obj(map["title" := Str("ID"), "dataIndex" := Str("id")]);
    assert "name" !in c.fields && Get(c.fields, "dataIndex") == Str("id");
    NormalizeName(c);
  }

  /** `label` is filled from `title`. */
  lemma LabelExample()
    ensures Get(NormalizeColumn(Obj(map["title" := Str("User ID"), "dataIndex" := Str("id")])), "label") == Str("User ID")
  {
    var c := Obj(map["title" := Str("User ID"), "dataIndex" := Str("id")]);
    assert "label" !in c.fields && Get(c.fields, "title") == Str("User ID");
    NormalizeLabel(c);
  }

  /** `visible: false` hides the column in the table. */
  lemma HiddenExample()
    ensures Get(NormalizeColumn(Obj(map["title" := Str("ID"), "dataIndex" := Str("id"), "visible" := Bool(false)])), "hideInTable")
      == Bool(true)
  {
    var c := Obj(map["title" := Str("ID"), "dataIndex" := Str("id"), "visible" := Bool(false)]);
    assert "hideInTable" !in c.fields && Get(c.fields, "visible") == Bool(false);
    NormalizeHideInTable(c);
  }

}
