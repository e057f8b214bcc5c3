/** The fluent column builder: a mutable descriptor record, one setter per field, each
    returning the builder itself so calls can be chained, and `build`, which hands out
    a top-level copy. */
module ColumnBuilding {
  import opened JsValues
  import opened Columns

  /** The values `align` accepts. */
  datatype Align = Left | Center | Right

  function AlignName(a: Align): string {
    match a
    case Left => "left"
    case Center => "center"
    case Right => "right"
  }

  /** The values `width` accepts: a number or a string. */
  datatype Width = NumberWidth(n: int) | StringWidth(s: string)

  function WidthValue(w: Width): (v: JsVal)
    ensures v.Num? || v.Str?
  {
    match w
    case NumberWidth(n) => Num(n)
    case StringWidth(s) => Str(s)
  }

  /** What the typed setters can have put in each field of the record. `component` and
      `defaultValue` take any value. */
  predicate WellTyped(m: map<string, JsVal>) {
    && ("title" in m ==> m["title"].Str?)
    && ("dataIndex" in m ==> m["dataIndex"].Str?)
    && ("name" in m ==> m["name"].Str?)
    && ("label" in m ==> m["label"].Str?)
    && ("hideInSearch" in m ==> m["hideInSearch"].Bool?)
    && ("hideInTable" in m ==> m["hideInTable"].Bool?)
    && ("required" in m ==> m["required"].Bool?)
    && ("order" in m ==> m["order"].Num?)
    && ("rules" in m ==> m["rules"].Arr?)
    && ("customRender" in m ==> m["customRender"].Fun?)
    && ("width" in m ==> m["width"].Num? || m["width"].Str?)
    && ("align" in m ==> m["align"].Str?)
    && ("fieldProps" in m ==> m["fieldProps"].Obj?)
  }

  /** The `fieldProps` record `placeholder` extends: the current one when it is truthy,
      a fresh empty one otherwise. */
  function PropsToExtend(m: map<string, JsVal>): map<string, JsVal> {
    if "fieldProps" in m && Truthy(m["fieldProps"]) && m["fieldProps"].Obj? then m["fieldProps"].fields else map[]
  }

  class ColumnBuilder {
    var column: map<string, JsVal>

    ghost predicate Valid()
      reads this
    {
      WellTyped(column)
    }

    constructor ()
      ensures Valid() && column == map[]
    {
      column := map[];
    }

    /** `ColumnBuilder.create()` */
    static method Create() returns (b: ColumnBuilder)
      ensures fresh(b) && b.Valid() && b.column == map[]
    {
      b := new ColumnBuilder();
    }

    method Title(title: string) returns (self: ColumnBuilder)
      requires Valid()
      modifies this
      ensures self == this && Valid() && column == old(column)["title" := Str(title)]
    {
      column := column["title" := Str(title)];
      self := this;
    }

    method DataIndex(dataIndex: string) returns (self: ColumnBuilder)
      requires Valid()
      modifies this
      ensures self == this && Valid() && column == old(column)["dataIndex" := Str(dataIndex)]
    {
      column := column["dataIndex" := Str(dataIndex)];
      self := this;
    }

    method Name(name: string) returns (self: ColumnBuilder)
      requires Valid()
      modifies this
      ensures self == this && Valid() && column == old(column)["name" := Str(name)]
    {
      column := column["name" := Str(name)];
      self := this;
    }

    method Label(text: string) returns (self: ColumnBuilder)
      requires Valid()
      modifies this
      ensures self == this && Valid() && column == old(column)["label" := Str(text)]
    {
      column := column["label" := Str(text)];
      self := this;
    }

    method HideInSearch(hidden: bool := true) returns (self: ColumnBuilder)
      requires Valid()
      modifies this
      ensures self == this && Valid() && column == old(column)["hideInSearch" := Bool(hidden)]
    {
      column := column["hideInSearch" := Bool(hidden)];
      self := this;
    }

    method HideInTable(hidden: bool := true) returns (self: ColumnBuilder)
      requires Valid()
      modifies this
      ensures self == this && Valid() && column == old(column)["hideInTable" := Bool(hidden)]
    {
      column := column["hideInTable" := Bool(hidden)];
      self := this;
    }

    method Order(order: int) returns (self: ColumnBuilder)
      requires Valid()
      modifies this
      ensures self == this && Valid() && column == old(column)["order" := Num(order)]
    {
      column := column["order" := Num(order)];
      self := this;
    }

    /** Sets the component, and `fieldProps` too when they are given (an object is
        always truthy); otherwise the current `fieldProps` stay. */
    method Component(component: JsVal, fieldProps: Option<map<string, JsVal>>) returns (self: ColumnBuilder)
      requires Valid()
      modifies this
      ensures self == this && Valid()
      ensures fieldProps.Some? ==>
        column == old(column)["component" := component]["fieldProps" := Obj(fieldProps.value)]
      ensures fieldProps.None? ==> column == old(column)["component" := component]
    {
      column := column["component" := component];
      if fieldProps.Some? {
        column := column["fieldProps" := Obj(fieldProps.value)];
      }
      self := this;
    }

    method DefaultValue(value: JsVal) returns (self: ColumnBuilder)
      requires Valid()
      modifies this
      ensures self == this && Valid() && column == old(column)["defaultValue" := value]
    {
      column := column["defaultValue" := value];
      self := this;
    }

    method Required(required: bool := true) returns (self: ColumnBuilder)
      requires Valid()
      modifies this
      ensures self == this && Valid() && column == old(column)["required" := Bool(required)]
    {
      column := column["required" := Bool(required)];
      self := this;
    }

    method Rules(rules: seq<Option<JsVal>>) returns (self: ColumnBuilder)
      requires Valid()
      modifies this
      ensures self == this && Valid() && column == old(column)["rules" := Arr(rules)]
    {
      column := column["rules" := Arr(rules)];
      self := this;
    }

    /** Sets `fieldProps.placeholder`, creating `fieldProps` first when it is falsy; the
        other keys of `fieldProps` are kept. */
    method Placeholder(placeholder: string) returns (self: ColumnBuilder)
      requires Valid()
      modifies this
      ensures self == this && Valid()
      ensures column == old(column)["fieldProps" := Obj(PropsToExtend(old(column))["placeholder" := Str(placeholder)])]
    {
      if !("fieldProps" in column && Truthy(column["fieldProps"])) {
        column := column["fieldProps" := Obj(map[])];
      }
      var props := column["fieldProps"].fields;
      column := column["fieldProps" := Obj(props["placeholder" := Str(placeholder)])];
      self := this;
    }

    /** `customRender` stores the given render function. */
    method CustomRender(render: nat) returns (self: ColumnBuilder)
      requires Valid()
      modifies this
      ensures self == this && Valid() && column == old(column)["customRender" := Fun(render)]
    {
      column := column["customRender" := Fun(render)];
      self := this;
    }

    method SetWidth(width: Width) returns (self: ColumnBuilder)
      requires Valid()
      modifies this
      ensures self == this && Valid() && column == old(column)["width" := WidthValue(width)]
    {
      column := column["width" := WidthValue(width)];
      self := this;
    }

    method SetAlign(align: Align) returns (self: ColumnBuilder)
      requires Valid()
      modifies this
      ensures self == this && Valid() && column == old(column)["align" := Str(AlignName(align))]
    {
      column := column["align" := Str(AlignName(align))];
      self := this;
    }

    /** `build()`: a top-level copy of the record. Later top-level setter calls on the
        builder do not reach the copy; a nested object such as `fieldProps` stays shared
        with the builder, which this value model does not capture. */
    method Build() returns (c: JsVal)
      requires Valid()
      ensures c == Obj(column) && WellTyped(c.fields)
    {
      c := Obj(column);
    }
  }

  /** A record the builder made can only fail the title-or-dataIndex check and the
      component check: every other checked field has the type the check wants. */
  lemma WellTypedProblems(m: map<string, JsVal>)
    requires WellTyped(m)
    ensures var c := Get(m, "component");
      ElementProblems(Obj(m))
        == Report(!Truthy(Get(m, "title")) && !Truthy(Get(m, "dataIndex")), MissingTitleAndDataIndex)
         + Report(Truthy(c) && !c.Fun? && !IsTypeofObject(c), BadComponent)
  {
    var col := Obj(m);
    assert IsObjectElement(col);
    assert !Violates(col, DataIndexNotString);
    assert !Violates(col, NameNotString);
    assert !Violates(col, OrderNotNumber);
    assert ElementProblems(col)
      == Report(Violates(col, MissingTitleAndDataIndex), MissingTitleAndDataIndex) + [] + [] + []
       + Report(Violates(col, BadComponent), BadComponent);
  }

  /** A record the builder made, with a truthy title and no component, is a valid
      column list on its own. */
  lemma TitledValid(m: map<string, JsVal>)
    requires WellTyped(m) && Truthy(Get(m, "title")) && Get(m, "component") == Undef
    ensures Validate(Arr([Some(Obj(m))])).valid
  {
    WellTypedProblems(m);
    ValidSingle(Obj(m));
  }

  /** The chained calls of a typical column; the built record is valid. */
  method ChainExample() returns (column: JsVal)
    ensures column == Obj(map["title" := Str("User ID"), "dataIndex" := Str("id"), "hideInSearch" := Bool(true),
                              "width" := Num(100), "align" := Str("center")])
    ensures Validate(Arr([Some(column)])).valid
  {
    var b := ColumnBuilder.Create();
    b := b.Title("User ID");
    b := b.DataIndex("id");
    b := b.HideInSearch(true);
    b := b.SetWidth(NumberWidth(100));
    b := b.SetAlign(Center);
    column := b.Build();
    assert Get(column.fields, "title") == Str("User ID") && Get(column.fields, "component") == Undef;
    TitledValid(column.fields);
  }

  /** `component` with `fieldProps` stores both; a later `placeholder` keeps the given
      props' other keys. */
  method ComponentExample() returns (column: JsVal)
    ensures column == Obj(map["component" := Obj(map[]),
                              "fieldProps" := Obj(map["placeholder" := Str("Pick one"), "allowClear" := Bool(true)])])
  {
    var b := ColumnBuilder.Create();
    var props := map["placeholder" := Str("Select status"), "allowClear" := Bool(true)];
    b := b.Component(Obj(map[]), Some(props));
    ghost var before := b.column;
    assert PropsToExtend(before) == props;
    b := b.Placeholder("Pick one");
    column := b.Build();
    assert props["placeholder" := Str("Pick one")] == map["placeholder" := Str("Pick one"), "allowClear" := Bool(true)];
  }

  /** `build` hands out a top-level copy: setting the title again after building leaves
      the first result as it was. */
  method CopyExample() returns (first: JsVal, second: JsVal)
    ensures first == Obj(map["title" := Str("Email"), "required" := Bool(true)])
    ensures second == Obj(map["title" := Str("E-mail"), "required" := Bool(true)])
  {
    var b := ColumnBuilder.Create();
    b := b.Title("Email");
    b := b.Required();
    first := b.Build();
    b := b.Title("E-mail");
    second := b.Build();
    assert map["title" := Str("Email")]["required" := Bool(true)]["title" := Str("E-mail")]
      == map["title" := Str("E-mail"), "required" := Bool(true)];
  }
}
