/** Paths into a value tree. The flat-form decoder descends through the result with a
    mutable `cur` reference; here `cur` is the path from the root to the node it
    points at, and a write through `cur` replaces the subtree at that path. */
module TreePaths {
  import opened JsValues

  /** One step of a descent: a named property of an object, or an array index. */
  datatype Step = Field(key: string) | Index(n: nat)

  type Path = seq<Step>

  /** The child reached by one step, if it exists (a hole is no child). */
  function Child(t: JsVal, s: Step): Option<JsVal> {
    match s
    case Field(k) => if t.Obj? && k in t.fields then Some(t.fields[k]) else None
    case Index(n) => if t.Arr? && n < |t.elems| then t.elems[n] else None
  }

  /** `t` with the child at step `s` replaced by `c`. */
  function WithChild(t: JsVal, s: Step, c: JsVal): (r: JsVal)
    requires Child(t, s).Some?
    ensures Child(r, s) == Some(c)
  {
    match s
    case Field(k) => Obj(t.fields[k := c])
    case Index(n) => Arr(t.elems[n := Some(c)])
  }

  lemma WithChildTwice(t: JsVal, s: Step, a: JsVal, b: JsVal)
    requires Child(t, s).Some?
    ensures WithChild(WithChild(t, s, a), s, b) == WithChild(t, s, b)
  {
    match s
    case Field(k) =>
      assert t.fields[k := a][k := b] == t.fields[k := b];
    case Index(n) =>
      assert t.elems[n := Some(a)][n := Some(b)] == t.elems[n := Some(b)];
  }

  /** The node at path `p`, if the path exists. */
  function At(t: JsVal, p: Path): Option<JsVal>
    decreases |p|
  {
    if p == [] then Some(t)
    else match Child(t, p[0])
      case None => None
      case Some(c) => At(c, p[1..])
  }

  /** `t` with the subtree at path `p` replaced by `x`. */
  function Replace(t: JsVal, p: Path, x: JsVal): JsVal
    requires At(t, p).Some?
    decreases |p|
  {
    if p == [] then x
    else WithChild(t, p[0], Replace(Child(t, p[0]).value, p[1..], x))
  }

  /** Descending along `p + q` is descending along `p`, then along `q`. */
  lemma {:induction false} AtAppend(t: JsVal, p: Path, q: Path)
    ensures At(t, p + q) == if At(t, p).Some? then At(At(t, p).value, q) else None
    decreases |p|
  {
    if p == [] {
      assert p + q == q;
    } else {
      assert (p + q)[0] == p[0] && (p + q)[1..] == p[1..] + q;
      match Child(t, p[0])
      case None =>
      case Some(c) => AtAppend(c, p[1..], q);
    }
  }

  /** After a write through `p`, reading below `p` sees the written subtree. */
  lemma {:induction false} AtReplace(t: JsVal, p: Path, x: JsVal, q: Path)
    requires At(t, p).Some?
    ensures At(Replace(t, p, x), p + q) == At(x, q)
    decreases |p|
  {
    if p == [] {
      assert p + q == q;
    } else {
      assert (p + q)[0] == p[0] && (p + q)[1..] == p[1..] + q;
      AtReplace(Child(t, p[0]).value, p[1..], x, q);
    }
  }

  /** A write below `p` after a write at `p` is one write at `p` of the combined subtree. */
  lemma {:induction false} ReplaceReplace(t: JsVal, p: Path, x: JsVal, q: Path, y: JsVal)
    requires At(t, p).Some? && At(x, q).Some?
    ensures At(Replace(t, p, x), p + q).Some?
    ensures Replace(Replace(t, p, x), p + q, y) == Replace(t, p, Replace(x, q, y))
    decreases |p|
  {
    AtReplace(t, p, x, q);
    if p == [] {
      assert p + q == q;
    } else {
      var s, c, p' := p[0], Child(t, p[0]).value, p[1..];
      assert (p + q)[0] == s && (p + q)[1..] == p' + q;
      AtReplace(c, p', x, q);
      ReplaceReplace(c, p', x, q, y);
      var c1 := Replace(c, p', x);
      var t1 := WithChild(t, s, c1);
      assert Replace(t, p, x) == t1;
      assert Child(t1, s) == Some(c1);
      var inner := Replace(c1, p' + q, y);
      assert Replace(t1, p + q, y) == WithChild(t1, s, inner);
      assert inner == Replace(c, p', Replace(x, q, y));
      WithChildTwice(t, s, c1, inner);
      assert Replace(t, p, Replace(x, q, y)) == WithChild(t, s, inner);
    }
  }
}
