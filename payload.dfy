/** Turning the payload of one retrieved point into one text: every scalar value of the payload,
    rendered as Python's `str` renders it, joined with single spaces in the payload's order. */
module Payload {
  import opened Text

  datatype Option<T> = None | Some(value: T)

  /** A payload value. `Bool` is kept apart from `Int` because Python renders it as a word,
      though it passes the same `int` test. A float is carried as its IEEE-754 bit pattern and
      never interpreted. */
  datatype Value =
    | Str(s: string)
    | Int(i: int)
    | Bool(b: bool)
    | Float(bits: bv64)
    | Null
    | List(items: seq<Value>)
    | Dict(entries: seq<Entry>)

  /** One key of a payload mapping with its value; a mapping is a sequence of entries in its
      iteration (insertion) order. */
  datatype Entry = Entry(key: string, value: Value)

  /** How a point carries its payload: a point given as a mapping may lack the `payload` key
      (`Missing`); the payload may be Python's `None` (`NoneValue`); or it is a mapping. */
  datatype PayloadSlot = Missing | NoneValue | Present(entries: seq<Entry>)

  /** A point's id is an unsigned integer or a UUID string. */
  datatype PointId = NumId(n: nat) | UuidId(u: string)

  datatype Point = Point(id: PointId, payload: PayloadSlot)

  /** Python's `str` for the numbers, which belongs to the runtime and is left abstract. */
  datatype Renderer = Renderer(renderInt: int -> string, renderFloat: bv64 -> string)

  /** `isinstance(v, (str, int, float))`; a bool is an int in Python. */
  predicate IsScalar(v: Value)
  {
    v.Str? || v.Int? || v.Bool? || v.Float?
  }

  /** `str(v)` for a scalar value. */
  function Render(rd: Renderer, v: Value): string
    requires IsScalar(v)
  {
    match v
    case Str(s) => s
    case Int(i) => rd.renderInt(i)
    case Bool(b) => if b then "True" else "False"
    case Float(bits) => rd.renderFloat(bits)
  }

  /** `payload.values()`. */
  function Values(entries: seq<Entry>): (vs: seq<Value>)
    ensures |vs| == |entries|
    ensures forall k :: 0 <= k < |entries| ==> vs[k] == entries[k].value
  {
    if |entries| == 0 then [] else [entries[0].value] + Values(entries[1..])
  }

  /** The generator `str(v) for v in values if isinstance(v, (str, int, float))`. */
  function Renderings(rd: Renderer, vs: seq<Value>): (r: seq<string>)
    ensures |r| == |Scalars(vs)|
  {
    if |vs| == 0 then []
    else (if IsScalar(vs[0]) then [Render(rd, vs[0])] else []) + Renderings(rd, vs[1..])
  }

  /** The scalar values of `vs`, in their order: the reference for what the generator keeps. */
  function Scalars(vs: seq<Value>): (r: seq<Value>)
    ensures |r| <= |vs|
    ensures forall k :: 0 <= k < |r| ==> IsScalar(r[k])
    ensures forall v :: v in r <==> v in vs && IsScalar(v)
  {
    if |vs| == 0 then []
    else (if IsScalar(vs[0]) then [vs[0]] else []) + Scalars(vs[1..])
  }

  /** `" ".join(...)` of the generator over a payload's values. */
  function EntriesText(rd: Renderer, entries: seq<Entry>): string
  {
    Join(" ", Renderings(rd, Values(entries)))
  }

  /** `point.payload if hasattr(point, 'payload') else point.get('payload', {})`: a missing
      payload is the empty mapping; `None` is no mapping at all. */
  function Mapping(slot: PayloadSlot): Option<seq<Entry>>
  {
    match slot
    case Missing => Some([])
    case NoneValue => None
    case Present(entries) => Some(entries)
  }

  /** The text of one point, or `None` when its payload has no `values()` (the source raises). */
  function PointText(rd: Renderer, p: Point): (r: Option<string>)
    ensures r.None? <==> p.payload.NoneValue?
    ensures p.payload.Missing? ==> r == Some("")
  {
    match Mapping(p.payload)
    case None => None
    case Some(entries) => Some(EntriesText(rd, entries))
  }

  /** A point without a `payload` key reads as one whose payload is the empty mapping, as
      `point.get('payload', {})` does. */
  lemma MissingIsEmptyMapping(rd: Renderer, id: PointId)
    ensures PointText(rd, Point(id, Missing)) == PointText(rd, Point(id, Present([])))
  {
  }

  /** Filtering distributes over concatenation, so the kept values stay in their order and
      with their multiplicity. */
  lemma {:induction false} ScalarsConcat(a: seq<Value>, b: seq<Value>)
    ensures Scalars(a + b) == Scalars(a) + Scalars(b)
  {
    if |a| > 0 {
      assert (a + b)[1..] == a[1..] + b;
      ScalarsConcat(a[1..], b);
    } else {
      assert a + b == b;
    }
  }

  /** A run of scalar values is kept whole. */
  lemma {:induction false} ScalarsOfScalars(vs: seq<Value>)
    requires forall k :: 0 <= k < |vs| ==> IsScalar(vs[k])
    ensures Scalars(vs) == vs
  {
    if |vs| > 0 {
      ScalarsOfScalars(vs[1..]);
      assert [vs[0]] + vs[1..] == vs;
    }
  }

  /** The generator distributes over concatenation: what one part of the values contributes
      does not depend on the other part. */
  lemma {:induction false} RenderingsConcat(rd: Renderer, a: seq<Value>, b: seq<Value>)
    ensures Renderings(rd, a + b) == Renderings(rd, a) + Renderings(rd, b)
  {
    if |a| > 0 {
      var head := if IsScalar(a[0]) then [Render(rd, a[0])] else [];
      assert (a + b)[0] == a[0] && (a + b)[1..] == a[1..] + b;
      RenderingsConcat(rd, a[1..], b);
      calc {
        Renderings(rd, a + b);
        head + Renderings(rd, a[1..] + b);
        head + (Renderings(rd, a[1..]) + Renderings(rd, b));
        (head + Renderings(rd, a[1..])) + Renderings(rd, b);
        Renderings(rd, a) + Renderings(rd, b);
      }
    } else {
      assert a + b == b;
    }
  }

  /** Only scalar values contribute: the renderings of `vs` are those of its scalars alone. */
  lemma {:induction false} RenderingsKeepOnlyScalars(rd: Renderer, vs: seq<Value>)
    ensures Renderings(rd, vs) == Renderings(rd, Scalars(vs))
  {
    if |vs| > 0 {
      RenderingsKeepOnlyScalars(rd, vs[1..]);
      var head := if IsScalar(vs[0]) then [vs[0]] else [];
      RenderingsConcat(rd, head, Scalars(vs[1..]));
      if IsScalar(vs[0]) {
        assert Renderings(rd, head) == [Render(rd, vs[0])] by {
          assert head[1..] == [];
        }
      }
    }
  }

  /** Every scalar value is rendered, one rendering per value, in the values' order. */
  lemma {:induction false} RenderingsOfScalars(rd: Renderer, vs: seq<Value>)
    requires forall k :: 0 <= k < |vs| ==> IsScalar(vs[k])
    ensures |Renderings(rd, vs)| == |vs|
    ensures forall k :: 0 <= k < |vs| ==> Renderings(rd, vs)[k] == Render(rd, vs[k])
  {
    if |vs| > 0 {
      RenderingsOfScalars(rd, vs[1..]);
      var r := Renderings(rd, vs);
      assert r == [Render(rd, vs[0])] + Renderings(rd, vs[1..]);
      forall k | 1 <= k < |vs| ensures r[k] == Render(rd, vs[k]) {
        assert vs[1..][k - 1] == vs[k];
      }
    }
  }

  /** A payload without scalar values gives the empty text. */
  lemma {:induction false} NoScalarsNoText(rd: Renderer, entries: seq<Entry>)
    requires forall k :: 0 <= k < |entries| ==> !IsScalar(entries[k].value)
    ensures EntriesText(rd, entries) == ""
  {
    var vs := Values(entries);
    RenderingsKeepOnlyScalars(rd, vs);
    assert Scalars(vs) == [] by {
      if |Scalars(vs)| > 0 {
        assert false;
      }
    }
  }

  /** Adding one entry at the end of a payload: a non-scalar value leaves the text unchanged;
      a scalar value adds its rendering, after a single space unless nothing was kept before. */
  lemma EntriesTextAppend(rd: Renderer, entries: seq<Entry>, e: Entry)
    ensures EntriesText(rd, entries + [e]) ==
      if !IsScalar(e.value) then EntriesText(rd, entries)
      else if Renderings(rd, Values(entries)) == [] then Render(rd, e.value)
      else EntriesText(rd, entries) + " " + Render(rd, e.value)
  {
    assert Values(entries + [e]) == Values(entries) + [e.value];
    RenderingsConcat(rd, Values(entries), [e.value]);
    var last := Renderings(rd, [e.value]);
    assert last == if IsScalar(e.value) then [Render(rd, e.value)] else [] by {
      assert [e.value][1..] == [];
    }
    if IsScalar(e.value) && Renderings(rd, Values(entries)) != [] {
      JoinAppend(" ", Renderings(rd, Values(entries)), Render(rd, e.value));
    } else {
      assert Renderings(rd, Values(entries)) + last == if last == [] then Renderings(rd, Values(entries)) else last;
    }
  }

  /** A payload whose values are all strings without spaces is recovered, value by value, by
      splitting its text on single spaces. */
  lemma WordsRecovered(rd: Renderer, entries: seq<Entry>, words: seq<string>)
    requires |entries| >= 1 && |words| == |entries|
    requires forall k :: 0 <= k < |entries| ==> entries[k].value == Str(words[k])
    requires forall k :: 0 <= k < |words| ==> ' ' !in words[k]
    ensures Split(' ', EntriesText(rd, entries)) == words
  {
    var vs := Values(entries);
    RenderingsOfScalars(rd, vs);
    assert Renderings(rd, vs) == words;
    SplitJoin(' ', words);
  }
}
