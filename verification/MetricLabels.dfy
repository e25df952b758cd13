/** The attributes of a user metric: which labels are taken, and when a recording is dropped.

    A string is the sequence of its bytes, one character each, so lengths are bytes and a cut
    may fall inside a rune, as in the code. */
module MetricLabels {
  import opened Prelude

  const MAX_KEY := 64
  const MAX_VALUE := 256
  const MAX_LABELS := 10

  /** A label value: a string, another scalar, or something that is no scalar. */
  datatype Label = Text(text: string) | Scalar(id: int) | Structured(id: int)

  datatype LabelDecl = LabelDecl(enumerated: bool, values: seq<string>)

  datatype Attr = Attr(key: string, value: Label)

  /** What the execution and the configuration attach to every recording. */
  datatype Context = Context(flowId: string, stepId: string, path: string, properties: map<string, string>)

  function ToScalarAttribute(key: string, value: Label): Option<Attr> {
    match value
    case Text(text) => Some(Attr(key, Text(if |text| > MAX_VALUE then text[..MAX_VALUE] else text)))
    case Scalar(_) => Some(Attr(key, value))
    case Structured(_) => None
  }

  /** A label of at most 64 bytes with a scalar value is attached, unless the metric is declared
      without it, or with other values for it. */
  predicate IsAttached(key: string, value: Label, decl: Option<map<string, LabelDecl>>, render: Label -> string) {
    && |key| <= 64 && (value.Text? || value.Scalar?)
    && (decl.Some? ==>
          && key in decl.value
          && (decl.value[key].enumerated ==> render(value) in decl.value[key].values))
  }

  /** It is attached as it is, but for a text of more than 256 bytes, which is cut there. */
  predicate IsValueOf(attached: Label, value: Label) {
    if value.Text? && |value.text| > 256 then attached == Text(value.text[..256]) else attached == value
  }

  /** This attribute is that of a label. */
  predicate OfLabel(labels: map<string, Label>, decl: Option<map<string, LabelDecl>>, render: Label -> string,
                    a: Attr) {
    a.key in labels && IsAttached(a.key, labels[a.key], decl, render) && IsValueOf(a.value, labels[a.key])
  }

  /** No label replaces what is attached automatically, and there are at most ten. */
  predicate Acceptable(context: Context, labels: map<string, Label>) {
    && (forall k :: k in labels ==> k != "flow.id" && k != "step.id" && k != "path" && k !in context.properties)
    && |labels| <= 10
  }

  function Reserved(context: Context): set<string> {
    {"flow.id", "step.id", "path"} + context.properties.Keys
  }

  /** Attached without being asked for: the execution's own attributes and the configured ones. */
  predicate Auto(context: Context, a: Attr) {
    || (context.flowId != "" && a == Attr("flow.id", Text(context.flowId)))
    || (context.stepId != "" && a == Attr("step.id", Text(context.stepId)))
    || (context.path != "" && a == Attr("path", Text(context.path)))
    || (a.key in context.properties && a.value == Text(context.properties[a.key]))
  }

  method AutoAttached(context: Context) returns (attrs: seq<Attr>)
    ensures forall a :: a in attrs <==> Auto(context, a)
    ensures forall a :: a in attrs ==> a.key in Reserved(context)
  {
    attrs := [];
    if context.flowId != "" {
      attrs := attrs + [Attr("flow.id", Text(context.flowId))];
    }
    if context.stepId != "" {
      attrs := attrs + [Attr("step.id", Text(context.stepId))];
    }
    if context.path != "" {
      attrs := attrs + [Attr("path", Text(context.path))];
    }
    var start := attrs;
    var keys := context.properties.Keys;
    while keys != {}
      invariant keys <= context.properties.Keys
      invariant forall a :: a in attrs <==>
                  || a in start
                  || (a.key in context.properties && a.key !in keys && a.value == Text(context.properties[a.key]))
    {
      var k :| k in keys;
      attrs := attrs + [Attr(k, Text(context.properties[k]))];
      keys := keys - {k};
    }
  }

  /** The attributes of these labels, each once. */
  ghost predicate AttributesOf(own: seq<Attr>, labels: map<string, Label>, keys: set<string>,
                               decl: Option<map<string, LabelDecl>>, render: Label -> string) {
    Distinct(own) && forall a :: a in own <==> a.key in keys && OfLabel(labels, decl, render, a)
  }

  /** A label that is left out. */
  lemma NoneMore(own: seq<Attr>, labels: map<string, Label>, keys: set<string>, k: string,
                 decl: Option<map<string, LabelDecl>>, render: Label -> string)
    requires AttributesOf(own, labels, keys, decl, render) && k in labels
    requires !IsAttached(k, labels[k], decl, render)
    ensures AttributesOf(own, labels, keys + {k}, decl, render)
  {
  }

  /** A label that is attached, under a key not seen before. */
  lemma OneMore(own: seq<Attr>, labels: map<string, Label>, keys: set<string>, a: Attr,
                decl: Option<map<string, LabelDecl>>, render: Label -> string)
    requires AttributesOf(own, labels, keys, decl, render) && a.key !in keys && OfLabel(labels, decl, render, a)
    ensures AttributesOf(own + [a], labels, keys + {a.key}, decl, render)
  {
    DistinctAppend(own, a);
    forall b ensures b in own + [a] <==> b.key in keys + {a.key} && OfLabel(labels, decl, render, b) {
      if b.key == a.key && OfLabel(labels, decl, render, b) {
        assert b == a;
      }
    }
  }

  /** The second half of the loop's body: the attribute of one label is appended or left out. */
  method Append(own: seq<Attr>, labels: map<string, Label>, ghost seen: set<string>, k: string,
                decl: Option<map<string, LabelDecl>>, render: Label -> string) returns (more: seq<Attr>)
    requires k in labels && k !in seen && AttributesOf(own, labels, seen, decl, render)
    ensures AttributesOf(more, labels, seen + {k}, decl, render)
  {
    if !IsAttached(k, labels[k], decl, render) {
      NoneMore(own, labels, seen, k, decl, render);
    }
    if |k| > MAX_KEY {
      return own;
    }
    if decl.Some? {
      if k !in decl.value {
        return own;
      }
      var labelDecl := decl.value[k];
      if labelDecl.enumerated && render(labels[k]) !in labelDecl.values {
        return own;
      }
    }
    var attr := ToScalarAttribute(k, labels[k]);
    if attr.None? {
      return own;
    }
    OneMore(own, labels, seen, attr.value, decl, render);
    return own + [attr.value];
  }

  /** What the loop has found out when it has seen these labels. */
  ghost predicate Counted(labels: set<string>, seen: set<string>, left: set<string>, reserved: set<string>,
                          count: nat) {
    && seen + left == labels && seen !! left && seen !! reserved
    && count + |left| == |labels| && count <= MAX_LABELS
  }

  lemma CountedMore(labels: set<string>, seen: set<string>, left: set<string>, reserved: set<string>, count: nat,
                    k: string)
    requires Counted(labels, seen, left, reserved, count) && k in left
    ensures if k in reserved || count + 1 > MAX_LABELS then !(labels !! reserved && |labels| <= MAX_LABELS)
            else Counted(labels, seen + {k}, left - {k}, reserved, count + 1)
  {
    assert k in labels;
  }

  lemma CountedAll(labels: set<string>, seen: set<string>, reserved: set<string>, count: nat)
    requires Counted(labels, seen, {}, reserved, count)
    ensures seen == labels && labels !! reserved && |labels| <= MAX_LABELS
  {
  }

  /** One turn of the label loop: the recording goes on with this label, or is dropped. */
  method TakeLabel(own: seq<Attr>, labels: map<string, Label>, k: string, reserved: set<string>, labelCount: nat,
                   decl: Option<map<string, LabelDecl>>, render: Label -> string, ghost seen: set<string>,
                   ghost left: set<string>)
    returns (ok: bool, more: seq<Attr>)
    requires Counted(labels.Keys, seen, left, reserved, labelCount) && k in left
    requires AttributesOf(own, labels, seen, decl, render)
    ensures if ok then Counted(labels.Keys, seen + {k}, left - {k}, reserved, labelCount + 1)
            else !(labels.Keys !! reserved && |labels| <= MAX_LABELS)
    ensures ok ==> AttributesOf(more, labels, seen + {k}, decl, render)
  {
    CountedMore(labels.Keys, seen, left, reserved, labelCount, k);
    if k in reserved {
      return false, [];
    }
    if labelCount + 1 > MAX_LABELS {
      return false, [];
    }
    more := Append(own, labels, seen, k, decl, render);
    ok := true;
  }

  /** The label loop, for every order of the labels: the recording is dropped exactly when a
      label is reserved or there are too many labels; otherwise every label that is not left
      out becomes one attribute. */
  method TakeLabels(context: Context, labels: map<string, Label>, decl: Option<map<string, LabelDecl>>,
                    render: Label -> string)
    returns (ok: bool, own: seq<Attr>)
    ensures ok <==> Acceptable(context, labels)
    ensures ok ==> Distinct(own) && forall a :: a in own <==> OfLabel(labels, decl, render, a)
  {
    ok, own := true, [];
    var reserved := Reserved(context);
    var labelCount: nat := 0;
    var left := labels.Keys;
    ghost var seen: set<string> := {};
    while left != {}
      invariant Counted(labels.Keys, seen, left, reserved, labelCount)
      invariant AttributesOf(own, labels, seen, decl, render)
      decreases left
    {
      var k :| k in left;
      ok, own := TakeLabel(own, labels, k, reserved, labelCount, decl, render, seen, left);
      if !ok {
        OwnApart(context, labels);
        return;
      }
      labelCount := labelCount + 1;
      left, seen := left - {k}, seen + {k};
    }
    CountedAll(labels.Keys, seen, reserved, labelCount);
    OwnApart(context, labels);
    ok := true;
  }

  /** Labels that are acceptable are not among the reserved keys, and the other way round. */
  lemma OwnApart(context: Context, labels: map<string, Label>)
    ensures Acceptable(context, labels) <==> labels.Keys !! Reserved(context) && |labels| <= MAX_LABELS
  {
    if Acceptable(context, labels) {
      assert forall k :: k in labels.Keys ==> k !in Reserved(context);
    } else if labels.Keys !! Reserved(context) {
      assert forall k :: k in labels ==> k !in Reserved(context);
    }
  }

  /** No label of a flow can replace what is attached automatically. */
  method BuildUserMetricAttrs(context: Context, labels: map<string, Label>, decl: Option<map<string, LabelDecl>>,
                              render: Label -> string)
    returns (ok: bool, auto: seq<Attr>, own: seq<Attr>)
    ensures ok <==> Acceptable(context, labels)
    ensures ok ==> forall a :: a in auto <==> Auto(context, a)
    ensures ok ==> Distinct(own) && forall a :: a in own <==> OfLabel(labels, decl, render, a)
    ensures ok ==> forall a, b :: a in auto && b in own ==> a.key != b.key
  {
    auto := AutoAttached(context);
    ok, own := TakeLabels(context, labels, decl, render);
    if ok {
      OwnApart(context, labels);
    }
  }
}
