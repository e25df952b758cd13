/** A whole recording: the guards, the labels, the instrument, and what is recorded on it. */
module MetricRecording {
  import opened Prelude
  import opened Registry
  import opened MetricLabels

  datatype Measurement = Measurement(inst: Instrument, value: real, attrs: seq<Attr>)

  /** A counter only goes up; the other kinds take any value. */
  predicate Accepts(kind: Kind, value: real) {
    kind == Counter ==> value > 0.0
  }

  /** The value on this instrument, with what is attached automatically and the attributes of
      the labels. */
  ghost predicate Measures(m: Measurement, inst: Instrument, value: real, context: Context, labels: map<string, Label>,
                           decl: Option<map<string, LabelDecl>>, render: Label -> string) {
    && m.inst == inst && m.value == value
    && forall a :: a in m.attrs <==> Auto(context, a) || OfLabel(labels, decl, render, a)
  }

  class UserMetrics {
    const metrics: Metrics
    const hasMeter: bool
    const labelDecls: map<string, map<string, LabelDecl>>
    var recorded: seq<Measurement>

    constructor (metrics: Metrics, hasMeter: bool, labelDecls: map<string, map<string, LabelDecl>>)
      ensures this.metrics == metrics && this.hasMeter == hasMeter && this.labelDecls == labelDecls && recorded == []
    {
      this.metrics, this.hasMeter, this.labelDecls, recorded := metrics, hasMeter, labelDecls, [];
    }

    function DeclaredLabels(name: string): Option<map<string, LabelDecl>> {
      if name in labelDecls then Some(labelDecls[name]) else None
    }

    /** RecordUserCounter and its three siblings. A recording the guards or the labels turn
        away binds no type and makes no instrument; any other does to the tables what one
        uninterrupted recorder does, and records exactly when it obtains an instrument. */
    method Record(context: Context, kind: Kind, name: string, value: real, labels: map<string, Label>,
                  render: Label -> string, creates: bool)
      modifies this, metrics
      ensures !(hasMeter && Accepts(kind, value) && Acceptable(context, labels)) ==>
                recorded == old(recorded) && metrics.tables == old(metrics.tables) && metrics.made == old(metrics.made)
      ensures hasMeter && Accepts(kind, value) && Acceptable(context, labels) ==>
                var (t, n, stage) := Alone(old(metrics.tables), old(metrics.made),
                                           Begun(metrics.fixed, name, kind), creates);
                && metrics.tables == t && metrics.made == n
                && if stage.Obtained?
                   then |recorded| == |old(recorded)| + 1 && recorded[..|old(recorded)|] == old(recorded)
                        && Measures(recorded[|old(recorded)|], stage.inst, value, context, labels,
                                    DeclaredLabels(name), render)
                   else recorded == old(recorded)
    {
      if !hasMeter {
        return;
      }
      if kind == Counter && value <= 0.0 {
        return;
      }
      var ok, auto, own := BuildUserMetricAttrs(context, labels, DeclaredLabels(name), render);
      if !ok {
        return;
      }
      var inst := metrics.Resolve(kind, name, creates);
      if inst.None? {
        return;
      }
      var m := Measurement(inst.value, value, auto + own);
      recorded := recorded + [m];
    }
  }
}
