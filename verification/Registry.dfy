/** The lazily filled registries of user metrics: any number of recorders, each a thread
    whose every Load and LoadOrStore is one step, in any interleaving. */
module Registry {
  import opened Prelude

  datatype Kind = Counter | UpDownCounter | Histogram | Gauge

  /** Every successful creation makes another instrument. */
  datatype Instrument = Instrument(name: string, kind: Kind, serial: nat)

  datatype Reason = NotAsDeclared | BoundToOther | NotCreated

  /** Where a recorder stands: the operation it performs next, or how its call ended. */
  datatype Stage =
    | Loading
    | Checking
    | Creating
    | Publishing(own: Instrument)
    | Obtained(inst: Instrument)
    | Dropped(reason: Reason)

  datatype Call = Call(name: string, kind: Kind, stage: Stage)

  /** The five concurrent maps. */
  datatype Tables = Tables(
    types: map<string, Kind>,
    counters: map<string, Instrument>,
    upDownCounters: map<string, Instrument>,
    histograms: map<string, Instrument>,
    gauges: map<string, Instrument>)
  {
    function Of(kind: Kind): map<string, Instrument> {
      match kind
      case Counter => counters
      case UpDownCounter => upDownCounters
      case Histogram => histograms
      case Gauge => gauges
    }

    function With(kind: Kind, m: map<string, Instrument>): Tables {
      match kind
      case Counter => this.(counters := m)
      case UpDownCounter => this.(upDownCounters := m)
      case Histogram => this.(histograms := m)
      case Gauge => this.(gauges := m)
    }
  }

  /** What start-up left behind: the declared types and the instruments made for them. */
  datatype Fixed = Fixed(decls: map<string, Kind>, predeclared: map<string, Instrument>)

  datatype World = World(fixed: Fixed, tables: Tables, made: nat, calls: seq<Call>)

  /** A recorder begins, or an existing one performs its next operation; the flag says
      whether an instrument can be created if that is the operation. */
  datatype Action = Begin(name: string, kind: Kind) | Turn(thread: nat, creates: bool)

  function LoadOrStore<V>(m: map<string, V>, key: string, value: V): (r: (map<string, V>, V)) {
    if key in m then (m, m[key]) else (m[key := value], value)
  }

  /** The checks against the declarations, which never change. */
  function Begun(fixed: Fixed, name: string, kind: Kind): Call {
    if name in fixed.decls && fixed.decls[name] != kind then Call(name, kind, Dropped(NotAsDeclared))
    else if name in fixed.decls && name in fixed.predeclared then Call(name, kind, Obtained(fixed.predeclared[name]))
    else Call(name, kind, Loading)
  }

  /** One operation of a recorder on the shared tables. */
  function Operate(t: Tables, made: nat, c: Call, creates: bool): (Tables, nat, Stage) {
    match c.stage
    case Loading =>
      if c.name in t.Of(c.kind) then (t, made, Obtained(t.Of(c.kind)[c.name])) else (t, made, Checking)
    case Checking =>
      var (types, existing) := LoadOrStore(t.types, c.name, c.kind);
      (t.(types := types), made, if existing != c.kind then Dropped(BoundToOther) else Creating)
    case Creating =>
      if creates then (t, made + 1, Publishing(Instrument(c.name, c.kind, made)))
      else (t, made, Dropped(NotCreated))
    case Publishing(own) =>
      var (m, actual) := LoadOrStore(t.Of(c.kind), c.name, own);
      (t.With(c.kind, m), made, Obtained(actual))
    case _ => (t, made, c.stage)
  }

  function Advance(w: World, a: Action): World {
    match a
    case Begin(name, kind) => w.(calls := w.calls + [Begun(w.fixed, name, kind)])
    case Turn(i, creates) =>
      if i < |w.calls| then
        var (t, made, stage) := Operate(w.tables, w.made, w.calls[i], creates);
        w.(tables := t, made := made, calls := w.calls[i := w.calls[i].(stage := stage)])
      else w
  }

  function Start(fixed: Fixed): World {
    World(fixed, Tables(map[], map[], map[], map[], map[]), 0, [])
  }

  function Run(fixed: Fixed, actions: seq<Action>): World {
    if actions == [] then Start(fixed)
    else Advance(Run(fixed, actions[..|actions| - 1]), actions[|actions| - 1])
  }

  // ---------------------------------------------------------------------------
  // What every step keeps
  // ---------------------------------------------------------------------------

  predicate Finished(stage: Stage) {
    stage.Obtained? || stage.Dropped?
  }

  /** The name is declared with an instrument of its own, so calls never reach the tables. */
  predicate Fixes(fixed: Fixed, name: string) {
    name in fixed.decls && name in fixed.predeclared
  }

  /** A registry holds only instruments of names bound to its type. */
  ghost predicate TablesSound(t: Tables) {
    forall k: Kind, n {:trigger n in t.Of(k)} :: n in t.Of(k) ==>
      n in t.types && t.types[n] == k && t.Of(k)[n].kind == k && t.Of(k)[n].name == n
  }

  /** The name is declared with another type. */
  predicate Misdeclared(fixed: Fixed, name: string, kind: Kind) {
    name in fixed.decls && fixed.decls[name] != kind
  }

  /** What a recorder may rely on where it stands. */
  ghost predicate CallSound(fixed: Fixed, t: Tables, c: Call) {
    && (c.stage == Dropped(NotAsDeclared) <==> Misdeclared(fixed, c.name, c.kind))
    && match c.stage
    case Loading => !Fixes(fixed, c.name)
    case Checking => !Fixes(fixed, c.name)
    case Creating => !Fixes(fixed, c.name) && c.name in t.types && t.types[c.name] == c.kind
    case Publishing(own) =>
      && !Fixes(fixed, c.name) && c.name in t.types && t.types[c.name] == c.kind
      && own.kind == c.kind && own.name == c.name
    case Obtained(inst) =>
      if Fixes(fixed, c.name) then inst == fixed.predeclared[c.name]
      else c.name in t.Of(c.kind) && t.Of(c.kind)[c.name] == inst
    case Dropped(BoundToOther) => !Fixes(fixed, c.name) && c.name in t.types && t.types[c.name] != c.kind
    case Dropped(NotCreated) => !Fixes(fixed, c.name) && c.name in t.types && t.types[c.name] == c.kind
    case Dropped(NotAsDeclared) => true
  }

  ghost predicate Sound(w: World) {
    TablesSound(w.tables) && forall i :: 0 <= i < |w.calls| ==> CallSound(w.fixed, w.tables, w.calls[i])
  }

  /** Nothing that is bound or registered is ever changed or removed. */
  ghost predicate Grows(t: Tables, t': Tables) {
    && (forall n :: n in t.types ==> n in t'.types && t'.types[n] == t.types[n])
    && (forall k: Kind, n {:trigger n in t.Of(k)} {:trigger n in t'.Of(k)} ::
          n in t.Of(k) ==> n in t'.Of(k) && t'.Of(k)[n] == t.Of(k)[n])
  }

  /** Binding a name: the first type to come stays. */
  lemma BindingKeeps(t: Tables, types: map<string, Kind>, name: string, kind: Kind)
    requires TablesSound(t) && types == LoadOrStore(t.types, name, kind).0
    ensures TablesSound(t.(types := types)) && Grows(t, t.(types := types))
    ensures name in types && types[name] == LoadOrStore(t.types, name, kind).1
  {
    assert forall k: Kind :: t.(types := types).Of(k) == t.Of(k);
  }

  /** Publishing an instrument: the first one to come stays. */
  lemma PublishingKeeps(t: Tables, c: Call, own: Instrument)
    requires TablesSound(t) && c.name in t.types && t.types[c.name] == c.kind
    requires own.kind == c.kind && own.name == c.name
    ensures var (m, actual) := LoadOrStore(t.Of(c.kind), c.name, own);
            var t' := t.With(c.kind, m);
            TablesSound(t') && Grows(t, t') && c.name in t'.Of(c.kind) && t'.Of(c.kind)[c.name] == actual
  {
    var m := LoadOrStore(t.Of(c.kind), c.name, own).0;
    assert forall k: Kind :: t.With(c.kind, m).Of(k) == if k == c.kind then m else t.Of(k);
  }

  lemma OperateKeeps(fixed: Fixed, t: Tables, made: nat, c: Call, creates: bool)
    requires TablesSound(t) && CallSound(fixed, t, c)
    ensures var (t', _, stage) := Operate(t, made, c, creates);
            TablesSound(t') && Grows(t, t') && CallSound(fixed, t', c.(stage := stage))
  {
    match c.stage
    case Checking => BindingKeeps(t, LoadOrStore(t.types, c.name, c.kind).0, c.name, c.kind);
    case Publishing(own) => PublishingKeeps(t, c, own);
    case _ =>
  }

  lemma StaysSound(fixed: Fixed, t: Tables, t': Tables, c: Call)
    requires CallSound(fixed, t, c) && Grows(t, t')
    ensures CallSound(fixed, t', c)
  {
  }

  lemma AdvanceKeeps(w: World, a: Action)
    requires Sound(w)
    ensures Sound(Advance(w, a)) && Grows(w.tables, Advance(w, a).tables) && Advance(w, a).fixed == w.fixed
  {
    var w' := Advance(w, a);
    if a.Turn? && a.thread < |w.calls| {
      OperateKeeps(w.fixed, w.tables, w.made, w.calls[a.thread], a.creates);
      forall i | 0 <= i < |w'.calls| ensures CallSound(w'.fixed, w'.tables, w'.calls[i]) {
        if i != a.thread {
          StaysSound(w.fixed, w.tables, w'.tables, w.calls[i]);
        }
      }
    }
  }

  lemma RunMore(fixed: Fixed, actions: seq<Action>, a: Action)
    ensures Run(fixed, actions + [a]) == Advance(Run(fixed, actions), a)
  {
    assert (actions + [a])[..|actions|] == actions;
  }

  lemma {:induction false} RunIsSound(fixed: Fixed, actions: seq<Action>)
    ensures Sound(Run(fixed, actions)) && Run(fixed, actions).fixed == fixed
  {
    if actions != [] {
      RunIsSound(fixed, actions[..|actions| - 1]);
      AdvanceKeeps(Run(fixed, actions[..|actions| - 1]), actions[|actions| - 1]);
    }
  }

  // ---------------------------------------------------------------------------
  // The promises
  // ---------------------------------------------------------------------------

  /** On every run a name is in at most one registry, that of the type it is bound to. */
  lemma OneRegistryPerName(fixed: Fixed, actions: seq<Action>, name: string, k: Kind)
    requires name in Run(fixed, actions).tables.Of(k)
    ensures name in Run(fixed, actions).tables.types && Run(fixed, actions).tables.types[name] == k
    ensures forall k': Kind :: name in Run(fixed, actions).tables.Of(k') ==> k' == k
    ensures Run(fixed, actions).tables.Of(k)[name].kind == k
  {
    RunIsSound(fixed, actions);
  }

  /** Once bound, a name keeps its type; once registered, its instrument. */
  lemma {:induction false} BoundForever(fixed: Fixed, actions: seq<Action>, more: seq<Action>)
    ensures Grows(Run(fixed, actions).tables, Run(fixed, actions + more).tables)
    decreases more
  {
    if more == [] {
      assert actions + more == actions;
    } else {
      var init := more[..|more| - 1];
      BoundForever(fixed, actions, init);
      assert (actions + more)[..|actions + more| - 1] == actions + init;
      RunIsSound(fixed, actions + init);
      AdvanceKeeps(Run(fixed, actions + init), more[|more| - 1]);
    }
  }

  /** All callers that obtain an instrument for a name obtain the same one, whatever they
      asked for, whenever they asked, and whichever creations failed. */
  lemma OneInstrumentPerName(fixed: Fixed, actions: seq<Action>, i: nat, j: nat)
    requires i < |Run(fixed, actions).calls| && j < |Run(fixed, actions).calls|
    requires Run(fixed, actions).calls[i].name == Run(fixed, actions).calls[j].name
    requires Run(fixed, actions).calls[i].stage.Obtained? && Run(fixed, actions).calls[j].stage.Obtained?
    ensures Run(fixed, actions).calls[i].stage.inst == Run(fixed, actions).calls[j].stage.inst
  {
    RunIsSound(fixed, actions);
    var w := Run(fixed, actions);
    assert CallSound(fixed, w.tables, w.calls[i]) && CallSound(fixed, w.tables, w.calls[j]);
  }

  /** On every run exactly those recorders are turned away at once whose name is declared with
      another type. */
  lemma TurnedAwayIffMisdeclared(fixed: Fixed, actions: seq<Action>, i: nat)
    requires i < |Run(fixed, actions).calls|
    ensures var c := Run(fixed, actions).calls[i];
            c.stage == Dropped(NotAsDeclared) <==> c.name in fixed.decls && fixed.decls[c.name] != c.kind
  {
    RunIsSound(fixed, actions);
    var w := Run(fixed, actions);
    assert CallSound(fixed, w.tables, w.calls[i]);
  }

  /** A recorder whose creation, if it comes to one, succeeds. */
  predicate Creates(actions: seq<Action>, i: nat) {
    forall k :: 0 <= k < |actions| && actions[k].Turn? && actions[k].thread == i ==> actions[k].creates
  }

  lemma {:induction false} CreationsSucceed(fixed: Fixed, actions: seq<Action>, i: nat)
    requires i < |Run(fixed, actions).calls| && Creates(actions, i)
    ensures Run(fixed, actions).calls[i].stage != Dropped(NotCreated)
  {
    if actions != [] {
      var init, last := actions[..|actions| - 1], actions[|actions| - 1];
      if i < |Run(fixed, init).calls| {
        CreationsSucceed(fixed, init, i);
        assert last.Turn? && last.thread == i ==> last.creates;
      }
    }
  }

  /** Such a recorder obtains an instrument, once it has finished, exactly if its name is not
      declared with another type, and is declared with an instrument or bound to its type. */
  lemma ObtainedIffItsType(fixed: Fixed, actions: seq<Action>, i: nat)
    requires i < |Run(fixed, actions).calls| && Finished(Run(fixed, actions).calls[i].stage) && Creates(actions, i)
    ensures var w := Run(fixed, actions);
            var c := w.calls[i];
            c.stage.Obtained? <==>
              && !(c.name in fixed.decls && fixed.decls[c.name] != c.kind)
              && (|| (c.name in fixed.decls && c.name in fixed.predeclared)
                  || (c.name in w.tables.types && w.tables.types[c.name] == c.kind))
  {
    RunIsSound(fixed, actions);
    CreationsSucceed(fixed, actions, i);
    var w := Run(fixed, actions);
    assert CallSound(fixed, w.tables, w.calls[i]);
  }

  /** A recorder that is past the declarations ends as bound to another type exactly when
      the name is bound to another type. */
  lemma DroppedIffBoundElsewhere(fixed: Fixed, actions: seq<Action>, i: nat)
    requires i < |Run(fixed, actions).calls| && Finished(Run(fixed, actions).calls[i].stage)
    requires !Fixes(fixed, Run(fixed, actions).calls[i].name)
    requires Run(fixed, actions).calls[i].stage != Dropped(NotAsDeclared)
    ensures var w := Run(fixed, actions);
            var c := w.calls[i];
            && c.name in w.tables.types
            && (c.stage == Dropped(BoundToOther) <==> w.tables.types[c.name] != c.kind)
            && (c.stage.Obtained? ==> c.stage.inst.kind == c.kind && c.stage.inst.name == c.name)
  {
    RunIsSound(fixed, actions);
    var w := Run(fixed, actions);
    assert CallSound(fixed, w.tables, w.calls[i]);
  }

  /** A recorder on its own whose creation fails. */
  function FailingCall(name: string, k: Kind): seq<Action> {
    [Begin(name, k)] + [Turn(0, false)] + [Turn(0, false)] + [Turn(0, false)]
  }

  /** The tables with a binding and nothing else. */
  function OnlyBound(name: string, k: Kind): Tables {
    Tables(map[name := k], map[], map[], map[], map[])
  }

  lemma FailingCallBinds(fixed: Fixed, name: string, k: Kind)
    requires name !in fixed.decls
    ensures Run(fixed, FailingCall(name, k)) ==
            World(fixed, OnlyBound(name, k), 0, [Call(name, k, Dropped(NotCreated))])
  {
    var a1 := [Begin(name, k)];
    var a2 := a1 + [Turn(0, false)];
    RunMore(fixed, [], Begin(name, k));
    assert [] + [Begin(name, k)] == a1;
    RunMore(fixed, a1, Turn(0, false));
    RunMore(fixed, a2, Turn(0, false));
    RunMore(fixed, a2 + [Turn(0, false)], Turn(0, false));
  }

  /** A binding outlives the creation it was made for: after a failed creation the name is in
      no registry, and yet a recorder of another type is turned away. */
  lemma FailedCreationStillBinds(fixed: Fixed, name: string, k: Kind, k': Kind)
    requires k != k' && name !in fixed.decls
    ensures var w := Run(fixed, FailingCall(name, k) + [Begin(name, k')] + [Turn(1, true)] + [Turn(1, true)]);
            && |w.calls| == 2 && w.calls[1].stage == Dropped(BoundToOther)
            && forall kind: Kind :: name !in w.tables.Of(kind)
  {
    var a := FailingCall(name, k);
    FailingCallBinds(fixed, name, k);
    RunMore(fixed, a, Begin(name, k'));
    RunMore(fixed, a + [Begin(name, k')], Turn(1, true));
    RunMore(fixed, a + [Begin(name, k')] + [Turn(1, true)], Turn(1, true));
  }

  // ---------------------------------------------------------------------------
  // Progress
  // ---------------------------------------------------------------------------

  /** How many operations a recorder has left at most. */
  function Left(stage: Stage): nat {
    match stage
    case Loading => 4
    case Checking => 3
    case Creating => 2
    case Publishing(_) => 1
    case _ => 0
  }

  function TurnsOf(actions: seq<Action>, i: nat): nat {
    if actions == [] then 0
    else
      var last := actions[|actions| - 1];
      TurnsOf(actions[..|actions| - 1], i) + (if last.Turn? && last.thread == i then 1 else 0)
  }

  /** An operation of a recorder brings it nearer to its end; those of others leave it alone. */
  lemma TurnBringsNearer(w: World, a: Action, i: nat)
    requires i < |w.calls|
    ensures i < |Advance(w, a).calls|
    ensures var stage, stage' := w.calls[i].stage, Advance(w, a).calls[i].stage;
            && (Finished(stage) ==> stage' == stage)
            && (Finished(stage') || Left(stage') + (if a.Turn? && a.thread == i then 1 else 0) <= Left(stage))
  {
  }

  /** No recorder waits for another: whatever the others do meanwhile, each operation of its
      own brings it nearer to its end, and four operations end it. */
  lemma {:induction false} EndsInFourTurns(fixed: Fixed, actions: seq<Action>, more: seq<Action>, i: nat)
    requires i < |Run(fixed, actions).calls|
    ensures i < |Run(fixed, actions + more).calls|
    ensures Left(Run(fixed, actions + more).calls[i].stage) + TurnsOf(more, i) <= 4 ||
            Finished(Run(fixed, actions + more).calls[i].stage)
    ensures TurnsOf(more, i) >= 4 ==> Finished(Run(fixed, actions + more).calls[i].stage)
    decreases more
  {
    if more == [] {
      assert actions + more == actions;
    } else {
      var init, last := more[..|more| - 1], more[|more| - 1];
      EndsInFourTurns(fixed, actions, init, i);
      assert (actions + more)[..|actions + more| - 1] == actions + init;
      TurnBringsNearer(Run(fixed, actions + init), last, i);
    }
  }

  // ---------------------------------------------------------------------------
  // The code of one recorder
  // ---------------------------------------------------------------------------

  /** A recorder whose operations nobody interrupts. */
  function Alone(t: Tables, made: nat, c: Call, creates: bool): (Tables, nat, Stage)
    decreases Left(c.stage)
  {
    if Finished(c.stage) then (t, made, c.stage)
    else
      var (t', made', stage) := Operate(t, made, c, creates);
      Alone(t', made', c.(stage := stage), creates)
  }

  function Again(a: Action, n: nat): (r: seq<Action>)
    ensures |r| == n
  {
    if n == 0 then [] else [a] + Again(a, n - 1)
  }

  /** One operation of a recorder leaves the rest of its uninterrupted call to do. */
  lemma TurnOfAlone(w: World, i: nat, creates: bool)
    requires i < |w.calls| && !Finished(w.calls[i].stage)
    ensures var w' := Advance(w, Turn(i, creates));
            && i < |w'.calls| && Left(w'.calls[i].stage) < Left(w.calls[i].stage)
            && Alone(w'.tables, w'.made, w'.calls[i], creates) == Alone(w.tables, w.made, w.calls[i], creates)
  {
  }

  /** The uninterrupted recorder is one of the interleavings. */
  lemma {:induction false} AloneIsARun(fixed: Fixed, actions: seq<Action>, i: nat, creates: bool) returns (n: nat)
    requires i < |Run(fixed, actions).calls|
    ensures var w := Run(fixed, actions);
            var w' := Run(fixed, actions + Again(Turn(i, creates), n));
            i < |w'.calls| && (w'.tables, w'.made, w'.calls[i].stage) == Alone(w.tables, w.made, w.calls[i], creates)
    decreases Left(Run(fixed, actions).calls[i].stage)
  {
    if Finished(Run(fixed, actions).calls[i].stage) {
      n := 0;
      assert actions + Again(Turn(i, creates), 0) == actions;
    } else {
      var turn := Turn(i, creates);
      var next := actions + [turn];
      RunMore(fixed, actions, turn);
      TurnOfAlone(Run(fixed, actions), i, creates);
      var m := AloneIsARun(fixed, next, i, creates);
      n := m + 1;
      assert actions + Again(turn, n) == next + Again(turn, m);
    }
  }

  /** What is left to do after the name has been checked, and after it has been found absent. */
  lemma AloneSteps(t: Tables, made: nat, name: string, kind: Kind, creates: bool)
    ensures Alone(t, made, Call(name, kind, Loading), creates) ==
            if name in t.Of(kind) then (t, made, Obtained(t.Of(kind)[name]))
            else Alone(t, made, Call(name, kind, Checking), creates)
    ensures var (types, existing) := LoadOrStore(t.types, name, kind);
            Alone(t, made, Call(name, kind, Checking), creates) ==
            if existing != kind then (t.(types := types), made, Dropped(BoundToOther))
            else Alone(t.(types := types), made, Call(name, kind, Creating), creates)
  {
  }

  lemma AloneCreates(t: Tables, made: nat, name: string, kind: Kind)
    ensures var (m, actual) := LoadOrStore(t.Of(kind), name, Instrument(name, kind, made));
            Alone(t, made, Call(name, kind, Creating), true) == (t.With(kind, m), made + 1, Obtained(actual))
  {
    var own := Instrument(name, kind, made);
    assert Alone(t, made, Call(name, kind, Creating), true) ==
           Alone(t, made + 1, Call(name, kind, Publishing(own)), true);
    var (m, actual) := LoadOrStore(t.Of(kind), name, own);
    assert Alone(t, made + 1, Call(name, kind, Publishing(own)), true) ==
           Alone(t.With(kind, m), made + 1, Call(name, kind, Obtained(actual)), true);
  }

  /** What becomes of an uninterrupted recorder, by what it finds. */
  predicate Resolved(fixed: Fixed, t: Tables, made: nat, name: string, kind: Kind, creates: bool, t': Tables,
                     made': nat, stage: Stage) {
    if Misdeclared(fixed, name, kind) then stage == Dropped(NotAsDeclared) && t' == t && made' == made
    else if name in fixed.decls && name in fixed.predeclared then
      stage == Obtained(fixed.predeclared[name]) && t' == t && made' == made
    else if name in t.Of(kind) then stage == Obtained(t.Of(kind)[name]) && t' == t && made' == made
    else if name in t.types && t.types[name] != kind then stage == Dropped(BoundToOther) && t' == t && made' == made
    else t'.types == t.types[name := kind] && Published(t, made, name, kind, creates, t', made', stage)
  }

  /** A new instrument is registered for the name, or, if none can be created, nothing is. */
  predicate Published(t: Tables, made: nat, name: string, kind: Kind, creates: bool, t': Tables, made': nat,
                      stage: Stage) {
    && (forall k: Kind :: k != kind || !creates ==> t'.Of(k) == t.Of(k))
    && if creates then
         && stage == Obtained(Instrument(name, kind, made)) && made' == made + 1
         && t'.Of(kind) == t.Of(kind)[name := Instrument(name, kind, made)]
       else stage == Dropped(NotCreated) && made' == made
  }

  /** Binding a name touches no registry; publishing touches only the one of its type. */
  lemma OnlyItsRegistry(t: Tables, types: map<string, Kind>, kind: Kind, m: map<string, Instrument>)
    ensures forall k: Kind :: t.(types := types).Of(k) == t.Of(k)
    ensures t.With(kind, m).types == t.types
    ensures forall k: Kind :: t.With(kind, m).Of(k) == if k == kind then m else t.Of(k)
  {
  }

  /** A recorder that has bound its name, or found it bound to its type. */
  lemma AloneBound(t: Tables, made: nat, name: string, kind: Kind, creates: bool)
    requires name !in t.Of(kind)
    ensures var (t', made', stage) := Alone(t, made, Call(name, kind, Creating), creates);
            t'.types == t.types && Published(t, made, name, kind, creates, t', made', stage)
  {
    if creates {
      AloneCreates(t, made, name, kind);
      OnlyItsRegistry(t, t.types, kind, t.Of(kind)[name := Instrument(name, kind, made)]);
    }
  }

  lemma AloneBinds(t: Tables, made: nat, name: string, kind: Kind, creates: bool)
    requires name !in t.Of(kind)
    ensures var types := t.types[name := kind];
            var (t', made', stage) := Alone(t.(types := types), made, Call(name, kind, Creating), creates);
            t'.types == types && Published(t, made, name, kind, creates, t', made', stage)
  {
    var types := t.types[name := kind];
    OnlyItsRegistry(t, types, kind, map[]);
    AloneBound(t.(types := types), made, name, kind, creates);
  }

  /** A recorder whose name has no instrument yet: bound to another type, or bound now. */
  lemma AloneChecks(t: Tables, made: nat, name: string, kind: Kind, creates: bool)
    requires name !in t.Of(kind)
    ensures Alone(t, made, Call(name, kind, Loading), creates) ==
            if name in t.types && t.types[name] != kind then (t, made, Dropped(BoundToOther))
            else Alone(t.(types := t.types[name := kind]), made, Call(name, kind, Creating), creates)
  {
    AloneSteps(t, made, name, kind, creates);
    if name in t.types && t.types[name] == kind {
      assert t.types == t.types[name := kind];
    }
  }

  lemma AloneIsResolved(fixed: Fixed, t: Tables, made: nat, name: string, kind: Kind, creates: bool)
    ensures var (t', made', stage) := Alone(t, made, Begun(fixed, name, kind), creates);
            Resolved(fixed, t, made, name, kind, creates, t', made', stage)
  {
    if Begun(fixed, name, kind).stage.Loading? {
      if name in t.Of(kind) {
        AloneSteps(t, made, name, kind, creates);
      } else {
        AloneChecks(t, made, name, kind, creates);
        AloneBinds(t, made, name, kind, creates);
      }
    }
  }

  class Metrics {
    const fixed: Fixed
    var tables: Tables
    var made: nat

    constructor (fixed: Fixed)
      ensures this.fixed == fixed && tables == Start(fixed).tables && made == 0
    {
      this.fixed, tables, made := fixed, Start(fixed).tables, 0;
    }

    method CheckDynamicTypeConflict(name: string, kind: Kind) returns (ok: bool)
      modifies this`tables
      ensures tables == old(tables).(types := LoadOrStore(old(tables.types), name, kind).0)
      ensures name in tables.types && (ok <==> tables.types[name] == kind)
    {
      var (m, existing) := LoadOrStore(tables.types, name, kind);
      tables := tables.(types := m);
      return existing == kind;
    }

    /** The four getOrCreateDynamic functions differ in the registry only. */
    method GetOrCreateDynamic(kind: Kind, name: string, creates: bool) returns (r: Option<Instrument>)
      modifies this
      ensures var (t, n, stage) := Alone(old(tables), old(made), Call(name, kind, Loading), creates);
              tables == t && made == n && r == if stage.Obtained? then Some(stage.inst) else None
    {
      AloneSteps(tables, made, name, kind, creates);
      if name in tables.Of(kind) {
        return Some(tables.Of(kind)[name]);
      }
      var ok := CheckDynamicTypeConflict(name, kind);
      if !ok {
        return None;
      }
      if !creates {
        return None;
      }
      AloneCreates(tables, made, name, kind);
      var inst := Instrument(name, kind, made);
      made := made + 1;
      var (m, actual) := LoadOrStore(tables.Of(kind), name, inst);
      tables := tables.With(kind, m);
      return Some(actual);
    }

    /** The resolution part of RecordUserCounter and its three siblings. */
    method Resolve(kind: Kind, name: string, creates: bool) returns (r: Option<Instrument>)
      modifies this
      ensures var (t, n, stage) := Alone(old(tables), old(made), Begun(fixed, name, kind), creates);
              && tables == t && made == n && r == (if stage.Obtained? then Some(stage.inst) else None)
              && Resolved(fixed, old(tables), old(made), name, kind, creates, t, n, stage)
    {
      AloneIsResolved(fixed, tables, made, name, kind, creates);
      if name in fixed.decls && fixed.decls[name] != kind {
        return None;
      }
      if name in fixed.decls && name in fixed.predeclared {
        return Some(fixed.predeclared[name]);
      }
      r := GetOrCreateDynamic(kind, name, creates);
    }
  }
}
