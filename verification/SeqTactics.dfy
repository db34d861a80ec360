/** Rules on sequents and their combinators (src/generic/seqtactics.ml). */
module SeqTactics {
  import opened Outcomes
  import opened ProofTree
  import opened CyclicSoundness
  import opened Rules
  import opened Combinators
  import Lists
  import Minimise

  type SeqRule = Sequent -> seq<InfApp>

  /** The pairs of a premise reached through another premise. */
  function FixSubgoal(p: Premise, q: Premise): Premise {
    Premise(q.sequent, Minimise.Compose(p.tv, q.tv),
            Minimise.Compose(p.tp, q.tp) + Minimise.Compose(p.tv, q.tp) + Minimise.Compose(p.tp, q.tv))
  }

  function FixAll(p: Premise, qs: seq<Premise>): (r: seq<Premise>)
    ensures |r| == |qs|
    ensures forall k :: 0 <= k < |r| ==> r[k] == FixSubgoal(p, qs[k])
  {
    seq(|qs|, k requires 0 <= k < |qs| => FixSubgoal(p, qs[k]))
  }

  function ApplyToSubgoal(r: SeqRule, p: Premise): (apps: seq<InfApp>)
    ensures |apps| == |r(p.sequent)|
    ensures forall k :: 0 <= k < |apps| ==> apps[k].premises == FixAll(p, r(p.sequent)[k].premises)
  {
    var apps := r(p.sequent);
    seq(|apps|, k requires 0 <= k < |apps| => InfApp(FixAll(p, apps[k].premises), apps[k].descr))
  }

  function Concat(sep: string, ds: seq<string>): string {
    if ds == [] then "" else if |ds| == 1 then ds[0] else ds[0] + sep + Concat(sep, ds[1..])
  }

  function FiltEmp(ds: seq<string>): seq<string> {
    if ds == [] then [] else (if ds[0] != "" then [ds[0]] else []) + FiltEmp(ds[1..])
  }

  function Flatten(l: seq<InfApp>): seq<Premise> {
    if l == [] then [] else l[0].premises + Flatten(l[1..])
  }

  function Descrs(l: seq<InfApp>): (ds: seq<string>) {
    if l == [] then [] else [l[0].descr] + Descrs(l[1..])
  }

  function Merge(d: string, l: seq<InfApp>): InfApp {
    InfApp(Flatten(l), Concat("/", FiltEmp([d, Concat(",", FiltEmp(Descrs(l)))])))
  }

  /** The applications of `r` to each premise. */
  function Options(r: SeqRule, app: InfApp): (lol: seq<seq<InfApp>>)
    ensures |lol| == |app.premises|
    ensures forall k :: 0 <= k < |lol| ==> lol[k] == ApplyToSubgoal(r, app.premises[k])
  {
    seq(|app.premises|, k requires 0 <= k < |app.premises| => ApplyToSubgoal(r, app.premises[k]))
  }

  function ApplyToApplication(r: SeqRule, app: InfApp): (apps: seq<InfApp>) {
    var choices := Lists.Choose(Options(r, app));
    seq(|choices|, k requires 0 <= k < |choices| => Merge(app.descr, choices[k]))
  }

  function BindApps(f: InfApp -> seq<InfApp>, apps: seq<InfApp>): seq<InfApp> {
    if apps == [] then [] else f(apps[0]) + BindApps(f, apps[1..])
  }

  function Compose(r: SeqRule, r': SeqRule, s: Sequent): seq<InfApp> {
    BindApps(app => ApplyToApplication(r', app), r(s))
  }

  function Attempt(r: SeqRule, s: Sequent): seq<InfApp> {
    if r(s) == [] then [InfApp([Premise(s, set t | t in s.Tags() :: (t, t), {})], "")] else r(s)
  }

  function First(rs: seq<SeqRule>, s: Sequent): seq<InfApp> {
    if rs == [] then [] else if rs[0](s) == [] then First(rs[1..], s) else rs[0](s)
  }

  function Choice(rs: seq<SeqRule>, s: Sequent): seq<InfApp> {
    if rs == [] then [] else rs[0](s) + Choice(rs[1..], s)
  }

  /** What one round of `repeat` does to an application. */
  type Step = InfApp -> seq<InfApp>

  function StepOf(r: SeqRule): Step {
    app => ApplyToApplication(r, app)
  }

  /** The recursion of `repeat`, cut off after `fuel` rounds. */
  function RepeatApp(step: Step, app: InfApp, fuel: nat): Option<seq<InfApp>>
    decreases fuel, 1, 0
  {
    var apps := step(app);
    if apps == [] then Some([app])
    else if fuel == 0 then None
    else RepeatAll(step, apps, fuel - 1)
  }

  function RepeatAll(step: Step, apps: seq<InfApp>, fuel: nat): Option<seq<InfApp>>
    decreases fuel, 2, |apps|
  {
    if apps == [] then Some([])
    else match RepeatApp(step, apps[0], fuel)
      case None => None
      case Some(first) =>
        match RepeatAll(step, apps[1..], fuel)
        case None => None
        case Some(rest) => Some(first + rest)
  }

  function Repeat(r: SeqRule, s: Sequent, fuel: nat): Option<seq<InfApp>> {
    RepeatAll(StepOf(r), r(s), fuel)
  }

  // ---------- Composition keeps descent ----------

  lemma DescendsCompose<M(!new)>(sem: Semantics<M>, m: M, m': M, m'': M, p: Premise, q: Premise)
    requires Descends(sem, m, m', p.tv, p.tp) && Descends(sem, m', m'', q.tv, q.tp)
    ensures Descends(sem, m, m'', FixSubgoal(p, q).tv, FixSubgoal(p, q).tp)
  {
    var f := FixSubgoal(p, q);
    forall x, z | (x, z) in f.tv
      ensures sem.rank(m'', z) <= sem.rank(m, x)
    {
      var y :| (x, y) in p.tv && (y, z) in q.tv;
    }
    forall x, z | (x, z) in f.tp
      ensures sem.rank(m'', z) < sem.rank(m, x)
    {
      if (x, z) in Minimise.Compose(p.tp, q.tp) {
        var y :| (x, y) in p.tp && (y, z) in q.tp;
      } else if (x, z) in Minimise.Compose(p.tv, q.tp) {
        var y :| (x, y) in p.tv && (y, z) in q.tp;
      } else {
        var y :| (x, y) in p.tp && (y, z) in q.tv;
      }
    }
  }

  lemma {:induction false} InFlatten(l: seq<InfApp>, k: nat, j: nat) returns (i: nat)
    requires k < |l| && j < |l[k].premises|
    ensures i < |Flatten(l)| && Flatten(l)[i] == l[k].premises[j]
  {
    if k == 0 {
      i := j;
    } else {
      var i' := InFlatten(l[1..], k - 1, j);
      i := |l[0].premises| + i';
    }
  }

  /** How many premises the first `k` applications have. */
  function Before(l: seq<InfApp>, k: nat): nat
    requires k <= |l|
  {
    if k == 0 then 0 else |l[0].premises| + Before(l[1..], k - 1)
  }

  /** The premises come application by application, each with its own in order. */
  lemma {:induction false} FlattenExact(l: seq<InfApp>, k: nat, j: nat)
    requires k < |l| && j < |l[k].premises|
    ensures |Flatten(l)| == Before(l, |l|) && Before(l, k) + j < |Flatten(l)|
    ensures Flatten(l)[Before(l, k) + j] == l[k].premises[j]
  {
    FlattenLength(l);
    if k > 0 {
      FlattenExact(l[1..], k - 1, j);
    }
  }

  lemma {:induction false} FlattenLength(l: seq<InfApp>)
    ensures |Flatten(l)| == Before(l, |l|)
  {
    if l != [] {
      FlattenLength(l[1..]);
    }
  }

  /** One choice of applications of `r` to the premises of a sound step is a sound step. */
  lemma SelectionSound<M(!new)>(sem: Semantics<M>, r: SeqRule, s: Sequent, app: InfApp, l: seq<InfApp>, m: M)
    requires SoundStep(sem, s, app.premises) && SoundInferences(sem, r)
    requires |l| == |app.premises| && forall k :: 0 <= k < |l| ==> l[k] in ApplyToSubgoal(r, app.premises[k])
    requires sem.falsifies(m, s)
    ensures RefutesSome(sem, m, Flatten(l))
  {
    assert RefutesSome(sem, m, app.premises);
    var k, m' :| 0 <= k < |app.premises| && RefutesPremise(sem, m, m', app.premises[k]);
    var p := app.premises[k];
    var j :| 0 <= j < |ApplyToSubgoal(r, p)| && ApplyToSubgoal(r, p)[j] == l[k];
    var inner := r(p.sequent)[j].premises;
    assert SoundStep(sem, p.sequent, inner);
    assert RefutesSome(sem, m', inner);
    var i, m'' :| 0 <= i < |inner| && RefutesPremise(sem, m', m'', inner[i]);
    DescendsCompose(sem, m, m', m'', p, inner[i]);
    var n := InFlatten(l, k, i);
    assert RefutesPremise(sem, m, m'', Flatten(l)[n]);
  }

  lemma ApplicationSound<M(!new)>(sem: Semantics<M>, r: SeqRule, s: Sequent, app: InfApp, n: nat)
    requires SoundStep(sem, s, app.premises) && SoundInferences(sem, r)
    requires n < |ApplyToApplication(r, app)|
    ensures SoundStep(sem, s, ApplyToApplication(r, app)[n].premises)
  {
    var lol := Options(r, app);
    var l := Lists.Choose(lol)[n];
    assert l in Lists.Choose(lol);
    Lists.ChooseSelects(lol, l);
    forall m | sem.falsifies(m, s)
      ensures RefutesSome(sem, m, Flatten(l))
    {
      SelectionSound(sem, r, s, app, l, m);
    }
  }

  ghost predicate AllSound<M(!new)>(sem: Semantics<M>, s: Sequent, apps: seq<InfApp>) {
    forall k :: 0 <= k < |apps| ==> SoundStep(sem, s, apps[k].premises)
  }

  lemma {:induction false} BindSound<M(!new)>(sem: Semantics<M>, r': SeqRule, s: Sequent, apps: seq<InfApp>)
    requires AllSound(sem, s, apps) && SoundInferences(sem, r')
    ensures AllSound(sem, s, BindApps(app => ApplyToApplication(r', app), apps))
  {
    if apps != [] {
      forall n | 0 <= n < |ApplyToApplication(r', apps[0])| { ApplicationSound(sem, r', s, apps[0], n); }
      BindSound(sem, r', s, apps[1..]);
    }
  }

  /** Composed rules are locally sound: valid pairs still do not increase, progressing pairs still decrease. */
  lemma ComposeSound<M(!new)>(sem: Semantics<M>, r: SeqRule, r': SeqRule, s: Sequent)
    requires SoundInferences(sem, r) && SoundInferences(sem, r')
    ensures AllSound(sem, s, Compose(r, r', s))
  {
    BindSound(sem, r', s, r(s));
  }

  lemma AttemptSound<M(!new)>(sem: Semantics<M>, r: SeqRule, s: Sequent)
    requires SoundInferences(sem, r)
    ensures AllSound(sem, s, Attempt(r, s))
  {
    if r(s) == [] {
      var p := Attempt(r, s)[0].premises;
      forall m | sem.falsifies(m, s)
        ensures RefutesSome(sem, m, p)
      {
        assert RefutesPremise(sem, m, m, p[0]);
      }
    }
  }

  lemma {:induction false} FirstAndChoiceSound<M(!new)>(sem: Semantics<M>, rs: seq<SeqRule>, s: Sequent)
    requires forall k :: 0 <= k < |rs| ==> SoundInferences(sem, rs[k])
    ensures AllSound(sem, s, First(rs, s)) && AllSound(sem, s, Choice(rs, s))
  {
    if rs != [] {
      assert SoundInferences(sem, rs[0]);
      FirstAndChoiceSound(sem, rs[1..], s);
    }
  }

  lemma OneSound<M(!new)>(sem: Semantics<M>, s: Sequent, app: InfApp)
    requires SoundStep(sem, s, app.premises)
    ensures AllSound(sem, s, [app])
  {
  }

  lemma BothSound<M(!new)>(sem: Semantics<M>, s: Sequent, apps: seq<InfApp>, apps': seq<InfApp>)
    requires AllSound(sem, s, apps) && AllSound(sem, s, apps')
    ensures AllSound(sem, s, apps + apps')
  {
  }

  ghost predicate KeepsSound<M(!new)>(sem: Semantics<M>, s: Sequent, step: Step) {
    forall app: InfApp :: SoundStep(sem, s, app.premises) ==> AllSound(sem, s, step(app))
  }

  lemma {:induction false} RepeatAppSound<M(!new)>(sem: Semantics<M>, step: Step, s: Sequent, app: InfApp, fuel: nat)
    requires SoundStep(sem, s, app.premises) && KeepsSound(sem, s, step)
    ensures RepeatApp(step, app, fuel).Some? ==> AllSound(sem, s, RepeatApp(step, app, fuel).value)
    decreases fuel, 1, 0
  {
    if step(app) == [] {
      OneSound(sem, s, app);
    } else if fuel > 0 {
      RepeatAllSound(sem, step, s, step(app), fuel - 1);
    }
  }

  lemma {:induction false} RepeatAllSound<M(!new)>(sem: Semantics<M>, step: Step, s: Sequent, apps: seq<InfApp>, fuel: nat)
    requires AllSound(sem, s, apps) && KeepsSound(sem, s, step)
    ensures RepeatAll(step, apps, fuel).Some? ==> AllSound(sem, s, RepeatAll(step, apps, fuel).value)
    decreases fuel, 2, |apps|
  {
    if apps != [] {
      RepeatAppSound(sem, step, s, apps[0], fuel);
      RepeatAllSound(sem, step, s, apps[1..], fuel);
      if RepeatAll(step, apps, fuel).Some? {
        BothSound(sem, s, RepeatApp(step, apps[0], fuel).value, RepeatAll(step, apps[1..], fuel).value);
      }
    }
  }

  lemma StepOfSound<M(!new)>(sem: Semantics<M>, r: SeqRule, s: Sequent)
    requires SoundInferences(sem, r)
    ensures KeepsSound(sem, s, StepOf(r))
  {
    forall app: InfApp | SoundStep(sem, s, app.premises)
      ensures AllSound(sem, s, StepOf(r)(app))
    {
      forall n | 0 <= n < |ApplyToApplication(r, app)| { ApplicationSound(sem, r, s, app, n); }
    }
  }

  lemma RepeatSound<M(!new)>(sem: Semantics<M>, r: SeqRule, s: Sequent, fuel: nat)
    requires SoundInferences(sem, r)
    ensures Repeat(r, s, fuel).Some? ==> AllSound(sem, s, Repeat(r, s, fuel).value)
  {
    StepOfSound(sem, r, s);
    RepeatAllSound(sem, StepOf(r), s, r(s), fuel);
  }

  // ---------- Exactly which applications are returned ----------

  /** `y` links `x` to `z` through the two premises. */
  ghost predicate ValidVia(p: Premise, q: Premise, x: int, y: int, z: int) {
    (x, y) in p.tv && (y, z) in q.tv
  }

  /** The same, with a progressing half. */
  ghost predicate ProgressVia(p: Premise, q: Premise, x: int, y: int, z: int) {
    && (x, y) in p.tv + p.tp && (y, z) in q.tv + q.tp
    && ((x, y) in p.tp || (y, z) in q.tp)
  }

  /** `f` is the premise `q`, reached through the premise `p`. */
  ghost predicate Through(p: Premise, q: Premise, f: Premise) {
    && f.sequent == q.sequent
    && (forall x, z :: (x, z) in f.tv <==> exists y :: ValidVia(p, q, x, y, z))
    && (forall x, z :: (x, z) in f.tp <==> exists y :: ProgressVia(p, q, x, y, z))
  }

  lemma FixSubgoalThrough(p: Premise, q: Premise)
    ensures Through(p, q, FixSubgoal(p, q))
  {
    var f := FixSubgoal(p, q);
    forall x, z
      ensures (x, z) in f.tv <==> exists y :: ValidVia(p, q, x, y, z)
      ensures (x, z) in f.tp <==> exists y :: ProgressVia(p, q, x, y, z)
    {
      if (x, z) in f.tv {
        var y :| (x, y) in p.tv && (y, z) in q.tv;
        assert ValidVia(p, q, x, y, z);
      }
      ProgressComposed(p, q, x, z);
    }
  }

  lemma ProgressComposed(p: Premise, q: Premise, x: int, z: int)
    ensures (x, z) in FixSubgoal(p, q).tp <==> exists y :: ProgressVia(p, q, x, y, z)
  {
    if (x, z) in Minimise.Compose(p.tp, q.tp) {
      var y :| (x, y) in p.tp && (y, z) in q.tp;
      assert ProgressVia(p, q, x, y, z);
    } else if (x, z) in Minimise.Compose(p.tv, q.tp) {
      var y :| (x, y) in p.tv && (y, z) in q.tp;
      assert ProgressVia(p, q, x, y, z);
    } else if (x, z) in Minimise.Compose(p.tp, q.tv) {
      var y :| (x, y) in p.tp && (y, z) in q.tv;
      assert ProgressVia(p, q, x, y, z);
    }
  }

  lemma ThroughWithin(p: Premise, q: Premise, f: Premise, f': Premise)
    requires Through(p, q, f) && Through(p, q, f')
    ensures f.tv <= f'.tv && f.tp <= f'.tp
  {
    forall e | e in f.tv
      ensures e in f'.tv
    {
      var x, z := e.0, e.1;
      assert (x, z) == e && (x, z) in f'.tv;
    }
    forall e | e in f.tp
      ensures e in f'.tp
    {
      var x, z := e.0, e.1;
      assert (x, z) == e && (x, z) in f'.tp;
    }
  }

  lemma ThroughIsUnique(p: Premise, q: Premise, f: Premise, f': Premise)
    requires Through(p, q, f) && Through(p, q, f')
    ensures f == f'
  {
    ThroughWithin(p, q, f, f');
    ThroughWithin(p, q, f', f);
  }

  /** With progressing pairs among the valid ones: a pair of the result is valid exactly if some tag links it through
      both premises, and progressing exactly if some such tag has a progressing half. */
  lemma FixSubgoalExact(p: Premise, q: Premise, x: int, z: int)
    requires p.tp <= p.tv && q.tp <= q.tv
    ensures (x, z) in FixSubgoal(p, q).tv <==> exists y :: ValidVia(p, q, x, y, z)
    ensures (x, z) in FixSubgoal(p, q).tp <==>
            exists y :: ValidVia(p, q, x, y, z) && ((x, y) in p.tp || (y, z) in q.tp)
  {
    FixSubgoalThrough(p, q);
    forall y
      ensures ProgressVia(p, q, x, y, z) <==> ValidVia(p, q, x, y, z) && ((x, y) in p.tp || (y, z) in q.tp)
    {
      assert p.tv + p.tp == p.tv && q.tv + q.tp == q.tv;
    }
  }

  lemma ProgressStaysValid(p: Premise, q: Premise)
    requires p.tp <= p.tv && q.tp <= q.tv
    ensures FixSubgoal(p, q).tp <= FixSubgoal(p, q).tv
  {
    forall e | e in FixSubgoal(p, q).tp
      ensures e in FixSubgoal(p, q).tv
    {
      FixSubgoalExact(p, q, e.0, e.1);
      assert (e.0, e.1) == e;
    }
  }

  /** `b` is the application `a`, with every premise reached through `p`. */
  ghost predicate AppliedThrough(p: Premise, a: InfApp, b: InfApp) {
    && b.descr == a.descr && |b.premises| == |a.premises|
    && forall j :: 0 <= j < |a.premises| ==> Through(p, a.premises[j], b.premises[j])
  }

  lemma AppliedExact(r: SeqRule, p: Premise, b: InfApp)
    ensures b in ApplyToSubgoal(r, p) <==> exists a :: a in r(p.sequent) && AppliedThrough(p, a, b)
  {
    var apps := r(p.sequent);
    if b in ApplyToSubgoal(r, p) {
      var k :| 0 <= k < |apps| && ApplyToSubgoal(r, p)[k] == b;
      forall j | 0 <= j < |apps[k].premises|
        ensures Through(p, apps[k].premises[j], b.premises[j])
      {
        FixSubgoalThrough(p, apps[k].premises[j]);
      }
      assert apps[k] in apps && AppliedThrough(p, apps[k], b);
    }
    if a :| a in apps && AppliedThrough(p, a, b) {
      var k :| 0 <= k < |apps| && apps[k] == a;
      var c := ApplyToSubgoal(r, p)[k];
      forall j | 0 <= j < |a.premises|
        ensures b.premises[j] == c.premises[j]
      {
        FixSubgoalThrough(p, a.premises[j]);
        ThroughIsUnique(p, a.premises[j], b.premises[j], c.premises[j]);
      }
      assert b.premises == c.premises;
    }
  }

  /** One application of `r` for each premise of `app`, its premises reached through that one. */
  ghost predicate Picks(r: SeqRule, app: InfApp, l: seq<InfApp>) {
    |l| == |app.premises| && forall k :: 0 <= k < |l| ==> PickedAt(r, app.premises[k], l[k])
  }

  ghost predicate PickedAt(r: SeqRule, p: Premise, b: InfApp) {
    exists a :: a in r(p.sequent) && AppliedThrough(p, a, b)
  }

  ghost predicate Rewrites(r: SeqRule, a: InfApp, b: InfApp) {
    exists l :: Picks(r, a, l) && b == Merge(a.descr, l)
  }

  lemma PicksAreSelections(r: SeqRule, a: InfApp, l: seq<InfApp>)
    ensures Picks(r, a, l) <==> l in Lists.Choose(Options(r, a))
  {
    Lists.ChooseSelects(Options(r, a), l);
    forall k | 0 <= k < |l| && |l| == |a.premises|
      ensures PickedAt(r, a.premises[k], l[k]) <==> l[k] in Options(r, a)[k]
    {
      AppliedExact(r, a.premises[k], l[k]);
    }
  }

  lemma ResultIsPicked(r: SeqRule, a: InfApp, k: nat)
    requires k < |ApplyToApplication(r, a)|
    ensures Rewrites(r, a, ApplyToApplication(r, a)[k])
  {
    var l := Lists.Choose(Options(r, a))[k];
    PicksAreSelections(r, a, l);
  }

  lemma PickIsResult(r: SeqRule, a: InfApp, l: seq<InfApp>)
    requires Picks(r, a, l)
    ensures Merge(a.descr, l) in ApplyToApplication(r, a)
  {
    PicksAreSelections(r, a, l);
    var choices := Lists.Choose(Options(r, a));
    var k :| 0 <= k < |choices| && choices[k] == l;
    assert ApplyToApplication(r, a)[k] == Merge(a.descr, l);
  }

  /** Every combination of applications to the premises is returned, and nothing else. */
  lemma ApplicationExact(r: SeqRule, a: InfApp, b: InfApp)
    ensures b in ApplyToApplication(r, a) <==> Rewrites(r, a, b)
  {
    var apps := ApplyToApplication(r, a);
    if b in apps {
      var k :| 0 <= k < |apps| && apps[k] == b;
      ResultIsPicked(r, a, k);
    }
    if Rewrites(r, a, b) {
      var l :| Picks(r, a, l) && b == Merge(a.descr, l);
      PickIsResult(r, a, l);
    }
  }

  lemma {:induction false} BindExact(f: InfApp -> seq<InfApp>, apps: seq<InfApp>, b: InfApp)
    ensures b in BindApps(f, apps) <==> exists a :: a in apps && b in f(a)
    decreases |apps|
  {
    if apps != [] {
      BindExact(f, apps[1..], b);
      assert apps == [apps[0]] + apps[1..];
    }
  }

  lemma ComposeExact(r: SeqRule, r': SeqRule, s: Sequent, b: InfApp)
    ensures b in Compose(r, r', s) <==> exists a :: a in r(s) && Rewrites(r', a, b)
  {
    BindExact(app => ApplyToApplication(r', app), r(s), b);
    forall a: InfApp
      ensures b in ApplyToApplication(r', a) <==> Rewrites(r', a, b)
    {
      ApplicationExact(r', a, b);
    }
  }

  /** `first` returns all applications of the first rule that has any. */
  lemma {:induction false} FirstExact(rs: seq<SeqRule>, s: Sequent)
    ensures First(rs, s) == [] <==> forall k :: 0 <= k < |rs| ==> rs[k](s) == []
    ensures forall k :: 0 <= k < |rs| && rs[k](s) != [] && (forall j :: 0 <= j < k ==> rs[j](s) == []) ==>
              First(rs, s) == rs[k](s)
  {
    if rs != [] {
      FirstExact(rs[1..], s);
      assert forall k :: 1 <= k < |rs| ==> rs[k] == rs[1..][k - 1];
      forall k | 1 <= k < |rs| && rs[k](s) != [] && (forall j :: 0 <= j < k ==> rs[j](s) == [])
        ensures First(rs, s) == rs[k](s)
      {
        assert forall j :: 0 <= j < k - 1 ==> rs[1..][j] == rs[j + 1];
        assert rs[1..][k - 1](s) != [];
      }
    }
  }

  lemma {:induction false} ChoiceExact(rs: seq<SeqRule>, s: Sequent, b: InfApp)
    ensures b in Choice(rs, s) <==> exists k :: 0 <= k < |rs| && b in rs[k](s)
  {
    if rs != [] {
      ChoiceExact(rs[1..], s, b);
      assert forall k :: 1 <= k < |rs| ==> rs[k] == rs[1..][k - 1];
      if b in Choice(rs[1..], s) {
        var k :| 0 <= k < |rs[1..]| && b in rs[1..][k](s);
        assert rs[k + 1] == rs[1..][k];
      }
    }
  }

  /** `attempt` returns what the rule does, and falls back to one premise, the sequent itself with each tag linked to
      itself, exactly if that is nothing. */
  lemma AttemptExact(r: SeqRule, s: Sequent)
    ensures r(s) != [] ==> Attempt(r, s) == r(s)
    ensures r(s) == [] ==>
              && |Attempt(r, s)| == 1 && |Attempt(r, s)[0].premises| == 1
              && var p := Attempt(r, s)[0].premises[0];
                 p.sequent == s && p.tp == {} && forall x, y :: (x, y) in p.tv <==> x == y && x in s.tagging
  {
  }

  ghost predicate Reaches(step: Step, a: InfApp, b: InfApp, n: nat)
    decreases n
  {
    if n == 0 then a == b else exists c :: c in step(a) && Reaches(step, c, b, n - 1)
  }

  /** `b` comes from `a` by rewriting, and cannot be rewritten further. */
  ghost predicate Normalises(step: Step, a: InfApp, b: InfApp) {
    step(b) == [] && exists n: nat :: Reaches(step, a, b, n)
  }

  lemma NormalisesStep(step: Step, a: InfApp, b: InfApp)
    ensures Normalises(step, a, b) <==>
            if step(a) == [] then a == b else exists c :: c in step(a) && Normalises(step, c, b)
  {
    if Normalises(step, a, b) {
      var n: nat :| Reaches(step, a, b, n);
      if n > 0 {
        var c :| c in step(a) && Reaches(step, c, b, n - 1);
        assert Normalises(step, c, b);
      }
    }
    if a == b {
      assert Reaches(step, a, b, 0);
    }
    if c :| c in step(a) && Normalises(step, c, b) {
      var n: nat :| Reaches(step, c, b, n);
      assert Reaches(step, a, b, n + 1);
    }
  }

  lemma {:induction false} RepeatAppExact(step: Step, a: InfApp, fuel: nat, b: InfApp)
    requires RepeatApp(step, a, fuel).Some?
    ensures b in RepeatApp(step, a, fuel).value <==> Normalises(step, a, b)
    decreases fuel, 1, 0
  {
    NormalisesStep(step, a, b);
    if step(a) != [] {
      RepeatAllExact(step, step(a), fuel - 1, b);
    }
  }

  lemma {:induction false} RepeatAllExact(step: Step, apps: seq<InfApp>, fuel: nat, b: InfApp)
    requires RepeatAll(step, apps, fuel).Some?
    ensures b in RepeatAll(step, apps, fuel).value <==> exists a :: a in apps && Normalises(step, a, b)
    decreases fuel, 2, |apps|
  {
    if apps != [] {
      RepeatAppExact(step, apps[0], fuel, b);
      RepeatAllExact(step, apps[1..], fuel, b);
      assert apps == [apps[0]] + apps[1..];
    }
  }

  /** `repeat` returns exactly the normal forms of the applications of the rule. */
  lemma RepeatExact(r: SeqRule, s: Sequent, fuel: nat, b: InfApp)
    requires Repeat(r, s, fuel).Some?
    ensures b in Repeat(r, s, fuel).value <==> exists a :: a in r(s) && Normalises(StepOf(r), a, b)
  {
    RepeatAllExact(StepOf(r), r(s), fuel, b);
  }

  // ---------- When repetition ends ----------

  /** The rule can be applied `n` times in a row above `s`, to all premises at once. */
  ghost predicate Survives(r: SeqRule, s: Sequent, n: nat)
    decreases n, 0
  {
    n == 0 || SomeSurvives(r, r(s), n - 1)
  }

  ghost predicate SomeSurvives(r: SeqRule, apps: seq<InfApp>, n: nat)
    decreases n, 2
  {
    exists k :: 0 <= k < |apps| && AllSurvive(r, apps[k].premises, n)
  }

  ghost predicate AllSurvive(r: SeqRule, ps: seq<Premise>, n: nat)
    decreases n, 1
  {
    forall j :: 0 <= j < |ps| ==> Survives(r, ps[j].sequent, n)
  }

  ghost function BestApplication(r: SeqRule, s: Sequent, n: nat): (k: nat)
    requires Survives(r, s, n + 1)
    ensures k < |r(s)| && AllSurvive(r, r(s)[k].premises, n)
  {
    assert SomeSurvives(r, r(s), n);
    var k :| 0 <= k < |r(s)| && AllSurvive(r, r(s)[k].premises, n);
    k
  }

  lemma {:induction false} FromFlatten(l: seq<InfApp>, i: nat) returns (k: nat, j: nat)
    requires i < |Flatten(l)|
    ensures k < |l| && j < |l[k].premises| && Flatten(l)[i] == l[k].premises[j]
  {
    if i < |l[0].premises| {
      k, j := 0, i;
    } else {
      var k', j' := FromFlatten(l[1..], i - |l[0].premises|);
      k, j := k' + 1, j';
    }
  }

  ghost function BestPick(r: SeqRule, a: InfApp, n: nat): (l: seq<InfApp>)
    requires AllSurvive(r, a.premises, n + 1)
    ensures |l| == |a.premises|
    ensures forall j :: 0 <= j < |l| ==>
              l[j] == ApplyToSubgoal(r, a.premises[j])[BestApplication(r, a.premises[j].sequent, n)]
  {
    seq(|a.premises|, j requires 0 <= j < |a.premises| =>
      ApplyToSubgoal(r, a.premises[j])[BestApplication(r, a.premises[j].sequent, n)])
  }

  lemma BestPickSurvives(r: SeqRule, a: InfApp, n: nat)
    requires AllSurvive(r, a.premises, n + 1)
    ensures Picks(r, a, BestPick(r, a, n)) && AllSurvive(r, Flatten(BestPick(r, a, n)), n)
  {
    var l := BestPick(r, a, n);
    forall k | 0 <= k < |l|
      ensures PickedAt(r, a.premises[k], l[k])
    {
      AppliedExact(r, a.premises[k], l[k]);
    }
    forall i | 0 <= i < |Flatten(l)|
      ensures Survives(r, Flatten(l)[i].sequent, n)
    {
      var k, j := FromFlatten(l, i);
      var p := a.premises[k];
      var app := r(p.sequent)[BestApplication(r, p.sequent, n)];
      assert l[k].premises == FixAll(p, app.premises);
      assert AllSurvive(r, app.premises, n);
      assert Survives(r, app.premises[j].sequent, n);
    }
  }

  lemma PickedSurvives(r: SeqRule, a: InfApp, l: seq<InfApp>, n: nat, k: nat)
    requires Picks(r, a, l) && AllSurvive(r, Flatten(l), n) && k < |a.premises|
    ensures Survives(r, a.premises[k].sequent, n + 1)
  {
    var p := a.premises[k];
    assert PickedAt(r, p, l[k]);
    var app :| app in r(p.sequent) && AppliedThrough(p, app, l[k]);
    forall j | 0 <= j < |app.premises|
      ensures Survives(r, app.premises[j].sequent, n)
    {
      assert Through(p, app.premises[j], l[k].premises[j]);
      var i := InFlatten(l, k, j);
    }
    var c :| 0 <= c < |r(p.sequent)| && r(p.sequent)[c] == app;
    assert AllSurvive(r, app.premises, n);
  }

  /** Some rewriting survives `n` rounds exactly when all premises survive one more. */
  lemma RewritingSurvives(r: SeqRule, a: InfApp, n: nat)
    ensures AllSurvive(r, a.premises, n + 1) <==> SomeSurvives(r, StepOf(r)(a), n)
  {
    var apps := ApplyToApplication(r, a);
    if AllSurvive(r, a.premises, n + 1) {
      var l := BestPick(r, a, n);
      BestPickSurvives(r, a, n);
      PickIsResult(r, a, l);
      var k :| 0 <= k < |apps| && apps[k] == Merge(a.descr, l);
      assert AllSurvive(r, apps[k].premises, n);
    }
    if SomeSurvives(r, apps, n) {
      var c :| 0 <= c < |apps| && AllSurvive(r, apps[c].premises, n);
      ResultIsPicked(r, a, c);
      var l :| Picks(r, a, l) && apps[c] == Merge(a.descr, l);
      forall k | 0 <= k < |a.premises|
        ensures Survives(r, a.premises[k].sequent, n + 1)
      {
        PickedSurvives(r, a, l, n, k);
      }
    }
  }

  /** `a` can be rewritten `n` times in a row. */
  ghost predicate Busy(step: Step, a: InfApp, n: nat)
    decreases n
  {
    n == 0 || exists b :: b in step(a) && Busy(step, b, n - 1)
  }

  ghost predicate SomeBusy(step: Step, apps: seq<InfApp>, n: nat) {
    exists k :: 0 <= k < |apps| && Busy(step, apps[k], n)
  }

  lemma BusyStep(step: Step, a: InfApp, n: nat)
    ensures Busy(step, a, n + 1) <==> SomeBusy(step, step(a), n)
  {
    if b :| b in step(a) && Busy(step, b, n) {
      var k :| 0 <= k < |step(a)| && step(a)[k] == b;
    }
    if SomeBusy(step, step(a), n) {
      var k :| 0 <= k < |step(a)| && Busy(step, step(a)[k], n);
      assert step(a)[k] in step(a);
    }
  }

  lemma SomeBusyCons(step: Step, apps: seq<InfApp>, n: nat)
    requires apps != []
    ensures SomeBusy(step, apps, n) <==> Busy(step, apps[0], n) || SomeBusy(step, apps[1..], n)
  {
    if SomeBusy(step, apps, n) {
      var k :| 0 <= k < |apps| && Busy(step, apps[k], n);
      assert k > 0 ==> apps[1..][k - 1] == apps[k];
    }
    if SomeBusy(step, apps[1..], n) {
      var k :| 0 <= k < |apps[1..]| && Busy(step, apps[1..][k], n);
      assert apps[k + 1] == apps[1..][k];
    }
  }

  lemma {:induction false} RepeatAppBusy(step: Step, a: InfApp, fuel: nat)
    ensures RepeatApp(step, a, fuel).None? <==> Busy(step, a, fuel + 1)
    decreases fuel, 1, 0
  {
    BusyStep(step, a, fuel);
    if fuel == 0 {
      assert step(a) != [] ==> Busy(step, step(a)[0], 0);
    } else {
      RepeatAllBusy(step, step(a), fuel - 1);
    }
  }

  lemma {:induction false} RepeatAllBusy(step: Step, apps: seq<InfApp>, fuel: nat)
    ensures RepeatAll(step, apps, fuel).None? <==> SomeBusy(step, apps, fuel + 1)
    decreases fuel, 2, |apps|
  {
    if apps != [] {
      RepeatAppBusy(step, apps[0], fuel);
      RepeatAllBusy(step, apps[1..], fuel);
      SomeBusyCons(step, apps, fuel + 1);
    }
  }

  ghost predicate Tracks(r: SeqRule, step: Step) {
    forall a: InfApp, n: nat :: TracksAt(r, step, a, n)
  }

  ghost predicate TracksAt(r: SeqRule, step: Step, a: InfApp, n: nat) {
    AllSurvive(r, a.premises, n + 1) <==> SomeSurvives(r, step(a), n)
  }

  lemma StepOfTracks(r: SeqRule)
    ensures Tracks(r, StepOf(r))
  {
    forall a: InfApp, n: nat
      ensures TracksAt(r, StepOf(r), a, n)
    {
      RewritingSurvives(r, a, n);
    }
  }

  lemma {:induction false} BusyIsSurviving(r: SeqRule, step: Step, a: InfApp, n: nat)
    requires Tracks(r, step)
    ensures Busy(step, a, n) <==> AllSurvive(r, a.premises, n)
    decreases n, 0
  {
    if n > 0 {
      BusyStep(step, a, n - 1);
      assert TracksAt(r, step, a, n - 1);
      SomeBusyIsSurviving(r, step, step(a), n - 1);
    }
  }

  lemma {:induction false} SomeBusyIsSurviving(r: SeqRule, step: Step, apps: seq<InfApp>, n: nat)
    requires Tracks(r, step)
    ensures SomeBusy(step, apps, n) <==> SomeSurvives(r, apps, n)
    decreases n, 1
  {
    forall k | 0 <= k < |apps|
      ensures Busy(step, apps[k], n) <==> AllSurvive(r, apps[k].premises, n)
    {
      BusyIsSurviving(r, step, apps[k], n);
    }
  }

  /** `repeat` is still busy after `fuel` rounds exactly when the rule can be applied `fuel + 2` times in a row. */
  lemma RepeatRunsOut(r: SeqRule, s: Sequent, fuel: nat)
    ensures Repeat(r, s, fuel).None? <==> Survives(r, s, fuel + 2)
  {
    StepOfTracks(r);
    RepeatAllBusy(StepOf(r), r(s), fuel);
    SomeBusyIsSurviving(r, StepOf(r), r(s), fuel + 1);
  }

  // ---------- When it never does ----------

  ghost predicate Diverges(r: SeqRule, s: Sequent) {
    forall fuel: nat :: Repeat(r, s, fuel).None?
  }

  ghost predicate Sustains(r: SeqRule, ss: iset<Sequent>, s: Sequent, k: nat) {
    k < |r(s)| && forall q :: q in r(s)[k].premises ==> q.sequent in ss
  }

  /** Every sequent of the set has an application whose premises are in the set again. */
  ghost predicate SelfSustaining(r: SeqRule, ss: iset<Sequent>) {
    forall s :: s in ss ==> exists k: nat :: Sustains(r, ss, s, k)
  }

  lemma {:induction false} SustainedSurvives(r: SeqRule, ss: iset<Sequent>, s: Sequent, n: nat)
    requires SelfSustaining(r, ss) && s in ss
    ensures Survives(r, s, n)
    decreases n
  {
    if n > 0 {
      var k: nat :| Sustains(r, ss, s, k);
      var ps := r(s)[k].premises;
      forall j | 0 <= j < |ps|
        ensures Survives(r, ps[j].sequent, n - 1)
      {
        assert ps[j] in ps;
        SustainedSurvives(r, ss, ps[j].sequent, n - 1);
      }
      assert AllSurvive(r, ps, n - 1);
    }
  }

  lemma {:induction false} SurvivesLess(r: SeqRule, s: Sequent, n: nat, n': nat)
    requires Survives(r, s, n) && n' <= n
    ensures Survives(r, s, n')
    decreases n, 0
  {
    if n' > 0 {
      var k := BestApplication(r, s, n - 1);
      AllSurviveLess(r, r(s)[k].premises, n - 1, n' - 1);
    }
  }

  lemma {:induction false} AllSurviveLess(r: SeqRule, ps: seq<Premise>, n: nat, n': nat)
    requires AllSurvive(r, ps, n) && n' <= n
    ensures AllSurvive(r, ps, n')
    decreases n, 1
  {
    forall j | 0 <= j < |ps|
      ensures Survives(r, ps[j].sequent, n')
    {
      SurvivesLess(r, ps[j].sequent, n, n');
    }
  }

  ghost predicate Immortal(r: SeqRule, s: Sequent) {
    forall n: nat :: Survives(r, s, n)
  }

  /** If each of the first `k` applications fails at some depth, there is a depth at which they all fail. */
  lemma {:induction false} CommonDepth(r: SeqRule, s: Sequent, k: nat) returns (n: nat)
    requires k <= |r(s)| && forall j :: 0 <= j < k ==> Fails(r, r(s)[j].premises)
    ensures forall j :: 0 <= j < k ==> !AllSurvive(r, r(s)[j].premises, n)
    decreases k
  {
    n := 0;
    if k > 0 {
      var n0 := CommonDepth(r, s, k - 1);
      assert Fails(r, r(s)[k - 1].premises);
      var n1: nat :| !AllSurvive(r, r(s)[k - 1].premises, n1);
      n := n0 + n1;
      forall j | 0 <= j < k
        ensures !AllSurvive(r, r(s)[j].premises, n)
      {
        if AllSurvive(r, r(s)[j].premises, n) {
          AllSurviveLess(r, r(s)[j].premises, n, if j < k - 1 then n0 else n1);
        }
      }
    }
  }

  ghost predicate Fails(r: SeqRule, ps: seq<Premise>) {
    exists n: nat :: !AllSurvive(r, ps, n)
  }

  lemma ImmortalStep(r: SeqRule, s: Sequent)
    ensures Immortal(r, s) ==> exists k :: 0 <= k < |r(s)| && !Fails(r, r(s)[k].premises)
  {
    if forall k :: 0 <= k < |r(s)| ==> Fails(r, r(s)[k].premises) {
      var n := CommonDepth(r, s, |r(s)|);
      assert !Survives(r, s, n + 1);
    }
  }

  lemma ImmortalsSustain(r: SeqRule)
    ensures SelfSustaining(r, iset s | Immortal(r, s))
  {
    var ss := iset s | Immortal(r, s);
    forall s | s in ss
      ensures exists k: nat :: Sustains(r, ss, s, k)
    {
      ImmortalStep(r, s);
      var k :| 0 <= k < |r(s)| && !Fails(r, r(s)[k].premises);
      var ps := r(s)[k].premises;
      forall q | q in ps
        ensures q.sequent in ss
      {
        var j :| 0 <= j < |ps| && ps[j] == q;
        forall n: nat
          ensures Survives(r, q.sequent, n)
        {
          assert AllSurvive(r, ps, n);
        }
      }
      assert Sustains(r, ss, s, k);
    }
  }

  /** `repeat` diverges exactly from the sequents that lie in a self-sustaining set. */
  lemma RepeatDivergesIff(r: SeqRule, s: Sequent)
    ensures Diverges(r, s) <==> exists ss :: s in ss && SelfSustaining(r, ss)
  {
    forall fuel: nat
      ensures Repeat(r, s, fuel).None? <==> Survives(r, s, fuel + 2)
    {
      RepeatRunsOut(r, s, fuel);
    }
    if Diverges(r, s) {
      forall n: nat
        ensures Survives(r, s, n)
      {
        assert Repeat(r, s, n).None?;
        SurvivesLess(r, s, n + 2, n);
      }
      ImmortalsSustain(r);
      assert s in iset s' | Immortal(r, s');
    }
    if ss :| s in ss && SelfSustaining(r, ss) {
      forall fuel: nat
        ensures Repeat(r, s, fuel).None?
      {
        SustainedSurvives(r, ss, s, fuel + 2);
      }
    }
  }

  /** An application without premises is enough. */
  lemma RepeatDivergesOnAxioms(r: SeqRule, s: Sequent, k: nat)
    requires k < |r(s)| && r(s)[k].premises == []
    ensures Diverges(r, s)
  {
    assert Sustains(r, iset{s}, s, k);
    assert s in iset{s} && SelfSustaining(r, iset{s});
    RepeatDivergesIff(r, s);
  }

  /** For instance with the rule that closes every sequent. */
  lemma ClosingRuleDiverges()
    ensures Diverges(s => [InfApp([], "Id")], Sequent(0, []))
  {
    RepeatDivergesOnAxioms(s => [InfApp([], "Id")], Sequent(0, []), 0);
  }
}
